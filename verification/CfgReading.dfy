/** The text that the recursive descent of bin/cargo/cfg.go accepts, as functions of the input that is
    left: each yields a value and the rest of the input, or what is thrown. White space is skipped where
    the parser skips it, so a rest may or may not begin with some. CfgParser.dfy computes these functions
    with a position; CfgLanguage.dfy relates them to the language of conditions. */
module CfgReading {
  import opened Text
  import opened CfgSyntax

  datatype CfgError =
    | ExpectedIdentifier(at: string)
    | Expected(want: char, at: string)
    | UnterminatedString
    | NotExpectsOne
    | UnknownOperator(name: string)

  datatype Parsed<T> = Ok(value: T) | Thrown(error: CfgError)

  /** A value read and the input left. */
  datatype Read<T> = Read(value: T, rest: string)

  type Reading<T> = Parsed<Read<T>>

  predicate StartsWith(s: string, c: char) { s != "" && s[0] == c }

  function NameLength(s: string): (n: nat)
    ensures n <= |s| && (forall i :: 0 <= i < n ==> IsNameChar(s[i])) && (n < |s| ==> !IsNameChar(s[n]))
  {
    if s != "" && IsNameChar(s[0]) then 1 + NameLength(s[1..]) else 0
  }

  function Ident(s: string): (r: Reading<string>)
    ensures r.Ok? ==> |r.value.rest| < |s|
  {
    var t := TrimLeft(s);
    var n := NameLength(t);
    if n == 0 then Thrown(ExpectedIdentifier(t)) else Ok(Read(t[..n], t[n..]))
  }

  function Expect(want: char, s: string): (r: Parsed<string>)
    ensures r.Ok? ==> |r.value| < |s|
  {
    var t := TrimLeft(s);
    if StartsWith(t, want) then Ok(t[1..]) else Thrown(Expected(want, t))
  }

  /** The rest of a string after its opening quote. */
  function Letters(s: string): (r: Reading<string>)
    ensures r.Ok? ==> |r.value.rest| < |s|
  {
    if s == "" then Thrown(UnterminatedString)
    else if s[0] == '"' then Ok(Read("", s[1..]))
    else if s[0] == '\\' && |s| > 1 then Prepend([s[1]], Letters(s[2..]))
    else Prepend([s[0]], Letters(s[1..]))
  }

  function Prepend<T>(values: seq<T>, r: Reading<seq<T>>): Reading<seq<T>> {
    match r
    case Ok(Read(more, rest)) => Ok(Read(values + more, rest))
    case Thrown(e) => Thrown(e)
  }

  function Quoted(s: string): (r: Reading<string>)
    ensures r.Ok? ==> |r.value.rest| < |s|
  {
    match Expect('"', TrimLeft(s))
    case Ok(t) => Letters(t)
    case Thrown(e) => Thrown(e)
  }

  function Apply(name: string, values: seq<bool>): Parsed<bool> {
    if name == "not" then (if |values| != 1 then Thrown(NotExpectsOne) else Ok(!values[0]))
    else if name == "all" then Ok(forall i :: 0 <= i < |values| ==> values[i])
    else if name == "any" then Ok(exists i :: 0 <= i < |values| && values[i])
    else Thrown(UnknownOperator(name))
  }

  function Expression(cfg: CfgSet, features: set<string>, s: string): (r: Reading<bool>)
    ensures r.Ok? ==> |r.value.rest| < |s|
    decreases |s|, 1
  {
    match Ident(s)
    case Thrown(e) => Thrown(e)
    case Ok(Read(name, after)) =>
      var t := TrimLeft(after);
      if StartsWith(t, '(') then Call(cfg, features, name, t[1..])
      else if StartsWith(t, '=') then
        match Quoted(t[1..])
        case Thrown(e) => Thrown(e)
        case Ok(Read(value, rest)) =>
          Ok(Read(if name == "feature" then value in features else Listed(cfg, name, value), rest))
      else Ok(Read(name in cfg.flags, t))
  }

  /** An operator's arguments, after the opening parenthesis. */
  function Call(cfg: CfgSet, features: set<string>, name: string, s: string): (r: Reading<bool>)
    ensures r.Ok? ==> |r.value.rest| < |s|
    decreases |s|, 4
  {
    match Operands(cfg, features, s)
    case Thrown(e) => Thrown(e)
    case Ok(Read(values, after)) =>
      match Expect(')', after)
      case Thrown(e) => Thrown(e)
      case Ok(rest) =>
        match Apply(name, values)
        case Thrown(e) => Thrown(e)
        case Ok(value) => Ok(Read(value, rest))
  }

  function Operands(cfg: CfgSet, features: set<string>, s: string): (r: Reading<seq<bool>>)
    ensures r.Ok? ==> |r.value.rest| <= |s|
    decreases |s|, 3
  {
    if StartsWith(TrimLeft(s), ')') then Ok(Read([], TrimLeft(s))) else List(cfg, features, s)
  }

  /** One or more expressions separated by commas. */
  function List(cfg: CfgSet, features: set<string>, s: string): (r: Reading<seq<bool>>)
    ensures r.Ok? ==> |r.value.rest| < |s|
    decreases |s|, 2
  {
    match Expression(cfg, features, s)
    case Thrown(e) => Thrown(e)
    case Ok(Read(value, after)) =>
      var t := TrimLeft(after);
      if StartsWith(t, ',') then Prepend([value], List(cfg, features, t[1..])) else Ok(Read([value], t))
  }

  const CFG := "cfg("

  /** `CfgSet.matches`. */
  function Matches(cfg: CfgSet, features: set<string>, condition: string): Parsed<bool> {
    var text := TrimSpace(condition);
    if !HasPrefix(text, CFG) then Ok(Listed(cfg, "target", text))
    else
      match Expression(cfg, features, text[|CFG|..])
      case Thrown(e) => Thrown(e)
      case Ok(Read(value, rest)) =>
        match Expect(')', rest)
        case Thrown(e) => Thrown(e)
        case Ok(_) => Ok(value)
  }

  lemma {:induction false} NameLengthIs(s: string, n: nat)
    requires n <= |s| && (forall i :: 0 <= i < n ==> IsNameChar(s[i])) && (n < |s| ==> !IsNameChar(s[n]))
    ensures NameLength(s) == n
  {
    if n > 0 {
      NameLengthIs(s[1..], n - 1);
    }
  }

  lemma PrependNothing<T>(r: Reading<seq<T>>)
    ensures Prepend([], r) == r
  {
    if r.Ok? {
      assert [] + r.value.value == r.value.value;
    }
  }

  lemma PrependTwice<T>(a: seq<T>, b: seq<T>, r: Reading<seq<T>>)
    ensures Prepend(a, Prepend(b, r)) == Prepend(a + b, r)
  {
    if r.Ok? {
      assert a + (b + r.value.value) == (a + b) + r.value.value;
    }
  }

  lemma CfgIsRead(text: string)
    requires HasPrefix(text, CFG)
    ensures Ident(text) == Ok(Read("cfg", text[3..])) && Expect('(', text[3..]) == Ok(text[|CFG|..])
  {
    assert text[0] == 'c' && text[1] == 'f' && text[2] == 'g' && text[3] == '(';
    NameLengthIs(text, 3);
    assert text[..3] == "cfg";
  }

  /** White space before the arguments does not matter. */
  lemma UntrimmedList(cfg: CfgSet, features: set<string>, s: string)
    ensures List(cfg, features, TrimLeft(s)) == List(cfg, features, s)
  {
    hide TrimLeft, Call, Quoted;
    TrimLeftTwice(s);
    assert Ident(TrimLeft(s)) == Ident(s);
    hide Ident;
    assert Expression(cfg, features, TrimLeft(s)) == Expression(cfg, features, s);
  }
}
