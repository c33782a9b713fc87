/** The recursive descent of bin/cargo/cfg.go in its own form: an object with a position that every
    method advances, past white space first. Each method is proved against the function of the same name
    in CfgReading.dfy, applied to the input that is left at the position it starts from; an exception
    ends the parse, and the position is then of no interest. */
module CfgParser {
  import opened Text
  import opened CfgSyntax
  import opened CfgReading

  class Parser {
    const input: string
    var pos: nat

    constructor (input: string)
      ensures this.input == input && pos == 0
    {
      this.input := input;
      pos := 0;
    }

    predicate Valid()
      reads this
    {
      pos <= |input|
    }

    ghost function Left(): string
      reads this
      requires Valid()
    {
      input[pos..]
    }

    method Space()
      requires Valid()
      modifies this
      ensures Valid() && Left() == TrimLeft(old(Left())) && old(pos) <= pos
    {
      while pos < |input| && IsSpace(input[pos])
        invariant Valid() && old(pos) <= pos && TrimLeft(Left()) == TrimLeft(old(Left()))
      {
        assert Left()[1..] == input[pos + 1..];
        pos := pos + 1;
      }
    }

    method Take(want: char) returns (taken: bool)
      requires Valid()
      modifies this
      ensures Valid() && old(pos) <= pos && taken == StartsWith(TrimLeft(old(Left())), want)
      ensures Left() == if taken then TrimLeft(old(Left()))[1..] else TrimLeft(old(Left()))
      ensures taken ==> old(pos) < pos
    {
      Space();
      if pos < |input| && input[pos] == want {
        assert Left()[1..] == input[pos + 1..];
        pos := pos + 1;
        return true;
      }
      return false;
    }

    method Peek(want: char) returns (next: bool)
      requires Valid()
      modifies this
      ensures Valid() && old(pos) <= pos && Left() == TrimLeft(old(Left())) && next == StartsWith(Left(), want)
    {
      Space();
      next := pos < |input| && input[pos] == want;
    }

    method Expect(want: char) returns (r: Parsed<()>)
      requires Valid()
      modifies this
      ensures Valid() && old(pos) <= pos
      ensures match CfgReading.Expect(want, old(Left()))
        case Ok(rest) => r == Ok(()) && Left() == rest && old(pos) < pos
        case Thrown(e) => r == Thrown(e)
    {
      var taken := Take(want);
      r := if taken then Ok(()) else Thrown(Expected(want, input[pos..]));
    }

    method Ident() returns (r: Parsed<string>)
      requires Valid()
      modifies this
      ensures Valid() && old(pos) <= pos
      ensures match CfgReading.Ident(old(Left()))
        case Ok(Read(name, rest)) => r == Ok(name) && Left() == rest && old(pos) < pos
        case Thrown(e) => r == Thrown(e)
    {
      Space();
      hide TrimLeft, NameLength;
      var name := NameChars();
      r := if name == "" then Thrown(ExpectedIdentifier(input[pos..])) else Ok(name);
    }

    method NameChars() returns (name: string)
      requires Valid()
      modifies this
      ensures Valid() && pos == old(pos) + |name| && |name| == NameLength(old(Left()))
      ensures name == old(Left())[..|name|] && Left() == old(Left())[|name|..]
    {
      ghost var t := Left();
      var start := pos;
      while pos < |input| && IsNameChar(input[pos])
        invariant start <= pos <= |input| && forall i :: start <= i < pos ==> IsNameChar(input[i])
      {
        pos := pos + 1;
      }
      NameLengthIs(t, pos - start);
      Cut(input, start, pos - start);
      name := input[start..pos];
    }

    method Quoted() returns (r: Parsed<string>)
      requires Valid()
      modifies this
      ensures Valid() && old(pos) <= pos
      ensures match CfgReading.Quoted(old(Left()))
        case Ok(Read(value, rest)) => r == Ok(value) && Left() == rest && old(pos) < pos
        case Thrown(e) => r == Thrown(e)
    {
      Space();
      var opening := Expect('"');
      if opening.Thrown? {
        return Thrown(opening.error);
      }
      r := Unquote();
    }

    method Unquote() returns (r: Parsed<string>)
      requires Valid()
      modifies this
      ensures Valid() && old(pos) <= pos
      ensures match Letters(old(Left()))
        case Ok(Read(value, rest)) => r == Ok(value) && Left() == rest
        case Thrown(e) => r == Thrown(e)
    {
      var result := "";
      ghost var whole := Letters(Left());
      PrependNothing(whole);
      while pos < |input|
        invariant Valid() && old(pos) <= pos && whole == Prepend(result, Letters(Left()))
      {
        var c := input[pos];
        assert Left()[1..] == input[pos + 1..];
        assert pos + 2 <= |input| ==> Left()[2..] == input[pos + 2..];
        pos := pos + 1;
        if c == '"' {
          assert result + "" == result;
          return Ok(result);
        }
        if c == '\\' && pos < |input| {
          c := input[pos];
          pos := pos + 1;
        }
        PrependTwice(result, [c], Letters(Left()));
        result := result + [c];
      }
      return Thrown(UnterminatedString);
    }

    /** `expression`: the value of the condition at the position, or what it throws. */
    method Expression(cfg: CfgSet, features: set<string>) returns (r: Parsed<bool>)
      requires Valid()
      modifies this
      ensures Valid() && old(pos) <= pos
      ensures match CfgReading.Expression(cfg, features, old(Left()))
        case Ok(Read(value, rest)) => r == Ok(value) && Left() == rest && old(pos) < pos
        case Thrown(e) => r == Thrown(e)
      decreases |input| - pos, 1
    {
      hide CfgReading.Quoted, CfgReading.Ident, CfgReading.Call, TrimLeft, Listed;
      var ident := Ident();
      if ident.Thrown? {
        return Thrown(ident.error);
      }
      var name := ident.value;
      TrimLeftTwice(Left());
      TrimLeftTwice(TrimLeft(Left()));
      Space();
      var open := Take('(');
      if open {
        r := Call(cfg, features, name);
        return;
      }
      var equals := Take('=');
      if equals {
        var quoted := Quoted();
        if quoted.Thrown? {
          return Thrown(quoted.error);
        }
        var value := quoted.value;
        return Ok(if name == "feature" then value in features else Listed(cfg, name, value));
      }
      return Ok(name in cfg.flags);
    }

    /** An operator's arguments, its closing parenthesis and its value. */
    method Call(cfg: CfgSet, features: set<string>, name: string) returns (r: Parsed<bool>)
      requires Valid()
      modifies this
      ensures Valid() && old(pos) <= pos
      ensures match CfgReading.Call(cfg, features, name, old(Left()))
        case Ok(Read(value, rest)) => r == Ok(value) && Left() == rest
        case Thrown(e) => r == Thrown(e)
      decreases |input| - pos, 3
    {
      hide List, TrimLeft, Apply;
      var values := [];
      var empty := Peek(')');
      if !empty {
        UntrimmedList(cfg, features, old(Left()));
        var list := Arguments(cfg, features);
        if list.Thrown? {
          return Thrown(list.error);
        }
        values := list.value;
      }
      var closed := Expect(')');
      if closed.Thrown? {
        return Thrown(closed.error);
      }
      r := Apply(name, values);
    }

    method Arguments(cfg: CfgSet, features: set<string>) returns (r: Parsed<seq<bool>>)
      requires Valid()
      modifies this
      ensures Valid() && old(pos) <= pos
      ensures match List(cfg, features, old(Left()))
        case Ok(Read(values, rest)) => r == Ok(values) && Left() == rest
        case Thrown(e) => r == Thrown(e)
      decreases |input| - pos, 2
    {
      ghost var whole := List(cfg, features, Left());
      var values := [];
      PrependNothing(whole);
      while true
        invariant Valid() && old(pos) <= pos && whole == Prepend(values, List(cfg, features, Left()))
        decreases |input| - pos
      {
        ghost var here := Left();
        var value := Expression(cfg, features);
        if value.Thrown? {
          return Thrown(value.error);
        }
        ghost var after := Left();
        var comma := Take(',');
        if !comma {
          return Ok(values + [value.value]);
        }
        PrependTwice(values, [value.value], List(cfg, features, Left()));
        values := values + [value.value];
      }
    }
  }

  lemma Cut(s: string, i: nat, n: nat)
    requires i + n <= |s|
    ensures s[i..][..n] == s[i..i + n] && s[i..][n..] == s[i + n..]
  {
  }

  /** `CfgSet.matches`. */
  method Matches(cfg: CfgSet, features: set<string>, condition: string) returns (r: Parsed<bool>)
    ensures r == CfgReading.Matches(cfg, features, condition)
  {
    hide CfgReading.Expression, CfgReading.Ident, CfgReading.Expect, TrimSpace, TrimLeft;
    var text := TrimSpace(condition);
    if !HasPrefix(text, CFG) {
      return Ok(Listed(cfg, "target", text));
    }
    CfgIsRead(text);
    var parser := new Parser(text);
    var name := parser.Ident();
    var opening := parser.Expect('(');
    var result := parser.Expression(cfg, features);
    if result.Thrown? {
      return Thrown(result.error);
    }
    var closed := parser.Expect(')');
    if closed.Thrown? {
      return Thrown(closed.error);
    }
    return Ok(result.value);
  }
}
