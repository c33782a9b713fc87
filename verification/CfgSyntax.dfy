/** The language of `cfg(...)` conditions and what they mean, independently of how they are parsed. */
module CfgSyntax {
  import opened Text

  /** What the compiler reports for the target. */
  datatype CfgSet = CfgSet(flags: set<string>, values: map<string, set<string>>)

  /** A character of a quoted value, as written. */
  datatype Letter = Plain(c: char) | Escaped(c: char)

  /** A condition as written; the gaps are white space. */
  datatype Syntax =
    | Flag(name: string)
    | Pair(name: string, gap: string, gap': string, value: seq<Letter>)
    | Not(gap: string, before: string, arg: Syntax, after: string)
    | Group(all: bool, gap: string, args: Arguments)

  datatype Arguments =
    | None(gap: string)
    | Last(before: string, arg: Syntax, after: string)
    | More(before: string, arg: Syntax, after: string, rest: Arguments)

  predicate IsNameChar(c: char) { 'a' <= c <= 'z' || 'A' <= c <= 'Z' || '0' <= c <= '9' || c == '_' || c == '-' }

  ghost predicate IsName(s: string) { s != "" && forall c :: c in s ==> IsNameChar(c) }

  ghost predicate LettersWell(value: seq<Letter>) {
    forall l :: l in value && l.Plain? ==> l.c != '"' && l.c != '\\'
  }

  ghost predicate Well(e: Syntax) {
    match e
    case Flag(name) => IsName(name)
    case Pair(name, gap, gap', value) => IsName(name) && IsGap(gap) && IsGap(gap') && LettersWell(value)
    case Not(gap, before, arg, after) => IsGap(gap) && IsGap(before) && Well(arg) && IsGap(after)
    case Group(_, gap, args) => IsGap(gap) && ArgumentsWell(args)
  }

  ghost predicate ArgumentsWell(args: Arguments) {
    match args
    case None(gap) => IsGap(gap)
    case Last(before, arg, after) => IsGap(before) && Well(arg) && IsGap(after)
    case More(before, arg, after, rest) => IsGap(before) && Well(arg) && IsGap(after) && ArgumentsWell(rest) && !rest.None?
  }

  ghost function Size(e: Syntax): nat {
    match e
    case Flag(_) => 0
    case Pair(_, _, _, _) => 0
    case Not(_, _, arg, _) => 2 + Size(arg)
    case Group(_, _, args) => 1 + ArgumentsSize(args)
  }

  ghost function ArgumentsSize(args: Arguments): nat {
    match args
    case None(_) => 0
    case Last(_, arg, _) => 1 + Size(arg)
    case More(_, arg, _, rest) => 1 + Size(arg) + ArgumentsSize(rest)
  }

  // ---- Text ----

  function PrintLetter(l: Letter): string { if l.Plain? then [l.c] else ['\\', l.c] }

  function PrintLetters(value: seq<Letter>): string {
    if value == [] then ""
    else PrintLetter(value[0]) + PrintLetters(value[1..])
  }

  function GroupName(all: bool): string { if all then "all" else "any" }

  function Print(e: Syntax): string {
    match e
    case Flag(name) => name
    case Pair(name, gap, gap', value) => name + (gap + ("=" + (gap' + ("\"" + (PrintLetters(value) + "\"")))))
    case Not(gap, before, arg, after) => "not" + (gap + ("(" + (before + (Print(arg) + (after + ")")))))
    case Group(all, gap, args) => GroupName(all) + (gap + ("(" + (PrintArguments(args) + ")")))
  }

  function PrintArguments(args: Arguments): string {
    match args
    case None(gap) => gap
    case Last(before, arg, after) => before + (Print(arg) + after)
    case More(before, arg, after, rest) => before + (Print(arg) + (after + ("," + PrintArguments(rest))))
  }

  // ---- Meaning ----

  function Value(value: seq<Letter>): string {
    if value == [] then "" else [value[0].c] + Value(value[1..])
  }

  predicate Listed(cfg: CfgSet, key: string, value: string) { key in cfg.values && value in cfg.values[key] }

  predicate Holds(cfg: CfgSet, features: set<string>, e: Syntax) {
    match e
    case Flag(name) => name in cfg.flags
    case Pair(name, _, _, value) => if name == "feature" then Value(value) in features else Listed(cfg, name, Value(value))
    case Not(_, _, arg, _) => !Holds(cfg, features, arg)
    case Group(all, _, args) => if all then AllHold(cfg, features, args) else AnyHolds(cfg, features, args)
  }

  predicate AllHold(cfg: CfgSet, features: set<string>, args: Arguments) {
    match args
    case None(_) => true
    case Last(_, arg, _) => Holds(cfg, features, arg)
    case More(_, arg, _, rest) => Holds(cfg, features, arg) && AllHold(cfg, features, rest)
  }

  predicate AnyHolds(cfg: CfgSet, features: set<string>, args: Arguments) {
    match args
    case None(_) => false
    case Last(_, arg, _) => Holds(cfg, features, arg)
    case More(_, arg, _, rest) => Holds(cfg, features, arg) || AnyHolds(cfg, features, rest)
  }

  /** The values of the arguments, in order. */
  function Values(cfg: CfgSet, features: set<string>, args: Arguments): seq<bool> {
    match args
    case None(_) => []
    case Last(_, arg, _) => [Holds(cfg, features, arg)]
    case More(_, arg, _, rest) => [Holds(cfg, features, arg)] + Values(cfg, features, rest)
  }

  lemma {:induction false} ValuesMean(cfg: CfgSet, features: set<string>, args: Arguments)
    ensures AllHold(cfg, features, args) <==> forall i :: 0 <= i < |Values(cfg, features, args)| ==> Values(cfg, features, args)[i]
    ensures AnyHolds(cfg, features, args) <==> exists i :: 0 <= i < |Values(cfg, features, args)| && Values(cfg, features, args)[i]
  {
    if args.More? {
      ValuesMean(cfg, features, args.rest);
      var vs, ws := Values(cfg, features, args), Values(cfg, features, args.rest);
      assert vs[0] == Holds(cfg, features, args.arg);
      assert forall i :: 0 <= i < |ws| ==> vs[i + 1] == ws[i];
      if i :| 0 <= i < |ws| && ws[i] {
        assert vs[i + 1];
      }
      if i :| 0 <= i < |vs| && !vs[i] {
        assert i > 0 ==> !ws[i - 1];
      }
    } else if args.Last? {
      assert Values(cfg, features, args)[0] == Holds(cfg, features, args.arg);
    }
  }
}
