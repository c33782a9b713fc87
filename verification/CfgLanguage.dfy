/** What bin/cargo/cfg.go accepts is the language of conditions, and what it answers is their meaning. */
module CfgLanguage {
  import opened Text
  import opened CfgSyntax
  import opened CfgReading

  // ---- Small pieces ----

  lemma {:induction false} NameReads(name: string, t: string)
    requires (forall c :: c in name ==> IsNameChar(c)) && (t == "" || !IsNameChar(t[0]))
    ensures NameLength(name + t) == |name|
  {
    if name == "" {
      assert name + t == t;
    } else {
      assert (name + t)[1..] == name[1..] + t;
      NameReads(name[1..], t);
    }
  }

  lemma IdentReads(before: string, name: string, t: string)
    requires IsGap(before) && IsName(name) && (t == "" || !IsNameChar(t[0]))
    ensures Ident(before + (name + t)) == Ok(Read(name, t))
  {
    TrimGap(before, name + t);
    NameReads(name, t);
    assert !IsSpace(name[0]);
    assert TrimLeft(name + t) == name + t;
  }

  lemma ExpectReads(gap: string, want: char, t: string)
    requires IsGap(gap) && !IsSpace(want)
    ensures Expect(want, gap + ([want] + t)) == Ok(t)
    ensures StartsWith(TrimLeft(gap + ([want] + t)), want) && TrimLeft(gap + ([want] + t))[1..] == t
  {
    TrimGap(gap, [want] + t);
    assert TrimLeft([want] + t) == [want] + t;
  }

  lemma {:induction false} LettersRead(value: seq<Letter>, t: string)
    requires LettersWell(value)
    ensures Letters(PrintLetters(value) + ("\"" + t)) == Ok(Read(Value(value), t))
  {
    var u := "\"" + t;
    if value == [] {
      assert PrintLetters(value) + u == u;
    } else {
      var l, more := value[0], PrintLetters(value[1..]) + u;
      assert l in value;
      LettersRead(value[1..], t);
      Together(PrintLetter(l), PrintLetters(value[1..]), u);
      if l.Plain? {
        PlainRead(l.c, more);
      } else {
        EscapeRead(l.c, more);
      }
    }
  }

  lemma PlainRead(c: char, t: string)
    requires c != '"' && c != '\\'
    ensures Letters([c] + t) == Prepend([c], Letters(t))
  {
    assert ([c] + t)[1..] == t;
  }

  lemma EscapeRead(c: char, t: string)
    ensures Letters(['\\', c] + t) == Prepend([c], Letters(t))
  {
    assert (['\\', c] + t)[2..] == t;
  }

  lemma PrintStarts(e: Syntax)
    requires Well(e)
    ensures Print(e) != "" && IsNameChar(Print(e)[0])
  {
  }

  /** What may follow an expression: white space and a comma or a closing parenthesis. */
  ghost predicate Closes(t: string) { StartsWith(TrimLeft(t), ',') || StartsWith(TrimLeft(t), ')') }

  lemma ClosesMeans(t: string)
    requires Closes(t)
    ensures t != "" && !IsNameChar(t[0])
  {
  }

  lemma GapCloses(gap: string, t: string)
    requires IsGap(gap) && Closes(t)
    ensures Closes(gap + t) && TrimLeft(gap + t) == TrimLeft(t)
  {
    TrimGap(gap, t);
  }

  // ---- Every condition is read as what it means ----

  /** `r` holds this value and, up to white space, this rest. */
  ghost predicate ReadsAs<T>(r: Reading<T>, value: T, t: string) {
    r.Ok? && r.value.value == value && TrimLeft(r.value.rest) == TrimLeft(t)
  }

  lemma {:induction false} ExpressionReads(cfg: CfgSet, features: set<string>, e: Syntax, before: string, t: string)
    requires Well(e) && IsGap(before) && Closes(t)
    ensures ReadsAs(Expression(cfg, features, before + (Print(e) + t)), Holds(cfg, features, e), t)
    decreases Size(e), 0
  {
    hide Expression, Quoted, Call, List, IsGap, Closes, Ident, AllHold, AnyHolds, Values, Apply;
    match e
    case Flag(name) =>
      FlagReads(cfg, features, name, before, t);
    case Pair(name, gap, gap', value) =>
      assert Print(e) + t == name + (gap + ("=" + (gap' + ("\"" + (PrintLetters(value) + ("\"" + t))))));
      QuotedReads(value, gap', t);
      PairReads(cfg, features, name, gap, before, gap' + ("\"" + (PrintLetters(value) + ("\"" + t))));
    case Not(gap, b, arg, a) =>
      var args := Last(b, arg, a);
      assert Print(e) + t == "not" + (gap + ("(" + (PrintArguments(args) + (")" + t))));
      OperatorReads(cfg, features, "not", gap, before, PrintArguments(args) + (")" + t));
      NotHolds(cfg, features, e);
      CallReads(cfg, features, "not", args, t);
    case Group(all, gap, args) =>
      assert Print(e) + t == GroupName(all) + (gap + ("(" + (PrintArguments(args) + (")" + t))));
      OperatorReads(cfg, features, GroupName(all), gap, before, PrintArguments(args) + (")" + t));
      GroupHolds(cfg, features, e);
      CallReads(cfg, features, GroupName(all), args, t);
  }

  lemma GapStart(gap: string, c: char, t: string)
    requires IsGap(gap) && !IsNameChar(c)
    ensures gap + ([c] + t) != "" && !IsNameChar((gap + ([c] + t))[0])
  {
    assert gap != "" ==> gap[0] in gap;
  }

  lemma FlagReads(cfg: CfgSet, features: set<string>, name: string, before: string, t: string)
    requires IsName(name) && IsGap(before) && Closes(t)
    ensures Expression(cfg, features, before + (name + t)) == Ok(Read(name in cfg.flags, TrimLeft(t)))
    ensures TrimLeft(TrimLeft(t)) == TrimLeft(t)
  {
    ClosesMeans(t);
    IdentReads(before, name, t);
  }

  lemma QuotedReads(value: seq<Letter>, gap: string, t: string)
    requires LettersWell(value) && IsGap(gap)
    ensures Quoted(gap + ("\"" + (PrintLetters(value) + ("\"" + t)))) == Ok(Read(Value(value), t))
  {
    var u := PrintLetters(value) + ("\"" + t);
    TrimGap(gap, "\"" + u);
    LettersRead(value, t);
    assert TrimLeft("\"" + u) == "\"" + u && ("\"" + u)[1..] == u;
  }

  lemma PairReads(cfg: CfgSet, features: set<string>, name: string, gap: string, before: string, u: string)
    requires IsName(name) && IsGap(gap) && IsGap(before) && Quoted(u).Ok?
    ensures var value := Quoted(u).value.value;
      Expression(cfg, features, before + (name + (gap + ("=" + u))))
      == Ok(Read(if name == "feature" then value in features else Listed(cfg, name, value), Quoted(u).value.rest))
  {
    hide Quoted, TrimLeft, Ident;
    GapStart(gap, '=', u);
    IdentReads(before, name, gap + ("=" + u));
    ExpectReads(gap, '=', u);
  }

  lemma OperatorReads(cfg: CfgSet, features: set<string>, name: string, gap: string, before: string, u: string)
    requires IsName(name) && IsGap(gap) && IsGap(before)
    ensures Expression(cfg, features, before + (name + (gap + ("(" + u)))) == Call(cfg, features, name, u)
  {
    hide Call, TrimLeft, Ident;
    GapStart(gap, '(', u);
    IdentReads(before, name, gap + ("(" + u));
    ExpectReads(gap, '(', u);
  }

  lemma {:induction false} CallReads(cfg: CfgSet, features: set<string>, name: string, args: Arguments, t: string)
    requires ArgumentsWell(args) && Apply(name, Values(cfg, features, args)).Ok?
    ensures Call(cfg, features, name, PrintArguments(args) + (")" + t))
            == Ok(Read(Apply(name, Values(cfg, features, args)).value, t))
    decreases ArgumentsSize(args), 2
  {
    hide List, Apply;
    ExpectReads("", ')', t);
    assert "" + (")" + t) == ")" + t;
    assert TrimLeft(")" + t) == ")" + t;
    if args.None? {
      TrimGap(args.gap, ")" + t);
    } else {
      ArgumentsRead(cfg, features, args, ")" + t);
      FirstArgument(args, ")" + t);
    }
  }

  lemma FirstArgument(args: Arguments, t: string)
    requires ArgumentsWell(args) && !args.None?
    ensures !StartsWith(TrimLeft(PrintArguments(args) + t), ')')
  {
    PrintStarts(args.arg);
    var p := Print(args.arg);
    var u := if args.Last? then args.after else args.after + ("," + PrintArguments(args.rest));
    hide IsNameChar, Well, Print;
    Together(args.before, p + u, t);
    Together(p, u, t);
    TrimGap(args.before, p + (u + t));
    Unspaced(p + (u + t));
  }

  lemma {:induction false} ArgumentsRead(cfg: CfgSet, features: set<string>, args: Arguments, t: string)
    requires ArgumentsWell(args) && !args.None? && StartsWith(t, ')')
    ensures List(cfg, features, PrintArguments(args) + t) == Ok(Read(Values(cfg, features, args), t))
    decreases ArgumentsSize(args), 1
  {
    assert TrimLeft(t) == t;
    if args.Last? {
      assert PrintArguments(args) + t == args.before + (Print(args.arg) + (args.after + t));
      GapCloses(args.after, t);
      ExpressionReads(cfg, features, args.arg, args.before, args.after + t);
    } else {
      var u := PrintArguments(args.rest) + t;
      assert PrintArguments(args) + t == args.before + (Print(args.arg) + (args.after + ("," + u)));
      assert TrimLeft("," + u) == "," + u;
      GapCloses(args.after, "," + u);
      ExpressionReads(cfg, features, args.arg, args.before, args.after + ("," + u));
      ArgumentsRead(cfg, features, args.rest, t);
    }
  }

  // ---- Whatever is read is such a condition ----

  lemma {:induction false} TrimSplit(t: string) returns (gap: string)
    ensures IsGap(gap) && t == gap + TrimLeft(t)
  {
    if t != "" && IsSpace(t[0]) {
      var more := TrimSplit(t[1..]);
      gap := [t[0]] + more;
      assert TrimLeft(t) == TrimLeft(t[1..]) && t == [t[0]] + t[1..];
      assert [t[0]] + (more + TrimLeft(t)) == gap + TrimLeft(t);
    } else {
      gap := "";
    }
  }

  lemma IdentFound(s: string) returns (before: string)
    requires Ident(s).Ok?
    ensures IsGap(before) && IsName(Ident(s).value.value)
    ensures s == before + (Ident(s).value.value + Ident(s).value.rest)
  {
    before := TrimSplit(s);
    var t := TrimLeft(s);
    assert t == t[..NameLength(t)] + t[NameLength(t)..];
  }

  lemma {:induction false} LettersFound(s: string) returns (value: seq<Letter>)
    requires Letters(s).Ok?
    ensures LettersWell(value) && Value(value) == Letters(s).value.value
    ensures s == PrintLetters(value) + ("\"" + Letters(s).value.rest)
  {
    if s[0] == '"' {
      value := [];
      assert s == [s[0]] + s[1..];
    } else {
      var escaped := s[0] == '\\' && |s| > 1;
      var l := if escaped then Escaped(s[1]) else Plain(s[0]);
      var u := s[|PrintLetter(l)|..];
      assert s == PrintLetter(l) + u;
      var more := LettersFound(u);
      value := [l] + more;
      assert value[1..] == more;
      Together(PrintLetter(l), PrintLetters(more), "\"" + Letters(u).value.rest);
    }
  }

  lemma QuotedFound(s: string) returns (gap: string, value: seq<Letter>)
    requires Quoted(s).Ok?
    ensures IsGap(gap) && LettersWell(value) && Value(value) == Quoted(s).value.value
    ensures s == gap + ("\"" + (PrintLetters(value) + ("\"" + Quoted(s).value.rest)))
  {
    hide Letters;
    gap := TrimSplit(s);
    assert TrimLeft(TrimLeft(s)) == TrimLeft(s);
    assert TrimLeft(s) == "\"" + TrimLeft(s)[1..];
    value := LettersFound(TrimLeft(s)[1..]);
  }

  lemma {:induction false} ExpressionFound(cfg: CfgSet, features: set<string>, s: string) returns (before: string, e: Syntax, t: string)
    requires Expression(cfg, features, s).Ok?
    ensures IsGap(before) && Well(e) && s == before + (Print(e) + t)
    ensures ReadsAs(Expression(cfg, features, s), Holds(cfg, features, e), t)
    decreases |s|, 1
  {
    hide Quoted, Call, List, Ident;
    before := IdentFound(s);
    var name, after := Ident(s).value.value, Ident(s).value.rest;
    t := TrimLeft(after);
    var gap := TrimSplit(after);
    if StartsWith(t, '(') {
      var args := CallFound(cfg, features, name, t[1..]);
      t := Call(cfg, features, name, t[1..]).value.rest;
      e := OperatorFound(cfg, features, name, gap, args, t);
      assert TrimLeft(after) == "(" + TrimLeft(after)[1..];
    } else if StartsWith(t, '=') {
      var u := t[1..];
      var gap', value := QuotedFound(u);
      t := Quoted(u).value.rest;
      e := Pair(name, gap, gap', value);
      assert TrimLeft(after) == "=" + u;
      PairPrinted(name, gap, gap', value, t);
    } else {
      e := Flag(name);
      t := after;
      TrimLeftTwice(after);
    }
  }

  lemma PairPrinted(name: string, gap: string, gap': string, value: seq<Letter>, t: string)
    ensures Print(Pair(name, gap, gap', value)) + t == name + (gap + ("=" + (gap' + ("\"" + (PrintLetters(value) + ("\"" + t))))))
  {
  }

  lemma OperatorFound(cfg: CfgSet, features: set<string>, name: string, gap: string, args: Arguments, t: string) returns (e: Syntax)
    requires IsGap(gap) && ArgumentsWell(args) && Apply(name, Values(cfg, features, args)).Ok?
    ensures Well(e) && Print(e) + t == name + (gap + ("(" + (PrintArguments(args) + (")" + t))))
    ensures Holds(cfg, features, e) == Apply(name, Values(cfg, features, args)).value
  {
    hide IsGap, TrimLeft, AllHold, AnyHolds, Values;
    if name == "not" {
      ValuesCount(cfg, features, args);
      e := Not(gap, args.before, args.arg, args.after);
      NotHolds(cfg, features, e);
      var arg := Print(args.arg);
      hide Print;
      NotPrinted(gap, args.before, arg, args.after, t);
      assert Print(e) == "not" + (gap + ("(" + (args.before + (arg + (args.after + ")"))))) by { PrintNot(e); }
      assert PrintArguments(args) == args.before + (arg + args.after);
    } else {
      e := Group(name == "all", gap, args);
      GroupPrinted(name, gap, args, t);
      GroupHolds(cfg, features, e);
    }
  }

  lemma PrintNot(e: Syntax)
    requires e.Not?
    ensures Print(e) == "not" + (e.gap + ("(" + (e.before + (Print(e.arg) + (e.after + ")")))))
  {
  }

  lemma NotPrinted(gap: string, before: string, arg: string, after: string, t: string)
    ensures ("not" + (gap + ("(" + (before + (arg + (after + ")")))))) + t
            == "not" + (gap + ("(" + ((before + (arg + after)) + (")" + t))))
  {
  }

  lemma GroupPrinted(name: string, gap: string, args: Arguments, t: string)
    requires name == "all" || name == "any"
    ensures Print(Group(name == "all", gap, args)) + t == name + (gap + ("(" + (PrintArguments(args) + (")" + t))))
  {
    hide PrintArguments;
  }

  lemma NotHolds(cfg: CfgSet, features: set<string>, e: Syntax)
    requires e.Not?
    ensures Apply("not", Values(cfg, features, Last(e.before, e.arg, e.after))) == Ok(Holds(cfg, features, e))
  {
  }

  lemma GroupHolds(cfg: CfgSet, features: set<string>, e: Syntax)
    requires e.Group?
    ensures Apply(GroupName(e.all), Values(cfg, features, e.args)) == Ok(Holds(cfg, features, e))
  {
    ValuesMean(cfg, features, e.args);
  }

  lemma ValuesCount(cfg: CfgSet, features: set<string>, args: Arguments)
    ensures |Values(cfg, features, args)| == 1 <==> args.Last? || (args.More? && args.rest.None?)
  {
    if args.More? && args.rest.More? {
      assert |Values(cfg, features, args.rest)| > 0;
    }
  }

  lemma {:induction false} CallFound(cfg: CfgSet, features: set<string>, name: string, s: string) returns (args: Arguments)
    requires Call(cfg, features, name, s).Ok?
    ensures ArgumentsWell(args) && s == PrintArguments(args) + (")" + Call(cfg, features, name, s).value.rest)
    ensures Apply(name, Values(cfg, features, args)) == Ok(Call(cfg, features, name, s).value.value)
    decreases |s|, 3
  {
    hide List, Apply, Call, PrintArguments, ArgumentsWell, Values, Expect;
    CallParts(cfg, features, name, s);
    var t := TrimLeft(s);
    if StartsWith(t, ')') {
      args := NoArguments(cfg, features, s);
      TrimLeftTwice(s);
    } else {
      args := ListFound(cfg, features, s);
    }
  }

  lemma CallParts(cfg: CfgSet, features: set<string>, name: string, s: string)
    requires Call(cfg, features, name, s).Ok?
    ensures var r := Call(cfg, features, name, s).value; var values := Operands(cfg, features, s);
      values.Ok? && Apply(name, values.value.value) == Ok(r.value) && TrimLeft(values.value.rest) == ")" + r.rest
  {
    hide Operands, Apply;
    var u := TrimLeft(Operands(cfg, features, s).value.rest);
    assert u == ")" + u[1..];
  }

  lemma NoArguments(cfg: CfgSet, features: set<string>, s: string) returns (args: Arguments)
    ensures ArgumentsWell(args) && s == PrintArguments(args) + TrimLeft(s) && Values(cfg, features, args) == []
  {
    var gap := TrimSplit(s);
    args := None(gap);
  }

  lemma {:induction false} ListFound(cfg: CfgSet, features: set<string>, s: string) returns (args: Arguments)
    requires List(cfg, features, s).Ok?
    ensures ArgumentsWell(args) && !args.None? && Values(cfg, features, args) == List(cfg, features, s).value.value
    ensures s == PrintArguments(args) + List(cfg, features, s).value.rest
    ensures TrimLeft(List(cfg, features, s).value.rest) == List(cfg, features, s).value.rest
    decreases |s|, 2
  {
    hide Expression, TrimLeft, Print, PrintArguments, Well, IsGap, Holds;
    var before, e, t := ExpressionFound(cfg, features, s);
    var after := TrimSplit(t);
    var u := TrimLeft(t);
    if StartsWith(u, ',') {
      var rest := ListFound(cfg, features, u[1..]);
      args := More(before, e, after, rest);
      assert u == "," + u[1..];
      ArgumentsPrinted(args, List(cfg, features, s).value.rest);
    } else {
      args := Last(before, e, after);
      TrimLeftTwice(t);
      ArgumentsPrinted(args, u);
    }
  }

  lemma ArgumentsPrinted(args: Arguments, t: string)
    requires !args.None?
    ensures PrintArguments(args) + t == args.before + (Print(args.arg) + (args.after + if args.Last? then t else "," + (PrintArguments(args.rest) + t)))
  {
    var p := Print(args.arg);
    var u := if args.Last? then args.after else args.after + ("," + PrintArguments(args.rest));
    hide Print;
    Together(args.before, p + u, t);
    Together(p, u, t);
  }

  // ---- Whole conditions ----

  /** The text begins with `cfg(`, a condition of this value in white space, and `)`. */
  ghost predicate Denotes(cfg: CfgSet, features: set<string>, text: string, value: bool) {
    exists before, e, after, more ::
      Whole(before, e, after, more, text) && Holds(cfg, features, e) == value
  }

  ghost predicate Whole(before: string, e: Syntax, after: string, more: string, text: string) {
    IsGap(before) && Well(e) && IsGap(after) && text == CFG + (before + (Print(e) + (after + (")" + more))))
  }

  lemma WholeIsRead(cfg: CfgSet, features: set<string>, before: string, e: Syntax, after: string, more: string, condition: string)
    requires Whole(before, e, after, more, TrimSpace(condition))
    ensures Matches(cfg, features, condition) == Ok(Holds(cfg, features, e))
  {
    hide Expression, Well, TrimSpace, TrimLeft;
    var t := after + (")" + more);
    ExpectReads(after, ')', more);
    assert Closes(t);
    assert TrimSpace(condition)[|CFG|..] == before + (Print(e) + t);
    ExpressionReads(cfg, features, e, before, t);
  }

  /** `matches` answers for a condition exactly when the text is one, and then what it means. What follows
      its closing parenthesis is not looked at. */
  lemma MatchesIsMeaning(cfg: CfgSet, features: set<string>, condition: string, value: bool)
    requires HasPrefix(TrimSpace(condition), CFG)
    ensures Matches(cfg, features, condition) == Ok(value) <==> Denotes(cfg, features, TrimSpace(condition), value)
  {
    hide Expression, Well, TrimSpace, TrimLeft, Holds, Print, Matches, Whole, HasPrefix;
    var text := TrimSpace(condition);
    if Matches(cfg, features, condition) == Ok(value) {
      var before, e, after, more := WholeFound(cfg, features, condition);
      assert Whole(before, e, after, more, text);
    }
    if Denotes(cfg, features, text, value) {
      var before, e, after, more :| Whole(before, e, after, more, text) && Holds(cfg, features, e) == value;
      WholeIsRead(cfg, features, before, e, after, more, condition);
    }
  }

  lemma WholeFound(cfg: CfgSet, features: set<string>, condition: string)
    returns (before: string, e: Syntax, after: string, more: string)
    requires HasPrefix(TrimSpace(condition), CFG) && Matches(cfg, features, condition).Ok?
    ensures Whole(before, e, after, more, TrimSpace(condition))
    ensures Matches(cfg, features, condition) == Ok(Holds(cfg, features, e))
  {
    hide Expression, Well, TrimSpace, TrimLeft, Holds, Print;
    var text := TrimSpace(condition);
    assert text == CFG + text[|CFG|..];
    var t;
    before, e, t := ExpressionFound(cfg, features, text[|CFG|..]);
    after := TrimSplit(t);
    var u := TrimLeft(t);
    more := u[1..];
    assert u == ")" + more;
  }

  /** Written with white space anywhere, inside or around, a condition is answered with its meaning. */
  lemma PrintedMatches(cfg: CfgSet, features: set<string>, lead: string, before: string, e: Syntax, after: string, trail: string)
    requires IsGap(lead) && IsGap(before) && Well(e) && IsGap(after) && IsGap(trail)
    ensures var text := CFG + (before + (Print(e) + (after + ")")));
      Matches(cfg, features, lead + (text + trail)) == Ok(Holds(cfg, features, e))
  {
    hide Matches, Print, Holds, Well;
    var middle := before + (Print(e) + (after + ")"));
    var text := CFG + middle;
    SpacesAround(lead, text, trail);
    assert ")" + "" == ")";
    WholeIsRead(cfg, features, before, e, after, "", lead + (text + trail));
  }

  /** Whatever follows the closing parenthesis, even if it is no condition, changes nothing. */
  lemma AnythingMayFollow(cfg: CfgSet, features: set<string>, lead: string, before: string, e: Syntax, after: string, more: string)
    requires IsGap(lead) && IsGap(before) && Well(e) && IsGap(after)
    ensures Matches(cfg, features, lead + (CFG + (before + (Print(e) + (after + (")" + more)))))) == Ok(Holds(cfg, features, e))
  {
    hide Matches, Print, Holds, Well, TrimLeft, TrimRight;
    var front := CFG + (before + (Print(e) + after));
    var text := front + ")" + more;
    var whole := CFG + (before + (Print(e) + (after + (")" + more))));
    assert text == whole;
    TrimGap(lead, text);
    Unspaced(text);
    TrimRightIsPrefix(text);
    TrimRightReaches(front + ")", text);
    var kept := TrimRight(text)[|front| + 1..];
    assert TrimRight(text) == front + ")" + kept;
    assert TrimRight(text) == CFG + (before + (Print(e) + (after + (")" + kept))));
    WholeIsRead(cfg, features, before, e, after, kept, lead + whole);
  }

  /** `cfg(unix) x` is answered as `cfg(unix)` is. */
  lemma TextAfterIsIgnored(cfg: CfgSet, features: set<string>)
    ensures Matches(cfg, features, "cfg(unix) x") == Ok("unix" in cfg.flags) == Matches(cfg, features, "cfg(unix)")
  {
    hide Matches;
    var e := Flag("unix");
    AnythingMayFollow(cfg, features, "", "", e, "", " x");
    AnythingMayFollow(cfg, features, "", "", e, "", "");
    assert "" + (CFG + ("" + (Print(e) + ("" + (")" + " x"))))) == "cfg(unix) x";
    assert "" + (CFG + ("" + (Print(e) + ("" + (")" + ""))))) == "cfg(unix)";
  }
}
