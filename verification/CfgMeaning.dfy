/** What the pieces of a condition mean, by the answers to the conditions they are made of (bin/cargo/cfg.go:135-239). */
module CfgMeaning {
  import opened Text
  import opened CfgSyntax
  import opened CfgReading
  import opened CfgLanguage

  /** A condition by itself. */
  function Alone(e: Syntax): string { "cfg(" + Print(e) + ")" }

  lemma AloneMeans(cfg: CfgSet, features: set<string>, e: Syntax)
    requires Well(e)
    ensures Matches(cfg, features, Alone(e)) == Ok(Holds(cfg, features, e))
  {
    hide Matches, Print, Holds, Well;
    PrintedMatches(cfg, features, "", "", e, "", "");
    var text := CFG + ("" + (Print(e) + ("" + ")")));
    assert "" + (text + "") == text && text == Alone(e);
  }

  /** A name alone asks for a flag of the target. */
  lemma FlagMatches(cfg: CfgSet, features: set<string>, name: string)
    requires name != ""
    requires forall c :: c in name ==> 'a' <= c <= 'z' || 'A' <= c <= 'Z' || '0' <= c <= '9' || c == '_' || c == '-'
    ensures Matches(cfg, features, "cfg(" + name + ")") == Ok(name in cfg.flags)
  {
    hide Matches;
    AloneMeans(cfg, features, Flag(name));
  }

  /** A value as it is written between quotes. */
  function Quote(value: string): string {
    if value == "" then ""
    else (if value[0] == '"' || value[0] == '\\' then ['\\', value[0]] else [value[0]]) + Quote(value[1..])
  }

  function Letters(value: string): seq<Letter> {
    seq(|value|, i requires 0 <= i < |value| => if value[i] == '"' || value[i] == '\\' then Escaped(value[i]) else Plain(value[i]))
  }

  lemma {:induction false} LettersMean(value: string)
    ensures PrintLetters(Letters(value)) == Quote(value) && Value(Letters(value)) == value && LettersWell(Letters(value))
  {
    if value != "" {
      LettersMean(value[1..]);
      assert Letters(value)[1..] == Letters(value[1..]);
      assert value == [value[0]] + value[1..];
    }
  }

  lemma PairMeans(cfg: CfgSet, features: set<string>, name: string, value: string)
    requires IsName(name)
    ensures Matches(cfg, features, "cfg(" + name + " = \"" + Quote(value) + "\")") == Ok(Holds(cfg, features, Pair(name, " ", " ", Letters(value))))
  {
    var e := Pair(name, " ", " ", Letters(value));
    LettersMean(value);
    PairText(name, Quote(value), Print(e));
    assert Well(e);
    hide Matches, Holds, Well, Letters, Print;
    AloneMeans(cfg, features, e);
  }

  lemma PairText(name: string, value: string, text: string)
    requires text == name + (" " + ("=" + (" " + ("\"" + (value + "\"")))))
    ensures "cfg(" + text + ")" == "cfg(" + name + " = \"" + value + "\")"
  {
  }

  /** `feature` asks for an active feature... */
  lemma FeatureMatches(cfg: CfgSet, features: set<string>, value: string)
    ensures Matches(cfg, features, "cfg(feature = \"" + Quote(value) + "\")") == Ok(value in features)
  {
    hide Matches;
    PairMeans(cfg, features, "feature", value);
    LettersMean(value);
    assert "cfg(" + "feature" + " = \"" == "cfg(feature = \"";
  }

  /** ... and any other name for one of the values the compiler reports under it. */
  lemma ValueMatches(cfg: CfgSet, features: set<string>, name: string, value: string)
    requires IsName(name) && name != "feature"
    ensures Matches(cfg, features, "cfg(" + name + " = \"" + Quote(value) + "\")") == Ok(name in cfg.values && value in cfg.values[name])
  {
    hide Matches;
    PairMeans(cfg, features, name, value);
    LettersMean(value);
  }

  /** `not` turns the answer around. */
  lemma NotMatches(cfg: CfgSet, features: set<string>, e: Syntax)
    requires Well(e)
    ensures Matches(cfg, features, "cfg(not(" + Print(e) + "))") == Ok(Matches(cfg, features, "cfg(" + Print(e) + ")") == Ok(false))
  {
    hide Matches;
    var n := Not("", "", e, "");
    AloneMeans(cfg, features, n);
    AloneMeans(cfg, features, e);
    hide Holds, Well;
    assert Alone(n) == "cfg(not(" + Print(e) + "))";
  }

  // ---- Lists ----

  function ListText(es: seq<Syntax>): string {
    if es == [] then "" else if |es| == 1 then Print(es[0]) else Print(es[0]) + "," + ListText(es[1..])
  }

  function ArgumentsOf(es: seq<Syntax>): Arguments {
    if es == [] then None("")
    else if |es| == 1 then Last("", es[0], "")
    else More("", es[0], "", ArgumentsOf(es[1..]))
  }

  lemma {:induction false} ArgumentsMean(cfg: CfgSet, features: set<string>, es: seq<Syntax>)
    requires forall i :: 0 <= i < |es| ==> Well(es[i])
    ensures ArgumentsWell(ArgumentsOf(es)) && PrintArguments(ArgumentsOf(es)) == ListText(es)
    ensures AllHold(cfg, features, ArgumentsOf(es)) <==> forall i :: 0 <= i < |es| ==> Holds(cfg, features, es[i])
    ensures AnyHolds(cfg, features, ArgumentsOf(es)) <==> exists i :: 0 <= i < |es| && Holds(cfg, features, es[i])
    decreases |es|
  {
    hide Holds, Well, Print;
    if |es| > 1 {
      ArgumentsMean(cfg, features, es[1..]);
      var more := es[1..];
      assert forall i :: 0 < i < |es| ==> es[i] == more[i - 1];
      assert forall i :: 0 <= i < |more| ==> more[i] == es[i + 1];
    } else if |es| == 1 {
      assert "" + (Print(es[0]) + "") == Print(es[0]);
    }
  }

  lemma AllAlone(cfg: CfgSet, features: set<string>, es: seq<Syntax>)
    requires forall i :: 0 <= i < |es| ==> Well(es[i])
    ensures forall i :: 0 <= i < |es| ==> (Matches(cfg, features, "cfg(" + Print(es[i]) + ")") == Ok(true) <==> Holds(cfg, features, es[i]))
  {
    hide Matches, Holds, Well;
    forall i | 0 <= i < |es| ensures Matches(cfg, features, "cfg(" + Print(es[i]) + ")") == Ok(true) <==> Holds(cfg, features, es[i]) {
      AloneMeans(cfg, features, es[i]);
    }
  }

  lemma GroupMeans(cfg: CfgSet, features: set<string>, all: bool, es: seq<Syntax>)
    requires forall i :: 0 <= i < |es| ==> Well(es[i])
    ensures var e := Group(all, "", ArgumentsOf(es));
      Matches(cfg, features, "cfg(" + GroupName(all) + "(" + ListText(es) + "))")
      == Ok(if all then forall i :: 0 <= i < |es| ==> Holds(cfg, features, es[i]) else exists i :: 0 <= i < |es| && Holds(cfg, features, es[i]))
  {
    hide Matches;
    var e := Group(all, "", ArgumentsOf(es));
    ArgumentsMean(cfg, features, es);
    AloneMeans(cfg, features, e);
    hide Holds, Well, ArgumentsOf, ListText, GroupName, AllHold, AnyHolds;
    GroupText(GroupName(all), ListText(es), Print(e));
  }

  lemma GroupText(name: string, list: string, text: string)
    requires text == name + ("" + ("(" + (list + ")")))
    ensures "cfg(" + text + ")" == "cfg(" + name + "(" + list + "))"
  {
  }

  /** `all` holds if every condition in its list does, of any length... */
  lemma AllMatches(cfg: CfgSet, features: set<string>, es: seq<Syntax>)
    requires forall i :: 0 <= i < |es| ==> Well(es[i])
    ensures Matches(cfg, features, "cfg(all(" + ListText(es) + "))")
      == Ok(forall i :: 0 <= i < |es| ==> Matches(cfg, features, "cfg(" + Print(es[i]) + ")") == Ok(true))
  {
    hide Matches, Holds, Well, ListText;
    GroupMeans(cfg, features, true, es);
    AllAlone(cfg, features, es);
    assert "cfg(" + GroupName(true) + "(" == "cfg(all(";
  }

  /** ... and `any` if one does. */
  lemma AnyMatches(cfg: CfgSet, features: set<string>, es: seq<Syntax>)
    requires forall i :: 0 <= i < |es| ==> Well(es[i])
    ensures Matches(cfg, features, "cfg(any(" + ListText(es) + "))")
      == Ok(exists i :: 0 <= i < |es| && Matches(cfg, features, "cfg(" + Print(es[i]) + ")") == Ok(true))
  {
    hide Matches, Holds, Well, ListText;
    GroupMeans(cfg, features, false, es);
    AllAlone(cfg, features, es);
    assert "cfg(" + GroupName(false) + "(" == "cfg(any(";
  }
}
