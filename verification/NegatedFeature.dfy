/** What `not` over a feature does to the resolver (bin/cargo/resolve.go:265-298, bin/cargo/cfg.go:135-156). */
module NegatedFeature {
  import opened Text
  import opened CfgSyntax
  import opened CfgReading
  import opened CfgLanguage
  import opened TargetTables
  import opened FeatureRules
  import opened ResolveRuns
  import opened LeastResult
  import opened OrderMatters

  /** `targetTableMatches`, for a target and what its compiler reports. */
  function Judge(cfg: CfgSet, target: string): Evaluator { (c, active) => TableMatches(cfg, target, c, active) }

  const ALL := "cfg(all())"
  const ALL_SPACED := "cfg(all( ))"

  lemma JudgesAs(cfg: CfgSet, target: string, e: Syntax, c: string, active: set<string>)
    requires Well(e) && c == CFG + ("" + (Print(e) + ("" + ")")))
    ensures Judge(cfg, target)(c, active) == Holds(cfg, active, e)
  {
    hide Matches, Print, Holds, Well;
    PrintedMatches(cfg, active, "", "", e, "", "");
    assert "" + (c + "") == c;
    assert HasPrefix(c, CFG);
  }

  lemma AllsHoldTogether(cfg: CfgSet, target: string)
    ensures HoldTogether(Judge(cfg, target), ALL, ALL_SPACED, {})
  {
    hide Judge;
    var e, e' := Syntax.Group(true, "", None("")), Syntax.Group(true, "", None(" "));
    assert Print(e) == "all()" && Print(e') == "all( )";
    assert ALL == CFG + ("" + (Print(e) + ("" + ")"))) && ALL_SPACED == CFG + ("" + (Print(e') + ("" + ")")));
    JudgesAs(cfg, target, e, ALL, {});
    JudgesAs(cfg, target, e', ALL_SPACED, {});
    assert |ALL| != |ALL_SPACED|;
  }

  function FeatureX(): Syntax { Pair("feature", " ", " ", [Plain('x')]) }

  function NotX(): Syntax { Not("", "", FeatureX(), "") }

  /** `cfg(not(feature = "x"))` */
  function NotText(): string { CFG + ("" + (Print(NotX()) + ("" + ")"))) }

  lemma NotXWell()
    ensures Well(NotX())
  {
    hide Print;
    assert Well(FeatureX());
  }

  lemma NotXHolds(cfg: CfgSet, active: set<string>)
    ensures Holds(cfg, active, NotX()) <==> "x" !in active
  {
    assert [Plain('x')][1..] == [];
    assert Value([Plain('x')]) == "x";
  }

  lemma NotIsLost(cfg: CfgSet, target: string)
    ensures Loses(Judge(cfg, target), NotText(), {}, {"x"})
  {
    hide Judge, NotX, Print;
    NotXWell();
    JudgesAs(cfg, target, NotX(), NotText(), {});
    JudgesAs(cfg, target, NotX(), NotText(), {"x"});
    NotXHolds(cfg, {});
    NotXHolds(cfg, {"x"});
    XIsFeature();
  }

  lemma XIsFeature()
    ensures Features({"x"})
  {
    assert TrimLeft("x") == "x" && TrimRight("x") == "x";
  }

  /** Whatever the target: a package graph without a least closed set. */
  lemma NoLeastUnderNot(cfg: CfgSet, target: string)
    ensures exists w :: Valid(w) && JudgedBy(w, Judge(cfg, target)) && forall t :: !Least(w, t)
  {
    hide Loses, JudgedBy;
    NotIsLost(cfg, target);
    LosingHasNoLeast(Judge(cfg, target), NotText(), {}, {"x"});
  }

  /** Whatever the target: a package graph that two runs resolve to different packages. */
  lemma OrderMattersUnderNot(cfg: CfgSet, target: string)
    ensures exists w :: Valid(w) && JudgedBy(w, Judge(cfg, target)) && !RunsAgree(w)
  {
    hide Loses, JudgedBy, HoldTogether, RunsAgree;
    NotIsLost(cfg, target);
    AllsHoldTogether(cfg, target);
    var none: seq<string> := [];
    assert (set f | f in none) == {};
    LosingRunsDiffer(Case(Judge(cfg, target), NotText(), {}, {"x"}, ALL, ALL_SPACED, {}, none));
  }
}
