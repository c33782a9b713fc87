/** `targetTableMatches` (bin/cargo/resolve.go): the conditions of target tables, evaluated by the parser of
    bin/cargo/cfg.go, and which of them only ever gain from more active features. */
module TargetTables {
  import opened Text
  import opened CfgSyntax
  import opened CfgReading
  import opened CfgLanguage
  import FeatureRules

  /** No feature stands under an odd number of `not`s (for `positive`), or under an even number. */
  predicate Signed(e: Syntax, positive: bool) {
    match e
    case Flag(_) => true
    case Pair(name, _, _, _) => name == "feature" ==> positive
    case Not(_, _, arg, _) => Signed(arg, !positive)
    case Group(_, _, args) => ArgumentsSigned(args, positive)
  }

  predicate ArgumentsSigned(args: Arguments, positive: bool) {
    match args
    case None(_) => true
    case Last(_, arg, _) => Signed(arg, positive)
    case More(_, arg, _, rest) => Signed(arg, positive) && ArgumentsSigned(rest, positive)
  }

  /** More features can only make a positive condition true and a negative one false. */
  lemma {:induction false} SignedGains(cfg: CfgSet, e: Syntax, positive: bool, a: set<string>, b: set<string>)
    requires Signed(e, positive) && a <= b
    ensures positive ==> Holds(cfg, a, e) ==> Holds(cfg, b, e)
    ensures !positive ==> Holds(cfg, b, e) ==> Holds(cfg, a, e)
  {
    match e
    case Not(_, _, arg, _) => SignedGains(cfg, arg, !positive, a, b);
    case Group(_, _, args) => ArgumentsGain(cfg, args, positive, a, b);
    case _ =>
  }

  lemma {:induction false} ArgumentsGain(cfg: CfgSet, args: Arguments, positive: bool, a: set<string>, b: set<string>)
    requires ArgumentsSigned(args, positive) && a <= b
    ensures positive ==> (AllHold(cfg, a, args) ==> AllHold(cfg, b, args)) && (AnyHolds(cfg, a, args) ==> AnyHolds(cfg, b, args))
    ensures !positive ==> (AllHold(cfg, b, args) ==> AllHold(cfg, a, args)) && (AnyHolds(cfg, b, args) ==> AnyHolds(cfg, a, args))
  {
    match args
    case None(_) =>
    case Last(_, arg, _) => SignedGains(cfg, arg, positive, a, b);
    case More(_, arg, _, rest) =>
      SignedGains(cfg, arg, positive, a, b);
      ArgumentsGain(cfg, rest, positive, a, b);
  }

  /** `targetTableMatches`, for a condition that does not throw. */
  function TableMatches(cfg: CfgSet, target: string, condition: string, active: set<string>): bool {
    if HasPrefix(condition, CFG) then Matches(cfg, active, condition) == Ok(true) else condition == target
  }

  /** Other conditions than `cfg(...)` name a target. */
  lemma OtherTablesNameTargets(cfg: CfgSet, target: string, condition: string, active: set<string>)
    requires !HasPrefix(condition, "cfg(")
    ensures TableMatches(cfg, target, condition, active) <==> condition == target
  {
  }

  ghost predicate PositiveText(text: string) {
    exists before, e, after, more :: Whole(before, e, after, more, text) && Signed(e, true)
  }

  /** Conditions are evaluated by `matches`, and none of the graph's has a feature under an odd number of
      `not`s. */
  ghost predicate PositiveTables(w: FeatureRules.World, cfg: CfgSet, target: string) {
    forall p, c {:trigger c in w.packages[p].targetDeps} :: p in w.packages && c in w.packages[p].targetDeps ==>
      && (forall active {:trigger w.holds(c, active)} :: w.holds(c, active) == TableMatches(cfg, target, c, active))
      && (HasPrefix(c, CFG) ==> PositiveText(TrimSpace(c)))
  }

  /** Such a package graph is resolved to the least closed set. */
  lemma PositiveIsMonotone(w: FeatureRules.World, cfg: CfgSet, target: string)
    requires PositiveTables(w, cfg, target)
    ensures FeatureRules.Monotone(w)
  {
    forall p, c, a, b | p in w.packages && c in w.packages[p].targetDeps ensures !FeatureRules.Loses(w.holds, c, a, b) {
      if a <= b && w.holds(c, a) {
        PositiveTableGains(cfg, target, c, a, b);
      }
    }
  }

  lemma PositiveTableGains(cfg: CfgSet, target: string, c: string, a: set<string>, b: set<string>)
    requires a <= b && TableMatches(cfg, target, c, a) && (HasPrefix(c, CFG) ==> PositiveText(TrimSpace(c)))
    ensures TableMatches(cfg, target, c, b)
  {
    hide Matches, Holds, Signed, Whole, TrimSpace;
    if HasPrefix(c, CFG) {
      var before, e, after, more :| Whole(before, e, after, more, TrimSpace(c)) && Signed(e, true);
      WholeIsRead(cfg, a, before, e, after, more, c);
      WholeIsRead(cfg, b, before, e, after, more, c);
      SignedGains(cfg, e, true, a, b);
    }
  }
}
