/** Exactly when the result of `resolveGraph` (bin/cargo/resolve.go:8-79) depends on no order of Go maps. */
module OrderExactly {
  import opened FeatureRules
  import opened FeatureUniverse
  import opened FeatureState
  import opened ResolveProgress
  import opened ResolveRuns
  import opened ResolveEnds
  import opened LeastResult
  import opened OrderMatters

  // ---- With never two tables at once there is only one run ----

  /** No two conditions hold together. */
  ghost predicate Alone(h: Evaluator) { forall c, c', own {:trigger HoldTogether(h, c, c', own)} :: !HoldTogether(h, c, c', own) }

  lemma {:induction false} OnlyOneTable(w: World, p: PkgId, active: set<string>, conditions: seq<string>, c: string)
    requires p in w.packages && (forall i, j :: 0 <= i < j < |conditions| ==> conditions[i] != conditions[j])
    requires forall i :: 0 <= i < |conditions| && conditions[i] != c ==> !w.holds(conditions[i], active)
    ensures TargetList(w, p, active, conditions) ==
      if c in conditions && c in w.packages[p].targetDeps && w.holds(c, active)
      then UsedTables(w.packages[p].targetDeps[c], w.packages[p].buildScript, UsesDev(w, p)) else []
  {
    hide UsedTables;
    if conditions != [] {
      var n := |conditions| - 1;
      OnlyOneTable(w, p, active, conditions[..n], c);
      assert conditions == conditions[..n] + [conditions[n]];
    }
  }

  lemma AloneListsAgree(w: World, h: Evaluator, p: PkgId, active: set<string>, a: seq<string>, b: seq<string>)
    requires p in w.packages && JudgedBy(w, h) && Alone(h) && Features(active)
    requires IsOrder(a, w.packages[p].targetDeps.Keys) && IsOrder(b, w.packages[p].targetDeps.Keys)
    ensures TargetList(w, p, active, a) == TargetList(w, p, active, b)
  {
    hide TargetList, Features;
    var c :| (exists i :: 0 <= i < |a| && w.holds(a[i], active)) ==> c in a && w.holds(c, active);
    forall x | x in a && x != c ensures !w.holds(x, active) {
      assert !HoldTogether(h, x, c, active);
      assert w.holds(x, active) == h(x, active) && w.holds(c, active) == h(c, active);
    }
    forall x | x in b ensures x in a {
    }
    OnlyOneTable(w, p, active, a, c);
    OnlyOneTable(w, p, active, b, c);
  }

  lemma AloneWalksAgree(w: World, h: Evaluator, p: PkgId, t: set<Fact>, a: seq<DepId>, b: seq<DepId>)
    requires p in w.packages && JudgedBy(w, h) && Alone(h) && Features(ActiveIn(t, p)) && MayWalk(w, p, t, a) && MayWalk(w, p, t, b)
    ensures a == b
  {
    hide TargetList, IsOrder, UsedTables, InUseOnly, Alone, JudgedBy, Features, ActiveIn;
    var pkg := w.packages[p];
    var own := UsedTables(pkg.dependencies, pkg.buildScript, UsesDev(w, p));
    var c :| IsOrder(c, pkg.targetDeps.Keys) && a == InUseOnly(w, t, own + TargetList(w, p, ActiveIn(t, p), c));
    var d :| IsOrder(d, pkg.targetDeps.Keys) && b == InUseOnly(w, t, own + TargetList(w, p, ActiveIn(t, p), d));
    AloneListsAgree(w, h, p, ActiveIn(t, p), c, d);
  }

  lemma ExpandedUnique(w: World, p: PkgId, s: set<Fact>, t: set<Fact>, t': set<Fact>)
    requires p in w.packages && Expanded(w, p, s, t) && Expanded(w, p, s, t')
    ensures t == t'
  {
    hide FeaturesClosed;
  }

  lemma AloneRoundsAgree(w: World, h: Evaluator, s: State, a: State, b: State)
    requires Valid(w) && JudgedBy(w, h) && Alone(h) && Sound(w, s) && Round(w, s, a) && Round(w, s, b)
    ensures a == b
  {
    hide Expanded, RoundTo, Sound, JudgedBy, Alone;
    var p := s.queue[0];
    var t :| Expanded(w, p, s.facts, t) && RoundTo(w, p, State(t, s.queue[1..], s.seen), a);
    var t' :| Expanded(w, p, s.facts, t') && RoundTo(w, p, State(t', s.queue[1..], s.seen), b);
    ExpandedUnique(w, p, s.facts, t, t');
    RoundFeatures(w, s, t);
    RoundToUnique(w, h, p, State(t, s.queue[1..], s.seen), a, b);
  }

  lemma RoundFeatures(w: World, s: State, t: set<Fact>)
    requires Valid(w) && Sound(w, s) && s.queue != [] && s.queue[0] in w.packages && Expanded(w, s.queue[0], s.facts, t)
    ensures Features(ActiveIn(t, s.queue[0]))
  {
    hide Expanded, Progress, Needed, Universe, Total, Features, ActiveIn, Proper;
    ExpandedProper(w, s.queue[0], s.facts, t, Queued(s), s.seen);
    ActiveAreFeatures(t + Visits(Queued(s) + s.seen.Keys), s.queue[0]);
    VisitsAside(w, s.queue[0], t, Queued(s) + s.seen.Keys);
  }

  lemma RoundToUnique(w: World, h: Evaluator, p: PkgId, s: State, a: State, b: State)
    requires Valid(w) && p in w.packages && JudgedBy(w, h) && Alone(h) && Features(ActiveIn(s.facts, p))
    requires RoundTo(w, p, s, a) && RoundTo(w, p, s, b)
    ensures a == b
  {
    hide MayWalk, Idle, JudgedBy, Alone, Features, ActiveIn, WalkAll, Known;
    if !Idle(s, p) {
      var list :| MayWalk(w, p, s.facts, list) && WalkTo(w, p, s, list, a);
      var list' :| MayWalk(w, p, s.facts, list') && WalkTo(w, p, s, list', b);
      AloneWalksAgree(w, h, p, s.facts, list, list');
    }
  }

  lemma {:induction false} AloneRunsMatch(w: World, h: Evaluator, run: seq<State>, run': seq<State>, i: nat)
    requires Valid(w) && JudgedBy(w, h) && Alone(h) && IsRun(w, run) && IsRun(w, run') && i < |run| && i < |run'|
    ensures run[i] == run'[i]
  {
    hide Round, JudgedBy, Alone, Initial, Sound;
    if i > 0 {
      AloneRunsMatch(w, h, run, run', i - 1);
      assert IsRun(w, run[..i]);
      RunSound(w, run[..i], run[i - 1]);
      assert Round(w, run[i - 1], run[i]) && Round(w, run'[i - 1], run'[i]);
      AloneRoundsAgree(w, h, run[i - 1], run[i], run'[i]);
    }
  }

  lemma AloneRunsAgree(w: World, h: Evaluator)
    requires Valid(w) && JudgedBy(w, h) && Alone(h)
    ensures RunsAgree(w)
  {
    hide JudgedBy, Alone, EndsIn, Outcome;
    forall r, s, r', s' {:trigger EndsIn(w, r, s), EndsIn(w, r', s')} |
      EndsIn(w, r, s) && EndsIn(w, r', s') ensures Outcome(s) == Outcome(s') {
      if |r| <= |r'| {
        EndedRunsMatch(w, h, r, s, r', s');
      } else {
        EndedRunsMatch(w, h, r', s', r, s);
      }
    }
  }

  /** A run that has ended is not a part of a longer one. */
  lemma EndedRunsMatch(w: World, h: Evaluator, r: seq<State>, s: State, r': seq<State>, s': State)
    requires Valid(w) && JudgedBy(w, h) && Alone(h) && EndsIn(w, r, s) && EndsIn(w, r', s') && |r| <= |r'|
    ensures s == s'
  {
    hide JudgedBy, Alone, Initial;
    AloneRunsMatch(w, h, r, r', |r| - 1);
    assert |r| < |r'| ==> Round(w, r'[|r| - 1], r'[|r|]);
  }

  // ---- Exactly when the order does not matter ----

  /** On every graph judged by `h`, whatever the order of the maps, the result is the same. */
  ghost predicate OrderIsFree(h: Evaluator) {
    forall w {:trigger JudgedBy(w, h)} :: Valid(w) && JudgedBy(w, h) ==> RunsAgree(w)
  }

  /** On every graph judged by `h`, every run ends with the least closed set. */
  ghost predicate RunsEndLeast(h: Evaluator) {
    forall w, run, s {:trigger JudgedBy(w, h), EndsIn(w, run, s)} ::
      Valid(w) && JudgedBy(w, h) && EndsIn(w, run, s) ==> Least(w, Outcome(s))
  }

  lemma MonotoneIsFree(h: Evaluator)
    requires NeverLoses(h)
    ensures OrderIsFree(h) && RunsEndLeast(h)
  {
    hide RunsAgree, EndsIn, Least, Valid, Monotone, Outcome, JudgedBy, NeverLoses;
    forall w {:trigger JudgedBy(w, h)} | Valid(w) && JudgedBy(w, h) ensures RunsAgree(w) {
      NeverLosesIsMonotone(w, h);
      MonotoneRunsAgree(w);
    }
    forall w, run, s {:trigger JudgedBy(w, h), EndsIn(w, run, s)} |
      Valid(w) && JudgedBy(w, h) && EndsIn(w, run, s) ensures Least(w, Outcome(s)) {
      NeverLosesIsMonotone(w, h);
      RunEndsClosed(w, run, s);
    }
  }

  /** The result depends on no order exactly if no condition is lost as features become active, or never two
      conditions hold together. */
  lemma OrderIsFreeExactly(h: Evaluator)
    ensures OrderIsFree(h) <==> NeverLoses(h) || Alone(h)
  {
    hide RunsAgree, Valid, JudgedBy, Loses, HoldTogether;
    if NeverLoses(h) {
      MonotoneIsFree(h);
    } else if Alone(h) {
      forall w {:trigger JudgedBy(w, h)} | Valid(w) && JudgedBy(w, h) ensures RunsAgree(w) {
        AloneRunsAgree(w, h);
      }
    } else {
      var c, a, b :| Loses(h, c, a, b);
      var yes, yes', own :| HoldTogether(h, yes, yes', own);
      var names := SequenceOf(own);
      var k := Case(h, c, a, b, yes, yes', own, names);
      LosingRunsDiffer(k);
      assert JudgedBy(Graph(k), h);
    }
  }

  /** Every run on every graph ends with the least closed set exactly if no condition is lost. */
  lemma RunsEndLeastExactly(h: Evaluator)
    ensures RunsEndLeast(h) <==> NeverLoses(h)
  {
    hide Valid, JudgedBy, Loses, EndsIn, Least, Outcome;
    if NeverLoses(h) {
      MonotoneIsFree(h);
    } else {
      var c, a, b :| Loses(h, c, a, b);
      LosingHasNoLeast(h, c, a, b);
      var w :| Valid(w) && JudgedBy(w, h) && forall t :: !Least(w, t);
      var run, s := RunExists(w);
      assert EndsIn(w, run, s) && !Least(w, Outcome(s));
    }
  }
}
