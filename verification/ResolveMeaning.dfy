/** What `resolveGraph` (bin/cargo/resolve.go:8-79) has recorded when it ends, in terms of the text of features. */
module ResolveMeaning {
  import opened Text
  import opened FeatureRules
  import opened FeatureUniverse
  import opened FeatureState
  import opened FeatureText
  import opened ResolveProgress
  import opened ResolveRuns

  /** In this state of a run the package has been walked, with features under which a table with the dependency
      applies, and the dependency is not optional or it is enabled. */
  ghost predicate InUseAt(w: World, s: State, q: PkgId, d: DepId) {
    && q in s.seen && q in w.packages && d in w.deps
    && Applies(w, q, s.seen[q], d) && (!w.deps[d].optional || Enabled(d) in s.facts)
  }

  // ---- One round, as what it adds ----

  /** The package, the facts after its expansion, and whether its dependencies were walked. */
  ghost predicate RoundIs(w: World, s: State, s': State, p: PkgId, t: set<Fact>, walked: bool)
    requires Valid(w)
  {
    && s.queue != [] && p == s.queue[0] && p in w.packages && Expanded(w, p, s.facts, t)
    && Queued(s) <= Queued(s') + {p}
    && if !walked then s'.facts == t && s'.seen == s.seen && p in s.seen && s.seen[p] == ActiveIn(t, p) && Queued(s') <= Queued(s)
       else
         && s'.seen == s.seen[p := ActiveIn(t, p)] && s'.facts == t + Demands(w, t, Used(w, p, t))
         && Children(w, Used(w, p, t)) <= Queued(s') + s'.seen.Keys && Queued(s') <= Queued(s) + Children(w, Used(w, p, t))
  }

  lemma RoundParts(w: World, s: State, s': State) returns (p: PkgId, t: set<Fact>, walked: bool)
    requires Valid(w) && Sound(w, s) && Round(w, s, s')
    ensures RoundIs(w, s, s', p, t, walked)
  {
    hide Expanded, Universe, Progress, Needed, Total, ActiveIn, MayWalk, Used, WalkAll, Demands, Children, Moved;
    p := s.queue[0];
    PopQueue(s);
    t :| Expanded(w, p, s.facts, t) && RoundTo(w, p, State(t, s.queue[1..], s.seen), s');
    var mid := State(t, s.queue[1..], s.seen);
    walked := !Idle(mid, p);
    if walked {
      var list :| MayWalk(w, p, t, list) && WalkTo(w, p, mid, list, s');
      WalkIsUsed(w, p, t, list);
      WalkAllWalks(w, s'.seen, Work(t, mid.queue), list);
    }
  }

  lemma DemandsKeep(w: World, t: set<Fact>, t': set<Fact>, ds: set<DepId>)
    requires t' == t + Demands(w, t, ds)
    ensures forall d {:trigger Enabled(d)} :: Enabled(d) in t' <==> Enabled(d) in t
    ensures forall d :: AskedIn(t', d) == AskedIn(t, d)
  {
    hide Demands;
    DemandsAreActive(w, t, ds);
  }

  lemma RoundGrows(w: World, s: State, s': State, p: PkgId, t: set<Fact>, walked: bool)
    requires Valid(w) && RoundIs(w, s, s', p, t, walked)
    ensures s.facts <= t <= s'.facts && Queued(s) + s.seen.Keys <= Queued(s') + s'.seen.Keys && p in s'.seen
  {
    hide FeaturesClosed, Demands, ActiveIn, Used, Children;
  }

  lemma PrefixSound(w: World, run: seq<State>, n: nat)
    requires Valid(w) && IsRun(w, run) && n < |run|
    ensures Sound(w, run[n])
  {
    hide Sound, Round, Initial;
    assert IsRun(w, run[..n + 1]);
    RunSound(w, run[..n + 1], run[n]);
  }

  lemma RoundAt(w: World, run: seq<State>, n: nat) returns (p: PkgId, t: set<Fact>, walked: bool)
    requires Valid(w) && IsRun(w, run) && 0 < n < |run|
    ensures RoundIs(w, run[n - 1], run[n], p, t, walked)
  {
    hide Sound, Round, Initial, RoundIs;
    PrefixSound(w, run, n - 1);
    assert Round(w, run[n - 1], run[n]);
    p, t, walked := RoundParts(w, run[n - 1], run[n]);
  }

  lemma {:induction false} RunGrowsFrom(w: World, run: seq<State>, i: nat, n: nat)
    requires Valid(w) && IsRun(w, run) && i <= n < |run|
    ensures run[i].facts <= run[n].facts && Queued(run[i]) + run[i].seen.Keys <= Queued(run[n]) + run[n].seen.Keys
  {
    hide IsRun, RoundIs, Queued;
    if i < n {
      RunGrowsFrom(w, run, i, n - 1);
      var p, t, walked := RoundAt(w, run, n);
      RoundGrows(w, run[n - 1], run[n], p, t, walked);
    }
  }

  // ---- Everything recorded has a cause ----

  ghost predicate CausedByUse(w: World, run: seq<State>, n: nat, x: Fact)
    requires n < |run|
  {
    exists i, q, d {:trigger InUseAt(w, run[i], q, d)} ::
      0 <= i <= n && InUseAt(w, run[i], q, d) && x in ChildFacts(w, d, AskedIn(run[i].facts, d))
  }

  ghost predicate CausedByFeature(w: World, t: set<Fact>, x: Fact) {
    exists p, f {:trigger Active(p, f)} :: p in w.packages && Active(p, f) in t && x in Effects(w, p, f)
  }

  ghost predicate Caused(w: World, run: seq<State>, n: nat, x: Fact)
    requires Valid(w) && n < |run|
  {
    x in Initial(w).facts || CausedByFeature(w, run[n].facts, x) || CausedByUse(w, run, n, x)
  }

  /** The least expansion holds nothing without a cause. */
  lemma ExpandedCaused(w: World, p: PkgId, s: set<Fact>, t: set<Fact>, x: Fact)
    requires p in w.packages && Expanded(w, p, s, t) && x in t
    ensures x in s || exists f {:trigger Active(p, f)} :: Active(p, f) in t && x in Effects(w, p, f)
  {
    hide Effects;
    var u := s + set y | y in t && exists f {:trigger Active(p, f)} :: Active(p, f) in t && y in Effects(w, p, f);
    forall f | Active(p, f) in u ensures Effects(w, p, f) <= u {
      assert Active(p, f) in t;
    }
    assert FeaturesClosed(w, u, p);
  }

  lemma UsedIsInUse(w: World, s': State, p: PkgId, t: set<Fact>, d: DepId)
    requires Valid(w) && p in w.packages && d in Used(w, p, t)
    requires p in s'.seen && s'.seen[p] == ActiveIn(t, p) && t <= s'.facts
    ensures InUseAt(w, s', p, d)
  {
    hide TableDeps, Applies, ActiveIn;
    AppliesExactly(w, p, ActiveIn(t, p), d);
  }

  lemma CauseLasts(w: World, run: seq<State>, n: nat, x: Fact)
    requires Valid(w) && IsRun(w, run) && 0 < n < |run| && Caused(w, run, n - 1, x)
    ensures Caused(w, run, n, x)
  {
    hide IsRun, Initial, CausedByFeature, CausedByUse;
    RunGrowsFrom(w, run, n - 1, n);
    if CausedByFeature(w, run[n - 1].facts, x) {
      FeatureCauseLasts(w, run[n - 1].facts, run[n].facts, x);
    }
    if CausedByUse(w, run, n - 1, x) {
      UseCauseLasts(w, run, n, x);
    }
  }

  lemma FeatureCauseLasts(w: World, t: set<Fact>, t': set<Fact>, x: Fact)
    requires t <= t' && CausedByFeature(w, t, x)
    ensures CausedByFeature(w, t', x)
  {
    hide Effects;
    var p, f :| p in w.packages && Active(p, f) in t && x in Effects(w, p, f);
    assert Active(p, f) in t';
  }

  lemma UseCauseLasts(w: World, run: seq<State>, n: nat, x: Fact)
    requires 0 < n < |run| && CausedByUse(w, run, n - 1, x)
    ensures CausedByUse(w, run, n, x)
  {
    hide InUseAt, ChildFacts, AskedIn;
  }

  lemma {:induction false} EverythingIsCaused(w: World, run: seq<State>, n: nat, x: Fact)
    requires Valid(w) && IsRun(w, run) && n < |run| && x in run[n].facts
    ensures Caused(w, run, n, x)
  {
    hide Initial, Round, RoundIs, Effects, InUseAt, ChildFacts, AskedIn, CausedByUse, CausedByFeature, IsRun;
    if n == 0 {
      FirstState(w, run);
    } else {
      var p, t, walked := RoundAt(w, run, n);
      if x in run[n - 1].facts {
        EverythingIsCaused(w, run, n - 1, x);
        CauseLasts(w, run, n, x);
      } else {
        NewIsCaused(w, run, n, p, t, walked, x);
      }
    }
  }

  lemma FirstState(w: World, run: seq<State>)
    requires Valid(w) && IsRun(w, run)
    ensures run[0] == Initial(w)
  {
    hide Round, Initial;
  }

  lemma NewIsCaused(w: World, run: seq<State>, n: nat, p: PkgId, t: set<Fact>, walked: bool, x: Fact)
    requires Valid(w) && 0 < n < |run| && RoundIs(w, run[n - 1], run[n], p, t, walked) && x in run[n].facts && x !in run[n - 1].facts
    ensures CausedByUse(w, run, n, x) || CausedByFeature(w, run[n].facts, x)
  {
    hide Effects, InUseAt, ChildFacts, AskedIn, Expanded, Used, ActiveIn, Children;
    RoundGrows(w, run[n - 1], run[n], p, t, walked);
    if x in t {
      ExpandedCaused(w, p, run[n - 1].facts, t, x);
      var f :| Active(p, f) in t && x in Effects(w, p, f);
      assert Active(p, f) in run[n].facts;
    } else {
      var d :| d in Used(w, p, t) && d in w.deps && x in ChildFacts(w, d, AskedIn(t, d));
      DemandsKeep(w, t, run[n].facts, Used(w, p, t));
      UsedIsInUse(w, run[n], p, t, d);
      assert InUseAt(w, run[n], p, d);
    }
  }

  ghost predicate ReachedByUse(w: World, run: seq<State>, n: nat, c: PkgId)
    requires n < |run|
  {
    exists i, q, d {:trigger InUseAt(w, run[i], q, d)} :: 0 <= i <= n && InUseAt(w, run[i], q, d) && w.deps[d].child == c
  }

  lemma {:induction false} EveryVisitIsCaused(w: World, run: seq<State>, n: nat, c: PkgId)
    requires Valid(w) && IsRun(w, run) && n < |run| && c in Queued(run[n]) + run[n].seen.Keys
    ensures c == w.root || ReachedByUse(w, run, n, c)
  {
    hide Round, RoundIs, InUseAt, IsRun, Queued;
    if n == 0 {
      FirstState(w, run);
      FirstQueue(w, c);
    } else {
      var p, t, walked := RoundAt(w, run, n);
      if c in Queued(run[n - 1]) + run[n - 1].seen.Keys {
        EveryVisitIsCaused(w, run, n - 1, c);
      } else {
        NewVisitIsCaused(w, run, n, p, t, walked, c);
      }
    }
  }

  lemma FirstQueue(w: World, c: PkgId)
    requires Valid(w) && c in Queued(Initial(w)) + Initial(w).seen.Keys
    ensures c == w.root
  {
  }

  lemma NewVisitIsCaused(w: World, run: seq<State>, n: nat, p: PkgId, t: set<Fact>, walked: bool, c: PkgId)
    requires Valid(w) && 0 < n < |run| && RoundIs(w, run[n - 1], run[n], p, t, walked)
    requires c in Queued(run[n]) + run[n].seen.Keys && c !in Queued(run[n - 1]) + run[n - 1].seen.Keys
    ensures ReachedByUse(w, run, n, c)
  {
    hide InUseAt, Expanded, Used, ActiveIn, Demands;
    RoundGrows(w, run[n - 1], run[n], p, t, walked);
    assert p in Queued(run[n - 1]);
    assert c in Children(w, Used(w, p, t));
    var d :| d in Used(w, p, t) && d in w.deps && w.deps[d].child == c;
    UsedIsInUse(w, run[n], p, t, d);
  }

  // ---- What a use asks for is done ----

  ghost predicate MetAt(w: World, s: State, q: PkgId, d: DepId)
    requires d in w.deps
  {
    w.deps[d].child in Queued(s) + s.seen.Keys && ChildFacts(w, d, AskedIn(s.facts, d)) <= s.facts
  }

  /** Nothing about the dependencies of another package changes in a round. */
  lemma OthersKeep(w: World, s: State, s': State, p: PkgId, t: set<Fact>, walked: bool, d: DepId)
    requires Valid(w) && s.facts <= Universe(w) && RoundIs(w, s, s', p, t, walked) && d !in AllDeps(w.packages[p])
    ensures AskedIn(s'.facts, d) == AskedIn(s.facts, d) && (Enabled(d) in s'.facts <==> Enabled(d) in s.facts)
  {
    hide Expanded, Universe, Used, ActiveIn, Children, Demands, AllDeps;
    ExpandedOwned(w, p, s.facts, t);
    RoundGrows(w, s, s', p, t, walked);
    DepAside(w, s.facts, t, p, d);
    if walked {
      DemandsKeep(w, t, s'.facts, Used(w, p, t));
    }
  }

  lemma DepAside(w: World, s: set<Fact>, t: set<Fact>, p: PkgId, d: DepId)
    requires p in w.packages && s <= t && d !in AllDeps(w.packages[p]) && forall x :: x in t && x !in s ==> OwnedBy(w, p, x)
    ensures AskedIn(t, d) == AskedIn(s, d) && (Enabled(d) in t <==> Enabled(d) in s)
  {
    hide AllDeps, OwnedBy;
    NotItsOwn(w, p, d);
    forall f ensures f in AskedIn(t, d) <==> f in AskedIn(s, d) {
      assert Asked(d, f) in t <==> Asked(d, f) in s;
    }
  }

  lemma NotItsOwn(w: World, p: PkgId, d: DepId)
    requires p in w.packages && d !in AllDeps(w.packages[p])
    ensures !OwnedBy(w, p, Enabled(d)) && forall f :: !OwnedBy(w, p, Asked(d, f))
  {
    hide AllDeps;
  }

  lemma AppliesIsOwn(w: World, q: PkgId, active: set<string>, d: DepId)
    requires q in w.packages && Applies(w, q, active, d)
    ensures d in AllDeps(w.packages[q])
  {
    hide TableDeps, AllDeps, Applies;
    AppliesExactly(w, q, active, d);
    TablesAreOwn(w, q, active);
  }

  lemma OthersMet(w: World, s: State, s': State, p: PkgId, t: set<Fact>, walked: bool, q: PkgId, d: DepId)
    requires Valid(w) && s.facts <= Universe(w) && RoundIs(w, s, s', p, t, walked) && q != p && InUseAt(w, s', q, d)
    requires InUseAt(w, s, q, d) ==> MetAt(w, s, q, d)
    ensures MetAt(w, s', q, d)
  {
    hide Expanded, Universe, Used, ActiveIn, Children, Demands, AllDeps, Applies, ChildFacts, AskedIn, Queued;
    AppliesIsOwn(w, q, s'.seen[q], d);
    OneOwns(w, p, q, d);
    OthersKeep(w, s, s', p, t, walked, d);
    RoundGrows(w, s, s', p, t, walked);
  }

  lemma OneOwns(w: World, p: PkgId, q: PkgId, d: DepId)
    requires Valid(w) && p in w.packages && q in w.packages && d in AllDeps(w.packages[q]) && p != q
    ensures d !in AllDeps(w.packages[p])
  {
    hide AllDeps;
  }

  lemma WalkedMet(w: World, s: State, s': State, p: PkgId, t: set<Fact>, d: DepId)
    requires Valid(w) && RoundIs(w, s, s', p, t, true) && InUseAt(w, s', p, d)
    ensures MetAt(w, s', p, d)
  {
    hide Expanded, ActiveIn, Applies, TableDeps, ChildFacts, AskedIn, Queued, AllDeps;
    DemandsKeep(w, t, s'.facts, Used(w, p, t));
    AppliesExactly(w, p, ActiveIn(t, p), d);
    assert d in Used(w, p, t);
    assert w.deps[d].child in Children(w, Used(w, p, t));
    DemandsOf(w, t, Used(w, p, t), d);
  }

  lemma IdleMet(w: World, s: State, s': State, p: PkgId, t: set<Fact>, q: PkgId, d: DepId)
    requires Valid(w) && Sound(w, s) && RoundIs(w, s, s', p, t, false) && InUseAt(w, s', q, d)
    requires InUseAt(w, s, q, d) ==> MetAt(w, s, q, d)
    ensures MetAt(w, s', q, d)
  {
    hide Expanded, Universe, ActiveIn, Applies, ChildFacts, AskedIn, Progress, Needed, Total, AllDeps, Children, Used, Demands;
    PopQueue(s);
    ExpandedInside(w, p, s.facts, t);
    IdleRoundDone(w, p, s.facts, t, Queued(State(t, s.queue[1..], s.seen)), s.seen);
    assert s'.facts == s.facts;
  }

  lemma {:induction false} UsesAreMet(w: World, run: seq<State>, n: nat, q: PkgId, d: DepId)
    requires Valid(w) && IsRun(w, run) && n < |run| && InUseAt(w, run[n], q, d)
    ensures MetAt(w, run[n], q, d)
  {
    hide IsRun, RoundIs, InUseAt, MetAt, Universe, Progress, Needed, Total;
    if n == 0 {
      FirstState(w, run);
      NothingInUse(w, q, d);
    } else {
      var p, t, walked := RoundAt(w, run, n);
      PrefixSound(w, run, n - 1);
      if InUseAt(w, run[n - 1], q, d) {
        UsesAreMet(w, run, n - 1, q, d);
      }
      if !walked {
        IdleMet(w, run[n - 1], run[n], p, t, q, d);
      } else if q == p {
        WalkedMet(w, run[n - 1], run[n], p, t, d);
      } else {
        OthersMet(w, run[n - 1], run[n], p, t, walked, q, d);
      }
    }
  }

  lemma NothingInUse(w: World, q: PkgId, d: DepId)
    requires Valid(w)
    ensures !InUseAt(w, Initial(w), q, d)
  {
    hide Applies, Trimmed, RootFeatures, Declared;
  }

  // ---- When a run has ended ----

  lemma EndedFeatures(w: World, run: seq<State>, s: State, p: PkgId, f: string)
    requires Valid(w) && EndsIn(w, run, s) && p in s.seen && p in w.packages && Active(p, f) in s.facts
    ensures Effects(w, p, f) <= s.facts
  {
    hide RunTo, Effects, InitialFacts, Proper;
    RunEndsClosed(w, run, s);
    assert Visited(p) in Outcome(s);
    assert PackageClosed(w, Outcome(s), p);
    EffectsOwned(w, p, f);
    NotOwned(w, p);
  }

  lemma SeenAreKnown(w: World, run: seq<State>, s: State, p: PkgId)
    requires Valid(w) && EndsIn(w, run, s) && p in s.seen
    ensures p in w.packages && s.seen[p] == ActiveIn(s.facts, p) && Features(s.seen[p])
  {
    hide RunTo, Universe, Needed, PackageClosed, InitialFacts, ActiveIn, Features;
    RunSound(w, run, s);
    var t := Total(s.facts, {}, s.seen);
    assert Queued(s) == {};
    assert SeenWell(w, t, {}, p, s.seen[p]);
    ActiveAreFeatures(t, p);
    VisitsAside(w, p, s.facts, {} + s.seen.Keys);
  }

  lemma FeatureCauseIsOwn(w: World, t: set<Fact>, x: Fact, p: PkgId)
    requires Valid(w) && p in w.packages && OwnedBy(w, p, x) && CausedByFeature(w, t, x)
    ensures exists f {:trigger Active(p, f)} :: Active(p, f) in t && FeatureDemands(w, p, f, x)
  {
    hide Effects, FeatureDemands, AllDeps;
    var q, f :| q in w.packages && Active(q, f) in t && x in Effects(w, q, f);
    EffectsOwned(w, q, f);
    assert OwnedBy(w, q, x);
    assert q == p;
    EffectsExactly(w, p, f, x);
  }

  /** At the end a fact about a visited package that only its own features can cause is recorded exactly if one
      of them demands it. */
  lemma RecordedExactly(w: World, run: seq<State>, s: State, p: PkgId, x: Fact)
    requires Valid(w) && EndsIn(w, run, s) && p in s.seen && p in w.packages && OwnedBy(w, p, x)
    requires !x.Active? && x !in Initial(w).facts
    ensures x in s.facts <==> exists f {:trigger Active(p, f)} :: Active(p, f) in s.facts && FeatureDemands(w, p, f, x)
  {
    hide IsRun, Initial, FeatureDemands, Effects, CausedByFeature, OwnedBy, ChildFacts, AskedIn, InUseAt;
    EndedRun(w, run, s);
    if x in s.facts {
      EverythingIsCaused(w, run, |run| - 1, x);
      UseCausesFeatures(w, run, |run| - 1, x);
      FeatureCauseIsOwn(w, s.facts, x, p);
    }
    if f :| Active(p, f) in s.facts && FeatureDemands(w, p, f, x) {
      EffectsExactly(w, p, f, x);
      EndedFeatures(w, run, s, p, f);
    }
  }

  lemma UseCausesFeatures(w: World, run: seq<State>, n: nat, x: Fact)
    requires n < |run|
    ensures CausedByUse(w, run, n, x) ==> x.Active?
  {
    hide Applies, AskedIn;
  }

  lemma EndedRun(w: World, run: seq<State>, s: State)
    requires Valid(w) && EndsIn(w, run, s)
    ensures IsRun(w, run) && |run| > 0 && run[|run| - 1] == s && s.queue == [] && Queued(s) == {}
  {
    hide Round, Initial;
  }

  /** A dependency entry of a visited package is enabled exactly if an active feature of the package is `dep:` and
      its key, or an active feature with a slash, or an entry in the list of one without, is its key, a slash and
      any text. A question mark before the slash makes a difference. */
  lemma EnabledExactly(w: World, run: seq<State>, s: State, p: PkgId, d: DepId)
    requires Valid(w) && EndsIn(w, run, s) && p in s.seen && p in w.packages && d in w.deps && Declares(w.packages[p], d)
    ensures var key := w.deps[d].key;
      Enabled(d) in s.facts <==> exists f ::
        && Active(p, f) in s.facts
        && (f == "dep:" + key || exists text, feature :: Reads(w.packages[p], f, text) && AsksStrongly(text, key, feature))
  {
    hide EndsIn, Initial, Declares, Reads, AsksStrongly, Effects;
    DeclaresExactly(w.packages[p], d);
    NotAtFirst(w, d);
    RecordedExactly(w, run, s, p, Enabled(d));
    var key := w.deps[d].key;
    forall f ensures FeatureDemands(w, p, f, Enabled(d)) <==>
      f == "dep:" + key || exists text, feature :: Reads(w.packages[p], f, text) && AsksStrongly(text, key, feature)
    {
      EnabledDemands(w, p, f, d);
    }
    hide FeatureDemands;
  }

  lemma NotAtFirst(w: World, d: DepId)
    requires Valid(w)
    ensures Enabled(d) !in Initial(w).facts
    ensures forall f :: Asked(d, f) in Initial(w).facts <==> d in w.deps && f in w.deps[d].features
  {
    hide RootFeatures;
  }

  lemma EnabledDemands(w: World, p: PkgId, f: string, d: DepId)
    requires p in w.packages && d in w.deps && Declares(w.packages[p], d)
    ensures FeatureDemands(w, p, f, Enabled(d)) <==>
      f == "dep:" + w.deps[d].key
      || exists text, feature :: Reads(w.packages[p], f, text) && AsksStrongly(text, w.deps[d].key, feature)
  {
    hide Declares, Reads, AsksStrongly, AsksWeakly, OptionalNamed;
    if text, feature :| Reads(w.packages[p], f, text) && AsksStrongly(text, w.deps[d].key, feature) {
      assert RequestDemands(w, p, text, Enabled(d));
    }
  }

  lemma AskedDemands(w: World, p: PkgId, f: string, d: DepId, feature: string)
    requires p in w.packages && d in w.deps && Declares(w.packages[p], d)
    ensures FeatureDemands(w, p, f, Asked(d, feature)) <==>
      exists text :: Reads(w.packages[p], f, text) && (AsksStrongly(text, w.deps[d].key, feature) || AsksWeakly(text, w.deps[d].key, feature))
  {
    hide Declares, Reads, AsksStrongly, AsksWeakly, OptionalNamed;
    if text :| Reads(w.packages[p], f, text) && (AsksStrongly(text, w.deps[d].key, feature) || AsksWeakly(text, w.deps[d].key, feature)) {
      assert RequestDemands(w, p, text, Asked(d, feature));
    }
  }

  /** A feature is asked of a dependency entry exactly if the entry itself asks for it, or one of these texts is
      its key, a slash and the feature, with or without a question mark. */
  lemma AskedExactly(w: World, run: seq<State>, s: State, p: PkgId, d: DepId, feature: string)
    requires Valid(w) && EndsIn(w, run, s) && p in s.seen && p in w.packages && d in w.deps && Declares(w.packages[p], d)
    ensures var key := w.deps[d].key;
      Asked(d, feature) in s.facts <==> feature in w.deps[d].features || exists f, text ::
        Active(p, f) in s.facts && Reads(w.packages[p], f, text) && (AsksStrongly(text, key, feature) || AsksWeakly(text, key, feature))
  {
    hide EndsIn, Initial, Declares, Reads, AsksStrongly, AsksWeakly, Effects;
    DeclaresExactly(w.packages[p], d);
    NotAtFirst(w, d);
    if feature in w.deps[d].features {
      AskedAtFirst(w, run, s, Asked(d, feature));
    } else {
      RecordedExactly(w, run, s, p, Asked(d, feature));
      forall f ensures FeatureDemands(w, p, f, Asked(d, feature)) <==>
        exists text :: Reads(w.packages[p], f, text) && (AsksStrongly(text, w.deps[d].key, feature) || AsksWeakly(text, w.deps[d].key, feature))
      {
        AskedDemands(w, p, f, d, feature);
      }
      hide FeatureDemands;
    }
  }

  lemma AskedAtFirst(w: World, run: seq<State>, s: State, x: Fact)
    requires Valid(w) && EndsIn(w, run, s) && x in Initial(w).facts
    ensures x in s.facts
  {
    hide IsRun, Initial;
    EndedRun(w, run, s);
    FirstState(w, run);
    RunGrowsFrom(w, run, 0, |run| - 1);
  }

  /** A use in any state of the run asks the package of the dependency for this feature. */
  ghost predicate AskedByUse(w: World, run: seq<State>, p: PkgId, feature: string) {
    exists i, q, d {:trigger InUseAt(w, run[i], q, d)} ::
      0 <= i < |run| && InUseAt(w, run[i], q, d) && w.deps[d].child == p && ChildAsked(w, d, run[i].facts, feature)
  }

  /** A feature of a visited package is active exactly if the command line asks for it, an active feature of the
      package demands it, or a dependency that was in use at some moment asked for it. */
  lemma ActiveExactly(w: World, run: seq<State>, s: State, p: PkgId, feature: string)
    requires Valid(w) && EndsIn(w, run, s) && p in s.seen && p in w.packages
    ensures Active(p, feature) in s.facts <==>
      || (p == w.root && RootAsked(w, feature))
      || (exists f :: Active(p, f) in s.facts && FeatureDemands(w, p, f, Active(p, feature)))
      || AskedByUse(w, run, p, feature)
  {
    hide IsRun, EndsIn, Initial, FeatureDemands, Effects, CausedByFeature, CausedByUse, AskedByUse, RootAsked, InUseAt;
    var x := Active(p, feature);
    EndedRun(w, run, s);
    ActiveAtFirst(w, p, feature);
    UseExactly(w, run, s, p, feature);
    if x in s.facts {
      EverythingIsCaused(w, run, |run| - 1, x);
      if CausedByFeature(w, s.facts, x) {
        FeatureCauseIsOwn(w, s.facts, x, p);
      }
    }
    if p == w.root && RootAsked(w, feature) {
      AskedAtFirst(w, run, s, x);
    }
    if f :| Active(p, f) in s.facts && FeatureDemands(w, p, f, x) {
      EffectsExactly(w, p, f, x);
      EndedFeatures(w, run, s, p, f);
    }
  }

  lemma ActiveAtFirst(w: World, p: PkgId, feature: string)
    requires Valid(w)
    ensures Active(p, feature) in Initial(w).facts <==> p == w.root && RootAsked(w, feature)
  {
    hide RootFeatures, Trimmed, RootAsked;
    RootExactly(w, Active(p, feature));
  }

  lemma UseExactly(w: World, run: seq<State>, s: State, p: PkgId, feature: string)
    requires Valid(w) && EndsIn(w, run, s) && |run| > 0
    ensures CausedByUse(w, run, |run| - 1, Active(p, feature)) <==> AskedByUse(w, run, p, feature)
    ensures AskedByUse(w, run, p, feature) ==> Active(p, feature) in s.facts
  {
    hide IsRun, ChildFacts, AskedIn, ChildAsked, Applies;
    EndedRun(w, run, s);
    forall i, q, d | 0 <= i < |run| && InUseAt(w, run[i], q, d)
      ensures Active(p, feature) in ChildFacts(w, d, AskedIn(run[i].facts, d)) <==> w.deps[d].child == p && ChildAsked(w, d, run[i].facts, feature)
      ensures ChildFacts(w, d, AskedIn(run[i].facts, d)) <= s.facts
    {
      ChildExactly(w, d, run[i].facts, Active(p, feature));
      UsesAreMet(w, run, i, q, d);
      RunGrowsFrom(w, run, i, |run| - 1);
    }
  }

  /** A package is visited exactly if it is the root, or that of a dependency that was in use at some moment. */
  lemma VisitedExactly(w: World, run: seq<State>, s: State, p: PkgId)
    requires Valid(w) && EndsIn(w, run, s)
    ensures p in s.seen <==> p == w.root || ReachedByUse(w, run, |run| - 1, p)
  {
    hide IsRun, EndsIn, InUseAt, Initial;
    EndedRun(w, run, s);
    if p in s.seen {
      EveryVisitIsCaused(w, run, |run| - 1, p);
    }
    if p == w.root {
      FirstState(w, run);
      RunGrowsFrom(w, run, 0, |run| - 1);
      RootIsFirst(w);
    }
    hide ReachedByUse;
    if ReachedByUse(w, run, |run| - 1, p) {
      ReachedIsVisited(w, run, s, p);
    }
  }

  lemma ReachedIsVisited(w: World, run: seq<State>, s: State, p: PkgId)
    requires Valid(w) && EndsIn(w, run, s) && |run| > 0 && ReachedByUse(w, run, |run| - 1, p)
    ensures p in s.seen
  {
    hide IsRun, EndsIn, Applies, ChildFacts, AskedIn;
    EndedRun(w, run, s);
    var i, q, d :| 0 <= i <= |run| - 1 && InUseAt(w, run[i], q, d) && w.deps[d].child == p;
    UsesAreMet(w, run, i, q, d);
    RunGrowsFrom(w, run, i, |run| - 1);
  }

  lemma RootIsFirst(w: World)
    requires Valid(w)
    ensures w.root in Queued(Initial(w))
  {
    hide Trimmed, RootFeatures, Declared;
  }

  // ---- Without lost conditions the last moment counts ----

  lemma {:induction false} SeenGrowsFrom(w: World, run: seq<State>, i: nat, n: nat, q: PkgId)
    requires Valid(w) && IsRun(w, run) && i <= n < |run| && q in run[i].seen
    ensures q in run[n].seen && run[i].seen[q] <= run[n].seen[q]
  {
    hide IsRun, RoundIs, Initial;
    if i < n {
      SeenGrowsFrom(w, run, i, n - 1, q);
      var p, t, walked := RoundAt(w, run, n);
      SeenGrowsOnce(w, run, n, p, t, walked, q);
    }
  }

  lemma SeenGrowsOnce(w: World, run: seq<State>, n: nat, p: PkgId, t: set<Fact>, walked: bool, q: PkgId)
    requires Valid(w) && IsRun(w, run) && 0 < n < |run| && RoundIs(w, run[n - 1], run[n], p, t, walked) && q in run[n - 1].seen
    ensures q in run[n].seen && run[n - 1].seen[q] <= run[n].seen[q]
  {
    hide Round, Initial, Expanded, ActiveIn, Demands, Used, Children, Queued;
    assert RunTo(w, run[..n], run[n - 1]);
    RunGrows(w, run[..n], run[n - 1], t);
  }

  lemma UseLasts(w: World, run: seq<State>, s: State, i: nat, q: PkgId, d: DepId)
    requires Valid(w) && EndsIn(w, run, s) && Monotone(w) && i < |run| && InUseAt(w, run[i], q, d)
    ensures InUseAt(w, s, q, d)
  {
    hide IsRun, EndsIn, Monotone, Features, Queued, InUseAt;
    InUseSeen(w, run[i], q, d);
    GrowsToEnd(w, run, s, i, q);
    SeenAreKnown(w, run, s, q);
    UseStays(w, run[i], s, q, d);
  }

  lemma GrowsToEnd(w: World, run: seq<State>, s: State, i: nat, q: PkgId)
    requires Valid(w) && EndsIn(w, run, s) && i < |run| && q in run[i].seen
    ensures q in s.seen && run[i].seen[q] <= s.seen[q] && run[i].facts <= s.facts
  {
    hide IsRun, EndsIn, Queued;
    EndedRun(w, run, s);
    var last := |run| - 1;
    assert run[last] == s;
    SeenGrowsFrom(w, run, i, last, q);
    RunGrowsFrom(w, run, i, last);
  }

  lemma InUseSeen(w: World, s: State, q: PkgId, d: DepId)
    requires InUseAt(w, s, q, d)
    ensures q in s.seen && q in w.packages && d in w.deps
  {
    hide Applies;
  }

  lemma UseStays(w: World, s: State, s': State, q: PkgId, d: DepId)
    requires Monotone(w) && InUseAt(w, s, q, d) && s.facts <= s'.facts && q in s.seen && q in s'.seen
    requires s.seen[q] <= s'.seen[q] && Features(s'.seen[q])
    ensures InUseAt(w, s', q, d)
  {
    hide Monotone, Applies, TableDeps, Features;
    AppliesExactly(w, q, s.seen[q], d);
    AppliesExactly(w, q, s'.seen[q], d);
    MoreTables(w, q, s.seen[q], s'.seen[q]);
  }

  lemma ChildAskedMore(w: World, d: DepId, t: set<Fact>, t': set<Fact>, feature: string)
    requires t <= t' && ChildAsked(w, d, t, feature)
    ensures ChildAsked(w, d, t', feature)
  {
    hide TrimSpace;
  }

  /** If no condition is lost, only the end counts: a use at any moment is one at the end, with the features that
      the packages have then. */
  lemma UsesAtTheEnd(w: World, run: seq<State>, s: State, p: PkgId, feature: string)
    requires Valid(w) && EndsIn(w, run, s) && Monotone(w)
    ensures AskedByUse(w, run, p, feature) <==>
      exists q, d {:trigger InUseAt(w, s, q, d)} :: InUseAt(w, s, q, d) && w.deps[d].child == p && ChildAsked(w, d, s.facts, feature)
    ensures |run| > 0
    ensures ReachedByUse(w, run, |run| - 1, p) <==>
      exists q, d {:trigger InUseAt(w, s, q, d)} :: InUseAt(w, s, q, d) && w.deps[d].child == p
    ensures forall q :: q in s.seen ==> s.seen[q] == ActiveIn(s.facts, q)
  {
    hide IsRun, EndsIn, Monotone, ActiveIn, Applies, ChildAsked, AskedByUse, ReachedByUse, Features;
    EndedRun(w, run, s);
    forall i, q, d | 0 <= i < |run| && InUseAt(w, run[i], q, d) ensures InUseAt(w, s, q, d) {
      UseLasts(w, run, s, i, q, d);
    }
    forall i, d | 0 <= i < |run| && ChildAsked(w, d, run[i].facts, feature) ensures ChildAsked(w, d, s.facts, feature) {
      RunGrowsFrom(w, run, i, |run| - 1);
      ChildAskedMore(w, d, run[i].facts, s.facts, feature);
    }
    LastAsks(w, run, p, feature);
    LastReaches(w, run, p);
    forall q | q in s.seen ensures s.seen[q] == ActiveIn(s.facts, q) {
      SeenAreKnown(w, run, s, q);
    }
  }

  lemma LastAsks(w: World, run: seq<State>, p: PkgId, feature: string)
    requires run != [] && forall i, q, d :: 0 <= i < |run| && InUseAt(w, run[i], q, d) ==> InUseAt(w, run[|run| - 1], q, d)
    requires forall i, d :: 0 <= i < |run| && ChildAsked(w, d, run[i].facts, feature) ==> ChildAsked(w, d, run[|run| - 1].facts, feature)
    ensures var s := run[|run| - 1];
      AskedByUse(w, run, p, feature) <==>
        exists q, d {:trigger InUseAt(w, s, q, d)} :: InUseAt(w, s, q, d) && w.deps[d].child == p && ChildAsked(w, d, s.facts, feature)
  {
    hide Applies, ChildAsked;
  }

  lemma LastReaches(w: World, run: seq<State>, p: PkgId)
    requires run != [] && forall i, q, d :: 0 <= i < |run| && InUseAt(w, run[i], q, d) ==> InUseAt(w, run[|run| - 1], q, d)
    ensures var s := run[|run| - 1];
      ReachedByUse(w, run, |run| - 1, p) <==> exists q, d {:trigger InUseAt(w, s, q, d)} :: InUseAt(w, s, q, d) && w.deps[d].child == p
  {
    hide Applies;
  }
}
