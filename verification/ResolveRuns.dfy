/** The runs that `resolveGraph` (bin/cargo/resolve.go:8-79) may take, as Go leaves the order of maps open. */
module ResolveRuns {
  import opened FeatureRules
  import opened FeatureUniverse
  import opened FeatureState
  import opened ResolveProgress

  /** Between two rounds: the recorded facts, the queue, and the features each visited package had when its
      dependencies were last walked. */
  datatype State = State(facts: set<Fact>, queue: seq<PkgId>, seen: map<PkgId, set<string>>)

  // ---- The dependencies of a package, in the order in which they are walked ----

  /** The target tables that apply, taken in the order `conditions` in which the map is ranged over. */
  function TargetList(w: World, p: PkgId, active: set<string>, conditions: seq<string>): seq<DepId>
    requires p in w.packages
  {
    if conditions == [] then []
    else
      var pkg, c := w.packages[p], conditions[|conditions| - 1];
      TargetList(w, p, active, conditions[..|conditions| - 1])
      + if c in pkg.targetDeps && w.holds(c, active) then UsedTables(pkg.targetDeps[c], pkg.buildScript, UsesDev(w, p)) else []
  }

  ghost function InUseOnly(w: World, t: set<Fact>, list: seq<DepId>): seq<DepId> {
    if list == [] then []
    else
      var d := list[|list| - 1];
      InUseOnly(w, t, list[..|list| - 1]) + if d in w.deps && (!w.deps[d].optional || Enabled(d) in t) then [d] else []
  }

  ghost predicate IsOrder(conditions: seq<string>, keys: set<string>) {
    && (forall c :: c in conditions <==> c in keys)
    && forall i, j :: 0 <= i < j < |conditions| ==> conditions[i] != conditions[j]
  }

  /** `enabledDependencies` may answer this list. */
  ghost predicate MayWalk(w: World, p: PkgId, t: set<Fact>, list: seq<DepId>)
    requires p in w.packages
  {
    exists conditions {:trigger IsOrder(conditions, w.packages[p].targetDeps.Keys)} ::
      IsOrder(conditions, w.packages[p].targetDeps.Keys)
      && list == InUseOnly(w, t, UsedTables(w.packages[p].dependencies, w.packages[p].buildScript, UsesDev(w, p))
                                 + TargetList(w, p, ActiveIn(t, p), conditions))
  }

  lemma {:induction false} TargetListMembers(w: World, p: PkgId, active: set<string>, conditions: seq<string>)
    requires p in w.packages
    ensures Listed(TargetList(w, p, active, conditions)) == TargetDeps(w, p, active, set c | c in conditions)
  {
    if conditions != [] {
      var n, pkg := |conditions| - 1, w.packages[p];
      var head, c := conditions[..n], conditions[n];
      var more := if c in pkg.targetDeps && w.holds(c, active)
                  then UsedTables(pkg.targetDeps[c], pkg.buildScript, UsesDev(w, p)) else [];
      assert TargetList(w, p, active, conditions) == TargetList(w, p, active, head) + more;
      hide UsedTables, TargetList, TargetDeps, Listed;
      TargetListMembers(w, p, active, head);
      ListedSum(TargetList(w, p, active, head), more);
      OneTable(w, p, active, (set x | x in head), c, more);
      OneMore(conditions, head, c);
    } else {
      assert TargetDeps(w, p, active, set c | c in conditions) == {};
    }
  }

  lemma OneMore(conditions: seq<string>, head: seq<string>, c: string)
    requires conditions == head + [c]
    ensures (set x | x in conditions) == (set x | x in head) + {c}
  {
  }

  lemma ListedSum(a: seq<DepId>, b: seq<DepId>)
    ensures Listed(a + b) == Listed(a) + Listed(b)
  {
  }

  lemma OneTable(w: World, p: PkgId, active: set<string>, done: set<string>, c: string, list: seq<DepId>)
    requires p in w.packages
    requires var pkg := w.packages[p];
      list == if c in pkg.targetDeps && w.holds(c, active)
              then UsedTables(pkg.targetDeps[c], pkg.buildScript, UsesDev(w, p)) else []
    ensures TargetDeps(w, p, active, done + {c}) == TargetDeps(w, p, active, done) + Listed(list)
  {
    hide UsedTables;
  }

  lemma {:induction false} InUseOnlyMembers(w: World, t: set<Fact>, list: seq<DepId>)
    ensures forall d :: d in InUseOnly(w, t, list) <==> d in list && d in w.deps && (!w.deps[d].optional || Enabled(d) in t)
  {
    if list != [] {
      InUseOnlyMembers(w, t, list[..|list| - 1]);
      assert list == list[..|list| - 1] + [list[|list| - 1]];
    }
  }

  lemma WalkIsUsed(w: World, p: PkgId, t: set<Fact>, list: seq<DepId>)
    requires p in w.packages && MayWalk(w, p, t, list)
    ensures Listed(list) == Used(w, p, t)
  {
    hide UsedTables, TargetList, InUseOnly, TargetDeps;
    var keys := w.packages[p].targetDeps.Keys;
    var conditions :| IsOrder(conditions, keys)
      && list == InUseOnly(w, t, UsedTables(w.packages[p].dependencies, w.packages[p].buildScript, UsesDev(w, p))
                                 + TargetList(w, p, ActiveIn(t, p), conditions));
    TargetListMembers(w, p, ActiveIn(t, p), conditions);
    assert (set c | c in conditions) == keys;
    InUseOnlyMembers(w, t, UsedTables(w.packages[p].dependencies, w.packages[p].buildScript, UsesDev(w, p))
                           + TargetList(w, p, ActiveIn(t, p), conditions));
  }

  // ---- Walking them ----

  datatype Work = Work(facts: set<Fact>, queue: seq<PkgId>)

  /** One dependency: its package is asked for features, and queued if that changed it or if the revision
      noted for it is empty or missing. */
  ghost function WalkOne(w: World, seen: map<PkgId, set<string>>, k: Work, d: DepId): Work
    requires d in w.deps
  {
    var child := w.deps[d].child;
    var facts := k.facts + ChildFacts(w, d, AskedIn(k.facts, d));
    var wanted := facts != k.facts || child !in seen || seen[child] == {};
    Work(facts, if wanted && child !in k.queue then k.queue + [child] else k.queue)
  }

  ghost predicate Known(w: World, list: seq<DepId>) { forall i :: 0 <= i < |list| ==> list[i] in w.deps }

  ghost function WalkAll(w: World, seen: map<PkgId, set<string>>, k: Work, list: seq<DepId>): Work
    requires Known(w, list)
  {
    if list == [] then k else WalkOne(w, seen, WalkAll(w, seen, k, list[..|list| - 1]), list[|list| - 1])
  }

  // ---- Rounds and runs ----

  /** The first package of the queue is expanded; if its features are those it was last walked with, that is
      all, and else its dependencies are walked. */
  ghost predicate Round(w: World, s: State, s': State)
    requires Valid(w)
  {
    && s.queue != [] && s.queue[0] in w.packages
    && exists t {:trigger Expanded(w, s.queue[0], s.facts, t)} ::
         Expanded(w, s.queue[0], s.facts, t) && RoundTo(w, s.queue[0], State(t, s.queue[1..], s.seen), s')
  }

  ghost predicate Idle(s: State, p: PkgId) { p in s.seen && s.seen[p] == ActiveIn(s.facts, p) }

  /** The rest of the round, after the expansion to `s.facts`. */
  ghost predicate RoundTo(w: World, p: PkgId, s: State, s': State)
    requires Valid(w) && p in w.packages
  {
    if Idle(s, p) then s' == s
    else exists list {:trigger MayWalk(w, p, s.facts, list)} :: MayWalk(w, p, s.facts, list) && WalkTo(w, p, s, list, s')
  }

  ghost predicate WalkTo(w: World, p: PkgId, s: State, list: seq<DepId>, s': State) {
    && s'.seen == s.seen[p := ActiveIn(s.facts, p)] && Known(w, list)
    && Work(s'.facts, s'.queue) == WalkAll(w, s'.seen, Work(s.facts, s.queue), list)
  }

  ghost function Initial(w: World): State
    requires Valid(w)
  {
    State(Declared(w) + Trimmed(w.root, RootFeatures(w)), [w.root], map[])
  }

  ghost predicate IsRun(w: World, run: seq<State>)
    requires Valid(w)
  {
    run != [] && run[0] == Initial(w) && forall i {:trigger run[i]} :: 0 < i < |run| ==> Round(w, run[i - 1], run[i])
  }

  ghost predicate RunTo(w: World, run: seq<State>, s: State)
    requires Valid(w)
  {
    IsRun(w, run) && run[|run| - 1] == s
  }

  /** A run that has emptied the queue. */
  ghost predicate EndsIn(w: World, run: seq<State>, s: State)
    requires Valid(w)
  {
    RunTo(w, run, s) && s.queue == []
  }

  /** What a run ends with: what it recorded, and the packages it visited. */
  ghost function Outcome(s: State): set<Fact> { s.facts + Visits(s.seen.Keys) }

  /** Every order of the maps leads to the same result. */
  ghost predicate RunsAgree(w: World)
    requires Valid(w)
  {
    forall r, s, r', s' {:trigger EndsIn(w, r, s), EndsIn(w, r', s')} ::
      EndsIn(w, r, s) && EndsIn(w, r', s') ==> Outcome(s) == Outcome(s')
  }

  // ---- What every run keeps ----

  ghost function Queued(s: State): set<PkgId> { set p | p in s.queue }

  ghost predicate Distinct(queue: seq<PkgId>) { forall i, j :: 0 <= i < j < |queue| ==> queue[i] != queue[j] }

  ghost predicate Sound(w: World, s: State)
    requires Valid(w)
  {
    var t := Total(s.facts, Queued(s), s.seen);
    && Distinct(s.queue) && s.facts <= Universe(w)
    && (forall q {:trigger Visited(q)} :: Visited(q) !in s.facts)
    && Progress(w, t, Queued(s), s.seen) && Needed(w, t)
  }

  lemma InitialSound(w: World)
    requires Valid(w)
    ensures Sound(w, Initial(w))
  {
    hide Trimmed, RootFeatures, Universe, Progress, Needed, Total;
    InitialTotal(w);
    InitialProgress(w, Total(Initial(w).facts, {w.root}, map[]));
    assert Queued(Initial(w)) == {w.root};
    InitialInside(w);
    InitialRecorded(w);
  }

  lemma InitialRecorded(w: World)
    requires Valid(w)
    ensures Initial(w).facts <= InitialFacts(w) && forall q {:trigger Visited(q)} :: Visited(q) !in Initial(w).facts
  {
  }

  /** What walking a list comes to, whatever its order. */
  ghost predicate Walks(w: World, seen: map<PkgId, set<string>>, k: Work, ds: set<DepId>, r: Work) {
    var before, queued := (set p | p in k.queue), (set p | p in r.queue);
    && r.facts == k.facts + Demands(w, k.facts, ds) && Moved(k.facts, r.facts, queued)
    && Distinct(r.queue) && before <= queued <= before + Children(w, ds) && Children(w, ds) <= queued + seen.Keys
  }

  lemma {:induction false} WalkAllWalks(w: World, seen: map<PkgId, set<string>>, k: Work, list: seq<DepId>)
    requires Known(w, list) && Distinct(k.queue)
    ensures Walks(w, seen, k, Listed(list), WalkAll(w, seen, k, list))
  {
    hide Walks, WalkOne;
    if list == [] {
      WalksNone(w, seen, k);
      assert Listed(list) == {};
    } else {
      var n := |list| - 1;
      WalkAllWalks(w, seen, k, list[..n]);
      WalksOneMore(w, seen, k, Listed(list[..n]), WalkAll(w, seen, k, list[..n]), list[n]);
      assert Listed(list) == Listed(list[..n]) + {list[n]};
    }
  }

  lemma WalksNone(w: World, seen: map<PkgId, set<string>>, k: Work)
    requires Distinct(k.queue)
    ensures Walks(w, seen, k, {}, k)
  {
    hide ActiveIn;
    assert Demands(w, k.facts, {}) == {} && Children(w, {}) == {};
  }

  lemma WalksOneMore(w: World, seen: map<PkgId, set<string>>, k: Work, ds: set<DepId>, r: Work, d: DepId)
    requires Walks(w, seen, k, ds, r) && d in w.deps
    ensures Walks(w, seen, k, ds + {d}, WalkOne(w, seen, r, d))
  {
    hide Moved, Demands, ChildFacts, AskedIn, Children;
    var r' := WalkOne(w, seen, r, d);
    var queued, queued' := (set p | p in r.queue), (set p | p in r'.queue);
    DemandsStep(w, k.facts, ds, d);
    ChildrenStep(w, ds, d);
    assert queued' == queued || queued' == queued + {w.deps[d].child};
    MovedStep(w, k.facts, r.facts, d, AskedIn(r.facts, d), queued, queued');
  }

  lemma RoundSound(w: World, s: State, s': State)
    requires Valid(w) && Sound(w, s) && Round(w, s, s')
    ensures Sound(w, s')
  {
    hide Expanded, Universe, Progress, Needed, RoundTo, Idle;
    var p := s.queue[0];
    var t :| Expanded(w, p, s.facts, t) && RoundTo(w, p, State(t, s.queue[1..], s.seen), s');
    var mid := State(t, s.queue[1..], s.seen);
    PopQueue(s);
    if Idle(mid, p) {
      IdleSound(w, p, s, mid);
      RoundToIdle(w, p, mid, s');
    } else {
      WalkSound(w, p, s, mid, s');
    }
  }

  lemma PopQueue(s: State)
    requires s.queue != [] && Distinct(s.queue)
    ensures var rest := set p | p in s.queue[1..];
      Queued(s) == rest + {s.queue[0]} && s.queue[0] !in rest && Distinct(s.queue[1..])
  {
    assert s.queue == [s.queue[0]] + s.queue[1..];
  }

  lemma RoundToIdle(w: World, p: PkgId, s: State, s': State)
    requires Valid(w) && p in w.packages && RoundTo(w, p, s, s') && Idle(s, p)
    ensures s' == s
  {
  }

  lemma ExpandedInside(w: World, p: PkgId, s: set<Fact>, t: set<Fact>)
    requires Valid(w) && p in w.packages && s <= Universe(w) && Expanded(w, p, s, t)
    ensures t <= Universe(w) && forall q {:trigger Visited(q)} :: Visited(q) !in s ==> Visited(q) !in t
  {
    hide Effects, Universe, OwnedBy;
    ExpandedOwned(w, p, s, t);
    forall f | Active(p, f) in Universe(w) ensures Effects(w, p, f) <= Universe(w) {
      OwnedClosed(w, p, f);
    }
    assert FeaturesClosed(w, Universe(w), p);
    NotOwned(w, p);
  }

  lemma NotOwned(w: World, p: PkgId)
    requires p in w.packages
    ensures forall q {:trigger Visited(q)} :: !OwnedBy(w, p, Visited(q))
  {
  }

  lemma IdleSound(w: World, p: PkgId, s: State, mid: State)
    requires Valid(w) && Sound(w, s) && p in w.packages && s.queue != [] && s.queue[0] == p
    requires Expanded(w, p, s.facts, mid.facts) && mid.queue == s.queue[1..] && mid.seen == s.seen && Idle(mid, p)
    ensures Sound(w, mid)
  {
    hide Expanded, Universe, Progress, Needed, Total, ActiveIn;
    PopQueue(s);
    ExpandedInside(w, p, s.facts, mid.facts);
    IdleRoundDone(w, p, s.facts, mid.facts, Queued(mid), s.seen);
  }

  lemma WalkSound(w: World, p: PkgId, s: State, mid: State, s': State)
    requires Valid(w) && Sound(w, s) && p in w.packages && s.queue != [] && s.queue[0] == p
    requires Expanded(w, p, s.facts, mid.facts) && mid.queue == s.queue[1..] && mid.seen == s.seen && !Idle(mid, p)
    requires RoundTo(w, p, mid, s')
    ensures Sound(w, s')
  {
    hide Expanded, Universe, Progress, Needed, Total, ActiveIn, Moved, Demands, Children, MayWalk, Used, WalkAll;
    PopQueue(s);
    var list :| MayWalk(w, p, mid.facts, list) && WalkTo(w, p, mid, list, s');
    WalkIsUsed(w, p, mid.facts, list);
    ExpandedInside(w, p, s.facts, mid.facts);
    WalkAllWalks(w, s'.seen, Work(mid.facts, mid.queue), list);
    RoundDone(w, p, s.facts, mid.facts, s'.facts, Queued(mid), Queued(s'), s.seen);
    DemandsInside(w, p, mid.facts);
  }

  lemma DemandsInside(w: World, p: PkgId, t: set<Fact>)
    requires Valid(w) && p in w.packages && t <= Universe(w)
    ensures Demands(w, t, Used(w, p, t)) <= Universe(w)
    ensures forall q {:trigger Visited(q)} :: Visited(q) !in Demands(w, t, Used(w, p, t))
  {
    hide Universe, ChildFacts, Used;
    DemandsAreActive(w, t, Used(w, p, t));
    forall x | x in Demands(w, t, Used(w, p, t)) ensures x in Universe(w) {
      var d :| d in Used(w, p, t) && d in w.deps && x in ChildFacts(w, d, AskedIn(t, d));
      AskedAreNames(w, d, t);
      ChildInside(w, d, AskedIn(t, d));
    }
  }

  lemma {:induction false} RunSound(w: World, run: seq<State>, s: State)
    requires Valid(w) && RunTo(w, run, s)
    ensures Sound(w, s)
    decreases |run|
  {
    hide Sound, Round, Initial;
    var n := |run| - 1;
    if n == 0 {
      InitialSound(w);
    } else {
      assert IsRun(w, run[..n]);
      RunSound(w, run[..n], run[n - 1]);
      assert Round(w, run[n - 1], run[n]);
      RoundSound(w, run[n - 1], run[n]);
    }
  }

  /** Every run ends in a closed set, and in the least one if no condition is ever lost. */
  lemma RunEndsClosed(w: World, run: seq<State>, s: State)
    requires Valid(w) && EndsIn(w, run, s)
    ensures Closed(w, Outcome(s)) && (Monotone(w) ==> Least(w, Outcome(s)))
  {
    hide RunTo, Progress, Needed, Closed, Least, Monotone;
    RunSound(w, run, s);
    assert Queued(s) == {};
    Finished(w, Total(s.facts, {}, s.seen), s.seen);
    assert Total(s.facts, {}, s.seen) == Outcome(s);
  }

  /** Then all runs agree. */
  lemma MonotoneRunsAgree(w: World)
    requires Valid(w) && Monotone(w)
    ensures RunsAgree(w)
  {
    hide EndsIn, Outcome, Least, Monotone, Closed;
    forall r, s, r', s' {:trigger EndsIn(w, r, s), EndsIn(w, r', s')} |
      EndsIn(w, r, s) && EndsIn(w, r', s') ensures Outcome(s) == Outcome(s') {
      RunEndsClosed(w, r, s);
      RunEndsClosed(w, r', s');
      LeastIsUnique(w, Outcome(s), Outcome(s'));
    }
  }

  // ---- Building a run ----

  lemma RunStarts(w: World)
    requires Valid(w)
    ensures RunTo(w, [Initial(w)], Initial(w))
  {
  }

  lemma RunAppend(w: World, run: seq<State>, s: State, t: set<Fact>, s': State)
    requires Valid(w) && RunTo(w, run, s) && s.queue != [] && s.queue[0] in w.packages && Expanded(w, s.queue[0], s.facts, t)
    requires RoundTo(w, s.queue[0], State(t, s.queue[1..], s.seen), s')
    ensures RunTo(w, run + [s'], s')
  {
    hide Expanded, RoundTo, Initial;
    assert Round(w, s, s');
  }

  lemma IdleRoundTo(w: World, p: PkgId, s: State)
    requires Valid(w) && p in w.packages && Idle(s, p)
    ensures RoundTo(w, p, s, s)
  {
  }

  lemma MayWalkDeps(w: World, p: PkgId, t: set<Fact>, list: seq<DepId>)
    requires p in w.packages && MayWalk(w, p, t, list)
    ensures Known(w, list)
  {
    hide MayWalk;
    WalkIsUsed(w, p, t, list);
    UsedAreDeps(w, p, t);
    forall i | 0 <= i < |list| ensures list[i] in w.deps {
      assert list[i] in Listed(list);
    }
  }

  lemma WalkRoundTo(w: World, p: PkgId, s: State, list: seq<DepId>, s': State)
    requires Valid(w) && p in w.packages && !Idle(s, p) && MayWalk(w, p, s.facts, list) && WalkTo(w, p, s, list, s')
    ensures RoundTo(w, p, s, s')
  {
    hide MayWalk, WalkTo;
  }

  lemma RunHead(w: World, run: seq<State>, s: State)
    requires Valid(w) && RunTo(w, run, s) && s.queue != []
    ensures s.queue[0] in w.packages
  {
    hide RunTo, Needed, Universe, Progress, Total;
    RunSound(w, run, s);
    QueuedArePackages(w, Total(s.facts, Queued(s), s.seen), Queued(s), s.seen);
    assert s.queue[0] in Queued(s);
  }

  lemma QueuedArePackages(w: World, t: set<Fact>, queued: set<PkgId>, seen: map<PkgId, set<string>>)
    requires Valid(w) && Progress(w, t, queued, seen)
    ensures queued <= w.packages.Keys
  {
  }

  /** A package in the queue has at least the features it was last walked with. */
  lemma RunGrows(w: World, run: seq<State>, s: State, t: set<Fact>)
    requires Valid(w) && RunTo(w, run, s) && s.queue != [] && s.queue[0] in w.packages
    requires Expanded(w, s.queue[0], s.facts, t)
    ensures s.queue[0] in s.seen ==> s.seen[s.queue[0]] <= ActiveIn(t, s.queue[0])
  {
    hide RunTo, Needed, Universe, Expanded, Progress, Total, ActiveIn;
    RunSound(w, run, s);
    ExpandedMeans(w, s.queue[0], s.facts, t);
    if s.queue[0] in s.seen {
      FeaturesGrew(w, s.queue[0], s.facts, t, Queued(s), s.seen);
    }
  }
}
