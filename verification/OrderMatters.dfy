/** When the result of `resolveGraph` (bin/cargo/resolve.go:8-79) depends on the order of Go maps: for any
    condition that is lost as features become active, and any two others that hold together, a package graph
    and two runs on it that end differently. */
module OrderMatters {
  import opened FeatureRules
  import opened FeatureState
  import opened ResolveRuns
  import opened LeastResult

  /** Two conditions hold with the same features active: their tables may be ranged over in two orders. */
  ghost predicate HoldTogether(h: Evaluator, c: string, c': string, own: set<string>) {
    c != c' && Features(own) && h(c, own) && h(c', own)
  }

  // ---- A package graph for a condition that is lost ----
  //
  // The root needs package 1, with the features `a`, and package 2, in two target tables that both apply
  // with the features `own` of the root.
  // Package 2 needs package 1 with the features `b`, and package 1 needs package 3 under `c`. If package 1
  // is walked before package 2, it has the features `a` and needs package 3; if after, it has the features
  // `b` and does not.

  datatype Case = Case(h: Evaluator, c: string, a: set<string>, b: set<string>, yes: string, yes': string, own: set<string>, names: seq<string>)

  ghost predicate CaseOk(k: Case) {
    Loses(k.h, k.c, k.a, k.b) && HoldTogether(k.h, k.yes, k.yes', k.own) && k.own == set f | f in k.names
  }

  ghost function Deps(k: Case): map<DepId, Dep> {
    map[0 := Dep(Longer(k.own), false, false, k.a, 1), 1 := Dep(Longer(k.own), false, false, {}, 2),
        2 := Dep(Longer(k.b), false, false, {}, 3), 3 := Dep("", false, false, k.b, 1)]
  }

  ghost function Graph(k: Case): World {
    World(map[0 := Bare(NOTHING, map[k.yes := Group([0], [], []), k.yes' := Group([1], [], [])]),
              1 := Bare(NOTHING, map[k.c := Group([2], [], [])]),
              2 := Bare(Group([3], [], []), map[]),
              3 := Bare(NOTHING, map[])],
          Deps(k), 0, false, false, k.names, false, k.h)
  }

  lemma GraphValid(k: Case)
    requires CaseOk(k)
    ensures Valid(Graph(k)) && JudgedBy(Graph(k), k.h)
  {
    hide AllDeps, Longer, Loses;
    GraphDeps(k);
  }

  lemma GraphDeps(k: Case)
    ensures AllDeps(Graph(k).packages[0]) <= {0, 1} && AllDeps(Graph(k).packages[1]) <= {2}
    ensures AllDeps(Graph(k).packages[2]) <= {3} && AllDeps(Graph(k).packages[3]) <= {}
  {
    hide Longer;
  }

  /** What is recorded while the features of package 1 are `x`. */
  ghost function Facts(k: Case, x: set<string>): set<Fact> { Declared(Graph(k)) + Actives(0, k.own) + Actives(1, x) }

  /** The features of package `p` while those of package 1 are `x`. */
  ghost function Own(k: Case, p: PkgId, x: set<string>): set<string> { if p == 0 then k.own else if p == 1 then x else {} }

  lemma FactsRead(k: Case, x: set<string>)
    ensures forall p {:trigger ActiveIn(Facts(k, x), p)} :: ActiveIn(Facts(k, x), p) == Own(k, p, x)
    ensures AskedIn(Facts(k, x), 0) == k.a && AskedIn(Facts(k, x), 3) == k.b
    ensures AskedIn(Facts(k, x), 1) == {} && AskedIn(Facts(k, x), 2) == {}
    ensures forall d {:trigger Enabled(d)} :: Enabled(d) !in Facts(k, x)
  {
    hide Longer;
    var t := Facts(k, x);
    forall p, f | f in Own(k, p, x) ensures f in ActiveIn(t, p) {
      assert Active(p, f) in t;
    }
    forall f | f in k.a ensures f in AskedIn(t, 0) {
      assert Asked(0, f) in t;
    }
    forall f | f in k.b ensures f in AskedIn(t, 3) {
      assert Asked(3, f) in t;
    }
  }

  lemma MoreFacts(k: Case, x: set<string>, y: set<string>)
    ensures Facts(k, x) + Actives(1, y) == Facts(k, x + y) && (Facts(k, x + y) == Facts(k, x) <==> y <= x)
  {
    FactsRead(k, x);
    FactsRead(k, x + y);
    assert ActiveIn(Facts(k, x), 1) == x && ActiveIn(Facts(k, x + y), 1) == x + y;
    assert Actives(1, x) + Actives(1, y) == Actives(1, x + y);
    if y <= x {
      assert x + y == x;
    }
  }

  /** No feature demands anything. */
  lemma Quiet(k: Case, x: set<string>, p: PkgId)
    requires CaseOk(k) && x <= k.b && p < 4
    ensures Expanded(Graph(k), p, Facts(k, x), Facts(k, x))
  {
    hide Effects, Longer, Loses, HoldTogether;
    var w, t := Graph(k), Facts(k, x);
    FactsRead(k, x);
    forall f | Active(p, f) in t ensures Effects(w, p, f) <= t {
      assert f in ActiveIn(t, p) && ActiveIn(t, p) == Own(k, p, x);
      GraphDeps(k);
      LongerIsLonger(if p == 0 then k.own else k.b, f);
      Inert(w, p, f);
    }
  }

  // ---- Walking its dependencies ----

  ghost function Gain(k: Case, d: DepId): set<string> { if d == 0 then k.a else if d == 3 then k.b else {} }

  ghost function Child(d: DepId): PkgId { if d == 1 then 2 else if d == 2 then 3 else 1 }

  lemma WalkDep(k: Case, x: set<string>, d: DepId, seen: map<PkgId, set<string>>, queue: seq<PkgId>)
    requires CaseOk(k) && d < 4
    ensures d in Graph(k).deps
    ensures var child := Child(d);
      WalkOne(Graph(k), seen, Work(Facts(k, x), queue), d)
      == Work(Facts(k, x + Gain(k, d)),
              if (!(Gain(k, d) <= x) || child !in seen || seen[child] == {}) && child !in queue then queue + [child] else queue)
  {
    hide Facts, Longer, CaseOk, AskedIn, Graph, Deps, Gain, Child, ChildFacts;
    GraphDepsAre(k, d);
    AsksGain(k, x, d);
    MoreFacts(k, x, Gain(k, d));
    GainTrimmed(k, d);
  }

  lemma GraphDepsAre(k: Case, d: DepId)
    requires d < 4
    ensures d in Deps(k) && d in Graph(k).deps && Graph(k).deps[d] == Deps(k)[d] && Deps(k)[d].child == Child(d)
  {
    hide Longer;
  }

  lemma AsksGain(k: Case, x: set<string>, d: DepId)
    requires d < 4
    ensures AskedIn(Facts(k, x), d) == Gain(k, d)
  {
    hide Facts, AskedIn;
    FactsRead(k, x);
  }

  lemma GainTrimmed(k: Case, d: DepId)
    requires CaseOk(k) && d < 4
    ensures d in Graph(k).deps && ChildFacts(Graph(k), d, Gain(k, d)) == Actives(1, Gain(k, d))
  {
    hide Longer, HoldTogether;
    ActivesTrimmed(1, k.a);
    ActivesTrimmed(1, k.b);
  }

  lemma WalkTwo(w: World, seen: map<PkgId, set<string>>, k: Work, d: DepId, e: DepId)
    requires d in w.deps && e in w.deps
    ensures Known(w, [d, e]) && WalkAll(w, seen, k, [d, e]) == WalkOne(w, seen, WalkOne(w, seen, k, d), e)
  {
    hide WalkOne;
    WalkJust(w, seen, k, d);
    assert [d, e][..1] == [d];
  }

  lemma WalkJust(w: World, seen: map<PkgId, set<string>>, k: Work, d: DepId)
    requires d in w.deps
    ensures Known(w, [d]) && WalkAll(w, seen, k, [d]) == WalkOne(w, seen, k, d)
    ensures Known(w, []) && WalkAll(w, seen, k, []) == k
  {
    hide WalkOne;
    assert [d][..0] == [];
  }

  lemma KeepUnconditional(w: World, t: set<Fact>, list: seq<DepId>)
    requires forall d :: d in list ==> d in w.deps && !w.deps[d].optional
    ensures InUseOnly(w, t, list) == list
  {
    if list != [] {
      var n := |list| - 1;
      assert list == list[..n] + [list[n]];
      KeepUnconditional(w, t, list[..n]);
    }
  }

  lemma RootOrders(k: Case, x: set<string>)
    requires CaseOk(k)
    ensures MayWalk(Graph(k), 0, Facts(k, x), [0, 1]) && MayWalk(Graph(k), 0, Facts(k, x), [1, 0])
  {
    RootOrder(k, x, k.yes, k.yes', 0, 1);
    RootOrder(k, x, k.yes', k.yes, 1, 0);
  }

  lemma RootOrder(k: Case, x: set<string>, first: string, second: string, d: DepId, e: DepId)
    requires CaseOk(k)
    requires (first == k.yes && second == k.yes' && d == 0 && e == 1) || (first == k.yes' && second == k.yes && d == 1 && e == 0)
    ensures MayWalk(Graph(k), 0, Facts(k, x), [d, e])
  {
    var w, t := Graph(k), Facts(k, x);
    assert first != second && k.h(first, k.own) && k.h(second, k.own);
    RootTables(k, first, second, d, e);
    hide Facts, CaseOk, Graph;
    FactsRead(k, x);
    assert ActiveIn(t, 0) == k.own;
    TwoTables(w, 0, t, first, second, d, e);
  }

  lemma RootTables(k: Case, first: string, second: string, d: DepId, e: DepId)
    requires k.yes != k.yes'
    requires (first == k.yes && second == k.yes' && d == 0 && e == 1) || (first == k.yes' && second == k.yes && d == 1 && e == 0)
    ensures var w := Graph(k); var pkg := w.packages[0];
      && 0 in w.packages && pkg.dependencies == NOTHING && !pkg.buildScript && pkg.targetDeps.Keys == {first, second}
      && pkg.targetDeps[first] == Group([d], [], []) && pkg.targetDeps[second] == Group([e], [], [])
      && d in w.deps && !w.deps[d].optional && e in w.deps && !w.deps[e].optional && w.holds == k.h
  {
    hide Longer;
  }

  lemma TwoTables(w: World, p: PkgId, t: set<Fact>, first: string, second: string, d: DepId, e: DepId)
    requires p in w.packages && first != second && d in w.deps && !w.deps[d].optional && e in w.deps && !w.deps[e].optional
    requires var pkg := w.packages[p];
      && pkg.dependencies == NOTHING && pkg.targetDeps.Keys == {first, second}
      && pkg.targetDeps[first] == Group([d], [], []) && pkg.targetDeps[second] == Group([e], [], [])
    requires w.holds(first, ActiveIn(t, p)) && w.holds(second, ActiveIn(t, p))
    ensures MayWalk(w, p, t, [d, e])
  {
    hide TargetList, ActiveIn, InUseOnly;
    var active := ActiveIn(t, p);
    OneMoreTable(w, p, active, [], first);
    OneMoreTable(w, p, active, [first], second);
    assert [] + [first] == [first] && [first] + [second] == [first, second] && [d] + [e] == [d, e] && [] + [d] == [d];
    KeepUnconditional(w, t, [d, e]);
    assert UsedTables(NOTHING, w.packages[p].buildScript, UsesDev(w, p)) + [d, e] == [d, e];
    assert IsOrder([first, second], w.packages[p].targetDeps.Keys);
  }

  lemma OneMoreTable(w: World, p: PkgId, active: set<string>, conditions: seq<string>, c: string)
    requires p in w.packages && c in w.packages[p].targetDeps && w.packages[p].targetDeps[c].build == [] == w.packages[p].targetDeps[c].dev
    ensures TargetList(w, p, active, conditions + [c])
      == TargetList(w, p, active, conditions) + if w.holds(c, active) then w.packages[p].targetDeps[c].main else []
    ensures TargetList(w, p, active, []) == []
  {
    assert (conditions + [c])[..|conditions|] == conditions;
    var g := w.packages[p].targetDeps[c];
    assert g.main + [] + [] == g.main;
  }

  lemma JustItsOwn(w: World, p: PkgId, t: set<Fact>, own: seq<DepId>)
    requires p in w.packages && w.packages[p].dependencies == Group(own, [], []) && w.packages[p].targetDeps == map[]
    requires forall d :: d in own ==> d in w.deps && !w.deps[d].optional
    ensures MayWalk(w, p, t, own)
  {
    hide ActiveIn, InUseOnly;
    assert own + [] + [] == own && own + [] == own;
    assert IsOrder([], w.packages[p].targetDeps.Keys);
    KeepUnconditional(w, t, own);
  }

  lemma JustOneTable(w: World, p: PkgId, t: set<Fact>, c: string, table: seq<DepId>, own: seq<DepId>)
    requires p in w.packages && w.packages[p].dependencies == NOTHING && w.packages[p].targetDeps == map[c := Group(table, [], [])]
    requires forall d :: d in table ==> d in w.deps && !w.deps[d].optional
    requires own == if w.holds(c, ActiveIn(t, p)) then table else []
    ensures MayWalk(w, p, t, own)
  {
    hide TargetList, ActiveIn, InUseOnly;
    OneMoreTable(w, p, ActiveIn(t, p), [], c);
    assert [] + [c] == [c] && [] + own == own;
    assert UsedTables(NOTHING, w.packages[p].buildScript, UsesDev(w, p)) + own == own;
    assert IsOrder([c], w.packages[p].targetDeps.Keys);
    KeepUnconditional(w, t, own);
  }

  lemma OtherTables(k: Case)
    ensures var w := Graph(k);
      && 1 in w.packages && w.packages[1].dependencies == NOTHING && w.packages[1].targetDeps == map[k.c := Group([2], [], [])]
      && 2 in w.packages && w.packages[2].dependencies == Group([3], [], []) && w.packages[2].targetDeps == map[]
      && 3 in w.packages && w.packages[3].dependencies == NOTHING && w.packages[3].targetDeps == map[]
      && w.holds == k.h && 2 in w.deps && !w.deps[2].optional && 3 in w.deps && !w.deps[3].optional
  {
    hide Longer;
  }

  lemma OtherOrders(k: Case, x: set<string>)
    requires CaseOk(k)
    ensures 1 in Graph(k).packages && 2 in Graph(k).packages && 3 in Graph(k).packages
    ensures MayWalk(Graph(k), 1, Facts(k, x), if k.h(k.c, x) then [2] else [])
    ensures MayWalk(Graph(k), 2, Facts(k, x), [3]) && MayWalk(Graph(k), 3, Facts(k, x), [])
  {
    hide Graph, Facts, CaseOk, MayWalk, ActiveIn;
    var w, t := Graph(k), Facts(k, x);
    FactsRead(k, x);
    OtherTables(k);
    assert ActiveIn(t, 1) == x;
    JustOneTable(w, 1, t, k.c, [2], if k.h(k.c, x) then [2] else []);
    JustItsOwn(w, 2, t, [3]);
    JustItsOwn(w, 3, t, []);
  }

  // ---- Two runs ----

  /** The case, its graph and what is needed of it. */
  ghost predicate Given(k: Case, w: World) {
    && CaseOk(k) && w == Graph(k) && Valid(w) && JudgedBy(w, k.h)
    && (forall p: PkgId {:trigger p in w.packages} :: p in w.packages <==> p < 4)
    && (forall d: DepId {:trigger d in w.deps} :: d in w.deps <==> d < 4)
    && k.a <= k.b && !(k.b <= k.a)
  }

  lemma GivenGraph(k: Case)
    requires CaseOk(k)
    ensures Given(k, Graph(k))
  {
    GraphValid(k);
    GraphPackages(k);
    CaseMoves(k);
    hide Graph, Valid, JudgedBy, CaseOk;
  }

  lemma CaseMoves(k: Case)
    requires CaseOk(k)
    ensures k.a <= k.b && !(k.b <= k.a)
  {
    hide Features;
    assert k.h(k.c, k.a) != k.h(k.c, k.b);
    assert k.b <= k.a ==> k.b == k.a;
  }

  lemma GraphPackages(k: Case)
    ensures forall p: PkgId {:trigger p in Graph(k).packages} :: p in Graph(k).packages <==> p < 4
    ensures forall d: DepId {:trigger d in Graph(k).deps} :: d in Graph(k).deps <==> d < 4
  {
    hide Longer;
    forall p: PkgId ensures (p in Graph(k).packages <==> p < 4) && (p in Graph(k).deps <==> p < 4) {
      assert p < 4 ==> p == 0 || p == 1 || p == 2 || p == 3;
    }
  }

  ghost function At(k: Case, x: set<string>, queue: seq<PkgId>, seen: map<PkgId, set<string>>): State {
    State(Facts(k, x), queue, seen)
  }

  /** A round of a package that is walked for the first time or with new features. */
  lemma Extend(k: Case, w: World, run: seq<State>, p: PkgId, x: set<string>, rest: seq<PkgId>, seen: map<PkgId, set<string>>,
               list: seq<DepId>, y: set<string>, queue: seq<PkgId>)
    requires Given(k, w) && p < 4 && x <= k.b && RunTo(w, run, At(k, x, [p] + rest, seen)) && (p in seen ==> seen[p] != Own(k, p, x))
    requires MayWalk(w, p, Facts(k, x), list) && Known(w, list)
    requires WalkAll(w, seen[p := Own(k, p, x)], Work(Facts(k, x), rest), list) == Work(Facts(k, y), queue)
    ensures RunTo(w, run + [At(k, y, queue, seen[p := Own(k, p, x)])], At(k, y, queue, seen[p := Own(k, p, x)]))
  {
    var s, s' := At(k, x, [p] + rest, seen), At(k, y, queue, seen[p := Own(k, p, x)]);
    assert CaseOk(k) && w == Graph(k) && p in w.packages;
    hide RunTo, Expanded, MayWalk, Facts, WalkAll, Known, Graph, CaseOk, Valid, JudgedBy, Given;
    FactsRead(k, x);
    Quiet(k, x, p);
    assert s.queue[0] == p && s.queue[1..] == rest;
    var mid := At(k, x, rest, seen);
    assert WalkTo(w, p, mid, list, s');
    WalkRoundTo(w, p, mid, list, s');
    RunAppend(w, run, s, Facts(k, x), s');
  }

  lemma Begin(k: Case, w: World)
    requires Given(k, w)
    ensures RunTo(w, [At(k, {}, [0], map[])], At(k, {}, [0], map[]))
  {
    hide Longer, RunTo, Loses, Valid, IsFeature;
    assert RootFeatures(w) == k.own;
    ActivesTrimmed(0, k.own);
    assert Actives(1, {}) == {};
    assert Facts(k, {}) == Declared(w) + Trimmed(0, RootFeatures(w));
    RunStarts(w);
  }

  lemma WalkParts(k: Case, w: World)
    requires Given(k, w)
    ensures CaseOk(k) && w == Graph(k) && 0 in w.deps && 1 in w.deps && 2 in w.deps && 3 in w.deps && k.a <= k.b && !(k.b <= k.a)
    ensures 0 in w.packages && 1 in w.packages && 2 in w.packages && k.h(k.c, k.a)
  {
    hide Graph, Valid, JudgedBy, HoldTogether;
  }

  /** The root, in either order of its tables. */
  lemma RootWalk(k: Case, w: World, d: DepId, e: DepId)
    requires Given(k, w) && ((d == 0 && e == 1) || (d == 1 && e == 0))
    ensures Known(w, [d, e])
    ensures WalkAll(w, map[0 := k.own], Work(Facts(k, {}), []), [d, e]) == Work(Facts(k, k.a), [Child(d), Child(e)])
  {
    RootWalkParts(k, d, e);
    WalkParts(k, w);
    hide Facts, WalkAll, WalkOne, Known, Given, Graph, Gain, Child, CaseOk;
    RootWalkOne(k, w, d, {}, [], Gain(k, d), [Child(d)]);
    RootWalkOne(k, w, e, Gain(k, d), [Child(d)], k.a, [Child(d), Child(e)]);
    WalkTwo(w, map[0 := k.own], Work(Facts(k, {}), []), d, e);
  }

  lemma RootWalkParts(k: Case, d: DepId, e: DepId)
    requires (d == 0 && e == 1) || (d == 1 && e == 0)
    ensures {} + Gain(k, d) == Gain(k, d) && Gain(k, d) + Gain(k, e) == k.a && Child(d) != Child(e)
    ensures [] + [Child(d)] == [Child(d)] && [Child(d)] + [Child(e)] == [Child(d), Child(e)]
  {
  }

  lemma RootWalkOne(k: Case, w: World, d: DepId, x: set<string>, queue: seq<PkgId>, y: set<string>, queue': seq<PkgId>)
    requires Given(k, w) && d < 2 && Child(d) !in queue && y == x + Gain(k, d) && queue' == queue + [Child(d)]
    ensures d in w.deps
    ensures WalkOne(w, map[0 := k.own], Work(Facts(k, x), queue), d) == Work(Facts(k, y), queue')
  {
    WalkParts(k, w);
    hide Facts, WalkOne, Gain, Given, Graph, Deps, CaseOk;
    WalkDep(k, x, d, map[0 := k.own], queue);
  }

  lemma RootRound(k: Case, w: World, run: seq<State>, firstOne: bool)
    requires Given(k, w) && RunTo(w, run, At(k, {}, [0], map[]))
    ensures var s' := At(k, k.a, if firstOne then [1, 2] else [2, 1], map[0 := k.own]); RunTo(w, run + [s'], s')
  {
    hide RunTo, MayWalk, Facts, WalkAll, Known, Graph, CaseOk, Valid, JudgedBy;
    var list := if firstOne then [0, 1] else [1, 0];
    RootOrders(k, {});
    RootWalk(k, w, list[0], list[1]);
    assert list == [list[0], list[1]];
    var none: map<PkgId, set<string>> := map[];
    assert [0] + [] == [0] && none[0 := k.own] == map[0 := k.own];
    Extend(k, w, run, 0, {}, [], none, list, k.a, if firstOne then [1, 2] else [2, 1]);
  }

  /** Package 1, with features under which its table applies, while package 3 is not seen. */
  lemma TakingWalk(k: Case, w: World, rest: seq<PkgId>, seen: map<PkgId, set<string>>)
    requires Given(k, w) && 3 !in seen && 3 !in rest
    ensures Known(w, [2])
    ensures WalkAll(w, seen[1 := k.a], Work(Facts(k, k.a), rest), [2]) == Work(Facts(k, k.a), rest + [3])
  {
    WalkParts(k, w);
    hide MayWalk, Facts, WalkAll, WalkOne, Known, Longer, Given, Graph, Deps, CaseOk;
    WalkJust(w, seen[1 := k.a], Work(Facts(k, k.a), rest), 2);
    WalkDep(k, k.a, 2, seen[1 := k.a], rest);
    assert k.a + {} == k.a;
  }

  lemma TakingRound(k: Case, w: World, run: seq<State>, rest: seq<PkgId>, seen: map<PkgId, set<string>>)
    requires Given(k, w) && RunTo(w, run, At(k, k.a, [1] + rest, seen)) && 1 !in seen && 3 !in seen && 3 !in rest
    ensures var s' := At(k, k.a, rest + [3], seen[1 := k.a]); RunTo(w, run + [s'], s')
  {
    hide RunTo, MayWalk, Facts, WalkAll, Known, Graph, CaseOk, Valid, JudgedBy;
    WalkParts(k, w);
    OtherOrders(k, k.a);
    TakingWalk(k, w, rest, seen);
    Extend(k, w, run, 1, k.a, rest, seen, [2], k.a, rest + [3]);
  }

  /** Package 2: package 1 gets the features `b`, and is queued unless it is waiting. */
  lemma AskingWalk(k: Case, w: World, rest: seq<PkgId>, seen: map<PkgId, set<string>>)
    requires Given(k, w)
    ensures Known(w, [3])
    ensures WalkAll(w, seen, Work(Facts(k, k.a), rest), [3]) == Work(Facts(k, k.b), if 1 in rest then rest else rest + [1])
  {
    WalkParts(k, w);
    hide MayWalk, Facts, WalkAll, WalkOne, Known, Longer, Given, Graph, Deps, CaseOk;
    WalkJust(w, seen, Work(Facts(k, k.a), rest), 3);
    WalkDep(k, k.a, 3, seen, rest);
    assert Gain(k, 3) == k.b && Child(3) == 1;
    assert k.a + k.b == k.b;
  }

  lemma AskingRound(k: Case, w: World, run: seq<State>, rest: seq<PkgId>, seen: map<PkgId, set<string>>)
    requires Given(k, w) && RunTo(w, run, At(k, k.a, [2] + rest, seen)) && 2 !in seen
    ensures var s' := At(k, k.b, if 1 in rest then rest else rest + [1], seen[2 := {}]); RunTo(w, run + [s'], s')
  {
    hide RunTo, MayWalk, Facts, WalkAll, Known, Graph, CaseOk, Valid, JudgedBy;
    WalkParts(k, w);
    OtherOrders(k, k.a);
    AskingWalk(k, w, rest, seen[2 := {}]);
    Extend(k, w, run, 2, k.a, rest, seen, [3], k.b, if 1 in rest then rest else rest + [1]);
  }

  /** Package 3, or package 1 with the features `b`, asks nothing of anybody. */
  lemma IdleWalk(k: Case, w: World, run: seq<State>, p: PkgId, rest: seq<PkgId>, seen: map<PkgId, set<string>>)
    requires Given(k, w) && (p == 1 || p == 3) && RunTo(w, run, At(k, k.b, [p] + rest, seen))
    requires p in seen ==> seen[p] != Own(k, p, k.b)
    ensures var s' := At(k, k.b, rest, seen[p := Own(k, p, k.b)]); RunTo(w, run + [s'], s')
  {
    OtherOrders(k, k.b);
    WalkJust(w, seen[p := Own(k, p, k.b)], Work(Facts(k, k.b), rest), 0);
    hide RunTo, MayWalk, Facts, WalkAll, Known, Graph, HoldTogether, Features;
    Extend(k, w, run, p, k.b, rest, seen, [], k.b, rest);
  }

  /** Package 1 first: package 3 is visited. */
  lemma FirstRun(k: Case, w: World) returns (run: seq<State>)
    requires Given(k, w)
    ensures EndsIn(w, run, At(k, k.b, [], map[0 := k.own, 1 := k.b, 2 := {}, 3 := {}]))
  {
    hide RunTo, At, Given;
    AtState(k);
    run := FirstHalf(k, w);
    assert [2] + [3] == [2, 3] && [3] + [1] == [3, 1] && [1] + [] == [1];
    AskingRound(k, w, run, [3], map[0 := k.own, 1 := k.a]);
    run := run + [At(k, k.b, [3, 1], map[0 := k.own, 1 := k.a, 2 := {}])];
    IdleWalk(k, w, run, 3, [1], map[0 := k.own, 1 := k.a, 2 := {}]);
    run := run + [At(k, k.b, [1], map[0 := k.own, 1 := k.a, 2 := {}, 3 := {}])];
    GivenDiffer(k, w);
    IdleWalk(k, w, run, 1, [], map[0 := k.own, 1 := k.a, 2 := {}, 3 := {}]);
    assert map[0 := k.own, 1 := k.a, 2 := {}, 3 := {}][1 := k.b] == map[0 := k.own, 1 := k.b, 2 := {}, 3 := {}];
    run := run + [At(k, k.b, [], map[0 := k.own, 1 := k.b, 2 := {}, 3 := {}])];
  }

  lemma GivenDiffer(k: Case, w: World)
    requires Given(k, w)
    ensures k.a != k.b
  {
  }

  lemma FirstHalf(k: Case, w: World) returns (run: seq<State>)
    requires Given(k, w)
    ensures RunTo(w, run, At(k, k.a, [2, 3], map[0 := k.own, 1 := k.a]))
  {
    hide RunTo, At, Given;
    var s := At(k, {}, [0], map[]);
    Begin(k, w);
    RootRound(k, w, [s], true);
    run := [s] + [At(k, k.a, [1, 2], map[0 := k.own])];
    assert [1] + [2] == [1, 2] && [2] + [3] == [2, 3];
    TakingRound(k, w, run, [2], map[0 := k.own]);
    run := run + [At(k, k.a, [2, 3], map[0 := k.own, 1 := k.a])];
  }

  lemma AtState(k: Case)
    ensures forall x, queue, seen {:trigger At(k, x, queue, seen)} :: At(k, x, queue, seen).queue == queue
  {
  }

  /** Package 2 first: it is not. */
  lemma SecondRun(k: Case, w: World) returns (run: seq<State>)
    requires Given(k, w)
    ensures EndsIn(w, run, At(k, k.b, [], map[0 := k.own, 2 := {}, 1 := k.b]))
  {
    hide RunTo, At, Given;
    AtState(k);
    var s := At(k, {}, [0], map[]);
    Begin(k, w);
    RootRound(k, w, [s], false);
    run := [s] + [At(k, k.a, [2, 1], map[0 := k.own])];
    assert [2] + [1] == [2, 1] && [1] + [] == [1];
    AskingRound(k, w, run, [1], map[0 := k.own]);
    run := run + [At(k, k.b, [1], map[0 := k.own, 2 := {}])];
    IdleWalk(k, w, run, 1, [], map[0 := k.own, 2 := {}]);
    run := run + [At(k, k.b, [], map[0 := k.own, 2 := {}, 1 := k.b])];
  }

  lemma OutcomesDiffer(k: Case, s: State, s': State)
    requires s == At(k, k.b, [], map[0 := k.own, 1 := k.b, 2 := {}, 3 := {}])
    requires s' == At(k, k.b, [], map[0 := k.own, 2 := {}, 1 := k.b])
    ensures Outcome(s) != Outcome(s')
  {
    hide Facts;
    NotRecorded(k, k.b);
    assert Visited(3) in Outcome(s) && Visited(3) !in Outcome(s');
  }

  lemma NotRecorded(k: Case, x: set<string>)
    ensures Visited(3) !in Facts(k, x)
  {
  }

  /** The two runs visit different packages. */
  lemma LosingRunsDiffer(k: Case)
    requires CaseOk(k)
    ensures Valid(Graph(k)) && JudgedBy(Graph(k), k.h) && !RunsAgree(Graph(k))
  {
    hide Graph, EndsIn, Outcome, CaseOk, JudgedBy, Valid, At;
    GivenGraph(k);
    var w := Graph(k);
    var first := FirstRun(k, w);
    var second := SecondRun(k, w);
    var s := At(k, k.b, [], map[0 := k.own, 1 := k.b, 2 := {}, 3 := {}]);
    var s' := At(k, k.b, [], map[0 := k.own, 2 := {}, 1 := k.b]);
    OutcomesDiffer(k, s, s');
    assert EndsIn(w, first, s) && EndsIn(w, second, s');
  }
}
