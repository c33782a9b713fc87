/** `resolveGraph` (bin/cargo/resolve.go:8-79) comes to an end, whatever the order of Go maps. */
module ResolveEnds {
  import opened FeatureRules
  import opened FeatureUniverse
  import opened FeatureState
  import opened ResolveProgress
  import opened ResolveRuns

  // ---- Every round can be taken ----

  ghost function Expansion(w: World, p: PkgId, s: set<Fact>): set<Fact>
    requires p in w.packages
  {
    set x | x in Universe(w) && forall u {:trigger FeaturesClosed(w, u, p)} :: s <= u && FeaturesClosed(w, u, p) ==> x in u
  }

  lemma ExpansionExists(w: World, p: PkgId, s: set<Fact>)
    requires Valid(w) && p in w.packages && s <= Universe(w)
    ensures Expanded(w, p, s, Expansion(w, p, s))
  {
    hide Effects, Universe;
    var t := Expansion(w, p, s);
    forall f | Active(p, f) in t ensures Effects(w, p, f) <= t {
      OwnedClosed(w, p, f);
      forall x, u {:trigger x in u, FeaturesClosed(w, u, p)} | x in Effects(w, p, f) && s <= u && FeaturesClosed(w, u, p) ensures x in u {
        assert Active(p, f) in u;
      }
    }
    assert FeaturesClosed(w, t, p);
  }

  lemma OrderOf(keys: set<string>) returns (conditions: seq<string>)
    ensures IsOrder(conditions, keys)
  {
    if keys == {} {
      conditions := [];
    } else {
      var c :| c in keys;
      var more := OrderOf(keys - {c});
      conditions := more + [c];
    }
  }

  lemma WalkExists(w: World, p: PkgId, t: set<Fact>) returns (list: seq<DepId>)
    requires p in w.packages
    ensures MayWalk(w, p, t, list) && Known(w, list)
  {
    hide IsOrder, TargetList, InUseOnly;
    var pkg := w.packages[p];
    var conditions := OrderOf(pkg.targetDeps.Keys);
    list := InUseOnly(w, t, UsedTables(pkg.dependencies, pkg.buildScript, UsesDev(w, p)) + TargetList(w, p, ActiveIn(t, p), conditions));
    MayWalkDeps(w, p, t, list);
  }

  // ---- Every run can be taken to its end ----

  lemma {:induction false} RunOn(w: World, run: seq<State>, s: State) returns (run': seq<State>, s': State)
    requires Valid(w) && RunTo(w, run, s)
    ensures EndsIn(w, run', s')
    decreases Universe(w) - Seen(s.seen), |s.queue|
  {
    hide RunTo, Expanded, Universe, MayWalk, RoundTo, Idle, ActiveIn, Seen, WalkAll, Known;
    if s.queue == [] {
      run', s' := run, s;
    } else {
      var p := s.queue[0];
      RunHead(w, run, s);
      RunInside(w, run, s);
      ExpansionExists(w, p, s.facts);
      var mid := State(Expansion(w, p, s.facts), s.queue[1..], s.seen);
      RunGrows(w, run, s, mid.facts);
      var next := mid;
      if Idle(mid, p) {
        IdleRoundTo(w, p, mid);
      } else {
        var list := WalkExists(w, p, mid.facts);
        var seen := s.seen[p := ActiveIn(mid.facts, p)];
        var k := WalkAll(w, seen, Work(mid.facts, mid.queue), list);
        next := State(k.facts, k.queue, seen);
        WalkRoundTo(w, p, mid, list, next);
        NotIdleGrows(w, p, s, mid);
      }
      RunAppend(w, run, s, mid.facts, next);
      run', s' := RunOn(w, run + [next], next);
    }
  }

  lemma RunInside(w: World, run: seq<State>, s: State)
    requires Valid(w) && RunTo(w, run, s)
    ensures s.facts <= Universe(w)
  {
    hide RunTo, Universe, Progress, Needed;
    RunSound(w, run, s);
  }

  lemma NotIdleGrows(w: World, p: PkgId, s: State, mid: State)
    requires Valid(w) && p in w.packages && s.facts <= Universe(w) && Expanded(w, p, s.facts, mid.facts) && mid.seen == s.seen
    requires !Idle(mid, p) && (p in s.seen ==> s.seen[p] <= ActiveIn(mid.facts, p))
    ensures Universe(w) - Seen(s.seen[p := ActiveIn(mid.facts, p)]) < Universe(w) - Seen(s.seen)
  {
    hide Universe, Expanded, Seen, ActiveIn;
    ExpandedInside(w, p, s.facts, mid.facts);
    ActiveInMember(mid.facts, p);
    SeenGrows(w, s.seen, p, ActiveIn(mid.facts, p));
  }

  /** Every package graph has a run that ends. */
  lemma RunExists(w: World) returns (run: seq<State>, s: State)
    requires Valid(w)
    ensures EndsIn(w, run, s)
  {
    hide EndsIn, RunTo, Initial;
    RunStarts(w);
    run, s := RunOn(w, [Initial(w)], Initial(w));
  }
}
