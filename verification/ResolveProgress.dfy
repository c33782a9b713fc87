/** What the worklist of `resolveGraph` (bin/cargo/resolve.go:35-68) keeps: a visited package whose features
    are those it was last walked with is closed under what they and its dependencies demand, any other one is
    queued; and nothing is recorded that a closed set could do without. The measure that makes the worklist
    end is here as well. */
module ResolveProgress {
  import opened FeatureRules
  import opened FeatureUniverse
  import opened FeatureState

  // Packages visited whose features have not moved since are closed, and nothing is recorded without need.

  ghost function Visits(ps: set<PkgId>): set<Fact> { set p | p in ps :: Visited(p) }

  /** `t` is what is recorded, `queued` the worklist, `seen` the features each visited package had when its
      dependencies were last walked. */
  ghost predicate Progress(w: World, t: set<Fact>, queued: set<PkgId>, seen: map<PkgId, set<string>>)
    requires Valid(w)
  {
    && InitialFacts(w) <= t && Proper(t)
    && (forall p {:trigger Visited(p)} :: Visited(p) in t <==> p in queued || p in seen)
    && queued <= w.packages.Keys
    && forall p {:trigger p in seen} :: p in seen ==> SeenWell(w, t, queued, p, seen[p])
  }

  ghost predicate SeenWell(w: World, t: set<Fact>, queued: set<PkgId>, p: PkgId, features: set<string>) {
    && p in w.packages && features <= ActiveIn(t, p)
    && (p !in queued ==> features == ActiveIn(t, p))
    && (features == ActiveIn(t, p) ==> PackageClosed(w, t, p))
  }

  /** Everything recorded is in every closed set, as far as conditions are monotone. */
  ghost predicate Needed(w: World, t: set<Fact>)
    requires Valid(w)
  {
    Monotone(w) ==> forall u {:trigger Closed(w, u)} :: Closed(w, u) ==> t <= u
  }

  lemma InitialProgress(w: World, t: set<Fact>)
    requires Valid(w) && t == InitialFacts(w)
    ensures Progress(w, t, {w.root}, map[]) && Needed(w, t)
  {
    hide RootFeatures, Proper;
    InitialProper(w);
  }

  /** An empty worklist leaves a closed set. */
  lemma Finished(w: World, t: set<Fact>, seen: map<PkgId, set<string>>)
    requires Valid(w) && Progress(w, t, {}, seen) && Needed(w, t)
    ensures Closed(w, t)
    ensures Monotone(w) ==> Least(w, t)
  {
    hide PackageClosed;
    forall p | p in w.packages && Visited(p) in t ensures PackageClosed(w, t, p) {
      assert p in seen;
    }
  }

  // ---- Closedness is lasting ----

  lemma ActiveInMember(t: set<Fact>, p: PkgId)
    ensures forall f {:trigger Active(p, f)} :: Active(p, f) in t <==> f in ActiveIn(t, p)
  {
  }

  lemma TablesAreOwn(w: World, p: PkgId, active: set<string>)
    requires p in w.packages
    ensures TableDeps(w, p, active) <= AllDeps(w.packages[p])
  {
    var pkg := w.packages[p];
    forall c, d | c in pkg.targetDeps && d in UsedTables(pkg.targetDeps[c], pkg.buildScript, UsesDev(w, p)) ensures d in AllDeps(pkg) {
      assert d in GroupDeps(pkg.targetDeps[c]);
    }
  }

  /** Nothing in `t'` that is not in `t` concerns package `p`. */
  ghost predicate Foreign(w: World, p: PkgId, t: set<Fact>, t': set<Fact>)
    requires p in w.packages
  {
    forall x {:trigger OwnedBy(w, p, x)} :: x in t' && OwnedBy(w, p, x) ==> x in t
  }

  lemma ForeignKeepsActive(w: World, p: PkgId, t: set<Fact>, t': set<Fact>)
    requires p in w.packages && t <= t' && Foreign(w, p, t, t')
    ensures ActiveIn(t', p) == ActiveIn(t, p)
  {
    forall f | f in ActiveIn(t', p) ensures f in ActiveIn(t, p) {
      assert OwnedBy(w, p, Active(p, f));
    }
  }

  lemma ForeignKeepsDep(w: World, p: PkgId, t: set<Fact>, t': set<Fact>, d: DepId)
    requires p in w.packages && t <= t' && Foreign(w, p, t, t') && d in AllDeps(w.packages[p])
    ensures AskedIn(t', d) == AskedIn(t, d) && (Enabled(d) in t' <==> Enabled(d) in t)
  {
    forall f | f in AskedIn(t', d) ensures f in AskedIn(t, d) {
      assert OwnedBy(w, p, Asked(d, f));
    }
    assert OwnedBy(w, p, Enabled(d));
  }

  lemma ForeignKeepsClosed(w: World, p: PkgId, t: set<Fact>, t': set<Fact>)
    requires p in w.packages && t <= t' && Foreign(w, p, t, t') && PackageClosed(w, t, p)
    ensures PackageClosed(w, t', p)
  {
    hide Effects, ChildFacts, AskedIn, ActiveIn, TableDeps, AllDeps, Foreign;
    ForeignKeepsActive(w, p, t, t');
    ActiveInMember(t, p);
    ActiveInMember(t', p);
    var a := ActiveIn(t, p);
    TablesAreOwn(w, p, a);
    forall d | InUse(w, p, a, t', d) ensures UseClosed(w, t', d) {
      ForeignKeepsDep(w, p, t, t', d);
      assert InUse(w, p, a, t, d);
    }
  }

  // ---- One round of the worklist ----

  /** The dependencies of `p` in use. */
  ghost function Used(w: World, p: PkgId, t: set<Fact>): set<DepId>
    requires p in w.packages
  {
    set d | d in w.deps && InUse(w, p, ActiveIn(t, p), t, d)
  }

  ghost function Demands(w: World, t: set<Fact>, ds: set<DepId>): set<Fact> {
    set d, x | d in ds && d in w.deps && x in ChildFacts(w, d, AskedIn(t, d)) :: x
  }

  /** Only queued packages have other features than before. */
  ghost predicate Moved(t: set<Fact>, t': set<Fact>, queued: set<PkgId>) {
    forall q {:trigger ActiveIn(t', q)} :: ActiveIn(t', q) != ActiveIn(t, q) ==> q in queued
  }

  /** After expanding `p` to `t1`, its dependencies are asked for their features and queued; `t2` and
      `queued` are the result. A package whose features moved is queued, and so is every child not seen. */
  ghost predicate Walked(w: World, p: PkgId, t1: set<Fact>, t2: set<Fact>, before: set<PkgId>, queued: set<PkgId>,
                         seen: map<PkgId, set<string>>)
    requires Valid(w) && p in w.packages
  {
    && t2 == t1 + Demands(w, t1, Used(w, p, t1)) + Visits(queued)
    && before <= queued <= before + Children(w, Used(w, p, t1))
    && Moved(t1, t2, queued)
    && Children(w, Used(w, p, t1)) <= queued + seen.Keys
  }

  lemma DemandsAreActive(w: World, t: set<Fact>, ds: set<DepId>)
    ensures forall x :: x in Demands(w, t, ds) ==> x.Active?
  {
  }

  lemma DemandsProper(w: World, t: set<Fact>, ds: set<DepId>)
    ensures Proper(Demands(w, t, ds))
  {
    hide ChildFacts, ProperFact;
    forall x | x in Demands(w, t, ds) ensures ProperFact(x) {
      var d :| d in ds && d in w.deps && x in ChildFacts(w, d, AskedIn(t, d));
      ChildProper(w, d, AskedIn(t, d));
    }
  }

  lemma RoundProper(w: World, t: set<Fact>, ds: set<DepId>, queued: set<PkgId>)
    requires Proper(t)
    ensures Proper(t + Demands(w, t, ds) + Visits(queued))
  {
    hide Demands;
    DemandsProper(w, t, ds);
  }

  lemma OneOwner(w: World, p: PkgId, q: PkgId, x: Fact)
    requires Valid(w) && p in w.packages && q in w.packages && OwnedBy(w, p, x) && OwnedBy(w, q, x)
    ensures p == q
  {
  }

  /** A package whose features did not move in a round is as closed as before. */
  lemma RoundIsForeign(w: World, p: PkgId, q: PkgId, t0: set<Fact>, t1: set<Fact>, t2: set<Fact>, queued: set<PkgId>, ds: set<DepId>)
    requires Valid(w) && p in w.packages && q in w.packages
    requires t0 <= t1 && (forall x :: x in t1 && x !in t0 ==> OwnedBy(w, p, x))
    requires q != p || t0 == t1
    requires t2 == t1 + Demands(w, t1, ds) + Visits(queued) && ActiveIn(t2, q) == ActiveIn(t1, q)
    ensures t0 <= t2 && Foreign(w, q, t0, t2)
  {
    hide Demands;
    DemandsAreActive(w, t1, ds);
    forall x | x in t2 && OwnedBy(w, q, x) ensures x in t0 {
      if x in t1 {
        if x !in t0 {
          OneOwner(w, p, q, x);
        }
      } else {
        ActiveInMember(t1, q);
        ActiveInMember(t2, q);
      }
    }
  }

  /** The package just walked is closed unless it asked something of itself. */
  lemma WalkedIsClosed(w: World, p: PkgId, t1: set<Fact>, t2: set<Fact>, before: set<PkgId>, queued: set<PkgId>, seen: map<PkgId, set<string>>)
    requires Valid(w) && p in w.packages && FeaturesClosed(w, t1, p)
    requires Walked(w, p, t1, t2, before, queued, seen)
    requires forall q {:trigger q in seen} :: q in seen ==> Visited(q) in t1
    requires ActiveIn(t2, p) == ActiveIn(t1, p)
    ensures PackageClosed(w, t2, p)
  {
    hide Effects, ChildFacts, AskedIn, ActiveIn, TableDeps, AllDeps;
    RoundIsForeign(w, p, p, t1, t1, t2, queued, Used(w, p, t1));
    ActiveInMember(t1, p);
    ActiveInMember(t2, p);
    var a := ActiveIn(t1, p);
    TablesAreOwn(w, p, a);
    forall d | InUse(w, p, a, t2, d) ensures UseClosed(w, t2, d) {
      ForeignKeepsDep(w, p, t1, t2, d);
      assert InUse(w, p, a, t1, d);
      assert d in Used(w, p, t1);
      DemandsOf(w, t1, Used(w, p, t1), d);
      assert w.deps[d].child in Children(w, Used(w, p, t1));
    }
  }

  lemma DemandsOf(w: World, t: set<Fact>, ds: set<DepId>, d: DepId)
    requires d in ds && d in w.deps
    ensures ChildFacts(w, d, AskedIn(t, d)) <= Demands(w, t, ds)
  {
    hide ChildFacts;
  }

  /** A round that walks the dependencies. */
  lemma RoundKeepsProgress(w: World, p: PkgId, t0: set<Fact>, t1: set<Fact>, t2: set<Fact>,
                           before: set<PkgId>, queued: set<PkgId>, seen: map<PkgId, set<string>>)
    requires Valid(w) && Progress(w, t0, before + {p}, seen) && p in w.packages && t0 <= t1
    requires (forall x :: x in t1 && x !in t0 ==> OwnedBy(w, p, x)) && FeaturesClosed(w, t1, p) && Proper(t1)
    requires Walked(w, p, t1, t2, before, queued, seen[p := ActiveIn(t1, p)])
    ensures Progress(w, t2, queued, seen[p := ActiveIn(t1, p)])
  {
    hide Demands, PackageClosed, FeaturesClosed, OwnedBy, ActiveIn, Used, InitialFacts, Proper;
    var seen' := seen[p := ActiveIn(t1, p)];
    var ds := Used(w, p, t1);
    DemandsAreActive(w, t1, ds);
    NotVisits(w, p, t0, t1);
    assert queued <= w.packages.Keys by { UsedAreDeps(w, p, t1); }
    assert InitialFacts(w) <= t2;
    RoundProper(w, t1, ds, queued);
    assert forall q {:trigger Visited(q)} :: Visited(q) in t2 <==> q in queued || q in seen';
    hide Walked, SeenWell, Moved;
    forall q | q in seen' ensures SeenWell(w, t2, queued, q, seen'[q]) {
      if q == p {
        WalkedSeenWell(w, p, t1, t2, before, queued, seen');
      } else {
        assert SeenWell(w, t0, before + {p}, q, seen[q]);
        OtherSeenWell(w, p, q, t0, t1, t2, before, queued, seen', seen[q]);
      }
    }
  }

  lemma WalkedSeenWell(w: World, p: PkgId, t1: set<Fact>, t2: set<Fact>, before: set<PkgId>, queued: set<PkgId>, seen: map<PkgId, set<string>>)
    requires Valid(w) && p in w.packages && FeaturesClosed(w, t1, p) && Walked(w, p, t1, t2, before, queued, seen)
    requires forall q {:trigger q in seen} :: q in seen ==> Visited(q) in t1
    ensures SeenWell(w, t2, queued, p, ActiveIn(t1, p))
  {
    hide Demands, PackageClosed, FeaturesClosed, ActiveIn, Used;
    ActiveGrows(t1, t2, p);
    if ActiveIn(t2, p) == ActiveIn(t1, p) {
      WalkedIsClosed(w, p, t1, t2, before, queued, seen);
    }
  }

  lemma OtherSeenWell(w: World, p: PkgId, q: PkgId, t0: set<Fact>, t1: set<Fact>, t2: set<Fact>, before: set<PkgId>, queued: set<PkgId>,
                      seen: map<PkgId, set<string>>, features: set<string>)
    requires Valid(w) && p in w.packages && q != p && t0 <= t1 && SeenWell(w, t0, before + {p}, q, features)
    requires (forall x :: x in t1 && x !in t0 ==> OwnedBy(w, p, x)) && Walked(w, p, t1, t2, before, queued, seen)
    ensures SeenWell(w, t2, queued, q, features)
  {
    hide Demands, PackageClosed, OwnedBy, ActiveIn, Used;
    ActiveGrows(t1, t2, q);
    OthersStay(w, p, q, t0, t1);
    if ActiveIn(t2, q) == features {
      RoundIsForeign(w, p, q, t0, t1, t2, queued, Used(w, p, t1));
      ForeignKeepsClosed(w, q, t0, t2);
    }
  }

  lemma UsedAreDeps(w: World, p: PkgId, t: set<Fact>)
    requires p in w.packages
    ensures Used(w, p, t) <= w.deps.Keys
  {
  }

  lemma NotVisits(w: World, p: PkgId, t0: set<Fact>, t1: set<Fact>)
    requires p in w.packages && t0 <= t1 && forall x :: x in t1 && x !in t0 ==> OwnedBy(w, p, x)
    ensures forall q {:trigger Visited(q)} :: Visited(q) in t1 <==> Visited(q) in t0
  {
  }

  lemma ActiveGrows(t: set<Fact>, t': set<Fact>, p: PkgId)
    requires t <= t'
    ensures ActiveIn(t, p) <= ActiveIn(t', p)
  {
  }

  lemma OthersStay(w: World, p: PkgId, q: PkgId, t0: set<Fact>, t1: set<Fact>)
    requires p in w.packages && t0 <= t1 && p != q && forall x :: x in t1 && x !in t0 ==> OwnedBy(w, p, x)
    ensures ActiveIn(t1, q) == ActiveIn(t0, q)
  {
  }

  /** A package that did not move since it was walked has nothing new to say. */
  lemma IdleRound(w: World, p: PkgId, t0: set<Fact>, t1: set<Fact>, before: set<PkgId>, seen: map<PkgId, set<string>>)
    requires Valid(w) && Progress(w, t0, before + {p}, seen) && p !in before && p in seen
    requires p in w.packages && Expanded(w, p, t0, t1) && ActiveIn(t1, p) == seen[p]
    ensures t1 == t0 && Progress(w, t0, before, seen)
  {
    hide Effects, InitialFacts, ActiveIn, ProperFact;
    assert SeenWell(w, t0, before + {p}, p, seen[p]);
    ActiveGrows(t0, t1, p);
    assert FeaturesClosed(w, t0, p);
    hide FeaturesClosed;
    forall q | q in seen ensures SeenWell(w, t0, before, q, seen[q]) {
      assert SeenWell(w, t0, before + {p}, q, seen[q]);
    }
  }

  /** Nothing is recorded in a round that some closed set could do without. */
  lemma RoundIsNeeded(w: World, p: PkgId, t0: set<Fact>, t1: set<Fact>, t2: set<Fact>,
                      before: set<PkgId>, queued: set<PkgId>, seen: map<PkgId, set<string>>)
    requires Valid(w) && Needed(w, t0) && p in w.packages && Visited(p) in t0 && Expanded(w, p, t0, t1)
    requires Walked(w, p, t1, t2, before, queued, seen) && forall q :: q in before ==> Visited(q) in t0
    ensures Needed(w, t2)
  {
    if Monotone(w) {
      forall u {:trigger Closed(w, u)} | Closed(w, u) ensures t2 <= u {
        RoundWithin(w, p, t0, t1, t2, before, queued, seen, u);
      }
    }
  }

  lemma RoundWithin(w: World, p: PkgId, t0: set<Fact>, t1: set<Fact>, t2: set<Fact>,
                    before: set<PkgId>, queued: set<PkgId>, seen: map<PkgId, set<string>>, u: set<Fact>)
    requires Valid(w) && Monotone(w) && p in w.packages && Visited(p) in t0 && Expanded(w, p, t0, t1)
    requires Walked(w, p, t1, t2, before, queued, seen) && forall q :: q in before ==> Visited(q) in t0
    requires t0 <= u && Closed(w, u)
    ensures t2 <= u
  {
    hide Effects, InitialFacts, ActiveIn, AskedIn, TableDeps, ChildFacts, FeaturesClosed, ProperFact, IsFeature;
    assert PackageClosed(w, u, p);
    assert t1 <= u;
    var ds := Used(w, p, t1);
    ActiveGrows(t1, u, p);
    ActiveAreFeatures(u, p);
    MoreTables(w, p, ActiveIn(t1, p), ActiveIn(u, p));
    forall d | d in ds ensures UseClosed(w, u, d) && ChildFacts(w, d, AskedIn(t1, d)) <= u {
      assert InUse(w, p, ActiveIn(u, p), u, d);
      AskedGrows(w, t1, u, d);
    }
  }

  lemma AskedGrows(w: World, t: set<Fact>, t': set<Fact>, d: DepId)
    requires t <= t' && d in w.deps
    ensures ChildFacts(w, d, AskedIn(t, d)) <= ChildFacts(w, d, AskedIn(t', d))
  {
  }

  lemma MoreTables(w: World, p: PkgId, a: set<string>, b: set<string>)
    requires p in w.packages && Monotone(w) && a <= b && Features(b)
    ensures TableDeps(w, p, a) <= TableDeps(w, p, b)
  {
    forall c | c in w.packages[p].targetDeps && w.holds(c, a) ensures w.holds(c, b) {
      assert !Loses(w.holds, c, a, b);
    }
  }

  lemma ActiveAreFeatures(t: set<Fact>, p: PkgId)
    requires Proper(t)
    ensures Features(ActiveIn(t, p))
  {
    hide IsFeature;
  }

  // ---- Termination ----

  ghost function Seen(seen: map<PkgId, set<string>>): set<Fact> {
    Visits(seen.Keys) + set p, f | p in seen && f in seen[p] :: Active(p, f)
  }

  /** A package walked for the first time, or with more features than before, uses up part of the universe. */
  lemma SeenGrows(w: World, seen: map<PkgId, set<string>>, p: PkgId, features: set<string>)
    requires p in w.packages && forall f :: f in features ==> Active(p, f) in Universe(w)
    requires p in seen ==> seen[p] < features
    ensures Universe(w) - Seen(seen[p := features]) < Universe(w) - Seen(seen)
  {
    var seen' := seen[p := features];
    var x := SeenMore(seen, p, features);
    assert Visited(p) in Universe(w);
    hide Universe, Seen;
    assert x in Universe(w) - Seen(seen) && x !in Universe(w) - Seen(seen');
  }

  lemma SeenMore(seen: map<PkgId, set<string>>, p: PkgId, features: set<string>) returns (x: Fact)
    requires p in seen ==> seen[p] < features
    ensures Seen(seen) <= Seen(seen[p := features]) && x in Seen(seen[p := features]) && x !in Seen(seen)
    ensures x == Visited(p) || (x.Active? && x.pkg == p && x.feature in features)
  {
    var seen' := seen[p := features];
    forall x | x in Seen(seen) ensures x in Seen(seen') {
    }
    if p in seen {
      var f :| f in features && f !in seen[p];
      x := Active(p, f);
    } else {
      x := Visited(p);
    }
  }

  // ---- Asking the dependencies one by one ----

  ghost function Children(w: World, ds: set<DepId>): set<PkgId> { set d | d in ds && d in w.deps :: w.deps[d].child }

  lemma ChildrenStep(w: World, done: set<DepId>, d: DepId)
    requires d in w.deps
    ensures Children(w, done + {d}) == Children(w, done) + {w.deps[d].child}
  {
  }

  lemma DemandsStep(w: World, t: set<Fact>, done: set<DepId>, d: DepId)
    requires d in w.deps
    ensures Demands(w, t, {}) == {}
    ensures Demands(w, t, done + {d}) == Demands(w, t, done) + ChildFacts(w, d, AskedIn(t, d))
    ensures AskedIn(t + Demands(w, t, done), d) == AskedIn(t, d)
  {
    hide ChildFacts;
    DemandsAreActive(w, t, done);
  }

  lemma OnlyTheChildMoves(w: World, t: set<Fact>, d: DepId, features: set<string>, q: PkgId)
    requires d in w.deps && q != w.deps[d].child
    ensures ActiveIn(t + ChildFacts(w, d, features), q) == ActiveIn(t, q)
  {
  }

  lemma MovedStep(w: World, t0: set<Fact>, t: set<Fact>, d: DepId, features: set<string>, queued: set<PkgId>, queued': set<PkgId>)
    requires Moved(t0, t, queued) && queued <= queued' && d in w.deps
    requires t + ChildFacts(w, d, features) != t ==> w.deps[d].child in queued'
    ensures Moved(t0, t + ChildFacts(w, d, features), queued')
  {
    hide ActiveIn, ChildFacts;
    var t' := t + ChildFacts(w, d, features);
    forall q {:trigger ActiveIn(t', q)} | ActiveIn(t', q) != ActiveIn(t0, q) ensures q in queued' {
      if q != w.deps[d].child {
        OnlyTheChildMoves(w, t, d, features, q);
      }
    }
  }

  // ---- The recorded facts and the visited packages together ----

  ghost function Total(f: set<Fact>, queued: set<PkgId>, seen: map<PkgId, set<string>>): set<Fact> {
    f + Visits(queued + seen.Keys)
  }

  lemma VisitsAside(w: World, p: PkgId, f: set<Fact>, ps: set<PkgId>)
    requires p in w.packages
    ensures Used(w, p, f + Visits(ps)) == Used(w, p, f)
    ensures forall ds :: Demands(w, f + Visits(ps), ds) == Demands(w, f, ds)
    ensures forall q {:trigger ActiveIn(f, q)} {:trigger ActiveIn(f + Visits(ps), q)} :: ActiveIn(f + Visits(ps), q) == ActiveIn(f, q)
  {
    hide ChildFacts, TableDeps;
    forall q ensures ActiveIn(f + Visits(ps), q) == ActiveIn(f, q) {
    }
    forall d ensures AskedIn(f + Visits(ps), d) == AskedIn(f, d) {
    }
  }

  lemma ExpandedTotal(w: World, p: PkgId, f: set<Fact>, f': set<Fact>, ps: set<PkgId>)
    requires p in w.packages && Expanded(w, p, f, f')
    ensures Expanded(w, p, f + Visits(ps), f' + Visits(ps))
  {
    hide Effects;
    assert FeaturesClosed(w, f' + Visits(ps), p);
  }

  /** A round over the recorded facts. */
  lemma RoundDone(w: World, p: PkgId, f0: set<Fact>, f1: set<Fact>, f2: set<Fact>,
                  before: set<PkgId>, queued: set<PkgId>, seen: map<PkgId, set<string>>)
    requires Valid(w) && p in w.packages && f0 <= Universe(w) && Expanded(w, p, f0, f1)
    requires Progress(w, Total(f0, before + {p}, seen), before + {p}, seen) && Needed(w, Total(f0, before + {p}, seen))
    requires var ds := Used(w, p, f1);
      && f2 == f1 + Demands(w, f1, ds) && Moved(f1, f2, queued)
      && before <= queued <= before + Children(w, ds) && Children(w, ds) <= queued + seen.Keys + {p}
    ensures var seen' := seen[p := ActiveIn(f1, p)];
      Progress(w, Total(f2, queued, seen'), queued, seen') && Needed(w, Total(f2, queued, seen'))
  {
    hide Effects, ChildFacts, TableDeps, Used, Demands, Children, Progress, Needed, Moved, Expanded, Universe, OwnedBy;
    var ps := before + {p} + seen.Keys;
    var seen' := seen[p := ActiveIn(f1, p)];
    var t0, t1 := f0 + Visits(ps), f1 + Visits(ps);
    var t2 := t1 + Demands(w, t1, Used(w, p, t1)) + Visits(queued);
    VisitsAside(w, p, f1, ps);
    VisitsSum(f2, ps, queued);
    assert t0 == Total(f0, before + {p}, seen);
    assert ps + queued == queued + seen'.Keys;
    assert t2 == Total(f2, queued, seen');
    ExpandedTotal(w, p, f0, f1, ps);
    ExpandedOwned(w, p, f0, f1);
    MovedTotal(f1, f2, ps, queued);
    assert Walked(w, p, t1, t2, before, queued, seen');
    ExpandedMeans(w, p, t0, t1);
    ExpandedProper(w, p, f0, f1, before + {p}, seen);
    RoundKeepsProgress(w, p, t0, t1, t2, before, queued, seen);
    RoundIsNeeded(w, p, t0, t1, t2, before, queued, seen');
  }

  lemma ExpandedProper(w: World, p: PkgId, f0: set<Fact>, f1: set<Fact>, queued: set<PkgId>, seen: map<PkgId, set<string>>)
    requires Valid(w) && p in w.packages && f0 <= Universe(w) && Expanded(w, p, f0, f1)
    requires Progress(w, Total(f0, queued, seen), queued, seen)
    ensures Proper(f1 + Visits(queued + seen.Keys))
  {
    hide Expanded, Universe, OwnedBy, InitialFacts, SeenWell;
    ExpandedOwned(w, p, f0, f1);
  }

  lemma ExpandedMeans(w: World, p: PkgId, s: set<Fact>, t: set<Fact>)
    requires p in w.packages && Expanded(w, p, s, t)
    ensures s <= t && FeaturesClosed(w, t, p)
  {
  }

  lemma VisitsSum(f: set<Fact>, ps: set<PkgId>, qs: set<PkgId>)
    ensures f + Visits(ps) + Visits(qs) == f + Visits(ps + qs)
  {
  }

  lemma MovedTotal(f: set<Fact>, f': set<Fact>, ps: set<PkgId>, queued: set<PkgId>)
    requires Moved(f, f', queued)
    ensures Moved(f + Visits(ps), f' + Visits(ps + queued), queued)
  {
    forall q {:trigger ActiveIn(f' + Visits(ps + queued), q)} | ActiveIn(f' + Visits(ps + queued), q) != ActiveIn(f + Visits(ps), q)
      ensures q in queued
    {
      assert ActiveIn(f' + Visits(ps + queued), q) == ActiveIn(f', q);
      assert ActiveIn(f + Visits(ps), q) == ActiveIn(f, q);
    }
  }

  /** A round that finds no new feature, over the recorded facts. */
  lemma IdleRoundDone(w: World, p: PkgId, f0: set<Fact>, f1: set<Fact>, before: set<PkgId>, seen: map<PkgId, set<string>>)
    requires Valid(w) && p in w.packages && Expanded(w, p, f0, f1) && p !in before && p in seen && ActiveIn(f1, p) == seen[p]
    requires forall q {:trigger Visited(q)} :: Visited(q) !in f0 && Visited(q) !in f1
    requires Progress(w, Total(f0, before + {p}, seen), before + {p}, seen) && Needed(w, Total(f0, before + {p}, seen))
    ensures f1 == f0 && Progress(w, Total(f1, before, seen), before, seen) && Needed(w, Total(f1, before, seen))
  {
    hide Progress, Needed, ActiveIn, Expanded;
    var ps := before + {p} + seen.Keys;
    assert ps == before + seen.Keys;
    ExpandedTotal(w, p, f0, f1, ps);
    VisitsAside(w, p, f1, ps);
    IdleRound(w, p, f0 + Visits(ps), f1 + Visits(ps), before, seen);
    assert forall x :: x in f1 ==> x in f0 + Visits(ps);
    assert f1 <= f0;
    assert f0 <= f1 by { ExpandedMeans(w, p, f0, f1); }
  }

  lemma InitialTotal(w: World)
    requires Valid(w)
    ensures Total(Declared(w) + Trimmed(w.root, RootFeatures(w)), {w.root}, map[]) == InitialFacts(w)
  {
  }

  lemma FeaturesGrew(w: World, p: PkgId, f0: set<Fact>, f1: set<Fact>, queued: set<PkgId>, seen: map<PkgId, set<string>>)
    requires Valid(w) && p in seen && Progress(w, Total(f0, queued, seen), queued, seen) && f0 <= f1
    ensures seen[p] <= ActiveIn(f1, p)
  {
    hide InitialFacts, PackageClosed, ActiveIn;
    var ps := queued + seen.Keys;
    assert SeenWell(w, Total(f0, queued, seen), queued, p, seen[p]);
    assert p in w.packages;
    VisitsAside(w, p, f0, ps);
    ActiveGrows(f0, f1, p);
  }
}
