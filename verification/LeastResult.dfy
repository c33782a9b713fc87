/** Which evaluators of conditions give every package graph a least closed set (bin/cargo/resolve.go:292-298). */
module LeastResult {
  import opened Text
  import opened FeatureRules
  import opened FeatureUniverse
  import opened FeatureState
  import opened ResolveProgress

  type Evaluator = (string, set<string>) -> bool

  ghost predicate JudgedBy(w: World, h: Evaluator) { forall c, a {:trigger w.holds(c, a)} :: w.holds(c, a) == h(c, a) }

  /** No condition is lost as features become active. */
  ghost predicate NeverLoses(h: Evaluator) { forall c, a, b {:trigger Loses(h, c, a, b)} :: !Loses(h, c, a, b) }

  lemma NeverLosesIsMonotone(w: World, h: Evaluator)
    requires JudgedBy(w, h) && NeverLoses(h)
    ensures Monotone(w)
  {
    hide Features;
    forall p, c, a, b | p in w.packages && c in w.packages[p].targetDeps ensures !Loses(w.holds, c, a, b) {
      assert !Loses(h, c, a, b);
      assert w.holds(c, a) == h(c, a) && w.holds(c, b) == h(c, b);
    }
  }

  // ---- Monotone conditions: what all closed sets share is closed ----

  ghost function Shared(w: World): set<Fact>
    requires Valid(w)
  {
    set x | x in Universe(w) && ProperFact(x) && forall u {:trigger Closed(w, u)} :: Closed(w, u) ==> x in u
  }

  lemma SharedMember(w: World, x: Fact)
    requires Valid(w) && x in Universe(w) && ProperFact(x) && forall u {:trigger Closed(w, u)} :: Closed(w, u) ==> x in u
    ensures x in Shared(w)
  {
  }

  lemma SharedWithin(w: World, u: set<Fact>)
    requires Valid(w) && Closed(w, u)
    ensures Shared(w) <= u
  {
  }

  lemma SharedFeatures(w: World, p: PkgId, f: string)
    requires Valid(w) && p in w.packages && Visited(p) in Shared(w) && Active(p, f) in Shared(w)
    ensures Effects(w, p, f) <= Shared(w)
  {
    hide Effects, Universe, Closed, ProperFact, Names;
    assert f in Names(w) by { ActiveIsName(w, p, f); }
    EffectsInside(w, p, f);
    EffectsProper(w, p, f);
    forall x | x in Effects(w, p, f) ensures x in Shared(w) {
      forall u {:trigger Closed(w, u)} | Closed(w, u) ensures x in u {
        SharedWithin(w, u);
        ClosedFeatures(w, u, p, f);
      }
      SharedMember(w, x);
    }
  }

  lemma ClosedFeatures(w: World, u: set<Fact>, p: PkgId, f: string)
    requires Valid(w) && Closed(w, u) && p in w.packages && Visited(p) in u && Active(p, f) in u
    ensures Effects(w, p, f) <= u
  {
    hide Effects, InitialFacts, Proper;
    assert PackageClosed(w, u, p);
  }

  /** A dependency in use among the shared facts is in use among the facts of every closed set. */
  lemma SharedUse(w: World, u: set<Fact>, p: PkgId, d: DepId)
    requires Valid(w) && Monotone(w) && p in w.packages && Visited(p) in Shared(w) && Closed(w, u)
    requires InUse(w, p, ActiveIn(Shared(w), p), Shared(w), d)
    ensures Visited(w.deps[d].child) in u && ChildFacts(w, d, AskedIn(Shared(w), d)) <= u
  {
    hide Effects, InitialFacts, ProperFact, Shared, ActiveIn, AskedIn, ChildFacts, TableDeps, FeaturesClosed;
    SharedWithin(w, u);
    var s := Shared(w);
    assert PackageClosed(w, u, p);
    ActiveGrows(s, u, p);
    ActiveAreFeatures(u, p);
    MoreTables(w, p, ActiveIn(s, p), ActiveIn(u, p));
    assert InUse(w, p, ActiveIn(u, p), u, d);
    AskedGrows(w, s, u, d);
  }

  lemma SharedUseClosed(w: World, p: PkgId, d: DepId)
    requires Valid(w) && Monotone(w) && p in w.packages && Visited(p) in Shared(w)
    requires InUse(w, p, ActiveIn(Shared(w), p), Shared(w), d)
    ensures UseClosed(w, Shared(w), d)
  {
    hide Closed, ProperFact, Shared, ActiveIn, AskedIn, ChildFacts, Universe, Monotone;
    var asked := AskedIn(Shared(w), d);
    UseInUniverse(w, d);
    ChildProper(w, d, asked);
    forall x | x == Visited(w.deps[d].child) || x in ChildFacts(w, d, asked) ensures x in Shared(w) {
      forall u {:trigger Closed(w, u)} | Closed(w, u) ensures x in u {
        SharedUse(w, u, p, d);
      }
      VisitedProper();
      SharedMember(w, x);
    }
  }

  lemma VisitedProper()
    ensures forall p {:trigger Visited(p)} :: ProperFact(Visited(p))
  {
  }

  lemma UseInUniverse(w: World, d: DepId)
    requires Valid(w) && d in w.deps
    ensures Visited(w.deps[d].child) in Universe(w) && ChildFacts(w, d, AskedIn(Shared(w), d)) <= Universe(w)
  {
    hide Names, ChildFacts, ProperFact;
    AskedAreNames(w, d, Shared(w));
    ChildInside(w, d, AskedIn(Shared(w), d));
  }

  lemma UsesAreDeps(w: World, p: PkgId, t: set<Fact>)
    requires p in w.packages
    ensures forall d {:trigger InUse(w, p, ActiveIn(t, p), t, d)} :: InUse(w, p, ActiveIn(t, p), t, d) ==> d in w.deps
  {
  }

  lemma SharedIsClosed(w: World)
    requires Valid(w) && Monotone(w)
    ensures Closed(w, Shared(w))
  {
    hide Effects, InitialFacts, Monotone, InUse, UseClosed, ProperFact, Universe, ActiveIn;
    InitialInside(w);
    InitialProper(w);
    var s := Shared(w);
    forall p | p in w.packages && Visited(p) in s ensures PackageClosed(w, s, p) {
      forall f | Active(p, f) in s ensures Effects(w, p, f) <= s {
        SharedFeatures(w, p, f);
      }
      forall d | d in w.deps && InUse(w, p, ActiveIn(s, p), s, d) ensures UseClosed(w, s, d) {
        SharedUseClosed(w, p, d);
      }
      UsesAreDeps(w, p, s);
    }
  }

  /** With monotone conditions there is a least closed set. */
  lemma MonotoneHasLeast(w: World)
    requires Valid(w) && Monotone(w)
    ensures exists t :: Least(w, t)
  {
    hide Closed, Monotone, Shared;
    SharedIsClosed(w);
    forall u {:trigger Closed(w, u)} | Closed(w, u) ensures Shared(w) <= u {
      SharedWithin(w, u);
    }
    assert Least(w, Shared(w));
  }

  // ---- Features that demand nothing ----

  ghost function Longer(names: set<string>): string {
    if names == {} then "x"
    else
      var f :| f in names;
      f + Longer(names - {f})
  }

  lemma {:induction false} LongerIsLonger(names: set<string>, f: string)
    requires f in names
    ensures |f| < |Longer(names)|
    decreases names
  {
    var g :| g in names && Longer(names) == g + Longer(names - {g});
    if f != g {
      LongerIsLonger(names - {g}, f);
    } else {
      LongerSome(names - {g});
    }
  }

  lemma {:induction false} LongerSome(names: set<string>)
    ensures Longer(names) != ""
    decreases names
  {
    if names != {} {
      var g :| g in names && Longer(names) == g + Longer(names - {g});
      LongerSome(names - {g});
    }
  }

  /** A feature without entries whose name is too short to speak of any dependency. */
  lemma Inert(w: World, p: PkgId, f: string)
    requires p in w.packages && w.packages[p].features == map[] && w.packages[p].defaultFeature == []
    requires forall d :: d in AllDeps(w.packages[p]) && d in w.deps ==> |f| < |w.deps[d].key|
    ensures Effects(w, p, f) == {}
  {
    var slash := Find(f, '/');
    if HasPrefix(f, DEP_PREFIX) {
      assert DepsNamed(w, p, f[|DEP_PREFIX|..]) == {};
    } else if slash < |f| {
      assert DepsNamed(w, p, Unmarked(f[..slash])) == {};
    } else {
      assert Entries(w.packages[p], f) == [];
    }
  }

  const NOTHING := Group([], [], [])

  /** A package with nothing but dependencies. */
  function Bare(dependencies: Group, targetDeps: map<string, Group>): Package {
    Package(map[], [], false, false, dependencies, targetDeps)
  }

  // ---- A condition that is lost: two closed sets with nothing closed in common ----

  /** The root has the features `names`, and a dependency that applies under `c`. */
  function OneEdge(h: Evaluator, c: string, names: seq<string>, key: string): World {
    World(map[0 := Bare(NOTHING, map[c := Group([0], [], [])]), 1 := Bare(NOTHING, map[])],
          map[0 := Dep(key, false, false, {}, 1)], 0, false, false, names, false, h)
  }

  lemma OneEdgeValid(h: Evaluator, c: string, names: seq<string>, key: string)
    ensures Valid(OneEdge(h, c, names, key)) && JudgedBy(OneEdge(h, c, names, key), h)
    ensures AllDeps(OneEdge(h, c, names, key).packages[0]) <= {0} && AllDeps(OneEdge(h, c, names, key).packages[1]) == {}
  {
    OneEdgeDeps(h, c, names, key);
    hide AllDeps;
  }

  lemma OneEdgeDeps(h: Evaluator, c: string, names: seq<string>, key: string)
    ensures AllDeps(OneEdge(h, c, names, key).packages[0]) <= {0} && AllDeps(OneEdge(h, c, names, key).packages[1]) == {}
  {
  }

  lemma OneEdgeTables(h: Evaluator, c: string, names: seq<string>, key: string, active: set<string>)
    ensures TableDeps(OneEdge(h, c, names, key), 0, active) == if h(c, active) then {0} else {}
    ensures TableDeps(OneEdge(h, c, names, key), 1, active) == {}
  {
    var w := OneEdge(h, c, names, key);
    var deps := w.packages[0].targetDeps;
    assert c in deps && deps.Keys == {c};
    assert Listed(UsedTables(deps[c], false, UsesDev(w, 0))) == {0};
    assert w.holds(c, active) == h(c, active);
    if h(c, active) {
      assert 0 in TargetDeps(w, 0, active, deps.Keys);
    }
  }

  ghost function Actives(p: PkgId, names: set<string>): set<Fact> { set f | f in names :: Active(p, f) }

  lemma ActivesTrimmed(p: PkgId, names: set<string>)
    requires Features(names)
    ensures Trimmed(p, names) == Actives(p, names) && Proper(Actives(p, names))
  {
  }

  lemma OneEdgeInitial(h: Evaluator, c: string, names: seq<string>, key: string, a: set<string>)
    requires Features(a) && a == set f | f in names
    ensures InitialFacts(OneEdge(h, c, names, key)) == {Visited(0)} + Actives(0, a)
  {
    ActivesTrimmed(0, a);
    assert RootFeatures(OneEdge(h, c, names, key)) == a;
  }

  lemma OneEdgeInert(h: Evaluator, c: string, names: seq<string>, b: set<string>, f: string)
    requires f in b
    ensures Effects(OneEdge(h, c, names, Longer(b)), 0, f) == {}
  {
    LongerIsLonger(b, f);
    OneEdgeValid(h, c, names, Longer(b));
    Inert(OneEdge(h, c, names, Longer(b)), 0, f);
  }

  /** The facts with the features `x` active are closed, with the dependency if it applies. */
  lemma OneEdgeClosed(h: Evaluator, c: string, names: seq<string>, a: set<string>, b: set<string>, x: set<string>)
    requires a == (set f | f in names) && a <= x <= b && Features(b)
    ensures var w := OneEdge(h, c, names, Longer(b));
      Valid(w) && Closed(w, {Visited(0)} + Actives(0, x) + if h(c, x) then {Visited(1)} else {})
  {
    var w := OneEdge(h, c, names, Longer(b));
    hide InitialFacts, Effects, TableDeps, ProperFact, IsFeature, OneEdge, Longer;
    var t := {Visited(0)} + Actives(0, x) + if h(c, x) then {Visited(1)} else {};
    OneEdgeValid(h, c, names, Longer(b));
    OneEdgeInitial(h, c, names, Longer(b), a);
    ActivesTrimmed(0, x);
    VisitedProper();
    OneEdgePackages(h, c, names, a, b, x, t);
  }

  lemma OneEdgePackages(h: Evaluator, c: string, names: seq<string>, a: set<string>, b: set<string>, x: set<string>, t: set<Fact>)
    requires a == (set f | f in names) && a <= x <= b && Features(b)
    requires t == {Visited(0)} + Actives(0, x) + if h(c, x) then {Visited(1)} else {}
    ensures var w := OneEdge(h, c, names, Longer(b));
      PackageClosed(w, t, 0) && PackageClosed(w, t, 1)
      && forall p :: p in w.packages ==> p == 0 || p == 1
  {
    hide Effects, TableDeps, Longer;
    var w := OneEdge(h, c, names, Longer(b));
    assert ActiveIn(t, 0) == x by {
      forall f | f in x ensures f in ActiveIn(t, 0) {
        assert Active(0, f) in t;
      }
    }
    OneEdgeTables(h, c, names, Longer(b), x);
    OneEdgeTables(h, c, names, Longer(b), ActiveIn(t, 1));
    forall f | Active(0, f) in t ensures Effects(w, 0, f) <= t {
      OneEdgeInert(h, c, names, b, f);
    }
    assert AskedIn(t, 0) == {};
    assert ChildFacts(w, 0, {}) == {};
  }

  lemma SequenceOf(names: set<string>) returns (list: seq<string>)
    ensures names == set f | f in list
  {
    if names == {} {
      list := [];
      assert (set f | f in list) == {};
    } else {
      var f :| f in names;
      var more := SequenceOf(names - {f});
      list := [f] + more;
      assert (set g | g in list) == {f} + (set g | g in more);
    }
  }

  /** A condition that is lost has a package graph without a least closed set: activating more features is
      closed without the dependency, activating no more is closed only with it. */
  lemma LosingHasNoLeast(h: Evaluator, c: string, a: set<string>, b: set<string>)
    requires Loses(h, c, a, b)
    ensures exists w :: Valid(w) && JudgedBy(w, h) && forall t :: !Least(w, t)
  {
    var names := SequenceOf(a);
    var w := OneEdge(h, c, names, Longer(b));
    hide Longer, Closed, IsFeature;
    OneEdgeValid(h, c, names, Longer(b));
    OneEdgeClosed(h, c, names, a, b, a);
    OneEdgeClosed(h, c, names, a, b, b);
    forall t | Least(w, t) ensures false {
      var with_, without := {Visited(0)} + Actives(0, a) + {Visited(1)}, {Visited(0)} + Actives(0, b);
      assert without + {} == without;
      assert t <= with_ && t <= without;
      LeastTakesEdge(h, c, names, a, b, t);
    }
  }

  lemma LeastTakesEdge(h: Evaluator, c: string, names: seq<string>, a: set<string>, b: set<string>, t: set<Fact>)
    requires a == (set f | f in names) && Features(a) && h(c, a) && Valid(OneEdge(h, c, names, Longer(b)))
    requires Closed(OneEdge(h, c, names, Longer(b)), t) && t <= {Visited(0)} + Actives(0, a) + {Visited(1)}
    ensures Visited(1) in t
  {
    hide Longer, TableDeps, InitialFacts, IsFeature, Effects;
    var w := OneEdge(h, c, names, Longer(b));
    OneEdgeInitial(h, c, names, Longer(b), a);
    assert ActiveIn(t, 0) == a by {
      forall f | f in a ensures f in ActiveIn(t, 0) {
        assert Active(0, f) in t;
      }
    }
    OneEdgeTables(h, c, names, Longer(b), a);
    assert Visited(0) in t;
    assert PackageClosed(w, t, 0);
    assert InUse(w, 0, ActiveIn(t, 0), t, 0);
  }

  /** Every package graph has a least closed set exactly if no condition is lost as features become active. */
  lemma LeastExactly(h: Evaluator)
    ensures (forall w {:trigger JudgedBy(w, h)} :: Valid(w) && JudgedBy(w, h) ==> exists t :: Least(w, t)) <==> NeverLoses(h)
  {
    hide JudgedBy, Least, Loses, Valid;
    if NeverLoses(h) {
      forall w {:trigger JudgedBy(w, h)} | Valid(w) && JudgedBy(w, h) ensures exists t :: Least(w, t) {
        NeverLosesIsMonotone(w, h);
        MonotoneHasLeast(w);
      }
    } else {
      var c, a, b :| Loses(h, c, a, b);
      LosingHasNoLeast(h, c, a, b);
    }
  }
}
