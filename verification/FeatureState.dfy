/** The facts recorded in the resolver's mutable fields, and how they grow: the active features of the
    packages, the enabled dependencies and the features asked of dependencies are three maps or sets,
    and together one set of facts. Every change of a field adds one fact; what one package's features
    demand is the least set closed under them. */
module FeatureState {
  import opened Text
  import opened FeatureRules
  import opened FeatureUniverse

  ghost function FactsOf(active: map<PkgId, set<string>>, enabled: set<DepId>, asked: map<DepId, set<string>>): set<Fact> {
    (set p, f | p in active && f in active[p] :: Active(p, f))
    + (set d | d in enabled :: Enabled(d))
    + (set d, f | d in asked && f in asked[d] :: Asked(d, f))
  }

  ghost predicate Named(active: map<PkgId, set<string>>) {
    forall p :: p in active ==> "" !in active[p]
  }

  lemma Recorded(active: map<PkgId, set<string>>, enabled: set<DepId>, asked: map<DepId, set<string>>)
    ensures forall p, f {:trigger Active(p, f)} :: Active(p, f) in FactsOf(active, enabled, asked) <==> p in active && f in active[p]
    ensures forall d {:trigger Enabled(d)} :: Enabled(d) in FactsOf(active, enabled, asked) <==> d in enabled
    ensures forall d, f {:trigger Asked(d, f)} :: Asked(d, f) in FactsOf(active, enabled, asked) <==> d in asked && f in asked[d]
    ensures forall p {:trigger Visited(p)} :: Visited(p) !in FactsOf(active, enabled, asked)
    ensures forall p {:trigger active[p]} :: p in active ==> ActiveIn(FactsOf(active, enabled, asked), p) == active[p]
    ensures forall d {:trigger asked[d]} :: d in asked ==> AskedIn(FactsOf(active, enabled, asked), d) == asked[d]
  {
    var t := FactsOf(active, enabled, asked);
    forall p | p in active ensures ActiveIn(t, p) == active[p] {
      forall f | f in active[p] ensures f in ActiveIn(t, p) {
        assert Active(p, f) in t;
      }
    }
    forall d | d in asked ensures AskedIn(t, d) == asked[d] {
      forall f | f in asked[d] ensures f in AskedIn(t, d) {
        assert Asked(d, f) in t;
      }
    }
  }

  lemma ActivateGrows(active: map<PkgId, set<string>>, enabled: set<DepId>, asked: map<DepId, set<string>>, p: PkgId, f: string)
    requires p in active
    ensures FactsOf(active[p := active[p] + {f}], enabled, asked) == FactsOf(active, enabled, asked) + {Active(p, f)}
  {
  }

  lemma EnableGrows(active: map<PkgId, set<string>>, enabled: set<DepId>, asked: map<DepId, set<string>>, ds: set<DepId>, d: DepId)
    ensures FactsOf(active, enabled + {d}, asked) == FactsOf(active, enabled, asked) + {Enabled(d)}
    ensures AllEnabled(ds + {d}) == AllEnabled(ds) + {Enabled(d)}
  {
  }

  lemma AskGrows(active: map<PkgId, set<string>>, enabled: set<DepId>, asked: map<DepId, set<string>>, ds: set<DepId>, d: DepId, f: string)
    requires d in asked
    ensures FactsOf(active, enabled, asked[d := asked[d] + {f}]) == FactsOf(active, enabled, asked) + {Asked(d, f)}
    ensures AllAsked(ds + {d}, f) == AllAsked(ds, f) + {Asked(d, f)}
  {
  }

  lemma NamedAreDeps(w: World, p: PkgId, name: string)
    requires p in w.packages
    ensures DepsNamed(w, p, name) <= w.deps.Keys
  {
  }

  lemma ActiveIsName(w: World, p: PkgId, f: string)
    requires Active(p, f) in Universe(w)
    ensures f in Names(w)
  {
    hide Names;
  }

  lemma AskedAreNames(w: World, d: DepId, t: set<Fact>)
    requires t <= Universe(w)
    ensures AskedIn(t, d) <= Names(w)
  {
    hide Names;
  }

  lemma DepsInside(w: World, ds: set<DepId>, f: string)
    requires ds <= w.deps.Keys && f in Names(w)
    ensures AllEnabled(ds) <= Universe(w) && AllAsked(ds, f) <= Universe(w)
    ensures AllEnabled({}) == {} && AllAsked({}, f) == {}
  {
    hide Names;
  }

  /** Nothing but what the dependency entries ask for is recorded at first. */
  ghost function Declared(w: World): set<Fact> {
    set d, f | d in w.deps && f in w.deps[d].features :: Asked(d, f)
  }

  function NoFeatures(w: World): map<PkgId, set<string>> { map p | p in w.packages :: {} }

  function DeclaredFeatures(w: World): map<DepId, set<string>> { map d | d in w.deps :: w.deps[d].features }

  lemma DeclaredOf(w: World)
    requires Valid(w)
    ensures FactsOf(NoFeatures(w), {}, DeclaredFeatures(w)) == Declared(w)
    ensures Declared(w) <= Universe(w)
    ensures NoFeatures(w).Keys == w.packages.Keys && DeclaredFeatures(w).Keys == w.deps.Keys && Named(NoFeatures(w))
  {
    hide Universe, RootFeatures, Trimmed;
    InitialInside(w);
    assert Declared(w) <= InitialFacts(w);
    DeclaredFacts(w);
  }

  lemma DeclaredFacts(w: World)
    ensures FactsOf(NoFeatures(w), {}, DeclaredFeatures(w)) == Declared(w)
  {
  }

  // ---- Asking a package for features ----

  lemma TrimmedMore(child: PkgId, features: set<string>, f: string)
    ensures Trimmed(child, features + {f}) == Trimmed(child, features) + ActivateEffects(child, f)
  {
  }

  lemma DefaultIsTrimmed(p: PkgId)
    ensures ActivateEffects(p, "default") == {Active(p, "default")} && Trimmed(p, {"default"}) == {Active(p, "default")}
    ensures Trimmed(p, {}) == {}
  {
    assert TrimLeft("default") == "default";
    assert TrimRight("default") == "default";
  }

  lemma RootTrimmed(w: World)
    requires w.root in w.packages
    ensures var root := w.packages[w.root];
      Trimmed(w.root, RootFeatures(w))
      == Trimmed(w.root, if w.allFeatures then root.features.Keys else set f | f in w.features)
         + (if root.declaresDefault && (w.allFeatures || !w.noDefault) then ActivateEffects(w.root, "default") else {})
  {
    DefaultIsTrimmed(w.root);
  }

  lemma RootAreNames(w: World)
    requires Valid(w)
    ensures RootFeatures(w) <= Names(w) && (set f | f in w.features) <= Names(w)
    ensures w.packages[w.root].features.Keys <= Names(w)
  {
    forall f | f in RootFeatures(w) || f in w.features || f in w.packages[w.root].features ensures f in Names(w) {
      WrittenIsName(w, f);
    }
  }

  // ---- Expanding the features of one package ----

  ghost function AllEffects(w: World, p: PkgId, list: seq<string>): set<Fact>
    requires p in w.packages
  {
    if list == [] then {} else AllEffects(w, p, list[..|list| - 1]) + Effects(w, p, list[|list| - 1])
  }

  lemma AllEffectsStep(w: World, p: PkgId, list: seq<string>, i: nat)
    requires p in w.packages && i <= |list|
    ensures AllEffects(w, p, list[..0]) == {}
    ensures i < |list| ==> AllEffects(w, p, list[..i + 1]) == AllEffects(w, p, list[..i]) + Effects(w, p, list[i])
  {
    if i < |list| {
      assert list[..i + 1][..i] == list[..i];
    }
  }

  lemma EntriesStep(w: World, p: PkgId, list: seq<string>, i: nat)
    requires p in w.packages && i <= |list|
    ensures EntriesEffects(w, p, list[..0]) == {}
    ensures i < |list| ==> EntriesEffects(w, p, list[..i + 1]) == EntriesEffects(w, p, list[..i]) + EntryEffects(w, p, list[i])
  {
    if i < |list| {
      assert list[..i + 1][..i] == list[..i];
    }
  }

  lemma {:induction false} AllEffectsMember(w: World, p: PkgId, list: seq<string>)
    requires p in w.packages
    ensures forall f :: f in list ==> Effects(w, p, f) <= AllEffects(w, p, list)
    ensures forall x :: x in AllEffects(w, p, list) ==> exists f :: f in list && x in Effects(w, p, f)
  {
    hide Effects;
    if list != [] {
      var n := |list| - 1;
      AllEffectsMember(w, p, list[..n]);
      assert list == list[..n] + [list[n]];
    }
  }

  /** `t` is the least set that holds `s` and everything the features of `p` demand. */
  ghost predicate Expanded(w: World, p: PkgId, s: set<Fact>, t: set<Fact>)
    requires p in w.packages
  {
    && s <= t && FeaturesClosed(w, t, p)
    && forall u {:trigger FeaturesClosed(w, u, p)} :: s <= u && FeaturesClosed(w, u, p) ==> t <= u
  }

  /** One pass over the active features adds what any closed set must hold... */
  lemma PassIsDemanded(w: World, p: PkgId, t: set<Fact>, list: seq<string>, u: set<Fact>)
    requires p in w.packages && t <= u && FeaturesClosed(w, u, p)
    requires forall f :: f in list ==> Active(p, f) in t
    ensures t + AllEffects(w, p, list) <= u
  {
    hide Effects, AllEffects;
    AllEffectsMember(w, p, list);
    forall x | x in AllEffects(w, p, list) ensures x in u {
      var f :| f in list && x in Effects(w, p, f);
      assert Active(p, f) in u;
    }
  }

  /** ... and a pass that adds nothing finds the package closed. */
  lemma IdlePassIsClosed(w: World, p: PkgId, t: set<Fact>, list: seq<string>)
    requires p in w.packages && AllEffects(w, p, list) <= t
    requires forall f :: Active(p, f) in t ==> f in list
    ensures FeaturesClosed(w, t, p)
  {
    hide Effects, AllEffects;
    AllEffectsMember(w, p, list);
  }

  /** What is recorded inside the universe and what a package owns there, together, is closed. */
  lemma OwnedClosed(w: World, p: PkgId, f: string)
    requires Valid(w) && p in w.packages && Active(p, f) in Universe(w)
    ensures Effects(w, p, f) <= Universe(w)
    ensures forall x :: x in Effects(w, p, f) ==> OwnedBy(w, p, x) && ProperFact(x)
  {
    hide Effects, OwnedBy, Names, Universe, ProperFact;
    ActiveIsName(w, p, f);
    EffectsProper(w, p, f);
    EffectsInside(w, p, f);
    EffectsOwned(w, p, f);
  }

  /** Expanding a package adds facts about that package only, and proper ones. */
  lemma ExpandedOwned(w: World, p: PkgId, s: set<Fact>, t: set<Fact>)
    requires Valid(w) && p in w.packages && s <= Universe(w) && Expanded(w, p, s, t)
    ensures forall x :: x in t && x !in s ==> OwnedBy(w, p, x) && ProperFact(x)
  {
    hide Effects, OwnedBy, Universe, ProperFact;
    var u := s + set x | x in Universe(w) && OwnedBy(w, p, x) && ProperFact(x);
    forall f | Active(p, f) in u ensures Effects(w, p, f) <= u {
      OwnedClosed(w, p, f);
    }
    assert FeaturesClosed(w, u, p);
  }
}
