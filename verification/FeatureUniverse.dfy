/** The finitely many facts a package graph can give rise to: every name that ever becomes active or is
    asked for is part of a name written in a manifest or on the command line. */
module FeatureUniverse {
  import opened Text
  import opened FeatureRules

  /** The names that are written down somewhere. */
  ghost function Written(w: World): set<string> {
    {"default"} + (set f | f in w.features)
    + (set p, k | p in w.packages && k in w.packages[p].features :: k)
    + (set p, k, e | p in w.packages && k in w.packages[p].features && e in w.packages[p].features[k] :: e)
    + (set p, e | p in w.packages && e in w.packages[p].defaultFeature :: e)
    + (set d, f | d in w.deps && f in w.deps[d].features :: f)
  }

  ghost function Names(w: World): set<string> {
    set s, i, j | s in Written(w) && 0 <= i <= j <= |s| :: s[i..j]
  }

  ghost function Universe(w: World): set<Fact> {
    (set p, f | p in w.packages && f in Names(w) :: Active(p, f))
    + (set d | d in w.deps :: Enabled(d))
    + (set d, f | d in w.deps && f in Names(w) :: Asked(d, f))
    + (set p | p in w.packages :: Visited(p))
  }

  lemma WrittenIsName(w: World, s: string)
    requires s in Written(w)
    ensures s in Names(w)
  {
    assert s == s[0..|s|];
  }

  lemma PartIsName(w: World, x: string, a: nat, b: nat)
    requires x in Names(w) && a <= b <= |x|
    ensures x[a..b] in Names(w)
  {
    var s, i, j :| s in Written(w) && 0 <= i <= j <= |s| && x == s[i..j];
    SliceOfSlice(s, i, j, a, b);
  }

  lemma SliceOfSlice(s: string, i: nat, j: nat, a: nat, b: nat)
    requires i <= j <= |s| && a <= b <= j - i
    ensures s[i..j][a..b] == s[i + a..i + b]
  {
    var x, y := s[i..j][a..b], s[i + a..i + b];
    assert |x| == |y|;
    forall k | 0 <= k < |x| ensures x[k] == y[k] {
      assert x[k] == s[i..j][a + k];
    }
  }

  lemma KeyIsName(w: World, p: PkgId, name: string)
    requires p in w.packages && name in w.packages[p].features
    ensures name in Names(w)
  {
    WrittenIsName(w, name);
  }

  lemma TrimmedIsName(w: World, x: string)
    requires x in Names(w)
    ensures TrimSpace(x) in Names(w)
  {
    hide Names;
    var l := TrimLeft(x);
    PartIsName(w, x, |x| - |l|, |x|);
    assert l == x[|x| - |l|..|x|] by { TrimLeftIsSuffix(x); }
    hide TrimLeft;
    var r := TrimRight(l);
    PartIsName(w, l, 0, |r|);
    assert r == l[0..|r|] by { TrimRightIsPrefix(l); }
  }

  lemma ActivateInside(w: World, p: PkgId, f: string)
    requires p in w.packages && f in Names(w)
    ensures ActivateEffects(p, f) <= Universe(w)
  {
    TrimmedIsName(w, f);
  }

  lemma RequestInside(w: World, p: PkgId, depName: string, depFeature: string)
    requires Valid(w) && p in w.packages && depFeature in Names(w)
    ensures RequestEffects(w, p, depName, depFeature) <= Universe(w)
  {
    hide Names, Written, TrimSpace, ActivateEffects;
    var name := Unmarked(depName);
    if name in w.packages[p].features {
      KeyIsName(w, p, name);
      ActivateInside(w, p, name);
    }
  }

  lemma EntryInside(w: World, p: PkgId, entry: string)
    requires Valid(w) && p in w.packages && entry in Names(w)
    ensures EntryEffects(w, p, entry) <= Universe(w)
  {
    hide Names, Written, Universe, RequestEffects, ActivateEffects;
    var slash := Find(entry, '/');
    if slash < |entry| {
      PartIsName(w, entry, slash + 1, |entry|);
      assert entry[slash + 1..] == entry[slash + 1..|entry|];
      RequestInside(w, p, entry[..slash], entry[slash + 1..]);
    } else {
      ActivateInside(w, p, entry);
    }
  }

  lemma {:induction false} EntriesInside(w: World, p: PkgId, entries: seq<string>)
    requires Valid(w) && p in w.packages && forall e :: e in entries ==> e in Names(w)
    ensures EntriesEffects(w, p, entries) <= Universe(w)
  {
    hide Names, Written, Universe, EntryEffects;
    if entries != [] {
      EntriesInside(w, p, entries[..|entries| - 1]);
      EntryInside(w, p, entries[|entries| - 1]);
    }
  }

  lemma EntriesAreNames(w: World, p: PkgId, f: string)
    requires p in w.packages
    ensures forall e :: e in Entries(w.packages[p], f) ==> e in Names(w)
  {
    forall e | e in Entries(w.packages[p], f) ensures e in Names(w) {
      WrittenIsName(w, e);
    }
  }

  /** What an active feature demands stays inside... */
  lemma EffectsInside(w: World, p: PkgId, f: string)
    requires Valid(w) && p in w.packages && f in Names(w)
    ensures Effects(w, p, f) <= Universe(w)
  {
    hide Names, Written, RequestEffects, ActivateEffects, EntriesEffects;
    var slash := Find(f, '/');
    if HasPrefix(f, DEP_PREFIX) {
    } else if slash < |f| {
      PartIsName(w, f, slash + 1, |f|);
      assert f[slash + 1..] == f[slash + 1..|f|];
      RequestInside(w, p, f[..slash], f[slash + 1..]);
    } else {
      EntriesAreNames(w, p, f);
      EntriesInside(w, p, Entries(w.packages[p], f));
    }
  }

  /** ... and so does what holds from the start. */
  lemma InitialInside(w: World)
    requires Valid(w)
    ensures InitialFacts(w) <= Universe(w)
  {
    hide Names, RootFeatures, Written, TrimSpace;
    forall f | f in RootFeatures(w) ensures TrimSpace(f) in Names(w) {
      RootIsName(w, f);
    }
    forall d, f | d in w.deps && f in w.deps[d].features ensures f in Names(w) {
      AskedIsName(w, d, f);
    }
  }

  lemma RootIsName(w: World, f: string)
    requires Valid(w) && f in RootFeatures(w)
    ensures TrimSpace(f) in Names(w)
  {
    hide Names;
    WrittenIsName(w, f);
    TrimmedIsName(w, f);
  }

  lemma AskedIsName(w: World, d: DepId, f: string)
    requires d in w.deps && f in w.deps[d].features
    ensures f in Names(w)
  {
    WrittenIsName(w, f);
  }

  lemma DefaultIsName(w: World)
    ensures "default" in Names(w)
  {
    WrittenIsName(w, "default");
  }

  // ---- Whose facts ----

  /** A fact about package `p` itself or about one of its own dependency entries. */
  ghost predicate OwnedBy(w: World, p: PkgId, f: Fact)
    requires p in w.packages
  {
    match f
    case Active(q, _) => q == p
    case Enabled(d) => d in AllDeps(w.packages[p])
    case Asked(d, _) => d in AllDeps(w.packages[p])
    case Visited(_) => false
  }

  lemma {:induction false} EntriesOwned(w: World, p: PkgId, entries: seq<string>)
    requires p in w.packages
    ensures forall f :: f in EntriesEffects(w, p, entries) ==> OwnedBy(w, p, f)
  {
    if entries != [] {
      EntriesOwned(w, p, entries[..|entries| - 1]);
    }
  }

  /** The features of a package speak only of the package itself. */
  lemma EffectsOwned(w: World, p: PkgId, feature: string)
    requires p in w.packages
    ensures forall f :: f in Effects(w, p, feature) ==> OwnedBy(w, p, f)
  {
    EntriesOwned(w, p, Entries(w.packages[p], feature));
  }

  // ---- Whatever becomes active is a feature name ----

  lemma ActivateProper(p: PkgId, f: string)
    ensures Proper(ActivateEffects(p, f))
  {
    TrimSpaceTwice(f);
  }

  lemma RequestProper(w: World, p: PkgId, depName: string, depFeature: string)
    requires p in w.packages
    ensures Proper(RequestEffects(w, p, depName, depFeature))
  {
    hide ActivateEffects, IsFeature;
    ActivateProper(p, Unmarked(depName));
  }

  lemma {:induction false} EntriesProper(w: World, p: PkgId, entries: seq<string>)
    requires p in w.packages
    ensures Proper(EntriesEffects(w, p, entries))
  {
    hide RequestEffects, ActivateEffects, IsFeature;
    if entries != [] {
      var entry := entries[|entries| - 1];
      EntriesProper(w, p, entries[..|entries| - 1]);
      ActivateProper(p, entry);
      var slash := Find(entry, '/');
      if slash < |entry| {
        RequestProper(w, p, entry[..slash], entry[slash + 1..]);
      }
    }
  }

  lemma EffectsProper(w: World, p: PkgId, feature: string)
    requires p in w.packages
    ensures Proper(Effects(w, p, feature))
  {
    hide RequestEffects, EntriesEffects, IsFeature;
    EntriesProper(w, p, Entries(w.packages[p], feature));
    var slash := Find(feature, '/');
    if slash < |feature| {
      RequestProper(w, p, feature[..slash], feature[slash + 1..]);
    }
  }

  lemma TrimmedProper(p: PkgId, features: set<string>)
    ensures Proper(Trimmed(p, features))
  {
    forall f | f in features ensures TrimSpace(TrimSpace(f)) == TrimSpace(f) {
      TrimSpaceTwice(f);
    }
  }

  lemma DefaultIsFeature()
    ensures IsFeature("default")
  {
    assert TrimLeft("default") == "default";
    assert TrimRight("default") == "default";
  }

  lemma ChildProper(w: World, d: DepId, asked: set<string>)
    requires d in w.deps
    ensures Proper(ChildFacts(w, d, asked))
  {
    hide Trimmed, IsFeature;
    TrimmedProper(w.deps[d].child, asked);
    DefaultIsFeature();
  }

  lemma InitialProper(w: World)
    requires Valid(w)
    ensures Proper(InitialFacts(w))
  {
    hide Trimmed, RootFeatures, IsFeature;
    TrimmedProper(w.root, RootFeatures(w));
  }

  // ---- What a package asks of its dependencies stays inside too ----

  lemma ChildInside(w: World, d: DepId, asked: set<string>)
    requires Valid(w) && d in w.deps && asked <= Names(w)
    ensures ChildFacts(w, d, asked) <= Universe(w)
  {
    hide Names, Written;
    DefaultIsName(w);
    forall f | f in asked ensures TrimSpace(f) in Names(w) {
      TrimmedIsName(w, f);
    }
  }
}
