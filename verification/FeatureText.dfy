/** What features and dependency tables ask for, read off their text (bin/cargo/resolve.go:81-298): independent of
    the functions of FeatureRules.dfy, which the resolver is proved against. */
module FeatureText {
  import opened Text
  import opened FeatureRules

  // ---- Dependencies of a package ----

  /** Listed anywhere in the package, under any condition. */
  ghost predicate Declares(pkg: Package, d: DepId) {
    || d in pkg.dependencies.main || d in pkg.dependencies.build || d in pkg.dependencies.dev
    || exists c {:trigger pkg.targetDeps[c]} :: c in pkg.targetDeps
         && (d in pkg.targetDeps[c].main || d in pkg.targetDeps[c].build || d in pkg.targetDeps[c].dev)
  }

  /** Build dependencies count with a build script, dev-dependencies at the root of a build that has use for
      them. */
  predicate InTables(w: World, p: PkgId, g: Group, d: DepId)
    requires p in w.packages
  {
    d in g.main || (w.packages[p].buildScript && d in g.build) || (p == w.root && w.devBuilds && d in g.dev)
  }

  /** It stands in a table of the package that applies while `active` are its features. */
  ghost predicate Applies(w: World, p: PkgId, active: set<string>, d: DepId)
    requires p in w.packages
  {
    var pkg := w.packages[p];
    InTables(w, p, pkg.dependencies, d)
    || exists c {:trigger pkg.targetDeps[c]} :: c in pkg.targetDeps && w.holds(c, active) && InTables(w, p, pkg.targetDeps[c], d)
  }

  lemma DeclaresExactly(pkg: Package, d: DepId)
    ensures d in AllDeps(pkg) <==> Declares(pkg, d)
  {
    if exists c :: c in pkg.targetDeps && d in GroupDeps(pkg.targetDeps[c]) {
      var c :| c in pkg.targetDeps && d in GroupDeps(pkg.targetDeps[c]);
      assert d in AllDeps(pkg);
    }
  }

  lemma InTablesExactly(w: World, p: PkgId, g: Group, d: DepId)
    requires p in w.packages
    ensures d in Listed(UsedTables(g, w.packages[p].buildScript, UsesDev(w, p))) <==> InTables(w, p, g, d)
  {
  }

  lemma AppliesExactly(w: World, p: PkgId, active: set<string>, d: DepId)
    requires p in w.packages
    ensures d in TableDeps(w, p, active) <==> Applies(w, p, active, d)
  {
    hide UsedTables, InTables, UsesDev, Listed;
    var pkg := w.packages[p];
    InTablesExactly(w, p, pkg.dependencies, d);
    forall c | c in pkg.targetDeps
      ensures d in Listed(UsedTables(pkg.targetDeps[c], pkg.buildScript, UsesDev(w, p))) <==> InTables(w, p, pkg.targetDeps[c], d)
    {
      InTablesExactly(w, p, pkg.targetDeps[c], d);
    }
  }

  // ---- The text of a request ----

  /** `key/feature`, which enables the dependency. */
  predicate AsksStrongly(s: string, key: string, feature: string) {
    s == key + "/" + feature && '/' !in key && (key == "" || key[|key| - 1] != '?')
  }

  /** `key?/feature`, which does not. */
  predicate AsksWeakly(s: string, key: string, feature: string) { s == key + "?/" + feature && '/' !in key }

  lemma CutAtSlash(s: string, key: string, feature: string)
    requires s == key + "/" + feature && '/' !in key
    ensures Find(s, '/') == |key| && s[..|key|] == key && s[|key| + 1..] == feature
  {
    forall k | 0 <= k < |key| ensures s[k] != '/' {
      assert s[k] == key[k] && key[k] in key;
    }
    FindAt(s, '/', |key|);
  }

  lemma SlashFree(s: string, i: nat)
    requires i <= |s| && forall k :: 0 <= k < i ==> s[k] != '/'
    ensures '/' !in s[..i]
  {
    assert forall k :: 0 <= k < i ==> s[..i][k] == s[k];
  }

  lemma Rebuilt(s: string, i: nat)
    requires i < |s| && s[i] == '/'
    ensures s == s[..i] + "/" + s[i + 1..]
  {
  }

  lemma NoSlashBefore(s: string)
    ensures '/' !in s[..Find(s, '/')]
    ensures Find(s, '/') < |s| ==> s == s[..Find(s, '/')] + "/" + s[Find(s, '/') + 1..]
    ensures Find(s, '/') < |s| <==> '/' in s
  {
    var i := Find(s, '/');
    hide Find;
    SlashFree(s, i);
    if i < |s| {
      Rebuilt(s, i);
    } else {
      assert s[..i] == s;
    }
  }

  lemma StronglyExactly(s: string, key: string, feature: string)
    ensures AsksStrongly(s, key, feature) <==>
      Find(s, '/') < |s| && key == s[..Find(s, '/')] && feature == s[Find(s, '/') + 1..] && !Weak(key)
  {
    NoSlashBefore(s);
    if AsksStrongly(s, key, feature) {
      CutAtSlash(s, key, feature);
    }
  }

  lemma WeaklyExactly(s: string, key: string, feature: string)
    ensures AsksWeakly(s, key, feature) <==>
      Find(s, '/') < |s| && Weak(s[..Find(s, '/')]) && key == Unmarked(s[..Find(s, '/')]) && feature == s[Find(s, '/') + 1..]
  {
    hide Find, AsksWeakly, Weak, Unmarked;
    NoSlashBefore(s);
    var i := Find(s, '/');
    if AsksWeakly(s, key, feature) {
      WeakCut(s, key, feature);
      WeakMark(key);
    }
    if i < |s| && Weak(s[..i]) && key == Unmarked(s[..i]) && feature == s[i + 1..] {
      WeakJoin(s, s[..i], key, feature);
    }
  }

  lemma WeakCut(s: string, key: string, feature: string)
    requires AsksWeakly(s, key, feature)
    ensures Find(s, '/') == |key| + 1 < |s| && s[..|key| + 1] == key + "?" && s[|key| + 2..] == feature
  {
    hide Find;
    var name := key + "?";
    assert s == name + "/" + feature;
    assert '/' !in name;
    CutAtSlash(s, name, feature);
  }

  lemma WeakMark(key: string)
    ensures Weak(key + "?") && Unmarked(key + "?") == key
  {
    assert (key + "?")[..|key|] == key;
  }

  lemma WeakJoin(s: string, name: string, key: string, feature: string)
    requires s == name + "/" + feature && '/' !in name && Weak(name) && key == Unmarked(name)
    ensures AsksWeakly(s, key, feature)
  {
    assert name == key + "?";
    assert s == key + "?/" + feature;
    assert forall c :: c in key ==> c in name;
  }

  // ---- What one text demands ----

  ghost predicate OptionalNamed(w: World, p: PkgId, key: string)
    requires p in w.packages
  {
    exists d {:trigger w.deps[d]} :: d in w.deps && Declares(w.packages[p], d) && w.deps[d].key == key && w.deps[d].optional
  }

  /** What a feature, or an entry of the list of one, demands as a request: of all declarations of the
      dependency named; and the feature of that name, if there is one and the dependency is optional. */
  ghost predicate RequestDemands(w: World, p: PkgId, s: string, x: Fact)
    requires p in w.packages
  {
    match x
    case Enabled(d) => d in w.deps && Declares(w.packages[p], d) && exists feature :: AsksStrongly(s, w.deps[d].key, feature)
    case Asked(d, f) => d in w.deps && Declares(w.packages[p], d) && (AsksStrongly(s, w.deps[d].key, f) || AsksWeakly(s, w.deps[d].key, f))
    case Active(q, f) => q == p && f != "" && exists key, feature {:trigger AsksStrongly(s, key, feature)} ::
      AsksStrongly(s, key, feature) && key in w.packages[p].features && OptionalNamed(w, p, key) && f == TrimSpace(key)
    case Visited(_) => false
  }

  lemma NamedExactly(w: World, p: PkgId, key: string)
    requires p in w.packages
    ensures forall d :: d in DepsNamed(w, p, key) <==> d in w.deps && Declares(w.packages[p], d) && w.deps[d].key == key
    ensures AnyOptional(w, DepsNamed(w, p, key)) <==> OptionalNamed(w, p, key)
  {
    hide AllDeps, Declares;
    forall d ensures d in DepsNamed(w, p, key) <==> d in w.deps && Declares(w.packages[p], d) && w.deps[d].key == key {
      DeclaresExactly(w.packages[p], d);
    }
  }

  lemma RequestExactly(w: World, p: PkgId, s: string, x: Fact)
    requires p in w.packages && Find(s, '/') < |s|
    ensures x in RequestEffects(w, p, s[..Find(s, '/')], s[Find(s, '/') + 1..]) <==> RequestDemands(w, p, s, x)
  {
    hide Find, TrimSpace, Declares, DepsNamed, AnyOptional, OptionalNamed, AsksStrongly, AsksWeakly;
    var i := Find(s, '/');
    var name := Unmarked(s[..i]);
    NamedExactly(w, p, name);
    forall key, feature ensures AsksStrongly(s, key, feature) <==> !Weak(s[..i]) && key == s[..i] && feature == s[i + 1..] {
      StronglyExactly(s, key, feature);
    }
    forall key, feature ensures AsksWeakly(s, key, feature) <==> Weak(s[..i]) && key == name && feature == s[i + 1..] {
      WeaklyExactly(s, key, feature);
    }
    hide Weak;
    RequestCases(w, p, s, i, name, x);
  }

  lemma RequestCases(w: World, p: PkgId, s: string, i: nat, name: string, x: Fact)
    requires p in w.packages && i < |s| && name == Unmarked(s[..i])
    requires forall d :: d in DepsNamed(w, p, name) <==> d in w.deps && Declares(w.packages[p], d) && w.deps[d].key == name
    requires AnyOptional(w, DepsNamed(w, p, name)) <==> OptionalNamed(w, p, name)
    requires forall key, feature :: AsksStrongly(s, key, feature) <==> !Weak(s[..i]) && key == s[..i] && feature == s[i + 1..]
    requires forall key, feature :: AsksWeakly(s, key, feature) <==> Weak(s[..i]) && key == name && feature == s[i + 1..]
    ensures x in RequestEffects(w, p, s[..i], s[i + 1..]) <==> RequestDemands(w, p, s, x)
  {
    hide TrimSpace, Declares, DepsNamed, AnyOptional, OptionalNamed, AsksStrongly, AsksWeakly, Weak;
    SomeOptional(w, p, name);
    match x
    case Enabled(d) =>
      if !Weak(s[..i]) {
        assert AsksStrongly(s, name, s[i + 1..]);
      }
    case Active(q, f) =>
      if !Weak(s[..i]) {
        assert AsksStrongly(s, name, s[i + 1..]);
      }
    case _ =>
  }

  lemma SomeOptional(w: World, p: PkgId, name: string)
    requires p in w.packages
    ensures AnyOptional(w, DepsNamed(w, p, name)) ==> DepsNamed(w, p, name) != {}
  {
  }

  // ---- What an active feature demands ----

  /** A feature's own list; that of `default` is kept apart. */
  ghost predicate EntryOf(pkg: Package, f: string, entry: string) {
    if f == "default" then entry in pkg.defaultFeature else f in pkg.features && entry in pkg.features[f]
  }

  ghost predicate IsDepFeature(f: string) { |f| >= 4 && f[0] == 'd' && f[1] == 'e' && f[2] == 'p' && f[3] == ':' }

  /** The texts an active feature has read as requests: itself, if it has a slash, and else its entries. */
  ghost predicate Reads(pkg: Package, f: string, s: string) {
    !IsDepFeature(f) && if '/' in f then s == f else EntryOf(pkg, f, s)
  }

  ghost predicate FeatureDemands(w: World, p: PkgId, f: string, x: Fact)
    requires p in w.packages
  {
    || (x.Enabled? && x.dep in w.deps && Declares(w.packages[p], x.dep) && f == "dep:" + w.deps[x.dep].key)
    || (exists s :: Reads(w.packages[p], f, s) && RequestDemands(w, p, s, x))
    || (x.Active? && x.pkg == p && x.feature != "" && '/' !in f && !IsDepFeature(f)
        && exists entry :: EntryOf(w.packages[p], f, entry) && '/' !in entry && x.feature == TrimSpace(entry))
  }

  lemma EntryExactly(w: World, p: PkgId, entry: string, x: Fact)
    requires p in w.packages
    ensures x in EntryEffects(w, p, entry) <==>
      RequestDemands(w, p, entry, x) || (x.Active? && x.pkg == p && x.feature != "" && '/' !in entry && x.feature == TrimSpace(entry))
  {
    hide Find, TrimSpace, RequestEffects, RequestDemands;
    NoSlashBefore(entry);
    if '/' in entry {
      RequestExactly(w, p, entry, x);
    } else {
      NoRequest(w, p, entry, x);
    }
  }

  lemma NoRequest(w: World, p: PkgId, s: string, x: Fact)
    requires p in w.packages && '/' !in s
    ensures !RequestDemands(w, p, s, x)
  {
    hide Declares, TrimSpace, OptionalNamed;
    forall key, feature ensures !AsksStrongly(s, key, feature) && !AsksWeakly(s, key, feature) {
      AskHasSlash(s, key, feature);
    }
  }

  lemma AskHasSlash(s: string, key: string, feature: string)
    ensures AsksStrongly(s, key, feature) || AsksWeakly(s, key, feature) ==> '/' in s
  {
    if AsksStrongly(s, key, feature) {
      assert s[|key|] == '/';
    } else if AsksWeakly(s, key, feature) {
      assert s[|key| + 1] == '/';
    }
  }

  lemma {:induction false} EntriesExactly(w: World, p: PkgId, entries: seq<string>, x: Fact)
    requires p in w.packages
    ensures x in EntriesEffects(w, p, entries) <==> exists i :: 0 <= i < |entries| && x in EntryEffects(w, p, entries[i])
  {
    hide EntryEffects;
    if entries != [] {
      var n := |entries| - 1;
      EntriesExactly(w, p, entries[..n], x);
      if i :| 0 <= i < n && x in EntryEffects(w, p, entries[..n][i]) {
        assert x in EntryEffects(w, p, entries[i]);
      }
      if i :| 0 <= i < |entries| && x in EntryEffects(w, p, entries[i]) {
        assert i < n ==> x in EntryEffects(w, p, entries[..n][i]);
      }
    }
  }

  lemma EntriesOf(pkg: Package, f: string, entry: string)
    ensures entry in Entries(pkg, f) <==> EntryOf(pkg, f, entry)
  {
  }

  lemma DepPrefix(f: string)
    ensures HasPrefix(f, DEP_PREFIX) <==> IsDepFeature(f)
    ensures IsDepFeature(f) ==> forall key :: f == "dep:" + key <==> f[|DEP_PREFIX|..] == key
    ensures !IsDepFeature(f) ==> forall key :: f != "dep:" + key
  {
    if IsDepFeature(f) {
      assert f[..4] == "dep:" && f == f[..4] + f[4..];
    }
    forall key ensures IsDepFeature("dep:" + key) && ("dep:" + key)[4..] == key {
    }
  }

  /** What a feature demands is what its text, and that of its list, say. */
  lemma EffectsExactly(w: World, p: PkgId, f: string, x: Fact)
    requires p in w.packages
    ensures x in Effects(w, p, f) <==> FeatureDemands(w, p, f, x)
  {
    hide Find, TrimSpace, RequestEffects, RequestDemands, EntriesEffects, EntryEffects, Entries, EntryOf, IsDepFeature, Declares;
    DepPrefix(f);
    NoSlashBefore(f);
    if IsDepFeature(f) {
      NamedExactly(w, p, f[|DEP_PREFIX|..]);
    } else if '/' in f {
      RequestExactly(w, p, f, x);
    } else {
      ListExactly(w, p, f, x);
    }
  }

  lemma ListExactly(w: World, p: PkgId, f: string, x: Fact)
    requires p in w.packages && '/' !in f && !IsDepFeature(f)
    ensures x in EntriesEffects(w, p, Entries(w.packages[p], f)) <==>
      || (exists s :: Reads(w.packages[p], f, s) && RequestDemands(w, p, s, x))
      || (x.Active? && x.pkg == p && x.feature != ""
          && exists entry :: EntryOf(w.packages[p], f, entry) && '/' !in entry && x.feature == TrimSpace(entry))
  {
    hide TrimSpace, RequestDemands, EntriesEffects, EntryEffects, Entries, EntryOf, IsDepFeature;
    var pkg, list := w.packages[p], Entries(w.packages[p], f);
    EntriesExactly(w, p, list, x);
    forall entry ensures entry in list <==> EntryOf(pkg, f, entry) {
      EntriesOf(pkg, f, entry);
    }
    forall entry ensures x in EntryEffects(w, p, entry) <==>
      RequestDemands(w, p, entry, x) || (x.Active? && x.pkg == p && x.feature != "" && '/' !in entry && x.feature == TrimSpace(entry))
    {
      EntryExactly(w, p, entry, x);
    }
    forall s ensures Reads(pkg, f, s) <==> s in list {
    }
    if s :| Reads(pkg, f, s) && RequestDemands(w, p, s, x) {
      var i :| 0 <= i < |list| && list[i] == s;
      assert x in EntryEffects(w, p, list[i]);
    }
    if entry :| EntryOf(pkg, f, entry) && '/' !in entry && x.Active? && x.pkg == p && x.feature != "" && x.feature == TrimSpace(entry) {
      var i :| 0 <= i < |list| && list[i] == entry;
      assert x in EntryEffects(w, p, list[i]);
    }
  }

  // ---- What a dependency in use, and the command line, ask for ----

  /** A feature that the package of a dependency is asked for: the default one, if it has one, and what is asked
      of the dependency. */
  ghost predicate ChildAsked(w: World, d: DepId, t: set<Fact>, feature: string) {
    && d in w.deps
    && ((feature == "default" && w.deps[d].defaultFeatures && w.deps[d].child in w.packages && w.packages[w.deps[d].child].declaresDefault)
        || (feature != "" && exists a :: Asked(d, a) in t && feature == TrimSpace(a)))
  }

  lemma ChildExactly(w: World, d: DepId, t: set<Fact>, x: Fact)
    requires d in w.deps
    ensures x in ChildFacts(w, d, AskedIn(t, d)) <==> x.Active? && x.pkg == w.deps[d].child && ChildAsked(w, d, t, x.feature)
  {
    hide TrimSpace;
    if x.Active? && x.pkg == w.deps[d].child && x.feature != "" {
      if a :| Asked(d, a) in t && x.feature == TrimSpace(a) {
        assert a in AskedIn(t, d);
      }
    }
  }

  /** The features of the root that the command line asks for, or all, and the default one unless it is not
      wanted. */
  ghost predicate RootAsked(w: World, feature: string)
    requires w.root in w.packages
  {
    var root := w.packages[w.root];
    || (feature == "default" && root.declaresDefault && (w.allFeatures || !w.noDefault))
    || (feature != "" && w.allFeatures && exists f :: f in root.features && feature == TrimSpace(f))
    || (feature != "" && !w.allFeatures && exists f :: f in w.features && feature == TrimSpace(f))
  }

  lemma RootExactly(w: World, x: Fact)
    requires w.root in w.packages
    ensures x in Trimmed(w.root, RootFeatures(w)) <==> x.Active? && x.pkg == w.root && RootAsked(w, x.feature)
  {
    DefaultTrims();
    hide TrimSpace;
    var root := w.packages[w.root];
    if x.Active? && x.pkg == w.root && RootAsked(w, x.feature) {
      if x.feature == "default" && root.declaresDefault && (w.allFeatures || !w.noDefault) {
        assert "default" in RootFeatures(w);
      } else if w.allFeatures {
        var f :| f in root.features && x.feature == TrimSpace(f);
        assert f in RootFeatures(w);
      } else {
        var f :| f in w.features && x.feature == TrimSpace(f);
        assert f in RootFeatures(w);
      }
    }
  }

  lemma DefaultTrims()
    ensures TrimSpace("default") == "default"
  {
    assert TrimLeft("default") == "default" && TrimRight("default") == "default";
  }
}
