/** What the features of a package graph demand (bin/cargo/resolve.go), as facts and consequences. */
module FeatureRules {
  import opened Text

  type PkgId = nat
  type DepId = nat

  /** One `Dependency`; `child` is what `Repository.resolve` answers for it. */
  datatype Dep = Dep(key: string, optional: bool, defaultFeatures: bool, features: set<string>, child: PkgId)

  datatype Group = Group(main: seq<DepId>, build: seq<DepId>, dev: seq<DepId>)

  datatype Package = Package(features: map<string, seq<string>>, defaultFeature: seq<string>, declaresDefault: bool,
                             buildScript: bool, dependencies: Group, targetDeps: map<string, Group>)

  /** The loaded packages, the command line and the target. `holds` is `targetTableMatches`: whether the
      table of a condition applies while certain features are active. */
  datatype World = World(packages: map<PkgId, Package>, deps: map<DepId, Dep>, root: PkgId,
                         allFeatures: bool, noDefault: bool, features: seq<string>, devBuilds: bool,
                         holds: (string, set<string>) -> bool)

  datatype Fact =
    | Active(pkg: PkgId, feature: string)
    | Enabled(dep: DepId)
    | Asked(dep: DepId, feature: string)
    | Visited(pkg: PkgId)

  function Listed(list: seq<DepId>): set<DepId> { set d | d in list }

  function GroupDeps(g: Group): set<DepId> { Listed(g.main) + Listed(g.build) + Listed(g.dev) }

  /** `allDependencies`. */
  function AllDeps(p: Package): set<DepId> {
    GroupDeps(p.dependencies) + set c, d | c in p.targetDeps && d in GroupDeps(p.targetDeps[c]) :: d
  }

  /** Identifiers resolve, and a dependency entry belongs to one package. */
  ghost predicate Valid(w: World) {
    && w.root in w.packages
    && (forall d :: d in w.deps ==> w.deps[d].child in w.packages)
    && (forall p, d :: p in w.packages && d in AllDeps(w.packages[p]) ==> d in w.deps)
    && (forall p, q, d :: p in w.packages && q in w.packages && d in AllDeps(w.packages[p]) && d in AllDeps(w.packages[q])
          ==> p == q)
  }

  // ---- Consequences of a feature ----

  function DepsNamed(w: World, p: PkgId, name: string): set<DepId>
    requires p in w.packages
  {
    set d | d in AllDeps(w.packages[p]) && d in w.deps && w.deps[d].key == name
  }

  /** `activateFeature`: names are trimmed, empty ones ignored. */
  function ActivateEffects(p: PkgId, feature: string): set<Fact> {
    if TrimSpace(feature) == "" then {} else {Active(p, TrimSpace(feature))}
  }

  function AllEnabled(ds: set<DepId>): set<Fact> { set d | d in ds :: Enabled(d) }

  function AllAsked(ds: set<DepId>, feature: string): set<Fact> { set d | d in ds :: Asked(d, feature) }

  function EnableEffects(w: World, p: PkgId, name: string): set<Fact>
    requires p in w.packages
  {
    AllEnabled(DepsNamed(w, p, name))
  }

  predicate Weak(name: string) { name != "" && name[|name| - 1] == '?' }

  function Unmarked(name: string): string { if Weak(name) then name[..|name| - 1] else name }

  predicate AnyOptional(w: World, ds: set<DepId>) {
    exists d :: d in ds && d in w.deps && w.deps[d].optional
  }

  /** `dep/feat` and `dep?/feat`. */
  function RequestEffects(w: World, p: PkgId, depName: string, depFeature: string): set<Fact>
    requires p in w.packages
  {
    var name := Unmarked(depName);
    var ds := DepsNamed(w, p, name);
    if ds == {} then {}
    else
      (if Weak(depName) then {}
       else EnableEffects(w, p, name) +
            (if name in w.packages[p].features && AnyOptional(w, ds) then ActivateEffects(p, name) else {}))
      + AllAsked(ds, depFeature)
  }

  /** One entry of a feature's list. */
  function EntryEffects(w: World, p: PkgId, entry: string): set<Fact>
    requires p in w.packages
  {
    var slash := Find(entry, '/');
    if slash < |entry| then RequestEffects(w, p, entry[..slash], entry[slash + 1..]) else ActivateEffects(p, entry)
  }

  function Entries(p: Package, feature: string): seq<string> {
    if feature == "default" then p.defaultFeature
    else if feature in p.features then p.features[feature] else []
  }

  function EntriesEffects(w: World, p: PkgId, entries: seq<string>): set<Fact>
    requires p in w.packages
  {
    if entries == [] then {}
    else EntriesEffects(w, p, entries[..|entries| - 1]) + EntryEffects(w, p, entries[|entries| - 1])
  }

  const DEP_PREFIX := "dep:"

  /** What an active feature of a package demands there. */
  function Effects(w: World, p: PkgId, feature: string): set<Fact>
    requires p in w.packages
  {
    var slash := Find(feature, '/');
    if HasPrefix(feature, DEP_PREFIX) then EnableEffects(w, p, feature[|DEP_PREFIX|..])
    else if slash < |feature| then RequestEffects(w, p, feature[..slash], feature[slash + 1..])
    else EntriesEffects(w, p, Entries(w.packages[p], feature))
  }

  // ---- Consequences of a dependency ----

  /** The tables of a group that a package builds, in the order in which they are walked. */
  function UsedTables(g: Group, buildScript: bool, dev: bool): seq<DepId> {
    g.main + (if buildScript then g.build else []) + (if dev then g.dev else [])
  }

  /** The dependencies of those of the given target tables that apply. */
  function TargetDeps(w: World, p: PkgId, active: set<string>, conditions: set<string>): set<DepId>
    requires p in w.packages
  {
    var pkg := w.packages[p];
    set c, d | c in conditions && c in pkg.targetDeps && w.holds(c, active)
               && d in Listed(UsedTables(pkg.targetDeps[c], pkg.buildScript, UsesDev(w, p))) :: d
  }

  predicate UsesDev(w: World, p: PkgId) { p == w.root && w.devBuilds }

  /** The dependencies whose tables apply while `active` are the features of the package. */
  function TableDeps(w: World, p: PkgId, active: set<string>): set<DepId>
    requires p in w.packages
  {
    var pkg := w.packages[p];
    Listed(UsedTables(pkg.dependencies, pkg.buildScript, UsesDev(w, p))) + TargetDeps(w, p, active, pkg.targetDeps.Keys)
  }

  /** The feature `default` of the child, if wanted and declared. */
  function DefaultOf(w: World, d: DepId): set<Fact>
    requires d in w.deps
  {
    var child := w.deps[d].child;
    if w.deps[d].defaultFeatures && child in w.packages && w.packages[child].declaresDefault
    then {Active(child, "default")} else {}
  }

  function Trimmed(p: PkgId, features: set<string>): set<Fact> {
    set f | f in features && TrimSpace(f) != "" :: Active(p, TrimSpace(f))
  }

  /** The features a dependency in use asks of its package. */
  function ChildFacts(w: World, d: DepId, asked: set<string>): set<Fact>
    requires d in w.deps
  {
    DefaultOf(w, d) + Trimmed(w.deps[d].child, asked)
  }

  // ---- Closed sets of facts ----

  function RootFeatures(w: World): set<string>
    requires w.root in w.packages
  {
    var root := w.packages[w.root];
    (if w.allFeatures then root.features.Keys else set f | f in w.features)
    + (if root.declaresDefault && (w.allFeatures || !w.noDefault) then {"default"} else {})
  }

  /** What holds from the start: the root, the features asked for on the command line, and what the
      dependency entries themselves ask for. */
  function InitialFacts(w: World): set<Fact>
    requires w.root in w.packages
  {
    {Visited(w.root)}
    + Trimmed(w.root, RootFeatures(w))
    + set d, f | d in w.deps && f in w.deps[d].features :: Asked(d, f)
  }

  /** A dependency in a table that applies is in use unless it is optional and not enabled. */
  predicate InUse(w: World, p: PkgId, active: set<string>, t: set<Fact>, d: DepId)
    requires p in w.packages
  {
    d in TableDeps(w, p, active) && d in w.deps && (!w.deps[d].optional || Enabled(d) in t)
  }

  ghost predicate FeaturesClosed(w: World, t: set<Fact>, p: PkgId)
    requires p in w.packages
  {
    forall f {:trigger Active(p, f)} :: Active(p, f) in t ==> Effects(w, p, f) <= t
  }

  ghost predicate UseClosed(w: World, t: set<Fact>, d: DepId)
    requires d in w.deps
  {
    Visited(w.deps[d].child) in t && ChildFacts(w, d, AskedIn(t, d)) <= t
  }

  ghost function ActiveIn(t: set<Fact>, p: PkgId): set<string> {
    set x | x in t && x.Active? && x.pkg == p :: x.feature
  }

  ghost function AskedIn(t: set<Fact>, d: DepId): set<string> {
    set x | x in t && x.Asked? && x.dep == d :: x.feature
  }

  /** Every demand of a package is met, conditions being judged with its own active features. */
  ghost predicate PackageClosed(w: World, t: set<Fact>, p: PkgId)
    requires p in w.packages
  {
    && FeaturesClosed(w, t, p)
    && forall d {:trigger InUse(w, p, ActiveIn(t, p), t, d)} ::
         InUse(w, p, ActiveIn(t, p), t, d) ==> UseClosed(w, t, d)
  }

  /** Feature names are trimmed and not empty. */
  predicate IsFeature(name: string) { name != "" && TrimSpace(name) == name }

  predicate Features(names: set<string>) { forall f :: f in names ==> IsFeature(f) }

  predicate ProperFact(x: Fact) { x.Active? ==> IsFeature(x.feature) }

  ghost predicate Proper(t: set<Fact>) { forall x :: x in t ==> ProperFact(x) }

  /** Every demand is met. */
  ghost predicate Closed(w: World, t: set<Fact>)
    requires Valid(w)
  {
    && InitialFacts(w) <= t && Proper(t)
    && forall p {:trigger Visited(p)} :: p in w.packages && Visited(p) in t ==> PackageClosed(w, t, p)
  }

  ghost predicate Least(w: World, t: set<Fact>)
    requires Valid(w)
  {
    Closed(w, t) && forall u {:trigger Closed(w, u)} :: Closed(w, u) ==> t <= u
  }

  /** The condition holds with some features active and not with more; `not` over a feature does this. */
  ghost predicate Loses(h: (string, set<string>) -> bool, c: string, a: set<string>, b: set<string>) {
    a <= b && Features(b) && h(c, a) && !h(c, b)
  }

  /** No condition of the package graph is lost when more features become active. */
  ghost predicate Monotone(w: World) {
    forall p, c, a, b {:trigger c in w.packages[p].targetDeps, Loses(w.holds, c, a, b)} ::
      p in w.packages && c in w.packages[p].targetDeps ==> !Loses(w.holds, c, a, b)
  }

  /** The least closed set is one: what is resolved then depends on no order of maps or queues. */
  lemma LeastIsUnique(w: World, s: set<Fact>, t: set<Fact>)
    requires Valid(w) && Least(w, s) && Least(w, t)
    ensures s == t
  {
  }
}
