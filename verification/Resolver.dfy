/** `resolveGraph` (bin/cargo/resolve.go): a worklist over packages, and inside it a loop that expands the
    features of one package. Active features, enabled dependencies and the features asked of them are
    changed in place until nothing more is demanded. The rules it is proved against are those of
    FeatureRules.dfy; ResolveProgress.dfy has the invariant of the worklist. */
module Resolver {
  import opened Text
  import opened FeatureRules
  import opened FeatureUniverse
  import opened FeatureRevision
  import opened FeatureState
  import opened ResolveProgress
  import opened ResolveRuns

  class Resolution {
    /** `Package.activeFeatures`. */
    var active: map<PkgId, set<string>>
    /** The `Dependency.enabled` flags that are set. */
    var enabled: set<DepId>
    /** `Dependency.features`. */
    var asked: map<DepId, set<string>>

    ghost function Facts(): set<Fact>
      reads this
    {
      FactsOf(active, enabled, asked)
    }

    ghost predicate Inside(w: World)
      reads this
    {
      && active.Keys == w.packages.Keys && asked.Keys == w.deps.Keys
      && Facts() <= Universe(w)
      && Named(active)
    }

    /** `added` was recorded, and `changed` tells whether any of it was new. */
    twostate predicate Added(w: World, added: set<Fact>, changed: bool)
      reads this
    {
      Inside(w) && Facts() == old(Facts()) + added && (changed <==> Facts() != old(Facts()))
    }

    constructor (w: World)
      requires FeatureRules.Valid(w)
      ensures Inside(w) && Facts() == Declared(w)
    {
      active := NoFeatures(w);
      enabled := {};
      asked := DeclaredFeatures(w);
      new;
      hide Universe, Declared, FactsOf, NoFeatures, DeclaredFeatures, Named;
      DeclaredOf(w);
    }

    method ActivateFeature(w: World, p: PkgId, name: string) returns (changed: bool)
      requires Inside(w) && p in w.packages && ActivateEffects(p, name) <= Universe(w)
      modifies this`active
      ensures Added(w, ActivateEffects(p, name), changed)
    {
      hide Universe, TrimSpace, FactsOf;
      var feature := TrimSpace(name);
      Recorded(active, enabled, asked);
      if feature == "" || feature in active[p] {
        return false;
      }
      ActivateGrows(active, enabled, asked, p, feature);
      assert Active(p, feature) !in Facts();
      active := active[p := active[p] + {feature}];
      return true;
    }

    method EnableDependency(w: World, p: PkgId, name: string) returns (changed: bool)
      requires Inside(w) && p in w.packages
      modifies this`enabled
      ensures Added(w, EnableEffects(w, p, name), changed)
    {
      hide FactsOf, Universe, AllEnabled;
      DefaultIsName(w);
      var deps := DepsNamed(w, p, name);
      DepsInside(w, deps, "default");
      var todo := deps;
      changed := false;
      ghost var done := {};
      while todo != {}
        invariant done + todo == deps
        invariant Facts() == old(Facts()) + AllEnabled(done)
        invariant changed <==> Facts() != old(Facts())
      {
        var d :| d in todo;
        Recorded(active, enabled, asked);
        EnableGrows(active, enabled, asked, done, d);
        if d !in enabled {
          enabled := enabled + {d};
          changed := true;
        }
        todo := todo - {d};
        done := done + {d};
      }
    }

    method AskAll(w: World, deps: set<DepId>, feature: string) returns (changed: bool)
      requires Inside(w) && deps <= w.deps.Keys && feature in Names(w)
      modifies this`asked
      ensures Added(w, AllAsked(deps, feature), changed)
    {
      hide FactsOf, Names, Universe, AllAsked;
      DepsInside(w, deps, feature);
      var todo := deps;
      changed := false;
      ghost var done := {};
      while todo != {}
        invariant done + todo == deps && asked.Keys == w.deps.Keys
        invariant Facts() == old(Facts()) + AllAsked(done, feature)
        invariant changed <==> Facts() != old(Facts())
      {
        var d :| d in todo;
        Recorded(active, enabled, asked);
        AskGrows(active, enabled, asked, done, d, feature);
        if feature !in asked[d] {
          asked := asked[d := asked[d] + {feature}];
          changed := true;
        }
        todo := todo - {d};
        done := done + {d};
      }
    }

    method RequestDependencyFeature(w: World, p: PkgId, depName: string, feature: string) returns (changed: bool)
      requires FeatureRules.Valid(w) && Inside(w) && p in w.packages && feature in Names(w)
      modifies this
      ensures Added(w, RequestEffects(w, p, depName, feature), changed)
    {
      hide FactsOf, Names, AllDeps, ActivateEffects, EnableEffects, AllAsked, AnyOptional, Weak, Unmarked, DepsNamed, Universe, Inside;
      var name := Unmarked(depName);
      var deps := DepsNamed(w, p, name);
      NamedAreDeps(w, p, name);
      changed := false;
      if deps == {} {
        return;
      }
      if !Weak(depName) {
        changed := EnableDependency(w, p, name);
        if name in w.packages[p].features && AnyOptional(w, deps) {
          KeyIsName(w, p, name);
          ActivateInside(w, p, name);
          var activated := ActivateFeature(w, p, name);
          changed := activated || changed;
        }
      }
      var grown := AskAll(w, deps, feature);
      changed := grown || changed;
    }

    /** One entry of a feature's list. */
    method ExpandEntry(w: World, p: PkgId, entry: string) returns (changed: bool)
      requires FeatureRules.Valid(w) && Inside(w) && p in w.packages && entry in Names(w)
      modifies this
      ensures Added(w, EntryEffects(w, p, entry), changed)
    {
      hide FactsOf, Names, EntryEffects, Find, Universe, Inside;
      EntryBy(w, p, entry);
      var slash := Find(entry, '/');
      if slash < |entry| {
        PartIsName(w, entry, slash + 1, |entry|);
        assert entry[slash + 1..] == entry[slash + 1..|entry|];
        changed := RequestDependencyFeature(w, p, entry[..slash], entry[slash + 1..]);
      } else {
        ActivateInside(w, p, entry);
        changed := ActivateFeature(w, p, entry);
      }
    }

    method ExpandEntries(w: World, p: PkgId, entries: seq<string>) returns (changed: bool)
      requires FeatureRules.Valid(w) && Inside(w) && p in w.packages
      requires forall e :: e in entries ==> e in Names(w)
      modifies this
      ensures Added(w, EntriesEffects(w, p, entries), changed)
    {
      hide FactsOf, Names, EntryEffects, EntriesEffects, Universe, Named, Inside;
      changed := false;
      EntriesStep(w, p, entries, 0);
      for i := 0 to |entries|
        invariant Added(w, EntriesEffects(w, p, entries[..i]), changed)
      {
        EntriesStep(w, p, entries, i);
        var grown := ExpandEntry(w, p, entries[i]);
        changed := grown || changed;
      }
      assert entries[..|entries|] == entries;
    }

    method ExpandFeature(w: World, p: PkgId, feature: string) returns (changed: bool)
      requires FeatureRules.Valid(w) && Inside(w) && p in w.packages && feature in Names(w)
      modifies this
      ensures Added(w, Effects(w, p, feature), changed)
    {
      hide FactsOf, Names, Effects, Find, EntriesEffects, Entries, Universe, Inside;
      EffectsBy(w, p, feature);
      var slash := Find(feature, '/');
      if HasPrefix(feature, DEP_PREFIX) {
        changed := EnableDependency(w, p, feature[|DEP_PREFIX|..]);
      } else if slash < |feature| {
        PartIsName(w, feature, slash + 1, |feature|);
        assert feature[slash + 1..] == feature[slash + 1..|feature|];
        changed := RequestDependencyFeature(w, p, feature[..slash], feature[slash + 1..]);
      } else {
        EntriesAreNames(w, p, feature);
        changed := ExpandEntries(w, p, Entries(w.packages[p], feature));
      }
    }

    /** One pass over the features that were active when it began. */
    method ExpandPass(w: World, p: PkgId, features: seq<string>) returns (changed: bool)
      requires FeatureRules.Valid(w) && Inside(w) && p in w.packages
      requires forall f :: f in features ==> f in Names(w)
      modifies this
      ensures Added(w, AllEffects(w, p, features), changed)
    {
      hide FactsOf, Names, Effects, AllEffects, Universe, Named, Inside;
      changed := false;
      AllEffectsStep(w, p, features, 0);
      for i := 0 to |features|
        invariant Added(w, AllEffects(w, p, features[..i]), changed)
      {
        AllEffectsStep(w, p, features, i);
        var grown := ExpandFeature(w, p, features[i]);
        changed := grown || changed;
      }
      assert features[..|features|] == features;
    }

    /** `expandFeatures`. */
    method ExpandFeatures(w: World, p: PkgId)
      requires FeatureRules.Valid(w) && Inside(w) && p in w.packages
      modifies this
      ensures Inside(w) && Expanded(w, p, old(Facts()), Facts())
    {
      hide FactsOf, Names, Effects, AllEffects, Universe, FeaturesClosed, Increasing;
      while true
        invariant Inside(w) && old(Facts()) <= Facts()
        invariant forall u {:trigger FeaturesClosed(w, u, p)} :: old(Facts()) <= u && FeaturesClosed(w, u, p) ==> Facts() <= u
        decreases Universe(w) - Facts()
      {
        var features := SortedKeys(active[p]);
        Recorded(active, enabled, asked);
        forall f | f in features ensures f in Names(w) && Active(p, f) in Facts() {
          assert f in Members(features);
          ActiveIsName(w, p, f);
        }
        ghost var before := Facts();
        assert forall f :: Active(p, f) in before ==> f in Members(features);
        var changed := ExpandPass(w, p, features);
        forall u {:trigger FeaturesClosed(w, u, p)} | old(Facts()) <= u && FeaturesClosed(w, u, p) ensures Facts() <= u {
          PassIsDemanded(w, p, before, features, u);
        }
        if !changed {
          IdlePassIsClosed(w, p, before, features);
          break;
        }
      }
    }

    method ActivateAll(w: World, p: PkgId, features: set<string>) returns (changed: bool)
      requires Inside(w) && p in w.packages && features <= Names(w)
      modifies this`active
      ensures Added(w, Trimmed(p, features), changed)
    {
      hide FactsOf, Universe, Names, Trimmed, ActivateEffects, Inside;
      DefaultIsTrimmed(p);
      var todo := features;
      changed := false;
      ghost var done := {};
      while todo != {}
        invariant done + todo == features
        invariant Added(w, Trimmed(p, done), changed)
      {
        var f :| f in todo;
        ActivateInside(w, p, f);
        TrimmedMore(p, done, f);
        var grown := ActivateFeature(w, p, f);
        changed := grown || changed;
        todo := todo - {f};
        done := done + {f};
      }
    }

    method ActivateDefault(w: World, d: DepId) returns (changed: bool)
      requires FeatureRules.Valid(w) && Inside(w) && d in w.deps
      modifies this`active
      ensures Added(w, DefaultOf(w, d), changed)
    {
      hide FactsOf, Universe, Names, ActivateEffects, Inside;
      var child := w.deps[d].child;
      changed := false;
      if w.deps[d].defaultFeatures && w.packages[child].declaresDefault {
        DefaultIsName(w);
        DefaultIsTrimmed(child);
        ActivateInside(w, child, "default");
        changed := ActivateFeature(w, child, "default");
      }
    }

    lemma AskedRecorded(w: World, d: DepId)
      requires Inside(w) && d in w.deps
      ensures d in asked && AskedIn(Facts(), d) == asked[d] && asked[d] <= Names(w)
    {
      hide FactsOf, Universe, Names, AskedIn;
      Recorded(active, enabled, asked);
      AskedAreNames(w, d, Facts());
    }

    /** `requestFeatures`. */
    method RequestFeatures(w: World, d: DepId) returns (changed: bool)
      requires FeatureRules.Valid(w) && Inside(w) && d in w.deps
      modifies this`active
      ensures Added(w, ChildFacts(w, d, AskedIn(old(Facts()), d)), changed)
    {
      hide FactsOf, Universe, Names, Trimmed, DefaultOf, AskedIn, Inside;
      AskedRecorded(w, d);
      changed := ActivateDefault(w, d);
      var grown := ActivateAll(w, w.deps[d].child, asked[d]);
      changed := grown || changed;
    }

    /** The features of the command line, and the default feature of the root. */
    method ActivateRoot(w: World)
      requires FeatureRules.Valid(w) && Inside(w)
      modifies this`active
      ensures Inside(w) && Facts() == old(Facts()) + Trimmed(w.root, RootFeatures(w))
    {
      hide FactsOf, Universe, Names, Trimmed, ActivateEffects, Inside;
      var root := w.packages[w.root];
      RootAreNames(w);
      RootTrimmed(w);
      DefaultIsName(w);
      ActivateInside(w, w.root, "default");
      hide RootFeatures;
      if w.allFeatures {
        var _ := ActivateAll(w, w.root, root.features.Keys);
        if root.declaresDefault {
          var _ := ActivateFeature(w, w.root, "default");
        }
      } else {
        if !w.noDefault && root.declaresDefault {
          var _ := ActivateFeature(w, w.root, "default");
        }
        var _ := ActivateAll(w, w.root, set f | f in w.features);
      }
    }

    /** `enabledDependencies`: the tables of the package, and then the target tables that apply in whatever
        order the map yields them, less optional dependencies that are not enabled. */
    method EnabledDependencies(w: World, p: PkgId) returns (deps: seq<DepId>)
      requires FeatureRules.Valid(w) && Inside(w) && p in w.packages
      ensures MayWalk(w, p, Facts(), deps)
    {
      hide FactsOf, Universe, ActiveIn, UsedTables, InUseOnly, Inside, TargetList, IsOrder;
      var pkg := w.packages[p];
      ActiveRecorded(w, p);
      NoCondition(w, p, active[p], pkg.targetDeps.Keys);
      var tables := UsedTables(pkg.dependencies, pkg.buildScript, UsesDev(w, p));
      var todo := pkg.targetDeps.Keys;
      ghost var conditions := [];
      while todo != {}
        invariant todo <= pkg.targetDeps.Keys && IsOrder(conditions, pkg.targetDeps.Keys - todo)
        invariant tables == UsedTables(pkg.dependencies, pkg.buildScript, UsesDev(w, p)) + TargetList(w, p, active[p], conditions)
      {
        var condition :| condition in todo;
        NextCondition(w, p, active[p], conditions, condition, pkg.targetDeps.Keys, todo);
        if w.holds(condition, active[p]) {
          tables := tables + UsedTables(pkg.targetDeps[condition], pkg.buildScript, UsesDev(w, p));
        }
        todo := todo - {condition};
        conditions := conditions + [condition];
      }
      assert pkg.targetDeps.Keys - {} == pkg.targetDeps.Keys;
      deps := FilterInUse(w, tables);
    }

    lemma ActiveRecorded(w: World, p: PkgId)
      requires Inside(w) && p in w.packages
      ensures p in active && active[p] == ActiveIn(Facts(), p)
    {
      hide FactsOf, ActiveIn;
      Recorded(active, enabled, asked);
    }

    method FilterInUse(w: World, tables: seq<DepId>) returns (deps: seq<DepId>)
      ensures deps == InUseOnly(w, Facts(), tables)
    {
      hide FactsOf;
      Recorded(active, enabled, asked);
      deps := [];
      for i := 0 to |tables|
        invariant deps == InUseOnly(w, Facts(), tables[..i])
      {
        var d := tables[i];
        assert tables[..i + 1][..i] == tables[..i];
        if d in w.deps && (!w.deps[d].optional || d in enabled) {
          deps := deps + [d];
        }
      }
      assert tables[..|tables|] == tables;
    }

    /** Asks each dependency's package for its features and queues the packages to look at (again). */
    method RequestDependencies(w: World, deps: seq<DepId>, queue0: seq<PkgId>, queued0: set<PkgId>, revisions: map<PkgId, string>,
                               ghost seen: map<PkgId, set<string>>)
      returns (queue: seq<PkgId>, queued: set<PkgId>)
      requires FeatureRules.Valid(w) && Inside(w) && IsQueue(queue0, queued0) && Revised(seen, revisions)
      requires Known(w, deps)
      modifies this`active
      ensures Inside(w) && IsQueue(queue, queued)
      ensures Work(Facts(), queue) == WalkAll(w, seen, Work(old(Facts()), queue0), deps)
    {
      hide FactsOf, Universe, Inside, IsQueue, Revised, WalkAll, WalkOne, Known;
      queue, queued := queue0, queued0;
      ghost var start := Work(Facts(), queue0);
      WalkAllStep(w, seen, start, deps, 0);
      for i := 0 to |deps|
        invariant Inside(w) && IsQueue(queue, queued) && Known(w, deps[..i])
        invariant Work(Facts(), queue) == WalkAll(w, seen, start, deps[..i])
      {
        WalkAllStep(w, seen, start, deps, i);
        queue, queued := RequestFrom(w, deps[i], queue, queued, revisions, seen);
      }
      assert deps[..|deps|] == deps;
    }

    /** One of them. */
    method RequestFrom(w: World, d: DepId, queue0: seq<PkgId>, queued0: set<PkgId>, revisions: map<PkgId, string>,
                       ghost seen: map<PkgId, set<string>>)
      returns (queue: seq<PkgId>, queued: set<PkgId>)
      requires FeatureRules.Valid(w) && Inside(w) && IsQueue(queue0, queued0) && Revised(seen, revisions) && d in w.deps
      modifies this`active
      ensures Inside(w) && IsQueue(queue, queued)
      ensures Work(Facts(), queue) == WalkOne(w, seen, Work(old(Facts()), queue0), d)
    {
      hide FactsOf, Universe, ChildFacts, Inside, AskedIn, IsQueue, Revised, WalkOne, IsRevision;
      queue, queued := queue0, queued0;
      var child := w.deps[d].child;
      RevisedAt(seen, revisions, child);
      var changed := RequestFeatures(w, d);
      if changed || child !in revisions || revisions[child] == "" {
        queue, queued := Enqueue(queue, queued, child);
      }
      WalkOneIs(w, seen, Work(old(Facts()), queue0), d, Work(Facts(), queue), changed);
    }

    /** `resolveGraph`, from a package graph in which nothing is active yet, takes one of the runs of
        ResolveRuns.dfy to its end; so the packages found and the facts recorded form a closed set, the
        least one if no condition is lost as features become active. */
    method ResolveGraph(w: World) returns (packages: seq<PkgId>, ghost run: seq<State>, ghost end: State)
      requires FeatureRules.Valid(w) && Inside(w) && Facts() == Declared(w)
      modifies this
      ensures Inside(w) && Distinct(packages)
      ensures EndsIn(w, run, end) && end.facts == Facts() && forall p :: p in packages <==> p in end.seen
      ensures Closed(w, Facts() + set p | p in packages :: Visited(p))
      ensures Monotone(w) ==> Least(w, Facts() + set p | p in packages :: Visited(p))
    {
      hide FactsOf, Universe, Trimmed, RootFeatures, Declared, IsRevision, Closed, Least, Expanded, Seen, Monotone,
           ActiveIn, IsQueue, Revised, RunTo, RoundTo, Idle, MayWalk, WalkAll, Inside;
      ActivateRoot(w);
      var queue, queued := [w.root], {w.root};
      var revisions: map<PkgId, string> := map[];
      packages := [];
      ghost var seen: map<PkgId, set<string>> := map[];
      Singleton(w.root);
      end := State(Facts(), queue, seen);
      run := [end];
      RunStarts(w);
      while queue != []
        invariant Inside(w) && IsQueue(queue, queued) && IsQueue(packages, seen.Keys)
        invariant Revised(seen, revisions)
        invariant RunTo(w, run, end) && end == State(Facts(), queue, seen)
        decreases Universe(w) - Seen(seen), |queue|
      {
        var p := queue[0];
        Popped(queue, queued);
        RunHead(w, run, end);
        RevisedAt(seen, revisions, p);
        queue, queued := queue[1..], queued - {p};
        ExpandFeatures(w, p);
        ActiveRecorded(w, p);
        var revision := Revision(active[p]);
        ghost var mid := State(Facts(), queue, seen);
        RunGrows(w, run, end, mid.facts);
        IdleMeans(mid, p);
        RevisionMoves(w, p, seen, revisions, revision);
        if p in revisions && revisions[p] == revision {
          IdleRoundTo(w, p, mid);
        } else {
          if p !in revisions {
            Appended(packages, seen.Keys, p);
            packages := packages + [p];
          }
          SeenGrows(w, seen, p, active[p]);
          RevisedStep(seen, revisions, p, active[p], revision);
          revisions := revisions[p := revision];
          seen := seen[p := active[p]];
          var deps := EnabledDependencies(w, p);
          MayWalkDeps(w, p, Facts(), deps);
          queue, queued := RequestDependencies(w, deps, queue, queued, revisions, seen);
          WalkRoundTo(w, p, mid, deps, State(Facts(), queue, seen));
        }
        RunAppend(w, run, end, mid.facts, State(Facts(), queue, seen));
        end := State(Facts(), queue, seen);
        run := run + [end];
      }
      RunEndsClosed(w, run, end);
      SameElements(packages, seen.Keys);
      assert Outcome(end) == Facts() + set p | p in packages :: Visited(p);
    }

    /** The revision of a package tells whether its features are those it was last walked with. */
    lemma RevisionMoves(w: World, p: PkgId, seen: map<PkgId, set<string>>, revisions: map<PkgId, string>, revision: string)
      requires Inside(w) && p in w.packages && Revised(seen, revisions) && p in active && IsRevision(active[p], revision)
      requires p in seen ==> seen[p] <= active[p]
      ensures p in seen <==> p in revisions
      ensures p in seen ==> (revisions[p] == revision <==> seen[p] == active[p])
      ensures "" !in active[p] && forall f :: f in active[p] ==> Active(p, f) in Universe(w)
    {
      hide Universe, FactsOf, IsRevision;
      Recorded(active, enabled, asked);
      if p in seen {
        RevisionSeesGrowth(seen[p], active[p], revisions[p], revision);
      }
    }
  }

  ghost predicate IsQueue(queue: seq<PkgId>, queued: set<PkgId>) {
    (forall p :: p in queue <==> p in queued) && Distinct(queue)
  }

  lemma Singleton(p: PkgId)
    ensures IsQueue([p], {p}) && Revised(map[], map[])
    ensures forall m: map<PkgId, set<string>> :: m == map[] ==> IsQueue([], m.Keys)
  {
  }

  lemma Popped(queue: seq<PkgId>, queued: set<PkgId>)
    requires IsQueue(queue, queued) && queue != []
    ensures queue[0] in queued && IsQueue(queue[1..], queued - {queue[0]})
  {
    assert queue == [queue[0]] + queue[1..];
  }

  lemma Appended(queue: seq<PkgId>, queued: set<PkgId>, p: PkgId)
    requires IsQueue(queue, queued) && p !in queued
    ensures IsQueue(queue + [p], queued + {p})
  {
  }

  lemma SameElements(packages: seq<PkgId>, keys: set<PkgId>)
    requires IsQueue(packages, keys)
    ensures Distinct(packages) && forall p :: p in packages <==> p in keys
  {
  }

  method Enqueue(queue: seq<PkgId>, queued: set<PkgId>, p: PkgId) returns (queue': seq<PkgId>, queued': set<PkgId>)
    requires IsQueue(queue, queued)
    ensures IsQueue(queue', queued') && queue' == if p in queue then queue else queue + [p]
  {
    queue', queued' := queue, queued;
    if p !in queued {
      queue' := queue + [p];
      queued' := queued + {p};
    }
  }

  /** The recorded revisions are those of the features seen, none of which is the empty name. */
  ghost predicate Revised(seen: map<PkgId, set<string>>, revisions: map<PkgId, string>) {
    revisions.Keys == seen.Keys && forall p :: p in seen ==> "" !in seen[p] && IsRevision(seen[p], revisions[p])
  }

  lemma RevisedAt(seen: map<PkgId, set<string>>, revisions: map<PkgId, string>, p: PkgId)
    requires Revised(seen, revisions)
    ensures p in seen <==> p in revisions
    ensures p in seen ==> IsRevision(seen[p], revisions[p]) && (revisions[p] == "" <==> seen[p] == {})
  {
    hide IsRevision;
    if p in seen {
      RevisionSeesGrowth(seen[p], seen[p], revisions[p], revisions[p]);
    }
  }

  lemma RevisedStep(seen: map<PkgId, set<string>>, revisions: map<PkgId, string>, p: PkgId, features: set<string>, revision: string)
    requires Revised(seen, revisions) && IsRevision(features, revision) && "" !in features
    ensures Revised(seen[p := features], revisions[p := revision])
    ensures seen[p := features].Keys == seen.Keys + {p}
    ensures p in seen ==> seen[p := features].Keys == seen.Keys
  {
  }

  lemma NoCondition(w: World, p: PkgId, active: set<string>, keys: set<string>)
    requires p in w.packages
    ensures IsOrder([], keys - keys) && TargetList(w, p, active, []) == []
  {
  }

  lemma NextCondition(w: World, p: PkgId, active: set<string>, conditions: seq<string>, c: string, keys: set<string>, todo: set<string>)
    requires p in w.packages && c in w.packages[p].targetDeps && c in todo && todo <= keys && IsOrder(conditions, keys - todo)
    ensures IsOrder(conditions + [c], keys - (todo - {c}))
    ensures TargetList(w, p, active, conditions + [c]) == TargetList(w, p, active, conditions)
      + if w.holds(c, active) then UsedTables(w.packages[p].targetDeps[c], w.packages[p].buildScript, UsesDev(w, p)) else []
  {
    hide UsedTables;
    assert (conditions + [c])[..|conditions|] == conditions;
  }

  lemma EntryBy(w: World, p: PkgId, entry: string)
    requires p in w.packages
    ensures var slash := Find(entry, '/');
      slash <= |entry| && EntryEffects(w, p, entry) ==
        if slash < |entry| then RequestEffects(w, p, entry[..slash], entry[slash + 1..]) else ActivateEffects(p, entry)
  {
    hide RequestEffects, ActivateEffects;
  }

  lemma EffectsBy(w: World, p: PkgId, feature: string)
    requires p in w.packages
    ensures var slash := Find(feature, '/');
      slash <= |feature| && Effects(w, p, feature) ==
        if HasPrefix(feature, DEP_PREFIX) then EnableEffects(w, p, feature[|DEP_PREFIX|..])
        else if slash < |feature| then RequestEffects(w, p, feature[..slash], feature[slash + 1..])
        else EntriesEffects(w, p, Entries(w.packages[p], feature))
  {
    hide EnableEffects, RequestEffects, EntriesEffects, Entries;
  }

  lemma WalkOneIs(w: World, seen: map<PkgId, set<string>>, k: Work, d: DepId, k': Work, changed: bool)
    requires d in w.deps && k'.facts == k.facts + ChildFacts(w, d, AskedIn(k.facts, d)) && (changed <==> k'.facts != k.facts)
    requires var child := w.deps[d].child;
      k'.queue == if (changed || child !in seen || seen[child] == {}) && child !in k.queue then k.queue + [child] else k.queue
    ensures k' == WalkOne(w, seen, k, d)
  {
    hide ChildFacts, AskedIn;
  }

  lemma IdleMeans(s: State, p: PkgId)
    ensures Idle(s, p) <==> p in s.seen && s.seen[p] == ActiveIn(s.facts, p)
  {
  }

  lemma WalkAllStep(w: World, seen: map<PkgId, set<string>>, k: Work, deps: seq<DepId>, i: nat)
    requires Known(w, deps) && i <= |deps|
    ensures Known(w, deps[..0]) && WalkAll(w, seen, k, deps[..0]) == k
    ensures i < |deps| ==> deps[i] in w.deps && Known(w, deps[..i]) && Known(w, deps[..i + 1])
    ensures i < |deps| ==> WalkAll(w, seen, k, deps[..i + 1]) == WalkOne(w, seen, WalkAll(w, seen, k, deps[..i]), deps[i])
  {
    hide WalkOne;
    if i < |deps| {
      assert deps[..i + 1][..i] == deps[..i];
    }
  }
}
