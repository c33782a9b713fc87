/** `execute` (bin/cargo/tasks.go) in any number of goroutines of any number of processes. */
module TaskProtocol {
  import opened TaskCache

  // What touches the shared target directory or a lock is a step of its own, and the steps of different
  // workers interleave freely.

  type Pid = nat

  /** The goroutine of process `pid` that executes one of its tasks. Tasks are told apart as the program
      tells them apart, by pointer: two of them may describe the same work. */
  datatype Who = Who(pid: Pid, node: nat)

  /** What a task of a process describes, and its dependencies among the tasks of that process. */
  datatype Node = Node(task: Task, deps: seq<nat>)

  datatype System = System(world: World, node: Who -> Node)

  function TaskOf(w: System, x: Who): Task { w.node(x).task }

  function UidOf(w: System, x: Who): string { Uid(w.world, TaskOf(w, x)) }

  function Clean(w: System, x: Who): Manifest { CleanManifest(w.world, TaskOf(w, x)) }

  function DepsOf(w: System, x: Who): seq<Who> { seq(|w.node(x).deps|, i requires 0 <= i < |w.node(x).deps| => Who(x.pid, w.node(x).deps[i])) }

  /** The assumptions of TaskCache.dfy, and that tasks depend on the tasks they describe. */
  ghost predicate Consistent(w: System) {
    && Sound(w.world)
    && forall x {:trigger DepsOf(w, x)} :: |DepsOf(w, x)| == |TaskOf(w, x).deps|
         && forall i :: 0 <= i < |DepsOf(w, x)| ==> TaskOf(w, DepsOf(w, x)[i]) == TaskOf(w, x).deps[i]
  }

  /** Where a worker is inside `execute`. `stored` are the logical names already in the blob store. */
  datatype Worker =
    | Waiting
    | Checking
    | Acting
    | Storing(tree: Tree, stored: set<string>)
    | Published(manifest: Manifest)

  /** `known` holds the results a process has, of its first scan and of its finished workers.
      `done` and `lost` are for stating properties only: the uids whose action has completed since their
      manifest or one of its blobs was last lost, and the blobs that were lost and not stored again. */
  datatype State = State(store: Store, locks: map<string, Who>, live: set<Pid>, scanning: set<Pid>,
                         known: map<Who, Manifest>, workers: map<Who, Worker>,
                         done: set<string>, lost: set<string>)

  datatype Step =
    | Spawn(pid: Pid)
    | Scan(who: Who)
    | BeginRun(pid: Pid)
    | Begin(who: Who)
    | Acquire(who: Who)
    | Hit(who: Who)
    | Miss(who: Who)
    | Act(who: Who)
    | StoreFile(who: Who, name: string)
    | Publish(who: Who)
    | Finish(who: Who)
    | Fail(who: Who)
    | Crash(pid: Pid)
    | LoseBlob(hash: string)
    | LoseManifest(uid: string)

  const EMPTY := State(Store(map[], map[]), map[], {}, {}, map[], map[], {}, {})

  /** The results of the dependencies are there to be read. */
  ghost predicate DepsReadable(s: State, xs: seq<Who>) {
    forall d :: d in xs ==> d in s.known && BlobsPresent(s.store.blobs, s.known[d])
  }

  ghost function DepTrees(s: State, xs: seq<Who>): seq<Tree>
    requires DepsReadable(s, xs)
  {
    if xs == [] then [] else [ReadTree(s.store.blobs, s.known[xs[0]])] + DepTrees(s, xs[1..])
  }

  ghost predicate Enabled(w: System, s: State, step: Step) {
    match step
    case Spawn(pid) => pid !in s.live
    case Scan(x) =>
      x.pid in s.live && x.pid in s.scanning && TaskOf(w, x) in w.world.universe && Loadable(s.store, UidOf(w, x))
    case BeginRun(pid) => pid in s.live && pid in s.scanning
    case Begin(x) =>
      && x.pid in s.live && x.pid !in s.scanning && TaskOf(w, x) in w.world.universe
      && x !in s.known && x !in s.workers
      && forall d :: d in DepsOf(w, x) ==> d in s.known
    case Acquire(x) => x in s.workers && s.workers[x].Waiting? && UidOf(w, x) !in s.locks
    case Hit(x) => x in s.workers && s.workers[x].Checking? && Loadable(s.store, UidOf(w, x))
    case Miss(x) => x in s.workers && s.workers[x].Checking? && !Loadable(s.store, UidOf(w, x))
    case Act(x) => x in s.workers && s.workers[x].Acting? && DepsReadable(s, DepsOf(w, x))
    case StoreFile(x, name) => x in s.workers && s.workers[x].Storing? && name in s.workers[x].tree
    case Publish(x) => x in s.workers && s.workers[x].Storing? && s.workers[x].stored == s.workers[x].tree.Keys
    case Finish(x) => x in s.workers && s.workers[x].Published?
    case Fail(x) => x in s.workers
    case Crash(pid) => pid in s.live
    case LoseBlob(hash) => s.live == {} && hash in s.store.blobs
    case LoseManifest(uid) => s.live == {} && uid in s.store.uids
  }

  // ---- The effect of a step ----

  ghost function SetWorker(s: State, x: Who, k: Worker): State {
    s.(workers := s.workers[x := k])
  }

  /** The worker returns, normally or by an exception; the deferred close gives up its lock. */
  ghost function Leave(w: System, s: State, x: Who): State {
    s.(workers := s.workers - {x},
       locks := if UidOf(w, x) in s.locks && s.locks[UidOf(w, x)] == x
                then s.locks - {UidOf(w, x)} else s.locks)
  }

  /** `storeFile`: a blob that is there is kept, one that is not is written. A symbolic link stores nothing. */
  ghost function PutFile(w: System, s: State, f: File): State {
    match f
    case Symlink(_) => s
    case Regular(content, _) =>
      s.(store := s.store.(blobs := if w.world.hash(content) in s.store.blobs then s.store.blobs
                                    else s.store.blobs[w.world.hash(content) := content]),
         lost := s.lost - {w.world.hash(content)})
  }

  ghost predicate Names(m: Manifest, hash: string) {
    exists n :: n in m && m[n].Blob? && m[n].cas == hash
  }

  ghost function Do(w: System, s: State, step: Step): State
    requires Enabled(w, s, step)
  {
    match step
    case Spawn(pid) => s.(live := s.live + {pid}, scanning := s.scanning + {pid})
    case Scan(x) => s.(known := s.known[x := s.store.uids[UidOf(w, x)]])
    case BeginRun(pid) => s.(scanning := s.scanning - {pid})
    case Begin(x) => SetWorker(s, x, Waiting)
    case Acquire(x) => SetWorker(s, x, Checking).(locks := s.locks[UidOf(w, x) := x])
    case Hit(x) => Leave(w, s, x).(known := s.known[x := s.store.uids[UidOf(w, x)]])
    case Miss(x) => SetWorker(s, x, Acting)
    case Act(x) => SetWorker(s, x, Storing(w.world.act(ShapeOf(TaskOf(w, x)), DepTrees(s, DepsOf(w, x))), {}))
    case StoreFile(x, name) =>
      var k := s.workers[x];
      SetWorker(PutFile(w, s, k.tree[name]), x, k.(stored := k.stored + {name}))
    case Publish(x) =>
      var m := ManifestOf(w.world, s.workers[x].tree);
      SetWorker(s, x, Published(m))
        .(store := s.store.(uids := s.store.uids[UidOf(w, x) := m]), done := s.done + {UidOf(w, x)})
    case Finish(x) => Leave(w, s, x).(known := s.known[x := s.workers[x].manifest])
    case Fail(x) => Leave(w, s, x)
    case Crash(pid) =>
      s.(live := s.live - {pid}, scanning := s.scanning - {pid},
         known := map x | x in s.known && x.pid != pid :: s.known[x],
         workers := map x | x in s.workers && x.pid != pid :: s.workers[x],
         locks := map u | u in s.locks && s.locks[u].pid != pid :: s.locks[u])
    case LoseBlob(hash) =>
      s.(store := s.store.(blobs := s.store.blobs - {hash}), lost := s.lost + {hash},
         done := set u | u in s.done && u in s.store.uids && !Names(s.store.uids[u], hash))
    case LoseManifest(uid) =>
      s.(store := s.store.(uids := s.store.uids - {uid}), done := s.done - {uid})
  }

  /** The steps can be taken one after another from the empty target directory. */
  ghost predicate Legal(w: System, steps: seq<Step>)
    decreases |steps|, 0
  {
    steps == [] || (Legal(w, steps[..|steps| - 1]) && Enabled(w, After(w, steps[..|steps| - 1]), steps[|steps| - 1]))
  }

  ghost function After(w: System, steps: seq<Step>): State
    requires Legal(w, steps)
    decreases |steps|, 1
  {
    if steps == [] then EMPTY else Do(w, After(w, steps[..|steps| - 1]), steps[|steps| - 1])
  }

  // ---- The invariant ----

  /** Blobs hold what their name hashes, and manifests are the clean ones. */
  ghost predicate StoreOk(w: System, store: Store) {
    && HashedBlobs(w.world, store.blobs)
    && forall t :: t in w.world.universe && Uid(w.world, t) in store.uids ==> store.uids[Uid(w.world, t)] == CleanManifest(w.world, t)
  }

  ghost predicate DoneOk(s: State) {
    forall u :: u in s.done ==> Loadable(s.store, u)
  }

  /** A published manifest names only blobs that are there, unless somebody lost them. */
  ghost predicate NamedOk(s: State) {
    forall u, h :: u in s.store.uids && Names(s.store.uids[u], h) ==> h in s.store.blobs || h in s.lost
  }

  ghost predicate KnownOk(w: System, s: State, x: Who) {
    x in s.known ==>
      && x.pid in s.live && TaskOf(w, x) in w.world.universe
      && s.known[x] == Clean(w, x) && BlobsPresent(s.store.blobs, s.known[x])
  }

  ghost predicate FileStored(w: System, blobs: map<string, string>, f: File) {
    f.Regular? ==> w.world.hash(f.content) in blobs
  }

  ghost predicate WorkerOk(w: System, s: State, x: Who) {
    x in s.workers ==>
      && x.pid in s.live && TaskOf(w, x) in w.world.universe
      && (forall d :: d in DepsOf(w, x) ==> d in s.known)
      && (!s.workers[x].Waiting? ==> UidOf(w, x) in s.locks && s.locks[UidOf(w, x)] == x)
      && (s.workers[x].Acting? || s.workers[x].Storing? ==> UidOf(w, x) !in s.done)
      && (s.workers[x].Storing? ==> StoringOk(w, s.store.blobs, TaskOf(w, x), s.workers[x]))
      && (s.workers[x].Published? ==>
            s.workers[x].manifest == Clean(w, x) && BlobsPresent(s.store.blobs, s.workers[x].manifest))
  }

  ghost predicate StoringOk(w: System, blobs: map<string, string>, t: Task, k: Worker)
    requires k.Storing?
  {
    && k.tree == Outputs(w.world, t) && k.stored <= k.tree.Keys
    && forall n :: n in k.stored ==> FileStored(w, blobs, k.tree[n])
  }

  ghost predicate Inv(w: System, s: State) {
    && StoreOk(w, s.store) && DoneOk(s) && NamedOk(s)
    && (forall x :: KnownOk(w, s, x))
    && (forall x :: WorkerOk(w, s, x))
  }

  // ---- Every step keeps it ----

  lemma DepTreesClean(w: System, s: State, xs: seq<Who>, ts: seq<Task>)
    requires Consistent(w) && HashedBlobs(w.world, s.store.blobs) && DepsReadable(s, xs)
    requires |xs| == |ts| && forall i :: 0 <= i < |xs| ==> TaskOf(w, xs[i]) == ts[i]
    requires forall d :: d in xs ==> KnownOk(w, s, d)
    ensures DepTrees(s, xs) == OutputsOfAll(w.world, ts)
  {
    if xs != [] {
      assert KnownOk(w, s, xs[0]);
      ReadBack(w.world, s.store.blobs, Outputs(w.world, ts[0]));
      DepTreesClean(w, s, xs[1..], ts[1..]);
    }
  }

  /** Equal uids name equal manifests. */
  lemma SameUidSameManifest(w: System, t: Task, u: Task)
    requires Consistent(w) && t in w.world.universe && u in w.world.universe && Uid(w.world, t) == Uid(w.world, u)
    ensures CleanManifest(w.world, t) == CleanManifest(w.world, u)
  {
    SameUidSameOutputs(w.world, t, u);
  }

  lemma StepArrives(w: System, s: State, step: Step)
    requires Consistent(w) && Inv(w, s) && Enabled(w, s, step) && (step.Spawn? || step.BeginRun?)
    ensures Inv(w, Do(w, s, step))
  {
    hide Leave, PutFile, Names, StoringOk, Clean;
    var s' := Do(w, s, step);
    forall x ensures KnownOk(w, s', x) {
      assert KnownOk(w, s, x);
    }
    forall x ensures WorkerOk(w, s', x) {
      assert WorkerOk(w, s, x);
    }
  }

  lemma StepMoves(w: System, s: State, step: Step)
    requires Consistent(w) && Inv(w, s) && Enabled(w, s, step) && (step.Begin? || step.Miss?)
    ensures Inv(w, Do(w, s, step))
  {
    hide Leave, PutFile, Names, StoringOk, Clean;
    var s' := Do(w, s, step);
    assert WorkerOk(w, s, step.who);
    forall x ensures KnownOk(w, s', x) {
      assert KnownOk(w, s, x);
    }
    forall x ensures WorkerOk(w, s', x) {
      assert WorkerOk(w, s, x);
    }
  }

  lemma StepAcquires(w: System, s: State, step: Step)
    requires Consistent(w) && Inv(w, s) && Enabled(w, s, step) && step.Acquire?
    ensures Inv(w, Do(w, s, step))
  {
    hide Leave, PutFile, Names, WorkerOk, Clean;
    var s' := Do(w, s, step);
    forall x ensures KnownOk(w, s', x) {
      assert KnownOk(w, s, x);
    }
    forall x ensures WorkerOk(w, s', x) {
      AcquireKeepsWorker(w, s, step, x);
    }
  }

  lemma AcquireKeepsWorker(w: System, s: State, step: Step, x: Who)
    requires Enabled(w, s, step) && step.Acquire? && WorkerOk(w, s, x)
    ensures WorkerOk(w, Do(w, s, step), x)
  {
    hide Leave, PutFile, StoringOk, Clean;
  }

  lemma StepCrashes(w: System, s: State, pid: Pid)
    requires Consistent(w) && Inv(w, s) && Enabled(w, s, Crash(pid))
    ensures Inv(w, Do(w, s, Crash(pid)))
  {
    hide Leave, PutFile, Names, StoringOk;
    var s' := Do(w, s, Crash(pid));
    forall x ensures KnownOk(w, s', x) {
      assert KnownOk(w, s, x);
    }
    forall x ensures WorkerOk(w, s', x) {
      assert WorkerOk(w, s, x);
    }
  }

  lemma LeaveKeepsInv(w: System, s: State, x: Who)
    requires Inv(w, s)
    ensures Inv(w, Leave(w, s, x))
  {
    hide Names, StoringOk;
    var s' := Leave(w, s, x);
    forall y ensures KnownOk(w, s', y) {
      assert KnownOk(w, s, y);
    }
    forall y ensures WorkerOk(w, s', y) {
      assert WorkerOk(w, s, y);
    }
  }

  /** A result is learnt from a manifest that loads, or from the worker that just published it. */
  lemma LearnKeepsInv(w: System, s: State, x: Who, m: Manifest)
    requires Inv(w, s) && x.pid in s.live && TaskOf(w, x) in w.world.universe
    requires m == Clean(w, x) && BlobsPresent(s.store.blobs, m)
    ensures Inv(w, s.(known := s.known[x := m]))
  {
    hide Names, StoringOk, BlobsPresent, Clean;
    var s' := s.(known := s.known[x := m]);
    forall y ensures KnownOk(w, s', y) {
      assert KnownOk(w, s, y);
    }
    forall y ensures WorkerOk(w, s', y) {
      assert WorkerOk(w, s, y);
    }
  }

  lemma StepLearns(w: System, s: State, step: Step)
    requires Consistent(w) && Inv(w, s) && Enabled(w, s, step)
    requires step.Scan? || step.Hit? || step.Finish? || step.Fail?
    ensures Inv(w, Do(w, s, step))
  {
    hide Inv;
    var x := step.who;
    InvMeans(w, s, x);
    if step.Scan? {
      LearnKeepsInv(w, s, x, s.store.uids[UidOf(w, x)]);
    } else {
      LeaveKeepsInv(w, s, x);
      if step.Hit? {
        LearnKeepsInv(w, Leave(w, s, x), x, s.store.uids[UidOf(w, x)]);
      } else if step.Finish? {
        LearnKeepsInv(w, Leave(w, s, x), x, s.workers[x].manifest);
      }
    }
  }

  lemma InvMeans(w: System, s: State, x: Who)
    requires Inv(w, s)
    ensures WorkerOk(w, s, x) && StoreOk(w, s.store)
  {
  }

  lemma StepActs(w: System, s: State, x: Who)
    requires Consistent(w) && Inv(w, s) && Enabled(w, s, Act(x))
    ensures Inv(w, Do(w, s, Act(x)))
  {
    var s' := Do(w, s, Act(x));
    assert WorkerOk(w, s, x);
    DepTreesClean(w, s, DepsOf(w, x), TaskOf(w, x).deps);
    forall y ensures KnownOk(w, s', y) {
      assert KnownOk(w, s, y);
    }
    forall y ensures WorkerOk(w, s', y) {
      assert WorkerOk(w, s, y);
    }
  }

  lemma PutFileStores(w: System, s: State, f: File)
    requires Consistent(w) && HashedBlobs(w.world, s.store.blobs)
    ensures var s' := PutFile(w, s, f);
      && HashedBlobs(w.world, s'.store.blobs) && FileStored(w, s'.store.blobs, f)
      && s'.store.uids == s.store.uids
      && (forall h :: h in s.store.blobs ==> h in s'.store.blobs)
      && (forall h :: h in s.lost && h !in s'.lost ==> h in s'.store.blobs)
  {
  }

  lemma StepStores(w: System, s: State, x: Who, name: string)
    requires Consistent(w) && Inv(w, s) && Enabled(w, s, StoreFile(x, name))
    ensures Inv(w, Do(w, s, StoreFile(x, name)))
  {
    var k := s.workers[x];
    var put := PutFile(w, s, k.tree[name]);
    PutFileStores(w, s, k.tree[name]);
    assert WorkerOk(w, s, x);
    MoreBlobsKeepInv(w, s, put);
    MarkStored(w, put, x, name);
  }

  lemma MoreBlobsKeepInv(w: System, s: State, s': State)
    requires Inv(w, s) && HashedBlobs(w.world, s'.store.blobs)
    requires s' == s.(store := s'.store, lost := s'.lost) && s'.store.uids == s.store.uids
    requires forall h :: h in s.store.blobs ==> h in s'.store.blobs
    requires forall h :: h in s.lost && h !in s'.lost ==> h in s'.store.blobs
    ensures Inv(w, s')
  {
    forall y ensures KnownOk(w, s', y) {
      assert KnownOk(w, s, y);
    }
    forall y ensures WorkerOk(w, s', y) {
      assert WorkerOk(w, s, y);
    }
  }

  lemma MarkStored(w: System, s: State, x: Who, name: string)
    requires Inv(w, s) && x in s.workers && s.workers[x].Storing? && name in s.workers[x].tree
    requires FileStored(w, s.store.blobs, s.workers[x].tree[name])
    ensures Inv(w, SetWorker(s, x, s.workers[x].(stored := s.workers[x].stored + {name})))
  {
    var s' := SetWorker(s, x, s.workers[x].(stored := s.workers[x].stored + {name}));
    forall y ensures KnownOk(w, s', y) {
      assert KnownOk(w, s, y);
    }
    forall y ensures WorkerOk(w, s', y) {
      assert WorkerOk(w, s, y);
    }
  }

  lemma StoredTreeLoads(w: System, blobs: map<string, string>, t: Task, k: Worker)
    requires k.Storing? && StoringOk(w, blobs, t, k) && k.stored == k.tree.Keys
    ensures ManifestOf(w.world, k.tree) == CleanManifest(w.world, t)
    ensures BlobsPresent(blobs, ManifestOf(w.world, k.tree))
    ensures forall h :: Names(ManifestOf(w.world, k.tree), h) ==> h in blobs
  {
    var m := ManifestOf(w.world, k.tree);
    forall n | n in m && m[n].Blob? ensures m[n].cas in blobs {
      assert n in k.stored && FileStored(w, blobs, k.tree[n]);
    }
  }

  lemma StepPublishes(w: System, s: State, x: Who)
    requires Consistent(w) && Inv(w, s) && Enabled(w, s, Publish(x))
    ensures Inv(w, Do(w, s, Publish(x)))
  {
    hide Leave, PutFile, WorkerOk, StoringOk;
    var s' := Do(w, s, Publish(x));
    PublishLoads(w, s, x);
    forall t | t in w.world.universe && Uid(w.world, t) in s'.store.uids
      ensures s'.store.uids[Uid(w.world, t)] == CleanManifest(w.world, t)
    {
      if Uid(w.world, t) == UidOf(w, x) {
        SameUidSameManifest(w, t, TaskOf(w, x));
      }
    }
    forall y ensures KnownOk(w, s', y) {
      assert KnownOk(w, s, y);
    }
    forall y ensures WorkerOk(w, s', y) {
      assert WorkerOk(w, s, y);
      PublishKeepsWorker(w, s, x, y);
    }
  }

  lemma PublishLoads(w: System, s: State, x: Who)
    requires Consistent(w) && WorkerOk(w, s, x) && Enabled(w, s, Publish(x))
    ensures TaskOf(w, x) in w.world.universe && ManifestOf(w.world, s.workers[x].tree) == Clean(w, x)
    ensures BlobsPresent(s.store.blobs, Clean(w, x))
  {
    StoredTreeLoads(w, s.store.blobs, TaskOf(w, x), s.workers[x]);
  }

  lemma PublishKeepsWorker(w: System, s: State, x: Who, y: Who)
    requires Consistent(w) && Enabled(w, s, Publish(x)) && WorkerOk(w, s, x) && WorkerOk(w, s, y)
    requires ManifestOf(w.world, s.workers[x].tree) == Clean(w, x) && BlobsPresent(s.store.blobs, Clean(w, x))
    ensures WorkerOk(w, Do(w, s, Publish(x)), y)
  {
    hide Leave, PutFile, StoringOk, Clean;
  }

  /** Nobody runs when something is lost. */
  lemma StepLoses(w: System, s: State, step: Step)
    requires Consistent(w) && Inv(w, s) && Enabled(w, s, step)
    requires step.LoseBlob? || step.LoseManifest?
    ensures Inv(w, Do(w, s, step))
  {
    var s' := Do(w, s, step);
    forall x ensures KnownOk(w, s', x) {
      assert KnownOk(w, s, x);
    }
    forall x ensures WorkerOk(w, s', x) {
      assert WorkerOk(w, s, x);
    }
    if step.LoseBlob? {
      forall u | u in s'.done ensures Loadable(s'.store, u) {
        assert Loadable(s.store, u) && !Names(s.store.uids[u], step.hash);
      }
    }
  }

  lemma StepKeepsInv(w: System, s: State, step: Step)
    requires Consistent(w) && Inv(w, s) && Enabled(w, s, step)
    ensures Inv(w, Do(w, s, step))
  {
    hide Inv, Do, Consistent;
    match step
    case Scan(_) => StepLearns(w, s, step);
    case Hit(_) => StepLearns(w, s, step);
    case Finish(_) => StepLearns(w, s, step);
    case Fail(_) => StepLearns(w, s, step);
    case Act(x) => StepActs(w, s, x);
    case StoreFile(x, name) => StepStores(w, s, x, name);
    case Publish(x) => StepPublishes(w, s, x);
    case Crash(pid) => StepCrashes(w, s, pid);
    case LoseBlob(_) => StepLoses(w, s, step);
    case LoseManifest(_) => StepLoses(w, s, step);
    case Acquire(_) => StepAcquires(w, s, step);
    case Begin(_) => StepMoves(w, s, step);
    case Miss(_) => StepMoves(w, s, step);
    case _ => StepArrives(w, s, step);
  }

  lemma {:induction false} AlwaysInv(w: System, steps: seq<Step>)
    requires Consistent(w) && Legal(w, steps)
    ensures Inv(w, After(w, steps))
  {
    if steps != [] {
      var before := steps[..|steps| - 1];
      AlwaysInv(w, before);
      StepKeepsInv(w, After(w, before), steps[|steps| - 1]);
    }
  }

  // ---- What follows for every interleaving ----

  /** Cache transparency. Whatever ran, failed, crashed or was lost before, and whoever else runs now, the
      manifest a process ends up with for a task is the one a first build on an empty store produces. */
  lemma KnownIsClean(w: System, steps: seq<Step>, x: Who)
    requires Consistent(w) && Legal(w, steps) && x in After(w, steps).known
    ensures After(w, steps).known[x] == Clean(w, x)
  {
    AlwaysInv(w, steps);
    assert KnownOk(w, After(w, steps), x);
  }

  /** Two tasks with the same uid get the same manifest in any two runs of any two histories. */
  lemma CacheTransparency(w: System, one: seq<Step>, other: seq<Step>, x: Who, y: Who)
    requires Consistent(w) && Legal(w, one) && Legal(w, other)
    requires x in After(w, one).known && y in After(w, other).known
    requires UidOf(w, x) == UidOf(w, y)
    ensures After(w, one).known[x] == After(w, other).known[y]
  {
    KnownIsClean(w, one, x);
    KnownIsClean(w, other, y);
    AlwaysInv(w, one);
    AlwaysInv(w, other);
    assert KnownOk(w, After(w, one), x) && KnownOk(w, After(w, other), y);
    SameUidSameManifest(w, TaskOf(w, x), TaskOf(w, y));
  }

  /** Between its lock and its return a worker is alone with its uid. */
  lemma MutualExclusion(w: System, steps: seq<Step>, x: Who, y: Who)
    requires Consistent(w) && Legal(w, steps)
    requires x in After(w, steps).workers && !After(w, steps).workers[x].Waiting?
    requires y in After(w, steps).workers && !After(w, steps).workers[y].Waiting?
    requires UidOf(w, x) == UidOf(w, y)
    ensures x == y
  {
    AlwaysInv(w, steps);
    assert WorkerOk(w, After(w, steps), x) && WorkerOk(w, After(w, steps), y);
  }

  /** What an action reads of its dependencies is always there. */
  lemma ActionsFindTheirInputs(w: System, steps: seq<Step>, x: Who)
    requires Consistent(w) && Legal(w, steps)
    requires x in After(w, steps).workers && After(w, steps).workers[x].Acting?
    ensures Enabled(w, After(w, steps), Act(x))
  {
    var s := After(w, steps);
    AlwaysInv(w, steps);
    assert WorkerOk(w, s, x);
    forall d | d in DepsOf(w, x)
      ensures d in s.known && BlobsPresent(s.store.blobs, s.known[d])
    {
      assert KnownOk(w, s, d);
    }
  }

  /** Every blob a published manifest names is stored under its hash, unless it was lost since. */
  lemma ManifestsNameStoredBlobs(w: System, steps: seq<Step>, uid: string, h: string)
    requires Consistent(w) && Legal(w, steps)
    requires uid in After(w, steps).store.uids && Names(After(w, steps).store.uids[uid], h)
    ensures h in After(w, steps).store.blobs || exists k :: 0 <= k < |steps| && steps[k] == LoseBlob(h)
    ensures h in After(w, steps).store.blobs ==> w.world.hash(After(w, steps).store.blobs[h]) == h
  {
    AlwaysInv(w, steps);
    if h !in After(w, steps).store.blobs {
      LostByAStep(w, steps, h);
    }
  }

  lemma {:induction false} LostByAStep(w: System, steps: seq<Step>, h: string)
    requires Legal(w, steps) && h in After(w, steps).lost
    ensures exists k :: 0 <= k < |steps| && steps[k] == LoseBlob(h)
  {
    var n := |steps| - 1;
    if steps[n] != LoseBlob(h) {
      LostByAStep(w, steps[..n], h);
      var k :| 0 <= k < n && steps[..n][k] == LoseBlob(h);
      assert steps[k] == LoseBlob(h);
    }
  }

  ghost predicate Forgets(w: System, step: Step, t: Task) {
    || step == LoseManifest(Uid(w.world, t))
    || (step.LoseBlob? && Names(CleanManifest(w.world, t), step.hash))
  }

  /** The action of a uid completes at most once as long as nobody loses its manifest or one of its blobs. */
  lemma CompletesAtMostOnce(w: System, steps: seq<Step>, i: nat, j: nat, x: Who, y: Who)
    requires Consistent(w) && Legal(w, steps) && i < j < |steps|
    requires steps[i] == Publish(x) && steps[j] == Publish(y) && UidOf(w, x) == UidOf(w, y)
    ensures exists k :: i < k < j && Forgets(w, steps[k], TaskOf(w, x))
  {
    hide Do, Enabled, Inv, Legal, After, Consistent, Forgets;
    AfterStep(w, steps, i);
    AfterStep(w, steps, j);
    AlwaysInv(w, steps[..i]);
    AlwaysInv(w, steps[..j]);
    PublishOnce(w, After(w, steps[..i]), x);
    PublishOnce(w, After(w, steps[..j]), y);
    StaysDone(w, steps, i, j, TaskOf(w, x));
  }

  lemma AfterStep(w: System, steps: seq<Step>, i: nat)
    requires Legal(w, steps) && i < |steps|
    ensures Legal(w, steps[..i]) && Enabled(w, After(w, steps[..i]), steps[i])
    ensures Legal(w, steps[..i + 1]) && After(w, steps[..i + 1]) == Do(w, After(w, steps[..i]), steps[i])
  {
    hide Do, Enabled;
    LegalPrefix(w, steps, i + 1);
    assert steps[..i + 1][..i] == steps[..i];
  }

  lemma PublishOnce(w: System, s: State, x: Who)
    requires Consistent(w) && Inv(w, s) && Enabled(w, s, Publish(x))
    ensures TaskOf(w, x) in w.world.universe && UidOf(w, x) !in s.done && UidOf(w, x) in Do(w, s, Publish(x)).done
  {
    assert WorkerOk(w, s, x);
  }

  lemma {:induction false} LegalPrefix(w: System, steps: seq<Step>, n: nat)
    requires Legal(w, steps) && n <= |steps|
    ensures Legal(w, steps[..n])
  {
    if n < |steps| {
      LegalPrefix(w, steps[..|steps| - 1], n);
      assert steps[..|steps| - 1][..n] == steps[..n];
    } else {
      assert steps[..n] == steps;
    }
  }

  lemma {:induction false} StaysDone(w: System, steps: seq<Step>, i: nat, j: nat, t: Task)
    requires Consistent(w) && Legal(w, steps) && i < j <= |steps| && t in w.world.universe
    requires Legal(w, steps[..i + 1]) && Uid(w.world, t) in After(w, steps[..i + 1]).done
    requires Legal(w, steps[..j])
    ensures Uid(w.world, t) in After(w, steps[..j]).done || exists k :: i < k < j && Forgets(w, steps[k], t)
    decreases j
  {
    hide Do, Enabled, Inv, Legal, After, Consistent, Forgets;
    if i + 1 < j {
      AfterStep(w, steps, j - 1);
      StaysDone(w, steps, i, j - 1, t);
      AlwaysInv(w, steps[..j - 1]);
      var s := After(w, steps[..j - 1]);
      if Uid(w.world, t) in s.done && !Forgets(w, steps[j - 1], t) {
        StepKeepsDone(w, s, steps[j - 1], t);
      }
    }
  }

  lemma StepKeepsDone(w: System, s: State, step: Step, t: Task)
    requires Inv(w, s) && Enabled(w, s, step) && t in w.world.universe && Uid(w.world, t) in s.done && !Forgets(w, step, t)
    ensures Uid(w.world, t) in Do(w, s, step).done
  {
  }

  // ---- Nobody waits for a lock in vain ----

  /** Whoever holds a lock is a live worker past `Flock`: a crash or an exception leaves no lock behind. */
  ghost predicate LocksOk(w: System, s: State) {
    forall u :: u in s.locks ==> LockOk(w, s, u)
  }

  ghost predicate LockOk(w: System, s: State, u: string)
    requires u in s.locks
  {
    s.locks[u] in s.workers && !s.workers[s.locks[u]].Waiting? && UidOf(w, s.locks[u]) == u
  }

  lemma StepKeepsLocks(w: System, s: State, step: Step)
    requires LocksOk(w, s) && Enabled(w, s, step)
    ensures LocksOk(w, Do(w, s, step))
  {
    hide Names, ReadTree, DepTrees, BlobsPresent, LockOk, UidOf;
    var s' := Do(w, s, step);
    forall u | u in s'.locks ensures LockOk(w, s', u) {
      assert u in s.locks ==> LockOk(w, s, u);
      StepKeepsLock(w, s, step, u);
    }
  }

  lemma StepKeepsLock(w: System, s: State, step: Step, u: string)
    requires Enabled(w, s, step) && u in Do(w, s, step).locks && (u in s.locks ==> LockOk(w, s, u))
    ensures LockOk(w, Do(w, s, step), u)
  {
    hide Names, ReadTree, DepTrees, BlobsPresent, UidOf;
  }

  lemma {:induction false} AlwaysLocks(w: System, steps: seq<Step>)
    requires Legal(w, steps)
    ensures LocksOk(w, After(w, steps))
  {
    if steps != [] {
      AlwaysLocks(w, steps[..|steps| - 1]);
      StepKeepsLocks(w, After(w, steps[..|steps| - 1]), steps[|steps| - 1]);
    }
  }

  /** The next regular step of a worker that is past the lock. */
  ghost predicate Proceeds(step: Step, x: Who) {
    (step.Hit? || step.Miss? || step.Act? || step.StoreFile? || step.Publish? || step.Finish?) && step.who == x
  }

  /** A waiting worker can take the lock, or the one who holds it can go on without failing. */
  lemma NoLockIsStuck(w: System, steps: seq<Step>, x: Who)
    requires Consistent(w) && Legal(w, steps)
    requires x in After(w, steps).workers && After(w, steps).workers[x].Waiting?
    ensures var s := After(w, steps);
      || Enabled(w, s, Acquire(x))
      || (UidOf(w, x) in s.locks && exists step :: Proceeds(step, s.locks[UidOf(w, x)]) && Enabled(w, s, step))
  {
    var s := After(w, steps);
    AlwaysLocks(w, steps);
    if UidOf(w, x) in s.locks {
      var y := s.locks[UidOf(w, x)];
      var step := NextStep(w, steps, y);
    }
  }

  lemma NextStep(w: System, steps: seq<Step>, y: Who) returns (step: Step)
    requires Consistent(w) && Legal(w, steps)
    requires y in After(w, steps).workers && !After(w, steps).workers[y].Waiting?
    ensures Proceeds(step, y) && Enabled(w, After(w, steps), step)
  {
    var s := After(w, steps);
    match s.workers[y]
    case Checking => step := if Loadable(s.store, UidOf(w, y)) then Hit(y) else Miss(y);
    case Acting =>
      ActionsFindTheirInputs(w, steps, y);
      step := Act(y);
    case Storing(tree, stored) =>
      AlwaysInv(w, steps);
      assert WorkerOk(w, s, y);
      if stored == tree.Keys {
        step := Publish(y);
      } else {
        var name :| name in tree && name !in stored;
        step := StoreFile(y, name);
      }
    case Published(_) => step := Finish(y);
  }
}
