/** One run of the scheduler as steps of the cache protocol (bin/cargo/tasks.go:105-269). */
module BuildRun {
  import opened Results
  import opened Scheduler
  import opened TaskProtocol
  import TaskGraph
  import TaskPriority
  import TaskCache

  /** A step of anybody, or an event of the scheduler of our process and what it does to the store. */
  datatype Move =
    | Other(step: Step)
    | Launch(task: TaskGraph.Task)
    | Succeed(task: TaskGraph.Task)
    | Break(task: TaskGraph.Task, error: Error)

  datatype Build = Build(history: History, state: State)

  /** The process that runs the plan. */
  datatype Process = Process(system: System, pid: Pid, plan: Plan) {
    function Worker(t: TaskGraph.Task): Who { Who(pid, t) }

    /** Its tasks depend on each other as the plan says. */
    ghost predicate Valid() {
      && Consistent(system) && plan.Valid()
      && forall t {:trigger Worker(t)} :: t in plan.list ==>
           TaskOf(system, Worker(t)) in system.world.universe && system.node(Worker(t)).deps == plan.deps[t]
    }

    /** A step that is not the scheduler's to take: a step of another process, or one inside `execute`. */
    ghost predicate IsOther(step: Step) {
      match step
      case Spawn(p) => p != pid
      case Scan(x) => x.pid != pid
      case BeginRun(p) => p != pid
      case Begin(x) => x.pid != pid
      case Hit(x) => x.pid != pid
      case Finish(x) => x.pid != pid
      case Fail(x) => x.pid != pid
      case Crash(p) => p != pid
      case _ => true
    }

    /** What a start needs of the store when nothing is asked about dependencies: `execute` of a task whose
        result is known from the first scan returns at once, any other begins. */
    ghost predicate Launches(s: State, t: TaskGraph.Task, s': State) {
      if Worker(t) in s.known then s' == s
      else s' == SetWorker(s, Worker(t), Waiting)
    }

    /** A success is that of a task known from the scan, or the last step of its worker. */
    ghost predicate Succeeds(s: State, t: TaskGraph.Task, s': State) {
      var x := Worker(t);
      if x !in s.workers then s' == s
      else exists step {:trigger Enabled(system, s, step)} ::
        (step == Hit(x) || step == Step.Finish(x)) && Enabled(system, s, step) && s' == Do(system, s, step)
    }

    ghost predicate Breaks(s: State, t: TaskGraph.Task, s': State) {
      var x := Worker(t);
      if x !in s.workers then s' == s else s' == Do(system, s, Fail(x))
    }

    ghost predicate Moves(b: Build, move: Move, b': Build) {
      match move
      case Other(step) => IsOther(step) && Enabled(system, b.state, step) && b' == Build(b.history, Do(system, b.state, step))
      case Launch(t) =>
        plan.Allowed(Replay(b.history), Start(t)) && b'.history == b.history + [Start(t)] && Launches(b.state, t, b'.state)
      case Succeed(t) =>
        plan.Allowed(Replay(b.history), Event.Finish(t, None)) && b'.history == b.history + [Event.Finish(t, None)]
        && Succeeds(b.state, t, b'.state)
      case Break(t, error) =>
        plan.Allowed(Replay(b.history), Event.Finish(t, Some(error))) && b'.history == b.history + [Event.Finish(t, Some(error))]
        && Breaks(b.state, t, b'.state)
    }

    /** The build begins in any state the shared directory may be in, after the first scan. */
    ghost predicate Starts(b: Build) {
      && b.history == [] && Reached(system, b.state) && pid in b.state.live && pid !in b.state.scanning
      && forall x {:trigger x in b.state.workers} :: x in b.state.workers ==> x.pid != pid
    }

    ghost predicate IsBuild(builds: seq<Build>, moves: seq<Move>) {
      && |builds| == |moves| + 1 && Starts(builds[0])
      && forall i {:trigger moves[i]} :: 0 <= i < |moves| ==> Moves(builds[i], moves[i], builds[i + 1])
    }
  }

  /** Some run of the protocol from the empty directory leads to the state. */
  ghost predicate Reached(w: System, s: State) { exists steps {:trigger Legal(w, steps)} :: Legal(w, steps) && After(w, steps) == s }

  lemma ReachOn(w: System, s: State, step: Step)
    requires Reached(w, s) && Enabled(w, s, step)
    ensures Reached(w, Do(w, s, step))
  {
    hide Do, Enabled;
    var steps :| Legal(w, steps) && After(w, steps) == s;
    var more := steps + [step];
    assert more[..|more| - 1] == steps;
    assert Legal(w, more) && After(w, more) == Do(w, s, step);
  }

  // ---- What a build keeps ----

  /** Successes are known, and what runs has a worker or is known. */
  ghost predicate InStep(o: Process, b: Build) {
    var p := Replay(b.history);
    && o.plan.Legal(b.history) && Reached(o.system, b.state)
    && o.pid in b.state.live && o.pid !in b.state.scanning
    && (forall t {:trigger t in p.succeeded} :: t in p.succeeded ==> o.Worker(t) in b.state.known)
    && (forall x {:trigger x in b.state.workers} :: x in b.state.workers && x.pid == o.pid ==> x.node in p.Running())
    && forall t {:trigger t in p.started} :: t in p.Running() ==> o.Worker(t) in b.state.known || o.Worker(t) in b.state.workers
  }

  /** The results of the process and its workers are where they were. */
  ghost predicate Untouched(o: Process, s: State, s': State) {
    && o.pid in s'.live && o.pid !in s'.scanning
    && (forall x: Who {:trigger x in s'.known} :: x.pid == o.pid && x in s.known ==> x in s'.known)
    && forall x: Who {:trigger x in s'.workers} :: x.pid == o.pid ==> (x in s'.workers <==> x in s.workers)
  }

  lemma OtherUntouched(o: Process, s: State, step: Step)
    requires o.IsOther(step) && Enabled(o.system, s, step) && o.pid in s.live && o.pid !in s.scanning
    ensures Untouched(o, s, Do(o.system, s, step))
  {
    hide DepTrees, DepsReadable, TaskCache.ReadTree, Names, TaskCache.BlobsPresent, TaskCache.Loadable;
  }

  /** When the scheduler starts a task, the results of its dependencies are known: what `execute` may assume
      of its dependencies holds. */
  lemma LaunchMayBegin(o: Process, b: Build, t: TaskGraph.Task)
    requires o.Valid() && InStep(o, b) && o.plan.Allowed(Replay(b.history), Start(t)) && o.Worker(t) !in b.state.known
    ensures Enabled(o.system, b.state, Begin(o.Worker(t)))
  {
    hide Consistent, Reached;
    var x, p := o.Worker(t), Replay(b.history);
    assert o.plan.IsReady(p, t);
    LegalIsSane(o.plan, b.history);
    ListedTask(o, t);
    forall d | d in DepsOf(o.system, x) ensures d in b.state.known {
      var i :| 0 <= i < |DepsOf(o.system, x)| && DepsOf(o.system, x)[i] == d;
      var dep := o.plan.deps[t][i];
      assert dep in TaskPriority.Lookup(o.plan.deps, t);
      assert dep in p.succeeded && d == o.Worker(dep);
    }
  }

  lemma ListedTask(o: Process, t: TaskGraph.Task)
    requires o.Valid() && t in o.plan.list
    ensures t in o.plan.deps && TaskOf(o.system, o.Worker(t)) in o.system.world.universe
    ensures o.system.node(o.Worker(t)).deps == o.plan.deps[t]
  {
    hide Consistent;
    var i :| 0 <= i < |o.plan.list| && o.plan.list[i] == t;
  }

  lemma MoveKeepsStep(o: Process, b: Build, move: Move, b': Build)
    requires o.Valid() && InStep(o, b) && o.Moves(b, move, b')
    ensures InStep(o, b')
  {
    hide Consistent, Reached, Enabled, Do;
    match move
    case Other(step) =>
      OtherUntouched(o, b.state, step);
      ReachOn(o.system, b.state, step);
      UntouchedKeepsStep(o, b, b'.state);
    case Launch(t) => LaunchKeepsStep(o, b, t, b');
    case Succeed(t) => AnswerKeepsStep(o, b, t, None, b');
    case Break(t, error) => AnswerKeepsStep(o, b, t, Some(error), b');
  }

  lemma LaunchKeepsStep(o: Process, b: Build, t: TaskGraph.Task, b': Build)
    requires o.Valid() && InStep(o, b) && o.Moves(b, Launch(t), b')
    ensures InStep(o, b')
  {
    hide Consistent, Reached, Enabled, Replay;
    LegalAppend(o.plan, b.history, Start(t));
    if o.Worker(t) !in b.state.known {
      LaunchMayBegin(o, b, t);
      ReachOn(o.system, b.state, Begin(o.Worker(t)));
    }
  }

  lemma UntouchedKeepsStep(o: Process, b: Build, s': State)
    requires InStep(o, b) && Untouched(o, b.state, s') && Reached(o.system, s')
    ensures InStep(o, Build(b.history, s'))
  {
    hide Reached, Replay;
    forall t | t in Replay(b.history).Running() ensures o.Worker(t) in s'.known || o.Worker(t) in s'.workers {
      assert t in Replay(b.history).started;
      assert o.Worker(t).pid == o.pid;
    }
    forall t | t in Replay(b.history).succeeded ensures o.Worker(t) in s'.known {
      assert o.Worker(t).pid == o.pid;
    }
  }

  /** The worker of an answered task is gone, and after a success its result is known. */
  ghost predicate Answered(o: Process, s: State, t: TaskGraph.Task, success: bool, s': State) {
    && s'.live == s.live && s'.scanning == s.scanning
    && (forall x: Who {:trigger x in s'.known} :: x in s.known ==> x in s'.known)
    && (forall x: Who {:trigger x in s'.workers} :: x in s'.workers <==> x in s.workers && x != o.Worker(t))
    && (success ==> o.Worker(t) in s'.known)
  }

  lemma WorkerAnswers(o: Process, s: State, t: TaskGraph.Task, step: Step)
    requires Enabled(o.system, s, step)
    requires step == Hit(o.Worker(t)) || step == Step.Finish(o.Worker(t)) || step == Fail(o.Worker(t))
    ensures Answered(o, s, t, !step.Fail?, Do(o.system, s, step))
  {
    hide TaskCache.Loadable;
  }

  lemma AnswerKeepsStep(o: Process, b: Build, t: TaskGraph.Task, error: Option<Error>, b': Build)
    requires o.Valid() && InStep(o, b) && o.Moves(b, if error.None? then Succeed(t) else Break(t, error.value), b')
    ensures InStep(o, b')
  {
    hide Consistent, Reached, Do, Replay;
    var e := Event.Finish(t, error);
    LegalAppend(o.plan, b.history, e);
    StepRunning(Replay(b.history), e);
    AnswerIsStep(o, b, t, error, b');
    hide Enabled;
    AnsweredKeepsStep(o, b, t, error, b');
  }

  lemma AnswerIsStep(o: Process, b: Build, t: TaskGraph.Task, error: Option<Error>, b': Build)
    requires o.Valid() && InStep(o, b) && o.Moves(b, if error.None? then Succeed(t) else Break(t, error.value), b')
    ensures Answered(o, b.state, t, error.None?, b'.state) && Reached(o.system, b'.state)
  {
    hide Consistent, Reached, Do, Replay;
    if o.Worker(t) in b.state.workers {
      var step := if error.Some? then Fail(o.Worker(t)) else
        var step :| (step == Hit(o.Worker(t)) || step == Step.Finish(o.Worker(t))) && Enabled(o.system, b.state, step)
                    && b'.state == Do(o.system, b.state, step);
        step;
      WorkerAnswers(o, b.state, t, step);
      ReachOn(o.system, b.state, step);
    }
  }

  lemma AnsweredKeepsStep(o: Process, b: Build, t: TaskGraph.Task, error: Option<Error>, b': Build)
    requires InStep(o, b) && t in Replay(b.history).Running() && Answered(o, b.state, t, error.None?, b'.state)
    requires o.plan.Legal(b'.history) && Reached(o.system, b'.state)
    requires Replay(b'.history) == Apply(Replay(b.history), Event.Finish(t, error))
    ensures InStep(o, b')
  {
    hide Reached, Replay;
    var p, p' := Replay(b.history), Replay(b'.history);
    assert forall u :: u in p'.Running() ==> u in p.Running() && u != t;
    assert p'.started == p.started;
    forall u | u in p'.Running() ensures o.Worker(u) in b'.state.known || o.Worker(u) in b'.state.workers {
      assert o.Worker(u) != o.Worker(t);
    }
    forall x | x in b'.state.workers && x.pid == o.pid ensures x.node in p'.Running() {
      assert x in b.state.workers && x != o.Worker(t);
      assert x == Who(o.pid, x.node);
    }
  }

  lemma {:induction false} BuildInStep(o: Process, builds: seq<Build>, moves: seq<Move>)
    requires o.Valid() && o.IsBuild(builds, moves)
    ensures InStep(o, builds[|builds| - 1])
  {
    hide InStep;
    if moves == [] {
      StartsInStep(o, builds[0]);
    } else {
      var n := |moves| - 1;
      assert o.IsBuild(builds[..n + 1], moves[..n]) by {
        assert forall i :: 0 <= i < n ==> moves[..n][i] == moves[i];
      }
      BuildInStep(o, builds[..n + 1], moves[..n]);
      assert o.Moves(builds[n], moves[n], builds[n + 1]);
      MoveKeepsStep(o, builds[n], moves[n], builds[n + 1]);
    }
  }

  lemma StartsInStep(o: Process, b: Build)
    requires o.Starts(b)
    ensures InStep(o, b)
  {
    hide Reached;
    assert Replay([]).Running() == {};
  }

  /** At any moment of a build, whatever other processes do and whatever happened to the directory before:
      every task that succeeded has its clean manifest. So a build that finishes leaves every task reachable
      from its roots with the manifest of a build on an empty store. */
  lemma BuildIsClean(o: Process, builds: seq<Build>, moves: seq<Move>)
    requires o.Valid() && o.IsBuild(builds, moves)
    ensures var b := builds[|builds| - 1]; var p := Replay(b.history);
      && o.plan.Legal(b.history)
      && (forall t :: t in p.succeeded ==> o.Worker(t) in b.state.known && b.state.known[o.Worker(t)] == Clean(o.system, o.Worker(t)))
      && (p.succeeded == TaskGraph.Elements(o.plan.list) ==>
            forall t :: t in o.plan.list ==> o.Worker(t) in b.state.known && b.state.known[o.Worker(t)] == Clean(o.system, o.Worker(t)))
  {
    hide Legal, After, Consistent, Clean, Inv;
    BuildInStep(o, builds, moves);
    var b := builds[|builds| - 1];
    var steps :| Legal(o.system, steps) && After(o.system, steps) == b.state;
    forall t | t in Replay(b.history).succeeded ensures b.state.known[o.Worker(t)] == Clean(o.system, o.Worker(t)) {
      KnownIsClean(o.system, steps, o.Worker(t));
    }
  }
}
