/** `TaskExecutor.run` (bin/cargo/tasks.go), as the history of starts and received results of a run. */
module Scheduler {
  import opened Results
  import opened TaskGraph
  import opened TaskPriority
  import Text

  // Which running task answers next, and whether it failed, is up to the environment: what holds for
  // every legal history holds for every order of completions.

  type Error = string

  datatype Event = Start(task: Task) | Finish(task: Task, error: Option<Error>)

  type History = seq<Event>

  /** What a history amounts to. `first` is the first error received. */
  datatype Progress = Progress(started: set<Task>, succeeded: set<Task>, failed: set<Task>, first: Option<Error>) {
    ghost function Running(): set<Task> {
      set t | t in started && t !in succeeded && t !in failed
    }
  }

  ghost function Apply(p: Progress, e: Event): Progress {
    match e
    case Start(t) => p.(started := p.started + {t})
    case Finish(t, None) => p.(succeeded := p.succeeded + {t})
    case Finish(t, Some(error)) =>
      p.(failed := p.failed + {t}, first := if p.first.None? then Some(error) else p.first)
  }

  ghost function Replay(h: History): Progress {
    if h == [] then Progress({}, {}, {}, None) else Apply(Replay(h[..|h| - 1]), h[|h| - 1])
  }

  /** The fixed data of a run. */
  datatype Plan = Plan(deps: Graph, list: seq<Task>, jobs: nat, priority: map<Task, nat>, key: Task -> string) {
    ghost predicate Valid() {
      && Closed(deps) && NoRepeats(list) && DepsFirst(deps, list)
      && jobs >= 1
      && priority == Priorities(deps, list)
    }

    /** Not started, and every dependency has succeeded. */
    ghost predicate IsReady(p: Progress, t: Task)
    {
      t in list && t !in p.started && forall d :: d in Lookup(deps, t) ==> d in p.succeeded
    }

    ghost function ReadySet(p: Progress): set<Task>
    {
      set t | t in list && IsReady(p, t)
    }

    /** What may happen next: a ready task of the highest precedence starts while no result was an
        error and a slot is free; a running task answers, but only when nothing more can be started. */
    ghost predicate Allowed(p: Progress, e: Event)
    {
      match e
      case Start(t) =>
        && p.failed == {} && |p.Running()| < jobs
        && IsReady(p, t)
        && forall u {:trigger IsReady(p, u)} :: IsReady(p, u) ==> !Precedes(priority, key, u, t)
      case Finish(t, _) =>
        && t in p.Running()
        && (p.failed != {} || |p.Running()| >= jobs || ReadySet(p) == {})
    }

    /** Event `i` of the history was allowed when it happened. */
    ghost predicate AllowedAt(h: History, i: nat)
      requires i < |h|
    {
      Allowed(Replay(h[..i]), h[i])
    }

    ghost predicate Legal(h: History) {
      forall i :: 0 <= i < |h| ==> AllowedAt(h, i)
    }
  }

  lemma LegalAppend(plan: Plan, h: History, e: Event)
    requires plan.Legal(h) && plan.Allowed(Replay(h), e)
    ensures plan.Legal(h + [e]) && Replay(h + [e]) == Apply(Replay(h), e)
  {
    var g := h + [e];
    assert g[..|h|] == h;
    forall i | 0 <= i < |g| ensures plan.AllowedAt(g, i) {
      if i < |h| {
        assert plan.AllowedAt(h, i);
        assert g[..i] == h[..i] && g[i] == h[i];
      }
    }
  }

  lemma LegalPrefix(plan: Plan, h: History, n: nat)
    requires plan.Legal(h) && n <= |h|
    ensures plan.Legal(h[..n])
  {
    forall i | 0 <= i < n ensures plan.AllowedAt(h[..n], i) {
      assert plan.AllowedAt(h, i);
      assert h[..n][..i] == h[..i] && h[..n][i] == h[i];
    }
  }

  // ---- What every step keeps ----

  /** Only listed tasks start, after their dependencies; a result comes once and only from a started task. */
  ghost predicate Sane(plan: Plan, p: Progress) {
    && (forall t :: t in p.started ==> t in plan.list)
    && (forall t, d {:trigger d in Lookup(plan.deps, t)} :: t in p.started && d in Lookup(plan.deps, t) ==> d in p.succeeded)
    && p.succeeded <= p.started && p.failed <= p.started && p.succeeded !! p.failed
    && |p.Running()| <= plan.jobs
    && (p.failed == {} <==> p.first == None)
  }

  lemma StepRunning(p: Progress, e: Event)
    requires e.Start? ==> e.task !in p.started && p.succeeded <= p.started && p.failed <= p.started
    requires e.Finish? ==> e.task in p.Running()
    ensures e.Start? ==> Apply(p, e).Running() == p.Running() + {e.task} && |Apply(p, e).Running()| == |p.Running()| + 1
    ensures e.Finish? ==> Apply(p, e).Running() == p.Running() - {e.task} && |Apply(p, e).Running()| == |p.Running()| - 1
  {
    if e.Start? {
      assert Apply(p, e).Running() == p.Running() + {e.task};
    } else {
      assert Apply(p, e).Running() == p.Running() - {e.task};
    }
  }

  lemma StepKeepsSane(plan: Plan, p: Progress, e: Event)
    requires Sane(plan, p) && plan.Allowed(p, e)
    ensures Sane(plan, Apply(p, e))
  {
    StepRunning(p, e);
    if e.Start? {
      StartKeepsDependencies(plan, p, e.task);
    }
  }

  lemma StartKeepsDependencies(plan: Plan, p: Progress, t: Task)
    requires Sane(plan, p) && plan.IsReady(p, t)
    ensures forall u, d {:trigger d in Lookup(plan.deps, u)} ::
              u in p.started + {t} && d in Lookup(plan.deps, u) ==> d in p.succeeded
  {
  }

  lemma {:induction false} LegalIsSane(plan: Plan, h: History)
    requires plan.Legal(h)
    ensures Sane(plan, Replay(h))
  {
    if h != [] {
      var n := |h| - 1;
      LegalPrefix(plan, h, n);
      LegalIsSane(plan, h[..n]);
      assert plan.AllowedAt(h, n);
      StepKeepsSane(plan, Replay(h[..n]), h[n]);
    } else {
      assert Replay(h).Running() == {};
    }
  }

  // ---- Safety of every history ----

  lemma {:induction false} ReplayRecords(h: History, t: Task)
    ensures t in Replay(h).started <==> exists i :: 0 <= i < |h| && h[i] == Start(t)
    ensures t in Replay(h).succeeded <==> exists i :: 0 <= i < |h| && h[i] == Finish(t, None)
    ensures t in Replay(h).failed <==> exists i :: 0 <= i < |h| && h[i].Finish? && h[i].task == t && h[i].error.Some?
  {
    if h != [] {
      var n := |h| - 1;
      ReplayRecords(h[..n], t);
      assert forall i :: 0 <= i < n ==> h[i] == h[..n][i];
    }
  }

  /** No task starts twice. */
  lemma StartsOnce(plan: Plan, h: History, i: nat, j: nat)
    requires plan.Legal(h) && i < j < |h| && h[i].Start? && h[j].Start?
    ensures h[i].task != h[j].task
  {
    ReplayRecords(h[..j], h[i].task);
    assert h[..j][i] == h[i];
    assert plan.AllowedAt(h, j);
  }

  /** A task starts only after every one of its dependencies has succeeded. */
  lemma DependenciesSucceedFirst(plan: Plan, h: History, j: nat, d: Task)
    requires plan.Legal(h) && j < |h| && h[j].Start? && d in Lookup(plan.deps, h[j].task)
    ensures exists i :: 0 <= i < j && h[i] == Finish(d, None)
  {
    assert plan.AllowedAt(h, j);
    ReplayRecords(h[..j], d);
    var i :| 0 <= i < j && h[..j][i] == Finish(d, None);
    assert h[i] == Finish(d, None);
  }

  /** At no point do more than `jobs` tasks run. */
  lemma NeverMoreThanJobs(plan: Plan, h: History, n: nat)
    requires plan.Legal(h) && n <= |h|
    ensures |Replay(h[..n]).Running()| <= plan.jobs
  {
    LegalPrefix(plan, h, n);
    LegalIsSane(plan, h[..n]);
  }

  /** Once an error has come back nothing starts any more. */
  lemma NothingStartsAfterAnError(plan: Plan, h: History, i: nat, j: nat)
    requires plan.Legal(h) && i < j < |h| && h[i].Finish? && h[i].error.Some?
    ensures h[j].Finish?
  {
    ReplayRecords(h[..j], h[i].task);
    assert h[..j][i] == h[i];
    assert plan.AllowedAt(h, j);
  }

  ghost predicate IsError(e: Event) { e.Finish? && e.error.Some? }

  /** The error a history reports is the earliest one received. */
  lemma {:induction false} FirstErrorIsEarliest(h: History)
    ensures Replay(h).first.Some? <==> exists i :: 0 <= i < |h| && IsError(h[i])
    ensures Replay(h).first.Some? ==>
      exists i :: 0 <= i < |h| && IsError(h[i]) && h[i].error == Replay(h).first && forall j :: 0 <= j < i ==> !IsError(h[j])
  {
    if h != [] {
      var n := |h| - 1;
      FirstErrorIsEarliest(h[..n]);
      assert forall i :: 0 <= i < n ==> h[i] == h[..n][i];
      if Replay(h[..n]).first.Some? {
        var i :| 0 <= i < n && IsError(h[..n][i]) && h[..n][i].error == Replay(h[..n]).first
          && forall j :: 0 <= j < i ==> !IsError(h[..n][j]);
        assert IsError(h[i]) && h[i].error == Replay(h).first && forall j :: 0 <= j < i ==> !IsError(h[j]);
      } else if IsError(h[n]) {
        assert forall j :: 0 <= j < n ==> !IsError(h[j]);
      }
    }
  }

  /** Every task that starts precedes, or ties with, every other task that could start. */
  lemma StartsTheFirstInOrder(plan: Plan, h: History, j: nat, u: Task)
    requires plan.Legal(h) && j < |h| && h[j].Start?
    requires u in plan.ReadySet(Replay(h[..j]))
    ensures Rank(plan.priority, u) <= Rank(plan.priority, h[j].task)
  {
    assert plan.AllowedAt(h, j);
  }

  /** Every task that starts has at least as many tasks waiting for it, directly or not, as any other task
      that could start instead; and among those with the same number none has an earlier key. */
  lemma StartsTheMostNeeded(plan: Plan, h: History, j: nat, u: Task)
    requires plan.Valid() && plan.Legal(h) && j < |h| && h[j].Start?
    requires u in plan.list && (forall i :: 0 <= i < j ==> h[i] != Start(u))
    requires forall d :: d in plan.deps[u] ==> exists i :: 0 <= i < j && h[i] == Finish(d, None)
    ensures var t := h[j].task;
      var waiting := (set w | w in plan.list && DependsOn(plan.deps, w, u));
      var waiting' := (set w | w in plan.list && DependsOn(plan.deps, w, t));
      |waiting| <= |waiting'| && (|waiting| == |waiting'| ==> !Text.Earlier(plan.key(u), plan.key(t)))
  {
    var t := h[j].task;
    assert plan.AllowedAt(h, j);
    IsReadyThen(plan, h, j, u);
    Text.CompareExactly(plan.key(u), plan.key(t));
    assert Waiting(plan.deps, plan.list, u) == (set w | w in plan.list && DependsOn(plan.deps, w, u));
    assert Waiting(plan.deps, plan.list, t) == (set w | w in plan.list && DependsOn(plan.deps, w, t));
  }

  lemma IsReadyThen(plan: Plan, h: History, j: nat, u: Task)
    requires plan.Valid() && j <= |h| && u in plan.list && (forall i :: 0 <= i < j ==> h[i] != Start(u))
    requires forall d :: d in plan.deps[u] ==> exists i :: 0 <= i < j && h[i] == Finish(d, None)
    ensures plan.IsReady(Replay(h[..j]), u)
  {
    ReplayRecords(h[..j], u);
    forall d | d in Lookup(plan.deps, u) ensures d in Replay(h[..j]).succeeded {
      ReplayRecords(h[..j], d);
      var i :| 0 <= i < j && h[i] == Finish(d, None);
      assert h[..j][i] == h[i];
    }
  }

  /** A result is waited for only with all slots taken, after an error, or when nothing else could start. */
  lemma SlotsAreUsed(plan: Plan, h: History, j: nat, u: Task)
    requires plan.Valid() && plan.Legal(h) && j < |h| && h[j].Finish?
    requires u in plan.list && (forall i :: 0 <= i < j ==> h[i] != Start(u))
    requires forall d :: d in plan.deps[u] ==> exists i :: 0 <= i < j && h[i] == Finish(d, None)
    ensures (exists i :: 0 <= i < j && IsError(h[i])) || |Replay(h[..j]).Running()| == plan.jobs
  {
    assert plan.AllowedAt(h, j);
    IsReadyThen(plan, h, j, u);
    NeverMoreThanJobs(plan, h, j);
    var p := Replay(h[..j]);
    assert u in plan.ReadySet(p);
    if t :| t in p.failed {
      ReplayRecords(h[..j], t);
      var i :| 0 <= i < j && h[..j][i].Finish? && h[..j][i].error.Some?;
      assert IsError(h[i]);
    }
  }

  /** While no error came back and work is left, something runs or can start: `run` never deadlocks. */
  lemma NeverStuck(plan: Plan, p: Progress)
    requires plan.Valid() && Sane(plan, p) && p.failed == {} && p.Running() == {}
    requires exists t :: t in plan.list && t !in p.succeeded
    ensures plan.ReadySet(p) != {}
  {
    var t :| t in plan.list && t !in p.succeeded;
    var i :| 0 <= i < |plan.list| && plan.list[i] == t;
    var k := FirstUnfinished(plan.list, p.succeeded, i);
    assert plan.list[k] in plan.deps;
    assert forall u :: u in p.started ==> u in p.Running() || u in p.succeeded;
    assert plan.IsReady(p, plan.list[k]);
  }

  lemma {:induction false} FirstUnfinished(list: seq<Task>, done: set<Task>, i: nat) returns (k: nat)
    requires i < |list| && list[i] !in done
    ensures k <= i && list[k] !in done && forall n :: 0 <= n < k ==> list[n] in done
  {
    if j :| 0 <= j < i && list[j] !in done {
      k := FirstUnfinished(list, done, j);
    } else {
      k := i;
    }
  }

  // ---- The method ----

  datatype Outcome = NoResult(task: Task) | Deadlock(completed: nat, total: nat) | Failed(error: Error) | Finished

  /** How many entries of `list` are not yet done. */
  ghost function Left(list: seq<Task>, done: set<Task>): nat {
    if list == [] then 0
    else Left(list[..|list| - 1], done) + (if list[|list| - 1] in done then 0 else 1)
  }

  lemma {:induction false} LeftAfter(list: seq<Task>, done: set<Task>, t: Task)
    requires t !in done
    ensures Left(list, done + {t}) == Left(list, done) - Count(list, t)
  {
    if list != [] {
      LeftAfter(list[..|list| - 1], done, t);
    }
  }

  lemma {:induction false} LeftZero(list: seq<Task>, done: set<Task>)
    ensures Left(list, done) == 0 <==> forall d :: d in list ==> d in done
    ensures done == {} ==> Left(list, done) == |list|
  {
    if list != [] {
      LeftZero(list[..|list| - 1], done);
      assert list == list[..|list| - 1] + [list[|list| - 1]];
    }
  }

  lemma {:induction false} CountOfPrefix(list: seq<Task>, k: nat, t: Task)
    requires k <= |list|
    ensures Count(list[..k], t) <= Count(list, t)
    ensures k < |list| && list[k] == t ==> Count(list[..k], t) < Count(list, t)
    decreases |list| - k
  {
    if k < |list| {
      assert list[..k + 1][..k] == list[..k];
      CountOfPrefix(list, k + 1, t);
    } else {
      assert list[..k] == list;
    }
  }

  /** `after` is `before` less one for every occurrence in `finished`. */
  ghost predicate CountedDown(list: seq<Task>, before: map<Task, nat>, after: map<Task, nat>, finished: seq<Task>) {
    && before.Keys == after.Keys
    && forall u {:trigger after[u]} {:trigger before[u]} :: u in list ==>
         u in before && after[u] + Count(finished, u) == before[u]
  }

  lemma CountDownOne(list: seq<Task>, before: map<Task, nat>, after: map<Task, nat>, nexts: seq<Task>, i: nat)
    requires i < |nexts| && nexts[i] in list && CountedDown(list, before, after, nexts[..i])
    requires forall u :: u in list && u in before ==> Count(nexts, u) <= before[u]
    ensures nexts[i] in after && after[nexts[i]] > 0
    ensures CountedDown(list, before, after[nexts[i] := after[nexts[i]] - 1], nexts[..i + 1])
  {
    hide Count;
    var finished, next := nexts[..i], nexts[i];
    CountOfPrefix(nexts, i, next);
    assert nexts[..i + 1] == finished + [next];
    CountAppend(finished, next, next);
    assert next in before && Count(nexts[..i + 1], next) <= Count(nexts, next);
    CountDownStep(list, before, after, finished, next);
  }

  lemma CountDownStep(list: seq<Task>, before: map<Task, nat>, after: map<Task, nat>, finished: seq<Task>, next: Task)
    requires next in list && CountedDown(list, before, after, finished) && next in after && after[next] > 0
    ensures CountedDown(list, before, after[next := after[next] - 1], finished + [next])
  {
    hide Count;
    var after' := after[next := after[next] - 1];
    forall u | u in list ensures u in before && after'[u] + Count(finished + [next], u) == before[u] {
      CountAppend(finished, next, u);
      CountedAt(list, before, after, finished, u);
    }
  }

  lemma CountedAt(list: seq<Task>, before: map<Task, nat>, after: map<Task, nat>, finished: seq<Task>, u: Task)
    requires u in list && CountedDown(list, before, after, finished)
    ensures u in before && u in after && after[u] + Count(finished, u) == before[u]
  {
    hide Count;
  }

  lemma LeftAfterRelease(plan: Plan, dependents: Dependents, task: Task, pending: map<Task, nat>, done: set<Task>)
    requires forall u :: u in plan.list ==> u in plan.deps
    requires IsIndex(plan.deps, plan.list, dependents) && task !in done
    requires IsPending(plan, pending, done)
    ensures forall u :: u in plan.list ==>
      Left(plan.deps[u], done + {task}) + Count(Lookup(dependents, task), u) == pending[u]
    ensures forall u :: u in Lookup(dependents, task) ==> u in plan.list
  {
    IndexMembers(plan.deps, plan.list, dependents, task);
    forall u | u in plan.list
      ensures Left(plan.deps[u], done + {task}) + Count(Lookup(dependents, task), u) == pending[u]
    {
      LeftAfter(plan.deps[u], done, task);
    }
  }

  ghost predicate IsPending(plan: Plan, pending: map<Task, nat>, done: set<Task>) {
    && pending.Keys == Elements(plan.list)
    && forall u :: u in plan.list ==> u in plan.deps && pending[u] == Left(plan.deps[u], done)
  }

  /** The loop that hands a success on to the dependents: a task whose last missing dependency it was
      is appended to the ready list, once. */
  method Release(list: seq<Task>, nexts: seq<Task>, pending: map<Task, nat>, ready: seq<Task>)
    returns (pending': map<Task, nat>, ready': seq<Task>, ghost added: set<Task>)
    requires forall u :: u in nexts ==> u in list
    requires forall u :: u in list ==> u in pending && Count(nexts, u) <= pending[u]
    ensures CountedDown(list, pending, pending', nexts)
    ensures multiset(ready') == multiset(ready) + multiset(added)
    ensures forall u {:trigger u in added} :: u in added <==> u in list && pending[u] > 0 && pending'[u] == 0
  {
    pending', ready', added := pending, ready, {};
    for i := 0 to |nexts|
      invariant CountedDown(list, pending, pending', nexts[..i])
      invariant multiset(ready') == multiset(ready) + multiset(added)
      invariant forall u {:trigger u in added} :: u in added <==> u in list && pending[u] > 0 && pending'[u] == 0
    {
      var next := nexts[i];
      assert next in list;
      CountDownOne(list, pending, pending', nexts, i);
      pending' := pending'[next := pending'[next] - 1];
      if pending'[next] == 0 {
        ready' := ready' + [next];
        added := added + {next};
      }
    }
    assert nexts[..|nexts|] == nexts;
  }

  /** The counters and the ready list agree with what has happened. */
  ghost predicate Tracks(plan: Plan, p: Progress, pending: map<Task, nat>, ready: seq<Task>) {
    && IsPending(plan, pending, p.succeeded)
    && multiset(ready) == multiset(plan.ReadySet(p))
    && Sorted(plan.priority, plan.key, ready)
  }

  lemma HeadMayStart(plan: Plan, p: Progress, pending: map<Task, nat>, ready: seq<Task>)
    requires Tracks(plan, p, pending, ready) && ready != []
    requires p.failed == {} && |p.Running()| < plan.jobs
    ensures plan.Allowed(p, Start(ready[0]))
    ensures Tracks(plan, Apply(p, Start(ready[0])), pending, ready[1..])
  {
    var t := ready[0];
    assert t in multiset(ready);
    forall u | plan.IsReady(p, u) ensures !Precedes(plan.priority, plan.key, u, t) {
      assert u in plan.ReadySet(p);
      assert u in multiset(ready);
      var i :| 0 <= i < |ready| && ready[i] == u;
      Text.CompareAntisymmetric(plan.key(t), plan.key(t));
    }
    HeadLeaves(plan.ReadySet(p), ready);
    assert plan.ReadySet(Apply(p, Start(t))) == plan.ReadySet(p) - {t};
  }

  lemma HeadLeaves(s: set<Task>, ready: seq<Task>)
    requires multiset(ready) == multiset(s) && ready != []
    ensures multiset(ready[1..]) == multiset(s - {ready[0]})
  {
    assert ready == [ready[0]] + ready[1..];
    assert ready[0] in multiset(ready);
    forall x ensures multiset(ready[1..])[x] == multiset(s - {ready[0]})[x] {
      assert multiset(ready)[x] == multiset(s)[x];
    }
  }

  lemma ReadyAfterSuccess(plan: Plan, p: Progress, task: Task, before: map<Task, nat>, after: map<Task, nat>,
                          added: set<Task>)
    requires Sane(plan, p) && task in p.Running()
    requires IsPending(plan, before, p.succeeded) && IsPending(plan, after, p.succeeded + {task})
    requires forall u :: u in added <==> u in plan.list && before[u] > 0 && after[u] == 0
    ensures plan.ReadySet(Apply(p, Finish(task, None))) == plan.ReadySet(p) + added
    ensures plan.ReadySet(p) !! added
  {
    var q := Apply(p, Finish(task, None));
    forall u | u in plan.list
      ensures u in plan.ReadySet(q) <==> u in plan.ReadySet(p) || u in added
      ensures u in plan.ReadySet(p) ==> u !in added
    {
      assert Lookup(plan.deps, u) == plan.deps[u];
      LeftZero(plan.deps[u], p.succeeded);
      LeftZero(plan.deps[u], q.succeeded);
    }
  }

  lemma PendingAfterRelease(plan: Plan, dependents: Dependents, task: Task, done: set<Task>,
                            before: map<Task, nat>, after: map<Task, nat>)
    requires forall u :: u in plan.list ==> u in plan.deps
    requires IsIndex(plan.deps, plan.list, dependents) && task !in done
    requires IsPending(plan, before, done)
    requires CountedDown(plan.list, before, after, Lookup(dependents, task))
    ensures IsPending(plan, after, done + {task})
  {
    LeftAfterRelease(plan, dependents, task, before, done);
  }

  lemma {:induction false} ListSize(list: seq<Task>)
    requires NoRepeats(list)
    ensures |Elements(list)| == |list|
  {
    if list != [] {
      var n := |list| - 1;
      ListSize(list[..n]);
      assert list == list[..n] + [list[n]];
      assert Elements(list) == Elements(list[..n]) + {list[n]};
    }
  }

  /** The variables of the loop agree with what has happened. */
  ghost predicate Agrees(p: Progress, inFlight: set<Task>, running: nat, completed: nat, failed: bool, first: Option<Error>) {
    && inFlight == p.Running() && running == |inFlight|
    && completed == |p.succeeded| + |p.failed|
    && failed == (p.failed != {})
    && first == p.first
  }

  /** The loop invariant of `run`. */
  ghost predicate Follows(plan: Plan, h: History, pending: map<Task, nat>, ready: seq<Task>) {
    plan.Legal(h) && Sane(plan, Replay(h)) && Tracks(plan, Replay(h), pending, ready)
  }

  lemma AllAccountedFor(plan: Plan, p: Progress)
    requires Sane(plan, p) && NoRepeats(plan.list)
    ensures |p.succeeded| + |p.failed| + |p.Running()| <= |plan.list|
    ensures |p.succeeded| + |p.failed| == |plan.list| && p.failed == {} ==> p.succeeded == Elements(plan.list)
  {
    var all := Elements(plan.list);
    ListSize(plan.list);
    DisjointParts(p.started, p.succeeded, p.failed);
    assert p.Running() == set t | t in p.started && t !in p.succeeded && t !in p.failed;
    SubsetSize(p.started, all);
    if p.failed == {} {
      SubsetSize(p.succeeded, all);
    }
  }

  lemma DisjointParts(whole: set<Task>, a: set<Task>, b: set<Task>)
    requires a <= whole && b <= whole && a !! b
    ensures |a| + |b| + |set t | t in whole && t !in a && t !in b| == |whole|
  {
    assert (set t | t in whole && t !in a && t !in b) == whole - a - b;
    assert whole == (a + b) + (whole - a - b);
  }

  lemma SubsetSize(a: set<Task>, b: set<Task>)
    requires a <= b
    ensures |a| <= |b|
    ensures |a| == |b| ==> a == b
  {
    assert b == a + (b - a);
  }

  lemma FinishCounts(p: Progress, task: Task, error: Option<Error>)
    requires task in p.Running()
    ensures var q := Apply(p, Finish(task, error));
      |q.succeeded| + |q.failed| == |p.succeeded| + |p.failed| + 1
  {
  }

  /** The ready tasks of the beginning: those without dependencies, in list order. */
  method InitiallyReady(plan: Plan, pending: map<Task, nat>) returns (ready: seq<Task>)
    requires NoRepeats(plan.list) && pending.Keys == Elements(plan.list)
    ensures multiset(ready) == multiset(set t | t in plan.list && pending[t] == 0)
  {
    ready := [];
    for i := 0 to |plan.list|
      invariant multiset(ready) == multiset(Free(plan.list[..i], pending))
    {
      FreeStep(plan.list, pending, i);
      if pending[plan.list[i]] == 0 {
        ready := ready + [plan.list[i]];
      }
    }
    assert plan.list[..|plan.list|] == plan.list;
    assert Free(plan.list, pending) == set t | t in plan.list && pending[t] == 0;
  }

  /** The listed tasks that wait for nothing. */
  ghost function Free(list: seq<Task>, pending: map<Task, nat>): set<Task> { set t | t in list && t in pending && pending[t] == 0 }

  lemma FreeStep(list: seq<Task>, pending: map<Task, nat>, i: nat)
    requires NoRepeats(list) && i < |list| && list[i] in pending
    ensures multiset(Free(list[..i + 1], pending)) == multiset(Free(list[..i], pending)) + (if pending[list[i]] == 0 then multiset{list[i]} else multiset{})
  {
    assert list[..i + 1] == list[..i] + [list[i]];
    assert list[i] !in list[..i];
    assert Free(list[..i + 1], pending) == Free(list[..i], pending) + (if pending[list[i]] == 0 then {list[i]} else {});
  }

  lemma InitialReadySet(plan: Plan, pending: map<Task, nat>)
    requires IsPending(plan, pending, {})
    ensures plan.ReadySet(Replay([])) == set t | t in plan.list && pending[t] == 0
  {
    forall t | t in plan.list ensures plan.IsReady(Replay([]), t) <==> pending[t] == 0 {
      LeftZero(plan.deps[t], {});
    }
  }

  lemma PendingInitially(plan: Plan)
    requires forall t :: t in plan.list ==> t in plan.deps
    ensures IsPending(plan, map t | t in plan.list :: |plan.deps[t]|, {})
  {
    forall t | t in plan.list ensures Left(plan.deps[t], {}) == |plan.deps[t]| {
      LeftZero(plan.deps[t], {});
    }
  }

  lemma MayRelease(plan: Plan, dependents: Dependents, task: Task, pending: map<Task, nat>, done: set<Task>)
    requires forall u :: u in plan.list ==> u in plan.deps
    requires IsIndex(plan.deps, plan.list, dependents) && task !in done
    requires IsPending(plan, pending, done)
    ensures forall u :: u in Lookup(dependents, task) ==> u in plan.list
    ensures forall u :: u in plan.list ==> u in pending && Count(Lookup(dependents, task), u) <= pending[u]
  {
    LeftAfterRelease(plan, dependents, task, pending, done);
  }

  lemma Released(plan: Plan, dependents: Dependents, p: Progress, task: Task, before: map<Task, nat>,
                 after: map<Task, nat>, added: set<Task>)
    requires Sane(plan, p) && task in p.Running() && IsPending(plan, before, p.succeeded)
    requires IsIndex(plan.deps, plan.list, dependents)
    requires CountedDown(plan.list, before, after, Lookup(dependents, task))
    requires forall u {:trigger u in added} :: u in added <==> u in plan.list && before[u] > 0 && after[u] == 0
    ensures IsPending(plan, after, p.succeeded + {task})
    ensures multiset(plan.ReadySet(Apply(p, Finish(task, None)))) == multiset(plan.ReadySet(p)) + multiset(added)
  {
    PendingAfterRelease(plan, dependents, task, p.succeeded, before, after);
    ReadyAfterSuccess(plan, p, task, before, after, added);
  }

  /** After a success: hand it on, and sort what is ready. */
  method Receive(plan: Plan, dependents: Dependents, task: Task, pending: map<Task, nat>, ready: seq<Task>,
                 ghost before: History, ghost after: History)
    returns (pending': map<Task, nat>, ready': seq<Task>)
    requires Follows(plan, before, pending, ready) && task in Replay(before).Running()
    requires plan.Legal(after) && Sane(plan, Replay(after)) && Replay(after) == Apply(Replay(before), Finish(task, None))
    requires IsIndex(plan.deps, plan.list, dependents)
    ensures Follows(plan, after, pending', ready')
  {
    ghost var added;
    MayRelease(plan, dependents, task, pending, Replay(before).succeeded);
    pending', ready', added := Release(plan.list, Lookup(dependents, task), pending, ready);
    Released(plan, dependents, Replay(before), task, pending, pending', added);
    ready' := SortTasks(plan.priority, plan.key, ready');
  }

  /** The inner loop of `run`: fill the free slots. */
  method StartReady(plan: Plan, ghost h: History, ghost pending: map<Task, nat>, ready: seq<Task>, inFlight: set<Task>,
                    running: nat, ghost completed: nat, failed: bool, ghost first: Option<Error>)
    returns (ready': seq<Task>, running': nat, inFlight': set<Task>, ghost h': History)
    requires Follows(plan, h, pending, ready) && Agrees(Replay(h), inFlight, running, completed, failed, first)
    ensures Follows(plan, h', pending, ready') && Agrees(Replay(h'), inFlight', running', completed, failed, first)
    ensures failed || running' >= plan.jobs || ready' == []
  {
    ready', running', inFlight', h' := ready, running, inFlight, h;
    while !failed && running' < plan.jobs && |ready'| > 0
      invariant Follows(plan, h', pending, ready')
      invariant Agrees(Replay(h'), inFlight', running', completed, failed, first)
      decreases |ready'|
    {
      var task := ready'[0];
      Starting(plan, h', pending, ready', inFlight', running', completed, failed, first);
      h' := h' + [Start(task)];
      ready' := ready'[1..];
      running' := running' + 1;
      inFlight' := inFlight' + {task};
    }
  }

  /** The part of `run` after the uids: start what may start, receive one result, hand it on. */
  method RunLoop(plan: Plan, dependents: Dependents, pending0: map<Task, nat>) returns (outcome: Outcome, ghost h: History)
    requires plan.Valid() && IsIndex(plan.deps, plan.list, dependents)
    requires pending0 == map t | t in plan.list :: |plan.deps[t]|
    ensures plan.Legal(h) && Replay(h).Running() == {}
    ensures outcome == if Replay(h).first.Some? then Failed(Replay(h).first.value) else Finished
    ensures outcome.Finished? ==> Replay(h).succeeded == Elements(plan.list)
  {
    hide Follows, Agrees, Replay, Sane;
    h := [];
    var pending := pending0;
    PendingInitially(plan);
    var ready := InitiallyReady(plan, pending);
    ready := SortTasks(plan.priority, plan.key, ready);
    // The goroutines between their start and the receipt of their result; `running` counts them.
    var inFlight: set<Task> := {};
    var running: nat, completed: nat, failed := 0, 0, false;
    var first: Option<Error> := None;
    FollowsInitially(plan, pending, ready);
    while completed < |plan.list|
      invariant Follows(plan, h, pending, ready)
      invariant Agrees(Replay(h), inFlight, running, completed, failed, first)
      decreases |plan.list| - completed
    {
      ready, running, inFlight, h := StartReady(plan, h, pending, ready, inFlight, running, completed, failed, first);
      if running == 0 {
        if failed {
          break;
        }
        // The deadlock exception of the program.
        Unfinished(plan, h, pending, ready, inFlight, completed, failed, first);
        assert false;
      }
      SomethingRuns(Replay(h), inFlight, running, completed, failed, first);
      // Which running task answers, and with what, is the environment's choice.
      var task :| task in inFlight;
      var error: Option<Error> := *;
      pending, ready, running, inFlight, completed, failed, first, h :=
        TakeResult(plan, dependents, h, pending, ready, task, error, inFlight, running, completed, failed, first);
    }
    // The loop that drains running tasks finds none.
    Drained(plan, h, pending, ready, inFlight, running, completed, failed, first);
    assert running == 0;
    outcome := if first.Some? then Failed(first.value) else Finished;
  }

  /** What `run` does with one result. */
  method TakeResult(plan: Plan, dependents: Dependents, ghost h: History, pending: map<Task, nat>, ready: seq<Task>,
                    task: Task, error: Option<Error>, inFlight: set<Task>, running: nat, completed: nat, failed: bool,
                    first: Option<Error>)
    returns (pending': map<Task, nat>, ready': seq<Task>, running': nat, inFlight': set<Task>, completed': nat, failed': bool,
             first': Option<Error>, ghost h': History)
    requires plan.Valid() && IsIndex(plan.deps, plan.list, dependents) && task in inFlight
    requires Follows(plan, h, pending, ready) && Agrees(Replay(h), inFlight, running, completed, failed, first)
    requires ready == [] || failed || running >= plan.jobs
    ensures Follows(plan, h', pending', ready') && Agrees(Replay(h'), inFlight', running', completed', failed', first')
    ensures h' == h + [Finish(task, error)] && completed' == completed + 1
  {
    hide Follows, Replay, Sane;
    Finishing(plan, h, pending, ready, task, error, inFlight, running, completed, failed, first);
    h' := h + [Finish(task, error)];
    pending', ready', failed', first' := pending, ready, failed, first;
    running' := running - 1;
    inFlight' := inFlight - {task};
    completed' := completed + 1;
    if error.Some? {
      failed' := true;
      if first.None? {
        first' := error;
      }
      return;
    }
    pending', ready' := Receive(plan, dependents, task, pending, ready, h, h');
  }

  lemma Drained(plan: Plan, h: History, pending: map<Task, nat>, ready: seq<Task>,
                inFlight: set<Task>, running: nat, completed: nat, failed: bool, first: Option<Error>)
    requires Follows(plan, h, pending, ready) && Agrees(Replay(h), inFlight, running, completed, failed, first)
    requires NoRepeats(plan.list)
    requires completed >= |plan.list| || (running == 0 && failed)
    ensures running == 0 && plan.Legal(h) && Replay(h).Running() == {} && Replay(h).first == first
    ensures first.None? ==> Replay(h).succeeded == Elements(plan.list)
  {
    AllAccountedFor(plan, Replay(h));
  }

  lemma FollowsInitially(plan: Plan, pending: map<Task, nat>, ready: seq<Task>)
    requires IsPending(plan, pending, {})
    requires multiset(ready) == multiset(set t | t in plan.list && pending[t] == 0)
    requires Sorted(plan.priority, plan.key, ready)
    ensures Follows(plan, [], pending, ready)
    ensures Agrees(Replay([]), {}, 0, 0, false, None)
  {
    InitialReadySet(plan, pending);
    LegalIsSane(plan, []);
  }

  lemma Starting(plan: Plan, h: History, pending: map<Task, nat>, ready: seq<Task>,
                 inFlight: set<Task>, running: nat, completed: nat, failed: bool, first: Option<Error>)
    requires Follows(plan, h, pending, ready) && Agrees(Replay(h), inFlight, running, completed, failed, first)
    requires ready != [] && !failed && running < plan.jobs
    ensures Follows(plan, h + [Start(ready[0])], pending, ready[1..])
    ensures Agrees(Replay(h + [Start(ready[0])]), inFlight + {ready[0]}, running + 1, completed, failed, first)
  {
    HeadMayStart(plan, Replay(h), pending, ready);
    LegalAppend(plan, h, Start(ready[0]));
    StepKeepsSane(plan, Replay(h), Start(ready[0]));
    StepRunning(Replay(h), Start(ready[0]));
  }

  lemma Finishing(plan: Plan, h: History, pending: map<Task, nat>, ready: seq<Task>, task: Task, error: Option<Error>,
                  inFlight: set<Task>, running: nat, completed: nat, failed: bool, first: Option<Error>)
    requires Follows(plan, h, pending, ready) && Agrees(Replay(h), inFlight, running, completed, failed, first)
    requires task in inFlight
    requires ready == [] || failed || running >= plan.jobs
    ensures running > 0 && Replay(h + [Finish(task, error)]) == Apply(Replay(h), Finish(task, error))
    ensures plan.Legal(h + [Finish(task, error)]) && Sane(plan, Replay(h + [Finish(task, error)]))
    ensures error.Some? ==> Follows(plan, h + [Finish(task, error)], pending, ready)
    ensures Agrees(Replay(h + [Finish(task, error)]), inFlight - {task}, running - 1, completed + 1,
                   failed || error.Some?, if first.None? then error else first)
  {
    var p := Replay(h);
    if ready == [] {
      NothingReady(plan.ReadySet(p), ready);
    }
    LegalAppend(plan, h, Finish(task, error));
    StepKeepsSane(plan, p, Finish(task, error));
    StepRunning(p, Finish(task, error));
    FinishCounts(p, task, error);
    if error.Some? {
      assert plan.ReadySet(Apply(p, Finish(task, error))) == plan.ReadySet(p);
    }
  }

  lemma NothingReady(s: set<Task>, ready: seq<Task>)
    requires multiset(ready) == multiset(s) && ready == []
    ensures s == {}
  {
    assert forall t :: t in s ==> t in multiset(s);
  }

  lemma SomebodyUnfinished(list: seq<Task>, done: set<Task>)
    requires NoRepeats(list) && |done| < |list|
    ensures exists t :: t in list && t !in done
  {
    ListSize(list);
    if forall t :: t in list ==> t in done {
      SubsetSize(Elements(list), done);
    }
  }

  lemma ReadyListNonempty(s: set<Task>, ready: seq<Task>)
    requires multiset(ready) == multiset(s) && s != {}
    ensures ready != []
  {
    var t :| t in s;
    assert t in multiset(s);
  }

  lemma SomethingRuns(p: Progress, inFlight: set<Task>, running: nat, completed: nat, failed: bool, first: Option<Error>)
    requires Agrees(p, inFlight, running, completed, failed, first) && running != 0
    ensures inFlight != {} && inFlight == p.Running()
  {
  }

  lemma Unfinished(plan: Plan, h: History, pending: map<Task, nat>, ready: seq<Task>,
                   inFlight: set<Task>, completed: nat, failed: bool, first: Option<Error>)
    requires plan.Valid() && Follows(plan, h, pending, ready) && Agrees(Replay(h), inFlight, 0, completed, failed, first)
    requires !failed && completed < |plan.list|
    ensures ready != []
  {
    SomebodyUnfinished(plan.list, Replay(h).succeeded);
    NeverStuck(plan, Replay(h));
    ReadyListNonempty(plan.ReadySet(Replay(h)), ready);
  }

  /** `run`: the uids fail exactly on a cyclic graph; otherwise everything that happens is a legal history
      that ends with nothing running, in success of every reachable task or with the earliest error. */
  method Run(deps: Graph, roots: seq<Option<Task>>, jobs: int, key: Task -> string)
    returns (outcome: Outcome, ghost plan: Plan, ghost h: History)
    requires Closed(deps)
    requires forall r :: r in roots && r.Some? ==> r.value in deps
    ensures outcome.NoResult? <==> !AcyclicFrom(deps, roots)
    ensures !outcome.Deadlock?
    ensures !outcome.NoResult? ==>
      && plan.Valid() && plan.deps == deps && plan.key == key && plan.jobs == (if jobs < 1 then 1 else jobs)
      && (forall t :: t in plan.list <==> Reachable(deps, roots, t))
      && plan.Legal(h) && Replay(h).Running() == {}
      && outcome == (if Replay(h).first.Some? then Failed(Replay(h).first.value) else Finished)
      && (outcome.Finished? ==> Replay(h).succeeded == Elements(plan.list))
  {
    var list := UniqueTasks(deps, roots);
    var jobs' := if jobs < 1 then 1 else jobs;
    plan, h := Plan(deps, list, jobs', map[], key), [];
    var missing := AssignUids(deps, list);
    if missing.Some? {
      return NoResult(missing.value), plan, h;
    }
    var dependents, pending := IndexDependents(deps, list);
    var priority := TaskPriorities(deps, list, dependents);
    var plan' := Plan(deps, list, jobs', priority, key);
    plan := plan';
    outcome, h := RunLoop(plan', dependents, pending);
  }

  /** The uid loop of `run` with the check of `taskUID`: a dependency that has no uid yet is an error. */
  method AssignUids(deps: Graph, list: seq<Task>) returns (missing: Option<Task>)
    requires NoRepeats(list) && forall t :: t in list ==> t in deps
    ensures missing.None? <==> DepsFirst(deps, list)
  {
    var state: set<Task> := {};
    for i := 0 to |list|
      invariant state == Elements(list[..i])
      invariant forall k, d :: 0 <= k < i && d in deps[list[k]] ==> d in list[..k]
    {
      for k := 0 to |deps[list[i]]|
        invariant forall n :: 0 <= n < k ==> deps[list[i]][n] in list[..i]
      {
        if deps[list[i]][k] !in state {
          assert deps[list[i]][k] !in list[..i];
          return Some(deps[list[i]][k]);
        }
      }
      state := state + {list[i]};
      assert list[..i + 1] == list[..i] + [list[i]];
    }
    return None;
  }
}
