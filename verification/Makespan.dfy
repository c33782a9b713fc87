/** Graham's bound for the scheduler of bin/cargo/tasks.go, when every task takes one unit of time. */
module Makespan {
  import opened Results
  import opened TaskGraph
  import opened TaskPriority
  import opened Scheduler

  ghost function Clock(times: seq<nat>, i: nat): nat
    requires i <= |times|
  {
    if i == 0 then 0 else times[i - 1]
  }

  /** The scheduler itself takes no time: a start happens at the moment the loop reaches it, and a
      result is received one unit after its task was started. */
  ghost predicate OnTime(h: History, times: seq<nat>, i: nat)
    requires |times| == |h| && i < |h|
  {
    && Clock(times, i) <= times[i]
    && (h[i].Start? ==> times[i] == Clock(times, i))
    && (h[i].Finish? ==> exists j :: 0 <= j < i && h[j] == Start(h[i].task) && times[i] == times[j] + 1)
  }

  ghost predicate UnitTime(h: History, times: seq<nat>) {
    |times| == |h| && forall i :: 0 <= i < |h| ==> OnTime(h, times, i)
  }

  /** A complete run without errors, with its times. */
  ghost predicate TimedRun(plan: Plan, h: History, times: seq<nat>) {
    && plan.Legal(h) && UnitTime(h, times)
    && Replay(h).Running() == {} && Replay(h).failed == {}
  }

  ghost predicate Began(h: History, times: seq<nat>, t: Task, c: nat) {
    |times| == |h| && exists s :: 0 <= s < |h| && h[s] == Start(t) && times[s] == c
  }

  /** The tasks started before time `c`. */
  ghost function StartedBefore(plan: Plan, h: History, times: seq<nat>, c: nat): set<Task> {
    set t | t in plan.list && exists b :: 0 <= b < c && Began(h, times, t, b)
  }

  /** No dependency chain among the listed tasks is longer than `longest`. */
  ghost predicate ChainsWithin(plan: Plan, longest: nat) {
    && (forall t :: t in plan.list ==> t in plan.deps)
    && (forall t, d {:trigger d in Lookup(plan.deps, t)} :: t in plan.list && d in Lookup(plan.deps, t) ==> d in plan.list)
    && (forall t, k: nat {:trigger HasChain(plan.deps, t, k)} :: t in plan.list && HasChain(plan.deps, t, k) ==> k <= longest)
  }

  /** There is a dependency chain of `k` tasks that starts with `t`. */
  ghost predicate HasChain(deps: Graph, t: Task, k: nat) {
    exists p {:trigger IsPath(deps, p)} :: IsPath(deps, p) && p[0] == t && |p| == k
  }

  lemma {:induction false} TimesIncrease(h: History, times: seq<nat>, i: nat, j: nat)
    requires UnitTime(h, times) && i <= j < |h|
    ensures times[i] <= times[j]
    decreases j
  {
    if i < j {
      TimesIncrease(h, times, i, j - 1);
      assert OnTime(h, times, j);
    }
  }

  lemma {:induction false} FirstLater(h: History, times: seq<nat>, c: nat, n: nat) returns (i: nat)
    requires UnitTime(h, times) && n < |h| && times[n] > c
    ensures i <= n && times[i] > c && forall k :: 0 <= k < i ==> times[k] <= c
  {
    if n == 0 || times[n - 1] <= c {
      i := n;
      forall k | 0 <= k < n ensures times[k] <= c {
        TimesIncrease(h, times, k, n - 1);
      }
    } else {
      i := FirstLater(h, times, c, n - 1);
    }
  }

  lemma SameStart(plan: Plan, h: History, i: nat, j: nat)
    requires plan.Legal(h) && i < |h| && j < |h| && h[i].Start? && h[i] == h[j]
    ensures i == j
  {
    if i < j {
      StartsOnce(plan, h, i, j);
    } else if j < i {
      StartsOnce(plan, h, j, i);
    }
  }

  /** A started task answers one unit after its start. */
  lemma AnswerOf(plan: Plan, h: History, times: seq<nat>, s: nat) returns (f: nat)
    requires TimedRun(plan, h, times) && s < |h| && h[s].Start?
    ensures f < |h| && h[f] == Finish(h[s].task, None) && times[f] == times[s] + 1
  {
    var t := h[s].task;
    ReplayRecords(h, t);
    assert t in Replay(h).started && t !in Replay(h).Running();
    f :| 0 <= f < |h| && h[f] == Finish(t, None);
    assert OnTime(h, times, f);
    var j :| 0 <= j < f && h[j] == Start(t) && times[f] == times[j] + 1;
    SameStart(plan, h, j, s);
  }

  /** The clock leaves `c` at event `i`. */
  ghost predicate LeavesAt(h: History, times: seq<nat>, c: nat, i: nat) {
    i < |h| == |times| && times[i] == c + 1 && forall k :: 0 <= k < i ==> times[k] <= c
  }

  lemma RunningUnanswered(h: History, i: nat, t: Task)
    requires i <= |h| && t in Replay(h[..i]).Running()
    ensures forall k :: 0 <= k < i && h[k].Finish? ==> h[k].task != t
  {
    ReplayRecords(h[..i], t);
    forall k | 0 <= k < i ensures h[k].Finish? ==> h[k].task != t {
      assert h[..i][k] == h[k];
    }
  }

  /** What runs when the clock leaves `c` was started at `c`. */
  lemma RunningBegan(plan: Plan, h: History, times: seq<nat>, c: nat, i: nat, t: Task)
    requires TimedRun(plan, h, times) && LeavesAt(h, times, c, i)
    requires t in Replay(h[..i]).Running()
    ensures Began(h, times, t, c)
    ensures forall b :: Began(h, times, t, b) ==> b == c
  {
    ReplayRecords(h[..i], t);
    var s :| 0 <= s < i && h[..i][s] == Start(t);
    assert h[s] == Start(t);
    var f := AnswerOf(plan, h, times, s);
    RunningUnanswered(h, i, t);
    TimesIncrease(h, times, i, f);
    forall b | Began(h, times, t, b) ensures b == c {
      var z :| 0 <= z < |h| && h[z] == Start(t) && times[z] == b;
      SameStart(plan, h, s, z);
    }
  }

  /** What was started at `c` still runs when the clock leaves `c`. */
  lemma BeganRuns(plan: Plan, h: History, times: seq<nat>, c: nat, i: nat, t: Task)
    requires TimedRun(plan, h, times) && LeavesAt(h, times, c, i) && Began(h, times, t, c)
    ensures t in Replay(h[..i]).Running()
  {
    var s :| 0 <= s < |h| && h[s] == Start(t) && times[s] == c;
    if i <= s {
      TimesIncrease(h, times, i, s);
    }
    assert h[..i][s] == Start(t);
    ReplayRecords(h[..i], t);
    if t in Replay(h[..i]).succeeded || t in Replay(h[..i]).failed {
      var g :| 0 <= g < i && h[..i][g].Finish? && h[..i][g].task == t;
      assert OnTime(h, times, g);
      var j :| 0 <= j < g && h[j] == Start(t) && times[g] == times[j] + 1;
      SameStart(plan, h, j, s);
    }
  }

  /** What was started before `c` has succeeded when the clock leaves `c`. */
  lemma EarlierSucceeded(plan: Plan, h: History, times: seq<nat>, c: nat, i: nat, t: Task)
    requires TimedRun(plan, h, times) && LeavesAt(h, times, c, i)
    requires t in StartedBefore(plan, h, times, c)
    ensures t in Replay(h[..i]).succeeded
  {
    var b :| 0 <= b < c && Began(h, times, t, b);
    var s :| 0 <= s < |h| && h[s] == Start(t) && times[s] == b;
    var f := AnswerOf(plan, h, times, s);
    if i <= f {
      TimesIncrease(h, times, i, f);
    }
    ReplayRecords(h[..i], t);
    assert h[..i][f] == Finish(t, None);
  }

  /** What has been started when the clock leaves `c` was started by `c`. */
  lemma StartedByNow(plan: Plan, h: History, times: seq<nat>, c: nat, i: nat, t: Task)
    requires LeavesAt(h, times, c, i) && t in plan.list && t in Replay(h[..i]).started
    ensures t in StartedBefore(plan, h, times, c + 1)
  {
    ReplayRecords(h[..i], t);
    var s :| 0 <= s < i && h[..i][s] == Start(t);
    assert h[s] == Start(t);
    assert Began(h, times, t, times[s]);
  }

  lemma BatchStarts(plan: Plan, h: History, times: seq<nat>, c: nat, i: nat)
    requires TimedRun(plan, h, times) && LeavesAt(h, times, c, i)
    requires Replay(h[..i]).Running() <= Elements(plan.list)
    ensures Replay(h[..i]).Running() !! StartedBefore(plan, h, times, c)
    ensures StartedBefore(plan, h, times, c + 1) == StartedBefore(plan, h, times, c) + Replay(h[..i]).Running()
  {
    var batch := Replay(h[..i]).Running();
    forall t | t in batch
      ensures t in StartedBefore(plan, h, times, c + 1) && t !in StartedBefore(plan, h, times, c)
    {
      RunningBegan(plan, h, times, c, i, t);
    }
    forall t | t in StartedBefore(plan, h, times, c + 1) && t !in StartedBefore(plan, h, times, c) ensures t in batch {
      var b :| 0 <= b < c + 1 && Began(h, times, t, b);
      BeganRuns(plan, h, times, c, i, t);
    }
  }

  lemma NotReadyYet(plan: Plan, h: History, times: seq<nat>, c: nat, i: nat, u: Task)
    requires TimedRun(plan, h, times) && LeavesAt(h, times, c, i)
    requires plan.ReadySet(Replay(h[..i])) == {}
    requires u in plan.list && u !in StartedBefore(plan, h, times, c + 1)
    ensures exists d :: d in Lookup(plan.deps, u) && d !in StartedBefore(plan, h, times, c)
  {
    var p := Replay(h[..i]);
    if u in p.started {
      StartedByNow(plan, h, times, c, i, u);
    }
    assert u !in plan.ReadySet(p);
    var d :| d in Lookup(plan.deps, u) && d !in p.succeeded;
    if d in StartedBefore(plan, h, times, c) {
      EarlierSucceeded(plan, h, times, c, i, d);
    }
  }

  /** What is still not started when the clock reaches `c + 1` waits for something not started before `c`. */
  ghost predicate AllWait(plan: Plan, before: set<Task>, after: set<Task>) {
    forall u :: u in plan.list && u !in after ==> exists d :: d in Lookup(plan.deps, u) && d !in before
  }

  /** The tick from `c` to `c + 1`: something was started at `c`, and every slot was taken unless all
      that is left waits. */
  lemma Tick(plan: Plan, h: History, times: seq<nat>, c: nat, n: nat) returns (batch: set<Task>)
    requires TimedRun(plan, h, times) && n < |h| && times[n] > c
    ensures batch != {} && batch !! StartedBefore(plan, h, times, c)
    ensures StartedBefore(plan, h, times, c + 1) == StartedBefore(plan, h, times, c) + batch
    ensures |batch| == plan.jobs || AllWait(plan, StartedBefore(plan, h, times, c), StartedBefore(plan, h, times, c + 1))
  {
    var i := FirstLater(h, times, c, n);
    assert OnTime(h, times, i);
    batch := Replay(h[..i]).Running();
    LegalPrefix(plan, h, i);
    LegalIsSane(plan, h[..i]);
    assert plan.AllowedAt(h, i);
    BatchStarts(plan, h, times, c, i);
    if |batch| < plan.jobs {
      forall u | u in plan.list && u !in StartedBefore(plan, h, times, c + 1)
        ensures exists d :: d in Lookup(plan.deps, u) && d !in StartedBefore(plan, h, times, c)
      {
        NoErrorSoFar(plan, h, i);
        NotReadyYet(plan, h, times, c, i, u);
      }
    }
  }

  lemma NoErrorSoFar(plan: Plan, h: History, i: nat)
    requires Replay(h).failed == {} && i <= |h|
    ensures Replay(h[..i]).failed == {}
  {
    forall t ensures t !in Replay(h[..i]).failed {
      ReplayRecords(h[..i], t);
      ReplayRecords(h, t);
      assert forall k :: 0 <= k < i ==> h[..i][k] == h[k];
    }
  }

  /** `full` ticks used every slot and `idle` ticks did not; each idle tick lengthens the chain that
      every task not yet started is known to head. */
  ghost predicate Accounted(plan: Plan, started: set<Task>, longest: nat, c: nat, full: nat, idle: nat) {
    && c == full + idle && idle <= longest
    && plan.jobs * full + idle <= |started|
    && forall u :: u in plan.list && u !in started ==> HasChain(plan.deps, u, idle + 1)
  }

  lemma {:induction false} CountTicks(plan: Plan, h: History, times: seq<nat>, longest: nat, c: nat)
    returns (full: nat, idle: nat)
    requires TimedRun(plan, h, times) && ChainsWithin(plan, longest)
    requires h != [] && c <= times[|h| - 1]
    ensures Accounted(plan, StartedBefore(plan, h, times, c), longest, c, full, idle)
  {
    if c == 0 {
      full, idle := 0, 0;
      AccountedAtStart(plan, longest);
      assert StartedBefore(plan, h, times, 0) == {};
    } else {
      full, idle := CountTicks(plan, h, times, longest, c - 1);
      full, idle := OneMoreTick(plan, h, times, longest, c - 1, full, idle);
    }
  }

  lemma OneMoreTick(plan: Plan, h: History, times: seq<nat>, longest: nat, c: nat, full: nat, idle: nat)
    returns (full': nat, idle': nat)
    requires TimedRun(plan, h, times) && ChainsWithin(plan, longest)
    requires h != [] && c < times[|h| - 1]
    requires Accounted(plan, StartedBefore(plan, h, times, c), longest, c, full, idle)
    ensures Accounted(plan, StartedBefore(plan, h, times, c + 1), longest, c + 1, full', idle')
  {
    var batch := Tick(plan, h, times, c, |h| - 1);
    full', idle' := OneTick(plan, longest, c, full, idle,
                            StartedBefore(plan, h, times, c), batch, StartedBefore(plan, h, times, c + 1));
  }

  lemma AccountedAtStart(plan: Plan, longest: nat)
    requires forall t :: t in plan.list ==> t in plan.deps
    ensures Accounted(plan, {}, longest, 0, 0, 0)
  {
    forall u | u in plan.list ensures HasChain(plan.deps, u, 1) {
      assert IsPath(plan.deps, [u]);
    }
  }

  lemma OneTick(plan: Plan, longest: nat, c: nat, full: nat, idle: nat,
                before: set<Task>, batch: set<Task>, after: set<Task>) returns (full': nat, idle': nat)
    requires ChainsWithin(plan, longest) && Accounted(plan, before, longest, c, full, idle)
    requires batch != {} && batch !! before && after == before + batch && after <= Elements(plan.list)
    requires |batch| == plan.jobs || AllWait(plan, before, after)
    ensures Accounted(plan, after, longest, c + 1, full', idle')
  {
    assert |after| == |before| + |batch|;
    if |batch| == plan.jobs {
      full', idle' := full + 1, idle;
      assert plan.jobs * (full + 1) == plan.jobs * full + plan.jobs;
    } else {
      full', idle' := full, idle + 1;
      var t :| t in batch;
      assert HasChain(plan.deps, t, idle + 1);
      assert |batch| >= 1;
      forall u | u in plan.list && u !in after ensures HasChain(plan.deps, u, idle + 2) {
        var d :| d in Lookup(plan.deps, u) && d !in before;
        ChainPrepend(plan.deps, u, d, idle + 1);
      }
    }
  }

  lemma ChainPrepend(deps: Graph, u: Task, d: Task, k: nat)
    requires u in deps && d in deps[u] && HasChain(deps, d, k)
    ensures HasChain(deps, u, k + 1)
  {
    var p :| IsPath(deps, p) && p[0] == d && |p| == k;
    var q := [u] + p;
    assert forall i :: 0 < i < |q| ==> q[i] == p[i - 1];
    assert IsPath(deps, q);
  }

  /** Graham's bound: with unit tasks and no failure, `n` tasks whose longest dependency chain has
      `longest` tasks finish at a time T with jobs * T <= n + (jobs - 1) * longest. */
  lemma GrahamBound(plan: Plan, h: History, times: seq<nat>, longest: nat)
    requires plan.Valid() && TimedRun(plan, h, times) && h != []
    requires forall t, k: nat :: t in plan.list && HasChain(plan.deps, t, k) ==> k <= longest
    ensures plan.jobs * times[|h| - 1] <= |plan.list| + (plan.jobs - 1) * longest
  {
    ValidChains(plan, longest);
    var end := times[|h| - 1];
    var full, idle := CountTicks(plan, h, times, longest, end);
    StartedSize(plan, StartedBefore(plan, h, times, end));
    Weigh(plan.jobs, full, idle, longest, |plan.list|);
  }

  lemma ValidChains(plan: Plan, longest: nat)
    requires plan.Valid()
    requires forall t, k: nat :: t in plan.list && HasChain(plan.deps, t, k) ==> k <= longest
    ensures ChainsWithin(plan, longest)
  {
    forall t, d | t in plan.list && d in Lookup(plan.deps, t) ensures d in plan.list {
      var i :| 0 <= i < |plan.list| && plan.list[i] == t;
      assert d in plan.list[..i];
    }
  }

  lemma StartedSize(plan: Plan, started: set<Task>)
    requires NoRepeats(plan.list) && started <= Elements(plan.list)
    ensures |started| <= |plan.list|
  {
    ListSize(plan.list);
    SubsetSize(started, Elements(plan.list));
  }

  lemma Weigh(jobs: nat, full: nat, idle: nat, longest: nat, n: nat)
    requires jobs >= 1 && jobs * full + idle <= n && idle <= longest
    ensures jobs * (full + idle) <= n + (jobs - 1) * longest
  {
    assert jobs * (full + idle) == jobs * full + idle + (jobs - 1) * idle;
    assert (jobs - 1) * idle <= (jobs - 1) * longest;
  }
}
