/** Dependents, ranks and the dequeue order: `taskPriorities` and `sortTasks` (bin/cargo/tasks.go). */
module TaskPriority {
  import opened TaskGraph
  import Text

  type Dependents = map<Task, seq<Task>>

  /** A missing Go map entry reads as the nil slice. */
  function Lookup(dependents: Dependents, t: Task): seq<Task> {
    if t in dependents then dependents[t] else []
  }

  /** `u` is filed under `d` once for every time `d` stands in the list of `u`. */
  ghost predicate IsIndex(deps: Graph, list: seq<Task>, dependents: Dependents)
    requires forall t :: t in list ==> t in deps
  {
    forall d, u {:trigger Count(Lookup(dependents, d), u)} :: Count(Lookup(dependents, d), u) == if u in list then Count(deps[u], d) else 0
  }

  /** The index once the tasks of `done` and the dependencies `prefix` of `task` are filed. */
  ghost predicate IsPartialIndex(deps: Graph, done: seq<Task>, task: Task, prefix: seq<Task>, dependents: Dependents)
    requires forall t :: t in done ==> t in deps
  {
    forall d, u {:trigger Count(Lookup(dependents, d), u)} :: Count(Lookup(dependents, d), u) ==
      (if u == task then Count(prefix, d) else if u in done then Count(deps[u], d) else 0)
  }

  lemma FileOne(deps: Graph, done: seq<Task>, task: Task, prefix: seq<Task>, dep: Task, dependents: Dependents)
    requires forall t :: t in done ==> t in deps
    requires IsPartialIndex(deps, done, task, prefix, dependents)
    ensures IsPartialIndex(deps, done, task, prefix + [dep], dependents[dep := Lookup(dependents, dep) + [task]])
  {
    var after := dependents[dep := Lookup(dependents, dep) + [task]];
    forall d, u {:trigger Count(Lookup(after, d), u)} ensures Count(Lookup(after, d), u) ==
      (if u == task then Count(prefix + [dep], d) else if u in done then Count(deps[u], d) else 0)
    {
      assert Count(Lookup(dependents, d), u) ==
        (if u == task then Count(prefix, d) else if u in done then Count(deps[u], d) else 0);
      CountAppend(Lookup(dependents, dep), task, u);
      CountAppend(prefix, dep, d);
    }
  }

  /** The first loop of `run`: how many dependencies each task waits for, and who waits for it. */
  method IndexDependents(deps: Graph, list: seq<Task>) returns (dependents: Dependents, pending: map<Task, nat>)
    requires NoRepeats(list) && forall t :: t in list ==> t in deps
    ensures IsIndex(deps, list, dependents)
    ensures pending == map t | t in list :: |deps[t]|
  {
    dependents, pending := map[], map[];
    for i := 0 to |list|
      invariant IsIndex(deps, list[..i], dependents)
      invariant pending == map t | t in list[..i] :: |deps[t]|
    {
      var task := list[i];
      pending := pending[task := |deps[task]|];
      for k := 0 to |deps[task]|
        invariant IsPartialIndex(deps, list[..i], task, deps[task][..k], dependents)
      {
        var dep := deps[task][k];
        FileOne(deps, list[..i], task, deps[task][..k], dep, dependents);
        dependents := dependents[dep := Lookup(dependents, dep) + [task]];
        assert deps[task][..k + 1] == deps[task][..k] + [dep];
      }
      assert deps[task][..|deps[task]|] == deps[task];
      assert list[..i + 1] == list[..i] + [list[i]];
    }
    assert list[..|list|] == list;
  }

  lemma IndexMembers(deps: Graph, list: seq<Task>, dependents: Dependents, t: Task)
    requires forall u :: u in list ==> u in deps
    requires IsIndex(deps, list, dependents)
    ensures forall u {:trigger u in Lookup(dependents, t)} {:trigger t in deps[u]} ::
              u in Lookup(dependents, t) <==> u in list && t in deps[u]
  {
    forall u ensures u in Lookup(dependents, t) <==> u in list && t in deps[u] {
      CountMember(Lookup(dependents, t), u);
      if u in list {
        CountMember(deps[u], t);
      }
    }
  }

  /** The listed tasks that wait for `t`. */
  ghost function Waiting(deps: Graph, list: seq<Task>, t: Task): set<Task> {
    set u | u in list && DependsOn(deps, u, t)
  }

  /** Whoever waits for `t` lists it as a dependency or waits for somebody who does. */
  lemma WaitingStep(deps: Graph, list: seq<Task>, t: Task, u: Task)
    requires Closed(deps) && DepsFirst(deps, list) && NoRepeats(list)
    requires u in Waiting(deps, list, t)
    ensures exists next :: next in list && t in deps[next] && (u == next || u in Waiting(deps, list, next))
  {
    var d :| d in deps[u] && Reaches(deps, d, t);
    var p :| IsPath(deps, p) && p[0] == d && p[|p| - 1] == t;
    if |p| > 1 {
      var q := p[..|p| - 1];
      var next := q[|q| - 1];
      assert IsPath(deps, q) && q[0] == d;
      assert Reaches(deps, d, next);
      assert DependsOn(deps, u, next);
      var i :| 0 <= i < |list| && list[i] == u;
      DependencyStandsBefore(deps, list, i, next);
      assert p[|p| - 1] in deps[p[|p| - 2]];
    }
  }

  lemma WaitingInherits(deps: Graph, list: seq<Task>, t: Task, next: Task)
    requires Closed(deps) && next in list && next in deps && t in deps[next]
    ensures next in Waiting(deps, list, t)
    ensures Waiting(deps, list, next) <= Waiting(deps, list, t)
  {
    ReachesSelf(deps, t);
    forall u | u in Waiting(deps, list, next) ensures u in Waiting(deps, list, t) {
      var d :| d in deps[u] && Reaches(deps, d, next);
      ReachesExtend(deps, d, next, t);
    }
  }

  /** `waits` gathers, for every listed task, its direct dependents and whoever waits for them. */
  ghost predicate Gathers(deps: Graph, list: seq<Task>, waits: map<Task, set<Task>>)
    requires forall t :: t in list ==> t in deps
  {
    && (forall t :: t in list ==> t in waits)
    && (forall t, next {:trigger t in deps[next]} ::
          t in list && next in list && t in deps[next] ==> next in waits[t] && waits[next] <= waits[t])
    && (forall t, u {:trigger Explained(deps, list, waits, t, u)} ::
          t in list && u in waits[t] ==> Explained(deps, list, waits, t, u))
  }

  /** Some direct dependent of `t` is `u`, or has `u` waiting for it. */
  ghost predicate Explained(deps: Graph, list: seq<Task>, waits: map<Task, set<Task>>, t: Task, u: Task)
    requires forall t :: t in list ==> t in deps && t in waits
  {
    exists next {:trigger t in deps[next]} :: next in list && t in deps[next] && (u == next || u in waits[next])
  }

  /** Dependents have larger positions. */
  ghost predicate Positions(deps: Graph, list: seq<Task>, position: map<Task, nat>)
    requires forall t :: t in list ==> t in deps
  {
    && (forall t :: t in list ==> t in position && position[t] < |list|)
    && (forall t, next {:trigger t in deps[next]} ::
          t in list && next in list && t in deps[next] ==> position[t] < position[next])
  }

  lemma DepsFirstPositions(deps: Graph, list: seq<Task>) returns (position: map<Task, nat>)
    requires DepsFirst(deps, list) && NoRepeats(list)
    ensures Positions(deps, list, position)
  {
    position := map t | t in list :: IndexOf(list, t);
    forall t, next | t in list && next in list && t in deps[next] ensures position[t] < position[next] {
      assert t in list[..position[next]];
    }
  }

  ghost function IndexOf(list: seq<Task>, t: Task): (i: nat)
    requires t in list
    ensures i < |list| && list[i] == t
  {
    if list[0] == t then 0 else 1 + IndexOf(list[1..], t)
  }

  lemma WaitingGathers(deps: Graph, list: seq<Task>) returns (waits: map<Task, set<Task>>)
    requires Closed(deps) && DepsFirst(deps, list) && NoRepeats(list)
    ensures Gathers(deps, list, waits)
    ensures Priorities(deps, list) == map t | t in list :: 1 + |waits[t]|
  {
    waits := map t | t in list :: Waiting(deps, list, t);
    forall t, next | t in list && next in list && t in deps[next]
      ensures next in waits[t] && waits[next] <= waits[t]
    {
      WaitingInherits(deps, list, t, next);
    }
    forall t, u | t in list && u in waits[t] ensures Explained(deps, list, waits, t, u) {
      WaitingStep(deps, list, t, u);
    }
  }

  /** The memo table of `taskPriorities`. */
  class Ranker {
    var reach: map<Task, set<Task>>

    constructor ()
      ensures reach == map[]
    {
      reach := map[];
    }

    method Collect(deps: Graph, list: seq<Task>, dependents: Dependents, task: Task,
                   ghost waits: map<Task, set<Task>>, ghost position: map<Task, nat>)
      returns (waiting: set<Task>)
      requires forall t :: t in list ==> t in deps
      requires IsIndex(deps, list, dependents) && Gathers(deps, list, waits) && Positions(deps, list, position)
      requires task in list
      requires Memoised(list, waits)
      modifies this
      ensures Memoised(list, waits)
      ensures waiting == waits[task]
      decreases |list| - position[task]
    {
      if task in reach {
        return reach[task];
      }
      waiting := {};
      var nexts := Lookup(dependents, task);
      IndexMembers(deps, list, dependents, task);
      for k := 0 to |nexts|
        invariant Memoised(list, waits)
        invariant waiting <= waits[task]
        invariant forall n :: 0 <= n < k ==>
          nexts[n] in waits && nexts[n] in waiting && waits[nexts[n]] <= waiting
      {
        var next := nexts[k];
        assert next in nexts;
        var further := Collect(deps, list, dependents, next, waits, position);
        waiting := waiting + {next} + further;
      }
      forall u | u in waits[task] ensures u in waiting {
        assert Explained(deps, list, waits, task, u);
        var next :| next in list && task in deps[next] && (u == next || u in waits[next]);
        assert next in nexts;
      }
      reach := reach[task := waiting];
    }

    ghost predicate Memoised(list: seq<Task>, waits: map<Task, set<Task>>)
      requires forall t :: t in list ==> t in waits
      reads this
    {
      forall t :: t in reach ==> t in list && reach[t] == waits[t]
    }
  }

  /** `taskPriorities`: one more than the number of tasks that wait, directly or not. */
  method TaskPriorities(deps: Graph, list: seq<Task>, dependents: Dependents) returns (priority: map<Task, nat>)
    requires Closed(deps) && DepsFirst(deps, list) && NoRepeats(list)
    requires IsIndex(deps, list, dependents)
    ensures priority == Priorities(deps, list)
  {
    var ranker := new Ranker();
    priority := map[];
    ghost var waits := WaitingGathers(deps, list);
    ghost var position := DepsFirstPositions(deps, list);
    for i := 0 to |list|
      invariant fresh(ranker) && ranker.Memoised(list, waits)
      invariant forall n :: 0 <= n < i ==> list[n] in priority
      invariant forall t :: t in priority ==> t in list && priority[t] == 1 + |waits[t]|
    {
      var waiting := ranker.Collect(deps, list, dependents, list[i], waits, position);
      priority := priority[list[i] := 1 + |waiting|];
    }
    assert priority.Keys == Priorities(deps, list).Keys;
  }

  ghost function Priorities(deps: Graph, list: seq<Task>): map<Task, nat> {
    map t | t in list :: 1 + |Waiting(deps, list, t)|
  }

  /** A task ranks strictly above every task that waits for it. */
  lemma RanksAboveItsDependents(deps: Graph, list: seq<Task>, t: Task, u: Task)
    requires Closed(deps) && DepsFirst(deps, list) && NoRepeats(list)
    requires t in list && u in list && DependsOn(deps, u, t)
    ensures |Waiting(deps, list, u)| < |Waiting(deps, list, t)|
  {
    forall w | w in Waiting(deps, list, u) ensures w in Waiting(deps, list, t) {
      var d :| d in deps[w] && Reaches(deps, d, u);
      var e :| e in deps[u] && Reaches(deps, e, t);
      ReachesPrepend(deps, u, e, t);
      ReachesTransitive(deps, d, u, t);
    }
    NeverWaitsForItself(deps, list, u);
    assert u in Waiting(deps, list, t) && u !in Waiting(deps, list, u);
    SmallerSet(Waiting(deps, list, u), Waiting(deps, list, t));
  }

  lemma SmallerSet<T>(a: set<T>, b: set<T>)
    requires a < b
    ensures |a| < |b|
  {
    assert |b| == |a| + |b - a| by {
      assert b == a + (b - a);
    }
  }

  /** A missing Go map entry reads as zero. */
  function Rank(priority: map<Task, nat>, t: Task): nat {
    if t in priority then priority[t] else 0
  }

  /** The order of `sortTasks`: higher rank first, then the smaller key. */
  predicate Precedes(priority: map<Task, nat>, key: Task -> string, a: Task, b: Task) {
    if Rank(priority, a) != Rank(priority, b) then Rank(priority, a) > Rank(priority, b)
    else Text.Compare(key(a), key(b)) < 0
  }

  ghost predicate Sorted(priority: map<Task, nat>, key: Task -> string, tasks: seq<Task>) {
    forall i, j :: 0 <= i < j < |tasks| ==> !Precedes(priority, key, tasks[j], tasks[i])
  }

  /** Some sorted rearrangement, as `sort.Slice` promises; which one among ties is not promised. */
  method SortTasks(priority: map<Task, nat>, key: Task -> string, tasks: seq<Task>) returns (sorted: seq<Task>)
    ensures multiset(sorted) == multiset(tasks)
    ensures Sorted(priority, key, sorted)
  {
    sorted := [];
    for i := 0 to |tasks|
      invariant multiset(sorted) == multiset(tasks[..i])
      invariant Sorted(priority, key, sorted)
    {
      var t := tasks[i];
      var k := |sorted|;
      while k > 0 && Precedes(priority, key, t, sorted[k - 1])
        invariant 0 <= k <= |sorted|
        invariant forall n :: k <= n < |sorted| ==> Precedes(priority, key, t, sorted[n])
      {
        k := k - 1;
      }
      InsertKeepsSorted(priority, key, sorted, k, t);
      assert tasks[..i + 1] == tasks[..i] + [t];
      InsertKeepsTasks(sorted, k, t);
      sorted := sorted[..k] + [t] + sorted[k..];
    }
    assert tasks[..|tasks|] == tasks;
  }

  lemma InsertKeepsTasks(tasks: seq<Task>, k: nat, t: Task)
    requires k <= |tasks|
    ensures multiset(tasks[..k] + [t] + tasks[k..]) == multiset(tasks) + multiset{t}
  {
    assert tasks == tasks[..k] + tasks[k..];
  }

  lemma InsertKeepsSorted(priority: map<Task, nat>, key: Task -> string, tasks: seq<Task>, k: nat, t: Task)
    requires Sorted(priority, key, tasks) && k <= |tasks|
    requires k > 0 ==> !Precedes(priority, key, t, tasks[k - 1])
    requires forall n :: k <= n < |tasks| ==> Precedes(priority, key, t, tasks[n])
    ensures Sorted(priority, key, tasks[..k] + [t] + tasks[k..])
  {
    var s := tasks[..k] + [t] + tasks[k..];
    forall i, j | 0 <= i < j < |s| ensures !Precedes(priority, key, s[j], s[i]) {
      if j == k {
        assert s[i] == tasks[i] && s[j] == t;
        if i < k - 1 {
          assert !Precedes(priority, key, tasks[k - 1], tasks[i]);
          LaterStaysLater(priority, key, tasks[i], tasks[k - 1], t);
        }
      } else if i == k {
        assert s[j] == tasks[j - 1];
        Text.CompareAntisymmetric(key(t), key(s[j]));
      } else {
        assert s[i] == tasks[if i < k then i else i - 1];
        assert s[j] == tasks[if j < k then j else j - 1];
      }
    }
  }

  /** The order is a strict weak order, as sorting needs: not coming before is transitive. */
  lemma LaterStaysLater(priority: map<Task, nat>, key: Task -> string, a: Task, b: Task, c: Task)
    requires !Precedes(priority, key, b, a) && !Precedes(priority, key, c, b)
    ensures !Precedes(priority, key, c, a)
  {
    Text.CompareAntisymmetric(key(a), key(b));
    Text.CompareAntisymmetric(key(b), key(c));
    Text.CompareAntisymmetric(key(a), key(c));
    if Text.Compare(key(a), key(b)) <= 0 && Text.Compare(key(b), key(c)) <= 0 {
      Text.CompareTransitive(key(a), key(b), key(c));
    }
  }
}
