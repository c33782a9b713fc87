/** The task graph (bin/cargo/tasks.go): dependency paths and the depth-first listing of `uniqueTasks`. */
module TaskGraph {
  import opened Results

  /** A task stands for the pointer the program passes around; two tasks with the
      same key are still different tasks. */
  type Task = nat

  /** `deps[t]` is the dependency list of `t`, repetitions allowed. */
  type Graph = map<Task, seq<Task>>

  /** Every task mentioned is a task of the graph: no nil or dangling dependency. */
  ghost predicate Closed(deps: Graph) {
    forall t, d {:trigger d in deps[t]} :: t in deps && d in deps[t] ==> d in deps
  }

  /** `p` walks from its first task along dependency edges. */
  ghost predicate IsPath(deps: Graph, p: seq<Task>) {
    && |p| > 0
    && (forall t :: t in p ==> t in deps)
    && (forall i :: 0 < i < |p| ==> p[i] in deps[p[i - 1]])
  }

  /** `b` is `a` or a transitive dependency of `a`. */
  ghost predicate Reaches(deps: Graph, a: Task, b: Task) {
    exists p {:trigger IsPath(deps, p)} :: IsPath(deps, p) && p[0] == a && p[|p| - 1] == b
  }

  /** `a` waits for `b`: `b` is a transitive dependency of `a`. */
  ghost predicate DependsOn(deps: Graph, a: Task, b: Task) {
    a in deps && exists d {:trigger Reaches(deps, d, b)} :: d in deps[a] && Reaches(deps, d, b)
  }

  ghost predicate Reachable(deps: Graph, roots: seq<Option<Task>>, t: Task) {
    exists r {:trigger r in roots} :: r in roots && r.Some? && Reaches(deps, r.value, t)
  }

  /** No task reachable from the roots waits for itself. */
  ghost predicate AcyclicFrom(deps: Graph, roots: seq<Option<Task>>) {
    forall t :: Reachable(deps, roots, t) ==> !DependsOn(deps, t, t)
  }

  /** Every task of the list comes after all of its dependencies. */
  ghost predicate DepsFirst(deps: Graph, list: seq<Task>) {
    forall i :: 0 <= i < |list| ==> list[i] in deps && forall d :: d in deps[list[i]] ==> d in list[..i]
  }

  ghost predicate NoRepeats(list: seq<Task>) {
    forall i, j :: 0 <= i < j < |list| ==> list[i] != list[j]
  }

  ghost function Elements(list: seq<Task>): set<Task> {
    set t | t in list
  }

  function Count(list: seq<Task>, t: Task): nat {
    if list == [] then 0
    else Count(list[..|list| - 1], t) + (if list[|list| - 1] == t then 1 else 0)
  }

  lemma CountAppend(list: seq<Task>, x: Task, t: Task)
    ensures Count(list + [x], t) == Count(list, t) + (if x == t then 1 else 0)
  {
    assert (list + [x])[..|list|] == list;
  }

  lemma {:induction false} CountMember(list: seq<Task>, t: Task)
    ensures t in list <==> Count(list, t) > 0
  {
    if list != [] {
      CountMember(list[..|list| - 1], t);
      assert list == list[..|list| - 1] + [list[|list| - 1]];
    }
  }

  lemma ReachesSelf(deps: Graph, a: Task)
    requires a in deps
    ensures Reaches(deps, a, a)
  {
    assert IsPath(deps, [a]);
  }

  lemma ReachesExtend(deps: Graph, a: Task, b: Task, c: Task)
    requires Closed(deps) && Reaches(deps, a, b) && b in deps && c in deps[b]
    ensures Reaches(deps, a, c)
  {
    var p :| IsPath(deps, p) && p[0] == a && p[|p| - 1] == b;
    assert IsPath(deps, p + [c]);
  }

  lemma ReachesPrepend(deps: Graph, a: Task, d: Task, b: Task)
    requires a in deps && d in deps[a] && Reaches(deps, d, b)
    ensures Reaches(deps, a, b)
  {
    var p :| IsPath(deps, p) && p[0] == d && p[|p| - 1] == b;
    var q := [a] + p;
    assert forall i :: 0 < i < |q| ==> q[i] == p[i - 1];
    assert IsPath(deps, q);
  }

  lemma ReachesTransitive(deps: Graph, a: Task, b: Task, c: Task)
    requires Reaches(deps, a, b) && Reaches(deps, b, c)
    ensures Reaches(deps, a, c)
  {
    var p :| IsPath(deps, p) && p[0] == a && p[|p| - 1] == b;
    var q :| IsPath(deps, q) && q[0] == b && q[|q| - 1] == c;
    var r := p + q[1..];
    forall i | 0 < i < |r| ensures r[i] in deps[r[i - 1]] {
      if i >= |p| {
        assert r[i] == q[i - |p| + 1];
        assert r[i - 1] == q[i - |p|];
      }
    }
    assert IsPath(deps, r);
  }

  /** A set closed under dependencies traps every path that starts in it. */
  lemma {:induction false} ClosedSetTraps(deps: Graph, s: set<Task>, p: seq<Task>, i: nat)
    requires IsPath(deps, p) && i < |p|
    requires p[0] in s
    requires forall t, d {:trigger d in deps[t]} :: t in s && t in deps && d in deps[t] ==> d in s
    ensures p[i] in s
  {
    if i > 0 {
      ClosedSetTraps(deps, s, p, i - 1);
    }
  }

  /** Walking along dependencies never moves forward in a deps-first list. */
  lemma {:induction false} PathGoesBack(deps: Graph, list: seq<Task>, p: seq<Task>, i: nat)
    requires DepsFirst(deps, list) && NoRepeats(list)
    requires IsPath(deps, p) && i < |list| && list[i] == p[0]
    ensures exists j :: 0 <= j <= i && list[j] == p[|p| - 1]
    decreases |p|
  {
    if |p| > 1 {
      assert p[1] in deps[p[0]];
      assert p[1] in list[..i];
      var k :| 0 <= k < i && list[k] == p[1];
      var q := p[1..];
      assert forall n :: 0 < n < |q| ==> q[n] == p[n + 1] && q[n - 1] == p[n];
      assert IsPath(deps, q);
      PathGoesBack(deps, list, q, k);
    }
  }

  lemma ReachGoesBack(deps: Graph, list: seq<Task>, i: nat, b: Task)
    requires DepsFirst(deps, list) && NoRepeats(list)
    requires i < |list| && Reaches(deps, list[i], b)
    ensures exists j :: 0 <= j <= i && list[j] == b
  {
    var p :| IsPath(deps, p) && p[0] == list[i] && p[|p| - 1] == b;
    PathGoesBack(deps, list, p, i);
  }

  /** A task never waits for a task that does not stand strictly before it in a deps-first list;
      in particular no task of such a list waits for itself. */
  lemma DependencyStandsBefore(deps: Graph, list: seq<Task>, i: nat, b: Task)
    requires DepsFirst(deps, list) && NoRepeats(list)
    requires i < |list| && DependsOn(deps, list[i], b)
    ensures exists j :: 0 <= j < i && list[j] == b
  {
    var d :| d in deps[list[i]] && Reaches(deps, d, b);
    var k :| 0 <= k < i && list[k] == d;
    ReachGoesBack(deps, list, k, b);
  }

  /** The recursive closure of `uniqueTasks`: `seen` and `result` are its captured variables. */
  class TaskLister {
    var seen: set<Task>
    var result: seq<Task>

    constructor ()
      ensures seen == {} && result == []
    {
      seen, result := {}, [];
    }

    /** What is listed is seen, without repetition. */
    ghost predicate Valid(deps: Graph)
      reads this
    {
      && Closed(deps)
      && seen <= deps.Keys
      && NoRepeats(result)
      && (forall t :: t in result ==> t in seen)
    }

    /** The tasks whose visit has begun and not ended. */
    ghost function Open(): set<Task>
      reads this
    {
      set t | t in seen && t !in result
    }

    method Visit(deps: Graph, task: Task)
      requires Valid(deps) && task in deps
      requires forall s :: s in Open() ==> DependsOn(deps, s, task)
      modifies this
      ensures Valid(deps)
      ensures task in seen && Open() == old(Open()) && old(seen) <= seen
      ensures Extends(deps, task, old(result), result, seen)
      decreases deps.Keys - seen
    {
      if task in seen {
        return;
      }
      ghost var open0 := Open();
      seen := seen + {task};
      assert Open() == open0 + {task};
      for k := 0 to |deps[task]|
        invariant Valid(deps)
        invariant old(seen) + {task} <= seen
        invariant Open() == open0 + {task}
        invariant forall n :: 0 <= n < k ==> deps[task][n] in seen
        invariant Extends(deps, task, old(result), result, seen)
      {
        var dep := deps[task][k];
        OpenTasksWait(deps, open0, task, dep);
        ghost var before, seen0 := result, seen;
        Visit(deps, dep);
        ExtendsTwice(deps, task, dep, old(result), before, result, seen0, seen);
      }
      assert task in Open();
      AppendSelf(deps, task, open0, old(result), result, seen);
      assert task !in result;
      result := result + [task];
    }
  }

  /** `after` continues `before` with dependencies of `root`, each of them after its own dependencies
      unless one of those waits for itself. */
  ghost predicate Extends(deps: Graph, root: Task, before: seq<Task>, after: seq<Task>, seen: set<Task>) {
    && before <= after
    && forall i :: |before| <= i < |after| ==>
         && after[i] in deps
         && Reaches(deps, root, after[i])
         && forall d :: d in deps[after[i]] ==> d in seen && (d in after[..i] || DependsOn(deps, d, d))
  }

  lemma OpenTasksWait(deps: Graph, open: set<Task>, task: Task, dep: Task)
    requires Closed(deps) && task in deps && dep in deps[task]
    requires forall s :: s in open ==> DependsOn(deps, s, task)
    ensures forall s :: s in open + {task} ==> DependsOn(deps, s, dep)
  {
    ReachesSelf(deps, dep);
    forall s | s in open ensures DependsOn(deps, s, dep) {
      var d :| d in deps[s] && Reaches(deps, d, task);
      ReachesExtend(deps, d, task, dep);
    }
  }

  lemma ExtendsTwice(deps: Graph, task: Task, dep: Task, a: seq<Task>, b: seq<Task>, c: seq<Task>,
                     seen0: set<Task>, seen1: set<Task>)
    requires task in deps && dep in deps[task] && seen0 <= seen1
    requires Extends(deps, task, a, b, seen0) && Extends(deps, dep, b, c, seen1)
    ensures Extends(deps, task, a, c, seen1)
  {
    forall i | |a| <= i < |c|
      ensures c[i] in deps && Reaches(deps, task, c[i])
      ensures forall d :: d in deps[c[i]] ==> d in seen1 && (d in c[..i] || DependsOn(deps, d, d))
    {
      if i < |b| {
        assert c[i] == b[i] && c[..i] == b[..i];
      } else {
        ReachesPrepend(deps, task, dep, c[i]);
      }
    }
  }

  /** Once its dependencies are visited a task may be listed: one that is still open waits for itself. */
  lemma AppendSelf(deps: Graph, task: Task, open: set<Task>, before: seq<Task>, after: seq<Task>, seen: set<Task>)
    requires Closed(deps) && task in deps && Extends(deps, task, before, after, seen)
    requires forall s :: s in open ==> DependsOn(deps, s, task)
    requires forall d :: d in deps[task] ==> d in seen
    requires forall t :: t in seen && t !in after ==> t in open + {task}
    ensures Extends(deps, task, before, after + [task], seen)
  {
    ReachesSelf(deps, task);
    forall d | d in deps[task] ensures d in after || DependsOn(deps, d, d) {
      if d !in after {
        OpenTasksWait(deps, open, task, d);
      }
    }
    forall i | |before| <= i < |after|
      ensures (after + [task])[i] == after[i] && (after + [task])[..i] == after[..i]
    {
    }
    assert (after + [task])[..|after|] == after;
  }

  /** What the visits leave behind: reachable tasks, each after its dependencies unless a
      dependency waits for itself. */
  ghost predicate Listing(deps: Graph, roots: seq<Option<Task>>, list: seq<Task>, seen: set<Task>) {
    forall i :: 0 <= i < |list| ==>
      && list[i] in deps
      && Reachable(deps, roots, list[i])
      && forall d :: d in deps[list[i]] ==> d in seen && (d in list[..i] || DependsOn(deps, d, d))
  }

  /** `uniqueTasks`: every task reachable from the roots once; deps-first exactly when no
      reachable task waits for itself. */
  method UniqueTasks(deps: Graph, roots: seq<Option<Task>>) returns (list: seq<Task>)
    requires Closed(deps)
    requires forall r :: r in roots && r.Some? ==> r.value in deps
    ensures NoRepeats(list) && (forall t :: t in list ==> t in deps)
    ensures forall t :: t in list <==> Reachable(deps, roots, t)
    ensures DepsFirst(deps, list) <==> AcyclicFrom(deps, roots)
  {
    var lister := new TaskLister();
    for k := 0 to |roots|
      invariant fresh(lister) && lister.Valid(deps) && lister.Open() == {}
      invariant forall n :: 0 <= n < k && roots[n].Some? ==> roots[n].value in lister.seen
      invariant Listing(deps, roots, lister.result, lister.seen)
    {
      if roots[k].Some? {
        ghost var before, seen0 := lister.result, lister.seen;
        lister.Visit(deps, roots[k].value);
        ListingGrows(deps, roots, roots[k].value, before, lister.result, seen0, lister.seen);
      }
    }
    list := lister.result;
    assert lister.seen == set t | t in list by {
      assert forall t :: t in lister.seen ==> t in lister.Open() || t in list;
    }
    ListHoldsReachable(deps, roots, list, lister.seen);
    DepsFirstIffAcyclic(deps, roots, list, lister.seen);
  }

  lemma ListingGrows(deps: Graph, roots: seq<Option<Task>>, root: Task, before: seq<Task>, after: seq<Task>,
                     seen0: set<Task>, seen1: set<Task>)
    requires Listing(deps, roots, before, seen0) && seen0 <= seen1 && Some(root) in roots
    requires Extends(deps, root, before, after, seen1)
    ensures Listing(deps, roots, after, seen1)
  {
    forall i | 0 <= i < |after|
      ensures after[i] in deps && Reachable(deps, roots, after[i])
      ensures forall d :: d in deps[after[i]] ==> d in seen1 && (d in after[..i] || DependsOn(deps, d, d))
    {
      if i < |before| {
        assert after[i] == before[i] && after[..i] == before[..i];
      } else {
        assert Some(root).Some? && Some(root).value == root;
      }
    }
  }

  lemma ListHoldsReachable(deps: Graph, roots: seq<Option<Task>>, list: seq<Task>, seen: set<Task>)
    requires Listing(deps, roots, list, seen) && seen == set t | t in list
    requires forall r :: r in roots && r.Some? ==> r.value in seen
    ensures forall t :: Reachable(deps, roots, t) ==> t in list
  {
    forall t, d | t in seen && t in deps && d in deps[t] ensures d in seen {
      var i :| 0 <= i < |list| && list[i] == t;
    }
    forall t | Reachable(deps, roots, t) ensures t in list {
      var r :| r in roots && r.Some? && Reaches(deps, r.value, t);
      ReachesInside(deps, seen, r.value, t);
    }
  }

  lemma ReachesInside(deps: Graph, s: set<Task>, a: Task, b: Task)
    requires a in s && Reaches(deps, a, b)
    requires forall t, d {:trigger d in deps[t]} :: t in s && t in deps && d in deps[t] ==> d in s
    ensures b in s
  {
    var p :| IsPath(deps, p) && p[0] == a && p[|p| - 1] == b;
    ClosedSetTraps(deps, s, p, |p| - 1);
  }

  lemma DepsFirstIffAcyclic(deps: Graph, roots: seq<Option<Task>>, list: seq<Task>, seen: set<Task>)
    requires Closed(deps) && NoRepeats(list) && Listing(deps, roots, list, seen)
    requires forall t :: Reachable(deps, roots, t) ==> t in list
    ensures DepsFirst(deps, list) <==> AcyclicFrom(deps, roots)
  {
    if DepsFirst(deps, list) {
      forall t | Reachable(deps, roots, t) ensures !DependsOn(deps, t, t) {
        NeverWaitsForItself(deps, list, t);
      }
    }
    if AcyclicFrom(deps, roots) {
      forall i, d | 0 <= i < |list| && d in deps[list[i]] ensures d in list[..i] {
        var r :| r in roots && r.Some? && Reaches(deps, r.value, list[i]);
        ReachesExtend(deps, r.value, list[i], d);
        assert Reachable(deps, roots, d);
      }
    }
  }

  lemma NeverWaitsForItself(deps: Graph, list: seq<Task>, t: Task)
    requires DepsFirst(deps, list) && NoRepeats(list) && t in list
    ensures !DependsOn(deps, t, t)
  {
    if DependsOn(deps, t, t) {
      var i :| 0 <= i < |list| && list[i] == t;
      DependencyStandsBefore(deps, list, i, t);
    }
  }
}
