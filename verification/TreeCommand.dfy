/** `printTree` (bin/cargo/tree.go:91-152): the edges of the packages that the root leads to, in either
    direction, and the packages at which the printed trees begin. The breadth-first walk visits every
    reachable package once and copies its edges; the inverted edges are collected on the way. */
module TreeCommand {
  import opened Results
  import opened TaskGraph
  import opened PackageOrder
  import opened TreePrinter
  import opened TreeShape
  import SemverText

  function Get(m: Graph, p: Package): seq<Package> { if p in m then m[p] else [] }

  /** The breadth-first walk: `needs` are the packages that a package's normal dependencies resolve to. */
  method CollectEdges(needs: Graph, root: Package) returns (reached: set<Package>, dependencies: Graph, dependents: Graph)
    requires Closed(needs) && root in needs
    ensures forall q :: q in reached <==> Reaches(needs, root, q)
    ensures dependencies.Keys == reached && forall p :: p in reached ==> p in needs && dependencies[p] == needs[p]
    ensures IsInverse(needs, reached, dependents)
  {
    hide Count, Reaches, NoRepeats, Elements;
    var forward, backward: Graph := map[], map[];
    reached := {root};
    var queue := [root];
    ghost var done: set<Package> := {};
    WalkStarts(needs, root);
    while queue != []
      invariant Walk(needs, root, reached, queue, done)
      invariant Copied(needs, done, forward) && Inverted(needs, done, backward)
      decreases needs.Keys - done
    {
      hide Inverted, Walk, Copied;
      var p := queue[0];
      PopWalk(needs, root, reached, queue, done);
      CopiedStarts(needs, done, p, forward, backward);
      queue := queue[1..];
      reached, queue, forward, backward := WalkPackage(needs, root, p, reached, queue, done, forward, backward);
      WalkStep(needs, root, p, reached, queue, done, forward, backward);
      assert needs.Keys - (done + {p}) < needs.Keys - done;
      done := done + {p};
    }
    WalkEnds(needs, root, reached, done);
    dependencies := map q | q in reached :: Get(forward, q);
    dependents := map q | q in reached :: Get(backward, q);
  }

  /** What one package needs: its edges, and the packages met for the first time. */
  method WalkPackage(needs: Graph, root: Package, p: Package, reached0: set<Package>, queue0: seq<Package>, ghost done: set<Package>,
                     forward0: Graph, backward0: Graph)
    returns (reached: set<Package>, queue: seq<Package>, forward: Graph, backward: Graph)
    requires Closed(needs) && p in needs && Queued(needs, root, reached0, queue0, done + {p})
    requires CopiedUpTo(needs, done, p, [], forward0) && InvertedUpTo(needs, done, p, [], backward0)
    ensures reached0 <= reached && Queued(needs, root, reached, queue, done + {p})
    ensures forall c :: c in needs[p] ==> c in reached
    ensures CopiedUpTo(needs, done, p, needs[p], forward) && InvertedUpTo(needs, done, p, needs[p], backward)
  {
    hide Count, Reaches, NoRepeats, Elements, Queued, CopiedUpTo, InvertedUpTo, Closed;
    reached, queue, forward, backward := reached0, queue0, forward0, backward0;
    var list := needs[p];
    for i := 0 to |list|
      invariant reached0 <= reached && Queued(needs, root, reached, queue, done + {p})
      invariant forall c :: c in list[..i] ==> c in reached
      invariant CopiedUpTo(needs, done, p, list[..i], forward) && InvertedUpTo(needs, done, p, list[..i], backward)
    {
      var child := list[i];
      assert list[..i + 1] == list[..i] + [child] && child in needs[p];
      CopiedStep(needs, done, p, list[..i], child, forward);
      InvertedStep(needs, done, p, list[..i], child, backward);
      forward := forward[p := Get(forward, p) + [child]];
      backward := backward[child := Get(backward, child) + [p]];
      if child !in reached {
        QueueChild(needs, root, p, reached, queue, done, child);
        reached := reached + {child};
        queue := queue + [child];
      }
    }
    assert list[..|list|] == list;
  }

  ghost predicate Copied(needs: Graph, done: set<Package>, forward: Graph) {
    forall p :: if p in done && p in needs then Get(forward, p) == needs[p] else p !in forward
  }

  ghost predicate CopiedUpTo(needs: Graph, done: set<Package>, p: Package, list: seq<Package>, forward: Graph) {
    forall q :: if q == p then Get(forward, p) == list else if q in done && q in needs then Get(forward, q) == needs[q] else q !in forward
  }

  /** `dependents[c]` names every package as often as that package names `c`. */
  ghost predicate IsInverse(needs: Graph, reached: set<Package>, dependents: Graph) {
    dependents.Keys == reached && forall c, p :: c in reached ==>
      Count(dependents[c], p) == if p in reached && p in needs then Count(needs[p], c) else 0
  }

  ghost predicate Inverted(needs: Graph, done: set<Package>, backward: Graph) {
    forall c, p :: Count(Get(backward, c), p) == if p in done && p in needs then Count(needs[p], c) else 0
  }

  ghost predicate InvertedUpTo(needs: Graph, done: set<Package>, p: Package, list: seq<Package>, backward: Graph) {
    forall c, q {:trigger Count(Get(backward, c), q)} :: Count(Get(backward, c), q) == if q == p then Count(list, c) else if q in done && q in needs then Count(needs[q], c) else 0
  }

  lemma CopiedStarts(needs: Graph, done: set<Package>, p: Package, forward: Graph, backward: Graph)
    requires p !in done && Copied(needs, done, forward) && Inverted(needs, done, backward)
    ensures CopiedUpTo(needs, done, p, [], forward) && InvertedUpTo(needs, done, p, [], backward)
  {
  }

  lemma CopiedStep(needs: Graph, done: set<Package>, p: Package, list: seq<Package>, child: Package, forward: Graph)
    requires CopiedUpTo(needs, done, p, list, forward)
    ensures CopiedUpTo(needs, done, p, list + [child], forward[p := Get(forward, p) + [child]])
  {
  }

  lemma InvertedStep(needs: Graph, done: set<Package>, p: Package, list: seq<Package>, child: Package, backward: Graph)
    requires InvertedUpTo(needs, done, p, list, backward)
    ensures InvertedUpTo(needs, done, p, list + [child], backward[child := Get(backward, child) + [p]])
  {
    hide Count;
    var backward' := backward[child := Get(backward, child) + [p]];
    forall c, q {:trigger Count(Get(backward', c), q)} ensures Count(Get(backward', c), q)
      == if q == p then Count(list + [child], c) else if q in done && q in needs then Count(needs[q], c) else 0
    {
      assert Count(Get(backward, c), q) == if q == p then Count(list, c) else if q in done && q in needs then Count(needs[q], c) else 0;
      CountAppend(list, child, c);
      CountAppend(Get(backward, child), p, q);
      assert c != child ==> Get(backward', c) == Get(backward, c);
    }
  }

  /** The packages waiting in the queue, and those already walked, make up the reached ones. */
  ghost predicate Queued(needs: Graph, root: Package, reached: set<Package>, queue: seq<Package>, done: set<Package>) {
    && NoRepeats(queue) && Elements(queue) !! done && reached == Elements(queue) + done
    && root in reached && forall q :: q in reached ==> q in needs && Reaches(needs, root, q)
  }

  ghost predicate Walk(needs: Graph, root: Package, reached: set<Package>, queue: seq<Package>, done: set<Package>) {
    Queued(needs, root, reached, queue, done) && forall p, c {:trigger c in needs[p]} :: p in done && p in needs && c in needs[p] ==> c in reached
  }

  lemma WalkStarts(needs: Graph, root: Package)
    requires root in needs
    ensures Walk(needs, root, {root}, [root], {}) && Copied(needs, {}, map[]) && Inverted(needs, {}, map[])
  {
    ReachesSelf(needs, root);
  }

  lemma QueueChild(needs: Graph, root: Package, p: Package, reached: set<Package>, queue: seq<Package>, done: set<Package>, child: Package)
    requires Closed(needs) && p in needs && child in needs[p] && child !in reached && Queued(needs, root, reached, queue, done + {p})
    ensures Queued(needs, root, reached + {child}, queue + [child], done + {p})
  {
    hide Reaches;
    ReachesExtend(needs, root, p, child);
    assert Elements(queue + [child]) == Elements(queue) + {child};
  }

  lemma WalkStep(needs: Graph, root: Package, p: Package, reached: set<Package>, queue: seq<Package>, done: set<Package>, forward: Graph, backward: Graph)
    requires p in needs && Queued(needs, root, reached, queue, done + {p}) && forall c :: c in needs[p] ==> c in reached
    requires CopiedUpTo(needs, done, p, needs[p], forward) && InvertedUpTo(needs, done, p, needs[p], backward)
    requires forall q, c {:trigger c in needs[q]} :: q in done && q in needs && c in needs[q] ==> c in reached
    ensures Walk(needs, root, reached, queue, done + {p})
    ensures Copied(needs, done + {p}, forward) && Inverted(needs, done + {p}, backward)
  {
    hide Reaches, Count, NoRepeats, Elements;
  }

  lemma PopWalk(needs: Graph, root: Package, reached: set<Package>, queue: seq<Package>, done: set<Package>)
    requires Walk(needs, root, reached, queue, done) && queue != []
    ensures queue[0] in needs && queue[0] !in done && Queued(needs, root, reached, queue[1..], done + {queue[0]})
    ensures forall q, c {:trigger c in needs[q]} :: q in done && q in needs && c in needs[q] ==> c in reached
  {
    assert queue == [queue[0]] + queue[1..];
  }

  lemma WalkEnds(needs: Graph, root: Package, reached: set<Package>, done: set<Package>)
    requires Closed(needs) && Walk(needs, root, reached, [], done)
    ensures reached == done && forall q :: q in reached <==> Reaches(needs, root, q)
  {
    forall q | Reaches(needs, root, q) ensures q in reached {
      var path :| IsPath(needs, path) && path[0] == root && path[|path| - 1] == q;
      ClosedSetTraps(needs, reached, path, |path| - 1);
    }
  }

  // ---- The inverted graph ----

  function Reversed(path: seq<Package>): (r: seq<Package>)
    ensures |r| == |path| && forall i :: 0 <= i < |path| ==> r[i] == path[|path| - 1 - i]
  {
    if path == [] then [] else Reversed(path[1..]) + [path[0]]
  }

  lemma InverseEdges(needs: Graph, reached: set<Package>, dependents: Graph, c: Package, p: Package)
    requires IsInverse(needs, reached, dependents) && reached <= needs.Keys && c in reached
    ensures p in dependents[c] <==> p in reached && c in needs[p]
  {
    CountMember(dependents[c], p);
    if p in reached {
      CountMember(needs[p], c);
    }
  }

  /** Among the reached packages, following dependents leads exactly to what depends on the start. */
  lemma InverseReaches(needs: Graph, root: Package, reached: set<Package>, dependents: Graph, a: Package, b: Package)
    requires Closed(needs) && (forall q :: q in reached <==> Reaches(needs, root, q)) && reached <= needs.Keys
    requires IsInverse(needs, reached, dependents) && a in reached && b in reached
    ensures Reaches(dependents, a, b) <==> Reaches(needs, b, a)
  {
    if Reaches(dependents, a, b) {
      var path :| IsPath(dependents, path) && path[0] == a && path[|path| - 1] == b;
      var back := Reversed(path);
      forall i | 0 < i < |back| ensures back[i] in needs[back[i - 1]] {
        var k := |path| - i;
        assert path[k] in dependents[path[k - 1]];
        InverseEdges(needs, reached, dependents, path[k - 1], path[k]);
      }
      assert IsPath(needs, back);
    }
    if Reaches(needs, b, a) {
      var path :| IsPath(needs, path) && path[0] == b && path[|path| - 1] == a;
      var back := Reversed(path);
      forall i | 0 <= i < |path| ensures path[i] in reached {
        StaysReached(needs, root, reached, path, i);
      }
      forall i | 0 < i < |back| ensures back[i] in dependents[back[i - 1]] {
        var k := |path| - i;
        assert path[k] in needs[path[k - 1]];
        InverseEdges(needs, reached, dependents, path[k], path[k - 1]);
      }
      assert IsPath(dependents, back);
    }
  }

  lemma {:induction false} StaysReached(needs: Graph, root: Package, reached: set<Package>, path: seq<Package>, i: nat)
    requires Closed(needs) && forall q :: q in reached <==> Reaches(needs, root, q)
    requires IsPath(needs, path) && path[0] in reached && i < |path|
    ensures path[i] in reached
  {
    if i > 0 {
      StaysReached(needs, root, reached, path, i - 1);
      ReachesExtend(needs, root, path[i - 1], path[i]);
    }
  }

  // ---- Where the trees begin ----

  /** `name` or `name@version`. */
  predicate Names(infos: map<Package, Info>, spec: string, p: Package) {
    var version := SemverText.After(spec, '@');
    p in infos && infos[p].name == SemverText.Before(spec, '@')
    && (version == "" || SemverText.Print(infos[p].version) == version)
  }

  /** A specification is a name, or a name and a version behind an at sign. */
  lemma NamesMeans(infos: map<Package, Info>, name: string, version: string, p: Package)
    requires SemverText.Free(name, '@') && p in infos
    ensures Names(infos, name, p) <==> infos[p].name == name
    ensures Names(infos, name + "@" + version, p) <==> infos[p].name == name && (version == "" || SemverText.Print(infos[p].version) == version)
  {
    hide SemverText.Print;
    SemverText.CutAt(name, '@', version);
  }

  /** How many of the specifications name the package. */
  function Naming(infos: map<Package, Info>, specs: seq<string>, p: Package): nat {
    if specs == [] then 0
    else Naming(infos, specs[..|specs| - 1], p) + (if Names(infos, specs[|specs| - 1], p) then 1 else 0)
  }

  lemma {:induction false} NamingSome(infos: map<Package, Info>, specs: seq<string>, p: Package)
    ensures Naming(infos, specs, p) > 0 <==> exists i :: 0 <= i < |specs| && Names(infos, specs[i], p)
  {
    hide Names;
    if specs != [] {
      var n := |specs| - 1;
      NamingSome(infos, specs[..n], p);
      if Naming(infos, specs[..n], p) > 0 {
        var i :| 0 <= i < n && Names(infos, specs[..n][i], p);
        assert Names(infos, specs[i], p);
      }
      assert forall i :: 0 <= i < n ==> specs[..n][i] == specs[i];
    }
  }

  /** The packages a list of specifications names, each as often as it is named. A specification that names
      nothing must at least be declared. */
  method SelectRoots(infos: map<Package, Info>, reached: set<Package>, declared: set<string>, specs: seq<string>)
    returns (r: Result<seq<Package>>)
    ensures r.Thrown? <==> exists i :: 0 <= i < |specs| && Unknown(infos, reached, declared, specs[i])
    ensures r.Ok? ==> forall p :: Count(r.value, p) == if p in reached then Naming(infos, specs, p) else 0
  {
    hide Names, Count;
    var roots: seq<Package> := [];
    NothingNamed(infos);
    for i := 0 to |specs|
      invariant forall j :: 0 <= j < i ==> !Unknown(infos, reached, declared, specs[j])
      invariant forall p :: Count(roots, p) == if p in reached then Naming(infos, specs[..i], p) else 0
    {
      var matched := Matching(infos, reached, specs[i]);
      assert specs[..i + 1][..i] == specs[..i];
      MatchedNone(infos, reached, specs[i], matched);
      if matched == [] && SemverText.Before(specs[i], '@') !in declared {
        assert Unknown(infos, reached, declared, specs[i]);
        return Thrown;
      }
      forall p ensures Count(roots + matched, p) == Count(roots, p) + Count(matched, p) {
        CountSum(roots, matched, p);
      }
      roots := roots + matched;
    }
    assert specs[..|specs|] == specs;
    return Ok(roots);
  }

  lemma NothingNamed(infos: map<Package, Info>)
    ensures forall p :: Count([], p) == 0 && Naming(infos, [], p) == 0
  {
  }

  lemma MatchedNone(infos: map<Package, Info>, reached: set<Package>, spec: string, matched: seq<Package>)
    requires forall p :: Count(matched, p) == if p in reached && Names(infos, spec, p) then 1 else 0
    ensures matched == [] <==> forall p :: p in reached ==> !Names(infos, spec, p)
  {
    hide Names, Count;
    if matched == [] {
      forall p ensures Count(matched, p) == 0 {
        CountMember(matched, p);
      }
    } else {
      CountMember(matched, matched[0]);
    }
  }

  lemma {:induction false} CountSum(a: seq<Package>, b: seq<Package>, p: Package)
    ensures Count(a + b, p) == Count(a, p) + Count(b, p)
  {
    if b == [] {
      assert a + b == a;
    } else {
      assert (a + b)[..|a + b| - 1] == a + b[..|b| - 1];
      CountSum(a, b[..|b| - 1], p);
    }
  }

  /** Not even declared by a reached package. */
  ghost predicate Unknown(infos: map<Package, Info>, reached: set<Package>, declared: set<string>, spec: string) {
    SemverText.Before(spec, '@') !in declared && forall p :: p in reached ==> !Names(infos, spec, p)
  }

  /** Every package that the specification names, once. */
  method Matching(infos: map<Package, Info>, reached: set<Package>, spec: string) returns (r: seq<Package>)
    ensures forall p :: Count(r, p) == if p in reached && Names(infos, spec, p) then 1 else 0
  {
    hide Names;
    r := [];
    var todo := reached;
    while todo != {}
      invariant todo <= reached
      invariant forall p :: Count(r, p) == if p in reached && p !in todo && Names(infos, spec, p) then 1 else 0
    {
      var p :| p in todo;
      if Names(infos, spec, p) {
        forall q ensures Count(r + [p], q) == Count(r, q) + if p == q then 1 else 0 {
          CountAppend(r, p, q);
        }
        r := r + [p];
      }
      todo := todo - {p};
    }
  }

  datatype Forest = Forest(roots: seq<Package>, edges: Graph)

  /** The first half of `printTree`. It throws exactly for a specification that names no reached package and
      that no reached package declares a dependency for. */
  method ChooseForest(infos: map<Package, Info>, needs: Graph, declares: map<Package, set<string>>, root: Package, invert: seq<string>)
    returns (r: Result<Forest>)
    requires Closed(needs) && root in needs && needs.Keys <= infos.Keys
    ensures r.Ok? ==> Begins(infos, needs, root, invert, r.value.roots, r.value.edges)
    ensures r.Thrown? <==> exists spec :: spec in invert && NamesNothing(infos, needs, declares, root, spec)
  {
    hide Reaches, Names, IsInverse, Count;
    var reached, dependencies, dependents := CollectEdges(needs, root);
    ReachesSelf(needs, root);
    ReachedAreNeeded(needs, root, reached);
    EdgesWell(infos, needs, root, reached, dependencies, dependents);
    if |invert| == 0 {
      return Ok(Forest([root], dependencies));
    }
    assert dependents.Keys == reached by { InverseKeys(needs, reached, dependents); }
    var declared := set p, name | p in reached && p in declares && name in declares[p] :: name;
    UnknownIs(infos, needs, declares, root, reached, declared);
    var selected := SelectRoots(infos, reached, declared, invert);
    if selected.Thrown? {
      ghost var i :| 0 <= i < |invert| && Unknown(infos, reached, declared, invert[i]);
      assert NamesNothing(infos, needs, declares, root, invert[i]);
      return Thrown;
    }
    CountedAreReached(infos, reached, invert, selected.value);
    r := Ok(Forest(selected.value, dependents));
  }

  ghost predicate NamesNothing(infos: map<Package, Info>, needs: Graph, declares: map<Package, set<string>>, root: Package, spec: string) {
    forall p {:trigger Names(infos, spec, p)} :: Reaches(needs, root, p) ==>
      !Names(infos, spec, p) && (p in declares ==> SemverText.Before(spec, '@') !in declares[p])
  }

  lemma UnknownIs(infos: map<Package, Info>, needs: Graph, declares: map<Package, set<string>>, root: Package,
                  reached: set<Package>, declared: set<string>)
    requires forall q :: q in reached <==> Reaches(needs, root, q)
    requires declared == set p, name | p in reached && p in declares && name in declares[p] :: name
    ensures forall spec :: Unknown(infos, reached, declared, spec) <==> NamesNothing(infos, needs, declares, root, spec)
  {
    hide Reaches, Names;
    forall spec ensures Unknown(infos, reached, declared, spec) <==> NamesNothing(infos, needs, declares, root, spec) {
      if NamesNothing(infos, needs, declares, root, spec) {
        forall p | p in reached ensures !Names(infos, spec, p) && (p in declares ==> SemverText.Before(spec, '@') !in declares[p]) {
          assert Names(infos, spec, p) || !Names(infos, spec, p);
        }
      }
    }
  }

  lemma CountedAreReached(infos: map<Package, Info>, reached: set<Package>, specs: seq<string>, roots: seq<Package>)
    requires forall p :: Count(roots, p) == if p in reached then Naming(infos, specs, p) else 0
    ensures forall p :: p in roots ==> p in reached
  {
    hide Count, Naming;
    forall p | p in roots ensures p in reached {
      CountMember(roots, p);
    }
  }

  lemma InverseKeys(needs: Graph, reached: set<Package>, dependents: Graph)
    requires IsInverse(needs, reached, dependents)
    ensures dependents.Keys == reached
  {
  }

  /** `printTree`: the tree of the root, or the inverted trees of the packages specified. */
  method PrintTree(infos: map<Package, Info>, needs: Graph, declares: map<Package, set<string>>, root: Package, invert: seq<string>)
    returns (r: Result<seq<Line>>, ghost forest: Forest)
    requires Closed(needs) && root in needs && needs.Keys <= infos.Keys
    ensures r.Ok? ==> Begins(infos, needs, root, invert, forest.roots, forest.edges)
    ensures r.Ok? ==> r.value == RenderForest(infos, forest.edges, Sorted(infos, forest.roots)).lines
    ensures r.Ok? ==> ShowsTrees(infos, forest.edges, Sorted(infos, forest.roots), r.value) && Repeats(forest.edges, {}, r.value)
    ensures r.Thrown? <==> exists spec :: spec in invert && NamesNothing(infos, needs, declares, root, spec)
  {
    hide Reaches, RenderForest, Names, IsInverse, ShowsTrees, Repeats;
    var chosen := ChooseForest(infos, needs, declares, root, invert);
    if chosen.Thrown? {
      return Thrown, Forest([], map[]);
    }
    forest := chosen.value;
    var sorted := SortPackages(infos, chosen.value.roots);
    var printer := new Printer(infos, chosen.value.edges);
    printer.PrintForest(sorted);
    ForestShape(infos, chosen.value.edges, sorted);
    ForestRepeats(infos, chosen.value.edges, sorted);
    r := Ok(printer.lines);
  }

  lemma EdgesWell(infos: map<Package, Info>, needs: Graph, root: Package, reached: set<Package>, dependencies: Graph, dependents: Graph)
    requires Closed(needs) && needs.Keys <= infos.Keys && reached <= needs.Keys
    requires forall q :: q in reached <==> Reaches(needs, root, q)
    requires dependencies.Keys == reached && forall p :: p in reached ==> dependencies[p] == needs[p]
    requires IsInverse(needs, reached, dependents)
    ensures Valid(infos, dependencies) && Valid(infos, dependents)
  {
    forall t, d | t in dependencies && d in dependencies[t] ensures d in dependencies {
      ReachesExtend(needs, root, t, d);
    }
    forall t, d | t in dependents && d in dependents[t] ensures d in dependents {
      InverseEdges(needs, reached, dependents, t, d);
    }
  }

  /** The trees are those of the root over what packages need, or those of the named packages among the
      reached ones, as often as they are named, over what needs them. */
  ghost predicate Begins(infos: map<Package, Info>, needs: Graph, root: Package, invert: seq<string>, roots: seq<Package>, edges: Graph) {
    && Valid(infos, edges) && (forall p :: p in roots ==> p in edges)
    && (forall q :: q in edges <==> Reaches(needs, root, q))
    && if invert == [] then roots == [root] && forall p :: p in edges ==> p in needs && edges[p] == needs[p]
       else (forall p :: Count(roots, p) == if p in edges then Naming(infos, invert, p) else 0)
            && IsInverse(needs, edges.Keys, edges)
  }

  /** The inverted trees show exactly the reached packages that need one of the named packages. */
  lemma InvertedShowsDependents(infos: map<Package, Info>, needs: Graph, root: Package, invert: seq<string>, roots: seq<Package>, edges: Graph, q: Package)
    requires Closed(needs) && invert != [] && Begins(infos, needs, root, invert, roots, edges) && q in edges
    ensures q in RenderForest(infos, edges, Sorted(infos, roots)).printed <==> exists p :: p in roots && Reaches(needs, q, p)
    ensures forall p :: p in roots <==> p in edges && exists i :: 0 <= i < |invert| && Names(infos, invert[i], p)
  {
    hide Reaches, RenderForest, Names, Sorted, IsInverse, Count, Naming;
    forall p ensures p in roots <==> p in edges && exists i :: 0 <= i < |invert| && Names(infos, invert[i], p) {
      CountMember(roots, p);
      NamingSome(infos, invert, p);
    }
    var sorted := Sorted(infos, roots);
    assert forall p :: p in sorted <==> p in roots by { SortedMembers(infos, roots); }
    TreeShowsEverythingOnce(infos, edges, sorted);
    forall a | a in edges ensures Reaches(edges, a, q) <==> Reaches(needs, q, a) {
      assert edges.Keys <= needs.Keys by { ReachedAreNeeded(needs, root, edges.Keys); }
      InverseReaches(needs, root, edges.Keys, edges, a, q);
    }
    if ReachedFrom(edges, sorted, q) {
      var i :| 0 <= i < |sorted| && Reaches(edges, sorted[i], q);
      assert sorted[i] in roots;
    }
    if p :| p in roots && Reaches(needs, q, p) {
      assert p in sorted;
      var i :| 0 <= i < |sorted| && sorted[i] == p;
      assert Reaches(edges, sorted[i], q);
    }
  }

  lemma SortedMembers(infos: map<Package, Info>, list: seq<Package>)
    requires forall p :: p in list ==> p in infos
    ensures forall p :: p in Sorted(infos, list) <==> p in list
  {
  }

  lemma ReachedAreNeeded(needs: Graph, root: Package, reached: set<Package>)
    requires forall q :: q in reached <==> Reaches(needs, root, q)
    ensures reached <= needs.Keys
  {
    forall q | q in reached ensures q in needs {
      var path :| IsPath(needs, path) && path[0] == root && path[|path| - 1] == q;
      assert path[|path| - 1] in path;
    }
  }
}
