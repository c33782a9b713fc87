/** `printTreeNode` (bin/cargo/tree.go:142-179), over a package graph that may have cycles. */
module TreePrinter {
  import opened TaskGraph
  import opened PackageOrder

  datatype Line = Empty | Node(lead: string, pkg: Package, repeated: bool)

  datatype Output = Output(lines: seq<Line>, printed: set<Package>)

  /** Every edge leads to a package that is known. */
  ghost predicate Valid(infos: map<Package, Info>, edges: Graph) {
    Closed(edges) && edges.Keys <= infos.Keys
  }

  function Kids(infos: map<Package, Info>, edges: Graph, p: Package): (r: seq<Package>)
    requires Valid(infos, edges) && p in edges
    ensures forall q :: q in r ==> q in edges
  {
    Children(infos, edges[p])
  }

  const BRANCH := "\U{251C}\U{2500}\U{2500} "
  const LAST := "\U{2514}\U{2500}\U{2500} "
  const BAR := "\U{2502}   "
  const BLANK := "    "

  function Append(a: Output, b: Output): Output { Output(a.lines + b.lines, b.printed) }

  lemma AppendTwice(a: Output, b: Output, c: Output)
    ensures Append(Append(a, b), c) == Append(a, Append(b, c))
  {
  }

  /** The lines for a package and what it leads to, given which packages are printed already. */
  function Render(infos: map<Package, Info>, edges: Graph, p: Package, printed: set<Package>, lead: string, childLead: string): (r: Output)
    requires Valid(infos, edges) && p in edges
    ensures printed <= r.printed
    decreases edges.Keys - printed, 0
  {
    var kids := Kids(infos, edges, p);
    if kids == [] then Output([Node(lead, p, false)], printed + {p})
    else if p in printed then Output([Node(lead, p, true)], printed)
    else
      assert edges.Keys - (printed + {p}) < edges.Keys - printed;
      Append(Output([Node(lead, p, false)], printed + {p}), RenderKids(infos, edges, kids, 0, printed + {p}, childLead))
  }

  function RenderKids(infos: map<Package, Info>, edges: Graph, kids: seq<Package>, i: nat, printed: set<Package>, lead: string): (r: Output)
    requires Valid(infos, edges) && i <= |kids| && forall q :: q in kids ==> q in edges
    ensures printed <= r.printed
    decreases edges.Keys - printed, 1 + |kids| - i
  {
    if i == |kids| then Output([], printed)
    else
      var last := i == |kids| - 1;
      var first := Render(infos, edges, kids[i], printed, lead + (if last then LAST else BRANCH), lead + (if last then BLANK else BAR));
      assert edges.Keys - first.printed <= edges.Keys - printed;
      Append(first, RenderKids(infos, edges, kids, i + 1, first.printed, lead))
  }

  /** The trees of the roots, separated by empty lines. */
  function RenderForest(infos: map<Package, Info>, edges: Graph, roots: seq<Package>): (r: Output)
    requires Valid(infos, edges) && forall q :: q in roots ==> q in edges
  {
    if roots == [] then Output([], {})
    else
      var n := |roots| - 1;
      var front := RenderForest(infos, edges, roots[..n]);
      var separated := Output(front.lines + (if n > 0 then [Empty] else []), front.printed);
      Append(separated, Render(infos, edges, roots[n], front.printed, "", ""))
  }

  class Printer {
    const infos: map<Package, Info>
    const edges: Graph
    var printed: set<Package>
    var lines: seq<Line>

    constructor (infos: map<Package, Info>, edges: Graph)
      ensures this.infos == infos && this.edges == edges && printed == {} && lines == []
    {
      this.infos := infos;
      this.edges := edges;
      printed := {};
      lines := [];
    }

    method PrintTreeNode(p: Package, lead: string, childLead: string)
      requires Valid(infos, edges) && p in edges
      modifies this
      ensures Output(lines, printed) == Append(Output(old(lines), {}), Render(infos, edges, p, old(printed), lead, childLead))
      decreases edges.Keys - printed, 0
    {
      var children := UniquePackages(infos, edges[p]);
      if p in printed && |children| > 0 {
        lines := lines + [Node(lead, p, true)];
        return;
      }
      lines := lines + [Node(lead, p, false)];
      printed := printed + {p};
      if |children| > 0 {
        PrintChildren(children, childLead);
      }
    }

    method PrintChildren(children: seq<Package>, lead: string)
      requires Valid(infos, edges) && forall q :: q in children ==> q in edges
      modifies this
      ensures Output(lines, printed) == Append(Output(old(lines), {}), RenderKids(infos, edges, children, 0, old(printed), lead))
      decreases edges.Keys - printed, 1
    {
      hide Valid, Render;
      ghost var whole := Append(Output(lines, {}), RenderKids(infos, edges, children, 0, printed, lead));
      for i := 0 to |children|
        invariant old(printed) <= printed
        invariant Append(Output(lines, {}), RenderKids(infos, edges, children, i, printed, lead)) == whole
      {
        ghost var here, at := lines, printed;
        ghost var more := RenderKids(infos, edges, children, i, at, lead);
        assert children[i] in children;
        if i == |children| - 1 {
          PrintTreeNode(children[i], lead + LAST, lead + BLANK);
        } else {
          PrintTreeNode(children[i], lead + BRANCH, lead + BAR);
        }
        AppendTwice(Output(here, {}), Output(lines[|here|..], printed), RenderKids(infos, edges, children, i + 1, printed, lead));
      }
    }

    /** The loop over the roots in `printTree`. */
    method PrintForest(roots: seq<Package>)
      requires Valid(infos, edges) && (forall q :: q in roots ==> q in edges) && printed == {} && lines == []
      modifies this
      ensures Output(lines, printed) == RenderForest(infos, edges, roots)
    {
      for i := 0 to |roots|
        invariant Output(lines, printed) == RenderForest(infos, edges, roots[..i])
      {
        assert roots[..i + 1][..i] == roots[..i];
        if i > 0 {
          lines := lines + [Empty];
        }
        PrintTreeNode(roots[i], "", "");
      }
      assert roots[..|roots|] == roots;
    }
  }

  // ---- What the output holds ----

  /** How many distinct children the packages of a set have, altogether. */
  ghost function ChildCount(infos: map<Package, Info>, edges: Graph, ps: set<Package>): nat
    requires Valid(infos, edges) && ps <= edges.Keys
  {
    if ps == {} then 0
    else
      var p :| p in ps;
      |Elements(edges[p])| + ChildCount(infos, edges, ps - {p})
  }

  lemma {:induction false} ChildCountWithout(infos: map<Package, Info>, edges: Graph, ps: set<Package>, p: Package)
    requires Valid(infos, edges) && ps <= edges.Keys && p in ps
    ensures ChildCount(infos, edges, ps) == |Elements(edges[p])| + ChildCount(infos, edges, ps - {p})
    decreases ps
  {
    hide Elements;
    var q :| q in ps && ChildCount(infos, edges, ps) == |Elements(edges[q])| + ChildCount(infos, edges, ps - {q});
    if q != p {
      ChildCountWithout(infos, edges, ps - {q}, p);
      ChildCountWithout(infos, edges, ps - {p}, q);
      assert ps - {q} - {p} == ps - {p} - {q};
    }
  }

  lemma {:induction false} ChildCountSplits(infos: map<Package, Info>, edges: Graph, a: set<Package>, b: set<Package>)
    requires Valid(infos, edges) && a + b <= edges.Keys && a !! b
    ensures ChildCount(infos, edges, a + b) == ChildCount(infos, edges, a) + ChildCount(infos, edges, b)
    decreases a
  {
    hide Elements;
    if a == {} {
      assert a + b == b;
    } else {
      var p :| p in a;
      ChildCountWithout(infos, edges, a, p);
      ChildCountWithout(infos, edges, a + b, p);
      assert a + b - {p} == (a - {p}) + b;
      ChildCountSplits(infos, edges, a - {p}, b);
    }
  }

  /** How often `p` is printed with its children below it. */
  function Expansions(lines: seq<Line>, p: Package): nat {
    if lines == [] then 0
    else
      var last := lines[|lines| - 1];
      Expansions(lines[..|lines| - 1], p) + (if last.Node? && last.pkg == p && !last.repeated then 1 else 0)
  }

  lemma {:induction false} ExpansionsSplit(a: seq<Line>, b: seq<Line>, p: Package)
    ensures Expansions(a + b, p) == Expansions(a, p) + Expansions(b, p)
  {
    if b == [] {
      assert a + b == a;
    } else {
      assert (a + b)[..|a + b| - 1] == a + b[..|b| - 1];
      ExpansionsSplit(a, b[..|b| - 1], p);
    }
  }

  /** What printing one package does, starting from `printed`: it prints one line for the package and one
      for every child of what it newly expands, and expands everything reachable, each package once. */
  ghost predicate Covers(infos: map<Package, Info>, edges: Graph, p: Package, printed: set<Package>, r: Output, starts: nat)
    requires Valid(infos, edges)
  {
    && printed <= r.printed <= edges.Keys
    && |r.lines| == starts + ChildCount(infos, edges, r.printed - printed)
    && (forall q {:trigger edges[q]} :: q in r.printed && q !in printed ==> Elements(edges[q]) <= r.printed)
    && (forall q {:trigger Reaches(edges, p, q)} :: q in r.printed && q !in printed ==> Reaches(edges, p, q))
    && forall q {:trigger Expansions(r.lines, q)} :: q in edges && Kids(infos, edges, q) != [] ==>
         Expansions(r.lines, q) == if q in r.printed && q !in printed then 1 else 0
  }

  lemma KidsAre(infos: map<Package, Info>, edges: Graph, p: Package)
    requires Valid(infos, edges) && p in edges
    ensures |Kids(infos, edges, p)| == |Elements(edges[p])| && Elements(Kids(infos, edges, p)) == Elements(edges[p])
    ensures Kids(infos, edges, p) == [] <==> edges[p] == []
    ensures forall q :: q in Kids(infos, edges, p) ==> q in edges && q in edges[p]
  {
    ChildrenWell(infos, edges[p]);
  }

  lemma CoversJoin(infos: map<Package, Info>, edges: Graph, p: Package, printed: set<Package>, a: Output, m: nat, b: Output, n: nat)
    requires Valid(infos, edges) && Covers(infos, edges, p, printed, a, m) && Covers(infos, edges, p, a.printed, b, n)
    ensures Covers(infos, edges, p, printed, Append(a, b), m + n)
  {
    hide Expansions, ChildCount, Kids, Reaches, Elements, Valid;
    ChildCountSplits(infos, edges, a.printed - printed, b.printed - a.printed);
    assert (a.printed - printed) + (b.printed - a.printed) == b.printed - printed;
    forall q | q in edges && Kids(infos, edges, q) != []
      ensures Expansions(a.lines + b.lines, q) == if q in b.printed && q !in printed then 1 else 0
    {
      ExpansionsSplit(a.lines, b.lines, q);
    }
  }

  lemma CoversFromParent(infos: map<Package, Info>, edges: Graph, p: Package, c: Package, printed: set<Package>, r: Output, n: nat)
    requires Valid(infos, edges) && p in edges && c in edges[p] && Covers(infos, edges, c, printed, r, n)
    ensures Covers(infos, edges, p, printed, r, n)
  {
    hide Expansions, ChildCount, Kids, Reaches, Elements;
    forall q {:trigger Reaches(edges, p, q)} | q in r.printed && q !in printed ensures Reaches(edges, p, q) {
      ReachesPrepend(edges, p, c, q);
    }
  }

  /** The line of a package that is expanded, before the lines of its children. */
  lemma CoversOwnLine(infos: map<Package, Info>, edges: Graph, p: Package, printed: set<Package>, lead: string, r: Output)
    requires Valid(infos, edges) && p in edges && p !in printed && printed <= edges.Keys
    requires Covers(infos, edges, p, printed + {p}, r, |Elements(edges[p])|) && Elements(edges[p]) <= r.printed
    ensures Covers(infos, edges, p, printed, Append(Output([Node(lead, p, false)], printed + {p}), r), 1)
  {
    hide Expansions, ChildCount, Kids, Reaches, Elements, Valid;
    ChildCountWithout(infos, edges, r.printed - printed, p);
    assert r.printed - printed - {p} == r.printed - (printed + {p});
    ReachesSelf(edges, p);
    var line := Node(lead, p, false);
    forall q | q in edges && Kids(infos, edges, q) != []
      ensures Expansions([line] + r.lines, q) == if q in r.printed && q !in printed then 1 else 0
    {
      ExpansionsSplit([line], r.lines, q);
      OneLine(line, q);
    }
  }

  lemma OneLine(line: Line, p: Package)
    ensures Expansions([line], p) == if line.Node? && line.pkg == p && !line.repeated then 1 else 0
  {
    assert [line][..0] == [];
  }

  /** A single line: a package without children, or one printed before. */
  lemma CoversSingleLine(infos: map<Package, Info>, edges: Graph, p: Package, printed: set<Package>, lead: string)
    requires Valid(infos, edges) && p in edges && printed <= edges.Keys && (p in printed || edges[p] == [])
    ensures var repeated := edges[p] != [];
      Covers(infos, edges, p, printed, Output([Node(lead, p, repeated)], printed + (if repeated then {} else {p})), 1)
  {
    hide Expansions, Kids, Reaches;
    var repeated := edges[p] != [];
    var added := (printed + (if repeated then {} else {p})) - printed;
    assert added == {} || (added == {p} && edges[p] == []);
    if added == {p} {
      ChildCountWithout(infos, edges, added, p);
      assert added - {p} == {};
    }
    ReachesSelf(edges, p);
    forall q | q in edges && Kids(infos, edges, q) != [] ensures Expansions([Node(lead, p, repeated)], q) == 0 && q !in added {
      OneLine(Node(lead, p, repeated), q);
      KidsAre(infos, edges, q);
    }
  }

  lemma {:induction false} RenderCovers(infos: map<Package, Info>, edges: Graph, p: Package, printed: set<Package>, lead: string, childLead: string)
    requires Valid(infos, edges) && p in edges && printed <= edges.Keys
    ensures Covers(infos, edges, p, printed, Render(infos, edges, p, printed, lead, childLead), 1)
    ensures p in Render(infos, edges, p, printed, lead, childLead).printed
    decreases edges.Keys - printed, 0
  {
    hide Covers, RenderKids, Valid, Kids;
    KidsAre(infos, edges, p);
    var kids := Kids(infos, edges, p);
    if kids == [] || p in printed {
      CoversSingleLine(infos, edges, p, printed, lead);
      assert printed + {} == printed;
    } else {
      assert edges.Keys - (printed + {p}) < edges.Keys - printed;
      KidsCover(infos, edges, p, kids, 0, printed + {p}, childLead);
      var r := RenderKids(infos, edges, kids, 0, printed + {p}, childLead);
      CoversOwnLine(infos, edges, p, printed, lead, r);
    }
  }

  lemma {:induction false} KidsCover(infos: map<Package, Info>, edges: Graph, p: Package, kids: seq<Package>, i: nat, printed: set<Package>, lead: string)
    requires Valid(infos, edges) && p in edges && i <= |kids| && printed <= edges.Keys
    requires forall q :: q in kids ==> q in edges && q in edges[p]
    ensures Covers(infos, edges, p, printed, RenderKids(infos, edges, kids, i, printed, lead), |kids| - i)
    ensures forall j :: i <= j < |kids| ==> kids[j] in RenderKids(infos, edges, kids, i, printed, lead).printed
    decreases edges.Keys - printed, 1 + |kids| - i
  {
    hide Covers, Render, Valid, Kids;
    if i == |kids| {
      CoversNothing(infos, edges, p, printed);
    } else {
      var last := i == |kids| - 1;
      var lead1, lead2 := lead + (if last then LAST else BRANCH), lead + (if last then BLANK else BAR);
      var first := Render(infos, edges, kids[i], printed, lead1, lead2);
      assert kids[i] in kids;
      RenderCovers(infos, edges, kids[i], printed, lead1, lead2);
      CoversFromParent(infos, edges, p, kids[i], printed, first, 1);
      assert first.printed <= edges.Keys by { CoversInside(infos, edges, p, printed, first, 1); }
      assert edges.Keys - first.printed <= edges.Keys - printed;
      KidsCover(infos, edges, p, kids, i + 1, first.printed, lead);
      CoversJoin(infos, edges, p, printed, first, 1, RenderKids(infos, edges, kids, i + 1, first.printed, lead), |kids| - i - 1);
    }
  }

  lemma CoversInside(infos: map<Package, Info>, edges: Graph, p: Package, printed: set<Package>, r: Output, n: nat)
    requires Valid(infos, edges) && Covers(infos, edges, p, printed, r, n)
    ensures printed <= r.printed <= edges.Keys
  {
  }

  lemma CoversNothing(infos: map<Package, Info>, edges: Graph, p: Package, printed: set<Package>)
    requires Valid(infos, edges) && printed <= edges.Keys
    ensures Covers(infos, edges, p, printed, Output([], printed), 0)
  {
    assert printed - printed == {};
  }

  // ---- The whole tree ----

  ghost predicate ReachedFrom(edges: Graph, roots: seq<Package>, q: Package) {
    exists i {:trigger roots[i]} :: 0 <= i < |roots| && Reaches(edges, roots[i], q)
  }

  /** `Covers`, for the trees of several roots. */
  ghost predicate CoversForest(infos: map<Package, Info>, edges: Graph, roots: seq<Package>, r: Output)
    requires Valid(infos, edges)
  {
    && r.printed <= edges.Keys
    && |r.lines| == |roots| + (if |roots| > 1 then |roots| - 1 else 0) + ChildCount(infos, edges, r.printed)
    && (forall q {:trigger q in r.printed} :: q in r.printed <==> ReachedFrom(edges, roots, q))
    && forall q {:trigger Expansions(r.lines, q)} :: q in edges && Kids(infos, edges, q) != [] ==>
         Expansions(r.lines, q) == if q in r.printed then 1 else 0
  }

  /** On any graph, cycles or not: the packages printed are those the roots lead to; each of them that has
      children is shown with them exactly once; and there is one line for every root, one for every child
      of every package printed, and an empty one between the trees. */
  lemma {:induction false} TreeShowsEverythingOnce(infos: map<Package, Info>, edges: Graph, roots: seq<Package>)
    requires Valid(infos, edges) && forall q :: q in roots ==> q in edges
    ensures CoversForest(infos, edges, roots, RenderForest(infos, edges, roots))
  {
    hide Render, Valid, Kids, ChildCount, Expansions, Reaches;
    if roots == [] {
      NothingPrinted(infos, edges);
    } else {
      var n := |roots| - 1;
      TreeShowsEverythingOnce(infos, edges, roots[..n]);
      var front := RenderForest(infos, edges, roots[..n]);
      assert roots[n] in roots;
      RenderCovers(infos, edges, roots[n], front.printed, "", "");
      AddTree(infos, edges, roots, front, Render(infos, edges, roots[n], front.printed, "", ""));
    }
  }

  lemma NothingPrinted(infos: map<Package, Info>, edges: Graph)
    requires Valid(infos, edges)
    ensures CoversForest(infos, edges, [], Output([], {}))
  {
  }

  lemma AddTree(infos: map<Package, Info>, edges: Graph, roots: seq<Package>, front: Output, r: Output)
    requires Valid(infos, edges) && roots != [] && roots[|roots| - 1] in edges
    requires CoversForest(infos, edges, roots[..|roots| - 1], front)
    requires Covers(infos, edges, roots[|roots| - 1], front.printed, r, 1) && roots[|roots| - 1] in r.printed
    ensures CoversForest(infos, edges, roots, Append(Output(front.lines + (if |roots| > 1 then [Empty] else []), front.printed), r))
  {
    PrintedAre(infos, edges, roots, front, r);
    hide Valid, Kids, ChildCount, Expansions, Reaches, ReachedFrom;
    TreeLineCount(infos, edges, roots, front, r);
    TreeExpansions(infos, edges, roots, front, r);
    hide Covers;
  }

  lemma TreeLineCount(infos: map<Package, Info>, edges: Graph, roots: seq<Package>, front: Output, r: Output)
    requires Valid(infos, edges) && roots != []
    requires CoversForest(infos, edges, roots[..|roots| - 1], front)
    requires Covers(infos, edges, roots[|roots| - 1], front.printed, r, 1)
    ensures r.printed <= edges.Keys
    ensures |front.lines + (if |roots| > 1 then [Empty] else []) + r.lines|
            == |roots| + (if |roots| > 1 then |roots| - 1 else 0) + ChildCount(infos, edges, r.printed)
  {
    hide Valid, Kids, ChildCount, Expansions, Reaches, ReachedFrom;
    ChildCountSplits(infos, edges, front.printed, r.printed - front.printed);
    assert front.printed + (r.printed - front.printed) == r.printed;
  }

  lemma TreeExpansions(infos: map<Package, Info>, edges: Graph, roots: seq<Package>, front: Output, r: Output)
    requires Valid(infos, edges) && roots != []
    requires CoversForest(infos, edges, roots[..|roots| - 1], front)
    requires Covers(infos, edges, roots[|roots| - 1], front.printed, r, 1)
    ensures forall q :: q in edges && Kids(infos, edges, q) != [] ==>
      Expansions(front.lines + (if |roots| > 1 then [Empty] else []) + r.lines, q) == if q in r.printed then 1 else 0
  {
    hide Valid, Kids, ChildCount, Expansions, Reaches, ReachedFrom;
    forall q | q in edges && Kids(infos, edges, q) != []
      ensures Expansions(front.lines + (if |roots| > 1 then [Empty] else []) + r.lines, q) == if q in r.printed then 1 else 0
    {
      SeparatedExpansions(front.lines, |roots| > 1, r.lines, q);
    }
  }

  lemma SeparatedExpansions(a: seq<Line>, separated: bool, b: seq<Line>, p: Package)
    ensures Expansions(a + (if separated then [Empty] else []) + b, p) == Expansions(a, p) + Expansions(b, p)
  {
    hide Expansions;
    var lines := a + (if separated then [Empty] else []);
    ExpansionsSplit(lines, b, p);
    ExpansionsSplit(a, [Empty], p);
    OneLine(Empty, p);
    assert !separated ==> lines == a;
  }

  lemma PrintedAre(infos: map<Package, Info>, edges: Graph, roots: seq<Package>, front: Output, r: Output)
    requires Valid(infos, edges) && roots != [] && roots[|roots| - 1] in edges
    requires CoversForest(infos, edges, roots[..|roots| - 1], front)
    requires Covers(infos, edges, roots[|roots| - 1], front.printed, r, 1) && roots[|roots| - 1] in r.printed
    ensures forall q {:trigger q in r.printed} :: q in r.printed <==> ReachedFrom(edges, roots, q)
  {
    hide Kids, ChildCount, Expansions;
    var n := |roots| - 1;
    var fr := roots[..n];
    forall q | q in r.printed ensures ReachedFrom(edges, roots, q) {
      if q in front.printed {
        var i :| 0 <= i < |fr| && Reaches(edges, fr[i], q);
        assert roots[i] == fr[i];
      } else {
        assert Reaches(edges, roots[n], q);
      }
    }
    forall q | ReachedFrom(edges, roots, q) ensures q in r.printed {
      var i :| 0 <= i < |roots| && Reaches(edges, roots[i], q);
      if i < n {
        assert fr[i] == roots[i];
        assert q in front.printed;
      } else {
        PrintedIsClosed(infos, edges, roots, front, r);
        var path :| IsPath(edges, path) && path[0] == roots[n] && path[|path| - 1] == q;
        ClosedSetTraps(edges, r.printed, path, |path| - 1);
      }
    }
  }

  lemma PrintedIsClosed(infos: map<Package, Info>, edges: Graph, roots: seq<Package>, front: Output, r: Output)
    requires Valid(infos, edges) && roots != [] && roots[|roots| - 1] in edges
    requires CoversForest(infos, edges, roots[..|roots| - 1], front)
    requires Covers(infos, edges, roots[|roots| - 1], front.printed, r, 1)
    ensures forall t, d {:trigger d in edges[t]} :: t in r.printed && t in edges && d in edges[t] ==> d in r.printed
  {
    hide Kids, ChildCount, Expansions;
    var fr := roots[..|roots| - 1];
    forall t, d | t in r.printed && t in edges && d in edges[t] ensures d in r.printed {
      if t in front.printed {
        var i :| 0 <= i < |fr| && Reaches(edges, fr[i], t);
        ReachesExtend(edges, fr[i], t, d);
        assert ReachedFrom(edges, fr, d);
      } else {
        assert d in Elements(edges[t]);
      }
    }
  }
}
