/** What the indentation of `cargo tree` says (bin/cargo/tree.go:142-179). */
module TreeShape {
  import opened TaskGraph
  import opened PackageOrder
  import opened TreePrinter

  // ---- Reading the lines ----

  /** Each mark before a package is four characters wide; an empty line stands outside of all trees. */
  function Depth(line: Line): int { if line.Node? then |line.lead| / 4 else -1 }

  /** The lines one deeper than `depth`, up to the first one that is not deeper. */
  function Under(lines: seq<Line>, depth: int): seq<Line> {
    if lines == [] || Depth(lines[0]) <= depth then []
    else (if Depth(lines[0]) == depth + 1 then [lines[0]] else []) + Under(lines[1..], depth)
  }

  /** What stands before the marks of the children: under a last child nothing, under another one a bar. */
  function Ground(lead: string): string {
    if |lead| < 4 then ""
    else lead[..|lead| - 4] + (if lead[|lead| - 4..] == "\U{2514}\U{2500}\U{2500} " then "    " else "\U{2502}   ")
  }

  /** Below an expanded package stand its distinct children, in order, the last one with its own mark; below a
      repeated one nothing. */
  ghost predicate Shows(infos: map<Package, Info>, edges: Graph, lines: seq<Line>, i: nat)
    requires Valid(infos, edges) && i < |lines|
  {
    lines[i].Node? ==>
      var p, kids := lines[i].pkg, Under(lines[i + 1..], Depth(lines[i]));
      && p in edges && |lines[i].lead| % 4 == 0
      && if lines[i].repeated then kids == [] && edges[p] != []
         else
           var children := Children(infos, edges[p]);
           |kids| == |children| && forall k :: 0 <= k < |kids| ==>
             kids[k].Node? && kids[k].pkg == children[k]
             && kids[k].lead == Ground(lines[i].lead)
                  + (if k == |kids| - 1 then "\U{2514}\U{2500}\U{2500} " else "\U{251C}\U{2500}\U{2500} ")
  }

  ghost predicate AllShown(infos: map<Package, Info>, edges: Graph, lines: seq<Line>)
    requires Valid(infos, edges)
  {
    forall i :: 0 <= i < |lines| ==> Shows(infos, edges, lines, i)
  }

  /** No line is more than one deeper than the line before it. */
  ghost predicate Steps(lines: seq<Line>) {
    forall i :: 0 <= i < |lines| - 1 ==> Depth(lines[i + 1]) <= Depth(lines[i]) + 1
  }

  // ---- Putting lines together ----

  lemma {:induction false} UnderStops(a: seq<Line>, b: seq<Line>, depth: int)
    requires b != [] ==> Depth(b[0]) <= depth
    ensures Under(a + b, depth) == Under(a, depth)
  {
    if a == [] {
      assert a + b == b;
    } else {
      assert (a + b)[1..] == a[1..] + b;
      UnderStops(a[1..], b, depth);
    }
  }

  lemma {:induction false} UnderGoesOn(a: seq<Line>, b: seq<Line>, depth: int)
    requires forall i :: 0 <= i < |a| ==> Depth(a[i]) > depth
    ensures Under(a + b, depth) == Under(a, depth) + Under(b, depth)
  {
    if a == [] {
      assert a + b == b;
    } else {
      assert (a + b)[1..] == a[1..] + b;
      UnderGoesOn(a[1..], b, depth);
    }
  }

  lemma {:induction false} UnderNothing(a: seq<Line>, depth: int)
    requires forall i :: 0 <= i < |a| ==> Depth(a[i]) > depth + 1
    ensures Under(a, depth) == []
  {
    if a != [] {
      UnderNothing(a[1..], depth);
    }
  }

  lemma ShownJoin(infos: map<Package, Info>, edges: Graph, a: seq<Line>, b: seq<Line>)
    requires Valid(infos, edges) && AllShown(infos, edges, a) && AllShown(infos, edges, b)
    requires b != [] ==> forall i :: 0 <= i < |a| && a[i].Node? ==> Depth(b[0]) <= Depth(a[i])
    ensures AllShown(infos, edges, a + b)
  {
    hide Valid, Depth, Ground;
    forall i | 0 <= i < |a + b| ensures Shows(infos, edges, a + b, i) {
      if i < |a| {
        assert Shows(infos, edges, a, i);
        assert (a + b)[i + 1..] == a[i + 1..] + b && (a + b)[i] == a[i];
        if a[i].Node? {
          UnderStops(a[i + 1..], b, Depth(a[i]));
        }
      } else {
        assert Shows(infos, edges, b, i - |a|);
        assert (a + b)[i + 1..] == b[i - |a| + 1..] && (a + b)[i] == b[i - |a|];
      }
    }
  }

  /** A line and the lines below it. */
  lemma ShownBelow(infos: map<Package, Info>, edges: Graph, line: Line, below: seq<Line>)
    requires Valid(infos, edges) && AllShown(infos, edges, below) && Shows(infos, edges, [line] + below, 0)
    ensures AllShown(infos, edges, [line] + below)
  {
    hide Valid, Depth, Ground, Shows;
    forall i | 0 <= i < 1 + |below| ensures Shows(infos, edges, [line] + below, i) {
      if i > 0 {
        assert Shows(infos, edges, below, i - 1);
        ShownLater(infos, edges, line, below, i - 1);
      }
    }
  }

  lemma ShownLater(infos: map<Package, Info>, edges: Graph, line: Line, below: seq<Line>, i: nat)
    requires Valid(infos, edges) && i < |below| && Shows(infos, edges, below, i)
    ensures Shows(infos, edges, [line] + below, i + 1)
  {
    hide Valid, Depth, Ground;
    assert ([line] + below)[i + 2..] == below[i + 1..] && ([line] + below)[i + 1] == below[i];
  }

  // ---- One package and what it leads to ----

  /** Lines that stand behind `ground`, the first one exactly one deeper. */
  ghost predicate Behind(lines: seq<Line>, ground: string) {
    && (forall i :: 0 <= i < |lines| ==> lines[i].Node? && Depth(lines[i]) > |ground| / 4)
    && (lines != [] ==> Depth(lines[0]) == |ground| / 4 + 1) && Steps(lines)
  }

  /** The children of a package from the `i`-th on. */
  ghost predicate Heads(heads: seq<Line>, kids: seq<Package>, i: nat, ground: string)
    requires i <= |kids|
  {
    |heads| == |kids| - i && forall k :: 0 <= k < |heads| ==>
      && heads[k].Node? && heads[k].pkg == kids[i + k]
      && heads[k].lead == ground + (if k == |heads| - 1 then "\U{2514}\U{2500}\U{2500} " else "\U{251C}\U{2500}\U{2500} ")
  }

  ghost predicate Block(infos: map<Package, Info>, edges: Graph, lines: seq<Line>, p: Package, lead: string)
    requires Valid(infos, edges)
  {
    && lines != [] && lines[0].Node? && lines[0].pkg == p && lines[0].lead == lead
    && Behind(lines[1..], lead) && AllShown(infos, edges, lines)
  }

  lemma GroundOf(lead: string, last: bool)
    requires |lead| % 4 == 0
    ensures Ground(lead + (if last then LAST else BRANCH)) == lead + (if last then BLANK else BAR)
    ensures |lead + (if last then LAST else BRANCH)| == |lead + (if last then BLANK else BAR)| == |lead| + 4
  {
    var mark := if last then LAST else BRANCH;
    assert |mark| == 4 && (lead + mark)[..|lead|] == lead && (lead + mark)[|lead|..] == mark;
    assert LAST[0] != BRANCH[0];
  }

  lemma GroundIsWide(lead: string)
    requires |lead| % 4 == 0
    ensures |Ground(lead)| == |lead|
  {
    assert |BLANK| == 4 && |BAR| == 4;
  }

  lemma {:induction false} RenderShape(infos: map<Package, Info>, edges: Graph, p: Package, printed: set<Package>, lead: string)
    requires Valid(infos, edges) && p in edges && |lead| % 4 == 0
    ensures Block(infos, edges, Render(infos, edges, p, printed, lead, Ground(lead)).lines, p, lead)
    decreases edges.Keys - printed, 0
  {
    hide Valid, Ground, RenderKids, Shows, Children;
    var kids := Kids(infos, edges, p);
    KidsAre(infos, edges, p);
    if kids == [] || p in printed {
      SingleLine(infos, edges, p, kids != [], lead);
    } else {
      assert edges.Keys - (printed + {p}) < edges.Keys - printed;
      GroundIsWide(lead);
      KidsShape(infos, edges, kids, 0, printed + {p}, Ground(lead));
      var below := RenderKids(infos, edges, kids, 0, printed + {p}, Ground(lead)).lines;
      HeadLine(infos, edges, p, kids, lead, below);
    }
  }

  lemma SingleLine(infos: map<Package, Info>, edges: Graph, p: Package, repeated: bool, lead: string)
    requires Valid(infos, edges) && p in edges && |lead| % 4 == 0 && (repeated <==> Kids(infos, edges, p) != [])
    ensures Block(infos, edges, [Node(lead, p, repeated)], p, lead)
  {
    hide Children;
    KidsAre(infos, edges, p);
    assert [Node(lead, p, repeated)][1..] == [];
  }

  lemma HeadLine(infos: map<Package, Info>, edges: Graph, p: Package, kids: seq<Package>, lead: string, below: seq<Line>)
    requires Valid(infos, edges) && p in edges && |lead| % 4 == 0 && kids == Kids(infos, edges, p) && |Ground(lead)| == |lead|
    requires Behind(below, Ground(lead)) && AllShown(infos, edges, below) && Heads(Under(below, |lead| / 4), kids, 0, Ground(lead))
    ensures Block(infos, edges, [Node(lead, p, false)] + below, p, lead)
  {
    hide Children, Valid, Ground;
    var line := Node(lead, p, false);
    assert ([line] + below)[1..] == below;
    ShownBelow(infos, edges, line, below);
  }

  lemma {:induction false} KidsShape(infos: map<Package, Info>, edges: Graph, kids: seq<Package>, i: nat, printed: set<Package>, ground: string)
    requires Valid(infos, edges) && i <= |kids| && (forall q :: q in kids ==> q in edges) && |ground| % 4 == 0
    ensures var lines := RenderKids(infos, edges, kids, i, printed, ground).lines;
      && Behind(lines, ground) && AllShown(infos, edges, lines)
      && Heads(Under(lines, |ground| / 4), kids, i, ground)
    decreases edges.Keys - printed, 1 + |kids| - i
  {
    hide Valid, Render, Shows, Ground;
    if i < |kids| {
      assert kids[i] in kids;
      var last := i == |kids| - 1;
      var lead := ground + (if last then LAST else BRANCH);
      GroundOf(ground, last);
      var first := Render(infos, edges, kids[i], printed, lead, Ground(lead));
      assert edges.Keys - first.printed <= edges.Keys - printed;
      RenderShape(infos, edges, kids[i], printed, lead);
      KidsShape(infos, edges, kids, i + 1, first.printed, ground);
      var more := RenderKids(infos, edges, kids, i + 1, first.printed, ground).lines;
      KidAndMore(infos, edges, kids, i, ground, lead, first.lines, more);
    }
  }

  lemma KidAndMore(infos: map<Package, Info>, edges: Graph, kids: seq<Package>, i: nat, ground: string, lead: string,
                   first: seq<Line>, more: seq<Line>)
    requires Valid(infos, edges) && i < |kids| && |ground| % 4 == 0
    requires lead == ground + (if i == |kids| - 1 then LAST else BRANCH) && |lead| == |ground| + 4
    requires Block(infos, edges, first, kids[i], lead) && AllShown(infos, edges, first)
    requires Behind(more, ground) && AllShown(infos, edges, more) && Heads(Under(more, |ground| / 4), kids, i + 1, ground)
    ensures Behind(first + more, ground) && AllShown(infos, edges, first + more)
    ensures Heads(Under(first + more, |ground| / 4), kids, i, ground)
  {
    hide Valid, AllShown, Under, Heads;
    var depth := |ground| / 4;
    forall k | 0 <= k < |first| ensures first[k].Node? && Depth(first[k]) > depth {
      assert k > 0 ==> first[k] == first[1..][k - 1];
    }
    BehindJoin(first, more, ground);
    ShownJoin(infos, edges, first, more);
    UnderGoesOn(first, more, depth);
    UnderHead(first, depth);
    MoreHeads(first[0], Under(more, depth), kids, i, ground);
  }

  lemma UnderHead(first: seq<Line>, depth: int)
    requires first != [] && Depth(first[0]) == depth + 1 && forall k :: 0 < k < |first| ==> Depth(first[k]) > depth + 1
    ensures Under(first, depth) == [first[0]]
  {
    hide Depth;
    UnderNothing(first[1..], depth);
    assert Under(first, depth) == [first[0]] + Under(first[1..], depth);
  }

  lemma MoreHeads(head: Line, heads: seq<Line>, kids: seq<Package>, i: nat, ground: string)
    requires i < |kids| && Heads(heads, kids, i + 1, ground)
    requires head.Node? && head.pkg == kids[i] && head.lead == ground + (if i == |kids| - 1 then LAST else BRANCH)
    ensures Heads([head] + heads, kids, i, ground)
  {
  }

  lemma BehindJoin(first: seq<Line>, more: seq<Line>, ground: string)
    requires first != [] && first[0].Node? && Depth(first[0]) == |ground| / 4 + 1 && Behind(more, ground)
    requires (forall k :: 0 <= k < |first| ==> first[k].Node? && Depth(first[k]) > |ground| / 4)
    requires Steps(first[1..]) && (first[1..] != [] ==> Depth(first[1..][0]) == |ground| / 4 + 2)
    ensures Behind(first + more, ground)
  {
    hide Depth;
    var all := first + more;
    forall k | 0 <= k < |all| - 1 ensures Depth(all[k + 1]) <= Depth(all[k]) + 1 {
      if 0 < k < |first| - 1 {
        assert first[k] == first[1..][k - 1] && first[k + 1] == first[1..][k];
      } else if k >= |first| {
        assert all[k] == more[k - |first|] && all[k + 1] == more[k + 1 - |first|];
      }
    }
  }

  // ---- Whole forests ----

  /** The packages of the lines that stand at the margin. */
  function AtMargin(lines: seq<Line>): seq<Package> {
    if lines == [] then []
    else
      var last := lines[|lines| - 1];
      AtMargin(lines[..|lines| - 1]) + (if last.Node? && last.lead == "" then [last.pkg] else [])
  }

  /** An empty line stands before every tree but the first, and nowhere else. */
  ghost predicate Separated(lines: seq<Line>) {
    && (lines != [] ==> lines[0].Node?)
    && forall i :: 0 < i < |lines| ==> (lines[i].Node? && lines[i].lead == "" <==> lines[i - 1].Empty?)
  }

  /** The lines are the trees of the roots: these stand at the margin, and every line shows what its package
      needs. */
  ghost predicate ShowsTrees(infos: map<Package, Info>, edges: Graph, roots: seq<Package>, lines: seq<Line>)
    requires Valid(infos, edges)
  {
    AllShown(infos, edges, lines) && Steps(lines) && AtMargin(lines) == roots && Separated(lines)
    && (lines != [] ==> lines[|lines| - 1].Node? && lines[0].Node? && lines[0].lead == "")
  }

  lemma {:induction false} MarginSplits(a: seq<Line>, b: seq<Line>)
    ensures AtMargin(a + b) == AtMargin(a) + AtMargin(b)
  {
    if b == [] {
      assert a + b == a;
    } else {
      assert (a + b)[..|a + b| - 1] == a + b[..|b| - 1];
      MarginSplits(a, b[..|b| - 1]);
    }
  }

  lemma {:induction false} NothingAtMargin(lines: seq<Line>)
    requires forall i :: 0 <= i < |lines| ==> lines[i].Node? && Depth(lines[i]) > 0
    ensures AtMargin(lines) == []
  {
    if lines != [] {
      NothingAtMargin(lines[..|lines| - 1]);
    }
  }

  lemma BlockAtMargin(infos: map<Package, Info>, edges: Graph, lines: seq<Line>, p: Package)
    requires Valid(infos, edges) && Block(infos, edges, lines, p, "")
    ensures ShowsTrees(infos, edges, [p], lines)
    ensures lines != [] && forall i :: 0 <= i < |lines| ==> lines[i].Node?
  {
    hide Shows, Valid, AllShown;
    assert lines == [lines[0]] + lines[1..];
    MarginSplits([lines[0]], lines[1..]);
    NothingAtMargin(lines[1..]);
    assert [lines[0]][..0] == [];
    forall i | 0 < i < |lines| ensures lines[i].Node? && Depth(lines[i]) > 0 && Depth(lines[i]) <= Depth(lines[i - 1]) + 1 {
      assert lines[i] == lines[1..][i - 1];
      assert i > 1 ==> lines[i - 1] == lines[1..][i - 2];
    }
  }

  /** Any roots over any graph. */
  lemma {:induction false} ForestShape(infos: map<Package, Info>, edges: Graph, roots: seq<Package>)
    requires Valid(infos, edges) && forall q :: q in roots ==> q in edges
    ensures ShowsTrees(infos, edges, roots, RenderForest(infos, edges, roots).lines)
    ensures roots != [] ==> RenderForest(infos, edges, roots).lines != []
  {
    hide Valid, Render, Block, ShowsTrees;
    if roots != [] {
      var n := |roots| - 1;
      var front := RenderForest(infos, edges, roots[..n]);
      ForestShape(infos, edges, roots[..n]);
      assert Ground("") == "";
      RenderShape(infos, edges, roots[n], front.printed, "");
      var tree := Render(infos, edges, roots[n], front.printed, "", "").lines;
      BlockAtMargin(infos, edges, tree, roots[n]);
      if n > 0 {
        TreesJoin(infos, edges, roots[..n], front.lines, roots[n], tree);
      } else {
        assert roots == [roots[0]] && front.lines + [] + tree == tree;
      }
      assert roots == roots[..n] + [roots[n]];
    } else {
      NoTrees(infos, edges);
    }
  }

  lemma NoTrees(infos: map<Package, Info>, edges: Graph)
    requires Valid(infos, edges)
    ensures ShowsTrees(infos, edges, [], [])
  {
  }

  lemma TreesJoin(infos: map<Package, Info>, edges: Graph, roots: seq<Package>, a: seq<Line>, p: Package, b: seq<Line>)
    requires Valid(infos, edges) && ShowsTrees(infos, edges, roots, a) && ShowsTrees(infos, edges, [p], b) && a != [] && b != []
    requires forall i :: 0 <= i < |b| ==> b[i].Node?
    ensures ShowsTrees(infos, edges, roots + [p], a + [Empty] + b)
  {
    hide AllShown, Valid, Separated, Steps, AtMargin;
    var gap: seq<Line> := [Empty];
    NothingShown(infos, edges);
    ShownJoin(infos, edges, a, gap);
    ShownJoin(infos, edges, a + gap, b);
    MarginSplits(a, gap);
    MarginSplits(a + gap, b);
    GapJoins(a, b, [p]);
  }

  lemma GapJoins(a: seq<Line>, b: seq<Line>, roots: seq<Package>)
    requires Steps(a) && Separated(a) && a != [] && a[|a| - 1].Node? && Steps(b) && Separated(b) && AtMargin(b) == roots
    requires b != [] && b[0].Node? && b[0].lead == ""
    ensures Steps(a + [Empty] + b) && Separated(a + [Empty] + b)
    ensures AtMargin([Empty]) == []
  {
    hide AtMargin;
    assert [Empty][..0] == [];
    EmptyMargin();
    var all := a + [Empty] + b;
    assert all[|a|] == Empty && all[|a| + 1] == b[0];
    forall i | 0 <= i < |all| - 1 ensures Depth(all[i + 1]) <= Depth(all[i]) + 1 {
      if i > |a| {
        assert all[i] == b[i - |a| - 1] && all[i + 1] == b[i - |a|];
      }
    }
    forall i | 0 < i < |all| ensures all[i].Node? && all[i].lead == "" <==> all[i - 1].Empty? {
      if i > |a| + 1 {
        assert all[i] == b[i - |a| - 1] && all[i - 1] == b[i - |a| - 2];
      }
    }
  }

  lemma EmptyMargin()
    ensures AtMargin([Empty]) == []
  {
    var gap: seq<Line> := [Empty];
    assert gap[..0] == [];
  }

  lemma NothingShown(infos: map<Package, Info>, edges: Graph)
    requires Valid(infos, edges)
    ensures AllShown(infos, edges, [Empty])
  {
  }

  // ---- What is repeated ----

  ghost function Shown(lines: seq<Line>): set<Package> { set i | 0 <= i < |lines| && lines[i].Node? :: lines[i].pkg }

  /** A package with children is marked as repeated exactly if it was shown before. */
  ghost predicate Repeats(edges: Graph, printed: set<Package>, lines: seq<Line>) {
    forall i :: 0 <= i < |lines| && lines[i].Node? ==>
      (lines[i].repeated <==> lines[i].pkg in edges && edges[lines[i].pkg] != [] && (lines[i].pkg in printed || lines[i].pkg in Shown(lines[..i])))
  }

  lemma ShownOf(a: seq<Line>, b: seq<Line>)
    ensures Shown(a + b) == Shown(a) + Shown(b)
  {
    forall p | p in Shown(b) ensures p in Shown(a + b) {
      var i :| 0 <= i < |b| && b[i].Node? && b[i].pkg == p;
      assert (a + b)[|a| + i] == b[i];
    }
    forall p | p in Shown(a) ensures p in Shown(a + b) {
      var i :| 0 <= i < |a| && a[i].Node? && a[i].pkg == p;
      assert (a + b)[i] == a[i];
    }
  }

  lemma RepeatsJoin(edges: Graph, printed: set<Package>, a: seq<Line>, b: seq<Line>)
    requires Repeats(edges, printed, a) && Repeats(edges, printed + Shown(a), b)
    ensures Repeats(edges, printed, a + b)
  {
    hide Shown;
    var all := a + b;
    forall i | 0 <= i < |all| && all[i].Node?
      ensures all[i].repeated <==> all[i].pkg in edges && edges[all[i].pkg] != [] && (all[i].pkg in printed || all[i].pkg in Shown(all[..i]))
    {
      if i < |a| {
        assert all[..i] == a[..i] && all[i] == a[i];
      } else {
        assert all[..i] == a + b[..i - |a|] && all[i] == b[i - |a|];
        ShownOf(a, b[..i - |a|]);
      }
    }
  }

  ghost predicate RepeatsWell(edges: Graph, printed: set<Package>, r: Output) {
    Repeats(edges, printed, r.lines) && r.printed == printed + Shown(r.lines)
  }

  lemma RepeatsAppend(edges: Graph, printed: set<Package>, a: Output, b: Output)
    requires RepeatsWell(edges, printed, a) && RepeatsWell(edges, a.printed, b)
    ensures RepeatsWell(edges, printed, Append(a, b))
  {
    hide Repeats, Shown;
    RepeatsJoin(edges, printed, a.lines, b.lines);
    ShownOf(a.lines, b.lines);
  }

  lemma OneRepeats(edges: Graph, printed: set<Package>, line: Line)
    requires line.Node? && (line.repeated <==> line.pkg in edges && edges[line.pkg] != [] && line.pkg in printed)
    ensures RepeatsWell(edges, printed, Output([line], printed + {line.pkg}))
  {
    assert [line][..0] == [] && [line][0] == line;
    assert Shown([line]) == {line.pkg};
  }

  lemma {:induction false} RenderRepeats(infos: map<Package, Info>, edges: Graph, p: Package, printed: set<Package>, lead: string, childLead: string)
    requires Valid(infos, edges) && p in edges
    ensures RepeatsWell(edges, printed, Render(infos, edges, p, printed, lead, childLead))
    decreases edges.Keys - printed, 0
  {
    hide Valid, RenderKids, RepeatsWell, Kids;
    KidsAre(infos, edges, p);
    var kids := Kids(infos, edges, p);
    if kids == [] {
      OneRepeats(edges, printed, Node(lead, p, false));
    } else if p in printed {
      OneRepeats(edges, printed, Node(lead, p, true));
      assert printed + {p} == printed;
    } else {
      OneRepeats(edges, printed, Node(lead, p, false));
      assert edges.Keys - (printed + {p}) < edges.Keys - printed;
      KidsRepeat(infos, edges, kids, 0, printed + {p}, childLead);
      RepeatsAppend(edges, printed, Output([Node(lead, p, false)], printed + {p}), RenderKids(infos, edges, kids, 0, printed + {p}, childLead));
    }
  }

  lemma {:induction false} KidsRepeat(infos: map<Package, Info>, edges: Graph, kids: seq<Package>, i: nat, printed: set<Package>, lead: string)
    requires Valid(infos, edges) && i <= |kids| && forall q :: q in kids ==> q in edges
    ensures RepeatsWell(edges, printed, RenderKids(infos, edges, kids, i, printed, lead))
    decreases edges.Keys - printed, 1 + |kids| - i
  {
    hide Valid, Render, RepeatsWell;
    if i < |kids| {
      assert kids[i] in kids;
      var last := i == |kids| - 1;
      var mark, ground := lead + (if last then LAST else BRANCH), lead + (if last then BLANK else BAR);
      var first := Render(infos, edges, kids[i], printed, mark, ground);
      assert edges.Keys - first.printed <= edges.Keys - printed;
      RenderRepeats(infos, edges, kids[i], printed, mark, ground);
      KidsRepeat(infos, edges, kids, i + 1, first.printed, lead);
      RepeatsAppend(edges, printed, first, RenderKids(infos, edges, kids, i + 1, first.printed, lead));
    } else {
      NothingRepeats(edges, printed);
    }
  }

  lemma NothingRepeats(edges: Graph, printed: set<Package>)
    ensures RepeatsWell(edges, printed, Output([], printed))
    ensures RepeatsWell(edges, printed, Output([Empty], printed))
  {
    assert Shown([]) == {} && Shown([Empty]) == {};
  }

  lemma {:induction false} ForestRepeats(infos: map<Package, Info>, edges: Graph, roots: seq<Package>)
    requires Valid(infos, edges) && forall q :: q in roots ==> q in edges
    ensures RepeatsWell(edges, {}, RenderForest(infos, edges, roots))
  {
    hide Valid, Render, RepeatsWell;
    if roots != [] {
      var n := |roots| - 1;
      var front := RenderForest(infos, edges, roots[..n]);
      ForestRepeats(infos, edges, roots[..n]);
      NothingRepeats(edges, front.printed);
      var gap := Output(if n > 0 then [Empty] else [], front.printed);
      RepeatsAppend(edges, {}, front, gap);
      RenderRepeats(infos, edges, roots[n], front.printed, "", "");
      RepeatsAppend(edges, {}, Append(front, gap), Render(infos, edges, roots[n], front.printed, "", ""));
    } else {
      NothingRepeats(edges, {});
    }
  }
}
