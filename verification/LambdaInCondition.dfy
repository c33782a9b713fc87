/** A branch within the condition of another (dev/coverage_branches.py:133-139), as in a lambda there: it
    lies between the keyword and the end of the other branch, so it is dropped as if it were part of the
    other's body, although that body begins later; and its missed lines are reported nowhere. */
module LambdaInCondition {
  import opened Brackets
  import opened Branches
  import opened CoverageRank

  function T(text: string, i: nat): Token { Token(text, 10 * i) }

  function Braces(i: nat): Forest { Group(T("{", i), Empty, T("}", i + 1), Empty) }

  /** `if ( do { } ) { }`, reduced to its keywords and brackets. */
  function Nested(): Forest { Single(T("if", 0), Group(T("(", 1), Single(T("do", 2), Braces(3)), T(")", 5), Braces(6))) }

  function Texts(): seq<Token> {
    [T("if", 0), T("(", 1), T("do", 2), T("{", 3), T("}", 4), T(")", 5), T("{", 6), T("}", 7)]
  }

  /** One missed line in each of the two bodies: line 2 and line 4. */
  function Example(): Source { Source(Texts(), [-1, 31, 32, 61, 62], map[2 := 0, 4 := 0], 1) }

  const OUTER := Branch(0, 6, 7)
  const INNER := Branch(2, 3, 4)

  lemma TokensOfNested()
    ensures Tokens(Nested()) == Texts() && Balanced(Nested())
  {
    assert Tokens(Braces(3)) == [T("{", 3), T("}", 4)] && Tokens(Braces(6)) == [T("{", 6), T("}", 7)];
    assert Tokens(Single(T("do", 2), Braces(3))) == [T("do", 2), T("{", 3), T("}", 4)];
    assert Balanced(Single(T("do", 2), Braces(3))) && Balanced(Braces(6));
  }

  lemma PairsOfExample()
    ensures PairsOf(Texts()) == map[1 := 5, 3 := 4, 6 := 7]
  {
    TokensOfNested();
    BalancedIsPairedAsNested(Nested());
    GroupsOfExample();
    hide PairsOf, Groups, Tokens, Balanced;
  }

  lemma GroupsOfExample()
    ensures Groups(Nested(), 0) == map[1 := 5, 3 := 4, 6 := 7]
  {
    assert Groups(Braces(3), 3) == map[3 := 4] && Groups(Braces(6), 6) == map[6 := 7];
    assert |Tokens(Braces(3))| == 2;
    assert |Tokens(Single(T("do", 2), Braces(3)))| == 3;
    assert Groups(Single(T("do", 2), Braces(3)), 2) == map[3 := 4];
  }

  lemma BodyOfExample(pairs: map<nat, nat>, i: nat)
    requires pairs == map[1 := 5, 3 := 4, 6 := 7] && PairsWell(Texts(), pairs) && i < 8
    ensures BodyStart(Texts(), pairs, i) == if i == 0 then 6 else if i == 2 then 3 else 8
  {
    hide PairsWell, LabelEnd;
  }

  lemma BranchesOfExample(b: Branch)
    ensures IsBranch(Texts(), b) <==> b == OUTER || b == INNER
  {
    PairsNeverCross(Texts());
    PairsOfExample();
    hide PairsOf, BodyStart, PairsWell;
    if b.index < 8 {
      BodyOfExample(PairsOf(Texts()), b.index);
    }
    BodyOfExample(PairsOf(Texts()), 0);
    BodyOfExample(PairsOf(Texts()), 2);
  }

  lemma LinesOfExample()
    ensures InRange(Example(), OUTER) && InRange(Example(), INNER)
    ensures Missed(Example(), OUTER) == Measured(Example(), OUTER) == {4}
    ensures Missed(Example(), INNER) == Measured(Example(), INNER) == {2}
  {
    var newlines: seq<int> := [-1, 31, 32, 61, 62];
    assert LineNumber([], 0) == 0;
    forall offset ensures LineNumber(newlines, offset) == Below(-1, offset) + Below(31, offset) + Below(32, offset) + Below(61, offset) + Below(62, offset) {
      LineNumberOfFive(-1, 31, 32, 61, 62, offset);
    }
    assert LineOf(Example(), 3) == 1 && LineOf(Example(), 4) == 3 && LineOf(Example(), 6) == 3 && LineOf(Example(), 7) == 5;
  }

  function Below(line: int, offset: int): nat { if line < offset then 1 else 0 }

  lemma LineNumberOfFive(a: int, b: int, c: int, d: int, e: int, offset: int)
    ensures LineNumber([a, b, c, d, e], offset) == Below(a, offset) + Below(b, offset) + Below(c, offset) + Below(d, offset) + Below(e, offset)
  {
    Ahead(a, [b, c, d, e], offset);
    Ahead(b, [c, d, e], offset);
    Ahead(c, [d, e], offset);
    Ahead(d, [e], offset);
    Ahead(e, [], offset);
    assert [a] + [b, c, d, e] == [a, b, c, d, e] && [b] + [c, d, e] == [b, c, d, e] && [c] + [d, e] == [c, d, e];
    assert [d] + [e] == [d, e] && [e] + [] == [e];
  }

  lemma Ahead(line: int, more: seq<int>, offset: int)
    ensures LineNumber([line] + more, offset) == Below(line, offset) + LineNumber(more, offset)
  {
    assert ([line] + more)[1..] == more;
  }

  /** Both branches qualify, the outer one is reported, and the inner one's missed line is in no report. */
  lemma InnerIsLost()
    ensures Candidate(Example(), OUTER) && Candidate(Example(), INNER)
    ensures Kept(Example(), OUTER) && !Kept(Example(), INNER)
    ensures 2 in Missed(Example(), INNER) && !Reported(Example(), 2)
  {
    hide IsBranch, Missed, Measured;
    var s := Example();
    LinesOfExample();
    BranchesOfExample(OUTER);
    BranchesOfExample(INNER);
    assert Subsumes(OUTER, INNER);
    forall b | Candidate(s, b) ensures b == OUTER || b == INNER {
      BranchesOfExample(b);
    }
    OutsideIsUnreported(s, INNER, 2);
  }
}
