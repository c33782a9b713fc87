/** Choosing the uncovered branches to report for one source file (dev/coverage_branches.py:100-141). */
module CoverageRank {
  import opened Brackets
  import opened Branches

  /** The tokens, the offsets of the line ends (the first one being -1), the hits of each measured line, and
      how many missed lines make a branch worth reporting. */
  datatype Source = Source(ts: seq<Token>, newlines: seq<int>, counts: map<int, int>, minimum: int)

  ghost predicate Valid(s: Source) { Ordered(s.ts) }

  /** `bisect_left`: how many line ends stand before the offset. */
  function LineNumber(newlines: seq<int>, offset: int): nat {
    if newlines == [] then 0
    else LineNumber(newlines[1..], offset) + (if newlines[0] < offset then 1 else 0)
  }

  lemma {:induction false} LinesAdvance(newlines: seq<int>, a: int, b: int)
    requires a <= b
    ensures LineNumber(newlines, a) <= LineNumber(newlines, b)
  {
    if newlines != [] {
      LinesAdvance(newlines[1..], a, b);
    }
  }

  /** The line on which an offset lies: it comes after the end of the line before and not after that of its own. */
  lemma {:induction false} LineNumberExactly(newlines: seq<int>, offset: int, line: nat)
    requires (forall i, j :: 0 <= i < j < |newlines| ==> newlines[i] < newlines[j]) && line <= |newlines|
    ensures LineNumber(newlines, offset) == line <==>
      (line > 0 ==> newlines[line - 1] < offset) && (line < |newlines| ==> offset <= newlines[line])
  {
    if newlines != [] {
      LineNumberExactly(newlines[1..], offset, 0);
      if line > 0 {
        LineNumberExactly(newlines[1..], offset, line - 1);
      }
      assert forall i :: 0 < i < |newlines| ==> newlines[i] == newlines[1..][i - 1];
    }
  }

  function LineOf(s: Source, i: nat): nat
    requires i < |s.ts|
  {
    LineNumber(s.newlines, s.ts[i].offset)
  }

  lemma LineAdvances(s: Source, i: nat, j: nat)
    requires Valid(s) && i <= j < |s.ts|
    ensures LineOf(s, i) <= LineOf(s, j)
  {
    assert i < j || i == j;
    LinesAdvance(s.newlines, s.ts[i].offset, s.ts[j].offset);
  }

  predicate InRange(s: Source, b: Branch) { b.index < |s.ts| && b.open < |s.ts| && b.close < |s.ts| }

  /** The measured lines strictly between the lines of the braces. */
  function Measured(s: Source, b: Branch): set<int>
    requires InRange(s, b)
  {
    set n | n in s.counts && LineOf(s, b.open) < n < LineOf(s, b.close)
  }

  function Missed(s: Source, b: Branch): set<int>
    requires InRange(s, b)
  {
    set n | n in Measured(s, b) && s.counts[n] == 0
  }

  predicate WorthReporting(s: Source, b: Branch)
    requires InRange(s, b)
  {
    |Missed(s, b)| >= s.minimum && Measured(s, b) == Missed(s, b)
  }

  ghost predicate Candidate(s: Source, b: Branch) {
    IsBranch(s.ts, b) && InRange(s, b) && WorthReporting(s, b)
  }

  /** `other` begins earlier and does not end before `b`. */
  predicate Subsumes(other: Branch, b: Branch) { other.index < b.index && b.close <= other.close }

  ghost predicate Kept(s: Source, b: Branch) {
    Candidate(s, b) && forall other :: Candidate(s, other) ==> !Subsumes(other, b)
  }

  predicate BodyWithin(b: Branch, other: Branch) { other.open <= b.open && b.close <= other.close }

  predicate BodiesApart(a: Branch, b: Branch) { a.close < b.open || b.close < a.open }

  datatype Row = Row(branch: Branch, line: nat, endLine: nat, uncovered: nat, bodyLines: int)

  function RowOf(s: Source, b: Branch): Row
    requires InRange(s, b)
  {
    Row(b, LineOf(s, b.index), LineOf(s, b.close), |Missed(s, b)|, LineOf(s, b.close) - LineOf(s, b.open) - 1)
  }

  /** A branch qualifies if the measured lines strictly between those of its braces were all missed and are
      enough, and is reported if no other that qualifies begins before it and ends no earlier. */
  lemma ReportedMeans(s: Source, b: Branch)
    ensures Kept(s, b) <==>
      && Candidate(s, b)
      && forall other :: Candidate(s, other) && other.index < b.index ==> other.close < b.close
    ensures Candidate(s, b) <==>
      && IsBranch(s.ts, b) && b.index < |s.ts| && b.open < |s.ts| && b.close < |s.ts|
      && var lines := (set n | n in s.counts && LineOf(s, b.open) < n < LineOf(s, b.close));
         (forall n :: n in lines ==> s.counts[n] == 0) && |lines| >= s.minimum
  {
    hide IsBranch;
    if InRange(s, b) {
      var lines := (set n | n in s.counts && LineOf(s, b.open) < n < LineOf(s, b.close));
      assert Measured(s, b) == lines;
      if Measured(s, b) == Missed(s, b) {
        forall n | n in lines ensures s.counts[n] == 0 {
          assert n in Missed(s, b);
        }
      }
      if forall n :: n in lines ==> s.counts[n] == 0 {
        assert Missed(s, b) == lines;
      }
    }
  }

  /** The row of a branch that qualifies. */
  lemma RowMeans(s: Source, b: Branch)
    requires Candidate(s, b)
    ensures var first, last := LineOf(s, b.open), LineOf(s, b.close);
      RowOf(s, b) == Row(b, LineOf(s, b.index), last, |set n | n in s.counts && first < n < last|, last - first - 1)
  {
    hide IsBranch;
    assert Measured(s, b) == set n | n in s.counts && LineOf(s, b.open) < n < LineOf(s, b.close);
  }

  /** `rank` without partial branches. The comparisons of offsets are those of token positions. */
  method Rank(s: Source) returns (rows: seq<Row>)
    requires Valid(s)
    ensures forall b :: Kept(s, b) <==> exists n :: 0 <= n < |rows| && rows[n].branch == b
    ensures forall n :: 0 <= n < |rows| ==> InRange(s, rows[n].branch) && rows[n] == RowOf(s, rows[n].branch)
    ensures forall m, n :: 0 <= m < n < |rows| ==> rows[m].branch.index < rows[n].branch.index
  {
    hide IsBranch, WorthReporting, RowOf, Encloses;
    var candidates := Candidates(s);
    rows := [];
    ghost var kept: seq<Branch> := [];
    for i := 0 to |candidates|
      invariant |kept| == |rows| && forall n :: 0 <= n < |rows| ==> InRange(s, kept[n]) && rows[n] == RowOf(s, kept[n]) && rows[n].branch == kept[n]
      invariant forall b :: b in kept <==> b in candidates[..i] && Kept(s, b)
      invariant forall n :: 0 <= n < |kept| ==> i > 0 && kept[n].index <= candidates[i - 1].index
      invariant forall m, n :: 0 <= m < n < |kept| ==> kept[m].index < kept[n].index
    {
      var entry := candidates[i];
      assert entry in candidates && candidates[..i + 1] == candidates[..i] + [entry];
      CandidateInRange(s, entry);
      var subsumed := exists other :: other in candidates && Encloses(s, other, entry);
      SubsumedExactly(s, candidates, entry);
      if !subsumed {
        rows := rows + [RowOf(s, entry)];
        RowNamesBranch(s, entry);
        kept := kept + [entry];
      }
    }
    assert candidates[..|candidates|] == candidates;
    forall b ensures Kept(s, b) <==> exists n :: 0 <= n < |rows| && rows[n].branch == b {
      KeptExactly(s, candidates, kept, b);
      assert forall n :: 0 <= n < |rows| ==> rows[n].branch == kept[n];
    }
  }

  lemma RowNamesBranch(s: Source, b: Branch)
    requires InRange(s, b)
    ensures RowOf(s, b).branch == b
  {
  }

  lemma KeptExactly(s: Source, candidates: seq<Branch>, kept: seq<Branch>, b: Branch)
    requires forall c :: c in candidates <==> Candidate(s, c)
    requires forall c :: c in kept <==> c in candidates && Kept(s, c)
    ensures Kept(s, b) <==> exists n :: 0 <= n < |kept| && kept[n] == b
  {
    hide Candidate;
    assert Kept(s, b) ==> Candidate(s, b);
    assert Kept(s, b) <==> b in kept;
  }

  /** The comparison of the keyword and end offsets of two candidates. */
  predicate Encloses(s: Source, other: Branch, b: Branch) {
    && InRange(s, other) && InRange(s, b)
    && s.ts[other.index].offset < s.ts[b.index].offset && s.ts[b.close].offset <= s.ts[other.close].offset
  }

  lemma SubsumedExactly(s: Source, candidates: seq<Branch>, b: Branch)
    requires Valid(s) && Candidate(s, b) && forall c :: c in candidates <==> Candidate(s, c)
    ensures Kept(s, b) <==> !exists other :: other in candidates && Encloses(s, other, b)
  {
    hide Candidate;
    assert InRange(s, b) by { CandidateInRange(s, b); }
    forall c | Candidate(s, c) ensures Subsumes(c, b) <==> Encloses(s, c, b) {
      CandidateInRange(s, c);
    }
  }

  lemma CandidateInRange(s: Source, b: Branch)
    requires Candidate(s, b)
    ensures InRange(s, b)
  {
  }

  method Candidates(s: Source) returns (candidates: seq<Branch>)
    ensures forall b :: b in candidates <==> Candidate(s, b)
    ensures forall m, n :: 0 <= m < n < |candidates| ==> candidates[m].index < candidates[n].index
  {
    var found := FindBranches(s.ts);
    candidates := [];
    for i := 0 to |found|
      invariant forall b :: b in candidates <==> b in found[..i] && Candidate(s, b)
      invariant forall m, n :: 0 <= m < n < |candidates| ==> candidates[m].index < candidates[n].index
      invariant forall n :: 0 <= n < |candidates| ==> i > 0 && candidates[n].index <= found[i - 1].index
    {
      var b := found[i];
      assert b in found;
      OpensLater(s.ts, b);
      hide IsBranch, WorthReporting;
      if WorthReporting(s, b) {
        candidates := candidates + [b];
      }
    }
    assert found[..|found|] == found;
  }

  // ---- No line is counted twice ----

  lemma KeptBodiesAreApart(s: Source, a: Branch, b: Branch)
    requires Kept(s, a) && Kept(s, b) && a.index < b.index
    ensures BodiesApart(a, b)
  {
    hide IsBranch, WorthReporting;
    BranchesNest(s.ts, a, b);
    assert !Subsumes(a, b);
  }

  lemma ApartLines(s: Source, a: Branch, b: Branch)
    requires Valid(s) && Candidate(s, a) && Candidate(s, b) && BodiesApart(a, b)
    ensures Missed(s, a) !! Missed(s, b)
  {
    hide IsBranch, WorthReporting, LineOf;
    if a.close < b.open {
      LineAdvances(s, a.close, b.open);
    } else {
      LineAdvances(s, b.close, a.open);
    }
    forall n | n in Missed(s, a) ensures n !in Missed(s, b) {
      assert n in Measured(s, a);
    }
  }

  /** Rows of different branches have disjoint bodies and no missed line in common. */
  lemma KeptShareNoLine(s: Source, a: Branch, b: Branch)
    requires Valid(s) && Kept(s, a) && Kept(s, b) && a.index != b.index
    ensures BodiesApart(a, b) && Missed(s, a) !! Missed(s, b)
  {
    hide IsBranch, WorthReporting, Missed;
    if a.index < b.index {
      KeptBodiesAreApart(s, a, b);
    } else {
      KeptBodiesAreApart(s, b, a);
    }
    ApartLines(s, a, b);
  }

  // ---- What is dropped ----

  /** Every candidate that is not reported lies between the keyword and the end of one that is. */
  lemma {:induction false} DroppedLiesInKept(s: Source, b: Branch) returns (k: Branch)
    requires Candidate(s, b)
    ensures Kept(s, k) && (k == b || Subsumes(k, b))
    decreases b.index
  {
    if Kept(s, b) {
      k := b;
    } else {
      var other :| Candidate(s, other) && Subsumes(other, b);
      k := DroppedLiesInKept(s, other);
    }
  }

  ghost predicate Reported(s: Source, line: int) { exists k :: Kept(s, k) && line in Missed(s, k) }

  lemma WithinLines(s: Source, b: Branch, k: Branch)
    requires Valid(s) && Candidate(s, b) && Candidate(s, k) && BodyWithin(b, k)
    ensures Missed(s, b) <= Missed(s, k)
  {
    hide IsBranch, WorthReporting, LineOf;
    LineAdvances(s, k.open, b.open);
    LineAdvances(s, b.close, k.close);
    forall n | n in Missed(s, b) ensures n in Missed(s, k) {
      assert n in Measured(s, b) && n in Measured(s, k);
    }
  }

  /** A candidate in no reported body has no line in common with any. */
  lemma OutsideIsUnreported(s: Source, b: Branch, line: int)
    requires Valid(s) && Candidate(s, b) && line in Missed(s, b) && forall k :: Kept(s, k) ==> !BodyWithin(b, k)
    ensures !Reported(s, line)
  {
    hide IsBranch, WorthReporting, Missed;
    forall k | Kept(s, k) ensures line !in Missed(s, k) {
      if k.index < b.index {
        BranchesNest(s.ts, k, b);
      } else if b.index < k.index {
        BranchesNest(s.ts, b, k);
        assert !Subsumes(b, k);
      } else {
        SameIndex(s, b, k);
      }
      ApartLines(s, b, k);
    }
  }

  lemma SameIndex(s: Source, a: Branch, b: Branch)
    requires Candidate(s, a) && Candidate(s, b) && a.index == b.index
    ensures a == b
  {
  }

  /** A candidate has all its missed lines counted exactly if it has none or lies within the body of a
      reported one. */
  lemma CountedInKept(s: Source, b: Branch)
    requires Valid(s) && Candidate(s, b)
    ensures (forall line :: line in Missed(s, b) ==> Reported(s, line))
      <==> Missed(s, b) == {} || exists k :: Kept(s, k) && BodyWithin(b, k)
    ensures s.minimum >= 1 ==> Missed(s, b) != {}
  {
    hide IsBranch, Kept;
    if k :| Kept(s, k) && BodyWithin(b, k) {
      KeptIsCandidate(s, k);
      WithinLines(s, b, k);
    } else if Missed(s, b) != {} {
      var line :| line in Missed(s, b);
      OutsideIsUnreported(s, b, line);
    }
  }

  // ---- What is dropped with its lines ----

  /** `b` lies between the keyword and the body of `other`: in a lambda in its condition, say. */
  predicate InHeader(b: Branch, other: Branch) { other.index < b.index && b.close < other.open }

  /** A candidate in no candidate's header. */
  ghost predicate Free(s: Source, b: Branch) {
    Candidate(s, b) && forall other :: Candidate(s, other) ==> !InHeader(b, other)
  }

  lemma KeptIsFree(s: Source, k: Branch)
    requires Kept(s, k)
    ensures Free(s, k)
  {
    hide IsBranch, WorthReporting;
    forall other | Candidate(s, other) ensures !InHeader(k, other) {
      OpensLater(s.ts, other);
      assert !Subsumes(other, k);
    }
  }

  /** What encloses a free candidate has it in its body, and is free. */
  lemma EnclosingIsFree(s: Source, b: Branch, other: Branch)
    requires Free(s, b) && Candidate(s, other) && Subsumes(other, b)
    ensures Free(s, other) && BodyWithin(b, other)
  {
    hide IsBranch, WorthReporting;
    BranchesNest(s.ts, other, b);
    assert !InHeader(b, other);
    forall c | Candidate(s, c) ensures !InHeader(other, c) {
      assert !InHeader(b, c);
    }
  }

  lemma {:induction false} FreeIsReported(s: Source, b: Branch) returns (k: Branch)
    requires Free(s, b)
    ensures Kept(s, k) && BodyWithin(b, k)
    decreases b.index
  {
    if Kept(s, b) {
      k := b;
    } else {
      var other :| Candidate(s, other) && Subsumes(other, b);
      EnclosingIsFree(s, b, other);
      k := FreeIsReported(s, other);
    }
  }

  ghost predicate InFreeBody(s: Source, b: Branch) { exists k :: Free(s, k) && BodyWithin(b, k) }

  /** A candidate has all its missed lines counted exactly if it has none, or lies in the body of a branch
      that is in no header of another. One in a header alone is dropped with its lines. */
  lemma CountedExactly(s: Source, b: Branch)
    requires Valid(s) && Candidate(s, b)
    ensures (forall line :: line in Missed(s, b) ==> Reported(s, line)) <==> Missed(s, b) == {} || InFreeBody(s, b)
    ensures s.minimum >= 1 ==> Missed(s, b) != {}
  {
    hide Candidate, Missed;
    CountedInKept(s, b);
    if k :| Kept(s, k) && BodyWithin(b, k) {
      KeptIsFree(s, k);
    }
    if k :| Free(s, k) && BodyWithin(b, k) {
      var top := FreeIsReported(s, k);
      assert BodyWithin(b, top);
    }
  }

  ghost predicate EverythingCounted(s: Source) {
    forall b, line :: Candidate(s, b) && line in Missed(s, b) ==> Reported(s, line)
  }

  /** No missed line of a candidate is lost exactly if every candidate that has some and lies in the header of
      another lies also in the body of a free one. */
  lemma NothingIsLostExactly(s: Source)
    requires Valid(s)
    ensures EverythingCounted(s) <==>
      forall b, other :: Candidate(s, b) && Candidate(s, other) && InHeader(b, other) ==> Missed(s, b) == {} || InFreeBody(s, b)
  {
    hide IsBranch, WorthReporting, Missed, InHeader;
    forall b | Candidate(s, b)
      ensures (forall line :: line in Missed(s, b) ==> Reported(s, line)) <==> Missed(s, b) == {} || InFreeBody(s, b)
      ensures Free(s, b) ==> InFreeBody(s, b)
    {
      CountedExactly(s, b);
    }
  }

  lemma KeptIsCandidate(s: Source, k: Branch)
    requires Kept(s, k)
    ensures Candidate(s, k)
  {
  }

  function TotalUncovered(rows: seq<Row>): nat {
    if rows == [] then 0 else TotalUncovered(rows[..|rows| - 1]) + rows[|rows| - 1].uncovered
  }

  /** The lines the rows speak of. */
  function LinesOf(s: Source, rows: seq<Row>): set<int>
    requires forall n :: 0 <= n < |rows| ==> InRange(s, rows[n].branch)
  {
    if rows == [] then {} else LinesOf(s, rows[..|rows| - 1]) + Missed(s, rows[|rows| - 1].branch)
  }

  /** The counts of the rows add up to the number of lines they speak of. */
  lemma {:induction false} TotalCountsEachLineOnce(s: Source, rows: seq<Row>)
    requires Valid(s)
    requires forall n :: 0 <= n < |rows| ==> Kept(s, rows[n].branch) && InRange(s, rows[n].branch) && rows[n] == RowOf(s, rows[n].branch)
    requires forall m, n :: 0 <= m < n < |rows| ==> rows[m].branch.index < rows[n].branch.index
    ensures TotalUncovered(rows) == |LinesOf(s, rows)|
  {
    hide Kept, Missed;
    if rows != [] {
      var last := |rows| - 1;
      TotalCountsEachLineOnce(s, rows[..last]);
      LinesApart(s, rows, last);
      assert LinesOf(s, rows) == LinesOf(s, rows[..last]) + Missed(s, rows[last].branch);
    }
  }

  lemma {:induction false} LinesApart(s: Source, rows: seq<Row>, k: nat)
    requires Valid(s) && k < |rows|
    requires forall n :: 0 <= n < |rows| ==> Kept(s, rows[n].branch) && InRange(s, rows[n].branch)
    requires forall n :: 0 <= n < |rows| - 1 ==> rows[n].branch.index < rows[|rows| - 1].branch.index
    ensures LinesOf(s, rows[..k]) !! Missed(s, rows[|rows| - 1].branch)
  {
    hide Kept, Missed;
    if k > 0 {
      LinesApart(s, rows, k - 1);
      KeptShareNoLine(s, rows[k - 1].branch, rows[|rows| - 1].branch);
      assert rows[..k][..k - 1] == rows[..k - 1];
    }
  }
}
