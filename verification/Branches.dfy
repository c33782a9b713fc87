/** Braced branches of a token sequence (dev/coverage_branches.py:48-69), by what their keyword requires. */
module Branches {
  import opened Brackets

  predicate HasCondition(text: string) { text == "if" || text == "switch" || text == "for" || text == "while" }

  predicate IsLabel(text: string) { text == "case" || text == "default" }

  predicate EndsLabel(text: string) { text == ":" || text == "{" || text == "}" || text == ";" }

  predicate Ordered(ts: seq<Token>) { forall i, j :: 0 <= i < j < |ts| ==> ts[i].offset < ts[j].offset }

  /** Where the search for a label's colon stops; brackets are stepped over. */
  function LabelEnd(ts: seq<Token>, pairs: map<nat, nat>, opening: nat): (r: nat)
    requires PairsWell(ts, pairs)
    ensures r >= opening
    decreases |ts| - opening
  {
    if opening >= |ts| || EndsLabel(ts[opening].text) then opening
    else LabelEnd(ts, pairs, (if opening in pairs then pairs[opening] else opening) + 1)
  }

  predicate IsAt(ts: seq<Token>, pairs: map<nat, nat>, i: nat, text: string) {
    i in pairs && i < |ts| && ts[i].text == text
  }

  /** The token that must be the opening brace, for the keyword at `index`. */
  function BodyStart(ts: seq<Token>, pairs: map<nat, nat>, index: nat): nat
    requires PairsWell(ts, pairs) && index < |ts|
  {
    var text := ts[index].text;
    if HasCondition(text) then
      var i := if text == "if" && index + 1 < |ts| && ts[index + 1].text == "constexpr" then index + 2 else index + 1;
      if IsAt(ts, pairs, i, "(") then pairs[i] + 1 else |ts|
    else if IsLabel(text) then
      var i := LabelEnd(ts, pairs, index + 1);
      if i < |ts| && ts[i].text == ":" then i + 1 else |ts|
    else if text == "else" || text == "do" then index + 1
    else |ts|
  }

  /** A keyword and the braces of its body, as positions in the token sequence. */
  datatype Branch = Branch(index: nat, open: nat, close: nat)

  predicate Braced(ts: seq<Token>, pairs: map<nat, nat>, index: nat)
    requires PairsWell(ts, pairs)
  {
    index < |ts| && IsAt(ts, pairs, BodyStart(ts, pairs, index), "{")
  }

  ghost predicate IsBranch(ts: seq<Token>, b: Branch) {
    PairsWell(ts, PairsOf(ts)) && Braced(ts, PairsOf(ts), b.index)
    && b.open == BodyStart(ts, PairsOf(ts), b.index) && b.close == PairsOf(ts)[b.open]
  }

  method FindLabelEnd(ts: seq<Token>, pairs: map<nat, nat>, start: nat) returns (opening: nat)
    requires PairsWell(ts, pairs)
    ensures opening == LabelEnd(ts, pairs, start)
  {
    opening := start;
    while opening < |ts| && !EndsLabel(ts[opening].text)
      invariant LabelEnd(ts, pairs, start) == LabelEnd(ts, pairs, opening)
      decreases |ts| - opening
    {
      if opening in pairs {
        opening := pairs[opening];
      }
      opening := opening + 1;
    }
  }

  method FindBodyStart(ts: seq<Token>, pairs: map<nat, nat>, index: nat) returns (opening: nat)
    requires PairsWell(ts, pairs) && index < |ts|
    ensures opening == BodyStart(ts, pairs, index)
  {
    hide PairsWell, LabelEnd;
    var text := ts[index].text;
    opening := index + 1;
    if HasCondition(text) {
      if text == "if" && opening < |ts| && ts[opening].text == "constexpr" {
        opening := opening + 1;
      }
      if opening !in pairs || opening >= |ts| || ts[opening].text != "(" {
        return |ts|;
      }
      opening := pairs[opening] + 1;
    } else if IsLabel(text) {
      opening := FindLabelEnd(ts, pairs, opening);
      if opening >= |ts| || ts[opening].text != ":" {
        return |ts|;
      }
      opening := opening + 1;
    } else if text != "else" && text != "do" {
      return |ts|;
    }
  }

  /** `branches`: every keyword with a braced body, once, in the order of the text. */
  method FindBranches(ts: seq<Token>) returns (found: seq<Branch>)
    ensures forall b :: b in found <==> IsBranch(ts, b)
    ensures forall m, n :: 0 <= m < n < |found| ==> found[m].index < found[n].index
  {
    var pairs := FindPairs(ts);
    PairsNeverCross(ts);
    hide PairsWell, BodyStart;
    found := [];
    for index := 0 to |ts|
      invariant forall b :: b in found <==> IsBranch(ts, b) && b.index < index
      invariant forall m, n :: 0 <= m < n < |found| ==> found[m].index < found[n].index
    {
      var opening := FindBodyStart(ts, pairs, index);
      if opening in pairs && opening < |ts| && ts[opening].text == "{" {
        ghost var before := found;
        found := found + [Branch(index, opening, pairs[opening])];
        assert IsBranch(ts, found[|before|]);
      }
    }
  }

  // ---- Which keywords have a body ----

  /** `k` lies in a bracket that begins at `start` or later. */
  ghost predicate Within(pairs: map<nat, nat>, start: nat, k: nat) { exists j :: j in pairs && start <= j < k <= pairs[j] }

  /** From `start` on the first token outside brackets that ends a label is the one at `colon`. */
  ghost predicate LabelReaches(ts: seq<Token>, pairs: map<nat, nat>, start: nat, colon: nat) {
    && start <= colon < |ts| && !Within(pairs, start, colon) && EndsLabel(ts[colon].text)
    && forall k :: start <= k < colon && !Within(pairs, start, k) ==> !EndsLabel(ts[k].text)
  }

  /** Between `start` and the colon, outside brackets, there is no other colon, brace or semicolon. */
  ghost predicate IsLabelColon(ts: seq<Token>, pairs: map<nat, nat>, start: nat, colon: nat) {
    && start <= colon < |ts| && !Within(pairs, start, colon) && ts[colon].text == ":"
    && forall k :: start <= k < colon && !Within(pairs, start, k) ==>
         ts[k].text != ":" && ts[k].text != "{" && ts[k].text != "}" && ts[k].text != ";"
  }

  lemma LabelColonReaches(ts: seq<Token>, pairs: map<nat, nat>, start: nat, colon: nat)
    ensures IsLabelColon(ts, pairs, start, colon) <==> LabelReaches(ts, pairs, start, colon) && ts[colon].text == ":"
  {
    hide Within;
  }

  lemma LabelStep(ts: seq<Token>, pairs: map<nat, nat>, start: nat, next: nat, k: nat)
    requires PairsWell(ts, pairs) && next == (if start in pairs then pairs[start] else start) + 1 && k >= next
    ensures Within(pairs, start, k) <==> Within(pairs, next, k)
  {
    if j :| j in pairs && start <= j < k <= pairs[j] {
      assert j >= next;
    }
    if j :| j in pairs && next <= j < k <= pairs[j] {
    }
  }

  lemma {:induction false} LabelEndExactly(ts: seq<Token>, pairs: map<nat, nat>, start: nat, colon: nat)
    requires PairsWell(ts, pairs)
    ensures colon < |ts| && LabelEnd(ts, pairs, start) == colon <==> LabelReaches(ts, pairs, start, colon)
    decreases |ts| - start
  {
    hide PairsWell, EndsLabel;
    if start < |ts| && !EndsLabel(ts[start].text) {
      var next := (if start in pairs then pairs[start] else start) + 1;
      PairsForward(ts, pairs, start);
      LabelEndExactly(ts, pairs, next, colon);
      LabelOn(ts, pairs, start, next, colon);
    }
  }

  lemma PairsForward(ts: seq<Token>, pairs: map<nat, nat>, start: nat)
    requires PairsWell(ts, pairs)
    ensures start in pairs ==> start < pairs[start] < |ts|
  {
  }

  /** A token that ends no label, and what it brackets, is passed over. */
  lemma LabelOn(ts: seq<Token>, pairs: map<nat, nat>, start: nat, next: nat, colon: nat)
    requires PairsWell(ts, pairs) && start < |ts| && !EndsLabel(ts[start].text)
    requires next == (if start in pairs then pairs[start] else start) + 1
    ensures LabelReaches(ts, pairs, start, colon) <==> LabelReaches(ts, pairs, next, colon)
  {
    hide PairsWell, EndsLabel;
    forall k | k >= next ensures Within(pairs, start, k) <==> Within(pairs, next, k) {
      LabelStep(ts, pairs, start, next, k);
    }
    forall k | start < k < next ensures Within(pairs, start, k) {
      assert start in pairs && start <= start < k <= pairs[start];
    }
    PairsForward(ts, pairs, start);
    NothingWithin(pairs, start);
    if LabelReaches(ts, pairs, start, colon) {
      assert colon != start;
    }
    if LabelReaches(ts, pairs, next, colon) {
      assert next > start;
    }
  }

  lemma NothingWithin(pairs: map<nat, nat>, start: nat)
    ensures !Within(pairs, start, start)
  {
  }

  /** A parenthesis begins at `start`, and after it comes `open`. */
  predicate AfterParentheses(ts: seq<Token>, pairs: map<nat, nat>, start: nat, open: nat) {
    start < |ts| && ts[start].text == "(" && start in pairs && open == pairs[start] + 1
  }

  /** Where the body of a keyword begins: after `else` and `do` at once, after the parenthesis of `switch`, `for`,
      `while`, `if` and `if constexpr`, and after the colon of `case` and `default`. */
  ghost predicate BodyFollows(ts: seq<Token>, pairs: map<nat, nat>, index: nat, open: nat)
    requires index < |ts|
  {
    match ts[index].text
    case "else" => open == index + 1
    case "do" => open == index + 1
    case "switch" => AfterParentheses(ts, pairs, index + 1, open)
    case "for" => AfterParentheses(ts, pairs, index + 1, open)
    case "while" => AfterParentheses(ts, pairs, index + 1, open)
    case "if" => AfterParentheses(ts, pairs, if index + 1 < |ts| && ts[index + 1].text == "constexpr" then index + 2 else index + 1, open)
    case "case" => open > 0 && IsLabelColon(ts, pairs, index + 1, open - 1)
    case "default" => open > 0 && IsLabelColon(ts, pairs, index + 1, open - 1)
    case _ => false
  }

  /** Exactly the keywords with a body in braces are branches. */
  lemma BranchesExactly(ts: seq<Token>, b: Branch)
    ensures var pairs := PairsOf(ts);
      IsBranch(ts, b) <==>
        && b.index < |ts| && b.open < |ts| && BodyFollows(ts, pairs, b.index, b.open)
        && ts[b.open].text == "{" && b.open in pairs && b.close == pairs[b.open]
  {
    PairsNeverCross(ts);
    hide PairsWell, PairsOf;
    if b.index < |ts| && b.open < |ts| {
      BodyStartExactly(ts, PairsOf(ts), b.index, b.open);
    }
  }

  lemma BodyStartExactly(ts: seq<Token>, pairs: map<nat, nat>, index: nat, open: nat)
    requires PairsWell(ts, pairs) && index < |ts| && open < |ts|
    ensures BodyStart(ts, pairs, index) == open <==> BodyFollows(ts, pairs, index, open)
  {
    hide PairsWell, LabelEnd, LabelReaches, IsLabelColon;
    if open > 0 {
      LabelEndExactly(ts, pairs, index + 1, open - 1);
      LabelColonReaches(ts, pairs, index + 1, open - 1);
    }
  }

  // ---- Bodies of different branches ----

  /** What lies between a keyword and its opening brace, other than in brackets, is no brace; so braces that
      begin there also end there. */
  lemma {:induction false} LabelSkips(ts: seq<Token>, pairs: map<nat, nat>, start: nat, i: nat)
    requires PairsWell(ts, pairs) && start <= i < LabelEnd(ts, pairs, start) && IsAt(ts, pairs, i, "{")
    ensures pairs[i] < LabelEnd(ts, pairs, start)
    decreases |ts| - start
  {
    assert start < |ts| && !EndsLabel(ts[start].text);
    var next := (if start in pairs then pairs[start] else start) + 1;
    if start in pairs && start < i < pairs[start] {
      assert pairs[i] < pairs[start] < next <= LabelEnd(ts, pairs, next);
    } else {
      assert i != start && next <= i by { assert start in pairs ==> Fits(ts[start].text, ts[pairs[start]].text); }
      LabelSkips(ts, pairs, next, i);
    }
  }

  lemma HeaderIsClosed(ts: seq<Token>, b: Branch, i: nat)
    requires IsBranch(ts, b) && b.index < i < b.open && IsAt(ts, PairsOf(ts), i, "{")
    ensures PairsOf(ts)[i] < b.open
  {
    var pairs := PairsOf(ts);
    var text := ts[b.index].text;
    if HasCondition(text) {
      var p := if text == "if" && b.index + 1 < |ts| && ts[b.index + 1].text == "constexpr" then b.index + 2 else b.index + 1;
      assert pairs[p] + 1 == b.open && ts[pairs[p]].text == ")";
      assert p < i by { assert ts[p].text == "("; }
      assert i < pairs[p];
    } else if IsLabel(text) {
      LabelSkips(ts, pairs, b.index + 1, i);
    }
  }

  /** Two branches are disjoint, or the later one lies in the earlier one's body, in its header, or shares
      its braces. */
  lemma BranchesNest(ts: seq<Token>, a: Branch, b: Branch)
    requires IsBranch(ts, a) && IsBranch(ts, b) && a.index < b.index
    ensures a.index < a.open < a.close && b.index < b.open < b.close
    ensures a.close < b.open || (a.open <= b.open && b.close <= a.close) || b.close < a.open
  {
    OpensLater(ts, a);
    OpensLater(ts, b);
    var pairs := PairsOf(ts);
    assert pairs[a.open] == a.close && pairs[b.open] == b.close;
    if b.open < a.open {
      HeaderIsClosed(ts, a, b.open);
    }
  }

  lemma OpensLater(ts: seq<Token>, b: Branch)
    requires IsBranch(ts, b)
    ensures b.index < b.open < b.close < |ts|
  {
    assert b.open in PairsOf(ts);
  }
}
