/** Pairing brackets with a stack (dev/coverage_branches.py:38-47). */
module Brackets {
  // A closing bracket that does not fit the innermost open one is passed over, so any token sequence has a
  // pairing.

  datatype Token = Token(text: string, offset: nat)

  predicate Opens(text: string) { text == "(" || text == "{" || text == "[" }

  predicate Closes(text: string) { text == ")" || text == "}" || text == "]" }

  predicate Fits(open: string, close: string) {
    (open == "(" && close == ")") || (open == "{" && close == "}") || (open == "[" && close == "]")
  }

  /** The open brackets and the pairs found so far, as positions in the token sequence. */
  datatype Scan = Scan(stack: seq<nat>, pairs: map<nat, nat>)

  ghost predicate Inside(s: Scan, n: nat) { forall a :: 0 <= a < |s.stack| ==> s.stack[a] < n }

  function Step(ts: seq<Token>, s: Scan, k: nat): (r: Scan)
    requires k < |ts| && Inside(s, |ts|)
    ensures Inside(r, |ts|)
  {
    var text := ts[k].text;
    if Opens(text) then Scan(s.stack + [k], s.pairs)
    else if Closes(text) && s.stack != [] && Fits(ts[s.stack[|s.stack| - 1]].text, text) then
      Scan(s.stack[..|s.stack| - 1], s.pairs[s.stack[|s.stack| - 1] := k])
    else s
  }

  /** Scanning the tokens from `k` up to `n`. */
  function Run(ts: seq<Token>, s: Scan, k: nat, n: nat): (r: Scan)
    requires k <= n <= |ts| && Inside(s, |ts|)
    ensures Inside(r, |ts|)
    decreases n
  {
    if k == n then s else Step(ts, Run(ts, s, k, n - 1), n - 1)
  }

  const START := Scan([], map[])

  function PairsOf(ts: seq<Token>): map<nat, nat> { Run(ts, START, 0, |ts|).pairs }

  /** The pairing loop. */
  method FindPairs(ts: seq<Token>) returns (pairs: map<nat, nat>)
    ensures pairs == PairsOf(ts)
  {
    pairs := map[];
    var stack: seq<nat> := [];
    for index := 0 to |ts|
      invariant Scan(stack, pairs) == Run(ts, START, 0, index)
    {
      var token := ts[index].text;
      if Opens(token) {
        stack := stack + [index];
      } else if Closes(token) {
        if stack != [] && Fits(ts[stack[|stack| - 1]].text, token) {
          pairs := pairs[stack[|stack| - 1] := index];
          stack := stack[..|stack| - 1];
        }
      }
    }
  }

  // ---- Pairs never cross ----

  ghost predicate PairsWell(ts: seq<Token>, pairs: map<nat, nat>) {
    && (forall i {:trigger pairs[i]} :: i in pairs ==> i < pairs[i] < |ts| && Fits(ts[i].text, ts[pairs[i]].text))
    && forall i, j {:trigger pairs[i], pairs[j]} :: i in pairs && j in pairs && i < j ==> pairs[i] < j || pairs[j] < pairs[i]
  }

  ghost predicate ScanWell(ts: seq<Token>, s: Scan, k: nat) {
    && PairsWell(ts, s.pairs)
    && (forall a, b :: 0 <= a < b < |s.stack| ==> s.stack[a] < s.stack[b])
    && (forall a :: 0 <= a < |s.stack| ==> s.stack[a] < k)
    && (forall i {:trigger s.pairs[i]} :: i in s.pairs ==> s.pairs[i] < k)
    && forall i, a {:trigger s.pairs[i], s.stack[a]} ::
         i in s.pairs && 0 <= a < |s.stack| ==> s.stack[a] < i || s.pairs[i] < s.stack[a]
  }

  lemma {:induction false} RunWell(ts: seq<Token>, n: nat)
    requires n <= |ts|
    ensures ScanWell(ts, Run(ts, START, 0, n), n)
  {
    if n > 0 {
      RunWell(ts, n - 1);
      StepWell(ts, Run(ts, START, 0, n - 1), n - 1);
    }
  }

  lemma StepWell(ts: seq<Token>, s: Scan, k: nat)
    requires k < |ts| && Inside(s, |ts|) && ScanWell(ts, s, k)
    ensures ScanWell(ts, Step(ts, s, k), k + 1)
  {
    hide Opens, Closes, Fits, ScanWell;
    var text := ts[k].text;
    if Opens(text) {
      PushWell(ts, s, k);
    } else if Closes(text) && s.stack != [] && Fits(ts[s.stack[|s.stack| - 1]].text, text) {
      PopWell(ts, s, k);
    } else {
      SkipWell(ts, s, k);
    }
  }

  lemma SkipWell(ts: seq<Token>, s: Scan, k: nat)
    requires k < |ts| && ScanWell(ts, s, k)
    ensures ScanWell(ts, s, k + 1)
  {
    hide Fits;
  }

  lemma PushWell(ts: seq<Token>, s: Scan, k: nat)
    requires k < |ts| && ScanWell(ts, s, k)
    ensures ScanWell(ts, Scan(s.stack + [k], s.pairs), k + 1)
  {
    hide Fits;
  }

  lemma PopWell(ts: seq<Token>, s: Scan, k: nat)
    requires k < |ts| && ScanWell(ts, s, k) && s.stack != [] && s.stack[|s.stack| - 1] < |ts|
    requires Fits(ts[s.stack[|s.stack| - 1]].text, ts[k].text)
    ensures ScanWell(ts, Scan(s.stack[..|s.stack| - 1], s.pairs[s.stack[|s.stack| - 1] := k]), k + 1)
  {
    hide Fits;
    var top := s.stack[|s.stack| - 1];
    AddPair(ts, s.pairs, top, k);
    var stack := s.stack[..|s.stack| - 1];
    assert forall a :: 0 <= a < |stack| ==> stack[a] == s.stack[a] && s.stack[a] < top;
    hide PairsWell;
  }

  lemma AddPair(ts: seq<Token>, pairs: map<nat, nat>, top: nat, k: nat)
    requires PairsWell(ts, pairs) && top < k < |ts| && Fits(ts[top].text, ts[k].text)
    requires forall i {:trigger pairs[i]} :: i in pairs ==> pairs[i] < k && (top < i || pairs[i] < top)
    ensures PairsWell(ts, pairs[top := k])
  {
    hide Fits;
    assert top !in pairs;
    assert forall i :: i in pairs ==> pairs[top := k][i] == pairs[i];
  }

  /** Whatever the tokens, every pair is an opening bracket and a later closing one of its kind, and two
      pairs are either disjoint or nested. */
  lemma PairsNeverCross(ts: seq<Token>)
    ensures PairsWell(ts, PairsOf(ts))
  {
    RunWell(ts, |ts|);
  }

  // ---- What is paired with what ----

  /** The bracket at `i` is not closed before `j`. */
  predicate StillOpen(pairs: map<nat, nat>, i: nat, j: nat) { i !in pairs || pairs[i] >= j }

  /** The innermost bracket that is open at `j`. */
  ghost predicate Innermost(ts: seq<Token>, pairs: map<nat, nat>, i: nat, j: nat)
    requires j <= |ts|
  {
    && i < j && Opens(ts[i].text) && StillOpen(pairs, i, j)
    && forall k: nat {:trigger StillOpen(pairs, k, j)} :: i < k < j && Opens(ts[k].text) ==> !StillOpen(pairs, k, j)
  }

  ghost predicate PairedUpTo(ts: seq<Token>, pairs: map<nat, nat>, n: nat)
    requires n <= |ts|
  {
    forall i: nat, j: nat {:trigger Innermost(ts, pairs, i, j)} :: 0 <= j < n ==>
      (i in pairs && pairs[i] == j <==> Innermost(ts, pairs, i, j) && Fits(ts[i].text, ts[j].text))
  }

  /** The stack holds the brackets still open, innermost last. */
  ghost predicate StackExact(ts: seq<Token>, s: Scan, n: nat)
    requires n <= |ts|
  {
    && (forall k: nat :: k in s.stack <==> k < n && Opens(ts[k].text) && k !in s.pairs)
    && (forall k :: k in s.pairs ==> s.pairs[k] < n)
    && forall a, b :: 0 <= a < b < |s.stack| ==> s.stack[a] < s.stack[b]
  }

  lemma TopIsInnermost(ts: seq<Token>, s: Scan, n: nat, i: nat)
    requires n <= |ts| && StackExact(ts, s, n)
    ensures Innermost(ts, s.pairs, i, n) <==> s.stack != [] && i == s.stack[|s.stack| - 1]
  {
    forall k: nat ensures StillOpen(s.pairs, k, n) <==> k !in s.pairs {
    }
    if s.stack != [] {
      var top := s.stack[|s.stack| - 1];
      assert top in s.stack;
      forall k | k in s.stack ensures k <= top {
      }
    }
  }

  /** A pair that closes at `n` changes nothing about what was open before. */
  lemma PairAtEnd(ts: seq<Token>, pairs: map<nat, nat>, i: nat, n: nat, k: nat, j: nat)
    requires j <= n < |ts| && i !in pairs
    ensures Innermost(ts, pairs[i := n], k, j) <==> Innermost(ts, pairs, k, j)
  {
    var after := pairs[i := n];
    forall m: nat ensures StillOpen(after, m, j) <==> StillOpen(pairs, m, j) {
    }
  }

  lemma FitsMeans(a: string, b: string)
    requires Fits(a, b)
    ensures Opens(a) && Closes(b) && !Opens(b)
  {
  }

  lemma StepPairs(ts: seq<Token>, s: Scan, n: nat)
    requires n < |ts| && Inside(s, |ts|) && StackExact(ts, s, n) && PairedUpTo(ts, s.pairs, n)
    ensures StackExact(ts, Step(ts, s, n), n + 1) && PairedUpTo(ts, Step(ts, s, n).pairs, n + 1)
  {
    hide Fits, Opens, Closes, Innermost, StackExact, PairedUpTo;
    forall i: nat ensures Innermost(ts, s.pairs, i, n) <==> s.stack != [] && i == s.stack[|s.stack| - 1] {
      TopIsInnermost(ts, s, n, i);
    }
    var text := ts[n].text;
    if s.stack != [] && Fits(ts[s.stack[|s.stack| - 1]].text, text) {
      FitsMeans(ts[s.stack[|s.stack| - 1]].text, text);
    }
    if !Opens(text) && Closes(text) && s.stack != [] && Fits(ts[s.stack[|s.stack| - 1]].text, text) {
      StepCloses(ts, s, n);
    } else {
      StepPasses(ts, s, n);
    }
  }

  lemma StepCloses(ts: seq<Token>, s: Scan, n: nat)
    requires n < |ts| && Inside(s, |ts|) && StackExact(ts, s, n) && PairedUpTo(ts, s.pairs, n)
    requires !Opens(ts[n].text) && s.stack != [] && Fits(ts[s.stack[|s.stack| - 1]].text, ts[n].text)
    requires forall i: nat :: Innermost(ts, s.pairs, i, n) <==> i == s.stack[|s.stack| - 1]
    ensures var top := s.stack[|s.stack| - 1]; var pairs := s.pairs[top := n];
      StackExact(ts, Scan(s.stack[..|s.stack| - 1], pairs), n + 1) && PairedUpTo(ts, pairs, n + 1)
  {
    hide Fits, Opens, Closes, Innermost;
    var top := s.stack[|s.stack| - 1];
    assert top in s.stack;
    var stack, pairs := s.stack[..|s.stack| - 1], s.pairs[top := n];
    forall k: nat ensures k in stack <==> k in s.stack && k != top {
      if k in s.stack && k != top {
        var a :| 0 <= a < |s.stack| && s.stack[a] == k;
        assert stack[a] == k;
      }
    }
    hide StackExact;
    forall i: nat, j: nat | j <= n ensures Innermost(ts, pairs, i, j) <==> Innermost(ts, s.pairs, i, j) {
      StackGives(ts, s, n, top);
      PairAtEnd(ts, s.pairs, top, n, i, j);
    }
    StackGives(ts, s, n, top);
  }

  lemma StackGives(ts: seq<Token>, s: Scan, n: nat, k: nat)
    requires n <= |ts| && StackExact(ts, s, n) && k in s.stack
    ensures k < n && k !in s.pairs && forall i :: i in s.pairs ==> s.pairs[i] < n
  {
  }

  lemma StepPasses(ts: seq<Token>, s: Scan, n: nat)
    requires n < |ts| && Inside(s, |ts|) && StackExact(ts, s, n) && PairedUpTo(ts, s.pairs, n)
    requires forall i: nat :: Innermost(ts, s.pairs, i, n) <==> s.stack != [] && i == s.stack[|s.stack| - 1]
    requires Opens(ts[n].text) || s.stack == [] || !Fits(ts[s.stack[|s.stack| - 1]].text, ts[n].text)
    ensures StackExact(ts, if Opens(ts[n].text) then Scan(s.stack + [n], s.pairs) else s, n + 1) && PairedUpTo(ts, s.pairs, n + 1)
  {
    hide Fits, Opens, Closes, Innermost;
    if s.stack != [] && Fits(ts[s.stack[|s.stack| - 1]].text, ts[n].text) {
      FitsMeans(ts[s.stack[|s.stack| - 1]].text, ts[n].text);
    }
    PairsStand(ts, s, n);
    assert s.stack == [] || !Fits(ts[s.stack[|s.stack| - 1]].text, ts[n].text);
    NothingCloses(ts, s.pairs, n);
  }

  lemma NothingCloses(ts: seq<Token>, pairs: map<nat, nat>, n: nat)
    requires n < |ts| && PairedUpTo(ts, pairs, n) && forall k :: k in pairs ==> k < pairs[k] < n
    requires forall i: nat :: Innermost(ts, pairs, i, n) ==> i < n && !Fits(ts[i].text, ts[n].text)
    ensures PairedUpTo(ts, pairs, n + 1)
  {
    hide Fits, Opens, StillOpen;
  }

  lemma PairsStand(ts: seq<Token>, s: Scan, n: nat)
    requires n <= |ts| && StackExact(ts, s, n) && PairedUpTo(ts, s.pairs, n)
    ensures forall k :: k in s.pairs ==> k < s.pairs[k] < n
  {
    forall k | k in s.pairs ensures k < s.pairs[k] {
      assert Innermost(ts, s.pairs, k, s.pairs[k]);
    }
  }

  lemma {:induction false} RunPairs(ts: seq<Token>, n: nat)
    requires n <= |ts|
    ensures StackExact(ts, Run(ts, START, 0, n), n) && PairedUpTo(ts, Run(ts, START, 0, n).pairs, n)
  {
    hide Step, StackExact, PairedUpTo, Fits, Opens, Closes;
    if n > 0 {
      RunPairs(ts, n - 1);
      StepPairs(ts, Run(ts, START, 0, n - 1), n - 1);
    } else {
      NothingPaired(ts);
    }
  }

  lemma NothingPaired(ts: seq<Token>)
    ensures StackExact(ts, START, 0) && PairedUpTo(ts, START.pairs, 0)
  {
  }

  /** Whatever the tokens, a closing bracket is paired exactly with the innermost bracket that is open where it
      stands, if that is of its kind; if not, it closes nothing. */
  lemma PairsExactly(ts: seq<Token>, i: nat, j: nat)
    requires j < |ts|
    ensures var pairs := PairsOf(ts);
      i in pairs && pairs[i] == j <==>
        && Innermost(ts, pairs, i, j)
        && ((ts[i].text == "(" && ts[j].text == ")") || (ts[i].text == "{" && ts[j].text == "}") || (ts[i].text == "[" && ts[j].text == "]"))
  {
    RunPairs(ts, |ts|);
    hide Run, Innermost;
  }

  // ---- Balanced text is paired as it is nested ----

  /** Balanced text: single tokens that are no brackets, and bracketed groups. */
  datatype Forest =
    | Empty
    | Single(token: Token, next: Forest)
    | Group(open: Token, within: Forest, close: Token, next: Forest)

  ghost predicate Balanced(f: Forest) {
    match f
    case Empty => true
    case Single(token, next) => !Opens(token.text) && !Closes(token.text) && Balanced(next)
    case Group(open, within, close, next) => Fits(open.text, close.text) && Balanced(within) && Balanced(next)
  }

  function Tokens(f: Forest): seq<Token> {
    match f
    case Empty => []
    case Single(token, next) => [token] + Tokens(next)
    case Group(open, within, close, next) => [open] + (Tokens(within) + ([close] + Tokens(next)))
  }

  /** The groups of a forest whose first token stands at position `k`. */
  function Groups(f: Forest, k: nat): map<nat, nat> {
    match f
    case Empty => map[]
    case Single(_, next) => Groups(next, k + 1)
    case Group(_, within, _, next) =>
      var close := k + 1 + |Tokens(within)|;
      Groups(within, k + 1) + map[k := close] + Groups(next, close + 1)
  }

  lemma {:induction false} RunSplits(ts: seq<Token>, s: Scan, k: nat, m: nat, n: nat)
    requires k <= m <= n <= |ts| && Inside(s, |ts|)
    ensures Run(ts, s, k, n) == Run(ts, Run(ts, s, k, m), m, n)
    decreases n
  {
    if m < n {
      RunSplits(ts, s, k, m, n - 1);
    }
  }

  /** `part` stands at position `k`. */
  ghost predicate At(ts: seq<Token>, k: nat, part: seq<Token>) {
    k + |part| <= |ts| && ts[k..k + |part|] == part
  }

  lemma AtSplit(ts: seq<Token>, k: nat, a: seq<Token>, b: seq<Token>)
    requires At(ts, k, a + b)
    ensures k + |a| + |b| <= |ts| && At(ts, k, a) && At(ts, k + |a|, b)
  {
    var t := ts[k..k + |a + b|];
    assert ts[k..k + |a|] == t[..|a|];
    assert ts[k + |a|..k + |a| + |b|] == t[|a|..];
  }

  lemma AtHead(ts: seq<Token>, k: nat, token: Token, b: seq<Token>)
    requires At(ts, k, [token] + b)
    ensures k + 1 + |b| <= |ts| && ts[k] == token && At(ts, k + 1, b)
  {
    AtSplit(ts, k, [token], b);
    assert ts[k..k + 1][0] == ts[k];
  }

  /** Scanning balanced text leaves the stack alone and adds its groups. */
  lemma {:induction false} RunForest(ts: seq<Token>, s: Scan, k: nat, f: Forest)
    requires Balanced(f) && Inside(s, |ts|) && k + |Tokens(f)| <= |ts| && At(ts, k, Tokens(f))
    ensures Run(ts, s, k, k + |Tokens(f)|) == Scan(s.stack, s.pairs + Groups(f, k))
    decreases f, 1
  {
    hide At, Run, Inside, Fits, Opens, Closes;
    match f
    case Empty =>
      RunNone(ts, s, k);
      assert s.pairs + map[] == s.pairs;
    case Single(token, next) =>
      AtHead(ts, k, token, Tokens(next));
      OtherRuns(ts, s, k);
      RunForest(ts, s, k + 1, next);
      RunSplits(ts, s, k, k + 1, k + |Tokens(f)|);
    case Group(_, _, _, _) =>
      RunBracketed(ts, s, k, f);
  }

  lemma {:induction false} RunBracketed(ts: seq<Token>, s: Scan, k: nat, f: Forest)
    requires f.Group? && Balanced(f) && Inside(s, |ts|) && k + |Tokens(f)| <= |ts| && At(ts, k, Tokens(f))
    ensures Run(ts, s, k, k + |Tokens(f)|) == Scan(s.stack, s.pairs + Groups(f, k))
    decreases f, 0
  {
    hide At, Run, Inside, Fits, Opens, Closes;
    var m := k + 1 + |Tokens(f.within)|;
    GroupParts(ts, k, f);
    StackInside(ts, s, k);
    var within, next := Groups(f.within, k + 1), Groups(f.next, m + 1);
    assert Groups(f, k) == within + map[k := m] + next;
    assert Balanced(f.within) && Balanced(f.next) && Fits(f.open.text, f.close.text);
    hide Tokens, Groups, Balanced;
    MapsJoin(s.pairs, within, k, m, next);
    var inner := s.pairs + within;
    var paired := inner[k := m];
    RunForest(ts, Scan(s.stack + [k], s.pairs), k + 1, f.within);
    RunForest(ts, Scan(s.stack, paired), m + 1, f.next);
    RunGroup(ts, s, k, m, m + 1 + |Tokens(f.next)|, inner, paired, paired + next);
  }

  /** A bracket, what is within it, its other half, and what follows. */
  lemma RunGroup(ts: seq<Token>, s: Scan, k: nat, m: nat, n: nat, inner: map<nat, nat>, paired: map<nat, nat>, all: map<nat, nat>)
    requires k < m < n <= |ts| && Inside(s, |ts|) && Inside(Scan(s.stack + [k], s.pairs), |ts|) && Fits(ts[k].text, ts[m].text)
    requires Run(ts, Scan(s.stack + [k], s.pairs), k + 1, m) == Scan(s.stack + [k], inner)
    requires paired == inner[k := m] && Inside(Scan(s.stack, paired), |ts|) && Run(ts, Scan(s.stack, paired), m + 1, n) == Scan(s.stack, all)
    ensures Run(ts, s, k, n) == Scan(s.stack, all)
  {
    StackInside(ts, s, k);
    OpenRuns(ts, s, k, ts[m].text);
    CloseRuns(ts, s.stack, inner, k, m);
    hide Run, Inside, Fits;
    RunSplits(ts, s, k, k + 1, n);
    RunSplits(ts, Scan(s.stack + [k], s.pairs), k + 1, m, n);
    RunSplits(ts, Scan(s.stack + [k], inner), m, m + 1, n);
  }

  lemma GroupParts(ts: seq<Token>, k: nat, f: Forest)
    requires f.Group? && At(ts, k, Tokens(f))
    ensures var m := k + 1 + |Tokens(f.within)|;
      && k + |Tokens(f)| == m + 1 + |Tokens(f.next)| <= |ts|
      && ts[k] == f.open && At(ts, k + 1, Tokens(f.within)) && ts[m] == f.close && At(ts, m + 1, Tokens(f.next))
  {
    hide At;
    var all, a, b := Tokens(f), Tokens(f.within), Tokens(f.next);
    assert all == [f.open] + (a + ([f.close] + b));
    hide Tokens;
    PartsAt(ts, k, all, f.open, a, f.close, b);
  }

  lemma PartsAt(ts: seq<Token>, k: nat, all: seq<Token>, open: Token, a: seq<Token>, close: Token, b: seq<Token>)
    requires all == [open] + (a + ([close] + b)) && At(ts, k, all)
    ensures var m := k + 1 + |a|;
      && k + |all| == m + 1 + |b| <= |ts|
      && ts[k] == open && At(ts, k + 1, a) && ts[m] == close && At(ts, m + 1, b)
  {
    hide At;
    var rest := [close] + b;
    AtHead(ts, k, open, a + rest);
    AtSplit(ts, k + 1, a, rest);
    AtHead(ts, k + 1 + |a|, close, b);
  }

  lemma RunNone(ts: seq<Token>, s: Scan, k: nat)
    requires k <= |ts| && Inside(s, |ts|)
    ensures Run(ts, s, k, k) == s
  {
  }

  lemma OtherRuns(ts: seq<Token>, s: Scan, k: nat)
    requires k < |ts| && Inside(s, |ts|) && !Opens(ts[k].text) && !Closes(ts[k].text)
    ensures Run(ts, s, k, k + 1) == s
  {
    RunOne(ts, s, k);
  }

  lemma OpenRuns(ts: seq<Token>, s: Scan, k: nat, close: string)
    requires k < |ts| && Inside(s, |ts|) && Fits(ts[k].text, close)
    ensures Run(ts, s, k, k + 1) == Scan(s.stack + [k], s.pairs)
  {
    RunOne(ts, s, k);
  }

  lemma CloseRuns(ts: seq<Token>, stack: seq<nat>, pairs: map<nat, nat>, k: nat, m: nat)
    requires k < m < |ts| && Inside(Scan(stack + [k], pairs), |ts|) && Fits(ts[k].text, ts[m].text)
    ensures Run(ts, Scan(stack + [k], pairs), m, m + 1) == Scan(stack, pairs[k := m])
  {
    RunOne(ts, Scan(stack + [k], pairs), m);
    PopLast(stack, k);
  }

  lemma StackInside(ts: seq<Token>, s: Scan, k: nat)
    requires k < |ts| && Inside(s, |ts|)
    ensures forall pairs :: Inside(Scan(s.stack, pairs), |ts|) && Inside(Scan(s.stack + [k], pairs), |ts|)
  {
  }

  lemma PopLast(stack: seq<nat>, k: nat)
    ensures (stack + [k])[..|stack + [k]| - 1] == stack && (stack + [k])[|stack + [k]| - 1] == k
  {
  }

  lemma MapsJoin(pairs: map<nat, nat>, a: map<nat, nat>, k: nat, m: nat, b: map<nat, nat>)
    ensures (pairs + a)[k := m] + b == pairs + (a + map[k := m] + b)
  {
  }

  lemma RunOne(ts: seq<Token>, s: Scan, k: nat)
    requires k < |ts| && Inside(s, |ts|)
    ensures Run(ts, s, k, k + 1) == Step(ts, s, k)
  {
    assert Run(ts, s, k, k) == s;
  }

  /** The pairs of balanced text are exactly its groups. */
  lemma BalancedIsPairedAsNested(f: Forest)
    requires Balanced(f)
    ensures PairsOf(Tokens(f)) == Groups(f, 0)
  {
    hide Run, Groups, Balanced;
    var ts := Tokens(f);
    hide Tokens;
    assert ts[0..|ts|] == ts;
    RunForest(ts, START, 0, f);
    assert map[] + Groups(f, 0) == Groups(f, 0);
  }
}
