/** Text as the programs handle it: the bytewise string order (Go's `strings.Compare` and `<`), decimal
    integers, and what Go's `strings` package does to ASCII text when it trims and searches. The other
    modules share these functions; what they need to know about them is stated in the lemmas beside
    them. */
module Text {

  function Compare(a: string, b: string): (r: int)
    ensures -1 <= r <= 1
  {
    if a == [] then (if b == [] then 0 else -1)
    else if b == [] then 1
    else if a[0] < b[0] then -1
    else if a[0] > b[0] then 1
    else Compare(a[1..], b[1..])
  }

  /** Only equal strings tie, and swapping the arguments flips the sign. */
  lemma {:induction false} CompareAntisymmetric(a: string, b: string)
    ensures Compare(a, b) == -Compare(b, a)
    ensures Compare(a, b) == 0 <==> a == b
  {
    if a != [] && b != [] {
      CompareAntisymmetric(a[1..], b[1..]);
      assert a[0] == b[0] && a[1..] == b[1..] ==> a == [a[0]] + a[1..] == b;
    }
  }

  lemma {:induction false} CompareTransitive(a: string, b: string, c: string)
    requires Compare(a, b) <= 0 && Compare(b, c) <= 0
    ensures Compare(a, c) <= 0
    ensures Compare(a, c) == 0 ==> Compare(a, b) == 0 && Compare(b, c) == 0
  {
    if a != [] && b != [] && c != [] {
      if a[0] == b[0] == c[0] {
        CompareTransitive(a[1..], b[1..], c[1..]);
      }
    }
  }

  /** The dictionary order: the texts agree up to some point, where the first one ends or has the smaller
      character. */
  ghost predicate Earlier(a: string, b: string) {
    exists i {:trigger a[..i]} :: 0 <= i <= |a| && i < |b| && a[..i] == b[..i] && (i == |a| || a[i] < b[i])
  }

  lemma {:induction false} CompareExactly(a: string, b: string)
    ensures Compare(a, b) < 0 <==> Earlier(a, b)
    ensures Compare(a, b) > 0 <==> Earlier(b, a)
    ensures Compare(a, b) == 0 <==> a == b
  {
    if a != [] && b != [] && a[0] == b[0] {
      CompareExactly(a[1..], b[1..]);
      EarlierTails(a, b);
      EarlierTails(b, a);
      assert a == [a[0]] + a[1..] && b == [b[0]] + b[1..];
    } else {
      EarlierHeads(a, b);
      EarlierHeads(b, a);
    }
  }

  lemma EarlierHeads(a: string, b: string)
    requires a == [] || b == [] || a[0] != b[0]
    ensures Earlier(a, b) <==> b != [] && (a == [] || a[0] < b[0])
  {
    if Earlier(a, b) {
      var i :| 0 <= i <= |a| && i < |b| && a[..i] == b[..i] && (i == |a| || a[i] < b[i]);
      assert i == 0;
    }
    if b != [] && (a == [] || a[0] < b[0]) {
      assert a[..0] == b[..0];
    }
  }

  lemma EarlierTails(a: string, b: string)
    requires a != [] && b != [] && a[0] == b[0]
    ensures Earlier(a, b) <==> Earlier(a[1..], b[1..])
  {
    if Earlier(a, b) {
      var i :| 0 <= i <= |a| && i < |b| && a[..i] == b[..i] && (i == |a| || a[i] < b[i]);
      assert i > 0;
      assert a[1..][..i - 1] == a[..i][1..] && b[1..][..i - 1] == b[..i][1..];
    }
    if Earlier(a[1..], b[1..]) {
      var i :| 0 <= i <= |a[1..]| && i < |b[1..]| && a[1..][..i] == b[1..][..i] && (i == |a[1..]| || a[1..][i] < b[1..][i]);
      assert a[..i + 1] == [a[0]] + a[1..][..i] && b[..i + 1] == [b[0]] + b[1..][..i];
    }
  }

  predicate IsDigit(c: char) { '0' <= c <= '9' }

  function DigitChar(d: nat): char
    requires d < 10
  {
    '0' + d as char
  }

  function DigitValue(c: char): nat
    requires IsDigit(c)
  {
    (c - '0') as nat
  }

  /** The decimal text of a natural number, as `%d` prints it. */
  function Decimal(n: nat): (s: string)
    ensures s != []
  {
    if n < 10 then [DigitChar(n)] else Decimal(n / 10) + [DigitChar(n % 10)]
  }

  ghost predicate AllDigits(s: string) { forall c :: c in s ==> IsDigit(c) }

  /** The number a digit string denotes, leading zeros allowed; the empty string denotes 0. */
  function Number(s: string): nat
    requires AllDigits(s)
  {
    if s == [] then 0 else Number(s[..|s| - 1]) * 10 + DigitValue(s[|s| - 1])
  }

  /** Reading back a printed number gives the number. */
  lemma {:induction false} NumberOfDecimal(n: nat)
    ensures AllDigits(Decimal(n)) && Number(Decimal(n)) == n
    ensures n > 0 ==> Decimal(n)[0] != '0'
  {
    if n >= 10 {
      NumberOfDecimal(n / 10);
      var s := Decimal(n);
      assert s[..|s| - 1] == Decimal(n / 10);
    } else {
      var s := Decimal(n);
      assert s[..|s| - 1] == [];
    }
  }

  // ---- Cutting and trimming (Go's `strings` on ASCII) ----

  predicate IsSpace(c: char) { c == ' ' || '\t' <= c <= '\r' }

  function TrimLeft(s: string): (r: string)
    ensures |r| <= |s|
    ensures r != "" ==> !IsSpace(r[0])
  {
    if s != "" && IsSpace(s[0]) then TrimLeft(s[1..]) else s
  }

  lemma {:induction false} TrimLeftIsSuffix(s: string)
    ensures TrimLeft(s) == s[|s| - |TrimLeft(s)|..]
  {
    if s != "" && IsSpace(s[0]) {
      TrimLeftIsSuffix(s[1..]);
    }
  }

  lemma TrimLeftTwice(s: string)
    ensures TrimLeft(TrimLeft(s)) == TrimLeft(s)
  {
  }

  function TrimRight(s: string): (r: string)
    ensures |r| <= |s|
    ensures r != "" ==> !IsSpace(r[|r| - 1])
  {
    if s != "" && IsSpace(s[|s| - 1]) then TrimRight(s[..|s| - 1]) else s
  }

  lemma {:induction false} TrimRightIsPrefix(s: string)
    ensures TrimRight(s) == s[..|TrimRight(s)|]
  {
    if s != "" && IsSpace(s[|s| - 1]) {
      TrimRightIsPrefix(s[..|s| - 1]);
    }
  }

  function TrimSpace(s: string): string { TrimRight(TrimLeft(s)) }

  lemma TrimSpaceTwice(s: string)
    ensures TrimSpace(TrimSpace(s)) == TrimSpace(s)
  {
    var l := TrimLeft(s);
    var r := TrimRight(l);
    TrimRightIsPrefix(l);
    assert r != "" ==> r[0] == l[0];
    assert TrimLeft(r) == r;
    assert TrimRight(r) == r;
  }

  ghost predicate IsGap(s: string) { forall c :: c in s ==> IsSpace(c) }

  lemma {:induction false} TrimGap(gap: string, t: string)
    requires IsGap(gap)
    ensures TrimLeft(gap + t) == TrimLeft(t)
  {
    if gap == "" {
      assert gap + t == t;
    } else {
      assert (gap + t)[1..] == gap[1..] + t;
      TrimGap(gap[1..], t);
    }
  }

  lemma Unspaced(t: string)
    requires t != "" && !IsSpace(t[0])
    ensures TrimLeft(t) == t
  {
  }

  lemma {:induction false} TrimRightGap(t: string, gap: string)
    requires IsGap(gap) && t != "" && !IsSpace(t[|t| - 1])
    ensures TrimRight(t + gap) == t
  {
    if gap == "" {
      assert t + gap == t;
    } else {
      var n := |gap| - 1;
      assert gap[n] in gap && (t + gap)[..|t| + n] == t + gap[..n];
      TrimRightGap(t, gap[..n]);
    }
  }

  lemma {:induction false} TrimRightReaches(core: string, text: string)
    requires core != "" && !IsSpace(core[|core| - 1]) && core <= text
    ensures |TrimRight(text)| >= |core|
  {
    if IsSpace(text[|text| - 1]) {
      assert text[|core| - 1] == core[|core| - 1];
      TrimRightReaches(core, text[..|text| - 1]);
    }
  }

  lemma SpacesAround(lead: string, text: string, trail: string)
    requires IsGap(lead) && IsGap(trail) && text != "" && !IsSpace(text[0]) && !IsSpace(text[|text| - 1])
    ensures TrimSpace(lead + (text + trail)) == text
  {
    hide IsSpace, IsGap;
    TrimGap(lead, text + trail);
    Unspaced(text + trail);
    TrimRightGap(text, trail);
  }

  lemma Together(a: string, b: string, c: string)
    ensures (a + b) + c == a + (b + c)
  {
  }

  function HasPrefix(s: string, prefix: string): bool { prefix <= s }

  /** The position of the first `c`, or the length. */
  function Find(s: string, c: char): (i: nat)
    ensures i <= |s| && (i < |s| ==> s[i] == c) && forall k :: 0 <= k < i ==> s[k] != c
  {
    if s == "" || s[0] == c then 0 else 1 + Find(s[1..], c)
  }

  lemma FindAt(s: string, c: char, i: nat)
    requires i <= |s| && (i < |s| ==> s[i] == c) && forall k :: 0 <= k < i ==> s[k] != c
    ensures Find(s, c) == i
  {
  }
}
