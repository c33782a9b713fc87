/** Printing and reading versions and requirements (bin/cargo/semver.go). */
module SemverText {
  import opened Text
  import opened Results
  import opened Semver

  /** `Version.string`. */
  function Print(v: Version): string {
    Decimal(v.major) + "." + Decimal(v.minor) + "." + Decimal(v.patch)
    + (if v.pre != "" then "-" + v.pre else "")
    + (if v.build != "" then "+" + v.build else "")
  }

  function Before(s: string, c: char): string { s[..Find(s, c)] }

  /** What follows the first `c`, or nothing. */
  function After(s: string, c: char): string { if Find(s, c) < |s| then s[Find(s, c) + 1..] else "" }

  /** Go's `strings.Split`. */
  function Split(s: string, c: char): (parts: seq<string>)
    ensures parts != []
    decreases |s|
  {
    if Find(s, c) < |s| then [Before(s, c)] + Split(After(s, c), c) else [s]
  }

  predicate Digits(s: string) { forall i :: 0 <= i < |s| ==> IsDigit(s[i]) }

  const MAX_INT := 0x7fff_ffff_ffff_ffff

  /** `strconv.Atoi` on text without a sign. */
  function Atoi(s: string): Result<nat> {
    if s != "" && Digits(s) && Number(s) <= MAX_INT then Ok(Number(s)) else Thrown
  }

  function Numbers(parts: seq<string>): (r: Result<seq<nat>>)
    ensures r.Ok? ==> |r.value| == |parts|
  {
    if parts == [] then Ok([])
    else
      match Numbers(parts[..|parts| - 1])
      case Thrown => Thrown
      case Ok(ns) =>
        match Atoi(parts[|parts| - 1])
        case Thrown => Thrown
        case Ok(n) => Ok(ns + [n])
  }

  function Part(numbers: seq<nat>, i: nat): nat { if i < |numbers| then numbers[i] else 0 }

  function Parse(input: string): Result<Version> {
    var text := TrimSpace(input);
    var release := Before(text, '+');
    var parts := Split(Before(release, '-'), '.');
    if |parts| > 3 then Thrown
    else
      match Numbers(parts)
      case Thrown => Thrown
      case Ok(ns) => Ok(Version(Part(ns, 0), Part(ns, 1), Part(ns, 2), After(release, '-'), After(text, '+')))
  }

  /** `parseVersion`. */
  method ParseVersion(input: string) returns (r: Result<Version>)
    ensures r == Parse(input)
  {
    var text := TrimSpace(input);
    var build, pre := "", "";
    var plus := Find(text, '+');
    var rest := text;
    if plus < |text| {
      build := text[plus + 1..];
      rest := text[..plus];
    }
    assert rest == Before(text, '+');
    var dash := Find(rest, '-');
    var core := rest;
    if dash < |rest| {
      pre := rest[dash + 1..];
      core := rest[..dash];
    }
    assert core == Before(rest, '-');
    var parts := Split(core, '.');
    if |parts| > 3 {
      return Thrown;
    }
    var values: seq<nat> := [0, 0, 0];
    for i := 0 to |parts|
      invariant |values| == 3 && Numbers(parts[..i]).Ok?
      invariant forall j :: 0 <= j < 3 ==> values[j] == Part(Numbers(parts[..i]).value, j)
    {
      assert parts[..i + 1][..i] == parts[..i];
      if Atoi(parts[i]).Thrown? {
        ThrownStays(parts, i);
        return Thrown;
      }
      values := values[i := Atoi(parts[i]).value];
    }
    assert parts[..|parts|] == parts;
    return Ok(Version(values[0], values[1], values[2], pre, build));
  }

  lemma {:induction false} ThrownStays(parts: seq<string>, i: nat)
    requires i < |parts| && Atoi(parts[i]).Thrown?
    ensures Numbers(parts).Thrown?
  {
    if i < |parts| - 1 {
      ThrownStays(parts[..|parts| - 1], i);
    }
  }

  // ---- A printed version reads back as itself ----

  ghost predicate Free(s: string, c: char) { forall i :: 0 <= i < |s| ==> s[i] != c }

  lemma CutAt(a: string, c: char, b: string)
    requires Free(a, c)
    ensures Find(a + [c] + b, c) == |a| && Before(a + [c] + b, c) == a && After(a + [c] + b, c) == b
    ensures Find(a, c) == |a| && Before(a, c) == a && After(a, c) == ""
  {
    FindAt(a + [c] + b, c, |a|);
    FindAt(a, c, |a|);
    assert (a + [c] + b)[..|a|] == a;
  }

  lemma DecimalIsPlain(n: nat)
    ensures Digits(Decimal(n)) && Free(Decimal(n), '.') && Free(Decimal(n), '-') && Free(Decimal(n), '+')
    ensures n <= MAX_INT ==> Atoi(Decimal(n)) == Ok(n)
  {
    NumberOfDecimal(n);
    var s := Decimal(n);
    forall i | 0 <= i < |s| ensures IsDigit(s[i]) {
      assert s[i] in s;
    }
  }

  lemma SplitLast(a: string, c: char)
    requires Free(a, c)
    ensures Split(a, c) == [a]
  {
    FindAt(a, c, |a|);
  }

  lemma SplitFirst(a: string, c: char, more: string)
    requires Free(a, c)
    ensures Split(a + [c] + more, c) == [a] + Split(more, c)
  {
    CutAt(a, c, more);
  }

  function Core(v: Version): string { Decimal(v.major) + "." + Decimal(v.minor) + "." + Decimal(v.patch) }

  lemma CoreReads(v: Version)
    requires v.major <= MAX_INT && v.minor <= MAX_INT && v.patch <= MAX_INT
    ensures Numbers(Split(Core(v), '.')) == Ok([v.major, v.minor, v.patch]) && |Split(Core(v), '.')| == 3
    ensures Free(Core(v), '-') && Free(Core(v), '+') && IsDigit(Core(v)[0])
  {
    hide Decimal, Atoi, Digits, Free, Split, Numbers;
    var a, b, c := Decimal(v.major), Decimal(v.minor), Decimal(v.patch);
    DecimalIsPlain(v.major);
    DecimalIsPlain(v.minor);
    DecimalIsPlain(v.patch);
    SplitFirst(a, '.', b + "." + c);
    SplitFirst(b, '.', c);
    SplitLast(c, '.');
    assert Core(v) == a + "." + (b + "." + c);
    ReadsThree(a, b, c, v.major, v.minor, v.patch);
    assert Split(Core(v), '.') == [a, b, c];
    CoreIsPlain(a, b, c, '-');
    CoreIsPlain(a, b, c, '+');
    FirstDigit(a, "." + b + "." + c);
    assert Core(v) == a + ("." + b + "." + c);
  }

  lemma FirstDigit(a: string, more: string)
    requires a != "" && Digits(a)
    ensures IsDigit((a + more)[0])
  {
  }

  lemma CoreIsPlain(a: string, b: string, c: string, x: char)
    requires Free(a, x) && Free(b, x) && Free(c, x) && x != '.'
    ensures Free(a + "." + b + "." + c, x)
  {
  }

  lemma ReadsThree(a: string, b: string, c: string, x: nat, y: nat, z: nat)
    requires Atoi(a) == Ok(x) && Atoi(b) == Ok(y) && Atoi(c) == Ok(z)
    ensures Numbers([a, b, c]) == Ok([x, y, z])
  {
    assert [] + [a] == [a] && [a] + [b] == [a, b] && [a, b] + [c] == [a, b, c];
    assert [] + [x] == [x] && [x] + [y] == [x, y] && [x, y] + [z] == [x, y, z];
    NumbersStep([], a, []);
    NumbersStep([a], b, [x]);
    NumbersStep([a, b], c, [x, y]);
  }

  lemma NumbersStep(parts: seq<string>, part: string, ns: seq<nat>)
    requires Numbers(parts) == Ok(ns) && Atoi(part).Ok?
    ensures Numbers(parts + [part]) == Ok(ns + [Atoi(part).value])
  {
    assert (parts + [part])[..|parts|] == parts;
  }

  /** Core, prerelease and build metadata, of which the last two may be missing. */
  lemma CutMarked(a: string, mark: char, b: string, text: string)
    requires Free(a, mark) && text == a + (if b != "" then [mark] + b else "")
    ensures Before(text, mark) == a && After(text, mark) == b
  {
    CutAt(a, mark, b);
    if b != "" {
      assert text == a + [mark] + b;
    } else {
      assert text == a;
    }
  }

  lemma PrintCut(core: string, pre: string, k: nat, rest: string)
    requires k < |pre| && pre[k] == '+'
    ensures core + ("-" + pre) + rest == core + "-" + pre[..k] + "+" + (pre[k + 1..] + rest)
  {
    assert pre == pre[..k] + ("+" + pre[k + 1..]);
  }

  /** The printed text, when no white space is trimmed from it. */
  lemma UntrimmedReads(v: Version)
    requires v.major <= MAX_INT && v.minor <= MAX_INT && v.patch <= MAX_INT && TrimSpace(Print(v)) == Print(v)
    ensures Parse(Print(v)) == Ok(v) <==> Free(v.pre, '+')
  {
    hide Numbers, Split, TrimSpace, Before, After, Decimal;
    var text := Print(v);
    var front := Core(v) + (if v.pre != "" then "-" + v.pre else "");
    assert text == front + (if v.build != "" then "+" + v.build else "");
    CoreReads(v);
    if Free(v.pre, '+') {
      CutMarked(front, '+', v.build, text);
      CutMarked(Core(v), '-', v.pre, front);
    } else {
      var k := Find(v.pre, '+');
      assert k < |v.pre|;
      var p, more := v.pre[..k], v.pre[k + 1..] + (if v.build != "" then "+" + v.build else "");
      CutAt(Core(v) + "-" + p, '+', more);
      PrintCut(Core(v), v.pre, k, if v.build != "" then "+" + v.build else "");
      CutAt(Core(v), '-', p);
    }
  }

  /** A text cut short of its last part does not yield that part. */
  lemma CutShort(a: string, mark: char, b: string, t: string)
    requires Free(a, mark) && b != "" && t <= a + [mark] + b && |t| < |a + [mark] + b|
    ensures After(t, mark) != b
  {
    if |t| > |a| {
      assert forall i :: 0 <= i < |a| ==> t[i] == a[i];
      FindAt(t, mark, |a|);
    } else {
      FindAt(t, mark, |t|);
    }
  }

  lemma TrimmedLoses(v: Version, t: string)
    requires Free(v.pre, '+') && t <= Print(v) && |t| < |Print(v)| && |t| >= |Core(v)|
    requires Free(Core(v), '-') && Free(Core(v), '+')
    ensures After(Before(t, '+'), '-') != v.pre || After(t, '+') != v.build
  {
    hide Before, After, Decimal;
    var front := Core(v) + (if v.pre != "" then "-" + v.pre else "");
    if v.build != "" {
      assert Print(v) == front + "+" + v.build;
      CutShort(front, '+', v.build, t);
    } else {
      assert Print(v) == front;
      CutMarked(t, '+', "", t);
      CutShort(Core(v), '-', v.pre, t);
    }
  }

  lemma TrimKeeps(core: string, text: string)
    requires core != "" && !IsSpace(core[0]) && !IsSpace(core[|core| - 1]) && core <= text
    ensures var t := TrimSpace(text);
      t <= text && |t| >= |core| && (t == text <==> !IsSpace(text[|text| - 1]))
  {
    TrimRightIsPrefix(text);
    TrimRightReaches(core, text);
  }

  /** `parseVersion` undoes `Version.string` exactly for versions whose prerelease holds no `+` and whose
      text does not end in white space: in particular for every version that SemVer 2.0.0 allows. */
  lemma PrintedReadsBack(v: Version)
    requires v.major <= MAX_INT && v.minor <= MAX_INT && v.patch <= MAX_INT
    ensures Parse(Print(v)) == Ok(v) <==> Free(v.pre, '+') && !IsSpace(Print(v)[|Print(v)| - 1])
  {
    hide Decimal, Numbers, Split, TrimSpace, Free, Before, After;
    var text := Print(v);
    CoreReads(v);
    CoreEnds(v);
    assert Core(v) <= text;
    TrimKeeps(Core(v), text);
    if TrimSpace(text) == text {
      UntrimmedReads(v);
    } else if Parse(text) == Ok(v) {
      BeforeIsFree(TrimSpace(text), '+', '-');
      TrimmedLoses(v, TrimSpace(text));
    }
  }

  lemma CoreEnds(v: Version)
    ensures Core(v) != "" && IsDigit(Core(v)[|Core(v)| - 1])
  {
    DecimalIsPlain(v.patch);
    var c := Decimal(v.patch);
    assert Core(v)[|Core(v)| - 1] == c[|c| - 1];
  }

  lemma BeforeIsFree(s: string, c: char, d: char)
    ensures Free(After(Before(s, c), d), c)
  {
  }

  predicate Identifiers(s: string) {
    forall i :: 0 <= i < |s| ==> IsDigit(s[i]) || 'a' <= s[i] <= 'z' || 'A' <= s[i] <= 'Z' || s[i] == '-' || s[i] == '.'
  }

  /** Sections 9 and 10 of SemVer 2.0.0 allow these characters only. */
  lemma AllowedReadsBack(v: Version)
    requires v.major <= MAX_INT && v.minor <= MAX_INT && v.patch <= MAX_INT && Identifiers(v.pre) && Identifiers(v.build)
    ensures Parse(Print(v)) == Ok(v)
  {
    hide Parse, Decimal;
    PrintedReadsBack(v);
    CoreEnds(v);
    var last := Print(v)[|Print(v)| - 1];
    if v.build != "" {
      assert last == v.build[|v.build| - 1];
    } else if v.pre != "" {
      assert last == v.pre[|v.pre| - 1];
    } else {
      assert Print(v) == Core(v);
    }
  }
}
