/** Reading requirements (bin/cargo/semver.go:86-138), and what becomes of `=` with dots in a prerelease. */
module SemverSpec {
  import opened Text
  import opened Results
  import opened Semver
  import opened SemverText

  /** The operator a comparator begins with, and how long it is; `^` when there is none. */
  function Operator(part: string): (Op, nat) {
    if HasPrefix(part, "<=") then (LessEqual, 2)
    else if HasPrefix(part, ">=") then (GreaterEqual, 2)
    else if HasPrefix(part, "=") then (Equal, 1)
    else if HasPrefix(part, "<") then (Less, 1)
    else if HasPrefix(part, ">") then (Greater, 1)
    else if HasPrefix(part, "~") then (Tilde, 1)
    else if HasPrefix(part, "^") then (Caret, 1)
    else (Caret, 0)
  }

  predicate IsWild(item: string) { item == "*" || item == "x" || item == "X" }

  /** The position of the first wildcard, or the length. */
  function FirstWild(parts: seq<string>): (i: nat)
    ensures i <= |parts|
  {
    if parts == [] || IsWild(parts[0]) then 0 else 1 + FirstWild(parts[1..])
  }

  function Join(parts: seq<string>, c: char): string {
    if parts == [] then "" else if |parts| == 1 then parts[0] else parts[0] + [c] + Join(parts[1..], c)
  }

  function OpOf(part: string): Op { Operator(part).0 }

  /** The comparator without its operator. */
  function Operand(part: string): string
  {
    var n := Operator(part).1;
    if n == 0 || n > |part| then part else TrimSpace(part[n..])
  }

  /** One comparator; none for a lone wildcard. */
  function ReadBound(raw: string): Result<Option<Bound>> {
    var part := TrimSpace(raw);
    var operand := Operand(part);
    var parts := Split(operand, '.');
    var wild := FirstWild(parts);
    if operand == "*" || wild == 0 then Ok(None)
    else
      match Parse(Join(parts[..wild], '.'))
      case Thrown => Thrown
      case Ok(v) => Ok(Some(Bound(if wild < |parts| then Wildcard else OpOf(part), v, wild)))
  }

  function ReadBounds(raws: seq<string>): Result<seq<Bound>> {
    if raws == [] then Ok([])
    else
      match ReadBounds(raws[..|raws| - 1])
      case Thrown => Thrown
      case Ok(bounds) =>
        match ReadBound(raws[|raws| - 1])
        case Thrown => Thrown
        case Ok(None) => Ok(bounds)
        case Ok(Some(bound)) => Ok(bounds + [bound])
  }

  function ReadSpec(input: string): Result<seq<Bound>> {
    var text := TrimSpace(input);
    if text == "" || text == "*" then Ok([]) else ReadBounds(Split(text, ','))
  }

  /** `parseVersionSpec`. */
  method ParseVersionSpec(input: string) returns (r: Result<seq<Bound>>)
    ensures r == ReadSpec(input)
  {
    hide ReadBound, TrimSpace;
    var text := TrimSpace(input);
    if text == "" || text == "*" {
      return Ok([]);
    }
    var raws := Split(text, ',');
    var bounds: seq<Bound> := [];
    for i := 0 to |raws|
      invariant ReadBounds(raws[..i]) == Ok(bounds)
    {
      assert raws[..i + 1][..i] == raws[..i];
      var bound := ReadBound(raws[i]);
      if bound.Thrown? {
        BoundThrows(raws, i);
        return Thrown;
      }
      if bound.value.Some? {
        bounds := bounds + [bound.value.value];
      }
    }
    assert raws[..|raws|] == raws;
    return Ok(bounds);
  }

  lemma {:induction false} BoundThrows(raws: seq<string>, i: nat)
    requires i < |raws| && ReadBound(raws[i]).Thrown?
    ensures ReadBounds(raws).Thrown?
  {
    hide ReadBound;
    if i < |raws| - 1 {
      BoundThrows(raws[..|raws| - 1], i);
    }
  }

  // ---- Text cut at a character ----

  lemma SplitHead(s: string, c: char)
    ensures Split(s, c)[0] == Before(s, c)
    ensures if Find(s, c) < |s| then Split(s, c)[1..] == Split(After(s, c), c) else Split(s, c) == [s]
  {
    hide Find;
  }

  lemma {:induction false} JoinOfSplit(s: string, c: char)
    ensures Join(Split(s, c), c) == s
    decreases |s|
  {
    hide Find;
    if Find(s, c) < |s| {
      JoinOfSplit(After(s, c), c);
      SplitHead(s, c);
      hide Split;
      assert s == Before(s, c) + [c] + After(s, c);
    } else {
      SplitHead(s, c);
      hide Split;
    }
  }

  lemma {:induction false} FirstWildExactly(parts: seq<string>)
    ensures FirstWild(parts) < |parts| <==> exists i :: 0 <= i < |parts| && IsWild(parts[i])
    ensures forall i :: 0 <= i < FirstWild(parts) ==> !IsWild(parts[i])
  {
    hide IsWild;
    if parts != [] {
      FirstWildExactly(parts[1..]);
      assert forall i :: 0 < i < |parts| ==> parts[i] == parts[1..][i - 1];
    }
  }

  lemma {:induction false} FirstWildFrom(parts: seq<string>, n: nat)
    requires n <= |parts| && forall i :: 0 <= i < n ==> !IsWild(parts[i])
    ensures FirstWild(parts) >= n
  {
    hide IsWild;
    if n > 0 {
      FirstWildFrom(parts[1..], n - 1);
    }
  }

  /** Reading undoes printing (see `PrintedReadsBack`), within the range of Go's integers. */
  ghost predicate ReadsBack(v: Version) {
    v.major <= MAX_INT && v.minor <= MAX_INT && v.patch <= MAX_INT && Parse(Print(v)) == Ok(v)
  }

  /** The text of the version, cut at dots. */
  function Dotted(v: Version): seq<string> { Split(Print(v), '.') }

  /** One of the dotted parts of its text is a wildcard: an identifier of its prerelease, say. */
  ghost predicate HasWild(v: Version) { exists i :: 0 <= i < |Dotted(v)| && IsWild(Dotted(v)[i]) }

  lemma NotTrimmed(s: string)
    requires s != "" && !IsSpace(s[0]) && !IsSpace(s[|s| - 1])
    ensures TrimSpace(s) == s
  {
  }

  lemma PrintedEnds(v: Version)
    requires ReadsBack(v)
    ensures Print(v) != "" && IsDigit(Print(v)[0]) && !IsSpace(Print(v)[|Print(v)| - 1])
  {
    hide Parse, Print;
    PrintedReadsBack(v);
    PrintedStarts(v);
  }

  lemma PrintedStarts(v: Version)
    requires v.major <= MAX_INT && v.minor <= MAX_INT && v.patch <= MAX_INT
    ensures Print(v) != "" && IsDigit(Print(v)[0])
  {
    hide Decimal, Numbers, Split, Free;
    CoreReads(v);
    assert Core(v) <= Print(v);
  }

  // ---- The dotted parts of a printed version ----

  function Tail(v: Version): string { (if v.pre != "" then "-" + v.pre else "") + (if v.build != "" then "+" + v.build else "") }

  lemma DottedParts(v: Version)
    ensures |Dotted(v)| >= 3 && Dotted(v)[0] == Decimal(v.major) && Dotted(v)[1] == Decimal(v.minor)
    ensures Decimal(v.patch) <= Dotted(v)[2]
  {
    hide Decimal, Split, Find, Free;
    var a, b, c := Decimal(v.major), Decimal(v.minor), Decimal(v.patch) + Tail(v);
    DecimalIsPlain(v.major);
    DecimalIsPlain(v.minor);
    DecimalIsPlain(v.patch);
    assert Print(v) == a + "." + (b + "." + c);
    SplitFirst(a, '.', b + "." + c);
    SplitFirst(b, '.', c);
    SplitHead(c, '.');
    FindReaches(Decimal(v.patch), c, '.');
  }

  lemma FindReaches(front: string, s: string, c: char)
    requires Free(front, c) && front <= s
    ensures Find(s, c) >= |front|
  {
    hide Find;
    forall k | 0 <= k < |front| ensures s[k] != c {
      assert front[k] == s[k];
    }
  }

  lemma {:induction false} JoinIsPrefix(parts: seq<string>, n: nat, c: char)
    requires n <= |parts|
    ensures Join(parts[..n], c) <= Join(parts, c)
  {
    if n > 0 && |parts| > 1 {
      assert parts[..n][1..] == parts[1..][..n - 1];
      JoinIsPrefix(parts[1..], n - 1, c);
    }
  }

  lemma JoinThree(a: string, b: string, c: string)
    ensures Join([a, b, c], '.') == a + "." + b + "." + c
  {
    assert [a, b, c][1..] == [b, c] && [b, c][1..] == [c];
    assert Join([c], '.') == c && Join([b, c], '.') == b + "." + c;
    assert a + "." + (b + "." + c) == a + "." + b + "." + c;
  }

  /** What stands before a wildcard begins with the three numbers. */
  lemma CoreIsInFront(v: Version, n: nat)
    requires 3 <= n <= |Dotted(v)|
    ensures Core(v) <= Join(Dotted(v)[..n], '.') <= Print(v)
  {
    hide Decimal, Split, Join, Dotted, Print;
    DottedParts(v);
    var parts := Dotted(v);
    JoinOfDotted(v);
    JoinIsPrefix(parts, n, '.');
    JoinIsPrefix(parts[..n], 3, '.');
    assert parts[..n][..3] == [parts[0], parts[1], parts[2]];
    JoinThree(parts[0], parts[1], parts[2]);
    assert Core(v) <= Join(parts[..n][..3], '.');
  }

  lemma JoinOfDotted(v: Version)
    ensures Join(Dotted(v), '.') == Print(v)
  {
    JoinOfSplit(Print(v), '.');
  }

  /** A printed version cut short after its numbers still has these numbers. */
  lemma CutShortReads(v: Version, t: string)
    requires v.major <= MAX_INT && v.minor <= MAX_INT && v.patch <= MAX_INT && Core(v) <= t <= Print(v)
    ensures Parse(t).Ok? && Parse(t).value.(pre := v.pre, build := v.build) == v
  {
    hide Decimal, Numbers, Split, TrimSpace, Find, Print, Core;
    CoreReads(v);
    CoreEnds(v);
    TrimKeeps(Core(v), t);
    var u := TrimSpace(t);
    assert u <= Print(v) && Core(v) <= u;
    CutAtMark(v, u);
  }

  lemma CutAtMark(v: Version, u: string)
    requires Core(v) <= u <= Print(v) && Free(Core(v), '-') && Free(Core(v), '+')
    ensures Before(Before(u, '+'), '-') == Core(v)
  {
    hide Find;
    var core, r := Core(v), Before(u, '+');
    FindReaches(core, u, '+');
    assert core <= r <= Print(v);
    assert Free(r, '+');
    if |r| > |core| {
      AfterCore(v);
      assert r[|core|] == Print(v)[|core|];
      assert forall k :: 0 <= k < |core| ==> r[k] == core[k];
    }
    FindAt(r, '-', |core|);
  }

  lemma AfterCore(v: Version)
    requires |Print(v)| > |Core(v)|
    ensures Print(v)[|Core(v)|] == '-' || Print(v)[|Core(v)|] == '+'
  {
    hide Decimal;
    assert Print(v) == Core(v) + Tail(v);
  }

  // ---- A comparator with a full version ----

  /** The bound is the version's, with as many parts as its text has dots and one more; but if one of these
      parts is a wildcard, the operator is dropped and only the numbers are kept. */
  ghost predicate IsFullBound(op: Op, v: Version, bound: Bound) {
    if HasWild(v) then bound.op == Wildcard && bound.parts >= 3 && bound.version.(pre := v.pre, build := v.build) == v
    else bound == Bound(op, v, |Dotted(v)|)
  }

  lemma WildIndex(v: Version)
    ensures 3 <= FirstWild(Dotted(v)) <= |Dotted(v)|
    ensures FirstWild(Dotted(v)) < |Dotted(v)| <==> HasWild(v)
  {
    hide Dotted, Decimal;
    DottedParts(v);
    FirstWildExactly(Dotted(v));
    NumberIsNotWild(v.major, Dotted(v)[0]);
    NumberIsNotWild(v.minor, Dotted(v)[1]);
    NumberIsNotWild(v.patch, Dotted(v)[2]);
    FirstWildFrom(Dotted(v), 3);
  }

  lemma NumberIsNotWild(n: nat, s: string)
    requires Decimal(n) <= s
    ensures !IsWild(s)
  {
    hide Decimal;
    DecimalIsPlain(n);
    assert s[0] == Decimal(n)[0];
  }

  /** What a comparator is read as, once its operator is taken off. */
  lemma BoundOfOperand(raw: string)
    ensures var part := TrimSpace(raw); var parts := Split(Operand(part), '.'); var n := FirstWild(parts);
      ReadBound(raw) ==
        if n == 0 then Ok(None)
        else
          match Parse(Join(parts[..n], '.'))
          case Thrown => Thrown
          case Ok(v) => Ok(Some(Bound(if n < |parts| then Wildcard else OpOf(part), v, n)))
  {
    hide TrimSpace, Operand, OpOf, Split, Parse, Join, FirstWild;
    if Operand(TrimSpace(raw)) == "*" {
      LoneStar();
      assert FirstWild(["*"]) == 0 by { FirstWildAtOnce("*"); }
    }
  }

  lemma FirstWildAtOnce(item: string)
    requires IsWild(item)
    ensures FirstWild([item]) == 0
  {
  }

  lemma FullReads(raw: string, v: Version)
    requires ReadsBack(v) && Operand(TrimSpace(raw)) == Print(v)
    ensures ReadBound(raw).Ok? && ReadBound(raw).value.Some?
    ensures IsFullBound(OpOf(TrimSpace(raw)), v, ReadBound(raw).value.value)
  {
    hide ReadBound, TrimSpace, Operand, OpOf, Split, Parse, Join, FirstWild, Print, HasWild, Core;
    var n := FirstWild(Dotted(v));
    BoundOfOperand(raw);
    WildIndex(v);
    CoreIsInFront(v, n);
    CutShortReads(v, Join(Dotted(v)[..n], '.'));
    if n == |Dotted(v)| {
      JoinOfDotted(v);
      assert Dotted(v)[..n] == Dotted(v);
    }
  }

  // ---- `=` and a printed version ----

  lemma EqualOperand(t: string)
    requires TrimSpace(t) == t
    ensures OpOf("=" + t) == Equal && Operand("=" + t) == t
  {
    hide TrimSpace;
    var part := "=" + t;
    assert part[0] == '=' && "<="[0] == '<' && ">="[0] == '>';
    assert HasPrefix(part, "=") && !HasPrefix(part, "<=") && !HasPrefix(part, ">=");
    assert part[1..] == t;
  }

  lemma ExactBound(v: Version)
    requires ReadsBack(v)
    ensures ReadBound("=" + Print(v)).Ok? && ReadBound("=" + Print(v)).value.Some?
    ensures IsFullBound(Equal, v, ReadBound("=" + Print(v)).value.value)
  {
    hide Print, ReadsBack, TrimSpace, ReadBound, Operand, OpOf, IsFullBound;
    var text := Print(v);
    PrintedEnds(v);
    NotTrimmed(text);
    NotTrimmed("=" + text);
    EqualOperand(text);
    FullReads("=" + text, v);
  }

  lemma LoneStar()
    ensures Split("*", '.') == ["*"] && IsWild("*")
  {
    FindAt("*", '.', 1);
  }

  lemma {:induction false} SplitCounts(s: string, c: char)
    ensures |Split(s, c)| == 1 <==> Free(s, c)
  {
  }

  lemma {:induction false} SplitJoins(a: string, b: string, c: char)
    ensures |Split(a + b, c)| == |Split(a, c)| + |Split(b, c)| - 1
    decreases |a|
  {
    hide Split;
    var n := Find(a, c);
    if n < |a| {
      var first, more := a[..n], a[n + 1..];
      assert a == first + [c] + more && a + b == first + [c] + (more + b);
      SplitFirst(first, c, more);
      SplitFirst(first, c, more + b);
      SplitJoins(more, b, c);
    } else {
      SplitLast(a, c);
      var m := Find(b, c);
      if m < |b| {
        assert b == b[..m] + [c] + b[m + 1..] && a + b == (a + b[..m]) + [c] + b[m + 1..];
        SplitFirst(b[..m], c, b[m + 1..]);
        SplitFirst(a + b[..m], c, b[m + 1..]);
      } else {
        SplitLast(b, c);
        SplitLast(a + b, c);
      }
    }
  }

  lemma MarkedParts(mark: string, text: string)
    requires |mark| == 1 && mark[0] != '.'
    ensures |Split(mark + text, '.')| == |Split(text, '.')|
  {
    SplitJoins(mark, text, '.');
    SplitLast(mark, '.');
  }

  /** A printed version has three dotted parts exactly if neither its prerelease nor its build metadata
      holds a dot, and more otherwise. */
  lemma PartsOfPrinted(v: Version)
    requires v.major <= MAX_INT && v.minor <= MAX_INT && v.patch <= MAX_INT
    ensures |Split(Print(v), '.')| >= 3
    ensures |Split(Print(v), '.')| == 3 <==> Free(v.pre, '.') && Free(v.build, '.')
  {
    hide Decimal, Split, Free;
    CoreReads(v);
    var pre := if v.pre != "" then "-" + v.pre else "";
    var build := if v.build != "" then "+" + v.build else "";
    assert Print(v) == Core(v) + (pre + build);
    SplitJoins(Core(v), pre + build, '.');
    SplitJoins(pre, build, '.');
    SplitCounts(v.pre, '.');
    SplitCounts(v.build, '.');
    SplitCounts("", '.');
    assert Free("", '.') by { EmptyIsFree('.'); }
    MarkedParts("-", v.pre);
    MarkedParts("+", v.build);
  }

  lemma EmptyIsFree(c: char)
    ensures Free("", c)
  {
  }

  lemma EqualMeets(v: Version, parts: nat, w: Version)
    requires parts >= 3
    ensures Meets(Bound(Equal, v, parts), w) <==> parts > 3 || Order(w, v) == 0
  {
  }

  /** No dot stands in prerelease and build metadata. */
  ghost predicate Undotted(v: Version) { Free(v.pre, '.') && Free(v.build, '.') }

  /** `=` with a full version accepts just the versions that tie with it, exactly if no dot stands in its
      prerelease and build metadata. With such a dot it accepts anything, as it counts more than three parts;
      unless a wildcard is among them, when it accepts whatever has its major number. */
  lemma EqualIsExact(v: Version, bound: Bound)
    requires ReadsBack(v) && ReadBound("=" + Print(v)) == Ok(Some(bound))
    ensures (forall w :: Meets(bound, w) <==> Order(w, v) == 0) <==> Undotted(v)
    ensures !Undotted(v) && !HasWild(v) ==> forall w :: Meets(bound, w)
    ensures HasWild(v) ==> !Undotted(v) && forall w :: Meets(bound, w) <==> w.major == v.major
  {
    hide Print, ReadBound, Undotted, Meets, Order, ReadsBack, HasWild, Dotted;
    EqualMeaning(v, bound);
    EqualParts(v);
    NotEqual(v);
  }

  lemma EqualParts(v: Version)
    requires ReadsBack(v)
    ensures |Dotted(v)| > 3 <==> !Undotted(v)
    ensures HasWild(v) ==> |Dotted(v)| > 3
  {
    PartsOfPrinted(v);
    WildIndex(v);
  }

  lemma EqualMeaning(v: Version, bound: Bound)
    requires ReadsBack(v) && ReadBound("=" + Print(v)) == Ok(Some(bound))
    ensures forall w :: Meets(bound, w) <==> if HasWild(v) then w.major == v.major else |Dotted(v)| > 3 || Order(w, v) == 0
  {
    hide Print, Parse, TrimSpace, Split, ReadBound, Undotted, Meets, Order, ReadsBack, HasWild;
    ExactBound(v);
    WildIndex(v);
    forall w ensures Meets(bound, w) <==> if HasWild(v) then w.major == v.major else |Dotted(v)| > 3 || Order(w, v) == 0 {
      if HasWild(v) {
        WildMeets(bound, w);
      } else {
        EqualMeets(v, |Dotted(v)|, w);
      }
    }
  }

  lemma WildMeets(bound: Bound, w: Version)
    requires bound.op == Wildcard && bound.parts >= 3
    ensures Meets(bound, w) <==> w.major == bound.version.major
  {
  }

  /** Two later versions, of this and of the next major number. */
  lemma NotEqual(v: Version)
    ensures Order(v.(major := v.major + 1), v) != 0 && Order(v.(minor := v.minor + 1), v) != 0
  {
  }

  // ---- Two versions for which it is not ----

  /** `1.2.3-rc.` and a last identifier. */
  function Rc(last: string): Version { Version(1, 2, 3, "rc." + last, "") }

  const RC := "1.2.3-rc."

  lemma RcReadsBack(last: string)
    requires last == "1" || last == "x"
    ensures Print(Rc(last)) == RC + last && ReadsBack(Rc(last)) && !Undotted(Rc(last))
  {
    hide Parse, Print;
    AllowedReadsBack(Rc(last));
    PrintRc(last);
    assert Rc(last).pre[2] == '.';
  }

  lemma PrintRc(last: string)
    ensures Print(Rc(last)) == RC + last
  {
    assert Decimal(1) == "1" && Decimal(2) == "2" && Decimal(3) == "3";
    assert Print(Rc(last)) == "1" + "." + "2" + "." + "3" + ("-" + ("rc." + last)) + "";
  }

  /** How the parts of a version are written. */
  lemma FullText()
    ensures Parse("1.2.3-rc.1+5") == Ok(Version(1, 2, 3, "rc.1", "5")) && Print(Version(1, 2, 3, "rc.1", "5")) == "1.2.3-rc.1+5"
  {
    hide Parse;
    assert Decimal(1) == "1" && Decimal(2) == "2" && Decimal(3) == "3";
    assert Print(Version(1, 2, 3, "rc.1", "5")) == "1.2.3-rc.1+5";
    AllowedReadsBack(Version(1, 2, 3, "rc.1", "5"));
  }

  lemma RcParts(last: string)
    requires Free(last, '.')
    ensures Dotted(Rc(last)) == ["1", "2", "3-rc", last]
  {
    hide Split, Find, Print;
    PrintRc(last);
    var more := "3-rc" + "." + last;
    assert RC + last == "1" + "." + ("2" + "." + more);
    SplitFirst("1", '.', "2" + "." + more);
    SplitFirst("2", '.', more);
    SplitFirst("3-rc", '.', last);
    SplitLast(last, '.');
  }

  lemma RcWild(last: string)
    requires last == "1" || last == "x"
    ensures HasWild(Rc(last)) <==> last == "x"
  {
    RcParts(last);
    hide Dotted, Rc;
    var parts := Dotted(Rc(last));
    assert IsWild(parts[3]) <==> last == "x";
    assert |parts[0]| == |parts[1]| == 1 && |parts[2]| == 4 && parts[0][0] == '1' && parts[1][0] == '2';
  }

  /** `=1.2.3-rc.1` accepts every version. */
  lemma DottedAcceptsAll()
    ensures exists bound :: ReadBound("=1.2.3-rc.1") == Ok(Some(bound)) && forall w :: Meets(bound, w)
  {
    hide ReadBound, Meets, ReadsBack, Undotted, HasWild, Print;
    RcReadsBack("1");
    RcWild("1");
    assert "=" + (RC + "1") == "=1.2.3-rc.1";
    ExactBound(Rc("1"));
    EqualIsExact(Rc("1"), ReadBound("=1.2.3-rc.1").value.value);
  }

  /** `=1.2.3-rc.x` accepts every version with major number 1, `1.2.3-rc.x` itself being one of them. */
  lemma WildAcceptsMajor()
    ensures exists bound :: ReadBound("=1.2.3-rc.x") == Ok(Some(bound)) && forall w :: Meets(bound, w) <==> w.major == 1
  {
    hide ReadBound, Meets, ReadsBack, Undotted, HasWild, Print;
    RcReadsBack("x");
    RcWild("x");
    assert "=" + (RC + "x") == "=1.2.3-rc.x";
    ExactBound(Rc("x"));
    EqualIsExact(Rc("x"), ReadBound("=1.2.3-rc.x").value.value);
  }
}
