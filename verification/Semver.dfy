/** Versions and requirements (bin/cargo/semver.go): the order, and what a requirement accepts. */
module Semver {
  import opened Text

  datatype Version = Version(major: nat, minor: nat, patch: nat, pre: string, build: string)

  datatype Op = Equal | Greater | GreaterEqual | Less | LessEqual | Wildcard | Tilde | Caret

  /** A comparator; `parts` counts the dotted parts written. */
  datatype Bound = Bound(op: Op, version: Version, parts: nat)

  function CompareNumbers(a: int, b: int): (r: int)
    ensures -1 <= r <= 1 && (r < 0 <==> a < b) && (r == 0 <==> a == b)
  {
    if a < b then -1 else if a > b then 1 else 0
  }

  /** Prereleases compare as plain strings, and stand before the release. */
  function ComparePre(a: string, b: string): int {
    if a == b then 0 else if a == "" then 1 else if b == "" then -1 else Compare(a, b)
  }

  /** `compareVersion`. */
  method CompareVersion(a: Version, b: Version) returns (r: int)
    ensures r == Order(a, b)
  {
    var av, bv := [a.major, a.minor, a.patch], [b.major, b.minor, b.patch];
    for i := 0 to 3
      invariant forall j :: 0 <= j < i ==> av[j] == bv[j]
    {
      assert (i == 0 || i == 1 || i == 2) && av[0] == a.major && av[1] == a.minor && bv[0] == b.major && bv[1] == b.minor;
      if av[i] < bv[i] {
        return -1;
      }
      if av[i] > bv[i] {
        return 1;
      }
    }
    assert av[0] == bv[0] && av[1] == bv[1] && av[2] == bv[2];
    if a.pre == b.pre {
      return 0;
    }
    if a.pre == "" {
      return 1;
    }
    if b.pre == "" {
      return -1;
    }
    return Compare(a.pre, b.pre);
  }

  function Order(a: Version, b: Version): int {
    if a.major != b.major then CompareNumbers(a.major, b.major)
    else if a.minor != b.minor then CompareNumbers(a.minor, b.minor)
    else if a.patch != b.patch then CompareNumbers(a.patch, b.patch)
    else ComparePre(a.pre, b.pre)
  }

  /** Every two versions compare one way round; those that tie differ at most in build metadata. */
  lemma OrderIsTotal(a: Version, b: Version)
    ensures Order(a, b) == -Order(b, a) && -1 <= Order(a, b) <= 1
    ensures Order(a, b) == 0 <==> a.(build := "") == b.(build := "")
  {
    CompareAntisymmetric(a.pre, b.pre);
  }

  lemma OrderIsTransitive(a: Version, b: Version, c: Version)
    requires Order(a, b) <= 0 && Order(b, c) <= 0
    ensures Order(a, c) <= 0
    ensures Order(a, c) == 0 ==> Order(a, b) == 0 && Order(b, c) == 0
  {
    CompareAntisymmetric(a.pre, b.pre);
    CompareAntisymmetric(b.pre, c.pre);
    CompareAntisymmetric(a.pre, c.pre);
    if a.pre != "" && b.pre != "" && c.pre != "" && Compare(a.pre, b.pre) <= 0 && Compare(b.pre, c.pre) <= 0 {
      CompareTransitive(a.pre, b.pre, c.pre);
    }
  }

  /** One version stands below another if its numbers do, in dictionary order, or if the numbers agree and it
      is a prerelease: of a release, or with the earlier text. */
  lemma OrderMeans(a: Version, b: Version)
    ensures Order(a, b) < 0 <==>
      || a.major < b.major
      || (a.major == b.major && a.minor < b.minor)
      || (a.major == b.major && a.minor == b.minor && a.patch < b.patch)
      || (a.major == b.major && a.minor == b.minor && a.patch == b.patch && a.pre != "" && (b.pre == "" || Earlier(a.pre, b.pre)))
  {
    CompareExactly(a.pre, b.pre);
  }

  // ---- Requirements ----

  /** `compareToBound`: only the parts a comparator writes count. */
  function OrderToBound(v: Version, bound: Bound): int {
    if bound.parts >= 3 then Order(v, bound.version)
    else if v.major != bound.version.major then CompareNumbers(v.major, bound.version.major)
    else if bound.parts == 2 && v.minor != bound.version.minor then CompareNumbers(v.minor, bound.version.minor)
    else 0
  }

  predicate Compatible(base: Version, v: Version, parts: nat) {
    if parts == 1 then base.major == v.major
    else if base.major != 0 then base.major == v.major
    else if parts == 2 || base.minor != 0 then v.major == 0 && base.minor == v.minor
    else v.major == 0 && v.minor == 0 && base.patch == v.patch
  }

  predicate Meets(bound: Bound, v: Version) {
    var cmp := OrderToBound(v, bound);
    match bound.op
    case Equal =>
      !((bound.parts == 1 && v.major != bound.version.major)
        || (bound.parts == 2 && (v.major != bound.version.major || v.minor != bound.version.minor))
        || (bound.parts == 3 && cmp != 0))
    case Greater => cmp > 0
    case GreaterEqual => cmp >= 0
    case Less => cmp < 0
    case LessEqual => cmp <= 0
    case Wildcard => v.major == bound.version.major && (bound.parts == 2 ==> v.minor == bound.version.minor)
    case Tilde => cmp >= 0 && v.major == bound.version.major && (bound.parts > 1 ==> v.minor == bound.version.minor)
    case Caret => cmp >= 0 && Compatible(bound.version, v, bound.parts)
  }

  // ---- What the operators mean ----

  /** A version stands below a comparator if it does in the parts that are written. */
  predicate Below(v: Version, base: Version, parts: nat) {
    if parts >= 3 then Order(v, base) < 0
    else v.major < base.major || (parts == 2 && v.major == base.major && v.minor < base.minor)
  }

  predicate Above(v: Version, base: Version, parts: nat) {
    if parts >= 3 then Order(v, base) > 0
    else v.major > base.major || (parts == 2 && v.major == base.major && v.minor > base.minor)
  }

  /** `>`, `>=`, `<` and `<=` compare the written parts, and `=` wants them to agree (with more than three it
      wants nothing). A wildcard and `~` fix the major number and, if it is written, the minor one. `^` fixes
      everything up to the leftmost written part that is not zero. Like `~`, it starts at what is written. */
  predicate Allows(op: Op, base: Version, parts: nat, v: Version) {
    match op
    case Greater => Above(v, base, parts)
    case GreaterEqual => !Below(v, base, parts)
    case Less => Below(v, base, parts)
    case LessEqual => !Above(v, base, parts)
    case Equal => parts > 3 || (!Below(v, base, parts) && !Above(v, base, parts))
    case Wildcard => v.major == base.major && (parts == 2 ==> v.minor == base.minor)
    case Tilde => !Below(v, base, parts) && v.major == base.major && (parts >= 2 ==> v.minor == base.minor)
    case Caret =>
      && !Below(v, base, parts) && v.major == base.major
      && (base.major == 0 && parts >= 2 ==> v.minor == base.minor)
      && (base.major == 0 && base.minor == 0 && parts >= 3 ==> v.patch == base.patch)
  }

  lemma MeetsExactly(bound: Bound, v: Version)
    requires bound.parts >= 1
    ensures Meets(bound, v) <==> Allows(bound.op, bound.version, bound.parts, v)
  {
    hide Order;
  }

  /** With all three numbers a comparator speaks of the order of versions; with two or one of these numbers. */
  lemma ThreePartsMean(base: Version, v: Version, parts: nat)
    requires parts >= 3
    ensures Meets(Bound(Greater, base, parts), v) <==> Order(base, v) < 0
    ensures Meets(Bound(GreaterEqual, base, parts), v) <==> Order(base, v) <= 0
    ensures Meets(Bound(Less, base, parts), v) <==> Order(v, base) < 0
    ensures Meets(Bound(LessEqual, base, parts), v) <==> Order(v, base) <= 0
    ensures Meets(Bound(Equal, base, parts), v) <==> parts > 3 || v.(build := "") == base.(build := "")
  {
    OrderIsTotal(base, v);
    OrderIsTotal(v, base);
  }

  lemma TwoPartsMean(base: Version, v: Version)
    ensures Meets(Bound(Greater, base, 2), v) <==> base.major < v.major || (base.major == v.major && base.minor < v.minor)
    ensures Meets(Bound(GreaterEqual, base, 2), v) <==> base.major < v.major || (base.major == v.major && base.minor <= v.minor)
    ensures Meets(Bound(Less, base, 2), v) <==> v.major < base.major || (v.major == base.major && v.minor < base.minor)
    ensures Meets(Bound(LessEqual, base, 2), v) <==> v.major < base.major || (v.major == base.major && v.minor <= base.minor)
    ensures Meets(Bound(Equal, base, 2), v) <==> v.major == base.major && v.minor == base.minor
    ensures Meets(Bound(Wildcard, base, 2), v) <==> v.major == base.major && v.minor == base.minor
    ensures Meets(Bound(Caret, base, 2), v) <==>
      v.major == base.major && (if base.major > 0 then base.minor <= v.minor else v.minor == base.minor)
  {
    hide Order;
    MeetsExactly(Bound(Caret, base, 2), v);
  }

  lemma OnePartMeans(base: Version, v: Version)
    ensures Meets(Bound(Greater, base, 1), v) <==> base.major < v.major
    ensures Meets(Bound(GreaterEqual, base, 1), v) <==> base.major <= v.major
    ensures Meets(Bound(Less, base, 1), v) <==> v.major < base.major
    ensures Meets(Bound(LessEqual, base, 1), v) <==> v.major <= base.major
    ensures forall op :: op == Equal || op == Wildcard || op == Tilde || op == Caret ==> (Meets(Bound(op, base, 1), v) <==> v.major == base.major)
  {
    hide Order;
  }

  /** The first release that `^` excludes, when only the first numbers are written. */
  function ShortBump(base: Version, parts: nat): Version {
    if parts == 1 || base.major != 0 then Version(base.major + 1, 0, 0, "", "") else Version(0, base.minor + 1, 0, "", "")
  }

  /** `^` and `=` with one or two numbers accept an interval, from what is written with zeros for the rest, its
      prereleases included, up to the next release that differs too much, its prereleases excluded. */
  lemma ShortAreIntervals(base: Version, v: Version, parts: nat)
    requires 1 <= parts <= 2
    ensures Meets(Bound(Caret, base, parts), v) <==> !CoreBelow(v, Floor(base, parts)) && CoreBelow(v, ShortBump(base, parts))
    ensures Meets(Bound(Equal, base, parts), v) <==> !CoreBelow(v, Floor(base, parts)) && CoreBelow(v, Ceiling(base, parts))
  {
    TwoPartsMean(base, v);
    OnePartMeans(base, v);
  }

  /** `VersionSpec.accepts`. */
  method Accepts(bounds: seq<Bound>, v: Version) returns (accepted: bool)
    ensures accepted == Accepted(bounds, v)
  {
    for i := 0 to |bounds|
      invariant forall j :: 0 <= j < i ==> Meets(bounds[j], v)
    {
      if !Meets(bounds[i], v) {
        return false;
      }
    }
    return true;
  }

  predicate Accepted(bounds: seq<Bound>, v: Version) { forall i :: 0 <= i < |bounds| ==> Meets(bounds[i], v) }

  lemma BoundIsMonotone(v: Version, w: Version, bound: Bound)
    requires Order(v, w) <= 0
    ensures OrderToBound(v, bound) <= OrderToBound(w, bound)
  {
    if bound.parts >= 3 {
      var b := bound.version;
      OrderIsTotal(v, b);
      OrderIsTotal(w, b);
      OrderIsTotal(v, w);
      if Order(w, b) <= 0 {
        OrderIsTransitive(v, w, b);
      } else if Order(v, b) >= 0 {
        OrderIsTransitive(b, v, w);
      }
    }
  }

  /** What a requirement accepts has no gaps: a version between two accepted ones is accepted. */
  lemma AcceptedIsConvex(bounds: seq<Bound>, a: Version, b: Version, c: Version)
    requires Accepted(bounds, a) && Accepted(bounds, c) && Order(a, b) <= 0 && Order(b, c) <= 0
    ensures Accepted(bounds, b)
  {
    forall i | 0 <= i < |bounds| ensures Meets(bounds[i], b) {
      BoundIsMonotone(a, b, bounds[i]);
      BoundIsMonotone(b, c, bounds[i]);
      CoreIsMonotone(a, b);
      CoreIsMonotone(b, c);
      hide Order;
    }
  }

  /** The numbers, in dictionary order. */
  predicate CoreBelow(a: Version, b: Version) {
    a.major < b.major || (a.major == b.major && (a.minor < b.minor || (a.minor == b.minor && a.patch < b.patch)))
  }

  lemma CoreIsMonotone(a: Version, b: Version)
    requires Order(a, b) <= 0
    ensures !CoreBelow(b, a)
  {
  }

  /** The first release that a `^` requirement of three parts excludes. */
  function Bump(base: Version): Version {
    if base.major != 0 then Version(base.major + 1, 0, 0, "", "")
    else if base.minor != 0 then Version(0, base.minor + 1, 0, "", "")
    else Version(0, 0, base.patch + 1, "", "")
  }

  /** `^` with all parts written: from the base up to, and without the prereleases of, the bump of its
      leftmost nonzero part. */
  lemma CaretIsInterval(base: Version, v: Version, parts: nat)
    requires parts >= 3
    ensures Meets(Bound(Caret, base, parts), v) <==> Order(base, v) <= 0 && CoreBelow(v, Bump(base))
  {
    OrderIsTotal(base, v);
  }

  lemma CaretOnReleases(base: Version, v: Version, parts: nat)
    requires parts >= 3 && v.pre == ""
    ensures Meets(Bound(Caret, base, parts), v) <==> Order(base, v) <= 0 && Order(v, Bump(base)) < 0
  {
    CaretIsInterval(base, v, parts);
  }

  /** What `~` with so many parts starts from: the parts that are not written are zero. */
  function Floor(base: Version, parts: nat): Version {
    if parts == 1 then Version(base.major, 0, 0, "", "")
    else if parts == 2 then Version(base.major, base.minor, 0, "", "")
    else base
  }

  /** The first release that it excludes. */
  function Ceiling(base: Version, parts: nat): Version {
    if parts == 1 then Version(base.major + 1, 0, 0, "", "") else Version(base.major, base.minor + 1, 0, "", "")
  }

  /** `~` accepts an interval: from its floor up to, and without the prereleases of, its ceiling. With one or
      two parts written the prereleases of the floor are accepted as well. */
  lemma TildeIsInterval(base: Version, v: Version, parts: nat)
    requires parts >= 1
    ensures Meets(Bound(Tilde, base, parts), v) <==>
      (if parts >= 3 then Order(base, v) <= 0 else !CoreBelow(v, Floor(base, parts))) && CoreBelow(v, Ceiling(base, parts))
  {
    OrderIsTotal(base, v);
  }

  lemma TildeOnReleases(base: Version, v: Version, parts: nat)
    requires parts >= 1 && v.pre == ""
    ensures Meets(Bound(Tilde, base, parts), v) <==> Order(Floor(base, parts), v) <= 0 && Order(v, Ceiling(base, parts)) < 0
  {
    TildeIsInterval(base, v, parts);
  }
}
