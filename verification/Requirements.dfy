/** Requirements as they are written, and what they mean (bin/cargo/semver.go:86-198). */
module Requirements {
  import opened Text
  import opened Results
  import opened Semver
  import opened SemverText
  import opened SemverSpec

  /** What stands after the operator: a whole version, its first numbers, or some of them and wildcards. */
  datatype Pattern =
    | Full(version: Version)
    | Short(numbers: seq<nat>)
    | Starred(numbers: seq<nat>, stars: seq<string>)

  /** A comparator; the gaps are white space, and the operator may be missing. */
  datatype Comparator = Comparator(lead: string, sign: Option<Op>, gap: string, pattern: Pattern, trail: string)

  ghost predicate PatternWell(x: Pattern) {
    match x
    case Full(v) => ReadsBack(v)
    case Short(ns) => 1 <= |ns| <= 3 && InRange(ns)
    case Starred(ns, stars) => |ns| <= 3 && InRange(ns) && AllWild(stars)
  }

  predicate AllWild(stars: seq<string>) { stars != [] && forall i :: 0 <= i < |stars| ==> IsWild(stars[i]) }

  predicate InRange(ns: seq<nat>) { forall i :: 0 <= i < |ns| ==> ns[i] <= MAX_INT }

  ghost predicate Well(c: Comparator) {
    && IsGap(c.lead) && IsGap(c.gap) && IsGap(c.trail) && PatternWell(c.pattern)
    && c.sign != Some(Wildcard) && (c.sign.None? ==> c.gap == "")
  }

  function SignText(sign: Option<Op>): string {
    match sign
    case None => ""
    case Some(LessEqual) => "<="
    case Some(GreaterEqual) => ">="
    case Some(Equal) => "="
    case Some(Less) => "<"
    case Some(Greater) => ">"
    case Some(Tilde) => "~"
    case Some(Caret) => "^"
    case Some(Wildcard) => ""
  }

  function Decimals(ns: seq<nat>): seq<string> { seq(|ns|, i requires 0 <= i < |ns| => Decimal(ns[i])) }

  function PatternText(x: Pattern): string {
    match x
    case Full(v) => Print(v)
    case Short(ns) => Join(Decimals(ns), '.')
    case Starred(ns, stars) => Join(Decimals(ns) + stars, '.')
  }

  function Body(c: Comparator): string { SignText(c.sign) + (c.gap + PatternText(c.pattern)) }

  function TextOf(c: Comparator): string { c.lead + (Body(c) + c.trail) }

  // ---- What a comparator means ----

  function VersionOf(ns: seq<nat>): Version { Version(Part(ns, 0), Part(ns, 1), Part(ns, 2), "", "") }

  function Meaning(sign: Option<Op>): Op { if sign.Some? then sign.value else Caret }

  /** The versions a comparator stands for. An operator with a whole version compares all of it, with two
      exceptions: if a dotted part of the version is a wildcard only the major number counts, and `=` accepts
      anything if a dot stands in the prerelease or build metadata. A wildcard instead of a number leaves the
      numbers from there on open, whatever the operator. */
  ghost predicate Stands(sign: Option<Op>, x: Pattern, w: Version) {
    match x
    case Full(v) =>
      if HasWild(v) then w.major == v.major
      else (sign == Some(Equal) && !Undotted(v)) || Allows(Meaning(sign), v, 3, w)
    case Short(ns) => Allows(Meaning(sign), VersionOf(ns), |ns|, w)
    case Starred(ns, _) => ns == [] || (w.major == ns[0] && (|ns| == 2 ==> w.minor == ns[1]))
  }

  ghost predicate Admits(bound: Option<Bound>, w: Version) { bound.Some? ==> Meets(bound.value, w) }

  // ---- Taking the operator off ----

  predicate Begins(c: char) { IsDigit(c) || c == '*' || c == 'x' || c == 'X' }

  lemma OperatorIs(sign: Option<Op>, u: string)
    requires sign != Some(Wildcard) && u != "" && (IsSpace(u[0]) || Begins(u[0]))
    ensures Operator(SignText(sign) + u) == (Meaning(sign), |SignText(sign)|)
  {
    var o, part := SignText(sign), SignText(sign) + u;
    assert |o| <= 2 && part[|o|] == u[0] && (o != "" ==> part[0] == o[0]) && (|o| == 2 ==> part[1] == o[1]);
    TwoChars(part, '<', '=');
    TwoChars(part, '>', '=');
    OneChar(part, '=');
    OneChar(part, '<');
    OneChar(part, '>');
    OneChar(part, '~');
    OneChar(part, '^');
  }

  lemma OneChar(s: string, c: char)
    ensures HasPrefix(s, [c]) <==> |s| >= 1 && s[0] == c
  {
  }

  lemma TwoChars(s: string, c: char, d: char)
    ensures HasPrefix(s, [c, d]) <==> |s| >= 2 && s[0] == c && s[1] == d
  {
  }

  lemma SignReads(sign: Option<Op>, gap: string, t: string)
    requires sign != Some(Wildcard) && IsGap(gap) && (sign.None? ==> gap == "")
    requires t != "" && Begins(t[0]) && !IsSpace(t[|t| - 1])
    ensures OpOf(SignText(sign) + (gap + t)) == Meaning(sign) && Operand(SignText(sign) + (gap + t)) == t
  {
    hide Operator, TrimSpace;
    var o, u := SignText(sign), gap + t;
    assert u[0] == if gap == "" then t[0] else gap[0];
    assert gap != "" ==> gap[0] in gap;
    OperatorIs(sign, u);
    assert (o + u)[|o|..] == u;
    SpacesAround(gap, t, "");
    assert t + "" == t;
  }

  // ---- What stands after it ----

  lemma {:induction false} NumbersRead(ns: seq<nat>)
    requires InRange(ns)
    ensures Numbers(Decimals(ns)) == Ok(ns)
  {
    hide Decimal;
    if ns != [] {
      var n := |ns| - 1;
      NumbersRead(ns[..n]);
      DecimalIsPlain(ns[n]);
      NumbersStep(Decimals(ns[..n]), Decimal(ns[n]), ns[..n]);
      assert Decimals(ns) == Decimals(ns[..n]) + [Decimal(ns[n])];
      assert ns == ns[..n] + [ns[n]];
    }
  }

  /** Joining is undone by cutting, if the character stands in no part. */
  lemma {:induction false} SplitOfJoin(parts: seq<string>, c: char)
    requires parts != [] && forall i :: 0 <= i < |parts| ==> Free(parts[i], c)
    ensures Split(Join(parts, c), c) == parts
  {
    hide Free, Split;
    if |parts| == 1 {
      SplitLast(parts[0], c);
    } else {
      SplitOfJoin(parts[1..], c);
      SplitFirst(parts[0], c, Join(parts[1..], c));
      assert parts == [parts[0]] + parts[1..];
    }
  }

  lemma {:induction false} JoinIsFree(parts: seq<string>, c: char, d: char)
    requires c != d && forall i :: 0 <= i < |parts| ==> Free(parts[i], d)
    ensures Free(Join(parts, c), d)
  {
    if |parts| > 1 {
      JoinIsFree(parts[1..], c, d);
    }
  }

  lemma SumEnds(a: string, b: string, c: string)
    requires a != "" && c != ""
    ensures (a + b + c)[0] == a[0] && (a + b + c)[|a + b + c| - 1] == c[|c| - 1]
  {
  }

  lemma {:induction false} JoinEnds(parts: seq<string>, c: char)
    requires parts != [] && forall i :: 0 <= i < |parts| ==> parts[i] != ""
    ensures Join(parts, c) != "" && Join(parts, c)[0] == parts[0][0]
    ensures var last := parts[|parts| - 1]; Join(parts, c)[|Join(parts, c)| - 1] == last[|last| - 1]
  {
    if |parts| > 1 {
      var more := parts[1..];
      JoinEnds(more, c);
      assert more[|more| - 1] == parts[|parts| - 1];
      SumEnds(parts[0], [c], Join(more, c));
    }
  }

  lemma DecimalsArePlain(ns: seq<nat>)
    ensures forall i :: 0 <= i < |ns| ==>
      var s := Decimals(ns)[i]; s != "" && Digits(s) && Free(s, '.') && Free(s, ',') && Free(s, '+') && Free(s, '-') && !IsWild(s)
  {
    hide Decimal, Free, IsWild;
    forall i | 0 <= i < |ns|
      ensures var s := Decimals(ns)[i]; s != "" && Digits(s) && Free(s, '.') && Free(s, ',') && Free(s, '+') && Free(s, '-') && !IsWild(s)
    {
      DecimalIsPlain(ns[i]);
      DigitsAreFree(Decimal(ns[i]), ',');
      NumberIsNotWild(ns[i], Decimal(ns[i]));
    }
  }

  lemma DigitsAreFree(s: string, c: char)
    requires Digits(s) && !IsDigit(c)
    ensures Free(s, c)
  {
  }

  /** One to three numbers are read as the version that has zeros for the others. */
  lemma NumberedReads(ns: seq<nat>)
    requires 1 <= |ns| <= 3 && InRange(ns)
    ensures Parse(Join(Decimals(ns), '.')) == Ok(VersionOf(ns))
  {
    hide Decimals, Join, Split, Numbers, Free, TrimSpace, InRange, Before, After, Find, IsWild;
    DecimalsArePlain(ns);
    DecimalsSize(ns);
    var parts := Decimals(ns);
    var t := Join(parts, '.');
    JoinEnds(parts, '.');
    NotTrimmed(t);
    JoinIsFree(parts, '.', '+');
    JoinIsFree(parts, '.', '-');
    CutMarked(t, '+', "", t);
    CutMarked(t, '-', "", t);
    SplitOfJoin(parts, '.');
    NumbersRead(ns);
  }

  lemma DecimalsSize(ns: seq<nat>)
    ensures |Decimals(ns)| == |ns|
  {
  }

  lemma NumbersAreNotWild(ns: seq<nat>, more: seq<string>)
    ensures FirstWild(Decimals(ns) + more) >= |ns|
  {
    hide Decimals, IsWild, Free;
    DecimalsArePlain(ns);
    DecimalsSize(ns);
    FirstWildFrom(Decimals(ns) + more, |ns|);
  }

  lemma ShortReads(raw: string, ns: seq<nat>)
    requires 1 <= |ns| <= 3 && InRange(ns) && Operand(TrimSpace(raw)) == Join(Decimals(ns), '.')
    ensures ReadBound(raw) == Ok(Some(Bound(OpOf(TrimSpace(raw)), VersionOf(ns), |ns|)))
  {
    hide ReadBound, TrimSpace, Operand, OpOf, Split, Parse, Join, FirstWild, Decimals, InRange, Free, IsWild, Digits;
    BoundOfOperand(raw);
    DecimalsArePlain(ns);
    DecimalsSize(ns);
    SplitOfJoin(Decimals(ns), '.');
    NumbersAreNotWild(ns, []);
    assert Decimals(ns) + [] == Decimals(ns) && Decimals(ns)[..|ns|] == Decimals(ns);
    NumberedReads(ns);
  }

  lemma StarredReads(raw: string, ns: seq<nat>, stars: seq<string>)
    requires |ns| <= 3 && InRange(ns) && AllWild(stars) && Operand(TrimSpace(raw)) == Join(Decimals(ns) + stars, '.')
    ensures ReadBound(raw) == Ok(if ns == [] then None else Some(Bound(Wildcard, VersionOf(ns), |ns|)))
  {
    hide ReadBound, TrimSpace, Operand, OpOf, Split, Parse, Join, FirstWild, Decimals, InRange, Free, IsWild, Digits;
    var parts := Decimals(ns) + stars;
    BoundOfOperand(raw);
    DecimalsArePlain(ns);
    DecimalsSize(ns);
    StarsAreFree(stars);
    SplitOfJoin(parts, '.');
    NumbersAreNotWild(ns, stars);
    FirstWildExactly(parts);
    assert IsWild(parts[|ns|]) by { assert parts[|ns|] == stars[0]; }
    assert parts[..|ns|] == Decimals(ns);
    if ns != [] {
      NumberedReads(ns);
    }
  }

  lemma StarsAreFree(stars: seq<string>)
    requires AllWild(stars)
    ensures forall i :: 0 <= i < |stars| ==>
      var s := stars[i]; s != "" && Free(s, '.') && Free(s, ',') && Begins(s[0]) && !IsSpace(s[|s| - 1])
  {
  }

  lemma FullMeets(op: Op, v: Version, parts: nat, w: Version)
    requires parts >= 3
    ensures Meets(Bound(op, v, parts), w) <==> (op == Equal && parts > 3) || Meets(Bound(op, v, 3), w)
  {
    hide Order;
  }

  lemma PatternReads(raw: string, sign: Option<Op>, x: Pattern, w: Version)
    requires PatternWell(x) && OpOf(TrimSpace(raw)) == Meaning(sign) && Operand(TrimSpace(raw)) == PatternText(x)
    ensures ReadBound(raw).Ok? && (Admits(ReadBound(raw).value, w) <==> Stands(sign, x, w))
  {
    hide ReadBound, TrimSpace, Operand, OpOf, Decimals, InRange, IsWild, ReadsBack, Print, HasWild, Undotted, Join, Allows, Compatible, Order;
    match x
    case Full(v) =>
      FullReads(raw, v);
      PartsOfFull(v);
      if HasWild(v) {
        WildMeets(ReadBound(raw).value.value, w);
      } else {
        FullMeets(Meaning(sign), v, |Dotted(v)|, w);
        MeetsExactly(Bound(Meaning(sign), v, 3), w);
      }
    case Short(ns) =>
      ShortReads(raw, ns);
      MeetsExactly(Bound(Meaning(sign), VersionOf(ns), |ns|), w);
    case Starred(ns, stars) => StarredReads(raw, ns, stars);
  }

  lemma PartsOfFull(v: Version)
    requires ReadsBack(v)
    ensures |Dotted(v)| >= 3 && (|Dotted(v)| == 3 <==> Undotted(v))
  {
    PartsOfPrinted(v);
  }

  lemma PatternEnds(x: Pattern)
    requires PatternWell(x)
    ensures var t := PatternText(x); t != "" && Begins(t[0]) && !IsSpace(t[|t| - 1])
  {
    hide Decimals, InRange, IsWild, ReadsBack, Print, Join, Free;
    match x
    case Full(v) => PrintedEnds(v);
    case Short(ns) =>
      DecimalsArePlain(ns);
      DecimalsSize(ns);
      JoinEnds(Decimals(ns), '.');
    case Starred(ns, stars) =>
      DecimalsArePlain(ns);
      DecimalsSize(ns);
      StarsAreFree(stars);
      JoinEnds(Decimals(ns) + stars, '.');
  }

  // ---- Comparators and lists of them ----

  lemma BodyEnds(c: Comparator)
    requires Well(c)
    ensures Body(c) != "" && !IsSpace(Body(c)[0]) && !IsSpace(Body(c)[|Body(c)| - 1])
  {
    hide PatternText, PatternWell;
    PatternEnds(c.pattern);
    assert c.gap != "" ==> c.sign.Some?;
  }

  /** Any comparator, with white space anywhere around its operator, is read as what it means. */
  lemma ComparatorReads(c: Comparator, w: Version)
    requires Well(c)
    ensures ReadBound(TextOf(c)).Ok? && (Admits(ReadBound(TextOf(c)).value, w) <==> Stands(c.sign, c.pattern, w))
  {
    BodyEnds(c);
    PatternEnds(c.pattern);
    hide ReadBound, TrimSpace, Operand, OpOf, PatternWell, PatternText, Stands, Admits, SignText, IsGap, Begins, IsSpace;
    SpacesAround(c.lead, Body(c), c.trail);
    SignReads(c.sign, c.gap, PatternText(c.pattern));
    PatternReads(TextOf(c), c.sign, c.pattern, w);
  }

  /** No comma stands in its version. */
  ghost predicate CommaFree(c: Comparator) { c.pattern.Full? ==> Free(c.pattern.version.pre, ',') && Free(c.pattern.version.build, ',') }

  lemma TextIsCommaFree(c: Comparator)
    requires Well(c) && CommaFree(c)
    ensures Free(TextOf(c), ',')
  {
    PatternIsCommaFree(c);
    hide PatternText, PatternWell;
    GapIsFree(c.lead, ',');
    GapIsFree(c.gap, ',');
    GapIsFree(c.trail, ',');
  }

  lemma GapIsFree(gap: string, c: char)
    requires IsGap(gap) && !IsSpace(c)
    ensures Free(gap, c)
  {
    assert forall i :: 0 <= i < |gap| ==> gap[i] in gap;
  }

  lemma PatternIsCommaFree(c: Comparator)
    requires Well(c) && CommaFree(c)
    ensures Free(PatternText(c.pattern), ',')
  {
    hide Decimals, Join, IsWild, Print, ReadsBack, Free, InRange;
    match c.pattern
    case Full(v) => PrintIsFree(v, ',');
    case Short(ns) =>
      DecimalsArePlain(ns);
      DecimalsSize(ns);
      JoinIsFree(Decimals(ns), '.', ',');
    case Starred(ns, stars) =>
      DecimalsArePlain(ns);
      DecimalsSize(ns);
      StarsAreFree(stars);
      JoinIsFree(Decimals(ns) + stars, '.', ',');
  }

  lemma PrintIsFree(v: Version, c: char)
    requires !IsDigit(c) && c != '.' && c != '-' && c != '+' && Free(v.pre, c) && Free(v.build, c)
    ensures Free(Print(v), c)
  {
    var a, b, d := Decimal(v.major), Decimal(v.minor), Decimal(v.patch);
    hide Decimal, Free;
    DecimalIsPlain(v.major);
    DecimalIsPlain(v.minor);
    DecimalIsPlain(v.patch);
    DigitsAreFree(a, c);
    DigitsAreFree(b, c);
    DigitsAreFree(d, c);
    CoreIsPlain(a, b, d, c);
    var pre, build := if v.pre != "" then "-" + v.pre else "", if v.build != "" then "+" + v.build else "";
    MarkIsFree('-', v.pre, pre, c);
    MarkIsFree('+', v.build, build, c);
    SumIsFree(a + "." + b + "." + d, pre, c);
    SumIsFree(a + "." + b + "." + d + pre, build, c);
  }

  lemma SumIsFree(a: string, b: string, c: char)
    requires Free(a, c) && Free(b, c)
    ensures Free(a + b, c)
  {
  }

  lemma MarkIsFree(mark: char, s: string, t: string, c: char)
    requires mark != c && Free(s, c) && t == if s != "" then [mark] + s else ""
    ensures Free(t, c)
  {
  }

  function Texts(cs: seq<Comparator>): seq<string> { seq(|cs|, i requires 0 <= i < |cs| => TextOf(cs[i])) }

  /** Every comparator of the list is met. */
  ghost predicate AllStand(cs: seq<Comparator>, w: Version) { forall i :: 0 <= i < |cs| ==> Stands(cs[i].sign, cs[i].pattern, w) }

  lemma BoundsStep(raws: seq<string>, raw: string, w: Version)
    requires ReadBounds(raws).Ok? && ReadBound(raw).Ok?
    ensures ReadBounds(raws + [raw]).Ok?
    ensures Accepted(ReadBounds(raws + [raw]).value, w) <==> Accepted(ReadBounds(raws).value, w) && Admits(ReadBound(raw).value, w)
  {
    hide ReadBound, Meets;
    assert (raws + [raw])[..|raws|] == raws;
    var bounds, bound := ReadBounds(raws).value, ReadBound(raw).value;
    if bound.Some? {
      AcceptedOneMore(bounds, bound.value, w);
    }
  }

  lemma AcceptedOneMore(bounds: seq<Bound>, bound: Bound, w: Version)
    ensures Accepted(bounds + [bound], w) <==> Accepted(bounds, w) && Meets(bound, w)
  {
    hide Meets;
    var all := bounds + [bound];
    assert all[|bounds|] == bound && forall i :: 0 <= i < |bounds| ==> all[i] == bounds[i];
  }

  lemma {:induction false} ComparatorsRead(cs: seq<Comparator>, w: Version)
    requires forall i :: 0 <= i < |cs| ==> Well(cs[i])
    ensures ReadBounds(Texts(cs)).Ok? && (Accepted(ReadBounds(Texts(cs)).value, w) <==> AllStand(cs, w))
  {
    hide ReadBound, Stands, Well, TextOf, Meets;
    if cs != [] {
      var n := |cs| - 1;
      ComparatorsRead(cs[..n], w);
      ComparatorReads(cs[n], w);
      assert Texts(cs) == Texts(cs[..n]) + [TextOf(cs[n])];
      BoundsStep(Texts(cs[..n]), TextOf(cs[n]), w);
      assert AllStand(cs, w) <==> AllStand(cs[..n], w) && Stands(cs[n].sign, cs[n].pattern, w);
    }
  }

  /** A list of comparators with commas between them, and white space anywhere around these, is read as the
      requirement that all of them are met. */
  lemma RequirementReads(before: string, cs: seq<Comparator>, after: string, w: Version)
    requires cs != [] && IsGap(before) && IsGap(after) && cs[0].lead == "" && cs[|cs| - 1].trail == ""
    requires forall i :: 0 <= i < |cs| ==> Well(cs[i]) && CommaFree(cs[i])
    ensures var spec := ReadSpec(before + (Join(Texts(cs), ',') + after));
      spec.Ok? && (Accepted(spec.value, w) <==> AllStand(cs, w))
  {
    hide ReadBounds, Stands, Well, TextOf, CommaFree, Accepted, TrimSpace, Split, Join, Free;
    var text := Join(Texts(cs), ',');
    forall i | 0 <= i < |cs| ensures Texts(cs)[i] != "" && Free(Texts(cs)[i], ',') {
      TextIsCommaFree(cs[i]);
      TextIsNotEmpty(cs[i]);
    }
    JoinEnds(Texts(cs), ',');
    TextBegins(cs[0]);
    TextEnds(cs[|cs| - 1]);
    SpacesAround(before, text, after);
    SplitOfJoin(Texts(cs), ',');
    ComparatorsRead(cs, w);
    if text == "*" {
      LoneStarSpec();
    }
  }

  lemma TextIsNotEmpty(c: Comparator)
    requires Well(c)
    ensures TextOf(c) != ""
  {
    BodyEnds(c);
  }

  lemma TextBegins(c: Comparator)
    requires Well(c) && c.lead == ""
    ensures TextOf(c) != "" && !IsSpace(TextOf(c)[0])
  {
    BodyEnds(c);
  }

  lemma TextEnds(c: Comparator)
    requires Well(c) && c.trail == ""
    ensures TextOf(c) != "" && !IsSpace(TextOf(c)[|TextOf(c)| - 1])
  {
    BodyEnds(c);
  }

  lemma LoneStarSpec()
    ensures ReadBounds(Split("*", ',')) == Ok([])
  {
    hide ReadBound, Split;
    SplitLast("*", ',');
    StarIsNone("*");
    assert ["*"][..0] == [];
  }

  lemma StarIsNone(star: string)
    requires star == "*"
    ensures ReadBound(star) == Ok(None)
  {
    hide ReadBound, OpOf, TrimSpace;
    assert Decimals([]) + [star] == [star] && Join([star], '.') == star;
    NotTrimmed(star);
    hide Operand, Decimals, Join;
    SignReads(None, "", star);
    assert "" + ("" + star) == star;
    StarredReads(star, [], [star]);
  }

  // ---- Each operator before a whole version ----

  lemma OneComparator(sign: Option<Op>, v: Version, w: Version)
    requires sign != Some(Wildcard) && ReadsBack(v) && Free(v.pre, ',') && Free(v.build, ',')
    ensures var spec := ReadSpec(SignText(sign) + Print(v)); spec.Ok? && (Accepted(spec.value, w) <==> Stands(sign, Full(v), w))
  {
    var c := Comparator("", sign, "", Full(v), "");
    var cs := [c];
    assert Well(c) && CommaFree(c) && cs[0] == c;
    assert AllStand(cs, w) <==> Stands(sign, Full(v), w);
    TextOfBare(sign, v);
    hide Print, ReadSpec, Accepted, Stands, AllStand, Well, CommaFree, ReadsBack, Free, TextOf;
    RequirementReads("", cs, "", w);
    assert Join(Texts(cs), ',') == TextOf(c);
    assert "" + (TextOf(c) + "") == TextOf(c);
  }

  lemma TextOfBare(sign: Option<Op>, v: Version)
    ensures TextOf(Comparator("", sign, "", Full(v), "")) == SignText(sign) + Print(v)
  {
    hide Print, SignText;
    assert "" + (SignText(sign) + ("" + Print(v)) + "") == SignText(sign) + Print(v);
  }

  /** What the operators before a version without wildcards accept. */
  lemma OperatorsMean(v: Version, w: Version)
    requires ReadsBack(v) && !HasWild(v) && Free(v.pre, ',') && Free(v.build, ',')
    ensures var r := ReadSpec("<" + Print(v)); r.Ok? && (Accepted(r.value, w) <==> Order(w, v) < 0)
    ensures var r := ReadSpec("<=" + Print(v)); r.Ok? && (Accepted(r.value, w) <==> Order(w, v) <= 0)
    ensures var r := ReadSpec(">" + Print(v)); r.Ok? && (Accepted(r.value, w) <==> Order(v, w) < 0)
    ensures var r := ReadSpec(">=" + Print(v)); r.Ok? && (Accepted(r.value, w) <==> Order(v, w) <= 0)
    ensures var r := ReadSpec("=" + Print(v)); r.Ok? && (Undotted(v) ==> (Accepted(r.value, w) <==> v.(build := "") == w.(build := "")))
    ensures var r := ReadSpec("~" + Print(v)); r.Ok? && (Accepted(r.value, w) <==> Order(v, w) <= 0 && (w.major, w.minor) == (v.major, v.minor))
    ensures var r := ReadSpec("^" + Print(v)); r.Ok? && (Accepted(r.value, w) <==> Order(v, w) <= 0 && CoreBelow(w, Bump(v)))
    ensures var r := ReadSpec(Print(v)); r.Ok? && (Accepted(r.value, w) <==> Order(v, w) <= 0 && CoreBelow(w, Bump(v)))
  {
    hide ReadSpec, Accepted, Stands, Print, ReadsBack, HasWild, Free, Undotted, Order, CoreBelow, Bump;
    OneComparator(Some(Less), v, w);
    OneComparator(Some(LessEqual), v, w);
    OneComparator(Some(Greater), v, w);
    OneComparator(Some(GreaterEqual), v, w);
    OneComparator(Some(Equal), v, w);
    OneComparator(Some(Tilde), v, w);
    OneComparator(Some(Caret), v, w);
    OneComparator(None, v, w);
    assert SignText(None) + Print(v) == Print(v);
    FullStands(v, w);
  }

  lemma FullStands(v: Version, w: Version)
    requires !HasWild(v)
    ensures Stands(Some(Less), Full(v), w) <==> Order(w, v) < 0
    ensures Stands(Some(LessEqual), Full(v), w) <==> Order(w, v) <= 0
    ensures Stands(Some(Greater), Full(v), w) <==> Order(v, w) < 0
    ensures Stands(Some(GreaterEqual), Full(v), w) <==> Order(v, w) <= 0
    ensures Undotted(v) ==> (Stands(Some(Equal), Full(v), w) <==> v.(build := "") == w.(build := ""))
    ensures Stands(Some(Tilde), Full(v), w) <==> Order(v, w) <= 0 && (w.major, w.minor) == (v.major, v.minor)
    ensures Stands(Some(Caret), Full(v), w) <==> Order(v, w) <= 0 && CoreBelow(w, Bump(v))
    ensures Stands(None, Full(v), w) <==> Order(v, w) <= 0 && CoreBelow(w, Bump(v))
  {
    hide HasWild, Undotted, Order, CoreBelow, Bump;
    OrderIsTotal(v, w);
    CaretIsInterval(v, w, 3);
    MeetsExactly(Bound(Caret, v, 3), w);
  }
}
