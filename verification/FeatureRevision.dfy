/** `featureRevision` (bin/cargo/resolve.go): the sorted active features joined by NUL bytes. */
module FeatureRevision {
  import opened Text

  // Feature names may themselves hold NUL bytes, so different sets can have the same revision; a set and a
  // larger one cannot, which is all the resolver relies on.

  const SEPARATOR := [0 as char]

  function Join(list: seq<string>): string {
    if list == [] then ""
    else if |list| == 1 then list[0]
    else Join(list[..|list| - 1]) + SEPARATOR + list[|list| - 1]
  }

  /** Strictly increasing in the bytewise order. */
  ghost predicate Increasing(list: seq<string>) {
    forall i, j :: 0 <= i < j < |list| ==> Compare(list[i], list[j]) < 0
  }

  ghost function Members(list: seq<string>): set<string> { set x | x in list }

  /** `sortedFeatureKeys`, by insertion. */
  method SortedKeys(features: set<string>) returns (list: seq<string>)
    ensures Members(list) == features && Increasing(list)
  {
    list := [];
    var todo := features;
    while todo != {}
      invariant Members(list) == features - todo && todo <= features && Increasing(list)
      decreases todo
    {
      var x :| x in todo;
      var k := |list|;
      assert x !in Members(list);
      while k > 0 && Compare(x, list[k - 1]) < 0
        invariant 0 <= k <= |list|
        invariant forall n :: k <= n < |list| ==> Compare(x, list[n]) < 0
      {
        k := k - 1;
      }
      InsertIncreasing(list, k, x);
      InsertMembers(list, k, x);
      list := list[..k] + [x] + list[k..];
      todo := todo - {x};
    }
  }

  lemma InsertIncreasing(list: seq<string>, k: nat, x: string)
    requires Increasing(list) && k <= |list| && x !in list
    requires k > 0 ==> Compare(x, list[k - 1]) >= 0
    requires forall n :: k <= n < |list| ==> Compare(x, list[n]) < 0
    ensures Increasing(list[..k] + [x] + list[k..])
  {
    hide Compare, Members;
    forall i | 0 <= i < k ensures Compare(list[i], x) < 0 {
      CompareAntisymmetric(x, list[k - 1]);
      if i < k - 1 {
        assert Compare(list[i], list[k - 1]) < 0;
        CompareTransitive(list[i], list[k - 1], x);
      }
    }
    var s := list[..k] + [x] + list[k..];
    forall i, j | 0 <= i < j < |s| ensures Compare(s[i], s[j]) < 0 {
      assert s[i] == if i < k then list[i] else if i == k then x else list[i - 1];
      assert s[j] == if j < k then list[j] else if j == k then x else list[j - 1];
    }
  }

  lemma InsertMembers(list: seq<string>, k: nat, x: string)
    requires k <= |list|
    ensures Members(list[..k] + [x] + list[k..]) == Members(list) + {x}
  {
    assert list == list[..k] + list[k..];
  }

  method Revision(features: set<string>) returns (revision: string)
    ensures IsRevision(features, revision)
  {
    var list := SortedKeys(features);
    revision := Join(list);
  }

  ghost predicate IsRevision(features: set<string>, revision: string) {
    exists list :: Members(list) == features && Increasing(list) && revision == Join(list)
  }

  // ---- The same set has one revision ----

  lemma {:induction false} IncreasingIsUnique(a: seq<string>, b: seq<string>)
    requires Increasing(a) && Increasing(b) && Members(a) == Members(b)
    ensures a == b
    decreases |a|
  {
    assert (a != [] ==> a[0] in Members(a)) && (b != [] ==> b[0] in Members(b));
    if a != [] {
      var i :| 0 <= i < |b| && b[i] == a[0];
      var j :| 0 <= j < |a| && a[j] == b[0];
      CompareAntisymmetric(a[0], b[0]);
      assert a[0] == b[0];
      TailMembers(a);
      TailMembers(b);
      IncreasingIsUnique(a[1..], b[1..]);
      assert a == [a[0]] + a[1..] && b == [b[0]] + b[1..];
    }
  }

  lemma TailMembers(a: seq<string>)
    requires Increasing(a) && a != []
    ensures Increasing(a[1..]) && Members(a[1..]) == Members(a) - {a[0]}
  {
    CompareAntisymmetric(a[0], a[0]);
    assert a == [a[0]] + a[1..];
    forall x | x in a[1..] ensures x != a[0] {
      var i :| 0 <= i < |a[1..]| && a[1..][i] == x;
      assert Compare(a[0], a[i + 1]) < 0;
    }
  }

  // ---- A larger set has a longer revision ----

  ghost function Weight(features: set<string>): nat {
    if features == {} then 0
    else
      var x :| x in features;
      |x| + 1 + Weight(features - {x})
  }

  lemma {:induction false} WeightWithout(features: set<string>, y: string)
    requires y in features
    ensures Weight(features) == |y| + 1 + Weight(features - {y})
    decreases features
  {
    var x :| x in features && Weight(features) == |x| + 1 + Weight(features - {x});
    if x != y {
      WeightWithout(features - {x}, y);
      WeightWithout(features - {y}, x);
      assert features - {x} - {y} == features - {y} - {x};
    }
  }

  lemma {:induction false} WeightGrows(a: set<string>, b: set<string>)
    requires a < b
    ensures Weight(a) < Weight(b)
    decreases b
  {
    var y :| y in b && y !in a;
    WeightWithout(b, y);
    if a != b - {y} {
      WeightGrows(a, b - {y});
    }
  }

  lemma {:induction false} JoinLength(list: seq<string>)
    requires Increasing(list) && list != []
    ensures |Join(list)| + 1 == Weight(Members(list))
  {
    var n := |list| - 1;
    var x := list[n];
    assert list == list[..n] + [x];
    forall i | 0 <= i < n ensures list[i] != x {
      CompareAntisymmetric(x, x);
      assert Compare(list[i], list[n]) < 0;
    }
    assert Members(list) - {x} == Members(list[..n]);
    WeightWithout(Members(list), x);
    if n > 0 {
      JoinLength(list[..n]);
    } else {
      assert Members(list[..n]) == {};
    }
  }

  /** While no feature is the empty string: the revision is empty for the empty set only, and a set that
      has grown has another revision. */
  lemma RevisionSeesGrowth(a: set<string>, b: set<string>, r: string, r': string)
    requires a <= b && "" !in b && IsRevision(a, r) && IsRevision(b, r')
    ensures r == "" <==> a == {}
    ensures r == r' <==> a == b
  {
    var x :| Members(x) == a && Increasing(x) && r == Join(x);
    var y :| Members(y) == b && Increasing(y) && r' == Join(y);
    if a == b {
      IncreasingIsUnique(x, y);
    } else {
      WeightGrows(a, b);
    }
    if x != [] {
      JoinLength(x);
      HeavyEnough(a);
    }
    if y != [] {
      JoinLength(y);
      HeavyEnough(b);
    }
    assert x != [] ==> x[0] in a;
    assert y != [] ==> y[0] in b;
  }

  lemma HeavyEnough(features: set<string>)
    requires features != {} && "" !in features
    ensures Weight(features) >= 2
  {
    var x :| x in features;
    WeightWithout(features, x);
    assert |x| >= 1;
  }

  // ---- Which sets share a revision ----

  /** Names that cannot be taken apart in a revision. */
  predicate Plain(name: string) { name != "" && forall i :: 0 <= i < |name| ==> name[i] != SEPARATOR[0] }

  ghost predicate AllPlain(list: seq<string>) { forall i :: 0 <= i < |list| ==> Plain(list[i]) }

  /** The last separator is the same in both. */
  lemma LastSeparator(u: string, x: string, v: string, y: string)
    requires (forall i :: 0 <= i < |x| ==> x[i] != SEPARATOR[0]) && (forall i :: 0 <= i < |y| ==> y[i] != SEPARATOR[0])
    requires u + SEPARATOR + x == v + SEPARATOR + y
    ensures u == v && x == y
  {
    var s, t := u + SEPARATOR + x, v + SEPARATOR + y;
    assert s[|u|] == SEPARATOR[0] && t[|v|] == SEPARATOR[0];
    assert |u| == |v|;
    assert u == s[..|u|] && v == t[..|v|] && x == s[|u| + 1..] && y == t[|v| + 1..];
  }

  lemma {:induction false} JoinInjective(a: seq<string>, b: seq<string>)
    requires AllPlain(a) && AllPlain(b) && Join(a) == Join(b)
    ensures a == b
    decreases |a|
  {
    JoinShape(a);
    JoinShape(b);
    if |a| >= 2 && |b| >= 2 {
      var m, n := |a| - 1, |b| - 1;
      assert Plain(a[m]) && Plain(b[n]);
      LastSeparator(Join(a[..m]), a[m], Join(b[..n]), b[n]);
      JoinInjective(a[..m], b[..n]);
      assert a == a[..m] + [a[m]] && b == b[..n] + [b[n]];
    } else if |a| == 1 && |b| == 1 {
      assert a == [a[0]] && b == [b[0]];
    }
  }

  /** The number of names shows in the revision: none, one or several. */
  lemma JoinShape(list: seq<string>)
    requires AllPlain(list)
    ensures Join(list) == "" <==> list == []
    ensures (exists i :: 0 <= i < |Join(list)| && Join(list)[i] == SEPARATOR[0]) <==> |list| >= 2
  {
    if list != [] {
      assert Plain(list[0]);
    }
    if |list| >= 2 {
      assert Join(list)[|Join(list[..|list| - 1])|] == SEPARATOR[0];
    }
  }

  /** Sets of names that are not empty and hold no NUL have the same revision only if they are the same. */
  lemma PlainRevisionsDiffer(a: set<string>, b: set<string>, r: string, r': string)
    requires (forall f :: f in a ==> Plain(f)) && (forall f :: f in b ==> Plain(f))
    requires IsRevision(a, r) && IsRevision(b, r')
    ensures r == r' <==> a == b
  {
    hide Plain, Increasing, Join;
    var x :| Members(x) == a && Increasing(x) && r == Join(x);
    var y :| Members(y) == b && Increasing(y) && r' == Join(y);
    MembersPlain(x);
    MembersPlain(y);
    if r == r' {
      JoinInjective(x, y);
    } else if a == b {
      IncreasingIsUnique(x, y);
    }
  }

  lemma MembersPlain(list: seq<string>)
    requires forall f :: f in Members(list) ==> Plain(f)
    ensures AllPlain(list)
  {
    forall i | 0 <= i < |list| ensures Plain(list[i]) {
      assert list[i] in Members(list);
    }
  }

  /** With a NUL in a name, one name can look like two. */
  lemma NulHidesNames()
    ensures IsRevision({"a" + SEPARATOR + "b"}, "a" + SEPARATOR + "b")
    ensures IsRevision({"a", "b"}, "a" + SEPARATOR + "b")
    ensures {"a" + SEPARATOR + "b"} != {"a", "b"}
  {
    var one, two := ["a" + SEPARATOR + "b"], ["a", "b"];
    assert Members(one) == {"a" + SEPARATOR + "b"} && Increasing(one) && Join(one) == "a" + SEPARATOR + "b";
    assert two[..1] == ["a"];
    assert Compare("a", "b") < 0;
    assert Members(two) == {"a", "b"} && Increasing(two) && Join(two) == "a" + SEPARATOR + "b";
    assert |"a" + SEPARATOR + "b"| == 3;
  }
}
