/** The children that `cargo tree` shows (bin/cargo/tree.go:181-205): without repetitions, and sorted by
    name and then by version. Packages that agree in both may come in any order, of which the model picks
    one. */
module PackageOrder {
  import opened Text
  import opened TaskGraph
  import Semver

  /** A package stands for the pointer the program passes around. */
  type Package = Task

  datatype Info = Info(name: string, version: Semver.Version)

  // ---- The children of a package ----

  /** The order of `sortPackages`. */
  predicate NotAfter(a: Info, b: Info) {
    if a.name != b.name then Compare(a.name, b.name) < 0 else Semver.Order(a.version, b.version) <= 0
  }

  /** By name, and then by version. */
  lemma NotAfterMeans(a: Info, b: Info)
    ensures NotAfter(a, b) <==> Earlier(a.name, b.name) || (a.name == b.name && Semver.Order(a.version, b.version) <= 0)
  {
    CompareExactly(a.name, b.name);
  }

  function Insert(infos: map<Package, Info>, list: seq<Package>, p: Package): seq<Package>
    requires p in infos && forall q :: q in list ==> q in infos
  {
    if list == [] then [p]
    else if NotAfter(infos[list[|list| - 1]], infos[p]) then list + [p]
    else Insert(infos, list[..|list| - 1], p) + [list[|list| - 1]]
  }

  /** `uniquePackages`: repetitions dropped, then sorted. */
  function Children(infos: map<Package, Info>, list: seq<Package>): (r: seq<Package>)
    requires forall p :: p in list ==> p in infos
    ensures forall p :: p in r ==> p in list
    ensures |r| <= |list|
  {
    Sorted(infos, Unique(list))
  }

  function Unique(list: seq<Package>): (r: seq<Package>)
    ensures forall p :: p in r <==> p in list
    ensures |r| <= |list|
  {
    if list == [] then []
    else
      var front, last := Unique(list[..|list| - 1]), list[|list| - 1];
      if last in list[..|list| - 1] then front else front + [last]
  }

  function Sorted(infos: map<Package, Info>, list: seq<Package>): (r: seq<Package>)
    requires forall p :: p in list ==> p in infos
    ensures |r| == |list| && forall p :: p in r <==> p in list
  {
    if list == [] then []
    else
      InsertElements(infos, Sorted(infos, list[..|list| - 1]), list[|list| - 1]);
      Insert(infos, Sorted(infos, list[..|list| - 1]), list[|list| - 1])
  }

  lemma {:induction false} InsertElements(infos: map<Package, Info>, list: seq<Package>, p: Package)
    requires p in infos && forall q :: q in list ==> q in infos
    ensures |Insert(infos, list, p)| == |list| + 1
    ensures forall q :: q in Insert(infos, list, p) <==> q in list || q == p
  {
    if list != [] && !NotAfter(infos[list[|list| - 1]], infos[p]) {
      InsertElements(infos, list[..|list| - 1], p);
    }
  }

  lemma {:induction false} UniqueNeverRepeats(list: seq<Package>)
    ensures NoRepeats(Unique(list))
  {
    if list != [] {
      UniqueNeverRepeats(list[..|list| - 1]);
      assert list == list[..|list| - 1] + [list[|list| - 1]];
    }
  }

  lemma {:induction false} InsertKeepsDistinct(infos: map<Package, Info>, list: seq<Package>, p: Package)
    requires p in infos && (forall q :: q in list ==> q in infos) && NoRepeats(list) && p !in list
    ensures NoRepeats(Insert(infos, list, p))
  {
    if list != [] && !NotAfter(infos[list[|list| - 1]], infos[p]) {
      var front := list[..|list| - 1];
      InsertElements(infos, front, p);
      InsertKeepsDistinct(infos, front, p);
      assert list[|list| - 1] !in front;
      AddDistinct(Insert(infos, front, p), list[|list| - 1]);
    } else {
      AddDistinct(list, p);
      assert [] + [p] == [p];
    }
  }

  lemma AddDistinct(list: seq<Package>, p: Package)
    requires NoRepeats(list) && p !in list
    ensures NoRepeats(list + [p])
  {
  }

  ghost predicate Ordered(infos: map<Package, Info>, list: seq<Package>) {
    forall i, j :: 0 <= i < j < |list| ==> list[i] in infos && list[j] in infos && NotAfter(infos[list[i]], infos[list[j]])
  }

  lemma NotAfterIsTotal(a: Info, b: Info, c: Info)
    ensures NotAfter(a, b) || NotAfter(b, a)
    ensures NotAfter(a, b) && NotAfter(b, c) ==> NotAfter(a, c)
  {
    Semver.OrderIsTotal(a.version, b.version);
    CompareAntisymmetric(a.name, b.name);
    if NotAfter(a, b) && NotAfter(b, c) {
      if a.name != b.name && b.name != c.name {
        CompareTransitive(a.name, b.name, c.name);
        CompareAntisymmetric(a.name, c.name);
      }
      if a.name == b.name == c.name {
        Semver.OrderIsTransitive(a.version, b.version, c.version);
      }
    }
  }

  lemma {:induction false} InsertKeepsOrder(infos: map<Package, Info>, list: seq<Package>, p: Package)
    requires p in infos && (forall q :: q in list ==> q in infos) && Ordered(infos, list)
    ensures Ordered(infos, Insert(infos, list, p))
  {
    hide NotAfter;
    var r := Insert(infos, list, p);
    if list != [] {
      var front, last := list[..|list| - 1], list[|list| - 1];
      NotAfterIsTotal(infos[last], infos[p], infos[p]);
      if NotAfter(infos[last], infos[p]) {
        forall i | 0 <= i < |list| ensures NotAfter(infos[list[i]], infos[p]) {
          if i < |list| - 1 {
            NotAfterIsTotal(infos[list[i]], infos[last], infos[p]);
          }
        }
      } else {
        InsertKeepsOrder(infos, front, p);
        InsertElements(infos, front, p);
        forall i | 0 <= i < |r| - 1 ensures NotAfter(infos[r[i]], infos[last]) {
          assert r[i] in Insert(infos, front, p);
        }
      }
    }
  }

  /** Every package listed is a child, once, and they stand in order. */
  lemma ChildrenWell(infos: map<Package, Info>, list: seq<Package>)
    requires forall p :: p in list ==> p in infos
    ensures NoRepeats(Children(infos, list)) && Elements(Children(infos, list)) == Elements(list)
    ensures Ordered(infos, Children(infos, list))
    ensures |Children(infos, list)| == |Elements(list)|
  {
    UniqueNeverRepeats(list);
    SortedWell(infos, Unique(list));
    var r := Children(infos, list);
    DistinctCount(r);
    assert Elements(r) == Elements(list);
  }

  lemma {:induction false} SortedWell(infos: map<Package, Info>, list: seq<Package>)
    requires (forall p :: p in list ==> p in infos) && NoRepeats(list)
    ensures NoRepeats(Sorted(infos, list)) && Ordered(infos, Sorted(infos, list))
  {
    hide NotAfter;
    if list != [] {
      var front, last := list[..|list| - 1], list[|list| - 1];
      SortedWell(infos, front);
      InsertKeepsDistinct(infos, Sorted(infos, front), last);
      InsertKeepsOrder(infos, Sorted(infos, front), last);
    }
  }

  /** Sorting keeps every package as often as it stands there. */
  lemma {:induction false} SortedCounts(infos: map<Package, Info>, list: seq<Package>, p: Package)
    requires forall q :: q in list ==> q in infos
    ensures Count(Sorted(infos, list), p) == Count(list, p)
  {
    if list != [] {
      var n := |list| - 1;
      SortedCounts(infos, list[..n], p);
      InsertCounts(infos, Sorted(infos, list[..n]), list[n], p);
    }
  }

  lemma {:induction false} InsertCounts(infos: map<Package, Info>, list: seq<Package>, x: Package, p: Package)
    requires x in infos && forall q :: q in list ==> q in infos
    ensures Count(Insert(infos, list, x), p) == Count(list, p) + if x == p then 1 else 0
  {
    if list != [] && !NotAfter(infos[list[|list| - 1]], infos[x]) {
      InsertCounts(infos, list[..|list| - 1], x, p);
      CountAppend(Insert(infos, list[..|list| - 1], x), list[|list| - 1], p);
    } else {
      CountAppend(list, x, p);
      assert [] + [x] == [x];
    }
  }

  lemma {:induction false} DistinctCount(list: seq<Package>)
    requires NoRepeats(list)
    ensures |Elements(list)| == |list|
  {
    if list != [] {
      var front, last := list[..|list| - 1], list[|list| - 1];
      DistinctCount(front);
      assert last !in Elements(front);
      assert Elements(list) == Elements(front) + {last};
    }
  }

  method SortPackages(infos: map<Package, Info>, list: seq<Package>) returns (r: seq<Package>)
    requires forall p :: p in list ==> p in infos
    ensures r == Sorted(infos, list)
  {
    r := [];
    for i := 0 to |list|
      invariant r == Sorted(infos, list[..i])
    {
      assert list[..i + 1][..i] == list[..i];
      r := Insert(infos, r, list[i]);
    }
    assert list[..|list|] == list;
  }

  method UniquePackages(infos: map<Package, Info>, list: seq<Package>) returns (r: seq<Package>)
    requires forall p :: p in list ==> p in infos
    ensures r == Children(infos, list)
  {
    var seen: set<Package> := {};
    var result: seq<Package> := [];
    for i := 0 to |list|
      invariant result == Unique(list[..i]) && forall p :: p in seen <==> p in list[..i]
    {
      assert list[..i + 1][..i] == list[..i];
      if list[i] !in seen {
        seen := seen + {list[i]};
        result := result + [list[i]];
      }
    }
    assert list[..|list|] == list;
    r := SortPackages(infos, result);
  }
}
