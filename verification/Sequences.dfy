/** Sequences: their elements, and sort.Slice and sort.Search taken by their contracts. */
module Sequences {

  ghost function Elements<T>(s: seq<T>): set<T> {
    set x | x in s
  }

  lemma NoElements<T>(s: seq<T>)
    ensures Elements(s) == {} <==> s == []
  {
    if s != [] { assert s[0] in Elements(s); }
  }

  ghost predicate Distinct<T>(s: seq<T>) {
    forall j, k :: 0 <= j < k < |s| ==> s[j] != s[k]
  }

  lemma {:induction false} DistinctIsCardinality<T>(s: seq<T>)
    ensures |Elements(s)| <= |s|
    ensures Distinct(s) <==> |Elements(s)| == |s|
  {
    if s == [] {
      assert Elements(s) == {};
    } else {
      var rest, last := s[..|s| - 1], s[|s| - 1];
      DistinctIsCardinality(rest);
      assert Elements(s) == Elements(rest) + {last};
      if last in rest {
        var k :| 0 <= k < |rest| && rest[k] == last;
        assert s[k] == s[|s| - 1];
        assert Elements(s) == Elements(rest);
      } else {
        assert |Elements(s)| == |Elements(rest)| + 1;
        assert Distinct(s) <==> Distinct(rest);
      }
    }
  }

  lemma DistinctAppend<T>(s: seq<T>, x: T)
    requires Distinct(s) && x !in s
    ensures Distinct(s + [x])
  {
  }

  lemma DistinctTransfers<T>(s: seq<T>, t: seq<T>)
    requires Distinct(s) && Elements(s) == Elements(t) && |s| == |t|
    ensures Distinct(t)
  {
    DistinctIsCardinality(s);
    DistinctIsCardinality(t);
  }

  /** Some element, as iteration over a Go map picks one. */
  method AnyOf<T>(keys: set<T>) returns (id: T)
    requires keys != {}
    ensures id in keys
  {
    id :| id in keys;
  }

  lemma SplitAt<T>(s: seq<T>, k: nat)
    requires k <= |s|
    ensures s == s[..k] + s[k..] && s[..k][..k] == s[..k] && s[..|s|] == s
  {
  }

  lemma InSuffix<T>(s: seq<T>, from: nat)
    requires from <= |s|
    ensures forall j :: from <= j < |s| ==> s[j] in s[from..]
  {
    forall j | from <= j < |s|
      ensures s[j] in s[from..]
    {
      assert s[from..][j - from] == s[j];
    }
  }

  // ----- strictly ordered listings -----

  /** Strictly increasing by `less`. */
  ghost predicate Increasing<T>(less: (T, T) -> bool, s: seq<T>) {
    forall j, k :: 0 <= j < k < |s| ==> less(s[j], s[k])
  }

  ghost predicate Asymmetric<T>(less: (T, T) -> bool, s: seq<T>) {
    forall x, y :: x in s && y in s && less(x, y) ==> !less(y, x)
  }

  /** A set has at most one strictly increasing listing. */
  lemma {:induction false} IncreasingIsUnique<T>(less: (T, T) -> bool, s: seq<T>, t: seq<T>)
    requires Increasing(less, s) && Increasing(less, t) && Asymmetric(less, s) && Elements(s) == Elements(t)
    ensures s == t
    decreases |s|
  {
    NoElements(s);
    NoElements(t);
    if s != [] {
      IncreasingHeads(less, s, t);
      IncreasingTail(less, s);
      assert Asymmetric(less, t) by {
        forall x, y | x in t && y in t && less(x, y)
          ensures !less(y, x)
        {
          assert x in Elements(s) && y in Elements(s);
        }
      }
      IncreasingTail(less, t);
      IncreasingIsUnique(less, s[1..], t[1..]);
      assert s == [s[0]] + s[1..] && t == [t[0]] + t[1..];
    }
  }

  lemma IncreasingHeads<T>(less: (T, T) -> bool, s: seq<T>, t: seq<T>)
    requires Increasing(less, s) && Increasing(less, t) && Asymmetric(less, s) && Elements(s) == Elements(t) && s != [] && t != []
    ensures s[0] == t[0]
  {
    assert s[0] in Elements(t) && t[0] in Elements(s);
    var j :| 0 <= j < |t| && t[j] == s[0];
    var k :| 0 <= k < |s| && s[k] == t[0];
  }

  lemma IncreasingTail<T>(less: (T, T) -> bool, s: seq<T>)
    requires Increasing(less, s) && Asymmetric(less, s) && s != []
    ensures Increasing(less, s[1..]) && Asymmetric(less, s[1..]) && Elements(s[1..]) == Elements(s) - {s[0]}
  {
    forall x | x in s[1..]
      ensures x != s[0] && x in s
    {
      var k :| 0 <= k < |s[1..]| && s[1..][k] == x;
      assert s[k + 1] == x;
    }
    forall x | x in s && x != s[0]
      ensures x in s[1..]
    {
      var k :| 0 <= k < |s| && s[k] == x;
      assert s[1..][k - 1] == x;
    }
  }

  // ----- sort.Slice -----


  /** `less` is a strict weak order on the elements of `s`. */
  ghost predicate Orders<T>(less: (T, T) -> bool, s: seq<T>) {
    && (forall x, y :: x in s && y in s && less(x, y) ==> !less(y, x))
    && (forall x, y, z :: x in s && y in s && z in s && !less(y, x) && !less(z, y) ==> !less(z, x))
  }

  ghost predicate SortedBy<T>(less: (T, T) -> bool, s: seq<T>) {
    forall j, k :: 0 <= j < k < |s| ==> !less(s[k], s[j])
  }

  /** A sorted rearrangement of `s`; nothing is promised about the order of ties. */
  method Sort<T(==)>(s: seq<T>, less: (T, T) -> bool) returns (r: seq<T>)
    requires Orders(less, s)
    ensures multiset(r) == multiset(s)
    ensures |r| == |s| && forall x :: x in r <==> x in s
    ensures SortedBy(less, r)
  {
    r := [];
    for i := 0 to |s|
      invariant multiset(r) == multiset(s[..i])
      invariant SortedBy(less, r)
    {
      SameMembers(r, s[..i]);
      r := Insert(r, s[i], less, s);
      assert s[..i + 1] == s[..i] + [s[i]];
    }
    assert s[..|s|] == s;
    SameMembers(r, s);
  }

  method Insert<T(==)>(r: seq<T>, x: T, less: (T, T) -> bool, ghost s: seq<T>) returns (out: seq<T>)
    requires Orders(less, s) && x in s && forall y :: y in r ==> y in s
    requires SortedBy(less, r)
    ensures multiset(out) == multiset(r) + multiset{x}
    ensures SortedBy(less, out)
  {
    var k := |r|;
    while k > 0 && less(x, r[k - 1])
      invariant 0 <= k <= |r|
      invariant forall j :: k <= j < |r| ==> less(x, r[j])
    {
      k := k - 1;
    }
    forall j | 0 <= j < |r|
      ensures if j < k then !less(x, r[j]) else !less(r[j], x)
    {
      Placed(less, s, r, x, k, j);
    }
    out := InsertedAt(less, r, x, k);
  }

  lemma Placed<T>(less: (T, T) -> bool, s: seq<T>, r: seq<T>, x: T, k: nat, j: nat)
    requires Orders(less, s) && x in s && forall y :: y in r ==> y in s
    requires SortedBy(less, r) && k <= |r| && j < |r|
    requires k > 0 ==> !less(x, r[k - 1])
    requires forall i :: k <= i < |r| ==> less(x, r[i])
    ensures if j < k then !less(x, r[j]) else !less(r[j], x)
  {
    assert r[j] in s;
    if j < k - 1 {
      assert r[k - 1] in s;
      assert !less(r[k - 1], r[j]);
    }
  }

  function InsertedAt<T>(less: (T, T) -> bool, r: seq<T>, x: T, k: nat): (out: seq<T>)
    requires SortedBy(less, r) && k <= |r|
    requires forall j :: 0 <= j < |r| ==> if j < k then !less(x, r[j]) else !less(r[j], x)
    ensures multiset(out) == multiset(r) + multiset{x}
    ensures SortedBy(less, out)
  {
    InsertedMembers(r, x, k);
    InsertedSorted(less, r, x, k);
    r[..k] + [x] + r[k..]
  }

  lemma InsertedMembers<T>(r: seq<T>, x: T, k: nat)
    requires k <= |r|
    ensures multiset(r[..k] + [x] + r[k..]) == multiset(r) + multiset{x}
  {
    assert r == r[..k] + r[k..];
  }

  lemma InsertedSorted<T>(less: (T, T) -> bool, r: seq<T>, x: T, k: nat)
    requires SortedBy(less, r) && k <= |r|
    requires forall j :: 0 <= j < |r| ==> if j < k then !less(x, r[j]) else !less(r[j], x)
    ensures SortedBy(less, r[..k] + [x] + r[k..])
  {
  }

  lemma SameMembers<T>(r: seq<T>, s: seq<T>)
    requires multiset(r) == multiset(s)
    ensures |r| == |s| && forall x :: x in r <==> x in s
  {
    assert |multiset(r)| == |r| && |multiset(s)| == |s|;
    assert forall x :: x in r <==> x in multiset(r);
    assert forall x :: x in s <==> x in multiset(s);
  }

  lemma TailOfMultiset<T>(s: seq<T>)
    requires |s| > 0
    ensures s == [s[0]] + s[1..] && multiset(s[1..]) == multiset(s) - multiset{s[0]}
  {
    assert s == [s[0]] + s[1..];
  }

  // ----- sort.Search -----

  /** The smallest index at which a predicate that stays true once true holds, by binary search. */
  method Search(n: nat, f: nat -> bool) returns (pos: nat)
    requires forall j: nat, k: nat :: j < k < n && f(j) ==> f(k)
    ensures pos <= n
    ensures forall k: nat :: k < pos ==> !f(k)
    ensures forall k: nat :: pos <= k < n ==> f(k)
  {
    var lo: nat, hi: nat := 0, n;
    while lo < hi
      invariant lo <= hi <= n
      invariant forall k: nat :: k < lo ==> !f(k)
      invariant forall k: nat :: hi <= k < n ==> f(k)
    {
      var mid := (lo + hi) / 2;
      if f(mid) { hi := mid; } else { lo := mid + 1; }
    }
    pos := lo;
  }
}
