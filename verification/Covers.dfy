/** Covers of boxes as sets: subsumption-maximal boxes, canonical order, covered points. */
module Covers {
  import opened Sequences
  import opened Boxes
  import opened BoxSubtraction

  /** `b` covers `a` entirely; boxes of different dimension never do. */
  predicate Sub(b: Box, a: Box) {
    |a| == |b| && Subsumes(b, a)
  }

  lemma SubIsTransitive(c: Box, b: Box, a: Box)
    requires Sub(c, b) && Sub(b, a)
    ensures Sub(c, a)
  {
    SubsumesIsTransitive(c, b, a);
  }

  lemma SubIsAntisymmetric(b: Box, a: Box)
    requires Sub(b, a) && Sub(a, b)
    ensures a == b
  {
    SubsumesIsAntisymmetric(b, a);
  }

  ghost predicate Antichain(S: set<Box>) {
    forall a, b :: a in S && b in S && a != b ==> !Sub(a, b)
  }

  /** Boxes of dimension `n`, each with at least one point. */
  ghost predicate Proper(S: set<Box>, n: nat) {
    forall b :: b in S ==> |b| == n && !Hollow(b)
  }

  ghost predicate InSet(S: set<Box>, x: Point) {
    exists b :: b in S && Inside(b, x)
  }

  // ----- maximal boxes -----

  /** The boxes no other box of the set covers. */
  ghost function Maxima(S: set<Box>): set<Box> {
    set b | b in S && forall c :: c in S && c != b ==> !Sub(c, b)
  }

  ghost predicate IsMaximal(C: set<Box>, S: set<Box>) {
    && C <= S && Antichain(C)
    && forall s :: s in S ==> exists c :: c in C && Sub(c, s)
  }

  /** Every box of a finite set lies in a maximal one. */
  lemma {:induction false} MaximalAbove(S: set<Box>, b: Box, above: set<Box>) returns (c: Box)
    requires b in S && above == (set x | x in S && x != b && Sub(x, b))
    ensures c in Maxima(S) && Sub(c, b)
    decreases above
  {
    if above == {} {
      c := b;
      SubsumesIsReflexive(b);
      forall x | x in S && x != b
        ensures !Sub(x, b)
      {
        assert x !in above;
      }
    } else {
      var d :| d in above;
      var higher := set x | x in S && x != d && Sub(x, d);
      forall x | x in higher
        ensures x in above
      {
        SubIsTransitive(x, d, b);
        if x == b { SubIsAntisymmetric(d, b); }
      }
      assert d !in higher;
      c := MaximalAbove(S, d, higher);
      SubIsTransitive(c, d, b);
    }
  }

  lemma MaximaAreMaximal(S: set<Box>)
    ensures IsMaximal(Maxima(S), S)
  {
    forall s | s in S
      ensures exists c :: c in Maxima(S) && Sub(c, s)
    {
      var c := MaximalAbove(S, s, set x | x in S && x != s && Sub(x, s));
    }
  }

  /** A set has one maximal antichain below which everything lies. */
  lemma MaximalIsUnique(C: set<Box>, S: set<Box>)
    requires IsMaximal(C, S)
    ensures C == Maxima(S)
  {
    forall c | c in C
      ensures c in Maxima(S)
    {
      forall x | x in S && x != c
        ensures !Sub(x, c)
      {
        if Sub(x, c) {
          var d :| d in C && Sub(d, x);
          SubIsTransitive(d, x, c);
          SubIsAntisymmetric(x, c);
        }
      }
    }
    forall m | m in Maxima(S)
      ensures m in C
    {
      var c :| c in C && Sub(c, m);
    }
  }

  /** Dropping covered boxes keeps the covered points. */
  lemma MaximaKeepPoints(S: set<Box>, x: Point)
    ensures InSet(Maxima(S), x) <==> InSet(S, x)
  {
    MaximaAreMaximal(S);
    if InSet(S, x) {
      var b :| b in S && Inside(b, x);
      var c :| c in Maxima(S) && Sub(c, b);
      assert Inside(c, x);
    }
  }

  lemma MaximaOfAntichain(S: set<Box>)
    requires Antichain(S)
    ensures Maxima(S) == S
  {
  }

  // ----- canonical order -----

  ghost predicate Sorted(s: seq<Box>) {
    forall j, k :: 0 <= j < k < |s| ==> Less(s[j], s[k])
  }

  /** A set of boxes has one canonical listing. */
  lemma SortedIsUnique(s: seq<Box>, t: seq<Box>)
    requires Sorted(s) && Sorted(t) && Elements(s) == Elements(t)
    ensures s == t
  {
    forall x, y | x in s && y in s && Less(x, y)
      ensures !Less(y, x)
    {
      LessIsTotal(x, y);
    }
    IncreasingIsUnique(Less, s, t);
  }

  lemma SortedIsDistinct(s: seq<Box>, j: nat, k: nat)
    requires Sorted(s) && j < |s| && k < |s| && s[j] == s[k]
    ensures j == k
  {
    LessIsTotal(s[j], s[k]);
  }

  lemma InsideSomeIsInSet(s: seq<Box>, x: Point)
    ensures InsideSome(s, x) <==> InSet(Elements(s), x)
  {
    if InsideSome(s, x) {
      var k :| 0 <= k < |s| && Inside(s[k], x);
      assert s[k] in Elements(s);
    }
  }

  // ----- the canonical listing of a set -----

  ghost function InsertBox(s: seq<Box>, b: Box): seq<Box> {
    if s == [] || Less(b, s[0]) then [b] + s else [s[0]] + InsertBox(s[1..], b)
  }

  lemma {:induction false} InsertBoxIsSorted(s: seq<Box>, b: Box, n: nat)
    requires Sorted(s) && |b| == n && b !in s && forall x :: x in s ==> |x| == n
    ensures Sorted(InsertBox(s, b)) && Elements(InsertBox(s, b)) == Elements(s) + {b}
  {
    if s != [] {
      LessIsTotal(b, s[0]);
      if Less(b, s[0]) {
        forall k | 1 <= k < |s|
          ensures Less(b, s[k])
        {
          LessIsTransitive(b, s[0], s[k]);
        }
      } else {
        InsertBoxIsSorted(s[1..], b, n);
        HeadBelow(s, b, InsertBox(s[1..], b));
        assert s == [s[0]] + s[1..];
      }
    }
  }

  lemma HeadBelow(s: seq<Box>, b: Box, t: seq<Box>)
    requires s != [] && Sorted(s) && Less(s[0], b) && Elements(t) == Elements(s[1..]) + {b}
    ensures forall x :: x in t ==> Less(s[0], x)
  {
    forall x | x in t
      ensures Less(s[0], x)
    {
      assert x in Elements(t);
      if x != b {
        var k :| 0 <= k < |s[1..]| && s[1..][k] == x;
        assert s[k + 1] == x;
      }
    }
  }

  ghost function SortedOf(S: set<Box>): seq<Box> {
    if S == {} then []
    else
      var b :| b in S;
      InsertBox(SortedOf(S - {b}), b)
  }

  lemma {:induction false} SortedOfIsSorted(S: set<Box>, n: nat)
    requires forall b :: b in S ==> |b| == n
    ensures Sorted(SortedOf(S)) && Elements(SortedOf(S)) == S
    decreases S
  {
    if S == {} {
      NoElements(SortedOf(S));
    } else {
      var b :| b in S && SortedOf(S) == InsertBox(SortedOf(S - {b}), b);
      SortedOfIsSorted(S - {b}, n);
      var s := SortedOf(S - {b});
      forall x | x in s
        ensures |x| == n && x != b
      {
        assert x in Elements(s);
      }
      InsertBoxIsSorted(s, b, n);
      assert S == (S - {b}) + {b};
    }
  }
}
