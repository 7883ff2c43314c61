/** space/set.go: the exact difference of two covers. */
module BoxDifference {
  import opened Sequences
  import opened Boxes
  import opened BoxSubtraction
  import opened Covers
  import opened BoxSets

  // ----- the difference as a function of sets of boxes -----

  /** Every piece left of a box of `S` after removing `q`. */
  ghost function Carve(S: set<Box>, q: Box): set<Box> {
    set p, x | p in S && |p| == |q| && x in SubtractBox(p, q) :: x
  }

  /** The boxes of `S` with each box of `qs` removed in turn, keeping the maximal pieces after each. */
  ghost function MinusAll(S: set<Box>, qs: seq<Box>): set<Box> {
    if qs == [] then S
    else Maxima(Carve(MinusAll(S, qs[..|qs| - 1]), qs[|qs| - 1]))
  }

  lemma CarveIsProper(S: set<Box>, q: Box, n: nat)
    requires Proper(S, n) && |q| == n
    ensures Proper(Carve(S, q), n)
  {
    forall x | x in Carve(S, q)
      ensures |x| == n && !Hollow(x)
    {
      var p :| p in S && |p| == |q| && x in SubtractBox(p, q);
      SubtractBoxIsExact(p, q);
    }
  }

  lemma CarvePoints(S: set<Box>, q: Box, n: nat, x: Point)
    requires Proper(S, n) && |q| == n
    ensures InSet(Carve(S, q), x) <==> InSet(S, x) && !Inside(q, x)
  {
    if InSet(Carve(S, q), x) {
      var b :| b in Carve(S, q) && Inside(b, x);
      var p :| p in S && |p| == |q| && b in SubtractBox(p, q);
      CarvedInside(p, q, b, x);
    }
    if InSet(S, x) && !Inside(q, x) {
      var p :| p in S && Inside(p, x);
      var b := CarvedPiece(p, q, x);
    }
  }

  lemma CarvedInside(p: Box, q: Box, b: Box, x: Point)
    requires |p| == |q| && !Hollow(p) && b in SubtractBox(p, q) && Inside(b, x)
    ensures Inside(p, x) && !Inside(q, x)
  {
    SubtractBoxIsExact(p, q);
    assert InsideSome(SubtractBox(p, q), x);
  }

  lemma CarvedPiece(p: Box, q: Box, x: Point) returns (b: Box)
    requires |p| == |q| && !Hollow(p) && Inside(p, x) && !Inside(q, x)
    ensures b in SubtractBox(p, q) && Inside(b, x)
  {
    SubtractBoxIsExact(p, q);
    assert InsideSome(SubtractBox(p, q), x);
    var k :| 0 <= k < |SubtractBox(p, q)| && Inside(SubtractBox(p, q)[k], x);
    b := SubtractBox(p, q)[k];
  }

  /** The difference covers exactly the points of `S` outside every removed box. */
  lemma {:induction false} MinusAllIsExact(S: set<Box>, qs: seq<Box>, n: nat, x: Point)
    requires Proper(S, n) && OfDims(qs, n)
    ensures Proper(MinusAll(S, qs), n)
    ensures InSet(MinusAll(S, qs), x) <==> InSet(S, x) && !InsideSome(qs, x)
  {
    if qs != [] {
      var rest, q := qs[..|qs| - 1], qs[|qs| - 1];
      assert q in qs && forall b :: b in rest ==> b in qs;
      MinusAllIsExact(S, rest, n, x);
      var T := MinusAll(S, rest);
      CarveIsProper(T, q, n);
      CarvePoints(T, q, n, x);
      MaximaKeepPoints(Carve(T, q), x);
      assert qs == rest + [q];
      InsideConcat(rest, [q], x);
      assert InsideSome([q], x) <==> Inside(q, x) by {
        if Inside(q, x) { assert Inside([q][0], x); }
      }
    }
  }

  // ----- the difference on lists -----

  function Tagged<M>(bs: seq<Box>, meta: M): (out: seq<Painted<M>>)
    ensures Geo(out) == bs
    ensures forall k :: 0 <= k < |out| ==> out[k].meta == meta
  {
    seq(|bs|, k requires 0 <= k < |bs| => Painted(bs[k], meta))
  }

  /** The pieces of every box in turn, each keeping the metadata of its box. */
  function CarveList<M>(s: seq<Painted<M>>, q: Box): seq<Painted<M>>
    requires OfDims(Geo(s), |q|)
  {
    if s == [] then []
    else
      var last := s[|s| - 1];
      assert last.box == Geo(s)[|s| - 1] && last.box in Geo(s);
      OfDimsPrefix(s, |s| - 1, |q|);
      CarveList(s[..|s| - 1], q) + Tagged(SubtractBox(last.box, q), last.meta)
  }

  lemma OfDimsPrefix<M>(s: seq<Painted<M>>, i: nat, n: nat)
    requires OfDims(Geo(s), n) && i <= |s|
    ensures OfDims(Geo(s[..i]), n)
  {
    forall b | b in Geo(s[..i])
      ensures |b| == n
    {
      var k :| 0 <= k < i && Geo(s[..i])[k] == b;
      assert Geo(s)[k] == b && b in Geo(s);
    }
  }

  lemma GeoConcat<M>(s: seq<Painted<M>>, t: seq<Painted<M>>)
    ensures Geo(s + t) == Geo(s) + Geo(t)
  {
  }

  lemma {:induction false} CarveListElements<M>(s: seq<Painted<M>>, q: Box)
    requires OfDims(Geo(s), |q|)
    ensures Elements(Geo(CarveList(s, q))) == Carve(Elements(Geo(s)), q)
  {
    if s == [] {
      NoElements(Geo(s));
      assert Carve({}, q) == {};
    } else {
      var rest, last := s[..|s| - 1], s[|s| - 1];
      OfDimsPrefix(s, |s| - 1, |q|);
      assert |last.box| == |q| by { assert Geo(s)[|s| - 1] in Geo(s); }
      CarveListElements(rest, q);
      CarveListStep(rest, last, q, CarveList(rest, q));
      assert s == rest + [last];
    }
  }

  lemma CarveListStep<M>(rest: seq<Painted<M>>, last: Painted<M>, q: Box, carved: seq<Painted<M>>)
    requires |last.box| == |q| && Elements(Geo(carved)) == Carve(Elements(Geo(rest)), q)
    ensures Elements(Geo(carved + Tagged(SubtractBox(last.box, q), last.meta))) == Carve(Elements(Geo(rest + [last])), q)
  {
    var own := SubtractBox(last.box, q);
    GeoConcat(carved, Tagged(own, last.meta));
    ElementsConcat(Geo(carved), own);
    GeoAppend(rest, last);
    ElementsConcat(Geo(rest), [last.box]);
    CarveAdd(Elements(Geo(rest)), last.box, q);
    assert Elements([last.box]) == {last.box};
  }

  lemma ElementsConcat<T>(s: seq<T>, t: seq<T>)
    ensures Elements(s + t) == Elements(s) + Elements(t)
  {
  }

  lemma CarveAdd(S: set<Box>, p: Box, q: Box)
    requires |p| == |q|
    ensures Carve(S + {p}, q) == Carve(S, q) + Elements(SubtractBox(p, q))
  {
  }

  /** No two boxes of the list share a point. */
  ghost predicate Apart(g: seq<Box>) {
    forall j, k :: 0 <= j < k < |g| ==> |g[j]| == |g[k]| && !Overlaps(g[j], g[k])
  }

  /** Every piece lies in a box of `a` and carries its metadata. */
  ghost predicate Inherits<M>(a: seq<Painted<M>>, out: seq<Painted<M>>) {
    forall t :: t in out ==> exists s :: s in a && s.meta == t.meta && Sub(s.box, t.box)
  }

  lemma ApartIsIncomparable(g: seq<Box>)
    requires Apart(g) && NoneHollow(g)
    ensures Incomparable(g) && Distinct(g)
  {
    forall j, k | 0 <= j < |g| && 0 <= k < |g| && j != k
      ensures !Sub(g[j], g[k]) && g[j] != g[k]
    {
      if Sub(g[j], g[k]) { ApartNeverCovers(g, j, k); }
      SubsumesIsReflexive(g[k]);
    }
  }

  lemma ApartNeverCovers(g: seq<Box>, j: nat, k: nat)
    requires Apart(g) && NoneHollow(g) && j < |g| && k < |g| && Sub(g[j], g[k])
    ensures j == k
  {
    SelfOverlaps(g[k]);
    SubsumesIsReflexive(g[k]);
    OverlapGrows(g[j], g[k], g[k], g[k]);
    OverlapsIsSymmetric(g[j], g[k]);
  }

  lemma PiecesApart(p: Box, p': Box, q: Box, x: Box, y: Box)
    requires |p| == |p'| == |q| && !Hollow(p) && !Hollow(p') && !Overlaps(p, p')
    requires x in SubtractBox(p, q) && y in SubtractBox(p', q)
    ensures |x| == |y| && !Overlaps(x, y)
  {
    SubtractBoxIsExact(p, q);
    SubtractBoxIsExact(p', q);
    if Overlaps(x, y) {
      OverlapGrows(p, p', x, y);
    }
  }

  /** Where the pieces of the list come from. */
  lemma {:induction false} CarveListFrom<M>(s: seq<Painted<M>>, q: Box, t: Painted<M>) returns (j: nat)
    requires OfDims(Geo(s), |q|) && t in CarveList(s, q)
    ensures j < |s| && |s[j].box| == |q| && t.meta == s[j].meta && t.box in SubtractBox(s[j].box, q)
  {
    var rest, last := s[..|s| - 1], s[|s| - 1];
    OfDimsPrefix(s, |s| - 1, |q|);
    assert |last.box| == |q| by { assert Geo(s)[|s| - 1] in Geo(s); }
    if t in CarveList(rest, q) {
      j := CarveListFrom(rest, q, t);
    } else {
      j := |s| - 1;
      var own := Tagged(SubtractBox(last.box, q), last.meta);
      assert t in own;
      var k :| 0 <= k < |own| && own[k] == t;
      assert Geo(own)[k] == t.box;
    }
  }

  lemma {:induction false} CarveListApart<M>(s: seq<Painted<M>>, q: Box)
    requires OfDims(Geo(s), |q|) && Apart(Geo(s)) && NoneHollow(Geo(s))
    ensures Apart(Geo(CarveList(s, q))) && NoneHollow(Geo(CarveList(s, q)))
  {
    if s != [] {
      var rest, last := s[..|s| - 1], s[|s| - 1];
      OfDimsPrefix(s, |s| - 1, |q|);
      assert |last.box| == |q| by { assert Geo(s)[|s| - 1] in Geo(s); }
      GeoPrefix(s, |s| - 1);
      CarveListApart(rest, q);
      var first, own := CarveList(rest, q), SubtractBox(last.box, q);
      assert !Hollow(last.box) by { assert !Hollow(Geo(s)[|s| - 1]); }
      SubtractBoxIsExact(last.box, q);
      forall j, k | 0 <= j < |first| && 0 <= k < |own|
        ensures |first[j].box| == |own[k]| && !Overlaps(first[j].box, own[k])
      {
        CarvedAgainstLast(s, q, first[j], own[k]);
      }
      GeoConcat(first, Tagged(own, last.meta));
      ApartConcat(Geo(first), own);
    }
  }

  lemma CarvedAgainstLast<M>(s: seq<Painted<M>>, q: Box, t: Painted<M>, piece: Box)
    requires s != [] && OfDims(Geo(s), |q|) && Apart(Geo(s)) && NoneHollow(Geo(s)) && OfDims(Geo(s[..|s| - 1]), |q|)
    requires |s[|s| - 1].box| == |q| && t in CarveList(s[..|s| - 1], q) && piece in SubtractBox(s[|s| - 1].box, q)
    ensures |t.box| == |piece| && !Overlaps(t.box, piece)
  {
    var rest, last := s[..|s| - 1], s[|s| - 1];
    var i := CarveListFrom(rest, q, t);
    assert Geo(s)[i] == rest[i].box && Geo(s)[|s| - 1] == last.box;
    PiecesApart(rest[i].box, last.box, q, t.box, piece);
  }

  lemma ApartConcat(s: seq<Box>, t: seq<Box>)
    requires Apart(s) && NoneHollow(s) && Apart(t) && NoneHollow(t)
    requires forall j, k :: 0 <= j < |s| && 0 <= k < |t| ==> |s[j]| == |t[k]| && !Overlaps(s[j], t[k])
    ensures Apart(s + t) && NoneHollow(s + t)
  {
  }

  lemma CarveListInherits<M>(a: seq<Painted<M>>, s: seq<Painted<M>>, q: Box)
    requires OfDims(Geo(s), |q|) && NoneHollow(Geo(s)) && Inherits(a, s)
    ensures Inherits(a, CarveList(s, q))
  {
    forall t | t in CarveList(s, q)
      ensures exists r :: r in a && r.meta == t.meta && Sub(r.box, t.box)
    {
      var j := CarveListFrom(s, q, t);
      assert s[j] in s;
      var r :| r in a && r.meta == s[j].meta && Sub(r.box, s[j].box);
      assert !Hollow(Geo(s)[j]);
      SubtractBoxIsExact(s[j].box, q);
      SubIsTransitive(r.box, s[j].box, t.box);
    }
  }

  lemma RearrangedApart<M>(s: seq<Painted<M>>, t: seq<Painted<M>>)
    requires multiset(s) == multiset(t) && Apart(Geo(s)) && Sorted(Geo(t))
    ensures Apart(Geo(t))
  {
    SameMembers(s, t);
    GeoOfRearranged(s, t);
    forall j, k | 0 <= j < k < |t|
      ensures |Geo(t)[j]| == |Geo(t)[k]| && !Overlaps(Geo(t)[j], Geo(t)[k])
    {
      var x, y := Geo(t)[j], Geo(t)[k];
      assert x in Elements(Geo(s)) && y in Elements(Geo(s));
      var i :| 0 <= i < |s| && Geo(s)[i] == x;
      var m :| 0 <= m < |s| && Geo(s)[m] == y;
      LessIsTotal(x, y);
      OverlapsMeansShared(x, y);
      OverlapsMeansShared(y, x);
    }
  }

  method CarveAll<M(==)>(s: seq<Painted<M>>, q: Box) returns (next: seq<Painted<M>>)
    requires OfDims(Geo(s), |q|)
    ensures next == CarveList(s, q)
  {
    next := [];
    for i := 0 to |s|
      invariant OfDims(Geo(s[..i]), |q|) && next == CarveList(s[..i], q)
    {
      OfDimsPrefix(s, i + 1, |q|);
      assert s[..i + 1][..i] == s[..i];
      assert |s[i].box| == |q| by { assert Geo(s)[i] in Geo(s); }
      var pieces := SubtractByAxes(s[i].box, q);
      next := next + Tagged(pieces, s[i].meta);
    }
    assert s[..|s|] == s;
  }

  lemma CarveListOfDims<M>(s: seq<Painted<M>>, q: Box)
    requires OfDims(Geo(s), |q|) && NoneHollow(Geo(s))
    ensures OfDims(Geo(CarveList(s, q)), |q|) && NoneHollow(Geo(CarveList(s, q)))
    ensures Solid(Geo(CarveList(s, q))) == Carve(Elements(Geo(s)), q)
  {
    CarveListElements(s, q);
    assert Proper(Elements(Geo(s)), |q|) by { NormalIsProper(Geo(s), |q|); }
    CarveIsProper(Elements(Geo(s)), q, |q|);
    var g := Geo(CarveList(s, q));
    forall k | 0 <= k < |g|
      ensures !Hollow(g[k]) && |g[k]| == |q|
    {
      assert g[k] in Elements(g);
    }
  }

  lemma NormalIsProper(g: seq<Box>, n: nat)
    requires OfDims(g, n) && NoneHollow(g)
    ensures Proper(Elements(g), n)
  {
    forall b | b in g
      ensures !Hollow(b)
    {
      var k :| 0 <= k < |g| && g[k] == b;
    }
  }

  /** What the pieces of disjoint boxes keep: disjoint, and each with the metadata of its box. */
  ghost predicate KeepsMeta<M>(a: seq<Painted<M>>, out: seq<Painted<M>>) {
    Apart(Geo(out)) && Inherits(a, out)
  }

  lemma SelfInherits<M>(a: seq<Painted<M>>, out: seq<Painted<M>>)
    requires multiset(a) == multiset(out)
    ensures Inherits(a, out)
  {
    SameMembers(a, out);
    forall t | t in out
      ensures exists s :: s in a && s.meta == t.meta && Sub(s.box, t.box)
    {
      SubsumesIsReflexive(t.box);
    }
  }

  lemma InheritsRearranged<M>(a: seq<Painted<M>>, s: seq<Painted<M>>, t: seq<Painted<M>>)
    requires Inherits(a, s) && multiset(s) == multiset(t)
    ensures Inherits(a, t)
  {
    SameMembers(s, t);
  }

  /** Removing one box from a normalized list and normalizing again. */
  method MinusBox<M(==)>(s: seq<Painted<M>>, q: Box, join: (M, M) -> M, ghost a: seq<Painted<M>>) returns (out: seq<Painted<M>>)
    requires Normalized(Geo(s), |q|)
    ensures Normalized(Geo(out), |q|)
    ensures Elements(Geo(out)) == Maxima(Carve(Elements(Geo(s)), q))
    ensures KeepsMeta(a, s) ==> KeepsMeta(a, out)
  {
    var next := CarveAll(s, q);
    CarveListOfDims(s, q);
    out := Normalize(next, join, |q|);
    if KeepsMeta(a, s) {
      CarveListApart(s, q);
      ApartIsIncomparable(Geo(next));
      RearrangedApart(next, out);
      CarveListInherits(a, s, q);
      InheritsRearranged(a, next, out);
    }
  }

  /** DifferenceSortedMerged: the difference with an already normalized second cover. */
  method DifferenceSorted<M(==)>(a: seq<Painted<M>>, b: seq<Box>, join: (M, M) -> M, ghost n: nat) returns (out: seq<Painted<M>>)
    requires OfDims(Geo(a), n) && OfDims(b, n)
    ensures Normalized(Geo(out), n)
    ensures Elements(Geo(out)) == MinusAll(Maxima(Solid(Geo(a))), b)
    ensures Apart(Geo(a)) && NoneHollow(Geo(a)) ==> KeepsMeta(a, out)
  {
    out := Normalize(a, join, n);
    ghost var apart := Apart(Geo(a)) && NoneHollow(Geo(a));
    if apart {
      ApartIsIncomparable(Geo(a));
      RearrangedApart(a, out);
      SelfInherits(a, out);
    }
    for i := 0 to |b|
      invariant Normalized(Geo(out), n)
      invariant Elements(Geo(out)) == MinusAll(Maxima(Solid(Geo(a))), b[..i])
      invariant apart ==> KeepsMeta(a, out)
    {
      assert b[i] in b;
      out := MinusBox(out, b[i], join, a);
      assert b[..i + 1][..i] == b[..i];
    }
    SplitAt(b, |b|);
  }

  /** The canonical difference of two finite sets of boxes. */
  ghost predicate IsDifference(A: set<Box>, B: set<Box>, out: seq<Box>, n: nat) {
    exists b :: Normalized(b, n) && Elements(b) == Maxima(B)
      && Normalized(out, n) && Elements(out) == MinusAll(Maxima(A), b)
  }

  /** DifferenceMerged, with both covers normalized first. */
  method Difference<M(==)>(a: seq<Painted<M>>, b: seq<Painted<M>>, join: (M, M) -> M, ghost n: nat) returns (out: seq<Painted<M>>)
    requires OfDims(Geo(a), n) && OfDims(Geo(b), n)
    ensures IsDifference(Solid(Geo(a)), Solid(Geo(b)), Geo(out), n)
    ensures Apart(Geo(a)) && NoneHollow(Geo(a)) ==> KeepsMeta(a, out)
  {
    var b' := Normalize(b, join, n);
    out := DifferenceSorted(a, Geo(b'), join, n);
  }

  lemma SolidIsProper(g: seq<Box>, n: nat)
    requires OfDims(g, n)
    ensures Proper(Solid(g), n) && Proper(Maxima(Solid(g)), n)
  {
  }

  /** A point is in the difference exactly when it is in the first set and not in the second. */
  lemma DifferenceIsExact(A: set<Box>, B: set<Box>, out: seq<Box>, n: nat, x: Point)
    requires Proper(A, n) && Proper(B, n) && IsDifference(A, B, out, n)
    ensures InsideSome(out, x) <==> InSet(A, x) && !InSet(B, x)
  {
    var b :| Normalized(b, n) && Elements(b) == Maxima(B) && Elements(out) == MinusAll(Maxima(A), b);
    MinusAllIsExact(Maxima(A), b, n, x);
    MaximaKeepPoints(A, x);
    MaximaKeepPoints(B, x);
    InsideSomeIsInSet(out, x);
    InsideSomeIsInSet(b, x);
  }

  /** The difference depends only on the two sets of boxes. */
  lemma DifferenceIsUnique(A: set<Box>, B: set<Box>, out: seq<Box>, out': seq<Box>, n: nat)
    requires IsDifference(A, B, out, n) && IsDifference(A, B, out', n)
    ensures out == out'
  {
    var b :| Normalized(b, n) && Elements(b) == Maxima(B) && Elements(out) == MinusAll(Maxima(A), b);
    var b' :| Normalized(b', n) && Elements(b') == Maxima(B) && Elements(out') == MinusAll(Maxima(A), b');
    SortedIsUnique(b, b');
    SortedIsUnique(out, out');
  }

  // ----- disjointness on sets -----

  ghost predicate ApartSet(S: set<Box>) {
    forall b, c :: b in S && c in S && b != c ==> ApartPair(b, c)
  }

  ghost predicate ApartPair(b: Box, c: Box) {
    |b| == |c| && !Overlaps(b, c)
  }

  lemma CarveIsApart(S: set<Box>, q: Box, n: nat)
    requires Proper(S, n) && |q| == n && ApartSet(S)
    ensures ApartSet(Carve(S, q))
  {
    CarvedAreApart(S, q, Carve(S, q), n);
  }

  ghost predicate CarvedFrom(S: set<Box>, q: Box, x: Box) {
    exists p :: p in S && |p| == |q| && x in SubtractBox(p, q)
  }

  lemma CarvedAreApart(S: set<Box>, q: Box, C: set<Box>, n: nat)
    requires Proper(S, n) && |q| == n && ApartSet(S) && forall x :: x in C ==> CarvedFrom(S, q, x)
    ensures ApartSet(C)
  {
    forall x, y | x in C && y in C && x != y
      ensures ApartPair(x, y)
    {
      CarvedPairApart(S, q, n, x, y);
    }
  }

  lemma CarvedPairApart(S: set<Box>, q: Box, n: nat, x: Box, y: Box)
    requires Proper(S, n) && |q| == n && ApartSet(S) && CarvedFrom(S, q, x) && CarvedFrom(S, q, y) && x != y
    ensures ApartPair(x, y)
  {
    var p :| p in S && |p| == |q| && x in SubtractBox(p, q);
    var r :| r in S && |r| == |q| && y in SubtractBox(r, q);
    if p == r {
      SamePieceApart(p, q, x, y);
    } else {
      assert ApartPair(p, r);
      PiecesApart(p, r, q, x, y);
    }
  }

  lemma SamePieceApart(p: Box, q: Box, x: Box, y: Box)
    requires |p| == |q| && !Hollow(p) && x in SubtractBox(p, q) && y in SubtractBox(p, q) && x != y
    ensures |x| == |y| && !Overlaps(x, y)
  {
    SubtractBoxIsExact(p, q);
    var j :| 0 <= j < |SubtractBox(p, q)| && SubtractBox(p, q)[j] == x;
    var k :| 0 <= k < |SubtractBox(p, q)| && SubtractBox(p, q)[k] == y;
    OverlapsIsSymmetric(x, y);
  }

  /** The pieces left of disjoint boxes are disjoint. */
  lemma {:induction false} MinusAllIsApart(S: set<Box>, qs: seq<Box>, n: nat)
    requires Proper(S, n) && OfDims(qs, n) && ApartSet(S)
    ensures ApartSet(MinusAll(S, qs)) && Proper(MinusAll(S, qs), n)
  {
    if qs != [] {
      var rest, q := qs[..|qs| - 1], qs[|qs| - 1];
      assert q in qs && forall b :: b in rest ==> b in qs;
      MinusAllIsApart(S, rest, n);
      CarveIsApart(MinusAll(S, rest), q, n);
      CarveIsProper(MinusAll(S, rest), q, n);
    }
  }
}
