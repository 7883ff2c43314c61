/** demo/web/partition.go: a cover cut into disjoint cells, one axis at a time, by a worklist. */
module Partitioning {
  import opened Line
  import opened Breakpoints
  import opened Boxes
  import opened BoxSubtraction
  import opened BoxSets
  import opened BoxDifference

  function HalfOpen(lo: real, hi: real): Interval {
    Interval(lo, hi, Closed, Open)
  }

  predicate IsHalfOpen(b: Box) {
    forall k :: 0 <= k < |b| ==> b[k] == HalfOpen(b[k].start, b[k].end)
  }

  /** clip: the axis fixed to [lo, hi), and every face bound back to the default. */
  function Clip(b: Box, axis: nat, lo: real, hi: real): (c: Box)
    ensures |c| == |b| && IsHalfOpen(c)
    ensures forall k :: 0 <= k < |b| ==> c[k] == if k == axis then HalfOpen(lo, hi) else HalfOpen(b[k].start, b[k].end)
  {
    seq(|b|, k requires 0 <= k < |b| => if k == axis then HalfOpen(lo, hi) else HalfOpen(b[k].start, b[k].end))
  }

  predicate CoversSlab(b: Box, axis: nat, lo: real, hi: real)
    requires axis < |b|
  {
    if lo < b[axis].start || hi > b[axis].end then false
    else if lo == b[axis].start && b[axis].startBound.Open? then false
    else true
  }

  /** A box covers a slab exactly when its side holds every coordinate of it. */
  lemma CoversSlabIff(b: Box, axis: nat, lo: real, hi: real)
    requires axis < |b| && lo < hi
    ensures CoversSlab(b, axis, lo, hi) <==> forall x :: lo <= x < hi ==> Contains(b[axis], x)
  {
    if forall x :: lo <= x < hi ==> Contains(b[axis], x) {
      assert Contains(b[axis], lo);
      if hi > b[axis].end {
        var x := if b[axis].end < lo then lo else (b[axis].end + hi) / 2.0;
        assert Contains(b[axis], x);
      }
    }
  }

  // ----- what each step computes -----

  /** slabAt: the boxes covering the slab, each clipped to it. */
  ghost function SlabAt(boxes: seq<Box>, axis: nat, lo: real, hi: real): seq<Box>
    requires forall b :: b in boxes ==> axis < |b|
  {
    if boxes == [] then []
    else
      var rest, last := boxes[..|boxes| - 1], boxes[|boxes| - 1];
      assert boxes == rest + [last];
      SlabAt(rest, axis, lo, hi) + if CoversSlab(last, axis, lo, hi) then [Clip(last, axis, lo, hi)] else []
  }

  lemma {:induction false} SlabMembers(boxes: seq<Box>, axis: nat, lo: real, hi: real, c: Box)
    requires forall b :: b in boxes ==> axis < |b|
    ensures c in SlabAt(boxes, axis, lo, hi) <==>
      exists b :: b in boxes && CoversSlab(b, axis, lo, hi) && c == Clip(b, axis, lo, hi)
  {
    if boxes != [] {
      var rest, last := boxes[..|boxes| - 1], boxes[|boxes| - 1];
      assert boxes == rest + [last];
      SlabMembers(rest, axis, lo, hi, c);
    }
  }

  /** The face coordinates along one axis of the boxes with a point. */
  ghost function Faces(boxes: seq<Box>, axis: nat): seq<real>
    requires forall b :: b in boxes ==> axis < |b|
  {
    if boxes == [] then []
    else
      var rest, last := boxes[..|boxes| - 1], boxes[|boxes| - 1];
      assert boxes == rest + [last];
      Faces(rest, axis) + if Hollow(last) then [] else [last[axis].start, last[axis].end]
  }

  lemma {:induction false} HasFaces(boxes: seq<Box>, axis: nat, b: Box)
    requires (forall b :: b in boxes ==> axis < |b|) && b in boxes && !Hollow(b)
    ensures b[axis].start in Faces(boxes, axis) && b[axis].end in Faces(boxes, axis)
  {
    var rest, last := boxes[..|boxes| - 1], boxes[|boxes| - 1];
    assert boxes == rest + [last];
    if b in rest {
      HasFaces(rest, axis, b);
    } else {
      assert b == last;
    }
  }

  /** Some box with a point has a face at the coordinate. */
  ghost predicate IsFace(boxes: seq<Box>, axis: nat, x: real)
    requires forall b :: b in boxes ==> axis < |b|
  {
    exists b: Box :: b in boxes && !Hollow(b) && (x == b[axis].start || x == b[axis].end)
  }

  lemma {:induction false} FacesIff(boxes: seq<Box>, axis: nat, x: real)
    requires forall b :: b in boxes ==> axis < |b|
    ensures x in Faces(boxes, axis) <==> IsFace(boxes, axis, x)
  {
    if boxes != [] {
      var rest, last := boxes[..|boxes| - 1], boxes[|boxes| - 1];
      assert boxes == rest + [last];
      FacesIff(rest, axis, x);
    }
  }

  ghost function Coords(boxes: seq<Box>, axis: nat): seq<real>
    requires forall b :: b in boxes ==> axis < |b|
  {
    Unique(Faces(boxes, axis))
  }

  ghost function SlabCount(boxes: seq<Box>, axis: nat): nat
    requires forall b :: b in boxes ==> axis < |b|
  {
    if |Coords(boxes, axis)| == 0 then 0 else |Coords(boxes, axis)| - 1
  }

  ghost function Slab(boxes: seq<Box>, axis: nat, i: nat): seq<Box>
    requires (forall b :: b in boxes ==> axis < |b|) && i < SlabCount(boxes, axis)
  {
    SlabAt(boxes, axis, Coords(boxes, axis)[i], Coords(boxes, axis)[i + 1])
  }

  lemma SlabDims(boxes: seq<Box>, axis: nat, i: nat, dims: nat)
    requires OfDims(boxes, dims) && axis < dims && i < SlabCount(boxes, axis)
    ensures OfDims(Slab(boxes, axis, i), dims)
  {
    forall c | c in Slab(boxes, axis, i)
      ensures |c| == dims
    {
      SlabMembers(boxes, axis, Coords(boxes, axis)[i], Coords(boxes, axis)[i + 1], c);
    }
  }

  /** The cells of the first `i` slabs along an axis, in the order the worklist emits them. */
  ghost function CellsTo(boxes: seq<Box>, axis: nat, dims: nat, i: nat): seq<Box>
    requires OfDims(boxes, dims) && axis < dims && i <= SlabCount(boxes, axis)
    decreases dims - axis, i
  {
    if i == 0 then []
    else
      SlabDims(boxes, axis, i - 1, dims);
      var own, rest := SlabCells(Slab(boxes, axis, i - 1), axis, dims), CellsTo(boxes, axis, dims, i - 1);
      if axis == dims - 1 then rest + own else own + rest
  }

  /** The cells of one slab: a single one on the last axis, those of the remaining axes before it. */
  ghost function SlabCells(slab: seq<Box>, axis: nat, dims: nat): seq<Box>
    requires OfDims(slab, dims) && axis < dims
    decreases dims - axis, 0
  {
    if slab == [] then []
    else if axis == dims - 1 then [slab[0]]
    else Cells(slab, axis + 1, dims)
  }

  /** The cells of all slabs. */
  ghost function Cells(boxes: seq<Box>, axis: nat, dims: nat): seq<Box>
    requires OfDims(boxes, dims) && axis < dims
    decreases dims - axis, SlabCount(boxes, axis) + 1
  {
    CellsTo(boxes, axis, dims, SlabCount(boxes, axis))
  }

  lemma DeeperSlab(slab: seq<Box>, axis: nat, next: nat, dims: nat)
    requires OfDims(slab, dims) && next == axis + 1 < dims && slab != []
    ensures SlabCells(slab, axis, dims) == Cells(slab, next, dims)
  {
  }

  lemma OneMore(boxes: seq<Box>, axis: nat, dims: nat, h: nat, own: seq<Box>, rest: seq<Box>)
    requires OfDims(boxes, dims) && axis < dims && h < SlabCount(boxes, axis) && OfDims(Slab(boxes, axis, h), dims)
    requires own == SlabCells(Slab(boxes, axis, h), axis, dims) && rest == CellsTo(boxes, axis, dims, h)
    ensures CellsTo(boxes, axis, dims, h + 1) == if axis == dims - 1 then rest + own else own + rest
  {
  }

  /** The cells of the last slab, and those of the slabs before it. */
  lemma LastSlab(boxes: seq<Box>, axis: nat, dims: nat, i: nat) returns (h: nat, slab: seq<Box>, own: seq<Box>, rest: seq<Box>)
    requires OfDims(boxes, dims) && axis < dims && 0 < i <= SlabCount(boxes, axis)
    ensures i == h + 1 && slab == Slab(boxes, axis, h) && OfDims(slab, dims)
    ensures own == SlabCells(slab, axis, dims) && rest == CellsTo(boxes, axis, dims, h)
    ensures CellsTo(boxes, axis, dims, i) == if axis == dims - 1 then rest + own else own + rest
  {
    h := i - 1;
    SlabDims(boxes, axis, h, dims);
    slab := Slab(boxes, axis, h);
    own, rest := SlabCells(slab, axis, dims), CellsTo(boxes, axis, dims, h);
    OneMore(boxes, axis, dims, h, own, rest);
  }

  // ----- the cells cover exactly the slabs -----

  /** The box has the given sides on the first axes. */
  ghost predicate Pinned(c: Box, prefix: Box) {
    |prefix| <= |c| && forall k :: 0 <= k < |prefix| ==> c[k] == prefix[k]
  }

  /** Boxes of one dimension that, on the axes already swept, all have the given half-open sides. */
  ghost predicate Uniform(boxes: seq<Box>, prefix: Box, dims: nat): (r: bool)
    ensures r ==> OfDims(boxes, dims) && IsHalfOpen(prefix) && forall b :: b in boxes ==> Pinned(b, prefix)
  {
    assert (forall u :: u == boxes ==> UniformOn(u, prefix, dims)) ==> UniformOn(boxes, prefix, dims);
    forall u :: u == boxes ==> UniformOn(u, prefix, dims)
  }

  ghost predicate UniformOn(boxes: seq<Box>, prefix: Box, dims: nat) {
    OfDims(boxes, dims) && IsHalfOpen(prefix) && forall b :: b in boxes ==> Pinned(b, prefix)
  }

  lemma IsUniform(boxes: seq<Box>, prefix: Box, dims: nat)
    requires OfDims(boxes, dims) && IsHalfOpen(prefix) && forall b :: b in boxes ==> Pinned(b, prefix)
    ensures Uniform(boxes, prefix, dims)
  {
    assert UniformOn(boxes, prefix, dims);
  }

  lemma PinnedShallower(c: Box, deeper: Box, prefix: Box)
    requires Pinned(c, deeper) && Pinned(deeper, prefix)
    ensures Pinned(c, prefix)
  {
  }

  /** The sides of a slab. */
  ghost function Deeper(boxes: seq<Box>, prefix: Box, i: nat): (deeper: Box)
    requires (forall b :: b in boxes ==> |prefix| < |b|) && i < SlabCount(boxes, |prefix|)
    ensures |deeper| == |prefix| + 1 && Pinned(deeper, prefix)
  {
    prefix + [HalfOpen(Coords(boxes, |prefix|)[i], Coords(boxes, |prefix|)[i + 1])]
  }

  lemma SlabIsUniform(boxes: seq<Box>, prefix: Box, i: nat, dims: nat)
    requires Uniform(boxes, prefix, dims) && |prefix| < dims && i < SlabCount(boxes, |prefix|)
    ensures Uniform(Slab(boxes, |prefix|, i), Deeper(boxes, prefix, i), dims)
    ensures forall c :: c in Slab(boxes, |prefix|, i) ==> IsHalfOpen(c)
  {
    var slab, axis := Slab(boxes, |prefix|, i), |prefix|;
    var cs := Coords(boxes, axis);
    forall c | c in slab
      ensures Pinned(c, Deeper(boxes, prefix, i)) && IsHalfOpen(c)
    {
      SlabMembers(boxes, axis, cs[i], cs[i + 1], c);
      var b :| b in boxes && CoversSlab(b, axis, cs[i], cs[i + 1]) && c == Clip(b, axis, cs[i], cs[i + 1]);
      assert Pinned(b, prefix);
    }
    SlabDims(boxes, axis, i, dims);
    IsUniform(slab, Deeper(boxes, prefix, i), dims);
  }

  ghost predicate InSlab(boxes: seq<Box>, axis: nat, i: nat, x: Point)
    requires (forall b :: b in boxes ==> axis < |b|) && i < SlabCount(boxes, axis)
  {
    InsideSome(Slab(boxes, axis, i), x)
  }

  /** The point is in one of the first `i` slabs. */
  ghost predicate InSlabs(boxes: seq<Box>, axis: nat, i: nat, x: Point)
    requires (forall b :: b in boxes ==> axis < |b|) && i <= SlabCount(boxes, axis)
  {
    exists j: nat :: j < i && InSlab(boxes, axis, j, x)
  }

  lemma InOneMore(boxes: seq<Box>, axis: nat, i: nat, x: Point)
    requires (forall b :: b in boxes ==> axis < |b|) && i < SlabCount(boxes, axis)
    ensures InSlabs(boxes, axis, i + 1, x) <==> InSlabs(boxes, axis, i, x) || InSlab(boxes, axis, i, x)
  {
  }

  /** Half-open boxes lie in their slabs. */
  lemma HalfOpenFillSlabs(boxes: seq<Box>, axis: nat, dims: nat, x: Point)
    requires OfDims(boxes, dims) && axis < dims && forall b :: b in boxes ==> IsHalfOpen(b)
    ensures InsideSome(boxes, x) <==> InSlabs(boxes, axis, SlabCount(boxes, axis), x)
  {
    if InsideSome(boxes, x) {
      var k :| 0 <= k < |boxes| && Inside(boxes[k], x);
      assert boxes[k] in boxes;
      var i := SlabOf(boxes, axis, dims, boxes[k], x);
    }
    if InSlabs(boxes, axis, SlabCount(boxes, axis), x) {
      var i: nat :| i < SlabCount(boxes, axis) && InSlab(boxes, axis, i, x);
      var b := SlabFrom(boxes, axis, dims, i, x);
      assert IsHalfOpen(b);
      assert Halved(b) == b;
      var k :| 0 <= k < |boxes| && boxes[k] == b;
      assert Inside(boxes[k], x);
    }
  }

  /** The box with every face bound set to the default. */
  ghost function Halved(b: Box): (h: Box)
    ensures |h| == |b| && forall k :: 0 <= k < |b| ==> h[k] == HalfOpen(b[k].start, b[k].end)
  {
    seq(|b|, k requires 0 <= k < |b| => HalfOpen(b[k].start, b[k].end))
  }

  /** The point lies past the open face of the box on the axis by at least one coordinate of the boxes. */
  ghost predicate PastOpenFace(boxes: seq<Box>, b: Box, axis: nat, x: Point)
    requires (forall b :: b in boxes ==> axis < |b|) && axis < |b| && axis < |x|
  {
    b[axis].startBound.Open? ==> exists c :: c in Coords(boxes, axis) && b[axis].start < c <= x[axis]
  }

  lemma HalvedIsNotHollow(b: Box, x: Point)
    requires Inside(Halved(b), x)
    ensures !Hollow(b)
  {
    forall k | 0 <= k < |b|
      ensures !Empty(b[k])
    {
      assert Contains(Halved(b)[k], x[k]);
    }
  }

  /** The slab that holds a point of a box. */
  lemma SlabOf(boxes: seq<Box>, axis: nat, dims: nat, b: Box, x: Point) returns (i: nat)
    requires OfDims(boxes, dims) && axis < dims && b in boxes && Inside(Halved(b), x) && PastOpenFace(boxes, b, axis, x)
    ensures i < SlabCount(boxes, axis) && InSlab(boxes, axis, i, x)
  {
    HalvedIsNotHollow(b, x);
    assert Contains(Halved(b)[axis], x[axis]);
    var faces := Faces(boxes, axis);
    UniqueRises(faces);
    var cs := Coords(boxes, axis);
    var lo, hi := b[axis].start, b[axis].end;
    HasFaces(boxes, axis, b);
    assert lo in cs && hi in cs;
    var p :| 0 <= p < |cs| && cs[p] == lo;
    var q :| 0 <= q < |cs| && cs[q] == hi;
    i := Bracket(cs, x[axis], p, q);
    BracketBounds(cs, x[axis], i, lo);
    BracketBounds(cs, x[axis], i, hi);
    if b[axis].startBound.Open? {
      var c :| c in cs && lo < c <= x[axis];
      BracketBounds(cs, x[axis], i, c);
    }
    InClip(boxes, axis, cs[i], cs[i + 1], b, x);
  }

  lemma InClip(boxes: seq<Box>, axis: nat, lo: real, hi: real, b: Box, x: Point)
    requires (forall c :: c in boxes ==> axis < |c|) && b in boxes && CoversSlab(b, axis, lo, hi)
    requires Inside(Halved(b), x) && lo <= x[axis] < hi
    ensures InsideSome(SlabAt(boxes, axis, lo, hi), x)
  {
    var c := Clip(b, axis, lo, hi);
    forall k | 0 <= k < |c|
      ensures Contains(c[k], x[k])
    {
      assert Contains(Halved(b)[k], x[k]);
    }
    var slab := SlabAt(boxes, axis, lo, hi);
    SlabMembers(boxes, axis, lo, hi, c);
    assert c in slab;
    var k :| 0 <= k < |slab| && slab[k] == c;
  }

  /** A box a slab's point comes from. */
  lemma SlabFrom(boxes: seq<Box>, axis: nat, dims: nat, i: nat, x: Point) returns (b: Box)
    requires OfDims(boxes, dims) && axis < dims && i < SlabCount(boxes, axis) && InSlab(boxes, axis, i, x)
    ensures b in boxes && Inside(Halved(b), x) && PastOpenFace(boxes, b, axis, x)
  {
    var slab, cs := Slab(boxes, axis, i), Coords(boxes, axis);
    var k :| 0 <= k < |slab| && Inside(slab[k], x);
    assert slab[k] in slab;
    SlabMembers(boxes, axis, cs[i], cs[i + 1], slab[k]);
    b :| b in boxes && CoversSlab(b, axis, cs[i], cs[i + 1]) && slab[k] == Clip(b, axis, cs[i], cs[i + 1]);
    forall m | 0 <= m < |b|
      ensures Contains(Halved(b)[m], x[m])
    {
      assert Contains(slab[k][m], x[m]);
    }
    assert Contains(slab[k][axis], x[axis]);
    assert cs[i] in cs;
  }

  /** The cells of the first slabs cover exactly those slabs. */
  lemma {:induction false} CellsCoverSlabs(boxes: seq<Box>, prefix: Box, dims: nat, i: nat, x: Point)
    requires Uniform(boxes, prefix, dims) && |prefix| < dims && i <= SlabCount(boxes, |prefix|)
    ensures InsideSome(CellsTo(boxes, |prefix|, dims, i), x) <==> InSlabs(boxes, |prefix|, i, x)
    decreases dims - |prefix|, i
  {
    if i > 0 {
      var h, slab, own, rest := LastSlab(boxes, |prefix|, dims, i);
      CellsCoverSlabs(boxes, prefix, dims, h, x);
      SlabIsUniform(boxes, prefix, h, dims);
      SlabCellsCover(slab, Deeper(boxes, prefix, h), dims, x);
      InsideConcat(own, rest, x);
      InsideConcat(rest, own, x);
      InOneMore(boxes, |prefix|, h, x);
    }
  }

  lemma {:induction false} SlabCellsCover(slab: seq<Box>, prefix: Box, dims: nat, x: Point)
    requires Uniform(slab, prefix, dims) && 0 < |prefix| <= dims && forall c :: c in slab ==> IsHalfOpen(c)
    ensures InsideSome(SlabCells(slab, |prefix| - 1, dims), x) <==> InsideSome(slab, x)
    decreases dims - |prefix| + 1, 0
  {
    if slab != [] {
      if |prefix| == dims {
        OneCell(slab, prefix, x);
      } else {
        DeeperSlab(slab, |prefix| - 1, |prefix|, dims);
        CellsCoverSlabs(slab, prefix, dims, SlabCount(slab, |prefix|), x);
        HalfOpenFillSlabs(slab, |prefix|, dims, x);
      }
    }
  }

  /** Boxes that agree on every axis are one cell. */
  lemma OneCell(slab: seq<Box>, prefix: Box, x: Point)
    requires slab != [] && Uniform(slab, prefix, |prefix|)
    ensures InsideSome([slab[0]], x) <==> InsideSome(slab, x)
  {
    assert [slab[0]][0] == slab[0];
    forall k | 0 <= k < |slab|
      ensures slab[k] == prefix
    {
      assert slab[k] in slab && Pinned(slab[k], prefix);
    }
  }

  // ----- the cells are disjoint -----

  /** Every cell lies in one of the slabs, on the axes swept before as well. */
  lemma {:induction false} CellsArePinned(boxes: seq<Box>, prefix: Box, dims: nat, i: nat, c: Box) returns (j: nat)
    requires Uniform(boxes, prefix, dims) && |prefix| < dims && i <= SlabCount(boxes, |prefix|)
    requires c in CellsTo(boxes, |prefix|, dims, i)
    ensures |c| == dims && j < i && Pinned(c, Deeper(boxes, prefix, j))
    decreases dims - |prefix|, i
  {
    var h, slab, own, rest := LastSlab(boxes, |prefix|, dims, i);
    if c in rest {
      j := CellsArePinned(boxes, prefix, dims, h, c);
    } else {
      j := h;
      SlabIsUniform(boxes, prefix, h, dims);
      SlabCellsArePinned(slab, Deeper(boxes, prefix, h), dims, c);
    }
  }

  lemma {:induction false} SlabCellsArePinned(slab: seq<Box>, prefix: Box, dims: nat, c: Box)
    requires Uniform(slab, prefix, dims) && 0 < |prefix| <= dims && c in SlabCells(slab, |prefix| - 1, dims)
    ensures |c| == dims && Pinned(c, prefix)
    decreases dims - |prefix| + 1, 0
  {
    if |prefix| == dims {
      assert slab[0] in slab;
    } else {
      DeeperSlab(slab, |prefix| - 1, |prefix|, dims);
      var j := CellsArePinned(slab, prefix, dims, SlabCount(slab, |prefix|), c);
      PinnedShallower(c, Deeper(slab, prefix, j), prefix);
    }
  }

  lemma {:induction false} CellsAreApart(boxes: seq<Box>, prefix: Box, dims: nat, i: nat)
    requires Uniform(boxes, prefix, dims) && |prefix| < dims && i <= SlabCount(boxes, |prefix|)
    ensures Apart(CellsTo(boxes, |prefix|, dims, i))
    decreases dims - |prefix|, i
  {
    if i > 0 {
      var h, slab, own, rest := LastSlab(boxes, |prefix|, dims, i);
      CellsAreApart(boxes, prefix, dims, h);
      SlabIsUniform(boxes, prefix, h, dims);
      SlabCellsAreApart(slab, Deeper(boxes, prefix, h), dims);
      SlabsAreSeparate(boxes, prefix, dims, h, own, rest);
      ApartJoin(rest, own);
    }
  }

  lemma SlabsAreSeparate(boxes: seq<Box>, prefix: Box, dims: nat, i: nat, own: seq<Box>, rest: seq<Box>)
    requires Uniform(boxes, prefix, dims) && |prefix| < dims && i < SlabCount(boxes, |prefix|)
    requires Uniform(Slab(boxes, |prefix|, i), Deeper(boxes, prefix, i), dims)
    requires own == SlabCells(Slab(boxes, |prefix|, i), |prefix|, dims) && rest == CellsTo(boxes, |prefix|, dims, i)
    ensures Separate(rest, own)
  {
    forall c, d | c in rest && d in own
      ensures ApartPair(c, d)
    {
      NextSlabIsApart(boxes, prefix, dims, i, c, d);
    }
  }

  /** No box of one list shares a point with one of the other. */
  ghost predicate Separate(s: seq<Box>, t: seq<Box>) {
    forall c, d :: c in s && d in t ==> ApartPair(c, d)
  }

  lemma {:induction false} SlabCellsAreApart(slab: seq<Box>, prefix: Box, dims: nat)
    requires Uniform(slab, prefix, dims) && 0 < |prefix| <= dims
    ensures Apart(SlabCells(slab, |prefix| - 1, dims))
    decreases dims - |prefix| + 1, 0
  {
    if slab != [] && |prefix| < dims {
      DeeperSlab(slab, |prefix| - 1, |prefix|, dims);
      CellsAreApart(slab, prefix, dims, SlabCount(slab, |prefix|));
    }
  }

  lemma NextSlabIsApart(boxes: seq<Box>, prefix: Box, dims: nat, i: nat, c: Box, d: Box)
    requires Uniform(boxes, prefix, dims) && |prefix| < dims && i < SlabCount(boxes, |prefix|)
    requires Uniform(Slab(boxes, |prefix|, i), Deeper(boxes, prefix, i), dims)
    requires c in CellsTo(boxes, |prefix|, dims, i) && d in SlabCells(Slab(boxes, |prefix|, i), |prefix|, dims)
    ensures |c| == |d| && !Overlaps(c, d)
  {
    SlabCellsArePinned(Slab(boxes, |prefix|, i), Deeper(boxes, prefix, i), dims, d);
    EarlierSlabIsApart(boxes, prefix, dims, i, c, d);
  }

  lemma ApartJoin(s: seq<Box>, t: seq<Box>)
    requires Apart(s) && Apart(t) && Separate(s, t)
    ensures Apart(s + t) && Apart(t + s)
  {
    forall c, d | c in s && d in t
      ensures |c| == |d| && !Overlaps(c, d) && !Overlaps(d, c)
    {
      assert ApartPair(c, d);
      OverlapsIsSymmetric(c, d);
    }
  }

  /** A cell of an earlier slab shares no point with one of a later slab. */
  lemma EarlierSlabIsApart(boxes: seq<Box>, prefix: Box, dims: nat, i: nat, c: Box, d: Box)
    requires Uniform(boxes, prefix, dims) && |prefix| < dims && i < SlabCount(boxes, |prefix|)
    requires c in CellsTo(boxes, |prefix|, dims, i) && |d| == dims && Pinned(d, Deeper(boxes, prefix, i))
    ensures |c| == dims && !Overlaps(c, d)
  {
    var axis, cs := |prefix|, Coords(boxes, |prefix|);
    var j := CellsArePinned(boxes, prefix, dims, i, c);
    UniqueRises(Faces(boxes, axis));
    assert cs[j + 1] <= cs[i];
    assert c[axis] == Deeper(boxes, prefix, j)[axis] && d[axis] == Deeper(boxes, prefix, i)[axis];
    assert !SpanOverlap(c[axis], d[axis]);
  }

  // ----- the main results -----

  /** Whether a point ends up covered, for boxes with any face bounds. */
  ghost predicate Kept(boxes: seq<Box>, x: Point)
    requires forall b :: b in boxes ==> 0 < |b|
  {
    exists b :: b in boxes && Inside(Halved(b), x) && PastOpenFace(boxes, b, 0, x)
  }

  /** The cells cover exactly the kept points, whatever the bounds of the boxes. */
  lemma CellsCoverKept(boxes: seq<Box>, dims: nat, x: Point)
    requires OfDims(boxes, dims) && dims > 0
    ensures InsideSome(Cells(boxes, 0, dims), x) <==> Kept(boxes, x)
  {
    IsUniform(boxes, [], dims);
    CellsCoverSlabs(boxes, [], dims, SlabCount(boxes, 0), x);
    if InsideSome(Cells(boxes, 0, dims), x) {
      var i: nat :| i < SlabCount(boxes, 0) && InSlab(boxes, 0, i, x);
      var b := SlabFrom(boxes, 0, dims, i, x);
    }
    if Kept(boxes, x) {
      var b :| b in boxes && Inside(Halved(b), x) && PastOpenFace(boxes, b, 0, x);
      var i := SlabOf(boxes, 0, dims, b, x);
    }
  }

  /** Half-open boxes are partitioned: disjoint cells with exactly the points of the boxes. */
  lemma HalfOpenArePartitioned(boxes: seq<Box>, dims: nat)
    requires OfDims(boxes, dims) && dims > 0 && forall b :: b in boxes ==> IsHalfOpen(b)
    ensures Apart(Cells(boxes, 0, dims))
    ensures forall x :: InsideSome(Cells(boxes, 0, dims), x) <==> InsideSome(boxes, x)
  {
    IsUniform(boxes, [], dims);
    CellsAreApart(boxes, [], dims, SlabCount(boxes, 0));
    forall x
      ensures InsideSome(Cells(boxes, 0, dims), x) <==> InsideSome(boxes, x)
    {
      CellsCoverSlabs(boxes, [], dims, SlabCount(boxes, 0), x);
      HalfOpenFillSlabs(boxes, 0, dims, x);
    }
  }

  /** A closed upper face is lost, so a cover with one is not preserved. */
  lemma ClosedFaceIsLost(lo: real, hi: real)
    requires lo < hi
    ensures var boxes := [[Interval(lo, hi, Closed, Closed)]];
      InsideSome(boxes, [hi]) && !InsideSome(Cells(boxes, 0, 1), [hi])
  {
    var boxes := [[Interval(lo, hi, Closed, Closed)]];
    assert Inside(boxes[0], [hi]);
    CellsCoverKept(boxes, 1, [hi]);
    forall b | b in boxes
      ensures !Inside(Halved(b), [hi])
    {
      assert !Contains(Halved(b)[0], [hi][0]);
    }
  }

  // ----- one box -----

  /** The cells of the boxes cover exactly the points of the boxes. */
  ghost predicate KeepsUnion(boxes: seq<Box>, dims: nat)
    requires OfDims(boxes, dims) && dims > 0
  {
    forall x :: InsideSome(Cells(boxes, 0, dims), x) <==> InsideSome(boxes, x)
  }

  /** What is kept of a single box. */
  lemma KeptOfOne(b: Box, x: Point)
    requires |b| > 0
    ensures Kept([b], x) <==> Inside(Halved(b), x) && b[0].startBound.Closed?
    ensures InsideSome([b], x) <==> Inside(b, x)
  {
    var cs := Coords([b], 0);
    UniqueRises(Faces([b], 0));
    assert [b][..0] == [] && Faces([], 0) == [];
    assert b in [b];
    assert InsideSome([b], x) <==> Inside(b, x) by {
      if Inside(b, x) { assert Inside([b][0], x); }
    }
    if Inside(Halved(b), x) {
      HalvedIsNotHollow(b, x);
      assert Contains(Halved(b)[0], x[0]);
    }
  }

  /** The cells of one box with a point cover exactly the box if and only if the box is half-open. */
  lemma OneBoxIsKeptIff(b: Box, dims: nat)
    requires |b| == dims > 0 && !Hollow(b)
    ensures KeepsUnion([b], dims) <==> IsHalfOpen(b)
  {
    assert forall c :: c in [b] ==> c == b;
    if IsHalfOpen(b) {
      HalfOpenArePartitioned([b], dims);
    } else {
      var x := ChangedPoint(b);
      CellsCoverKept([b], dims, x);
      KeptOfOne(b, x);
    }
  }

  /** A point that a box with other bounds gains or loses. */
  lemma ChangedPoint(b: Box) returns (x: Point)
    requires |b| > 0 && !Hollow(b) && !IsHalfOpen(b)
    ensures Inside(b, x) != (Inside(Halved(b), x) && b[0].startBound.Closed?)
  {
    x := SomePoint(b);
    if k :| 0 <= k < |b| && b[k].endBound.Closed? {
      assert Contains(b[k], x[k]) && !Empty(b[k]);
      x := x[k := b[k].end];
      assert !Contains(Halved(b)[k], x[k]);
    } else if b[0].startBound.Closed? {
      var k :| 0 <= k < |b| && b[k].startBound.Open?;
      x := GainedPoint(b, x, k);
    }
  }

  lemma GainedPoint(b: Box, p: Point, k: nat) returns (x: Point)
    requires k < |b| && Inside(b, p) && b[k].startBound.Open? && forall i :: 0 <= i < |b| ==> b[i].endBound.Open?
    ensures Inside(Halved(b), x) && !Inside(b, x)
  {
    x := p[k := b[k].start];
    assert Contains(b[k], p[k]);
    forall i | 0 <= i < |b|
      ensures Contains(Halved(b)[i], x[i])
    {
      assert Contains(b[i], p[i]);
    }
    assert !Contains(b[k], x[k]);
  }

  /** A box whose lower face on the first axis is open is lost as a whole. */
  lemma OpenFirstFaceLosesAll(b: Box, dims: nat, x: Point)
    requires |b| == dims > 0 && b[0].startBound.Open?
    ensures !InsideSome(Cells([b], 0, dims), x)
  {
    assert forall c :: c in [b] ==> c == b;
    CellsCoverKept([b], dims, x);
    KeptOfOne(b, x);
  }

  /** An open lower face on a later axis is gained. */
  lemma OpenLaterFaceIsGained(lo: real, hi: real)
    requires lo < hi
    ensures var b := [HalfOpen(lo, hi), Interval(lo, hi, Open, Open)];
      InsideSome(Cells([b], 0, 2), [lo, lo]) && !InsideSome([b], [lo, lo])
  {
    var b := [HalfOpen(lo, hi), Interval(lo, hi, Open, Open)];
    CellsCoverKept([b], 2, [lo, lo]);
    KeptOfOne(b, [lo, lo]);
    assert !Contains(b[1], [lo, lo][1]);
    assert Contains(Halved(b)[0], [lo, lo][0]) && Contains(Halved(b)[1], [lo, lo][1]);
  }
}
