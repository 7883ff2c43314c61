/** space/path.go: straight paths through a cover, over real arithmetic. */
module Paths {
  import opened Line
  import opened Runs
  import opened Sequences
  import opened Breakpoints
  import opened Boxes
  import opened Covers
  import opened BoxSets

  datatype Path = Path(from: Point, to: Point)

  /** A half-open interval of the path's parameter. */
  datatype Span = Span(start: real, end: real)

  /** P(t): the position along the path at parameter `t`. */
  function PointAt(p: Path, t: real): (pt: Point)
    requires |p.from| == |p.to|
    ensures |pt| == |p.from| && forall i :: 0 <= i < |pt| ==> pt[i] == p.from[i] + t * (p.to[i] - p.from[i])
  {
    seq(|p.from|, i requires 0 <= i < |p.from| => p.from[i] + t * (p.to[i] - p.from[i]))
  }

  /** The path runs from its first point to its last. */
  lemma PathEnds(p: Path)
    requires |p.from| == |p.to|
    ensures PointAt(p, 0.0) == p.from && PointAt(p, 1.0) == p.to
  {
  }

  // ----- one axis -----

  /** entryExit: when the coordinate is inside the side of the box; None when it is constant and outside. */
  function EntryExit(from: real, to: real, side: Interval): Option<Span> {
    var d := to - from;
    if d == 0.0 then (if Contains(side, from) then Some(Span(0.0, 1.0)) else None)
    else if d > 0.0 then Some(Span((side.start - from) / d, (side.end - from) / d))
    else Some(Span((side.end - from) / d, (side.start - from) / d))
  }

  lemma Quotient(v: real, d: real, t: real)
    requires d != 0.0
    ensures d > 0.0 ==> (t > v / d <==> t * d > v) && (t < v / d <==> t * d < v)
    ensures d < 0.0 ==> (t > v / d <==> t * d < v) && (t < v / d <==> t * d > v)
  {
    var q := v / d;
    assert q * d == v;
    Scales(t, q, d);
    Scales(q, t, d);
  }

  lemma Scales(a: real, b: real, d: real)
    ensures d > 0.0 ==> (a > b <==> a * d > b * d)
    ensures d < 0.0 ==> (a > b <==> a * d < b * d)
  {
    assert a * d - b * d == (a - b) * d;
  }

  /** Strictly between entry and exit the coordinate is inside; outside of them it is not. */
  lemma EntryExitIsExact(from: real, to: real, side: Interval, t: real)
    requires 0.0 <= t <= 1.0
    ensures var r, x := EntryExit(from, to, side), from + t * (to - from);
      && (r.None? ==> !Contains(side, x))
      && (r.Some? && r.value.start < t < r.value.end ==> Contains(side, x))
      && (r.Some? && Contains(side, x) ==> r.value.start <= t <= r.value.end)
  {
    var d := to - from;
    if d != 0.0 {
      Quotient(side.start - from, d, t);
      Quotient(side.end - from, d, t);
    }
  }

  // ----- all axes -----

  /**
   * The span of a box: strictly inside it the path is in the box, outside of it never. Without a span
   * the path is in the box for at most one parameter.
   */
  ghost predicate IsSpan(p: Path, b: Box, r: Option<Span>)
    requires |p.from| == |p.to|
  {
    match r
    case Some(s) =>
      && 0.0 <= s.start < s.end <= 1.0
      && (forall t :: s.start < t < s.end ==> Inside(b, PointAt(p, t)))
      && (forall t :: 0.0 <= t <= 1.0 && Inside(b, PointAt(p, t)) ==> s.start <= t <= s.end)
    case None =>
      forall t, u :: 0.0 <= t <= 1.0 && 0.0 <= u <= 1.0 && Inside(b, PointAt(p, t)) && Inside(b, PointAt(p, u)) ==> t == u
  }

  /** The path is inside the box on the first `i` axes. */
  predicate InsideTo(p: Path, b: Box, i: nat, t: real)
    requires |b| == |p.from| == |p.to| && i <= |b|
  {
    forall k :: 0 <= k < i ==> Contains(b[k], PointAt(p, t)[k])
  }

  ghost predicate Bounds(p: Path, b: Box, i: nat, start: real, end: real)
    requires |b| == |p.from| == |p.to| && i <= |b|
  {
    && (forall t :: start < t < end ==> InsideTo(p, b, i, t))
    && (forall t :: 0.0 <= t <= 1.0 && InsideTo(p, b, i, t) ==> start <= t <= end)
  }

  lemma BoundsMore(p: Path, b: Box, i: nat, start: real, end: real, s: Span, start': real, end': real)
    requires |b| == |p.from| == |p.to| && i < |b| && 0.0 <= start && end <= 1.0 && Bounds(p, b, i, start, end)
    requires EntryExit(p.from[i], p.to[i], b[i]) == Some(s)
    requires start' == if s.start > start then s.start else start
    requires end' == if s.end < end then s.end else end
    ensures Bounds(p, b, i + 1, start', end')
  {
    var next := i + 1;
    forall t | start' < t < end'
      ensures InsideTo(p, b, next, t)
    {
      assert InsideTo(p, b, i, t);
      OneMoreAxis(p, b, i, s, t);
    }
    forall t | 0.0 <= t <= 1.0 && InsideTo(p, b, next, t)
      ensures start' <= t <= end'
    {
      OneMoreAxis(p, b, i, s, t);
    }
  }

  lemma OneMoreAxis(p: Path, b: Box, i: nat, s: Span, t: real)
    requires |b| == |p.from| == |p.to| && i < |b| && 0.0 <= t <= 1.0
    requires EntryExit(p.from[i], p.to[i], b[i]) == Some(s)
    ensures InsideTo(p, b, i, t) && s.start < t < s.end ==> InsideTo(p, b, i + 1, t)
    ensures InsideTo(p, b, i + 1, t) ==> InsideTo(p, b, i, t) && s.start <= t <= s.end
  {
    EntryExitIsExact(p.from[i], p.to[i], b[i], t);
    assert PointAt(p, t)[i] == p.from[i] + t * (p.to[i] - p.from[i]);
  }

  lemma OutsideOnAxis(p: Path, b: Box, i: nat)
    requires |b| == |p.from| == |p.to| && i < |b| && EntryExit(p.from[i], p.to[i], b[i]).None?
    ensures IsSpan(p, b, None)
  {
    forall t | 0.0 <= t <= 1.0
      ensures !Inside(b, PointAt(p, t))
    {
      EntryExitIsExact(p.from[i], p.to[i], b[i], t);
      assert !Contains(b[i], PointAt(p, t)[i]);
    }
  }

  lemma BoundsAreSpan(p: Path, b: Box, start: real, end: real)
    requires |b| == |p.from| == |p.to| && 0.0 <= start && end <= 1.0 && Bounds(p, b, |b|, start, end)
    ensures IsSpan(p, b, if start >= end then None else Some(Span(start, end)))
  {
    forall t
      ensures InsideTo(p, b, |b|, t) <==> Inside(b, PointAt(p, t))
    {
    }
  }

  method SpanOf(p: Path, b: Box) returns (r: Option<Span>)
    requires |p.from| == |p.to|
    ensures IsSpan(p, b, r)
  {
    if |b| != |p.from| { return None; }
    var start, end := 0.0, 1.0;
    for i := 0 to |b|
      invariant 0.0 <= start && end <= 1.0 && Bounds(p, b, i, start, end)
    {
      var axis := EntryExit(p.from[i], p.to[i], b[i]);
      if axis.None? {
        OutsideOnAxis(p, b, i);
        return None;
      }
      ghost var start', end' := start, end;
      if axis.value.start > start { start := axis.value.start; }
      if axis.value.end < end { end := axis.value.end; }
      BoundsMore(p, b, i, start', end', axis.value, start, end);
    }
    BoundsAreSpan(p, b, start, end);
    if start >= end { return None; }
    return Some(Span(start, end));
  }

  // ----- Traverse -----

  datatype Crossing = Crossing(box: Box, span: Span)

  datatype PathSegment = PathSegment(start: real, end: real, covered: bool, boxes: seq<Box>)

  /** The boxes with a span, each with its span, in order. */
  ghost predicate AreCrossings(p: Path, boxes: seq<Box>, cs: seq<Crossing>)
    requires |p.from| == |p.to|
  {
    && (forall k :: 0 <= k < |cs| ==> cs[k].box in boxes && IsSpan(p, cs[k].box, Some(cs[k].span)))
    && (forall b :: b in boxes ==> HasCrossing(cs, b) || IsSpan(p, b, None))
    && (forall j, k :: 0 <= j < k < |cs| ==> Less(cs[j].box, cs[k].box))
  }

  ghost predicate HasCrossing(cs: seq<Crossing>, b: Box) {
    exists k :: 0 <= k < |cs| && cs[k].box == b
  }

  method CollectCrossings(boxes: seq<Box>, p: Path) returns (cs: seq<Crossing>)
    requires |p.from| == |p.to| && Sorted(boxes)
    ensures AreCrossings(p, boxes, cs)
  {
    cs := [];
    for i := 0 to |boxes|
      invariant AreCrossings(p, boxes[..i], cs)
    {
      var s := SpanOf(p, boxes[i]);
      CrossingsMore(p, boxes, i, cs, s);
      if s.Some? { cs := cs + [Crossing(boxes[i], s.value)]; }
    }
    assert boxes[..|boxes|] == boxes;
  }

  lemma CrossingsMore(p: Path, boxes: seq<Box>, i: nat, cs: seq<Crossing>, s: Option<Span>)
    requires |p.from| == |p.to| && Sorted(boxes) && i < |boxes| && AreCrossings(p, boxes[..i], cs) && IsSpan(p, boxes[i], s)
    ensures AreCrossings(p, boxes[..i + 1], if s.Some? then cs + [Crossing(boxes[i], s.value)] else cs)
  {
    var more := if s.Some? then cs + [Crossing(boxes[i], s.value)] else cs;
    assert boxes[..i + 1] == boxes[..i] + [boxes[i]];
    forall b | b in boxes[..i + 1]
      ensures HasCrossing(more, b) || IsSpan(p, b, None)
    {
      StillCrossed(cs, more, b);
      if b == boxes[i] && s.Some? { assert more[|cs|].box == b; }
    }
    CrossedBefore(boxes, i, cs);
  }

  lemma StillCrossed(cs: seq<Crossing>, more: seq<Crossing>, b: Box)
    requires cs <= more
    ensures HasCrossing(cs, b) ==> HasCrossing(more, b)
  {
    if HasCrossing(cs, b) {
      var k :| 0 <= k < |cs| && cs[k].box == b;
      assert more[k].box == b;
    }
  }

  lemma CrossedBefore(boxes: seq<Box>, i: nat, cs: seq<Crossing>)
    requires Sorted(boxes) && i < |boxes| && forall k :: 0 <= k < |cs| ==> cs[k].box in boxes[..i]
    ensures forall k :: 0 <= k < |cs| ==> Less(cs[k].box, boxes[i])
  {
    forall k | 0 <= k < |cs|
      ensures Less(cs[k].box, boxes[i])
    {
      var j :| 0 <= j < i && boxes[..i][j] == cs[k].box;
    }
  }

  /** An end of some span. */
  ghost predicate IsEnd(cs: seq<Crossing>, t: real) {
    exists k :: 0 <= k < |cs| && (cs[k].span.start == t || cs[k].span.end == t)
  }

  /** Every end of a span, and 0 and 1, in increasing order. */
  ghost predicate AreBreakpoints(cs: seq<Crossing>, bp: seq<real>) {
    Rising(bp) && forall t :: t in bp <==> t == 0.0 || t == 1.0 || IsEnd(cs, t)
  }

  method UniqueBreakpoints(cs: seq<Crossing>) returns (bp: seq<real>)
    ensures AreBreakpoints(cs, bp)
  {
    var list := [0.0, 1.0];
    for i := 0 to |cs|
      invariant forall t :: t in list <==> t == 0.0 || t == 1.0 || IsEnd(cs[..i], t)
    {
      EndsMore(cs, i);
      list := list + [cs[i].span.start, cs[i].span.end];
    }
    assert cs[..|cs|] == cs;
    bp := SortUnique(list);
    UniqueRises(list);
  }

  lemma EndsMore(cs: seq<Crossing>, i: nat)
    requires i < |cs|
    ensures forall t :: IsEnd(cs[..i + 1], t) <==> IsEnd(cs[..i], t) || t == cs[i].span.start || t == cs[i].span.end
  {
    forall t
      ensures IsEnd(cs[..i + 1], t) <==> IsEnd(cs[..i], t) || t == cs[i].span.start || t == cs[i].span.end
    {
      if IsEnd(cs[..i], t) {
        var k :| 0 <= k < i && (cs[..i][k].span.start == t || cs[..i][k].span.end == t);
        assert cs[..i + 1][k] == cs[..i][k];
      }
      assert cs[..i + 1][i] == cs[i];
      if IsEnd(cs[..i + 1], t) {
        var k :| 0 <= k < i + 1 && (cs[..i + 1][k].span.start == t || cs[..i + 1][k].span.end == t);
        if k < i { assert cs[..i][k] == cs[..i + 1][k]; }
      }
    }
  }

  predicate Spanning(c: Crossing, start: real, end: real) {
    c.span.start <= start && c.span.end >= end
  }

  ghost predicate IsCovering(cs: seq<Crossing>, start: real, end: real, out: seq<Box>) {
    Sorted(out) && forall b :: b in out <==> exists k :: 0 <= k < |cs| && Spanning(cs[k], start, end) && cs[k].box == b
  }

  /** boxesCovering: the boxes whose span contains the whole sub-interval, in canonical order. */
  method BoxesCovering(cs: seq<Crossing>, start: real, end: real) returns (out: seq<Box>)
    requires forall j, k :: 0 <= j < k < |cs| ==> Less(cs[j].box, cs[k].box)
    ensures IsCovering(cs, start, end, out)
  {
    var list: seq<Box> := [];
    for i := 0 to |cs|
      invariant Sorted(list)
      invariant forall b :: b in list <==> exists k :: 0 <= k < i && Spanning(cs[k], start, end) && cs[k].box == b
    {
      if Spanning(cs[i], start, end) {
        forall j | 0 <= j < |list|
          ensures Less(list[j], cs[i].box)
        {
          assert list[j] in list;
        }
        list := list + [cs[i].box];
      }
    }
    out := SortAgain(list);
  }

  /** Sorting a sorted list gives it back. */
  method SortAgain(list: seq<Box>) returns (out: seq<Box>)
    requires Sorted(list)
    ensures out == list
  {
    forall x, y, z | x in list && y in list && z in list
      ensures Less(x, y) ==> !Less(y, x)
      ensures !Less(y, x) && !Less(z, y) ==> !Less(z, x)
    {
      LessOrders(list, x, y, z);
    }
    out := Sort(list, Less);
    StillSorted(list, out);
  }

  lemma LessOrders(list: seq<Box>, x: Box, y: Box, z: Box)
    requires Sorted(list) && x in list && y in list && z in list
    ensures Less(x, y) ==> !Less(y, x)
    ensures !Less(y, x) && !Less(z, y) ==> !Less(z, x)
  {
    var i :| 0 <= i < |list| && list[i] == x;
    var j :| 0 <= j < |list| && list[j] == y;
    var k :| 0 <= k < |list| && list[k] == z;
    if i < j { assert Less(x, y); LessIsTotal(x, y); }
    if j < i { assert Less(y, x); LessIsTotal(x, y); }
    if j < k { assert Less(y, z); LessIsTotal(y, z); }
    if k < j { assert Less(z, y); LessIsTotal(y, z); }
    if i < k { assert Less(x, z); LessIsTotal(x, z); }
    if i == k { LessIsTotal(x, x); }
    if k < i { assert k < j || j < i; }
  }

  lemma StillSorted(list: seq<Box>, out: seq<Box>)
    requires Sorted(list) && SortedBy(Less, out) && |out| == |list| && forall x :: x in out <==> x in list
    ensures out == list
  {
    assert Elements(out) == Elements(list);
    assert Distinct(list) by {
      forall j, k | 0 <= j < k < |list| ensures list[j] != list[k] { LessIsTotal(list[j], list[k]); }
    }
    DistinctTransfers(list, out);
    forall j, k | 0 <= j < k < |out|
      ensures Less(out[j], out[k])
    {
      assert out[j] in list && out[k] in list && out[j] != out[k];
      var i :| 0 <= i < |list| && list[i] == out[j];
      var m :| 0 <= m < |list| && list[m] == out[k];
    }
    SortedIsUnique(out, list);
  }

  /** The segments run from 0 to 1 without gap or overlap, each of positive length. */
  ghost predicate Tiles(segs: seq<PathSegment>) {
    && |segs| > 0 && segs[0].start == 0.0 && segs[|segs| - 1].end == 1.0
    && (forall k :: 0 <= k < |segs| ==> segs[k].start < segs[k].end)
    && (forall k :: 0 < k < |segs| ==> segs[k - 1].end == segs[k].start)
  }

  /** A listed box contains every interior point of the segment, an unlisted one at most one of them. */
  ghost predicate IsPiece(p: Path, boxes: seq<Box>, g: PathSegment)
    requires |p.from| == |p.to|
  {
    && Sorted(g.boxes) && (g.covered <==> g.boxes != [])
    && (forall b :: b in g.boxes ==> b in boxes && ThroughAll(p, b, g))
    && (forall b :: b in boxes && b !in g.boxes ==> ThroughOne(p, b, g))
  }

  ghost predicate ThroughAll(p: Path, b: Box, g: PathSegment)
    requires |p.from| == |p.to|
  {
    forall t :: g.start < t < g.end ==> Inside(b, PointAt(p, t))
  }

  ghost predicate ThroughOne(p: Path, b: Box, g: PathSegment)
    requires |p.from| == |p.to|
  {
    forall t, u :: g.start < t < g.end && g.start < u < g.end && Inside(b, PointAt(p, t)) && Inside(b, PointAt(p, u)) ==> t == u
  }

  /** The listed boxes are those that contain every interior point: the segment has more than one. */
  lemma ListedIff(p: Path, boxes: seq<Box>, g: PathSegment, b: Box)
    requires |p.from| == |p.to| && IsPiece(p, boxes, g) && g.start < g.end && b in boxes
    ensures b in g.boxes <==> ThroughAll(p, b, g)
  {
    if ThroughAll(p, b, g) {
      var t, u := (2.0 * g.start + g.end) / 3.0, (g.start + 2.0 * g.end) / 3.0;
      assert g.start < t < u < g.end;
      assert Inside(b, PointAt(p, t)) && Inside(b, PointAt(p, u));
    }
  }

  /** Coverage changes from each segment to the next, so the segments are maximal. */
  ghost predicate Maximal(segs: seq<PathSegment>) {
    forall k :: 0 < k < |segs| ==> segs[k - 1].boxes != segs[k].boxes
  }

  /** A span that does not cover a stretch between breakpoints has no interior point of it. */
  lemma StretchIsUncut(cs: seq<Crossing>, bp: seq<real>, i: nat, k: nat)
    requires AreBreakpoints(cs, bp) && i + 1 < |bp| && k < |cs|
    ensures Spanning(cs[k], bp[i], bp[i + 1]) || cs[k].span.end <= bp[i] || cs[k].span.start >= bp[i + 1]
  {
    assert IsEnd(cs, cs[k].span.start) && IsEnd(cs, cs[k].span.end);
    NeverBetween(bp, i, cs[k].span.start);
    NeverBetween(bp, i, cs[k].span.end);
  }

  lemma NeverBetween(bp: seq<real>, i: nat, v: real)
    requires Rising(bp) && i + 1 < |bp| && v in bp
    ensures v <= bp[i] || v >= bp[i + 1]
  {
    var k :| 0 <= k < |bp| && bp[k] == v;
  }

  lemma SegmentIsPiece(p: Path, boxes: seq<Box>, cs: seq<Crossing>, bp: seq<real>, i: nat, g: PathSegment)
    requires |p.from| == |p.to| && AreCrossings(p, boxes, cs) && AreBreakpoints(cs, bp) && i + 1 < |bp|
    requires g.start == bp[i] && g.end == bp[i + 1] && 0.0 <= g.start && g.end <= 1.0
    requires IsCovering(cs, g.start, g.end, g.boxes) && (g.covered <==> g.boxes != [])
    ensures IsPiece(p, boxes, g)
  {
    forall b | b in g.boxes
      ensures b in boxes && ThroughAll(p, b, g)
    {
      var k :| 0 <= k < |cs| && Spanning(cs[k], g.start, g.end) && cs[k].box == b;
    }
    forall b | b in boxes && b !in g.boxes
      ensures ThroughOne(p, b, g)
    {
      if HasCrossing(cs, b) {
        var k :| 0 <= k < |cs| && cs[k].box == b;
        StretchIsUncut(cs, bp, i, k);
        NeverThrough(p, b, cs[k].span, g);
      }
    }
  }

  lemma NeverThrough(p: Path, b: Box, s: Span, g: PathSegment)
    requires |p.from| == |p.to| && IsSpan(p, b, Some(s)) && 0.0 <= g.start && g.end <= 1.0
    requires s.end <= g.start || s.start >= g.end
    ensures ThroughOne(p, b, g)
  {
    forall t | g.start < t < g.end
      ensures !Inside(b, PointAt(p, t))
    {
    }
  }

  /** Every inner breakpoint starts or ends a span, so the coverage on its two sides differs. */
  lemma CoverageChanges(p: Path, boxes: seq<Box>, cs: seq<Crossing>, bp: seq<real>, i: nat, before: seq<Box>, after: seq<Box>)
    requires |p.from| == |p.to| && AreCrossings(p, boxes, cs) && AreBreakpoints(cs, bp) && 0 < i && i + 1 < |bp|
    requires IsCovering(cs, bp[i - 1], bp[i], before) && IsCovering(cs, bp[i], bp[i + 1], after)
    ensures before != after
  {
    BreakpointsSpanUnit(p, boxes, cs, bp);
    var k := SpanEndsAt(cs, bp, i);
    assert IsSpan(p, cs[k].box, Some(cs[k].span));
    SidesDiffer(cs, bp, i, k);
    OneSpanPerBox(cs, k, bp[i - 1], bp[i], before);
    OneSpanPerBox(cs, k, bp[i], bp[i + 1], after);
  }

  lemma SpanEndsAt(cs: seq<Crossing>, bp: seq<real>, i: nat) returns (k: nat)
    requires AreBreakpoints(cs, bp) && 0 < i && i + 1 < |bp| && bp[0] == 0.0 && bp[|bp| - 1] == 1.0
    ensures k < |cs| && (cs[k].span.start == bp[i] || cs[k].span.end == bp[i])
  {
    assert bp[i] in bp;
    k :| 0 <= k < |cs| && (cs[k].span.start == bp[i] || cs[k].span.end == bp[i]);
  }

  lemma SidesDiffer(cs: seq<Crossing>, bp: seq<real>, i: nat, k: nat)
    requires AreBreakpoints(cs, bp) && 0 < i && i + 1 < |bp| && k < |cs| && cs[k].span.start < cs[k].span.end
    requires cs[k].span.start == bp[i] || cs[k].span.end == bp[i]
    ensures Spanning(cs[k], bp[i - 1], bp[i]) <==> !Spanning(cs[k], bp[i], bp[i + 1])
  {
    assert bp[i - 1] < bp[i] < bp[i + 1];
    StretchIsUncut(cs, bp, i, k);
    StretchIsUncut(cs, bp, i - 1, k);
  }

  lemma OneSpanPerBox(cs: seq<Crossing>, k: nat, start: real, end: real, out: seq<Box>)
    requires (forall i, j :: 0 <= i < j < |cs| ==> Less(cs[i].box, cs[j].box)) && k < |cs| && IsCovering(cs, start, end, out)
    ensures cs[k].box in out <==> Spanning(cs[k], start, end)
  {
    if cs[k].box in out {
      var j :| 0 <= j < |cs| && Spanning(cs[j], start, end) && cs[j].box == cs[k].box;
      LessIsTotal(cs[j].box, cs[k].box);
      assert j == k;
    }
  }

  /** The breakpoints start at 0 and end at 1. */
  lemma BreakpointsSpanUnit(p: Path, boxes: seq<Box>, cs: seq<Crossing>, bp: seq<real>)
    requires |p.from| == |p.to| && AreCrossings(p, boxes, cs) && AreBreakpoints(cs, bp)
    ensures |bp| >= 2 && bp[0] == 0.0 && bp[|bp| - 1] == 1.0 && forall k :: 0 <= k < |bp| ==> 0.0 <= bp[k] <= 1.0
  {
    forall k | 0 <= k < |bp|
      ensures 0.0 <= bp[k] <= 1.0
    {
      assert bp[k] in bp;
    }
    assert 0.0 in bp && 1.0 in bp;
    var a :| 0 <= a < |bp| && bp[a] == 0.0;
    var b :| 0 <= b < |bp| && bp[b] == 1.0;
  }

  /** What Traverse returns for the normalized boxes. */
  ghost predicate IsTraversal(p: Path, boxes: seq<Box>, segs: seq<PathSegment>)
    requires |p.from| == |p.to|
  {
    Tiles(segs) && Maximal(segs) && forall k :: 0 <= k < |segs| ==> IsPiece(p, boxes, segs[k])
  }

  /** The segments of the first stretches between breakpoints. */
  ghost predicate Stretched(cs: seq<Crossing>, bp: seq<real>, i: nat, segs: seq<PathSegment>)
    requires i < |bp|
  {
    |segs| == i && forall k :: 0 <= k < i ==> IsStretch(cs, bp, k, segs[k])
  }

  ghost predicate IsStretch(cs: seq<Crossing>, bp: seq<real>, k: nat, g: PathSegment)
    requires k + 1 < |bp|
  {
    g.start == bp[k] && g.end == bp[k + 1] && IsCovering(cs, g.start, g.end, g.boxes) && (g.covered <==> g.boxes != [])
  }

  lemma StretchedIsTraversal(p: Path, boxes: seq<Box>, cs: seq<Crossing>, bp: seq<real>, segs: seq<PathSegment>)
    requires |p.from| == |p.to| && AreCrossings(p, boxes, cs) && AreBreakpoints(cs, bp) && |bp| >= 2
    requires Stretched(cs, bp, |bp| - 1, segs)
    ensures IsTraversal(p, boxes, segs)
  {
    BreakpointsSpanUnit(p, boxes, cs, bp);
    forall k | 0 <= k < |segs|
      ensures IsPiece(p, boxes, segs[k])
    {
      assert IsStretch(cs, bp, k, segs[k]);
      SegmentIsPiece(p, boxes, cs, bp, k, segs[k]);
    }
    forall k | 0 < k < |segs|
      ensures segs[k - 1].boxes != segs[k].boxes && segs[k - 1].end == segs[k].start
    {
      assert IsStretch(cs, bp, k - 1, segs[k - 1]) && IsStretch(cs, bp, k, segs[k]);
      CoverageChanges(p, boxes, cs, bp, k, segs[k - 1].boxes, segs[k].boxes);
    }
    assert IsStretch(cs, bp, 0, segs[0]) && IsStretch(cs, bp, |segs| - 1, segs[|segs| - 1]);
  }

  method Traverse<M(==)>(boxes: seq<Painted<M>>, p: Path, join: (M, M) -> M, ghost n: nat) returns (segs: seq<PathSegment>)
    requires |p.from| == |p.to| && OfDims(Geo(boxes), n)
    ensures Normalized(NormalOf(boxes), n) && IsTraversal(p, NormalOf(boxes), segs)
  {
    var kept := Normalize(boxes, join, n);
    var list := Geo(kept);
    NormalIsUnique(boxes, list, n);
    var cs := CollectCrossings(list, p);
    if |cs| == 0 {
      segs := [PathSegment(0.0, 1.0, false, [])];
      NoCrossings(p, list, cs, segs[0]);
      return;
    }
    var bp := UniqueBreakpoints(cs);
    BreakpointsSpanUnit(p, list, cs, bp);
    segs := Stretches(cs, bp);
    StretchedIsTraversal(p, list, cs, bp, segs);
  }

  lemma NoCrossings(p: Path, boxes: seq<Box>, cs: seq<Crossing>, g: PathSegment)
    requires |p.from| == |p.to| && AreCrossings(p, boxes, cs) && cs == [] && g == PathSegment(0.0, 1.0, false, [])
    ensures IsPiece(p, boxes, g)
  {
    forall b | b in boxes
      ensures ThroughOne(p, b, g)
    {
      assert IsSpan(p, b, None);
    }
  }

  method Stretches(cs: seq<Crossing>, bp: seq<real>) returns (segs: seq<PathSegment>)
    requires |bp| >= 2 && forall j, k :: 0 <= j < k < |cs| ==> Less(cs[j].box, cs[k].box)
    ensures Stretched(cs, bp, |bp| - 1, segs)
  {
    segs := [];
    for i := 0 to |bp| - 1
      invariant Stretched(cs, bp, i, segs)
    {
      var start, end := bp[i], bp[i + 1];
      var covering := BoxesCovering(cs, start, end);
      if |covering| == 0 {
        segs := segs + [PathSegment(start, end, false, [])];
      } else {
        segs := segs + [PathSegment(start, end, true, covering)];
      }
      assert IsStretch(cs, bp, i, segs[i]);
    }
  }

  /** Crossed: the boxes the path is in with positive length, and no others, in canonical order. */
  method Crossed<M(==)>(boxes: seq<Painted<M>>, p: Path, join: (M, M) -> M, ghost n: nat) returns (out: seq<Box>)
    requires |p.from| == |p.to| && OfDims(Geo(boxes), n)
    ensures Sorted(out) && forall b :: b in out <==> b in Maxima(Solid(Geo(boxes))) && PassesThrough(p, b)
  {
    var kept := Normalize(boxes, join, n);
    var list := Geo(kept);
    assert forall b :: b in list <==> b in Elements(list);
    out := PassedThrough(list, p);
  }

  method PassedThrough(list: seq<Box>, p: Path) returns (out: seq<Box>)
    requires |p.from| == |p.to| && Sorted(list)
    ensures Sorted(out) && forall b :: b in out <==> b in list && PassesThrough(p, b)
  {
    out := [];
    for i := 0 to |list|
      invariant Sorted(out) && forall b :: b in out <==> b in list[..i] && PassesThrough(p, b)
    {
      var s := SpanOf(p, list[i]);
      SpanIffThrough(p, list[i], s);
      SplitAt(list, i);
      if s.Some? {
        AppendSorted(list, i, out);
        out := out + [list[i]];
      }
    }
    assert list[..|list|] == list;
  }

  lemma AppendSorted(list: seq<Box>, i: nat, out: seq<Box>)
    requires Sorted(list) && i < |list| && Sorted(out) && forall b :: b in out ==> b in list[..i]
    ensures Sorted(out + [list[i]])
  {
    forall j | 0 <= j < |out|
      ensures Less(out[j], list[i])
    {
      assert out[j] in out;
      var k :| 0 <= k < i && list[..i][k] == out[j];
    }
  }

  /** The path is in the box at two parameters at least, and then on all between them. */
  ghost predicate PassesThrough(p: Path, b: Box)
    requires |p.from| == |p.to|
  {
    exists t, u :: 0.0 <= t < u <= 1.0 && Inside(b, PointAt(p, t)) && Inside(b, PointAt(p, u))
  }

  lemma SpanIffThrough(p: Path, b: Box, r: Option<Span>)
    requires |p.from| == |p.to| && IsSpan(p, b, r)
    ensures r.Some? <==> PassesThrough(p, b)
  {
    if r.Some? {
      var s := r.value;
      var t, u := (2.0 * s.start + s.end) / 3.0, (s.start + 2.0 * s.end) / 3.0;
      assert s.start < t < u < s.end;
      assert Inside(b, PointAt(p, t)) && Inside(b, PointAt(p, u));
    }
  }
}
