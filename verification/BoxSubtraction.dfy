/** space/set.go: exact subtraction of one box from another. */
module BoxSubtraction {
  import opened Line
  import opened Boxes

  /** intervalSubtract: the parts of span `a` outside span `b`. */
  function SpanMinus(a: Interval, b: Interval): seq<Interval> {
    (if a.start < b.start then [Interval(a.start, b.start, a.startBound, Invert(b.startBound))]
     else if a.start == b.start && a.startBound.Closed? && b.startBound.Open? then
       [Interval(a.start, a.start, Closed, Closed)]
     else [])
    +
    (if a.end > b.end then [Interval(b.end, a.end, Invert(b.endBound), a.endBound)]
     else if a.end == b.end && a.endBound.Closed? && b.endBound.Open? then
       [Interval(a.end, a.end, Closed, Closed)]
     else [])
  }

  /** intervalIntersection: the common part of two overlapping spans. */
  function SpanMeet(a: Interval, b: Interval): Interval {
    var fromB, toB := b.start > a.start, b.end < a.end;
    Interval(
      if fromB then b.start else a.start,
      if toB then b.end else a.end,
      if fromB then b.startBound
      else if b.start == a.start && (a.startBound.Open? || b.startBound.Open?) then Open else a.startBound,
      if toB then b.endBound
      else if b.end == a.end && (a.endBound.Open? || b.endBound.Open?) then Open else a.endBound)
  }

  lemma SpanSplits(a: Interval, b: Interval, x: real)
    requires SpanOverlap(a, b)
    ensures Contains(SpanMeet(a, b), x) <==> Contains(a, x) && Contains(b, x)
    ensures (exists k :: 0 <= k < |SpanMinus(a, b)| && Contains(SpanMinus(a, b)[k], x))
       <==> Contains(a, x) && !Contains(b, x)
  {
    var m := SpanMinus(a, b);
    assert |m| <= 2;
    if |m| > 0 && Contains(m[0], x) { assert exists k :: 0 <= k < |m| && Contains(m[k], x); }
    if |m| > 1 && Contains(m[1], x) { assert exists k :: 0 <= k < |m| && Contains(m[k], x); }
  }

  lemma SpanPartsProper(a: Interval, b: Interval)
    requires SpanOverlap(a, b)
    ensures !Empty(SpanMeet(a, b)) && SpanWithin(b, SpanMeet(a, b)) && SpanWithin(a, SpanMeet(a, b))
    ensures forall k :: 0 <= k < |SpanMinus(a, b)| ==>
      !Empty(SpanMinus(a, b)[k]) && SpanWithin(a, SpanMinus(a, b)[k]) && !SpanOverlap(SpanMinus(a, b)[k], b)
    ensures |SpanMinus(a, b)| == 2 ==> !SpanOverlap(SpanMinus(a, b)[0], SpanMinus(a, b)[1])
    ensures |SpanMinus(a, b)| <= 2
  {
  }

  /** The box with its span on axis `d` replaced by each piece in turn. */
  function Clips(b: Box, d: nat, pieces: seq<Interval>): (out: seq<Box>)
    requires d < |b|
    ensures |out| == |pieces| && forall k :: 0 <= k < |out| ==> out[k] == b[d := pieces[k]]
  {
    seq(|pieces|, k requires 0 <= k < |pieces| => b[d := pieces[k]])
  }

  /** The pieces carved off on axis `d` and later, for a box inside `q` on the axes before `d`. */
  function SubtractFrom(b: Box, q: Box, d: nat): seq<Box>
    requires |b| == |q| && d <= |b|
    decreases |b| - d
  {
    if d == |b| then []
    else if SpanWithin(q[d], b[d]) then SubtractFrom(b, q, d + 1)
    else Clips(b, d, SpanMinus(b[d], q[d])) + SubtractFrom(b[d := SpanMeet(b[d], q[d])], q, d + 1)
  }

  function SubtractBox(p: Box, q: Box): seq<Box>
    requires |p| == |q|
  {
    if !Overlaps(p, q) then [p] else SubtractFrom(p, q, 0)
  }

  /** The worklist loop over the axes computes exactly these pieces. */
  method SubtractByAxes(p: Box, q: Box) returns (result: seq<Box>)
    requires |p| == |q|
    ensures result == SubtractBox(p, q)
  {
    if !Overlaps(p, q) { return [p]; }
    var pending := [p];
    result := [];
    for d := 0 to |p|
      invariant |pending| == 1 && |pending[0]| == |q|
      invariant result + SubtractFrom(pending[0], q, d) == SubtractFrom(p, q, 0)
    {
      var next: seq<Box> := [];
      for k := 0 to |pending|
        invariant |next| == k
        invariant k == 0 ==> result + SubtractFrom(pending[0], q, d) == SubtractFrom(p, q, 0)
        invariant k == 1 ==> |next[0]| == |q| && result + SubtractFrom(next[0], q, d + 1) == SubtractFrom(p, q, 0)
      {
        var b := pending[k];
        if SpanWithin(q[d], b[d]) {
          next := next + [b];
        } else {
          result := result + Clips(b, d, SpanMinus(b[d], q[d]));
          next := next + [b[d := SpanMeet(b[d], q[d])]];
        }
      }
      pending := next;
    }
  }

  ghost predicate InsideSome(bs: seq<Box>, x: Point) {
    exists k :: 0 <= k < |bs| && Inside(bs[k], x)
  }

  lemma InsideConcat(a: seq<Box>, b: seq<Box>, x: Point)
    ensures InsideSome(a + b, x) <==> InsideSome(a, x) || InsideSome(b, x)
  {
    if InsideSome(a, x) {
      var k :| 0 <= k < |a| && Inside(a[k], x);
      assert Inside((a + b)[k], x);
    }
    if InsideSome(b, x) {
      var k :| 0 <= k < |b| && Inside(b[k], x);
      assert Inside((a + b)[|a| + k], x);
    }
    if InsideSome(a + b, x) {
      var k :| 0 <= k < |a + b| && Inside((a + b)[k], x);
      if k < |a| { assert Inside(a[k], x); } else { assert Inside(b[k - |a|], x); }
    }
  }

  /** The state of the sweep over the axes: inside `q` before axis `d`, overlapping it from there on. */
  ghost predicate Sweeping(b: Box, q: Box, d: nat) {
    && |b| == |q| && d <= |b| && !Hollow(b)
    && (forall i :: 0 <= i < d ==> SpanWithin(q[i], b[i]))
    && (forall i :: d <= i < |b| ==> SpanOverlap(b[i], q[i]))
  }

  lemma SweepingStep(b: Box, q: Box, d: nat)
    requires Sweeping(b, q, d) && d < |b|
    ensures Sweeping(b[d := SpanMeet(b[d], q[d])], q, d + 1)
    ensures SpanWithin(q[d], b[d]) ==> Sweeping(b, q, d + 1)
  {
    SpanPartsProper(b[d], q[d]);
  }

  lemma ClipsPoints(b: Box, q: Box, d: nat, x: Point)
    requires Sweeping(b, q, d) && d < |b|
    ensures InsideSome(Clips(b, d, SpanMinus(b[d], q[d])), x) <==> Inside(b, x) && !Contains(q[d], x[d])
    ensures Inside(b[d := SpanMeet(b[d], q[d])], x) <==> Inside(b, x) && Contains(q[d], x[d])
  {
    var m := SpanMinus(b[d], q[d]);
    var cs := Clips(b, d, m);
    SpanPartsProper(b[d], q[d]);
    if |x| == |b| {
      SpanSplits(b[d], q[d], x[d]);
      if InsideSome(cs, x) {
        var k :| 0 <= k < |cs| && Inside(cs[k], x);
        assert Contains(m[k], x[d]);
        ClipInside(b, d, m[k], x);
      }
      if Inside(b, x) && !Contains(q[d], x[d]) {
        var k :| 0 <= k < |m| && Contains(m[k], x[d]);
        ClipInside(b, d, m[k], x);
        assert Inside(cs[k], x);
      }
      ClipInside(b, d, SpanMeet(b[d], q[d]), x);
    }
  }

  lemma ClipInside(b: Box, d: nat, piece: Interval, x: Point)
    requires d < |b| && |x| == |b|
    ensures Inside(b[d := piece], x)
       <==> Contains(piece, x[d]) && forall i :: 0 <= i < |b| && i != d ==> Contains(b[i], x[i])
  {
    var c := b[d := piece];
    if Inside(c, x) {
      assert Contains(c[d], x[d]);
      forall i | 0 <= i < |b| && i != d
        ensures Contains(b[i], x[i])
      {
        assert c[i] == b[i];
      }
    }
  }

  /** The pieces cover exactly the points of the box outside `q`. */
  lemma {:induction false} SubtractFromIsExact(b: Box, q: Box, d: nat, x: Point)
    requires Sweeping(b, q, d)
    ensures InsideSome(SubtractFrom(b, q, d), x) <==> Inside(b, x) && !Inside(q, x)
    decreases |b| - d
  {
    if d == |b| {
      assert Subsumes(q, b);
      SubsumesMeansCovers(q, b);
    } else {
      SweepingStep(b, q, d);
      if SpanWithin(q[d], b[d]) {
        SubtractFromIsExact(b, q, d + 1, x);
      } else {
        var meet := b[d := SpanMeet(b[d], q[d])];
        SubtractFromIsExact(meet, q, d + 1, x);
        CarveIsExact(b, q, d, x, SubtractFrom(meet, q, d + 1));
      }
    }
  }

  lemma CarveIsExact(b: Box, q: Box, d: nat, x: Point, rest: seq<Box>)
    requires Sweeping(b, q, d) && d < |b|
    requires InsideSome(rest, x) <==> Inside(b[d := SpanMeet(b[d], q[d])], x) && !Inside(q, x)
    ensures InsideSome(Clips(b, d, SpanMinus(b[d], q[d])) + rest, x) <==> Inside(b, x) && !Inside(q, x)
  {
    ClipsPoints(b, q, d, x);
    InsideConcat(Clips(b, d, SpanMinus(b[d], q[d])), rest, x);
  }

  /** Nonhollow boxes of one dimension inside `b`, no two sharing a point. */
  ghost predicate Tiles(bs: seq<Box>, b: Box) {
    && (forall k :: 0 <= k < |bs| ==> |bs[k]| == |b| && !Hollow(bs[k]) && Subsumes(b, bs[k]))
    && (forall j, k :: 0 <= j < k < |bs| ==> |bs[j]| == |bs[k]| && !Overlaps(bs[j], bs[k]))
  }

  lemma ClipTiles(b: Box, q: Box, d: nat)
    requires Sweeping(b, q, d) && d < |b|
    ensures Tiles(Clips(b, d, SpanMinus(b[d], q[d])), b)
    ensures forall k :: 0 <= k < |SpanMinus(b[d], q[d])| ==>
      !SpanOverlap(Clips(b, d, SpanMinus(b[d], q[d]))[k][d], q[d])
  {
    SpanPartsProper(b[d], q[d]);
    var m, cs := SpanMinus(b[d], q[d]), Clips(b, d, SpanMinus(b[d], q[d]));
    forall k | 0 <= k < |cs|
      ensures |cs[k]| == |b| && !Hollow(cs[k]) && Subsumes(b, cs[k])
    {
      assert forall i :: 0 <= i < |b| ==> cs[k][i] == if i == d then m[k] else b[i];
    }
    if |cs| == 2 {
      assert cs[0][d] == m[0] && cs[1][d] == m[1];
      assert !Overlaps(cs[0], cs[1]);
    }
  }

  lemma OutsideAvoids(c: Box, meet: Box, t: Box, d: nat, span: Interval)
    requires |c| == |meet| == |t| && d < |c| && Subsumes(meet, t)
    requires !SpanOverlap(c[d], span) && SpanWithin(span, meet[d])
    ensures !Overlaps(c, t)
  {
    WithinFine(span, meet[d]);
    WithinFine(meet[d], t[d]);
    OverlapFine(c[d], span);
    OverlapFine(c[d], t[d]);
  }

  /** The pieces are nonhollow, inside the box, and pairwise disjoint. */
  lemma {:induction false} SubtractFromTiles(b: Box, q: Box, d: nat)
    requires Sweeping(b, q, d)
    ensures Tiles(SubtractFrom(b, q, d), b)
    decreases |b| - d
  {
    if d < |b| {
      SweepingStep(b, q, d);
      if SpanWithin(q[d], b[d]) {
        SubtractFromTiles(b, q, d + 1);
      } else {
        var meet := b[d := SpanMeet(b[d], q[d])];
        SubtractFromTiles(meet, q, d + 1);
        CarveTiles(b, q, d, SubtractFrom(meet, q, d + 1));
      }
    }
  }

  lemma CarveTiles(b: Box, q: Box, d: nat, rest: seq<Box>)
    requires Sweeping(b, q, d) && d < |b|
    requires Tiles(rest, b[d := SpanMeet(b[d], q[d])])
    ensures Tiles(Clips(b, d, SpanMinus(b[d], q[d])) + rest, b)
  {
    var cs, meet := Clips(b, d, SpanMinus(b[d], q[d])), b[d := SpanMeet(b[d], q[d])];
    ClipTiles(b, q, d);
    SpanPartsProper(b[d], q[d]);
    forall k, j | 0 <= k < |cs| && 0 <= j < |rest|
      ensures !Overlaps(cs[k], rest[j])
    {
      OutsideAvoids(cs[k], meet, rest[j], d, q[d]);
    }
    assert Subsumes(b, meet);
    forall j | 0 <= j < |rest|
      ensures Subsumes(b, rest[j])
    {
      SubsumesIsTransitive(b, meet, rest[j]);
    }
    TilesConcat(cs, rest, b);
  }

  lemma TilesConcat(s: seq<Box>, t: seq<Box>, b: Box)
    requires Tiles(s, b)
    requires forall k :: 0 <= k < |t| ==> |t[k]| == |b| && !Hollow(t[k]) && Subsumes(b, t[k])
    requires forall j, k :: 0 <= j < k < |t| ==> !Overlaps(t[j], t[k])
    requires forall k, j :: 0 <= k < |s| && 0 <= j < |t| ==> !Overlaps(s[k], t[j])
    ensures Tiles(s + t, b)
  {
  }

  /** subtractBox: disjoint nonhollow pieces of `p` covering exactly the points of `p` outside `q`. */
  lemma SubtractBoxIsExact(p: Box, q: Box)
    requires |p| == |q| && !Hollow(p)
    ensures Tiles(SubtractBox(p, q), p)
    ensures forall x :: InsideSome(SubtractBox(p, q), x) <==> Inside(p, x) && !Inside(q, x)
  {
    if Overlaps(p, q) {
      SubtractFromTiles(p, q, 0);
      forall x
        ensures InsideSome(SubtractFrom(p, q, 0), x) <==> Inside(p, x) && !Inside(q, x)
      {
        SubtractFromIsExact(p, q, 0, x);
      }
    } else {
      SubsumesIsReflexive(p);
      OverlapsMeansShared(p, q);
      forall x
        ensures InsideSome([p], x) <==> Inside(p, x) && !Inside(q, x)
      {
        if Inside(p, x) { assert Inside([p][0], x); }
      }
    }
  }

  // ----- which pieces -----

  /** The span holds exactly the common points of two spans. */
  ghost predicate IsMeet(a: Interval, b: Interval, m: Interval) {
    forall x :: Contains(m, x) <==> Contains(a, x) && Contains(b, x)
  }

  ghost predicate BelowAll(x: real, b: Interval) {
    forall y :: Contains(b, y) ==> x < y
  }

  ghost predicate AboveAll(x: real, b: Interval) {
    forall y :: Contains(b, y) ==> x > y
  }

  /** The span holds exactly the points of `a` below all of `b`. */
  ghost predicate IsBelow(a: Interval, b: Interval, part: Interval) {
    forall x :: Contains(part, x) <==> Contains(a, x) && BelowAll(x, b)
  }

  ghost predicate IsAbove(a: Interval, b: Interval, part: Interval) {
    forall x :: Contains(part, x) <==> Contains(a, x) && AboveAll(x, b)
  }

  /**
   * The piece is cut off on axis `d`: there it lies on one side of `q`, on the axes before it lies within
   * `q`, and on the axes after it keeps the span of `p`.
   */
  ghost predicate CutOff(p: Box, q: Box, piece: Box, d: nat)
    requires |p| == |q|
  {
    && d < |p| && |piece| == |p| && (IsBelow(p[d], q[d], piece[d]) || IsAbove(p[d], q[d], piece[d]))
    && (forall i :: 0 <= i < d ==> IsMeet(p[i], q[i], piece[i]))
    && (forall i :: d < i < |p| ==> piece[i] == p[i])
  }

  lemma BelowIff(b: Interval, x: real)
    requires !Empty(b)
    ensures BelowAll(x, b) <==> x < b.start || (x == b.start && b.startBound.Open?)
  {
    if !(x < b.start || (x == b.start && b.startBound.Open?)) {
      var y := if b.startBound.Closed? then b.start else if x < b.end then (b.start + x) / 2.0 else (b.start + b.end) / 2.0;
      assert Contains(b, y) && y <= x;
    }
  }

  lemma AboveIff(b: Interval, x: real)
    requires !Empty(b)
    ensures AboveAll(x, b) <==> x > b.end || (x == b.end && b.endBound.Open?)
  {
    if !(x > b.end || (x == b.end && b.endBound.Open?)) {
      var y := if b.endBound.Closed? then b.end else if x > b.start then (b.end + x) / 2.0 else (b.start + b.end) / 2.0;
      assert Contains(b, y) && y >= x;
    }
  }

  lemma PartIsOnOneSide(a: Interval, b: Interval, part: Interval)
    requires !Empty(a) && !Empty(b) && SpanOverlap(a, b) && part in SpanMinus(a, b)
    ensures IsBelow(a, b, part) || IsAbove(a, b, part)
  {
    if a.start < b.start && part == Interval(a.start, b.start, a.startBound, Invert(b.startBound)) {
      LowerPart(a, b, part);
    } else if part == Interval(a.start, a.start, Closed, Closed) && a.start == b.start && b.startBound.Open? {
      LowerPart(a, b, part);
    } else {
      UpperPart(a, b, part);
    }
  }

  lemma LowerPart(a: Interval, b: Interval, part: Interval)
    requires !Empty(b) && SpanOverlap(a, b)
    requires if a.start < b.start then part == Interval(a.start, b.start, a.startBound, Invert(b.startBound))
      else part == Interval(a.start, a.start, Closed, Closed) && a.start == b.start && a.startBound.Closed? && b.startBound.Open?
    ensures IsBelow(a, b, part)
  {
    forall x
      ensures Contains(part, x) <==> Contains(a, x) && BelowAll(x, b)
    {
      BelowIff(b, x);
    }
  }

  lemma UpperPart(a: Interval, b: Interval, part: Interval)
    requires !Empty(b) && SpanOverlap(a, b)
    requires if a.end > b.end then part == Interval(b.end, a.end, Invert(b.endBound), a.endBound)
      else part == Interval(a.end, a.end, Closed, Closed) && a.end == b.end && a.endBound.Closed? && b.endBound.Open?
    ensures IsAbove(a, b, part)
  {
    forall x
      ensures Contains(part, x) <==> Contains(a, x) && AboveAll(x, b)
    {
      AboveIff(b, x);
    }
  }

  /** What is left of `p` before axis `d` is swept. */
  ghost predicate Narrowed(p: Box, q: Box, b: Box, d: nat) {
    && |p| == |q| == |b| && d <= |p|
    && (forall i :: 0 <= i < d ==> IsMeet(p[i], q[i], b[i]))
    && (forall i :: d <= i < |p| ==> b[i] == p[i])
  }

  lemma NarrowsFurther(p: Box, q: Box, b: Box, d: nat)
    requires Narrowed(p, q, b, d) && d < |p| && SpanOverlap(p[d], q[d])
    ensures Narrowed(p, q, b[d := SpanMeet(b[d], q[d])], d + 1)
    ensures SpanWithin(q[d], b[d]) ==> Narrowed(p, q, b, d + 1)
  {
    forall x { SpanSplits(p[d], q[d], x); }
  }

  lemma {:induction false} PiecesAreCutOff(p: Box, q: Box, b: Box, d: nat, piece: Box)
    requires Narrowed(p, q, b, d) && !Hollow(p) && !Hollow(q) && Overlaps(p, q) && piece in SubtractFrom(b, q, d)
    ensures exists e: nat :: CutOff(p, q, piece, e)
    decreases |p| - d
  {
    NarrowsFurther(p, q, b, d);
    if SpanWithin(q[d], b[d]) {
      PiecesAreCutOff(p, q, b, d + 1, piece);
    } else {
      var parts := SpanMinus(b[d], q[d]);
      if k :| 0 <= k < |parts| && piece == b[d := parts[k]] {
        PartIsOnOneSide(p[d], q[d], parts[k]);
        assert CutOff(p, q, piece, d);
      } else {
        PiecesAreCutOff(p, q, b[d := SpanMeet(b[d], q[d])], d + 1, piece);
      }
    }
  }

  /** Every piece of a box that overlaps `q` is cut off on one axis, the axes before it narrowed to `q`. */
  lemma PieceIsCutOff(p: Box, q: Box, piece: Box)
    requires |p| == |q| && !Hollow(p) && !Hollow(q) && Overlaps(p, q) && piece in SubtractBox(p, q)
    ensures exists d: nat :: CutOff(p, q, piece, d)
  {
    PiecesAreCutOff(p, q, p, 0, piece);
  }
}
