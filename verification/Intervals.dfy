/** interval/interval.go: the operations on single intervals. */
module Intervals {
  import opened Line

  function MaxStart(a: Interval, b: Interval): (real, Bound) {
    if a.start > b.start then (a.start, a.startBound)
    else if a.start < b.start then (b.start, b.startBound)
    else if a.startBound.Closed? || b.startBound.Closed? then (a.start, Closed)
    else (a.start, Open)
  }

  function MinEnd(a: Interval, b: Interval): (real, Bound) {
    if a.end < b.end then (a.end, a.endBound)
    else if a.end > b.end then (b.end, b.endBound)
    else if a.endBound.Closed? || b.endBound.Closed? then (a.end, Closed)
    else (a.end, Open)
  }

  predicate Overlaps(a: Interval, b: Interval) {
    var (lo, loB) := MaxStart(a, b);
    var (hi, hiB) := MinEnd(a, b);
    if lo > hi then false
    else if lo < hi then true
    else loB.Closed? && hiB.Closed?
  }

  predicate Touches(a: Interval, b: Interval) {
    if a.end == b.start then
      if a.endBound.Open? && b.startBound.Open? then false else !Overlaps(a, b)
    else if b.end == a.start then
      if b.endBound.Open? && a.startBound.Open? then false else !Overlaps(a, b)
    else false
  }

  function Merge(a: Interval, b: Interval): Interval {
    var fromB := b.start < a.start || (b.start == a.start && a.startBound.Open? && b.startBound.Closed?);
    var toB := b.end > a.end || (b.end == a.end && a.endBound.Open? && b.endBound.Closed?);
    Interval(
      if fromB then b.start else a.start,
      if toB then b.end else a.end,
      if fromB then b.startBound else a.startBound,
      if toB then b.endBound else a.endBound)
  }

  function LeftPart(iv: Interval, cut: Interval): seq<Interval> {
    if iv.start < cut.start then
      [Interval(iv.start, cut.start, iv.startBound, Invert(cut.startBound))]
    else if iv.start == cut.start && iv.startBound.Closed? && cut.startBound.Open? then
      [Interval(iv.start, cut.start, Closed, Closed)]
    else []
  }

  function RightPart(iv: Interval, cut: Interval): seq<Interval> {
    if cut.end < iv.end then
      [Interval(cut.end, iv.end, Invert(cut.endBound), iv.endBound)]
    else if cut.end == iv.end && cut.endBound.Open? && iv.endBound.Closed? then
      [Interval(cut.end, iv.end, Closed, Closed)]
    else []
  }

  function Subtract(iv: Interval, cut: Interval): seq<Interval> {
    if !Overlaps(iv, cut) && !Touches(iv, cut) then [iv]
    else LeftPart(iv, cut) + RightPart(iv, cut)
  }

  ghost predicate Covers(cover: seq<Interval>, x: real) {
    exists k :: 0 <= k < |cover| && Contains(cover[k], x)
  }

  ghost predicate ShareAPoint(a: Interval, b: Interval) {
    exists x :: Contains(a, x) && Contains(b, x)
  }

  /** One interval is the single point at which the other starts or ends without including it. */
  predicate PointAtOpenEnd(a: Interval, b: Interval) {
    a.start == a.end
    && ((b.start == a.start && b.startBound.Open?) || (b.end == a.start && b.endBound.Open?))
  }

  /** The union of two intervals is contiguous exactly when neither fine span ends before the other starts. */
  lemma ContiguousIff(a: Interval, b: Interval)
    requires !Empty(a) && !Empty(b)
    ensures Overlaps(a, b) || Touches(a, b) <==> Le(Lo(a), Hi(b)) && Le(Lo(b), Hi(a))
  {
  }

  /**
   * `Merge` is the union of two intervals exactly when they overlap or touch; otherwise it also
   * covers a point that belongs to neither.
   */
  lemma MergeIsUnionIff(a: Interval, b: Interval)
    requires !Empty(a) && !Empty(b)
    ensures Overlaps(a, b) || Touches(a, b)
       <==> forall x :: Contains(Merge(a, b), x) <==> Contains(a, x) || Contains(b, x)
  {
    ContiguousIff(a, b);
    if Lt(Hi(a), Lo(b)) {
      var x := RealBetween(Hi(a), Lo(b));
      assert Contains(Merge(a, b), x) && !Contains(a, x) && !Contains(b, x);
    } else if Lt(Hi(b), Lo(a)) {
      var x := RealBetween(Hi(b), Lo(a));
      assert Contains(Merge(a, b), x) && !Contains(a, x) && !Contains(b, x);
    }
  }

  /** `Subtract` keeps exactly the points of `iv` outside `cut`, in nonempty pieces in order. */
  lemma SubtractIsExact(iv: Interval, cut: Interval)
    requires !Empty(iv) && !Empty(cut)
    ensures forall x :: Covers(Subtract(iv, cut), x) <==> Contains(iv, x) && !Contains(cut, x)
    ensures forall k :: 0 <= k < |Subtract(iv, cut)| ==> !Empty(Subtract(iv, cut)[k])
    ensures |Subtract(iv, cut)| == 2 ==> Lt(Hi(Subtract(iv, cut)[0]), Lo(Subtract(iv, cut)[1]))
  {
    var s := Subtract(iv, cut);
    assert |s| <= 2;
    forall x
      ensures Covers(s, x) <==> Contains(iv, x) && !Contains(cut, x)
    {
      if |s| > 0 && Contains(s[0], x) { assert Covers(s, x); }
      if |s| > 1 && Contains(s[1], x) { assert Covers(s, x); }
    }
  }

  /**
   * `Overlaps` documents "share at least one point". It reports more than that: it agrees with
   * sharing a point exactly unless one interval is the very point the other stops short of.
   */
  lemma OverlapsIsExactIff(a: Interval, b: Interval)
    requires !Empty(a) && !Empty(b)
    ensures (Overlaps(a, b) <==> ShareAPoint(a, b)) <==> !PointAtOpenEnd(a, b) && !PointAtOpenEnd(b, a)
  {
    if Lt(Max(Lo(a), Lo(b)), Min(Hi(a), Hi(b))) {
      var x := RealBetween(Max(Lo(a), Lo(b)), Min(Hi(a), Hi(b)));
      assert Contains(a, x) && Contains(b, x);
    }
  }

  /** The false positive: [0,0] and (0,1] are reported as overlapping. */
  lemma OverlapsFalsePositive()
    ensures var a, b := Interval(0.0, 0.0, Closed, Closed), Interval(0.0, 1.0, Open, Closed);
      Overlaps(a, b) && !ShareAPoint(a, b)
  {
  }
}
