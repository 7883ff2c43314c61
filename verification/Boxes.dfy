/** space/space.go and the order of space/set.go: axis-aligned boxes in any dimension. */
module Boxes {
  import opened Line

  /**
   * The geometry of a box: one interval per axis. Min, Max and the effective face bounds of an axis
   * are its start, end and bounds; an absent bound slice reads as closed Min faces and open Max faces.
   */
  type Box = seq<Interval>

  type Point = seq<real>

  predicate Inside(b: Box, p: Point) {
    |p| == |b| && forall i :: 0 <= i < |b| ==> Contains(b[i], p[i])
  }

  predicate Hollow(b: Box) {
    exists i :: 0 <= i < |b| && Empty(b[i])
  }

  predicate SpanOverlap(a: Interval, b: Interval) {
    var lo := if a.start < b.start then b.start else a.start;
    var hi := if b.end < a.end then b.end else a.end;
    if lo < hi then true
    else if lo != hi then false
    else Contains(a, lo) && Contains(b, lo)
  }

  predicate Overlaps(a: Box, b: Box)
    requires |a| == |b|
  {
    forall i :: 0 <= i < |a| ==> SpanOverlap(a[i], b[i])
  }

  /** Whether span `a` is a subset of span `b`. */
  predicate SpanWithin(b: Interval, a: Interval) {
    if a.start < b.start || a.end > b.end then false
    else if a.start == b.start && a.startBound.Closed? && b.startBound.Open? then false
    else if a.end == b.end && a.endBound.Closed? && b.endBound.Open? then false
    else true
  }

  predicate Subsumes(b: Box, a: Box)
    requires |a| == |b|
  {
    forall i :: 0 <= i < |a| ==> SpanWithin(b[i], a[i])
  }

  // ----- spans on the doubled line -----

  lemma OverlapFine(a: Interval, b: Interval)
    ensures SpanOverlap(a, b) <==> Lt(Max(Lo(a), Lo(b)), Min(Hi(a), Hi(b)))
  {
  }

  lemma WithinFine(b: Interval, a: Interval)
    ensures SpanWithin(b, a) <==> Le(Lo(b), Lo(a)) && Le(Hi(a), Hi(b))
  {
  }

  /** Spans overlap exactly when they share a point. */
  lemma SpansShare(a: Interval, b: Interval) returns (x: real)
    requires SpanOverlap(a, b)
    ensures Contains(a, x) && Contains(b, x)
  {
    OverlapFine(a, b);
    x := RealBetween(Max(Lo(a), Lo(b)), Min(Hi(a), Hi(b)));
  }

  lemma SpanEscapes(b: Interval, a: Interval) returns (x: real)
    requires !Empty(a) && !SpanWithin(b, a)
    ensures Contains(a, x) && !Contains(b, x)
  {
    WithinFine(b, a);
    if Lt(Lo(a), Lo(b)) {
      x := RealBetween(Lo(a), Min(Hi(a), Lo(b)));
    } else {
      x := RealBetween(Max(Lo(a), Hi(b)), Hi(a));
    }
  }

  // ----- boxes as point sets -----

  /** A point of a box that is not hollow. */
  lemma {:induction false} SomePoint(b: Box) returns (p: Point)
    requires !Hollow(b)
    ensures Inside(b, p)
  {
    if b == [] {
      p := [];
    } else {
      assert forall i :: 0 <= i < |b[1..]| ==> b[1..][i] == b[i + 1];
      assert !Empty(b[0]);
      var rest := SomePoint(b[1..]);
      EmptyMeansNoPoint(b[0]);
      var x :| Contains(b[0], x);
      p := [x] + rest;
    }
  }

  /** A box is hollow exactly when it contains no point. */
  lemma HollowMeansNoPoint(b: Box)
    ensures Hollow(b) <==> forall p :: !Inside(b, p)
  {
    if Hollow(b) {
      var i :| 0 <= i < |b| && Empty(b[i]);
      EmptyMeansNoPoint(b[i]);
    } else {
      var p := SomePoint(b);
    }
  }

  lemma {:induction false} SharedPoint(a: Box, b: Box) returns (p: Point)
    requires |a| == |b| && Overlaps(a, b)
    ensures Inside(a, p) && Inside(b, p)
  {
    if a == [] {
      p := [];
    } else {
      var rest := SharedPoint(a[1..], b[1..]);
      var x := SpansShare(a[0], b[0]);
      p := [x] + rest;
    }
  }

  /** Boxes overlap exactly when they share a point. */
  lemma OverlapsMeansShared(a: Box, b: Box)
    requires |a| == |b|
    ensures Overlaps(a, b) <==> exists p :: Inside(a, p) && Inside(b, p)
  {
    if Overlaps(a, b) {
      var p := SharedPoint(a, b);
    }
    if exists p :: Inside(a, p) && Inside(b, p) {
      var p :| Inside(a, p) && Inside(b, p);
      forall i | 0 <= i < |a|
        ensures SpanOverlap(a[i], b[i])
      {
        OverlapFine(a[i], b[i]);
        ContainsIsHolds(a[i], p[i]);
        ContainsIsHolds(b[i], p[i]);
      }
    }
  }

  /** A box that is not hollow is subsumed exactly when all its points are covered. */
  lemma SubsumesMeansCovers(b: Box, a: Box)
    requires |a| == |b| && !Hollow(a)
    ensures Subsumes(b, a) <==> forall p :: Inside(a, p) ==> Inside(b, p)
  {
    if !Subsumes(b, a) {
      var i :| 0 <= i < |a| && !SpanWithin(b[i], a[i]);
      var x := SpanEscapes(b[i], a[i]);
      var p := SomePoint(a);
      var q := p[i := x];
      assert Inside(a, q) && !Inside(b, q);
    }
  }

  /** Covering boxes overlap wherever the covered ones do. */
  lemma OverlapGrows(p: Box, q: Box, x: Box, y: Box)
    requires |p| == |q| == |x| == |y| && Subsumes(p, x) && Subsumes(q, y) && Overlaps(x, y)
    ensures Overlaps(p, q)
  {
    forall i | 0 <= i < |p|
      ensures SpanOverlap(p[i], q[i])
    {
      WithinFine(p[i], x[i]);
      WithinFine(q[i], y[i]);
      OverlapFine(x[i], y[i]);
      OverlapFine(p[i], q[i]);
    }
  }

  lemma SelfOverlaps(b: Box)
    requires !Hollow(b)
    ensures Overlaps(b, b)
  {
  }

  lemma OverlapsIsSymmetric(a: Box, b: Box)
    requires |a| == |b|
    ensures Overlaps(a, b) <==> Overlaps(b, a)
  {
  }

  lemma SubsumesIsTransitive(c: Box, b: Box, a: Box)
    requires |a| == |b| == |c| && Subsumes(c, b) && Subsumes(b, a)
    ensures Subsumes(c, a)
  {
  }

  lemma SubsumesIsReflexive(a: Box)
    ensures Subsumes(a, a)
  {
  }

  lemma SubsumesIsAntisymmetric(b: Box, a: Box)
    requires |a| == |b| && Subsumes(b, a) && Subsumes(a, b)
    ensures a == b
  {
  }

  // ----- canonical cover order -----

  /** Canonical order from axis `k` on: min, max, then the face bounds, axis by axis. */
  predicate LessFrom(a: Box, b: Box, k: nat)
    requires |a| == |b| && k <= |a|
    decreases |a| - k
  {
    if k == |a| then false
    else if a[k].start != b[k].start then a[k].start < b[k].start
    else if a[k].end != b[k].end then a[k].end < b[k].end
    else if a[k].startBound != b[k].startBound then a[k].startBound.Closed?
    else if a[k].endBound != b[k].endBound then a[k].endBound.Closed?
    else LessFrom(a, b, k + 1)
  }

  predicate Less(a: Box, b: Box) {
    |a| == |b| && LessFrom(a, b, 0)
  }

  lemma {:induction false} LessFromIsTotal(a: Box, b: Box, k: nat)
    requires |a| == |b| && k <= |a|
    ensures LessFrom(a, b, k) ==> !LessFrom(b, a, k)
    ensures LessFrom(a, b, k) || LessFrom(b, a, k) || a[k..] == b[k..]
    ensures a[k..] == b[k..] ==> !LessFrom(a, b, k)
    decreases |a| - k
  {
    if k < |a| {
      LessFromIsTotal(a, b, k + 1);
      assert a[k..] == [a[k]] + a[k + 1..] && b[k..] == [b[k]] + b[k + 1..];
    }
  }

  lemma {:induction false} LessFromIsTransitive(a: Box, b: Box, c: Box, k: nat)
    requires |a| == |b| == |c| && k <= |a| && LessFrom(a, b, k) && LessFrom(b, c, k)
    ensures LessFrom(a, c, k)
    decreases |a| - k
  {
    if k < |a| && a[k] == b[k] == c[k] {
      LessFromIsTransitive(a, b, c, k + 1);
    }
  }

  /** Boxes of one dimension are strictly and totally ordered. */
  lemma LessIsTotal(a: Box, b: Box)
    requires |a| == |b|
    ensures !(Less(a, b) && Less(b, a))
    ensures Less(a, b) || Less(b, a) || a == b
    ensures !Less(a, a)
  {
    LessFromIsTotal(a, b, 0);
    LessFromIsTotal(a, a, 0);
    assert a[0..] == a && b[0..] == b;
  }

  /** One side comes before another: the lower start, then the lower end, then closed bounds before open ones. */
  ghost predicate SideBefore(a: Interval, b: Interval) {
    || a.start < b.start
    || (a.start == b.start && a.end < b.end)
    || (a.start == b.start && a.end == b.end && a.startBound.Closed? && b.startBound.Open?)
    || (a.start == b.start && a.end == b.end && a.startBound == b.startBound && a.endBound.Closed? && b.endBound.Open?)
  }

  lemma {:induction false} LessFromIff(a: Box, b: Box, k: nat)
    requires |a| == |b| && k <= |a|
    ensures LessFrom(a, b, k) <==> exists d: nat :: k <= d < |a| && a[k..d] == b[k..d] && SideBefore(a[d], b[d])
    decreases |a| - k
  {
    if k < |a| {
      LessFromIff(a, b, k + 1);
      if LessFrom(a, b, k) && a[k] == b[k] {
        var d: nat :| k + 1 <= d < |a| && a[k + 1..d] == b[k + 1..d] && SideBefore(a[d], b[d]);
        assert a[k..d] == [a[k]] + a[k + 1..d] && b[k..d] == [b[k]] + b[k + 1..d];
      } else if LessFrom(a, b, k) {
        assert a[k..k] == b[k..k];
      }
      if d: nat :| k <= d < |a| && a[k..d] == b[k..d] && SideBefore(a[d], b[d]) {
        if d > k {
          assert a[k..d][0] == b[k..d][0];
          assert a[k + 1..d] == a[k..d][1..] && b[k + 1..d] == b[k..d][1..];
        }
      }
    }
  }

  /** A box comes before another exactly when its side does on the first axis on which they differ. */
  lemma LessIff(a: Box, b: Box)
    requires |a| == |b|
    ensures Less(a, b) <==> exists d: nat :: d < |a| && a[..d] == b[..d] && SideBefore(a[d], b[d])
  {
    LessFromIff(a, b, 0);
    assert forall d: nat :: d < |a| ==> a[0..d] == a[..d] && b[0..d] == b[..d];
  }

  lemma LessIsTransitive(a: Box, b: Box, c: Box)
    requires Less(a, b) && Less(b, c)
    ensures Less(a, c)
  {
    LessFromIsTransitive(a, b, c, 0);
  }
}
