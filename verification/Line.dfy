/** The doubled real line of interval/sweep.go, and intervals with per-side inclusivity. */
module Line {

  datatype Bound = Closed | Open

  /** A contiguous range of reals; each endpoint is included (Closed) or excluded (Open). */
  datatype Interval = Interval(start: real, end: real, startBound: Bound, endBound: Bound)

  /** A point of the doubled line: the coordinate `x` itself, or the point just past it. */
  datatype Fine = Fine(x: real, past: bool)

  predicate Lt(a: Fine, b: Fine) {
    a.x < b.x || (a.x == b.x && !a.past && b.past)
  }

  predicate Le(a: Fine, b: Fine) {
    !Lt(b, a)
  }

  function Max(a: Fine, b: Fine): Fine {
    if Lt(a, b) then b else a
  }

  function Min(a: Fine, b: Fine): Fine {
    if Lt(b, a) then b else a
  }

  /** The fine point of a real coordinate. */
  function At(x: real): Fine {
    Fine(x, false)
  }

  function Lo(iv: Interval): Fine {
    Fine(iv.start, iv.startBound.Open?)
  }

  function Hi(iv: Interval): Fine {
    Fine(iv.end, iv.endBound.Closed?)
  }

  /** The interval whose fine span is [lo, hi). */
  function FromFine(lo: Fine, hi: Fine): (iv: Interval)
    ensures Lo(iv) == lo && Hi(iv) == hi
  {
    Interval(lo.x, hi.x, if lo.past then Open else Closed, if hi.past then Closed else Open)
  }

  /** Whether the fine point lies in the half-open fine span of the interval. */
  predicate Holds(iv: Interval, p: Fine) {
    Le(Lo(iv), p) && Lt(p, Hi(iv))
  }

  predicate Contains(iv: Interval, x: real) {
    if x < iv.start || x > iv.end then false
    else if x == iv.start && iv.startBound.Open? then false
    else if x == iv.end && iv.endBound.Open? then false
    else true
  }

  predicate Empty(iv: Interval) {
    iv.start > iv.end || (iv.start == iv.end && (iv.startBound.Open? || iv.endBound.Open?))
  }

  function Invert(b: Bound): Bound {
    if b.Closed? then Open else Closed
  }

  /** Density: a nonempty span of fine points contains a real point. */
  lemma RealBetween(a: Fine, b: Fine) returns (x: real)
    requires Lt(a, b)
    ensures Le(a, At(x)) && Lt(At(x), b)
  {
    x := if a.past then (a.x + b.x) / 2.0 else a.x;
  }

  /** The fine span of an interval holds exactly the fine points of its real points. */
  lemma ContainsIsHolds(iv: Interval, x: real)
    ensures Contains(iv, x) <==> Holds(iv, At(x))
  {
  }

  /** An interval is empty exactly when no real point belongs to it. */
  lemma EmptyMeansNoPoint(iv: Interval)
    ensures Empty(iv) <==> Le(Hi(iv), Lo(iv))
    ensures Empty(iv) <==> forall x :: !Contains(iv, x)
  {
    if !Empty(iv) {
      var x := RealBetween(Lo(iv), Hi(iv));
      assert Contains(iv, x);
    }
  }
}
