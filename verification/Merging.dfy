/** space/canonical.go: merging two boxes, and the greedy fixpoint MergeAdjacent promises. */
module Merging {
  import opened Line
  import opened Runs
  import opened Boxes
  import opened Covers

  // ----- singleDiffAxis and mergePair -----

  predicate SameCorners(a: Interval, b: Interval) {
    a.start == b.start && a.end == b.end
  }

  /** singleDiffAxis from axis `k` on, with the differing axis found so far. */
  function DiffFrom(a: Box, b: Box, k: nat, diff: Option<nat>): Option<nat>
    requires |a| == |b| && k <= |a|
    decreases |a| - k
  {
    if k == |a| then diff
    else if SameCorners(a[k], b[k]) then
      if a[k].startBound != b[k].startBound || a[k].endBound != b[k].endBound then None
      else DiffFrom(a, b, k + 1, diff)
    else if diff.Some? then None
    else DiffFrom(a, b, k + 1, Some(k))
  }

  method SingleDiffAxis(a: Box, b: Box) returns (diff: Option<nat>)
    requires |a| == |b|
    ensures diff == DiffFrom(a, b, 0, None) && (diff.Some? ==> diff.value < |a|)
    ensures forall d: nat :: diff == Some(d) <==> DifferOnly(a, b, d)
  {
    DiffFromInRange(a, b, 0, None);
    forall d: nat
      ensures DiffFrom(a, b, 0, None) == Some(d) <==> DifferOnly(a, b, d)
    {
      if d < |a| { DiffFromIsOnly(a, b, 0, None, d); }
    }
    diff := None;
    for d := 0 to |a|
      invariant DiffFrom(a, b, d, diff) == DiffFrom(a, b, 0, None)
    {
      if SameCorners(a[d], b[d]) {
        if a[d].startBound != b[d].startBound || a[d].endBound != b[d].endBound { return None; }
      } else {
        if diff.Some? { return None; }
        diff := Some(d);
      }
    }
  }

  /** The boxes differ in their corners on axis `d` and agree, faces included, on every other. */
  ghost predicate DifferOnly(a: Box, b: Box, d: nat) {
    && |a| == |b| && d < |a| && !SameCorners(a[d], b[d])
    && forall i :: 0 <= i < |a| && i != d ==> a[i] == b[i]
  }

  lemma {:induction false} DiffFromIsOnly(a: Box, b: Box, k: nat, diff: Option<nat>, d: nat)
    requires |a| == |b| && k <= |a| && d < |a|
    requires diff.Some? ==> diff.value < k && !SameCorners(a[diff.value], b[diff.value])
    requires forall i :: 0 <= i < k && diff != Some(i) ==> a[i] == b[i]
    ensures DiffFrom(a, b, k, diff) == Some(d) <==> DifferOnly(a, b, d)
    decreases |a| - k
  {
    if k < |a| {
      if SameCorners(a[k], b[k]) {
        if a[k] == b[k] { DiffFromIsOnly(a, b, k + 1, diff, d); }
      } else if diff.None? {
        DiffFromIsOnly(a, b, k + 1, Some(k), d);
      }
    }
  }

  lemma {:induction false} DiffFromInRange(a: Box, b: Box, k: nat, diff: Option<nat>)
    requires |a| == |b| && k <= |a| && (diff.Some? ==> diff.value < |a|)
    ensures DiffFrom(a, b, k, diff).Some? ==> DiffFrom(a, b, k, diff).value < |a|
    decreases |a| - k
  {
    if k < |a| {
      DiffFromInRange(a, b, k + 1, diff);
      DiffFromInRange(a, b, k + 1, Some(k));
    }
  }

  /** The box from the lower corner of `lo` to the upper corner of `hi`. */
  function Join(lo: Box, hi: Box): (m: Box)
    requires |lo| == |hi|
    ensures |m| == |lo|
    ensures forall i :: 0 <= i < |m| ==>
      m[i] == Interval(lo[i].start, hi[i].end, lo[i].startBound, hi[i].endBound)
  {
    seq(|lo|, i requires 0 <= i < |lo| => Interval(lo[i].start, hi[i].end, lo[i].startBound, hi[i].endBound))
  }

  function MergePair(a: Box, b: Box): Option<Box> {
    if |a| != |b| then None
    else
      DiffFromInRange(a, b, 0, None);
      match DiffFrom(a, b, 0, None)
      case None => None
      case Some(d) =>
        if b[d].end == a[d].start then MergeOrdered(b, a, d)
        else if a[d].end != b[d].start then None
        else MergeOrdered(a, b, d)
  }

  /** The shared face becomes interior, so at least one side has to include it. */
  function MergeOrdered(lo: Box, hi: Box, d: nat): Option<Box>
    requires |lo| == |hi| && d < |lo|
  {
    if lo[d].endBound.Open? && hi[d].startBound.Open? then None else Some(Join(lo, hi))
  }

  predicate Mergeable(a: Box, b: Box) {
    MergePair(a, b).Some?
  }

  /** `lo` ends on axis `d` where `hi` starts, one of them includes the face, and all else agrees. */
  ghost predicate Abuts(lo: Box, hi: Box, d: nat) {
    && DifferOnly(lo, hi, d) && lo[d].end == hi[d].start
    && !(lo[d].endBound.Open? && hi[d].startBound.Open?)
  }

  lemma MergeMeansAbuts(a: Box, b: Box) returns (d: nat)
    requires Mergeable(a, b)
    ensures |a| == |b| && d < |a|
    ensures (Abuts(a, b, d) && MergePair(a, b).value == Join(a, b))
         || (Abuts(b, a, d) && MergePair(a, b).value == Join(b, a))
  {
    DiffFromInRange(a, b, 0, None);
    d := DiffFrom(a, b, 0, None).value;
    DiffFromIsOnly(a, b, 0, None, d);
  }

  lemma AbutsMeansMerge(lo: Box, hi: Box, d: nat)
    requires Abuts(lo, hi, d) && !Hollow(lo) && !Hollow(hi)
    ensures MergePair(lo, hi) == Some(Join(lo, hi)) && MergePair(hi, lo) == Some(Join(lo, hi))
  {
    DiffFromIsOnly(lo, hi, 0, None, d);
    DiffFromIsOnly(hi, lo, 0, None, d);
    assert !Empty(lo[d]) && !Empty(hi[d]);
  }

  /** Which box comes first does not matter. */
  lemma MergeIsSymmetric(a: Box, b: Box)
    requires !Hollow(a) && !Hollow(b)
    ensures MergePair(a, b) == MergePair(b, a)
  {
    if Mergeable(a, b) {
      var d := MergeMeansAbuts(a, b);
      if Abuts(a, b, d) { AbutsMeansMerge(a, b, d); } else { AbutsMeansMerge(b, a, d); }
    } else if Mergeable(b, a) {
      var d := MergeMeansAbuts(b, a);
      if Abuts(a, b, d) { AbutsMeansMerge(a, b, d); } else { AbutsMeansMerge(b, a, d); }
    }
  }

  lemma JoinIsUnion(lo: Box, hi: Box, d: nat, x: Point)
    requires Abuts(lo, hi, d) && !Hollow(lo) && !Hollow(hi)
    ensures Inside(Join(lo, hi), x) <==> Inside(lo, x) || Inside(hi, x)
  {
    var m := Join(lo, hi);
    assert forall i :: 0 <= i < |m| && i != d ==> m[i] == lo[i] == hi[i];
    assert !Empty(lo[d]) && !Empty(hi[d]);
    if |x| == |m| {
      assert Contains(m[d], x[d]) <==> Contains(lo[d], x[d]) || Contains(hi[d], x[d]);
    }
  }

  lemma JoinCovers(lo: Box, hi: Box, d: nat)
    requires Abuts(lo, hi, d) && !Hollow(lo) && !Hollow(hi)
    ensures Sub(Join(lo, hi), lo) && Sub(Join(lo, hi), hi) && !Hollow(Join(lo, hi))
  {
    var m := Join(lo, hi);
    assert !Empty(lo[d]) && !Empty(hi[d]);
    forall i | 0 <= i < |m|
      ensures SpanWithin(m[i], lo[i]) && SpanWithin(m[i], hi[i]) && !Empty(m[i])
    {
      assert i == d || m[i] == lo[i] == hi[i];
      assert !Empty(lo[i]);
    }
  }

  /** A merged box covers exactly the points of its two halves. */
  lemma MergeIsUnion(a: Box, b: Box)
    requires Mergeable(a, b) && !Hollow(a) && !Hollow(b)
    ensures |a| == |b| && var m := MergePair(a, b).value;
      && |m| == |a| && !Hollow(m) && Sub(m, a) && Sub(m, b)
      && forall x :: Inside(m, x) <==> Inside(a, x) || Inside(b, x)
  {
    var d := MergeMeansAbuts(a, b);
    var lo, hi := if Abuts(a, b, d) && MergePair(a, b).value == Join(a, b) then a else b,
                  if Abuts(a, b, d) && MergePair(a, b).value == Join(a, b) then b else a;
    JoinCovers(lo, hi, d);
    forall x
      ensures Inside(Join(lo, hi), x) <==> Inside(lo, x) || Inside(hi, x)
    {
      JoinIsUnion(lo, hi, d, x);
    }
  }

  /** The spans of a box on all axes but one. */
  function CrossSection(b: Box, d: nat): Box
    requires d < |b|
  {
    b[..d] + b[d + 1..]
  }

  /** Boxes that can merge share a cross-section on some axis. */
  lemma MergeableShareCrossSection(a: Box, b: Box) returns (d: nat)
    requires Mergeable(a, b)
    ensures |a| == |b| && d < |a| && CrossSection(a, d) == CrossSection(b, d)
  {
    d := MergeMeansAbuts(a, b);
    assert a[..d] == b[..d] && a[d + 1..] == b[d + 1..];
  }

  // ----- the greedy fixpoint on sets of boxes -----

  /** A subsumption-free set of boxes of dimension `n`, each with a point. */
  ghost predicate Cover(C: set<Box>, n: nat) {
    Proper(C, n) && Antichain(C)
  }

  predicate PairLess(a: Box, b: Box, c: Box, d: Box) {
    Less(a, c) || (a == c && Less(b, d))
  }

  ghost predicate IsPair(C: set<Box>, a: Box, b: Box) {
    a in C && b in C && Less(a, b) && Mergeable(a, b)
  }

  /** The first mergeable pair in canonical order. */
  ghost predicate IsFirst(C: set<Box>, a: Box, b: Box) {
    IsPair(C, a, b) && forall c, d :: IsPair(C, c, d) ==> (c == a && d == b) || PairLess(a, b, c, d)
  }

  ghost predicate Stuck(C: set<Box>) {
    forall a, b :: !IsPair(C, a, b)
  }

  /** The cover after merging a pair: the union replaces the pair and every box it covers. */
  ghost function Merged(C: set<Box>, a: Box, b: Box): set<Box>
    requires Mergeable(a, b)
  {
    (set c | c in C && c != a && c != b && !Sub(MergePair(a, b).value, c)) + {MergePair(a, b).value}
  }

  /** Every merge strictly shrinks the cover. */
  lemma MergedShrinks(C: set<Box>, a: Box, b: Box)
    requires Mergeable(a, b) && a in C && b in C && a != b
    ensures |Merged(C, a, b)| < |C|
  {
    var rest := set c | c in C && c != a && c != b && !Sub(MergePair(a, b).value, c);
    assert rest <= C - {a, b};
    SubsetCardinality(rest, C - {a, b});
    assert |C - {a, b}| == |C| - 2;
  }

  lemma {:induction false} SubsetCardinality<T>(s: set<T>, t: set<T>)
    requires s <= t
    ensures |s| <= |t|
    decreases s
  {
    if s != {} {
      var x :| x in s;
      SubsetCardinality(s - {x}, t - {x});
    }
  }

  lemma LessIsIrreflexive(a: Box, b: Box)
    requires Less(a, b)
    ensures a != b
  {
    LessIsTotal(a, b);
  }

  /** Merge the first mergeable pair, absorb what the union covers, repeat. */
  ghost function Greedy(C: set<Box>): set<Box>
    decreases |C|
  {
    if exists a, b :: IsFirst(C, a, b) then
      var a, b :| IsFirst(C, a, b);
      LessIsIrreflexive(a, b);
      MergedShrinks(C, a, b);
      Greedy(Merged(C, a, b))
    else C
  }

  lemma FirstIsUnique(C: set<Box>, a: Box, b: Box, c: Box, d: Box)
    requires IsFirst(C, a, b) && IsFirst(C, c, d)
    ensures a == c && b == d
  {
    if !(a == c && b == d) {
      assert PairLess(a, b, c, d) && PairLess(c, d, a, b);
      LessIsTotal(a, c);
      LessIsTotal(b, d);
    }
  }

  /** Taking the first pair is a step of the greedy. */
  lemma GreedyStep(C: set<Box>, a: Box, b: Box)
    requires IsFirst(C, a, b)
    ensures Greedy(C) == Greedy(Merged(C, a, b))
  {
    var c, d :| IsFirst(C, c, d) && (LessIsIrreflexive(c, d); MergedShrinks(C, c, d); Greedy(C) == Greedy(Merged(C, c, d)));
    FirstIsUnique(C, a, b, c, d);
  }

  lemma GreedyStops(C: set<Box>)
    requires Stuck(C)
    ensures Greedy(C) == C
  {
  }

  // ----- what the greedy keeps and where it ends -----

  lemma PairLessIsTotal(a: Box, b: Box, c: Box, d: Box)
    requires |a| == |b| == |c| == |d|
    ensures PairLess(a, b, c, d) || PairLess(c, d, a, b) || (a == c && b == d)
  {
    LessIsTotal(a, c);
    LessIsTotal(b, d);
  }

  lemma PairLessIsTransitive(a: Box, b: Box, c: Box, d: Box, e: Box, f: Box)
    requires PairLess(a, b, c, d) && PairLess(c, d, e, f)
    ensures PairLess(a, b, e, f)
  {
    if Less(a, c) && Less(c, e) { LessIsTransitive(a, c, e); }
    if Less(b, d) && Less(d, f) { LessIsTransitive(b, d, f); }
  }

  /** A nonempty finite set of pairs has a least one. */
  lemma {:induction false} LeastPair(P: set<(Box, Box)>, n: nat) returns (p: (Box, Box))
    requires P != {} && forall q :: q in P ==> |q.0| == n && |q.1| == n
    ensures p in P && forall q :: q in P && q != p ==> PairLess(p.0, p.1, q.0, q.1)
    decreases P
  {
    p :| p in P;
    var rest := P - {p};
    assert P == rest + {p};
    if rest != {} {
      var m := LeastPair(rest, n);
      PairLessIsTotal(p.0, p.1, m.0, m.1);
      if PairLess(m.0, m.1, p.0, p.1) {
        p := m;
      } else {
        forall q | q in P && q != p
          ensures PairLess(p.0, p.1, q.0, q.1)
        {
          if q != m { PairLessIsTransitive(p.0, p.1, m.0, m.1, q.0, q.1); }
        }
      }
    }
  }

  /** A cover that is not stuck has a first mergeable pair. */
  lemma FirstExists(C: set<Box>, n: nat) returns (a: Box, b: Box)
    requires Proper(C, n) && !Stuck(C)
    ensures IsFirst(C, a, b)
  {
    var P := set c, d | c in C && d in C && IsPair(C, c, d) :: (c, d);
    var c, d :| IsPair(C, c, d);
    assert (c, d) in P;
    var p := LeastPair(P, n);
    a, b := p.0, p.1;
    forall c, d | IsPair(C, c, d)
      ensures (c == a && d == b) || PairLess(a, b, c, d)
    {
      assert (c, d) in P;
    }
  }

  /** No other box of the cover covers the union: it would have covered a half. */
  lemma UnionSurvives(C: set<Box>, a: Box, b: Box, n: nat)
    requires Antichain(C) && a in C && b in C && a != b && Mergeable(a, b) && !Hollow(a) && !Hollow(b)
    ensures forall c :: c in C - {a} - {b} ==> !Sub(c, MergePair(a, b).value)
    ensures |MergePair(a, b).value| == |a| && !Hollow(MergePair(a, b).value)
  {
    MergeIsUnion(a, b);
    forall c | c in C - {a} - {b}
      ensures !Sub(c, MergePair(a, b).value)
    {
      if Sub(c, MergePair(a, b).value) { SubIsTransitive(c, MergePair(a, b).value, a); }
    }
  }

  /** A merge keeps the cover subsumption-free: a box covering the union would have covered its halves. */
  lemma MergedIsCover(C: set<Box>, a: Box, b: Box, n: nat)
    requires Cover(C, n) && a in C && b in C && a != b && Mergeable(a, b)
    ensures Cover(Merged(C, a, b), n)
  {
    MergeIsUnion(a, b);
    var m := MergePair(a, b).value;
    forall c | c in C && c != a && c != b
      ensures !Sub(c, m)
    {
      if Sub(c, m) { SubIsTransitive(c, m, a); }
    }
  }

  lemma MergedKeepsPoints(C: set<Box>, a: Box, b: Box, n: nat, x: Point)
    requires Cover(C, n) && a in C && b in C && a != b && Mergeable(a, b)
    ensures InSet(Merged(C, a, b), x) <==> InSet(C, x)
  {
    MergeIsUnion(a, b);
    var m := MergePair(a, b).value;
    assert m in Merged(C, a, b);
    if InSet(C, x) {
      var c :| c in C && Inside(c, x);
      if c != a && c != b && !Sub(m, c) {
        assert c in Merged(C, a, b);
      } else {
        assert Inside(m, x);
      }
    }
    if InSet(Merged(C, a, b), x) {
      var c :| c in Merged(C, a, b) && Inside(c, x);
      if c == m { assert Inside(a, x) || Inside(b, x); }
    }
  }

  /** The greedy ends in a subsumption-free cover of the same points in which no pair is mergeable. */
  lemma {:induction false} GreedyIsFixpoint(C: set<Box>, n: nat)
    requires Cover(C, n)
    ensures Cover(Greedy(C), n) && Stuck(Greedy(C)) && |Greedy(C)| <= |C|
    ensures forall x :: InSet(Greedy(C), x) <==> InSet(C, x)
    decreases |C|
  {
    if Stuck(C) {
      GreedyStops(C);
    } else {
      var a, b := FirstExists(C, n);
      LessIsIrreflexive(a, b);
      GreedyStep(C, a, b);
      MergedShrinks(C, a, b);
      MergedIsCover(C, a, b, n);
      GreedyIsFixpoint(Merged(C, a, b), n);
      forall x
        ensures InSet(Greedy(C), x) <==> InSet(C, x)
      {
        MergedKeepsPoints(C, a, b, n, x);
      }
    }
  }

  /** Merging an already merged cover changes nothing. */
  lemma GreedyIsIdempotent(C: set<Box>, n: nat)
    requires Cover(C, n)
    ensures Greedy(Maxima(Greedy(C))) == Greedy(C)
  {
    GreedyIsFixpoint(C, n);
    MaximaOfAntichain(Greedy(C));
    GreedyStops(Greedy(C));
  }
}
