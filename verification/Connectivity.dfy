/** space/components.go: connected boxes, chains of them, and the roots that comparing every pair leaves. */
module Connectivity {
  import opened Line
  import opened Boxes

  // ----- connected boxes -----

  /** The boxes overlap with positive measure in every dimension other than `d`. */
  predicate TouchAlongFace(a: Box, b: Box, d: nat)
    requires |a| == |b|
  {
    forall k :: 0 <= k < |a| && k != d ==> a[k].end > b[k].start && b[k].end > a[k].start
  }

  predicate Connected(a: Box, b: Box) {
    |a| == |b| && (Overlaps(a, b) || exists d :: 0 <= d < |a| && Meet(a, b, d))
  }

  predicate Meet(a: Box, b: Box, d: nat)
    requires |a| == |b| && d < |a|
  {
    (a[d].end == b[d].start || b[d].end == a[d].start) && TouchAlongFace(a, b, d)
  }

  lemma ConnectedIsSymmetric(a: Box, b: Box)
    requires Connected(a, b)
    ensures Connected(b, a)
  {
    OverlapsIsSymmetric(a, b);
    if !Overlaps(a, b) {
      var d :| 0 <= d < |a| && Meet(a, b, d);
      assert Meet(b, a, d);
    }
  }

  // ----- what connected means -----

  ghost predicate ShareOnePoint(a: Box, b: Box) {
    exists p :: Inside(a, p) && Inside(b, p)
  }

  /** The sides have an open stretch of the line in common. */
  ghost predicate ShareStretch(a: Interval, b: Interval) {
    exists lo: real, hi: real :: IsStretch(a, b, lo, hi)
  }

  ghost predicate IsStretch(a: Interval, b: Interval, lo: real, hi: real) {
    lo < hi && forall x :: lo < x < hi ==> Contains(a, x) && Contains(b, x)
  }

  /** The first side is a single point, strictly between the ends of the second. */
  ghost predicate PointWithin(a: Interval, b: Interval) {
    a.start == a.end && b.start < a.start < b.end
  }

  /** One side ends where the other starts. */
  ghost predicate EndsMeet(a: Interval, b: Interval) {
    a.end == b.start || b.end == a.start
  }

  /** The boxes touch along a face on axis `d`: there their ends meet, and on every other axis they share a stretch. */
  ghost predicate ShareFace(a: Box, b: Box, d: nat)
    requires |a| == |b|
  {
    d < |a| && EndsMeet(a[d], b[d]) && forall k :: 0 <= k < |a| && k != d ==> ShareStretch(a[k], b[k])
  }

  /** The same, except that a side may be a single point within the other. */
  ghost predicate ShareThinFace(a: Box, b: Box, d: nat)
    requires |a| == |b|
  {
    && d < |a| && EndsMeet(a[d], b[d])
    && forall k :: 0 <= k < |a| && k != d ==>
      ShareStretch(a[k], b[k]) || PointWithin(a[k], b[k]) || PointWithin(b[k], a[k])
  }

  lemma StretchIff(a: Interval, b: Interval)
    requires !Empty(a) && !Empty(b)
    ensures ShareStretch(a, b) <==> a.end > b.start && b.end > a.start && a.start < a.end && b.start < b.end
  {
    if a.end > b.start && b.end > a.start && a.start < a.end && b.start < b.end {
      var lo, hi := if a.start < b.start then b.start else a.start, if a.end < b.end then a.end else b.end;
      assert IsStretch(a, b, lo, hi);
    }
    if ShareStretch(a, b) {
      var lo, hi :| IsStretch(a, b, lo, hi);
      var x, y := (2.0 * lo + hi) / 3.0, (lo + 2.0 * hi) / 3.0;
      assert lo < x < y < hi;
      assert Contains(a, x) && Contains(b, x) && Contains(a, y) && Contains(b, y);
    }
  }

  lemma MeetIff(a: Box, b: Box, d: nat)
    requires |a| == |b| && d < |a| && !Hollow(a) && !Hollow(b)
    ensures Meet(a, b, d) <==> ShareThinFace(a, b, d)
    ensures ShareFace(a, b, d) <==> Meet(a, b, d) && NoThinSide(a, b, d)
  {
    forall k | 0 <= k < |a|
      ensures ShareStretch(a[k], b[k])
         <==> a[k].end > b[k].start && b[k].end > a[k].start && a[k].start < a[k].end && b[k].start < b[k].end
    {
      StretchIff(a[k], b[k]);
    }
  }

  /** Away from axis `d` no side is a single point. */
  ghost predicate NoThinSide(a: Box, b: Box, d: nat)
    requires |a| == |b|
  {
    forall k :: 0 <= k < |a| && k != d ==> a[k].start < a[k].end && b[k].start < b[k].end
  }

  /** Boxes are connected exactly when they share a point or touch along a face, which may be thin. */
  lemma ConnectedIff(a: Box, b: Box)
    requires |a| == |b| && !Hollow(a) && !Hollow(b)
    ensures Connected(a, b) <==> ShareOnePoint(a, b) || exists d: nat :: ShareThinFace(a, b, d)
  {
    OverlapsMeansShared(a, b);
    forall d: nat | d < |a|
      ensures Meet(a, b, d) <==> ShareThinFace(a, b, d)
    {
      MeetIff(a, b, d);
    }
  }

  /**
   * Connected boxes share a point or touch along a face of positive measure if and only if they share a
   * point or, on some axis where their ends meet and they touch, no side on another axis is a single point.
   */
  lemma ConnectedIsPromisedIff(a: Box, b: Box)
    requires |a| == |b| && !Hollow(a) && !Hollow(b) && Connected(a, b)
    ensures ShareOnePoint(a, b) || (exists d: nat :: ShareFace(a, b, d)) <==>
      ShareOnePoint(a, b) || exists d: nat :: d < |a| && Meet(a, b, d) && NoThinSide(a, b, d)
  {
    forall d: nat | d < |a|
      ensures ShareFace(a, b, d) <==> Meet(a, b, d) && NoThinSide(a, b, d)
    {
      MeetIff(a, b, d);
    }
  }

  /** Boxes without a thin side are connected exactly when they share a point or touch along a face. */
  lemma ThickConnectedIff(a: Box, b: Box)
    requires |a| == |b| && forall k :: 0 <= k < |a| ==> a[k].start < a[k].end && b[k].start < b[k].end
    ensures Connected(a, b) <==> ShareOnePoint(a, b) || exists d: nat :: ShareFace(a, b, d)
  {
    OverlapsMeansShared(a, b);
    forall d: nat | d < |a|
      ensures Meet(a, b, d) <==> ShareFace(a, b, d)
    {
      MeetIff(a, b, d);
    }
  }

  /** A thin box that touches another in a single point of its border is connected to it. */
  lemma ThinBoxIsConnected()
    ensures var a := [Interval(2.0, 2.0, Closed, Closed), Interval(0.0, 1.0, Closed, Open)];
      var b := [Interval(1.0, 3.0, Closed, Open), Interval(1.0, 2.0, Closed, Open)];
      !Hollow(a) && !Hollow(b) && Connected(a, b) && !ShareOnePoint(a, b) && forall d: nat :: !ShareFace(a, b, d)
  {
    var a := [Interval(2.0, 2.0, Closed, Closed), Interval(0.0, 1.0, Closed, Open)];
    var b := [Interval(1.0, 3.0, Closed, Open), Interval(1.0, 2.0, Closed, Open)];
    assert Meet(a, b, 1);
    assert !SpanOverlap(a[1], b[1]);
    OverlapsMeansShared(a, b);
    forall d: nat | d < 2
      ensures !ShareFace(a, b, d)
    {
      MeetIff(a, b, d);
      assert d == 1 ==> a[0].start == a[0].end;
    }
  }

  // ----- chains -----

  /** A chain of boxes of the list, each connected to the next. */
  ghost predicate IsChain(boxes: seq<Box>, path: seq<nat>) {
    && |path| > 0 && (forall k :: 0 <= k < |path| ==> path[k] < |boxes|)
    && forall k :: 0 < k < |path| ==> Connected(boxes[path[k - 1]], boxes[path[k]])
  }

  ghost predicate Chained(boxes: seq<Box>, p: nat, q: nat) {
    exists path :: IsChain(boxes, path) && path[0] == p && path[|path| - 1] == q
  }

  /** The pair (p, q), p < q, is compared before the pair (i, j). */
  predicate Compared(p: nat, q: nat, i: nat, j: nat) {
    p < i || (p == i && q < j)
  }

  /** The same for a pair in either order. */
  predicate Met(p: nat, q: nat, i: nat, j: nat) {
    p == q || (if p < q then Compared(p, q, i, j) else Compared(q, p, i, j))
  }

  /** A chain of pairs compared before (i, j). */
  ghost predicate IsEarlyChain(boxes: seq<Box>, path: seq<nat>, i: nat, j: nat) {
    IsChain(boxes, path) && forall k :: 0 < k < |path| ==> Met(path[k - 1], path[k], i, j)
  }

  ghost predicate EarlyChained(boxes: seq<Box>, i: nat, j: nat, p: nat, q: nat) {
    exists path :: IsEarlyChain(boxes, path, i, j) && path[0] == p && path[|path| - 1] == q
  }

  lemma ChainsJoin(boxes: seq<Box>, i: nat, j: nat, p: nat, a: nat, b: nat, q: nat)
    requires EarlyChained(boxes, i, j, p, a) && EarlyChained(boxes, i, j, b, q)
    requires a < |boxes| && b < |boxes| && Connected(boxes[a], boxes[b]) && Met(a, b, i, j)
    ensures EarlyChained(boxes, i, j, p, q)
  {
    var s :| IsEarlyChain(boxes, s, i, j) && s[0] == p && s[|s| - 1] == a;
    var t :| IsEarlyChain(boxes, t, i, j) && t[0] == b && t[|t| - 1] == q;
    var path := s + t;
    forall k | 0 < k < |path|
      ensures Connected(boxes[path[k - 1]], boxes[path[k]]) && Met(path[k - 1], path[k], i, j)
    {
      if k > |s| { assert path[k - 1] == t[k - 1 - |s|] && path[k] == t[k - |s|]; }
    }
    assert IsEarlyChain(boxes, path, i, j) && path[0] == p && path[|path| - 1] == q;
  }

  lemma ChainOfOne(boxes: seq<Box>, i: nat, j: nat, p: nat)
    requires p < |boxes|
    ensures EarlyChained(boxes, i, j, p, p)
  {
    assert IsEarlyChain(boxes, [p], i, j);
  }

  /** Every connected pair compared before (i, j) is compared before (i', j'). */
  ghost predicate NoLater(boxes: seq<Box>, i: nat, j: nat, i': nat, j': nat) {
    forall p: nat, q: nat :: p < q < |boxes| && Connected(boxes[p], boxes[q]) && Compared(p, q, i, j) ==> Compared(p, q, i', j')
  }

  lemma ChainLasts(boxes: seq<Box>, i: nat, j: nat, i': nat, j': nat, p: nat, q: nat)
    requires NoLater(boxes, i, j, i', j') && EarlyChained(boxes, i, j, p, q)
    ensures EarlyChained(boxes, i', j', p, q)
  {
    var path :| IsEarlyChain(boxes, path, i, j) && path[0] == p && path[|path| - 1] == q;
    forall k | 0 < k < |path|
      ensures Met(path[k - 1], path[k], i', j')
    {
      ConnectedIsSymmetric(boxes[path[k - 1]], boxes[path[k]]);
    }
    assert IsEarlyChain(boxes, path, i', j');
  }

  // ----- the roots of the trees -----

  ghost function JoinedRoots(root: seq<nat>, ra: nat, rb: nat): (joined: seq<nat>)
    ensures |joined| == |root|
  {
    seq(|root|, i requires 0 <= i < |root| => if root[i] == rb then ra else root[i])
  }

  /** The root of every box once the pairs before (i, j) are compared, the first box of a pair keeping its root. */
  ghost function RootsTo(boxes: seq<Box>, i: nat, j: nat): (root: seq<nat>)
    requires i <= |boxes| && j <= |boxes|
    ensures |root| == |boxes|
    decreases i, j
  {
    if i < |boxes| && i + 1 < j then
      var root := RootsTo(boxes, i, j - 1);
      if Connected(boxes[i], boxes[j - 1]) then JoinedRoots(root, root[i], root[j - 1]) else root
    else if i == 0 then seq(|boxes|, k => k)
    else RootsTo(boxes, i - 1, |boxes|)
  }

  /** The root of every box once all pairs are compared. */
  ghost function RootOf(boxes: seq<Box>): (root: seq<nat>)
    ensures |root| == |boxes|
  {
    RootsTo(boxes, |boxes|, 0)
  }

  /** Trees hold chained boxes only, and the connected pairs compared so far are in one tree. */
  ghost predicate Joins(boxes: seq<Box>, root: seq<nat>, i: nat, j: nat) {
    |root| == |boxes| && forall p: nat, q: nat :: p < |root| && q < |root| ==> JoinsPair(boxes, root, i, j, p, q)
  }

  ghost predicate JoinsPair(boxes: seq<Box>, root: seq<nat>, i: nat, j: nat, p: nat, q: nat)
    requires |root| == |boxes| && p < |root| && q < |root|
  {
    && (root[p] == root[q] ==> EarlyChained(boxes, i, j, p, q))
    && (p < q && Compared(p, q, i, j) && Connected(boxes[p], boxes[q]) ==> root[p] == root[q])
  }

  /** Following roots ends after one step. */
  ghost predicate Settled(root: seq<nat>) {
    forall p: nat :: p < |root| ==> SettledAt(root, p)
  }

  ghost predicate SettledAt(root: seq<nat>, p: nat)
    requires p < |root|
  {
    root[p] < |root| && root[root[p]] == root[p]
  }

  lemma {:induction false} ChainStaysInTree(boxes: seq<Box>, root: seq<nat>, i: nat, j: nat, path: seq<nat>, k: nat)
    requires Joins(boxes, root, i, j) && IsEarlyChain(boxes, path, i, j) && k < |path|
    ensures root[path[0]] == root[path[k]]
  {
    if k > 0 {
      ChainStaysInTree(boxes, root, i, j, path, k - 1);
      var p, q := path[k - 1], path[k];
      assert Connected(boxes[p], boxes[q]) && Met(p, q, i, j);
      ConnectedIsSymmetric(boxes[p], boxes[q]);
      assert JoinsPair(boxes, root, i, j, p, q) && JoinsPair(boxes, root, i, j, q, p);
    }
  }

  /** At every moment two boxes are in one tree exactly when a chain of compared pairs joins them. */
  lemma TreesAreChains(boxes: seq<Box>, root: seq<nat>, i: nat, j: nat, p: nat, q: nat)
    requires Joins(boxes, root, i, j) && p < |boxes| && q < |boxes|
    ensures root[p] == root[q] <==> EarlyChained(boxes, i, j, p, q)
  {
    assert JoinsPair(boxes, root, i, j, p, q);
    if EarlyChained(boxes, i, j, p, q) {
      var path :| IsEarlyChain(boxes, path, i, j) && path[0] == p && path[|path| - 1] == q;
      ChainStaysInTree(boxes, root, i, j, path, |path| - 1);
    }
  }

  lemma JoinsTransfers(boxes: seq<Box>, root: seq<nat>, i: nat, j: nat, i': nat, j': nat)
    requires Joins(boxes, root, i, j) && NoLater(boxes, i, j, i', j') && NoLater(boxes, i', j', i, j)
    ensures Joins(boxes, root, i', j')
  {
    forall p: nat, q: nat | p < |root| && q < |root|
      ensures JoinsPair(boxes, root, i', j', p, q)
    {
      assert JoinsPair(boxes, root, i, j, p, q);
      if root[p] == root[q] { ChainLasts(boxes, i, j, i', j', p, q); }
    }
  }

  lemma UnionJoins(boxes: seq<Box>, root: seq<nat>, i: nat, j: nat)
    requires Joins(boxes, root, i, j) && i < j < |root| && Connected(boxes[i], boxes[j])
    ensures Joins(boxes, JoinedRoots(root, root[i], root[j]), i, j + 1)
  {
    var next := JoinedRoots(root, root[i], root[j]);
    var j' := j + 1;
    forall p: nat, q: nat | p < |root| && q < |root|
      ensures JoinsPair(boxes, next, i, j', p, q)
    {
      assert JoinsPair(boxes, root, i, j, p, q);
      if next[p] == next[q] { UnionChains(boxes, root, i, j, p, q); }
    }
  }

  lemma UnionChains(boxes: seq<Box>, root: seq<nat>, i: nat, j: nat, p: nat, q: nat)
    requires Joins(boxes, root, i, j) && i < j < |root| && Connected(boxes[i], boxes[j]) && p < |root| && q < |root|
    requires JoinedRoots(root, root[i], root[j])[p] == JoinedRoots(root, root[i], root[j])[q]
    ensures EarlyChained(boxes, i, j + 1, p, q)
  {
    ConnectedIsSymmetric(boxes[i], boxes[j]);
    assert JoinsPair(boxes, root, i, j, p, q);
    assert JoinsPair(boxes, root, i, j, p, i) && JoinsPair(boxes, root, i, j, p, j);
    assert JoinsPair(boxes, root, i, j, i, q) && JoinsPair(boxes, root, i, j, j, q);
    if root[p] == root[q] {
      ChainLasts(boxes, i, j, i, j + 1, p, q);
    } else if root[p] == root[j] {
      ChainLasts(boxes, i, j, i, j + 1, p, j);
      ChainLasts(boxes, i, j, i, j + 1, i, q);
      ChainsJoin(boxes, i, j + 1, p, j, i, q);
    } else {
      ChainLasts(boxes, i, j, i, j + 1, p, i);
      ChainLasts(boxes, i, j, i, j + 1, j, q);
      ChainsJoin(boxes, i, j + 1, p, i, j, q);
    }
  }

  // ----- which boxes stay roots -----

  /**
   * Comparing (a, b) unseats `r`: the pairs before chain `b` to `r` and not `a`, so the tree of `r` goes
   * under the root of `a`.
   */
  ghost predicate Unseats(boxes: seq<Box>, a: nat, b: nat, r: nat) {
    && a < b < |boxes| && Connected(boxes[a], boxes[b])
    && EarlyChained(boxes, a, b, b, r) && !EarlyChained(boxes, a, b, a, r)
  }

  ghost predicate UnseatedBefore(boxes: seq<Box>, i: nat, j: nat, r: nat) {
    exists a: nat, b: nat :: Unseats(boxes, a, b, r) && Compared(a, b, i, j)
  }

  /** Some pair of the list unseats the box. */
  ghost predicate Unseated(boxes: seq<Box>, r: nat) {
    exists a: nat, b: nat :: Unseats(boxes, a, b, r)
  }

  /** The roots so far are the boxes no compared pair has unseated. */
  ghost predicate Seats(boxes: seq<Box>, root: seq<nat>, i: nat, j: nat)
    requires |root| == |boxes|
  {
    forall r: nat :: r < |boxes| ==> SeatsOne(boxes, root, i, j, r)
  }

  ghost predicate SeatsOne(boxes: seq<Box>, root: seq<nat>, i: nat, j: nat, r: nat)
    requires |root| == |boxes| && r < |root|
  {
    root[r] == r <==> !UnseatedBefore(boxes, i, j, r)
  }

  lemma SeatsTransfer(boxes: seq<Box>, root: seq<nat>, i: nat, j: nat, i': nat, j': nat)
    requires |root| == |boxes| && Seats(boxes, root, i, j)
    requires NoLater(boxes, i, j, i', j') && NoLater(boxes, i', j', i, j)
    ensures Seats(boxes, root, i', j')
  {
    forall r: nat | r < |boxes|
      ensures SeatsOne(boxes, root, i', j', r)
    {
      assert SeatsOne(boxes, root, i, j, r);
      if UnseatedBefore(boxes, i, j, r) {
        var a: nat, b: nat :| Unseats(boxes, a, b, r) && Compared(a, b, i, j);
        assert Compared(a, b, i', j');
      }
      if UnseatedBefore(boxes, i', j', r) {
        var a: nat, b: nat :| Unseats(boxes, a, b, r) && Compared(a, b, i', j');
        assert Compared(a, b, i, j);
      }
    }
  }

  /** Joining the trees of `i` and `j` unseats exactly the root of `j`, unless the trees are one. */
  lemma UnionSeats(boxes: seq<Box>, root: seq<nat>, i: nat, j: nat)
    requires Joins(boxes, root, i, j) && Settled(root) && Seats(boxes, root, i, j)
    requires i < j < |root| && Connected(boxes[i], boxes[j])
    ensures Seats(boxes, JoinedRoots(root, root[i], root[j]), i, j + 1)
  {
    var next := JoinedRoots(root, root[i], root[j]);
    var j' := j + 1;
    forall r: nat | r < |boxes|
      ensures SeatsOne(boxes, next, i, j', r)
    {
      OneUnionSeats(boxes, root, i, j, r);
    }
  }

  lemma OneUnionSeats(boxes: seq<Box>, root: seq<nat>, i: nat, j: nat, r: nat)
    requires Joins(boxes, root, i, j) && Settled(root) && Seats(boxes, root, i, j)
    requires i < j < |root| && Connected(boxes[i], boxes[j]) && r < |boxes|
    ensures JoinedRoots(root, root[i], root[j])[r] == r <==> !UnseatedBefore(boxes, i, j + 1, r)
  {
    TreesAreChains(boxes, root, i, j, j, r);
    TreesAreChains(boxes, root, i, j, i, r);
    assert Unseats(boxes, i, j, r) <==> root[j] == root[r] && root[i] != root[r];
    UnseatedByOneMore(boxes, i, j, r);
    assert SeatsOne(boxes, root, i, j, r);
    assert SettledAt(root, i);
  }

  lemma UnseatedByOneMore(boxes: seq<Box>, i: nat, j: nat, r: nat)
    ensures UnseatedBefore(boxes, i, j + 1, r) <==> UnseatedBefore(boxes, i, j, r) || Unseats(boxes, i, j, r)
  {
    if UnseatedBefore(boxes, i, j + 1, r) {
      var a: nat, b: nat :| Unseats(boxes, a, b, r) && Compared(a, b, i, j + 1);
      assert Compared(a, b, i, j) || (a == i && b == j);
    }
    if UnseatedBefore(boxes, i, j, r) {
      var a: nat, b: nat :| Unseats(boxes, a, b, r) && Compared(a, b, i, j);
      assert Compared(a, b, i, j + 1);
    }
    if Unseats(boxes, i, j, r) { assert Compared(i, j, i, j + 1); }
  }

  lemma JoinedIsSettled(root: seq<nat>, i: nat, j: nat)
    requires Settled(root) && i < |root| && j < |root|
    ensures Settled(JoinedRoots(root, root[i], root[j]))
  {
    var next := JoinedRoots(root, root[i], root[j]);
    forall p: nat | p < |next|
      ensures SettledAt(next, p)
    {
      assert SettledAt(root, p) && SettledAt(root, i) && SettledAt(root, j);
    }
  }

  ghost predicate Follows(boxes: seq<Box>, root: seq<nat>, i: nat, j: nat) {
    Joins(boxes, root, i, j) && Settled(root) && Seats(boxes, root, i, j)
  }

  lemma NothingCompared(boxes: seq<Box>, j: nat)
    requires j <= 1
    ensures Follows(boxes, seq(|boxes|, k => k), 0, j)
  {
    var root := seq(|boxes|, k => k);
    forall p: nat | p < |boxes| ensures EarlyChained(boxes, 0, j, p, p) { ChainOfOne(boxes, 0, j, p); }
    forall p: nat, q: nat | p < |root| && q < |root| ensures JoinsPair(boxes, root, 0, j, p, q) { }
    forall r: nat | r < |root| ensures SeatsOne(boxes, root, 0, j, r) && SettledAt(root, r) { }
  }

  lemma UnionFollows(boxes: seq<Box>, root: seq<nat>, i: nat, j: nat, j': nat)
    requires Follows(boxes, root, i, j) && i < j < |root| && Connected(boxes[i], boxes[j]) && j' == j + 1
    ensures Follows(boxes, JoinedRoots(root, root[i], root[j]), i, j')
  {
    UnionJoins(boxes, root, i, j);
    JoinedIsSettled(root, i, j);
    UnionSeats(boxes, root, i, j);
  }

  lemma FollowsTransfers(boxes: seq<Box>, root: seq<nat>, i: nat, j: nat, i': nat, j': nat)
    requires Follows(boxes, root, i, j) && NoLater(boxes, i, j, i', j') && NoLater(boxes, i', j', i, j)
    ensures Follows(boxes, root, i', j')
  {
    JoinsTransfers(boxes, root, i, j, i', j');
    SeatsTransfer(boxes, root, i, j, i', j');
  }

  /** At every moment of the comparisons the roots tell the chains so far and who has not been unseated. */
  lemma {:induction false} RootsFollow(boxes: seq<Box>, i: nat, j: nat)
    requires i <= |boxes| && j <= |boxes|
    ensures Follows(boxes, RootsTo(boxes, i, j), i, j)
    decreases i, j
  {
    if i < |boxes| && i + 1 < j {
      RootsFollow(boxes, i, j - 1);
      var root := RootsTo(boxes, i, j - 1);
      if Connected(boxes[i], boxes[j - 1]) {
        UnionFollows(boxes, root, i, j - 1, j);
      } else {
        FollowsTransfers(boxes, root, i, j - 1, i, j);
      }
    } else if i == 0 {
      NothingCompared(boxes, j);
    } else {
      RootsFollow(boxes, i - 1, |boxes|);
      FollowsTransfers(boxes, RootsTo(boxes, i - 1, |boxes|), i - 1, |boxes|, i, j);
    }
  }

  // ----- once all pairs are compared -----

  lemma AllCompared(boxes: seq<Box>, p: nat, q: nat)
    ensures EarlyChained(boxes, |boxes|, 0, p, q) <==> Chained(boxes, p, q)
  {
    if Chained(boxes, p, q) {
      var path :| IsChain(boxes, path) && path[0] == p && path[|path| - 1] == q;
      assert IsEarlyChain(boxes, path, |boxes|, 0);
    }
  }

  /** Two boxes have one root exactly when a chain of connected boxes joins them. */
  lemma RootsAreChains(boxes: seq<Box>, p: nat, q: nat)
    requires p < |boxes| && q < |boxes|
    ensures RootOf(boxes)[p] == RootOf(boxes)[q] <==> Chained(boxes, p, q)
  {
    RootsFollow(boxes, |boxes|, 0);
    TreesAreChains(boxes, RootOf(boxes), |boxes|, 0, p, q);
    AllCompared(boxes, p, q);
  }

  /** A box is the root of its component exactly when no pair unseats it. */
  lemma RootIsNeverUnseated(boxes: seq<Box>, r: nat)
    requires r < |boxes|
    ensures RootOf(boxes)[r] == r <==> !Unseated(boxes, r)
  {
    RootsFollow(boxes, |boxes|, 0);
    assert SeatsOne(boxes, RootOf(boxes), |boxes|, 0, r);
    if Unseated(boxes, r) {
      var a: nat, b: nat :| Unseats(boxes, a, b, r);
      assert Compared(a, b, |boxes|, 0);
    }
  }

  lemma RootIsSettled(boxes: seq<Box>, p: nat)
    requires p < |boxes|
    ensures RootOf(boxes)[p] < |boxes| && RootOf(boxes)[RootOf(boxes)[p]] == RootOf(boxes)[p]
  {
    RootsFollow(boxes, |boxes|, 0);
    assert SettledAt(RootOf(boxes), p);
  }
}
