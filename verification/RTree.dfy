/** rtree/rtree.go: a bulk-loaded R-tree, its search, and the linear scan it must agree with. */
module RTree {
  import opened Line
  import opened Runs
  import opened Sequences
  import opened Boxes
  import opened Covers
  import opened BoxSets

  const CAPACITY := 8

  /** A box with its metadata, which is compared last and stands here as its rank among byte strings. */
  type Entry = Painted<int>

  datatype Node =
    | Leaf(mbr: Box, boxes: seq<Entry>)
    | Inner(mbr: Box, left: Node, right: Node)

  datatype Tree = Bare | Tree(root: Node, n: nat, dims: nat)

  // ----- the order of results -----

  predicate LexLess(a: seq<real>, b: seq<real>)
    requires |a| == |b|
  {
    a != [] && (a[0] < b[0] || (a[0] == b[0] && LexLess(a[1..], b[1..])))
  }

  lemma {:induction false} LexIsTotal(a: seq<real>, b: seq<real>)
    requires |a| == |b|
    ensures LexLess(a, b) ==> !LexLess(b, a)
    ensures LexLess(a, b) || LexLess(b, a) || a == b
  {
    if a != [] {
      LexIsTotal(a[1..], b[1..]);
      assert a == [a[0]] + a[1..] && b == [b[0]] + b[1..];
    }
  }

  lemma {:induction false} LexIsTransitive(a: seq<real>, b: seq<real>, c: seq<real>)
    requires |a| == |b| == |c| && LexLess(a, b) && LexLess(b, c)
    ensures LexLess(a, c)
  {
    if a[0] == b[0] == c[0] { LexIsTransitive(a[1..], b[1..], c[1..]); }
  }

  function Rank(b: Bound): real {
    if b.Closed? then 0.0 else 1.0
  }

  /** What lessBox compares, in its order: the lower corner, the upper corner, the bounds, the metadata. */
  function Key(e: Entry): (key: seq<real>)
    ensures |key| == 4 * |e.box| + 1
  {
    var n := |e.box|;
    seq(4 * n + 1, k requires 0 <= k < 4 * n + 1 =>
      if k < n then e.box[k].start
      else if k < 2 * n then e.box[k - n].end
      else if k == 4 * n then e.meta as real
      else if (k - 2 * n) % 2 == 0 then Rank(e.box[(k - 2 * n) / 2].startBound)
      else Rank(e.box[(k - 2 * n) / 2].endBound))
  }

  predicate LessBox(a: Entry, b: Entry) {
    |a.box| == |b.box| && LexLess(Key(a), Key(b))
  }

  /** lessOn: by the faces on one axis, then as lessBox. */
  predicate LessOn(a: Entry, b: Entry, axis: nat) {
    && |a.box| == |b.box| && axis < |a.box|
    && LexLess([a.box[axis].start, a.box[axis].end] + Key(a), [b.box[axis].start, b.box[axis].end] + Key(b))
  }

  lemma KeyIsInjective(a: Entry, b: Entry)
    requires |a.box| == |b.box| && Key(a) == Key(b)
    ensures a == b
  {
    var n := |a.box|;
    assert Key(a)[4 * n] == Key(b)[4 * n];
    forall k | 0 <= k < n
      ensures a.box[k] == b.box[k]
    {
      assert Key(a)[k] == Key(b)[k] && Key(a)[n + k] == Key(b)[n + k];
      KeyBounds(a, k);
      KeyBounds(b, k);
    }
  }

  lemma KeyBounds(e: Entry, k: nat)
    requires k < |e.box|
    ensures Key(e)[2 * |e.box| + 2 * k] == Rank(e.box[k].startBound)
    ensures Key(e)[2 * |e.box| + 2 * k + 1] == Rank(e.box[k].endBound)
  {
    assert (2 * k) % 2 == 0 && (2 * k) / 2 == k && (2 * k + 1) % 2 == 1 && (2 * k + 1) / 2 == k;
  }

  /** The sequences agree up to `i`, where the first is smaller. */
  ghost predicate SmallerAt(a: seq<real>, b: seq<real>, i: nat)
    requires |a| == |b|
  {
    i < |a| && a[i] < b[i] && forall j :: 0 <= j < i ==> a[j] == b[j]
  }

  lemma {:induction false} LexIff(a: seq<real>, b: seq<real>)
    requires |a| == |b|
    ensures LexLess(a, b) <==> exists i: nat :: SmallerAt(a, b, i)
  {
    if a != [] {
      LexIff(a[1..], b[1..]);
      if a[0] < b[0] { assert SmallerAt(a, b, 0); }
      if a[0] == b[0] && LexLess(a[1..], b[1..]) {
        var i: nat :| SmallerAt(a[1..], b[1..], i);
        assert forall j :: 0 < j <= i ==> a[j] == a[1..][j - 1] && b[j] == b[1..][j - 1];
        assert SmallerAt(a, b, i + 1);
      }
      if i: nat :| SmallerAt(a, b, i) {
        if i > 0 { assert SmallerAt(a[1..], b[1..], i - 1); }
      }
    }
  }

  ghost predicate SameStarts(a: Box, b: Box, d: nat)
    requires |a| == |b| && d <= |a|
  {
    forall i :: 0 <= i < d ==> a[i].start == b[i].start
  }

  ghost predicate SameEnds(a: Box, b: Box, d: nat)
    requires |a| == |b| && d <= |a|
  {
    forall i :: 0 <= i < d ==> a[i].end == b[i].end
  }

  ghost predicate SameBounds(a: Box, b: Box, d: nat)
    requires |a| == |b| && d <= |a|
  {
    forall i :: 0 <= i < d ==> a[i].startBound == b[i].startBound && a[i].endBound == b[i].endBound
  }

  /** A lower start on the first axis where the starts differ. */
  ghost predicate StartsFirst(a: Box, b: Box)
    requires |a| == |b|
  {
    exists d: nat :: d < |a| && SameStarts(a, b, d) && a[d].start < b[d].start
  }

  ghost predicate EndsFirst(a: Box, b: Box)
    requires |a| == |b|
  {
    exists d: nat :: d < |a| && SameEnds(a, b, d) && a[d].end < b[d].end
  }

  /** A closed face where the other box has an open one, on the first axis where the bounds differ, the lower face first. */
  ghost predicate ClosedFirst(a: Box, b: Box)
    requires |a| == |b|
  {
    exists d: nat :: d < |a| && SameBounds(a, b, d) && ClosedAt(a[d], b[d])
  }

  ghost predicate ClosedAt(a: Interval, b: Interval) {
    if a.startBound == b.startBound then a.endBound.Closed? && b.endBound.Open?
    else a.startBound.Closed? && b.startBound.Open?
  }

  /** The keys up to a place agree exactly when what stands before it in the boxes does. */
  lemma KeysAgree(a: Entry, b: Entry, d: nat)
    requires |a.box| == |b.box| && d <= |a.box|
    ensures (forall j :: 0 <= j < d ==> Key(a)[j] == Key(b)[j]) <==> SameStarts(a.box, b.box, d)
    ensures (forall j :: 0 <= j < |a.box| + d ==> Key(a)[j] == Key(b)[j]) <==>
      SameStarts(a.box, b.box, |a.box|) && SameEnds(a.box, b.box, d)
  {
    var n := |a.box|;
    assert forall i :: 0 <= i < n ==> Key(a)[i] == a.box[i].start && Key(b)[i] == b.box[i].start;
    assert forall i :: 0 <= i < n ==> Key(a)[n + i] == a.box[i].end && Key(b)[n + i] == b.box[i].end;
    if forall j :: 0 <= j < n + d ==> Key(a)[j] == Key(b)[j] {
      forall i | 0 <= i < d
        ensures a.box[i].end == b.box[i].end
      {
        assert Key(a)[n + i] == Key(b)[n + i];
      }
    }
    if SameStarts(a.box, b.box, n) && SameEnds(a.box, b.box, d) {
      forall j | 0 <= j < n + d
        ensures Key(a)[j] == Key(b)[j]
      {
        if j >= n { assert a.box[j - n].end == b.box[j - n].end; }
      }
    }
  }

  lemma BoundKeysAgree(a: Entry, b: Entry, d: nat)
    requires |a.box| == |b.box| && d <= |a.box| && SameStarts(a.box, b.box, |a.box|) && SameEnds(a.box, b.box, |a.box|)
    ensures (forall j :: 0 <= j < 2 * |a.box| + 2 * d ==> Key(a)[j] == Key(b)[j]) <==> SameBounds(a.box, b.box, d)
  {
    var n := |a.box|;
    KeysAgree(a, b, n);
    if forall j :: 0 <= j < 2 * n + 2 * d ==> Key(a)[j] == Key(b)[j] {
      forall i | 0 <= i < d
        ensures a.box[i].startBound == b.box[i].startBound && a.box[i].endBound == b.box[i].endBound
      {
        KeyBounds(a, i);
        KeyBounds(b, i);
        assert Key(a)[2 * n + 2 * i] == Key(b)[2 * n + 2 * i] && Key(a)[2 * n + 2 * i + 1] == Key(b)[2 * n + 2 * i + 1];
      }
    }
    if SameBounds(a.box, b.box, d) {
      forall j | 2 * n <= j < 2 * n + 2 * d
        ensures Key(a)[j] == Key(b)[j]
      {
        var i := (j - 2 * n) / 2;
        KeyBounds(a, i);
        KeyBounds(b, i);
        assert j == 2 * n + 2 * i || j == 2 * n + 2 * i + 1;
      }
    }
  }

  /**
   * The lower corner decides; then the upper corner; then the bounds, axis by axis with the lower face
   * first; then the metadata.
   */
  ghost predicate EntryBefore(a: Entry, b: Entry)
    requires |a.box| == |b.box|
  {
    || StartsFirst(a.box, b.box)
    || (SameStarts(a.box, b.box, |a.box|) && EndsFirst(a.box, b.box))
    || (SameStarts(a.box, b.box, |a.box|) && SameEnds(a.box, b.box, |a.box|) && ClosedFirst(a.box, b.box))
    || (a.box == b.box && a.meta < b.meta)
  }

  lemma SmallerCorner(a: Entry, b: Entry, i: nat)
    requires |a.box| == |b.box| && i < 2 * |a.box| && SmallerAt(Key(a), Key(b), i)
    ensures EntryBefore(a, b)
  {
    var n := |a.box|;
    if i < n {
      KeysAgree(a, b, i);
    } else {
      KeysAgree(a, b, i - n);
      assert a.box[i - n].end < b.box[i - n].end;
    }
  }

  lemma SmallerBound(a: Entry, b: Entry, d: nat, upper: bool)
    requires |a.box| == |b.box| && d < |a.box|
    requires SmallerAt(Key(a), Key(b), 2 * |a.box| + 2 * d + if upper then 1 else 0)
    ensures EntryBefore(a, b)
  {
    KeysAgree(a, b, |a.box|);
    BoundKeysAgree(a, b, d);
    KeyBounds(a, d);
    KeyBounds(b, d);
    assert ClosedAt(a.box[d], b.box[d]);
  }

  lemma SmallerMeta(a: Entry, b: Entry)
    requires |a.box| == |b.box| && SmallerAt(Key(a), Key(b), 4 * |a.box|)
    ensures EntryBefore(a, b)
  {
    var n := |a.box|;
    KeysAgree(a, b, n);
    BoundKeysAgree(a, b, n);
    forall i | 0 <= i < n
      ensures a.box[i] == b.box[i]
    {
      assert a.box[i].start == b.box[i].start && a.box[i].end == b.box[i].end;
    }
  }

  lemma SmallerKey(a: Entry, b: Entry, i: nat)
    requires |a.box| == |b.box| && SmallerAt(Key(a), Key(b), i)
    ensures EntryBefore(a, b)
  {
    var n := |a.box|;
    if i < 2 * n {
      SmallerCorner(a, b, i);
    } else if i < 4 * n {
      var d, upper := (i - 2 * n) / 2, (i - 2 * n) % 2 == 1;
      assert i == 2 * n + 2 * d + if upper then 1 else 0;
      SmallerBound(a, b, d, upper);
    } else {
      SmallerMeta(a, b);
    }
  }

  lemma CornerComesFirst(a: Entry, b: Entry)
    requires |a.box| == |b.box| && (StartsFirst(a.box, b.box) || (SameStarts(a.box, b.box, |a.box|) && EndsFirst(a.box, b.box)))
    ensures exists i: nat :: SmallerAt(Key(a), Key(b), i)
  {
    var n := |a.box|;
    if StartsFirst(a.box, b.box) {
      var d: nat :| d < n && SameStarts(a.box, b.box, d) && a.box[d].start < b.box[d].start;
      KeysAgree(a, b, d);
      assert SmallerAt(Key(a), Key(b), d);
    } else {
      var d: nat :| d < n && SameEnds(a.box, b.box, d) && a.box[d].end < b.box[d].end;
      KeysAgree(a, b, d);
      assert SmallerAt(Key(a), Key(b), n + d);
    }
  }

  lemma BoundComesFirst(a: Entry, b: Entry)
    requires |a.box| == |b.box| && SameStarts(a.box, b.box, |a.box|) && SameEnds(a.box, b.box, |a.box|)
    requires ClosedFirst(a.box, b.box)
    ensures exists i: nat :: SmallerAt(Key(a), Key(b), i)
  {
    var n := |a.box|;
    var d: nat :| d < n && SameBounds(a.box, b.box, d) && ClosedAt(a.box[d], b.box[d]);
    BoundKeysAgree(a, b, d);
    ClosedIsSmaller(a, b, d, 2 * n + 2 * d, Key(a), Key(b));
  }

  lemma ClosedIsSmaller(a: Entry, b: Entry, d: nat, i: nat, s: seq<real>, t: seq<real>)
    requires |a.box| == |b.box| && d < |a.box| && ClosedAt(a.box[d], b.box[d])
    requires i == 2 * |a.box| + 2 * d && s == Key(a) && t == Key(b) && forall j :: 0 <= j < i ==> s[j] == t[j]
    ensures exists k: nat :: SmallerAt(s, t, k)
  {
    KeyBounds(a, d);
    KeyBounds(b, d);
    assert s[i] == Rank(a.box[d].startBound) && t[i] == Rank(b.box[d].startBound);
    if a.box[d].startBound == b.box[d].startBound {
      assert SmallerAt(s, t, i + 1);
    } else {
      assert SmallerAt(s, t, i);
    }
  }

  lemma MetaComesFirst(a: Entry, b: Entry)
    requires a.box == b.box && a.meta < b.meta
    ensures SmallerAt(Key(a), Key(b), 4 * |a.box|)
  {
  }

  /** The order of results is the one described, and so does not depend on how keys are formed. */
  lemma LessBoxIff(a: Entry, b: Entry)
    requires |a.box| == |b.box|
    ensures LessBox(a, b) <==> EntryBefore(a, b)
  {
    LexIff(Key(a), Key(b));
    if i: nat :| SmallerAt(Key(a), Key(b), i) {
      SmallerKey(a, b, i);
    }
    if EntryBefore(a, b) {
      if StartsFirst(a.box, b.box) || (SameStarts(a.box, b.box, |a.box|) && EndsFirst(a.box, b.box)) {
        CornerComesFirst(a, b);
      } else if a.box == b.box {
        MetaComesFirst(a, b);
      } else {
        BoundComesFirst(a, b);
      }
    }
  }

  ghost predicate OfDimension(s: seq<Entry>, n: nat) {
    forall e :: e in s ==> |e.box| == n && !Hollow(e.box)
  }

  /** Entries of one dimension are totally ordered. */
  lemma LessBoxIsTotal(a: Entry, b: Entry)
    requires |a.box| == |b.box|
    ensures LessBox(a, b) ==> !LessBox(b, a)
    ensures LessBox(a, b) || LessBox(b, a) || a == b
  {
    LexIsTotal(Key(a), Key(b));
    if Key(a) == Key(b) { KeyIsInjective(a, b); }
  }

  lemma LessBoxOrders(s: seq<Entry>, n: nat)
    requires OfDimension(s, n)
    ensures Orders(LessBox, s)
  {
    forall x, y, z | x in s && y in s && z in s && !LessBox(y, x) && !LessBox(z, y)
      ensures !LessBox(z, x)
    {
      LexThree(Key(x), Key(y), Key(z));
    }
    forall x, y | x in s && y in s && LessBox(x, y)
      ensures !LessBox(y, x)
    {
      LessBoxIsTotal(x, y);
    }
  }

  lemma LexThree(a: seq<real>, b: seq<real>, c: seq<real>)
    requires |a| == |b| == |c|
    ensures !LexLess(b, a) && !LexLess(c, b) ==> !LexLess(c, a)
    ensures LexLess(a, b) ==> !LexLess(b, a)
  {
    LexIsTotal(a, b);
    LexIsTotal(b, c);
    LexIsTotal(a, c);
    if LexLess(a, b) && LexLess(b, c) { LexIsTransitive(a, b, c); }
  }

  lemma LessOnOrders(s: seq<Entry>, axis: nat, n: nat)
    requires OfDimension(s, n) && axis < n
    ensures Orders((a: Entry, b: Entry) => LessOn(a, b, axis), s)
  {
    var less := (a: Entry, b: Entry) => LessOn(a, b, axis);
    forall x, y, z | x in s && y in s && z in s
      ensures !less(y, x) && !less(z, y) ==> !less(z, x)
      ensures less(x, y) ==> !less(y, x)
    {
      LexThree([x.box[axis].start, x.box[axis].end] + Key(x), [y.box[axis].start, y.box[axis].end] + Key(y),
        [z.box[axis].start, z.box[axis].end] + Key(z));
    }
  }

  // ----- bounds -----

  function MinStart(boxes: seq<Box>, d: nat): real
    requires |boxes| > 0 && forall b :: b in boxes ==> d < |b|
  {
    var last := boxes[|boxes| - 1];
    if |boxes| == 1 then last[d].start
    else
      var lo := MinStart(boxes[..|boxes| - 1], d);
      if last[d].start < lo then last[d].start else lo
  }

  function MaxEnd(boxes: seq<Box>, d: nat): real
    requires |boxes| > 0 && forall b :: b in boxes ==> d < |b|
  {
    var last := boxes[|boxes| - 1];
    if |boxes| == 1 then last[d].end
    else
      var hi := MaxEnd(boxes[..|boxes| - 1], d);
      if last[d].end > hi then last[d].end else hi
  }

  /** They are the least start and the greatest end. */
  lemma {:induction false} ExtremesAre(boxes: seq<Box>, d: nat)
    requires |boxes| > 0 && forall b :: b in boxes ==> d < |b|
    ensures forall b: Box :: b in boxes ==> MinStart(boxes, d) <= b[d].start && b[d].end <= MaxEnd(boxes, d)
    ensures exists b: Box :: b in boxes && MinStart(boxes, d) == b[d].start
    ensures exists b: Box :: b in boxes && MaxEnd(boxes, d) == b[d].end
  {
    var rest, last := boxes[..|boxes| - 1], boxes[|boxes| - 1];
    assert boxes == rest + [last] && last in boxes;
    if |boxes| > 1 {
      ExtremesAre(rest, d);
      var b: Box :| b in rest && MinStart(rest, d) == b[d].start;
      var c: Box :| c in rest && MaxEnd(rest, d) == c[d].end;
      assert b in boxes && c in boxes;
    }
  }

  /** The smallest box closed on every face that covers all the boxes. */
  ghost predicate IsBound(boxes: seq<Box>, n: nat, mbr: Box)
    requires |boxes| > 0 && OfDims(boxes, n)
  {
    |mbr| == n && forall d :: 0 <= d < n ==> mbr[d] == Interval(MinStart(boxes, d), MaxEnd(boxes, d), Closed, Closed)
  }

  lemma BoundCovers(boxes: seq<Box>, n: nat, mbr: Box)
    requires |boxes| > 0 && OfDims(boxes, n) && IsBound(boxes, n, mbr)
    ensures forall b :: b in boxes ==> Sub(mbr, b)
  {
    forall b, d | b in boxes && 0 <= d < n
      ensures SpanWithin(mbr[d], b[d])
    {
      ExtremesAre(boxes, d);
    }
  }

  /** No smaller closed box covers them. */
  lemma BoundIsLeast(boxes: seq<Box>, n: nat, mbr: Box, c: Box)
    requires |boxes| > 0 && OfDims(boxes, n) && IsBound(boxes, n, mbr) && |c| == n
    requires (forall d :: 0 <= d < n ==> c[d].startBound.Closed? && c[d].endBound.Closed?) && forall b :: b in boxes ==> Sub(c, b)
    ensures Sub(c, mbr)
  {
    forall d | 0 <= d < n
      ensures SpanWithin(c[d], mbr[d])
    {
      ExtremesAre(boxes, d);
      var b: Box :| b in boxes && MinStart(boxes, d) == b[d].start;
      var e: Box :| e in boxes && MaxEnd(boxes, d) == e[d].end;
      assert SpanWithin(c[d], b[d]) && SpanWithin(c[d], e[d]);
    }
  }

  method MbrOf(boxes: seq<Box>, ghost n: nat) returns (mbr: Box)
    requires |boxes| > 0 && OfDims(boxes, n)
    ensures IsBound(boxes, n, mbr)
  {
    assert boxes[0] in boxes;
    var mn := seq(|boxes[0]|, d requires 0 <= d < |boxes[0]| => boxes[0][d].start);
    var mx := seq(|boxes[0]|, d requires 0 <= d < |boxes[0]| => boxes[0][d].end);
    assert boxes[..1] == [boxes[0]];
    for i := 1 to |boxes|
      invariant |mn| == |mx| == n && OfDims(boxes[..i], n)
      invariant Widened(boxes[..i], n, n, mn, mx)
    {
      assert boxes[i] in boxes;
      assert boxes[..i + 1] == boxes[..i] + [boxes[i]] && boxes[..i + 1][..i] == boxes[..i];
      mn, mx := WidenBy(boxes[..i], boxes[i], mn, mx, n);
    }
    assert boxes[..|boxes|] == boxes;
    mbr := seq(|mn|, d requires 0 <= d < |mn| => Interval(mn[d], mx[d], Closed, Closed));
  }

  ghost predicate Widened(boxes: seq<Box>, n: nat, upTo: nat, mn: seq<real>, mx: seq<real>)
    requires |boxes| > 0 && OfDims(boxes, n) && upTo <= n && |mn| == |mx| == n
  {
    forall d :: 0 <= d < upTo ==> mn[d] == MinStart(boxes, d) && mx[d] == MaxEnd(boxes, d)
  }

  method WidenBy(boxes: seq<Box>, b: Box, mn: seq<real>, mx: seq<real>, ghost n: nat) returns (mn': seq<real>, mx': seq<real>)
    requires |boxes| > 0 && OfDims(boxes, n) && |b| == n && |mn| == |mx| == n && Widened(boxes, n, n, mn, mx)
    ensures |mn'| == |mx'| == n && OfDims(boxes + [b], n) && Widened(boxes + [b], n, n, mn', mx')
  {
    ghost var more := boxes + [b];
    assert more[..|boxes|] == boxes;
    mn', mx' := mn, mx;
    for d := 0 to |mn|
      invariant |mn'| == |mx'| == n && Widened(more, n, d, mn', mx')
      invariant forall k :: d <= k < n ==> mn'[k] == mn[k] && mx'[k] == mx[k]
    {
      if b[d].start < mn'[d] { mn' := mn'[d := b[d].start]; }
      if b[d].end > mx'[d] { mx' := mx'[d := b[d].end]; }
    }
  }

  // ----- building -----

  /** How far the boxes reach along an axis. */
  function Spread(boxes: seq<Box>, d: nat): real
    requires |boxes| > 0 && forall b :: b in boxes ==> d < |b|
  {
    MaxEnd(boxes, d) - MinStart(boxes, d)
  }

  /** The first axis with the largest spread. */
  method WidestAxis(boxes: seq<Box>, n: nat) returns (axis: nat)
    requires |boxes| > 0 && OfDims(boxes, n) && n > 0 && forall b :: b in boxes ==> !Hollow(b)
    ensures axis < n && forall d :: 0 <= d < n ==> Spread(boxes, d) <= Spread(boxes, axis)
    ensures forall d :: 0 <= d < axis ==> Spread(boxes, d) < Spread(boxes, axis)
  {
    var width: real;
    axis, width := 0, 0.0;
    SpreadIsPositive(boxes, n);
    for d := 0 to n
      invariant axis < n && (d == 0 ==> axis == 0 && width == 0.0)
      invariant d > 0 ==> axis < d && width == Spread(boxes, axis)
      invariant forall k :: 0 <= k < d ==> Spread(boxes, k) <= width
      invariant forall k :: 0 <= k < axis ==> Spread(boxes, k) < width
    {
      var lo, hi := SpanOn(boxes, d);
      if hi - lo > width { axis, width := d, hi - lo; }
    }
  }

  method SpanOn(boxes: seq<Box>, d: nat) returns (lo: real, hi: real)
    requires |boxes| > 0 && forall b :: b in boxes ==> d < |b|
    ensures lo == MinStart(boxes, d) && hi == MaxEnd(boxes, d)
  {
    assert boxes[0] in boxes;
    lo, hi := boxes[0][d].start, boxes[0][d].end;
    assert boxes[..1] == [boxes[0]];
    for i := 1 to |boxes|
      invariant (forall b :: b in boxes[..i] ==> d < |b|) && lo == MinStart(boxes[..i], d) && hi == MaxEnd(boxes[..i], d)
    {
      assert boxes[i] in boxes && boxes[..i + 1] == boxes[..i] + [boxes[i]] && boxes[..i + 1][..i] == boxes[..i];
      if boxes[i][d].start < lo { lo := boxes[i][d].start; }
      if boxes[i][d].end > hi { hi := boxes[i][d].end; }
    }
    assert boxes[..|boxes|] == boxes;
  }

  lemma SpreadIsPositive(boxes: seq<Box>, n: nat)
    requires |boxes| > 0 && OfDims(boxes, n) && forall b :: b in boxes ==> !Hollow(b)
    ensures forall d :: 0 <= d < n ==> Spread(boxes, d) >= 0.0
  {
    forall d | 0 <= d < n
      ensures Spread(boxes, d) >= 0.0
    {
      var b := boxes[0];
      assert b in boxes && !Empty(b[d]);
      ExtremesAre(boxes, d);
    }
  }

  /** The boxes below a node, in traversal order. */
  function Listed(node: Node): seq<Entry> {
    match node
    case Leaf(_, boxes) => boxes
    case Inner(_, left, right) => Listed(left) + Listed(right)
  }

  /** Every node's bound covers what is below it. */
  ghost predicate Covering(node: Node, n: nat) {
    match node
    case Leaf(mbr, boxes) => |mbr| == n && forall e :: e in boxes ==> |e.box| == n && Sub(mbr, e.box)
    case Inner(mbr, left, right) =>
      |mbr| == n && Covering(left, n) && Covering(right, n) && Sub(mbr, left.mbr) && Sub(mbr, right.mbr)
  }

  /** No leaf is over capacity. */
  ghost predicate Packed(node: Node) {
    match node
    case Leaf(_, boxes) => 0 < |boxes| <= CAPACITY
    case Inner(_, left, right) => Packed(left) && Packed(right)
  }

  method BuildNode(boxes: seq<Entry>, ghost n: nat) returns (node: Node)
    requires |boxes| > 0 && OfDimension(boxes, n) && n > 0
    ensures Covering(node, n) && Packed(node) && multiset(Listed(node)) == multiset(boxes)
    decreases |boxes|
  {
    GeoDims(boxes, n);
    if |boxes| <= CAPACITY {
      var mbr := MbrOf(Geo(boxes), n);
      BoundCovers(Geo(boxes), n, mbr);
      LeafCovers(boxes, n, mbr);
      return Leaf(mbr, boxes);
    }
    assert boxes[0] in boxes;
    var axis := WidestAxis(Geo(boxes), |boxes[0].box|);
    LessOnOrders(boxes, axis, n);
    var sorted := Sort(boxes, (a: Entry, b: Entry) => LessOn(a, b, axis));
    var mid := |sorted| / 2;
    HalvesKeepAll(boxes, sorted, mid, n);
    var left := BuildNode(sorted[..mid], n);
    var right := BuildNode(sorted[mid..], n);
    var mbr := MbrOf([left.mbr, right.mbr], n);
    BoundCovers([left.mbr, right.mbr], n, mbr);
    assert [left.mbr, right.mbr][0] == left.mbr && [left.mbr, right.mbr][1] == right.mbr;
    return Inner(mbr, left, right);
  }

  lemma GeoDims(boxes: seq<Entry>, n: nat)
    requires OfDimension(boxes, n)
    ensures OfDims(Geo(boxes), n) && forall b :: b in Geo(boxes) ==> !Hollow(b)
  {
    forall b | b in Geo(boxes)
      ensures |b| == n && !Hollow(b)
    {
      var k :| 0 <= k < |boxes| && Geo(boxes)[k] == b;
      assert boxes[k] in boxes;
    }
  }

  lemma LeafCovers(boxes: seq<Entry>, n: nat, mbr: Box)
    requires OfDimension(boxes, n) && forall b :: b in Geo(boxes) ==> Sub(mbr, b)
    ensures forall e :: e in boxes ==> Sub(mbr, e.box)
  {
    forall e | e in boxes
      ensures Sub(mbr, e.box)
    {
      var k :| 0 <= k < |boxes| && boxes[k] == e;
      assert Geo(boxes)[k] in Geo(boxes);
    }
  }

  lemma HalvesKeepAll(boxes: seq<Entry>, sorted: seq<Entry>, mid: nat, n: nat)
    requires OfDimension(boxes, n) && multiset(sorted) == multiset(boxes) && mid <= |sorted|
    ensures OfDimension(sorted[..mid], n) && OfDimension(sorted[mid..], n)
    ensures multiset(sorted[..mid]) + multiset(sorted[mid..]) == multiset(boxes)
  {
    SameMembers(sorted, boxes);
    assert sorted == sorted[..mid] + sorted[mid..];
  }

  // ----- searching -----

  /** The linear scan: the boxes that share a point with the query, in order. */
  function Scan(boxes: seq<Entry>, q: Box): seq<Entry> {
    if boxes == [] then []
    else Scan(boxes[..|boxes| - 1], q) + (if Hits(boxes[|boxes| - 1], q) then [boxes[|boxes| - 1]] else [])
  }

  predicate Hits(e: Entry, q: Box) {
    |e.box| == |q| && Overlaps(e.box, q)
  }

  /** searchNode, by value. */
  function Found(node: Node, q: Box): seq<Entry> {
    if |node.mbr| != |q| || !Overlaps(node.mbr, q) then []
    else
      match node
      case Leaf(_, boxes) => Scan(boxes, q)
      case Inner(_, left, right) => Found(left, q) + Found(right, q)
  }

  lemma {:induction false} ScanConcat(a: seq<Entry>, b: seq<Entry>, q: Box)
    ensures Scan(a + b, q) == Scan(a, q) + Scan(b, q)
  {
    if b == [] {
      assert a + b == a;
    } else {
      assert (a + b)[..|a + b| - 1] == a + b[..|b| - 1];
      ScanConcat(a, b[..|b| - 1], q);
    }
  }

  lemma {:induction false} ScanMissesAll(boxes: seq<Entry>, q: Box)
    requires forall e :: e in boxes ==> !Hits(e, q)
    ensures Scan(boxes, q) == []
  {
    if boxes != [] { ScanMissesAll(boxes[..|boxes| - 1], q); }
  }

  lemma {:induction false} BoundCoversListed(node: Node, n: nat, e: Entry)
    requires Covering(node, n) && e in Listed(node)
    ensures |e.box| == n && Sub(node.mbr, e.box)
  {
    match node
    case Leaf(_, boxes) =>
    case Inner(_, left, right) =>
      var child := if e in Listed(left) then left else right;
      BoundCoversListed(child, n, e);
      SubIsTransitive(node.mbr, child.mbr, e.box);
  }

  /** Pruning loses nothing: the search finds exactly what a scan of the leaves finds, in the same order. */
  lemma {:induction false} FoundIsScan(node: Node, n: nat, q: Box)
    requires Covering(node, n) && |q| == n
    ensures Found(node, q) == Scan(Listed(node), q)
  {
    if !Overlaps(node.mbr, q) {
      forall e | e in Listed(node)
        ensures !Hits(e, q)
      {
        BoundCoversListed(node, n, e);
        SubsumesIsReflexive(q);
        if Overlaps(e.box, q) { OverlapGrows(node.mbr, q, e.box, q); }
      }
      ScanMissesAll(Listed(node), q);
    } else {
      match node
      case Leaf(_, boxes) =>
      case Inner(_, left, right) =>
        FoundIsScan(left, n, q);
        FoundIsScan(right, n, q);
        ScanConcat(Listed(left), Listed(right), q);
    }
  }

  /** A scan of a rearranged list finds a rearrangement. */
  lemma {:induction false} ScanCounts(boxes: seq<Entry>, q: Box, e: Entry)
    ensures multiset(Scan(boxes, q))[e] == if Hits(e, q) then multiset(boxes)[e] else 0
  {
    if boxes != [] {
      var rest, last := boxes[..|boxes| - 1], boxes[|boxes| - 1];
      ScanCounts(rest, q, e);
      assert boxes == rest + [last];
    }
  }

  lemma ScanOfRearranged(a: seq<Entry>, b: seq<Entry>, q: Box)
    requires multiset(a) == multiset(b)
    ensures multiset(Scan(a, q)) == multiset(Scan(b, q))
  {
    forall e
      ensures multiset(Scan(a, q))[e] == multiset(Scan(b, q))[e]
    {
      ScanCounts(a, q, e);
      ScanCounts(b, q, e);
    }
  }

  method SearchNode(node: Node, q: Box, dst: seq<Entry>, ghost n: nat) returns (out: seq<Entry>)
    requires Covering(node, n) && |q| == n
    ensures out == dst + Found(node, q)
    decreases node
  {
    out := dst;
    if !Overlaps(node.mbr, q) { return; }
    match node
    case Leaf(_, boxes) =>
      for i := 0 to |boxes|
        invariant out == dst + Scan(boxes[..i], q)
      {
        assert boxes[..i + 1][..i] == boxes[..i] && boxes[i] in boxes;
        if Overlaps(boxes[i].box, q) { out := out + [boxes[i]]; }
      }
      assert boxes[..|boxes|] == boxes;
    case Inner(_, left, right) =>
      out := SearchNode(left, q, out, n);
      out := SearchNode(right, q, out, n);
  }

  // ----- the tree -----

  /** What is indexed: the boxes with a point. */
  function Solids(boxes: seq<Entry>): seq<Entry> {
    if boxes == [] then []
    else Solids(boxes[..|boxes| - 1]) + (if Hollow(boxes[|boxes| - 1].box) then [] else [boxes[|boxes| - 1]])
  }

  lemma {:induction false} SolidsAre(boxes: seq<Entry>)
    ensures forall e :: e in Solids(boxes) <==> e in boxes && !Hollow(e.box)
  {
    if boxes != [] {
      SolidsAre(boxes[..|boxes| - 1]);
      assert boxes == boxes[..|boxes| - 1] + [boxes[|boxes| - 1]];
    }
  }

  /** The boxes with a point have one dimension, at least one. */
  ghost predicate Buildable(boxes: seq<Entry>) {
    forall a, b :: a in boxes && b in boxes && !Hollow(a.box) && !Hollow(b.box) ==> |a.box| == |b.box| > 0
  }

  ghost predicate Indexes(t: Tree, boxes: seq<Entry>) {
    match t
    case Bare => Solids(boxes) == []
    case Tree(root, n, dims) =>
      && dims > 0 && OfDimension(Solids(boxes), dims) && Covering(root, dims) && Packed(root)
      && multiset(Listed(root)) == multiset(Solids(boxes)) && n == |Solids(boxes)|
  }

  /** build: fails exactly when the boxes with a point are not of one positive dimension. */
  method Build(boxes: seq<Entry>) returns (t: Option<Tree>)
    ensures t.Some? <==> Buildable(boxes)
    ensures t.Some? ==> Indexes(t.value, boxes)
  {
    var dims, kept := 0, [];
    for i := 0 to |boxes|
      invariant kept == Solids(boxes[..i])
      invariant if kept == [] then dims == 0 else dims > 0 && OfDimension(kept, dims)
    {
      assert boxes[..i + 1][..i] == boxes[..i];
      var e := boxes[i];
      if !Hollow(e.box) {
        SolidsAre(boxes[..i]);
        assert e in boxes;
        if |e.box| == 0 { return None; }
        if dims == 0 {
          dims := |e.box|;
        } else if |e.box| != dims {
          assert kept[0] in kept && kept[0] in boxes[..i] && kept[0] in boxes;
          return None;
        }
        kept := kept + [e];
      }
    }
    assert boxes[..|boxes|] == boxes;
    SolidsAre(boxes);
    if |kept| == 0 { return Some(Bare); }
    var root := BuildNode(kept, dims);
    return Some(Tree(root, |kept|, dims));
  }

  /**
   * The result of a search: the boxes a linear scan of the input finds, in canonical order; nothing for
   * a hollow query or one of another dimension.
   */
  ghost predicate IsResult(boxes: seq<Entry>, q: Box, out: seq<Entry>) {
    && multiset(out) == multiset(if Hollow(q) then [] else Scan(Solids(boxes), q))
    && SortedBy(LessBox, out)
  }

  lemma {:induction false} ScanIff(boxes: seq<Entry>, q: Box, e: Entry)
    ensures e in Scan(boxes, q) <==> e in boxes && Hits(e, q)
  {
    if boxes != [] {
      assert boxes == boxes[..|boxes| - 1] + [boxes[|boxes| - 1]];
      ScanIff(boxes[..|boxes| - 1], q, e);
    }
  }

  /** A search returns exactly the given boxes that share a point with the query. */
  lemma ResultIff(boxes: seq<Entry>, q: Box, out: seq<Entry>, e: Entry)
    requires IsResult(boxes, q, out)
    ensures e in out <==> e in boxes && exists x :: Inside(e.box, x) && Inside(q, x)
  {
    var found := if Hollow(q) then [] else Scan(Solids(boxes), q);
    assert e in out <==> e in multiset(out);
    assert e in found <==> e in multiset(found);
    ScanIff(Solids(boxes), q, e);
    SolidsAre(boxes);
    HollowMeansNoPoint(q);
    HollowMeansNoPoint(e.box);
    if |e.box| == |q| { OverlapsMeansShared(e.box, q); }
  }

  method Search(t: Tree, q: Box, ghost boxes: seq<Entry>) returns (out: seq<Entry>)
    requires Indexes(t, boxes)
    ensures IsResult(boxes, q, out)
  {
    if t.Bare? || Hollow(q) || |q| != t.dims {
      NothingHit(t, q, boxes);
      return [];
    }
    var refs := SearchNode(t.root, q, [], t.dims);
    FoundIsScan(t.root, t.dims, q);
    ScanOfRearranged(Listed(t.root), Solids(boxes), q);
    FoundOfDimension(Solids(boxes), q, refs, t.dims);
    LessBoxOrders(refs, t.dims);
    out := Sort(refs, LessBox);
  }

  lemma NothingHit(t: Tree, q: Box, boxes: seq<Entry>)
    requires Indexes(t, boxes) && (t.Bare? || Hollow(q) || |q| != t.dims)
    ensures !Hollow(q) ==> Scan(Solids(boxes), q) == []
  {
    if t.Tree? && |q| != t.dims { ScanMissesAll(Solids(boxes), q); }
  }

  lemma FoundOfDimension(solids: seq<Entry>, q: Box, refs: seq<Entry>, n: nat)
    requires OfDimension(solids, n) && multiset(refs) == multiset(Scan(solids, q))
    ensures OfDimension(refs, n)
  {
    SameMembers(refs, Scan(solids, q));
    forall e | e in refs
      ensures |e.box| == n && !Hollow(e.box)
    {
      ScanCounts(solids, q, e);
      assert multiset(Scan(solids, q))[e] > 0;
      assert e in multiset(solids);
    }
  }

  // ----- the result depends on the boxes alone -----

  lemma {:induction false} SolidsCount(boxes: seq<Entry>, e: Entry)
    ensures multiset(Solids(boxes))[e] == if Hollow(e.box) then 0 else multiset(boxes)[e]
  {
    if boxes != [] {
      SolidsCount(boxes[..|boxes| - 1], e);
      assert boxes == boxes[..|boxes| - 1] + [boxes[|boxes| - 1]];
    }
  }

  lemma {:induction false} SortedListIsUnique<T>(less: (T, T) -> bool, s: seq<T>, t: seq<T>)
    requires multiset(s) == multiset(t) && SortedBy(less, s) && SortedBy(less, t)
    requires forall x, y :: x in s && y in s ==> less(x, y) || less(y, x) || x == y
    ensures s == t
    decreases |s|
  {
    SameMembers(s, t);
    if s != [] {
      SameLeast(less, s, t);
      TailOfMultiset(s);
      TailOfMultiset(t);
      SortedListIsUnique(less, s[1..], t[1..]);
    }
  }

  lemma SameLeast<T>(less: (T, T) -> bool, s: seq<T>, t: seq<T>)
    requires |s| > 0 && |t| > 0 && (forall x :: x in s <==> x in t) && SortedBy(less, s) && SortedBy(less, t)
    requires forall x, y :: x in s && y in s ==> less(x, y) || less(y, x) || x == y
    ensures s[0] == t[0]
  {
    assert s[0] in t && t[0] in s;
    var j :| 0 <= j < |t| && t[j] == s[0];
    var k :| 0 <= k < |s| && s[k] == t[0];
  }

  /** Trees built from the same boxes in any order answer every query with the identical list. */
  lemma SearchIgnoresOrder(a: seq<Entry>, b: seq<Entry>, q: Box, outA: seq<Entry>, outB: seq<Entry>)
    requires Buildable(a) && multiset(a) == multiset(b) && IsResult(a, q, outA) && IsResult(b, q, outB)
    ensures outA == outB
  {
    forall e
      ensures multiset(Solids(a))[e] == multiset(Solids(b))[e]
    {
      SolidsCount(a, e);
      SolidsCount(b, e);
    }
    assert multiset(Solids(a)) == multiset(Solids(b));
    ScanOfRearranged(Solids(a), Solids(b), q);
    forall x, y | x in outA && y in outA
      ensures LessBox(x, y) || LessBox(y, x) || x == y
    {
      ResultIsIndexed(a, q, outA, x);
      ResultIsIndexed(a, q, outA, y);
      LessBoxIsTotal(x, y);
    }
    SortedListIsUnique(LessBox, outA, outB);
  }

  lemma ResultIsIndexed(a: seq<Entry>, q: Box, out: seq<Entry>, e: Entry)
    requires IsResult(a, q, out) && e in out
    ensures e in a && !Hollow(e.box) && Hits(e, q)
  {
    assert e in multiset(out);
    ScanCounts(Solids(a), q, e);
    SolidsCount(a, e);
    assert multiset(a)[e] > 0;
  }
}
