/** space/merge_index.go: the merger that keeps every mergeable pair in a heap and retires boxes lazily. */
module Indexing {
  import opened Sequences
  import opened Boxes
  import opened Covers
  import opened BoxSets
  import opened Merging
  import opened CrossIndex
  import opened Gridding

  /** The ids of a candidate pair, the canonically lesser box first. */
  datatype Pair = Pair(first: nat, second: nat)

  // ----- the live boxes by id -----

  predicate Alive(live: seq<bool>, id: nat) {
    id < |live| && live[id]
  }

  ghost function LiveSet(boxes: seq<Box>, live: seq<bool>): set<Box> {
    set id: nat | id < |boxes| && Alive(live, id) :: boxes[id]
  }

  ghost predicate AllDims(boxes: seq<Box>, n: nat) {
    forall id :: 0 <= id < |boxes| ==> |boxes[id]| == n
  }

  /** Live boxes have a point. */
  ghost predicate Sound(boxes: seq<Box>, live: seq<bool>, n: nat) {
    |live| == |boxes| && AllDims(boxes, n) && forall id: nat :: id < |boxes| && Alive(live, id) ==> !Hollow(boxes[id])
  }

  /** No live box covers another. */
  ghost predicate Free(boxes: seq<Box>, live: seq<bool>) {
    forall i: nat, j: nat :: i < |boxes| && j < |boxes| && i != j && Alive(live, i) && Alive(live, j) ==> !Sub(boxes[i], boxes[j])
  }

  /** No two live boxes share a point. */
  ghost predicate Disjoint(boxes: seq<Box>, live: seq<bool>, n: nat)
    requires AllDims(boxes, n)
  {
    forall i: nat, j: nat ::
      i < |boxes| && j < |boxes| && i != j && Alive(live, i) && Alive(live, j) ==> !Overlaps(boxes[i], boxes[j])
  }

  ghost predicate LiveRegistered(boxes: seq<Box>, live: seq<bool>, buckets: Buckets, hash: Hash) {
    Bounded(buckets, |boxes|) && forall id: nat :: id < |boxes| && Alive(live, id) ==> Registered(buckets, hash, boxes[id], id)
  }

  /** The heap holds pairs of known boxes, canonically first box first. */
  ghost predicate PairsOrdered(boxes: seq<Box>, pairs: seq<Pair>) {
    forall p :: p in pairs ==> p.first < |boxes| && p.second < |boxes| && !Less(boxes[p.second], boxes[p.first])
  }

  ghost predicate LivePair(boxes: seq<Box>, live: seq<bool>, p: Pair) {
    && p.first < |boxes| && p.second < |boxes| && Alive(live, p.first) && Alive(live, p.second)
    && Less(boxes[p.first], boxes[p.second]) && Mergeable(boxes[p.first], boxes[p.second])
  }

  /** Every live mergeable pair that does not involve `u` is in the heap. */
  ghost predicate QueuedExcept(boxes: seq<Box>, live: seq<bool>, pairs: seq<Pair>, u: nat) {
    forall p :: LivePair(boxes, live, p) && p.first != u && p.second != u ==> p in pairs
  }

  /** Every live mergeable pair is in the heap. */
  ghost predicate Queued(boxes: seq<Box>, live: seq<bool>, pairs: seq<Pair>) {
    forall p :: LivePair(boxes, live, p) ==> p in pairs
  }

  lemma FreeIsAntichain(boxes: seq<Box>, live: seq<bool>)
    requires Free(boxes, live)
    ensures Antichain(LiveSet(boxes, live))
  {
    forall a, b | a in LiveSet(boxes, live) && b in LiveSet(boxes, live) && a != b
      ensures !Sub(a, b)
    {
      var i: nat :| i < |boxes| && Alive(live, i) && boxes[i] == a;
      var j: nat :| j < |boxes| && Alive(live, j) && boxes[j] == b;
    }
  }

  lemma FreeIsInjective(boxes: seq<Box>, live: seq<bool>, i: nat, j: nat)
    requires Free(boxes, live) && i < |boxes| && j < |boxes| && Alive(live, i) && Alive(live, j) && boxes[i] == boxes[j]
    ensures i == j
  {
    SubsumesIsReflexive(boxes[i]);
  }

  /** A grid with every box registered. */
  method GridOver(cover: seq<Box>, dims: nat, binHash: BinHash) returns (g: CoverGrid)
    requires cover != [] && AllDims(cover, dims)
    ensures fresh(g) && g.Valid() && |g.binOf| == |cover| && |g.cell| == dims
    ensures forall k: nat :: k < |cover| ==> g.Finds(k, cover[k])
  {
    var origin, cell := FrameOf(cover, dims);
    g := new CoverGrid(origin, cell, binHash);
    for id := 0 to |cover|
      invariant fresh(g) && g.Valid() && |g.binOf| == id && g.cell == cell
      invariant forall k: nat :: k < id ==> g.Finds(k, cover[k])
    {
      g.Add(id, cover[id]);
    }
  }

  /** The boxes with a point, and the buckets that list them. */
  method IndexSolid(cover: seq<Box>, hash: Hash) returns (alive: seq<bool>, index: Buckets)
    ensures |alive| == |cover| && forall k :: 0 <= k < |cover| ==> (alive[k] <==> !Hollow(cover[k]))
    ensures LiveRegistered(cover, alive, index, hash)
  {
    alive, index := [], map[];
    for id := 0 to |cover|
      invariant |alive| == id && forall k :: 0 <= k < id ==> (alive[k] <==> !Hollow(cover[k]))
      invariant LiveRegistered(cover[..id], alive, index, hash)
    {
      var b := cover[id];
      assert cover[..id + 1] == cover[..id] + [b];
      if Hollow(b) {
        RegisteredAfterSkip(cover[..id], alive, b, index, hash);
        alive := alive + [false];
      } else {
        var more := IndexBox(index, hash, b, id);
        RegisteredAfterAdd(cover[..id], alive, b, index, more, hash);
        index := more;
        alive := alive + [true];
      }
    }
    assert cover[..|cover|] == cover;
  }

  // ----- pairs -----

  ghost predicate Partner(boxes: seq<Box>, live: seq<bool>, id: nat, j: nat) {
    id < |boxes| && j < |boxes| && j != id && Alive(live, j) && Mergeable(boxes[id], boxes[j])
  }

  method FilterPartners(boxes: seq<Box>, live: seq<bool>, id: nat, ids: seq<nat>) returns (out: seq<nat>)
    requires |live| == |boxes| && id < |boxes| && forall t :: 0 <= t < |ids| ==> ids[t] < |boxes|
    ensures forall k :: 0 <= k < |out| ==> out[k] < |boxes| && Partner(boxes, live, id, out[k])
    ensures forall j :: j in ids && Partner(boxes, live, id, j) ==> j in out
  {
    out := [];
    for t := 0 to |ids|
      invariant forall k :: 0 <= k < |out| ==> out[k] < |boxes| && Partner(boxes, live, id, out[k])
      invariant forall s :: 0 <= s < t && Partner(boxes, live, id, ids[s]) ==> ids[s] in out
    {
      var other := ids[t];
      if !(other == id || !live[other]) {
        if MergePair(boxes[id], boxes[other]).Some? { out := out + [other]; }
      }
    }
  }

  /** The pair with the canonically first box first. */
  function OrderedPair(boxes: seq<Box>, a: nat, b: nat): Pair
    requires a < |boxes| && b < |boxes|
  {
    if Less(boxes[b], boxes[a]) then Pair(b, a) else Pair(a, b)
  }

  lemma OrderedIsOrdered(boxes: seq<Box>, a: nat, b: nat, n: nat)
    requires AllDims(boxes, n) && a < |boxes| && b < |boxes|
    ensures var p := OrderedPair(boxes, a, b); !Less(boxes[p.second], boxes[p.first])
  {
    LessIsTotal(boxes[a], boxes[b]);
  }

  /** A live pair involving `id` is the ordered pair of `id` and a partner. */
  lemma PairPartner(boxes: seq<Box>, live: seq<bool>, p: Pair, id: nat, n: nat) returns (j: nat)
    requires Sound(boxes, live, n) && LivePair(boxes, live, p) && (p.first == id || p.second == id)
    ensures j < |boxes| && j != id && Alive(live, j) && Mergeable(boxes[id], boxes[j]) && OrderedPair(boxes, id, j) == p
  {
    j := if p.first == id then p.second else p.first;
    MergeIsSymmetric(boxes[p.first], boxes[p.second]);
    LessIsTotal(boxes[p.first], boxes[p.second]);
  }

  predicate PairBefore(boxes: seq<Box>, p: Pair, q: Pair) {
    && p.first < |boxes| && p.second < |boxes| && q.first < |boxes| && q.second < |boxes|
    && PairLess(boxes[p.first], boxes[p.second], boxes[q.first], boxes[q.second])
  }

  ghost predicate InBounds(boxes: seq<Box>, p: Pair) {
    p.first < |boxes| && p.second < |boxes|
  }

  lemma PairBeforeKeepsLeast(boxes: seq<Box>, p: Pair, q: Pair, r: Pair, n: nat)
    requires AllDims(boxes, n) && InBounds(boxes, p) && InBounds(boxes, q) && InBounds(boxes, r)
    requires PairBefore(boxes, p, q) && !PairBefore(boxes, r, q)
    ensures !PairBefore(boxes, r, p)
  {
    if PairBefore(boxes, r, p) {
      PairLessIsTransitive(boxes[r.first], boxes[r.second], boxes[p.first], boxes[p.second], boxes[q.first], boxes[q.second]);
    }
  }

  lemma PairBeforeIsIrreflexive(boxes: seq<Box>, p: Pair)
    ensures !PairBefore(boxes, p, p)
  {
    if InBounds(boxes, p) {
      LessIsTotal(boxes[p.first], boxes[p.first]);
      LessIsTotal(boxes[p.second], boxes[p.second]);
    }
  }

  /** The position of a pair that no other precedes. */
  method LeastOf(boxes: seq<Box>, pairs: seq<Pair>, ghost n: nat) returns (m: nat)
    requires AllDims(boxes, n) && pairs != [] && forall p :: p in pairs ==> InBounds(boxes, p)
    ensures m < |pairs| && forall q :: q in pairs ==> !PairBefore(boxes, q, pairs[m])
  {
    m := 0;
    PairBeforeIsIrreflexive(boxes, pairs[0]);
    for i := 1 to |pairs|
      invariant m < |pairs| && forall k :: 0 <= k < i ==> !PairBefore(boxes, pairs[k], pairs[m])
    {
      if PairBefore(boxes, pairs[i], pairs[m]) {
        forall k | 0 <= k < i
          ensures !PairBefore(boxes, pairs[k], pairs[i])
        {
          assert pairs[k] in pairs && pairs[m] in pairs && pairs[i] in pairs;
          PairBeforeKeepsLeast(boxes, pairs[i], pairs[m], pairs[k], n);
        }
        PairBeforeIsIrreflexive(boxes, pairs[i]);
        m := i;
      }
    }
  }

  lemma NotMergeableWithItself(b: Box)
    ensures !Mergeable(b, b)
  {
    if Mergeable(b, b) {
      var d := MergeMeansAbuts(b, b);
    }
  }

  /** A popped pair that is still live and mergeable is the first mergeable pair of the cover. */
  lemma PoppedIsFirst(boxes: seq<Box>, live: seq<bool>, pairs: seq<Pair>, p: Pair, n: nat)
    requires Sound(boxes, live, n) && PairsOrdered(boxes, pairs) && Queued(boxes, live, pairs) && p in pairs
    requires forall q :: q in pairs ==> !PairBefore(boxes, q, p)
    requires live[p.first] && live[p.second] && Mergeable(boxes[p.first], boxes[p.second])
    ensures LivePair(boxes, live, p) && IsFirst(LiveSet(boxes, live), boxes[p.first], boxes[p.second])
  {
    var a, b := boxes[p.first], boxes[p.second];
    NotMergeableWithItself(a);
    LessIsTotal(a, b);
    assert Alive(live, p.first) && Alive(live, p.second);
    var C := LiveSet(boxes, live);
    forall c, d | IsPair(C, c, d)
      ensures (c == a && d == b) || PairLess(a, b, c, d)
    {
      var i: nat :| i < |boxes| && Alive(live, i) && boxes[i] == c;
      var j: nat :| j < |boxes| && Alive(live, j) && boxes[j] == d;
      assert LivePair(boxes, live, Pair(i, j));
      assert !PairBefore(boxes, Pair(i, j), p);
      PairLessIsTotal(a, b, c, d);
    }
  }

  lemma NoPairIsStuck(boxes: seq<Box>, live: seq<bool>)
    requires Queued(boxes, live, [])
    ensures Stuck(LiveSet(boxes, live))
  {
    forall c, d | IsPair(LiveSet(boxes, live), c, d)
      ensures false
    {
      var i: nat :| i < |boxes| && Alive(live, i) && boxes[i] == c;
      var j: nat :| j < |boxes| && Alive(live, j) && boxes[j] == d;
      assert LivePair(boxes, live, Pair(i, j));
    }
  }

  method SortBoxes(found: seq<Box>, ghost n: nat) returns (out: seq<Box>)
    requires Distinct(found) && OfDims(found, n)
    ensures Sorted(out) && Elements(out) == Elements(found)
  {
    forall x, y, z | x in found && y in found && z in found
      ensures Less(x, y) ==> !Less(y, x)
      ensures !Less(y, x) && !Less(z, y) ==> !Less(z, x)
    {
      LessIsTotal(x, y);
      LessIsTotal(y, z);
      LessIsTotal(x, z);
      if Less(x, y) && Less(y, z) { LessIsTransitive(x, y, z); }
    }
    out := Sort(found, Less);
    DistinctTransfers(found, out);
    forall j, k | 0 <= j < k < |out|
      ensures Less(out[j], out[k])
    {
      assert out[j] in found && out[k] in found;
      LessIsTotal(out[j], out[k]);
    }
  }

  // ----- one merge -----

  /** Exactly the boxes `u` covers are retired. */
  ghost predicate Absorbed(boxes: seq<Box>, before: seq<bool>, after: seq<bool>, u: nat)
    requires u < |boxes|
  {
    && |after| == |before|
    && forall i: nat :: i < |boxes| ==> (Alive(after, i) <==> Alive(before, i) && (i == u || !Sub(boxes[u], boxes[i])))
  }

  /** Only boxes `u` covers have been retired so far. */
  ghost predicate Partly(boxes: seq<Box>, before: seq<bool>, after: seq<bool>, u: nat)
    requires u < |boxes|
  {
    && |after| == |before| && Shrinks(before, after)
    && forall i: nat :: i < |boxes| && Alive(before, i) && !Alive(after, i) ==> i != u && Sub(boxes[u], boxes[i])
  }

  /** A box with a point overlaps the union that covers it. */
  lemma AbsorbedOverlaps(u: Box, c: Box)
    requires Sub(u, c) && !Hollow(c)
    ensures Overlaps(c, u)
  {
    CovererOverlaps(u, c);
    OverlapsIsSymmetric(u, c);
  }

  lemma DisjointAbsorbsNothing(boxes: seq<Box>, live: seq<bool>, u: nat, n: nat)
    requires Sound(boxes, live, n) && u < |boxes|
    requires forall c: nat :: c < |boxes| && c != u && Alive(live, c) ==> !Overlaps(boxes[u], boxes[c])
    ensures Absorbed(boxes, live, live, u)
  {
    forall c: nat | c < |boxes| && c != u && Alive(live, c)
      ensures !Sub(boxes[u], boxes[c])
    {
      if Sub(boxes[u], boxes[c]) { CovererOverlaps(boxes[u], boxes[c]); }
    }
  }

  /** The live flags with the pair retired and its union appended. */
  function Replaced(live: seq<bool>, p: Pair): seq<bool>
    requires p.first < |live| && p.second < |live|
  {
    live[p.first := false][p.second := false] + [true]
  }

  lemma ReplacedAlive(live: seq<bool>, p: Pair, i: nat)
    requires p.first < |live| && p.second < |live|
    ensures Alive(Replaced(live, p), i) <==> i == |live| || (Alive(live, i) && i != p.first && i != p.second)
  {
  }

  /** The boxes and flags after merging pair `p` of a cover. */
  ghost predicate AfterMerge(boxes: seq<Box>, live: seq<bool>, p: Pair, live': seq<bool>, n: nat) {
    && Sound(boxes, live, n) && Free(boxes, live) && LivePair(boxes, live, p)
    && Absorbed(boxes + [MergePair(boxes[p.first], boxes[p.second]).value], Replaced(live, p), live', |boxes|)
  }

  lemma AfterMergeAlive(boxes: seq<Box>, live: seq<bool>, p: Pair, live': seq<bool>, n: nat, i: nat)
    requires AfterMerge(boxes, live, p, live', n) && i <= |boxes|
    ensures i == |boxes| ==> Alive(live', i)
    ensures i < |boxes| ==> (Alive(live', i) <==>
      Alive(live, i) && i != p.first && i != p.second && !Sub(MergePair(boxes[p.first], boxes[p.second]).value, boxes[i]))
  {
    ReplacedAlive(live, p, i);
    var boxes' := boxes + [MergePair(boxes[p.first], boxes[p.second]).value];
    assert i < |boxes'|;
  }

  lemma MergedContents(boxes: seq<Box>, live: seq<bool>, p: Pair, live': seq<bool>, n: nat)
    requires AfterMerge(boxes, live, p, live', n)
    ensures var m := MergePair(boxes[p.first], boxes[p.second]).value;
      LiveSet(boxes + [m], live') == Merged(LiveSet(boxes, live), boxes[p.first], boxes[p.second])
  {
    var a, b, m := boxes[p.first], boxes[p.second], MergePair(boxes[p.first], boxes[p.second]).value;
    var boxes', C := boxes + [m], LiveSet(boxes, live);
    forall c | c in LiveSet(boxes', live')
      ensures c in Merged(C, a, b)
    {
      var i: nat :| i < |boxes'| && Alive(live', i) && boxes'[i] == c;
      AfterMergeAlive(boxes, live, p, live', n, i);
      if i < |boxes| {
        if c == a { FreeIsInjective(boxes, live, i, p.first); }
        if c == b { FreeIsInjective(boxes, live, i, p.second); }
      }
    }
    forall c | c in Merged(C, a, b)
      ensures c in LiveSet(boxes', live')
    {
      if c == m {
        AfterMergeAlive(boxes, live, p, live', n, |boxes|);
        assert boxes'[|boxes|] == m;
      } else {
        var i: nat :| i < |boxes| && Alive(live, i) && boxes[i] == c;
        AfterMergeAlive(boxes, live, p, live', n, i);
        assert boxes'[i] == c;
      }
    }
  }

  lemma MergedFree(boxes: seq<Box>, live: seq<bool>, p: Pair, live': seq<bool>, n: nat)
    requires AfterMerge(boxes, live, p, live', n)
    ensures Free(boxes + [MergePair(boxes[p.first], boxes[p.second]).value], live')
  {
    var a, b, m := boxes[p.first], boxes[p.second], MergePair(boxes[p.first], boxes[p.second]).value;
    var boxes' := boxes + [m];
    assert Alive(live, p.first) && Alive(live, p.second);
    MergeIsUnion(a, b);
    forall i: nat, j: nat | i < |boxes'| && j < |boxes'| && i != j && Alive(live', i) && Alive(live', j)
      ensures !Sub(boxes'[i], boxes'[j])
    {
      AfterMergeAlive(boxes, live, p, live', n, i);
      AfterMergeAlive(boxes, live, p, live', n, j);
      if j == |boxes| && Sub(boxes[i], m) { SubIsTransitive(boxes[i], m, a); }
    }
  }

  /** In a disjoint cover the union of two boxes shares no point with a third. */
  lemma UnionApart(a: Box, b: Box, c: Box)
    requires |a| == |c| && Mergeable(a, b) && !Hollow(a) && !Hollow(b)
    requires |a| == |b| && !Overlaps(a, c) && !Overlaps(b, c)
    ensures |MergePair(a, b).value| == |c| && !Overlaps(MergePair(a, b).value, c)
  {
    MergeIsUnion(a, b);
    OverlapsMeansShared(a, c);
    OverlapsMeansShared(b, c);
    OverlapsMeansShared(MergePair(a, b).value, c);
  }

  lemma UnionStaysApart(boxes: seq<Box>, live: seq<bool>, p: Pair, n: nat)
    requires Sound(boxes, live, n) && LivePair(boxes, live, p) && Disjoint(boxes, live, n)
    ensures var m := MergePair(boxes[p.first], boxes[p.second]).value; var boxes' := boxes + [m];
      && |m| == n
      && forall c: nat :: c < |boxes'| && c != |boxes| && Alive(Replaced(live, p), c) ==>
        |boxes'[c]| == n && !Overlaps(m, boxes'[c])
  {
    var a, b := boxes[p.first], boxes[p.second];
    assert Alive(live, p.first) && Alive(live, p.second);
    MergeIsUnion(a, b);
    forall c: nat | c < |boxes| && Alive(Replaced(live, p), c)
      ensures !Overlaps(MergePair(a, b).value, boxes[c])
    {
      ReplacedAlive(live, p, c);
      UnionApart(a, b, boxes[c]);
    }
  }

  lemma MergedDisjoint(boxes: seq<Box>, live: seq<bool>, p: Pair, live': seq<bool>, n: nat)
    requires AfterMerge(boxes, live, p, live', n) && Disjoint(boxes, live, n)
    ensures AllDims(boxes + [MergePair(boxes[p.first], boxes[p.second]).value], n)
    ensures Disjoint(boxes + [MergePair(boxes[p.first], boxes[p.second]).value], live', n)
  {
    UnionStaysApart(boxes, live, p, n);
    var m := MergePair(boxes[p.first], boxes[p.second]).value;
    var boxes' := boxes + [m];
    forall i: nat, j: nat | i < |boxes'| && j < |boxes'| && i != j && Alive(live', i) && Alive(live', j)
      ensures !Overlaps(boxes'[i], boxes'[j])
    {
      AfterMergeAlive(boxes, live, p, live', n, i);
      AfterMergeAlive(boxes, live, p, live', n, j);
      ReplacedAlive(live, p, i);
      ReplacedAlive(live, p, j);
      OverlapsIsSymmetric(boxes'[i], boxes'[j]);
    }
  }

  lemma MergedQueue(boxes: seq<Box>, live: seq<bool>, pairs: seq<Pair>, p: Pair, live': seq<bool>, n: nat)
    requires AfterMerge(boxes, live, p, live', n)
    requires forall q :: LivePair(boxes, live, q) && q != p ==> q in pairs
    ensures QueuedExcept(boxes + [MergePair(boxes[p.first], boxes[p.second]).value], live', pairs, |boxes|)
  {
    var boxes' := boxes + [MergePair(boxes[p.first], boxes[p.second]).value];
    forall q | LivePair(boxes', live', q) && q.first != |boxes| && q.second != |boxes|
      ensures q in pairs
    {
      AfterMergeAlive(boxes, live, p, live', n, q.first);
      AfterMergeAlive(boxes, live, p, live', n, q.second);
      assert LivePair(boxes, live, q);
    }
  }

  lemma MergedPairsOrdered(boxes: seq<Box>, boxes': seq<Box>, pairs: seq<Pair>)
    requires PairsOrdered(boxes, pairs) && boxes <= boxes'
    ensures PairsOrdered(boxes', pairs)
  {
  }

  lemma OfferedAll(boxes: seq<Box>, live: seq<bool>, before: seq<Pair>, after: seq<Pair>, u: nat)
    requires QueuedExcept(boxes, live, before, u) && before <= after
    requires forall p :: LivePair(boxes, live, p) && (p.first == u || p.second == u) ==> p in after
    ensures Queued(boxes, live, after)
  {
  }

  ghost predicate IsUnited(boxes: seq<Box>, p: Pair, boxes': seq<Box>) {
    && p.first < |boxes| && p.second < |boxes| && MergePair(boxes[p.first], boxes[p.second]).Some?
    && boxes' == boxes + [MergePair(boxes[p.first], boxes[p.second]).value]
  }

  /** What a merge keeps of a cover and of its heap of pairs. */
  lemma MergedCover(boxes: seq<Box>, live: seq<bool>, pairs: seq<Pair>, disjoint: bool, p: Pair,
                    boxes': seq<Box>, live': seq<bool>, n: nat)
    requires AfterMerge(boxes, live, p, live', n) && IsUnited(boxes, p, boxes') && AllDims(boxes', n)
    requires PairsOrdered(boxes, pairs) && forall q :: LivePair(boxes, live, q) && q != p ==> q in pairs
    requires disjoint ==> Disjoint(boxes, live, n)
    ensures LiveSet(boxes', live') == Merged(LiveSet(boxes, live), boxes[p.first], boxes[p.second])
    ensures Free(boxes', live') && (disjoint ==> Disjoint(boxes', live', n))
    ensures PairsOrdered(boxes', pairs) && QueuedExcept(boxes', live', pairs, |boxes|)
  {
    MergedContents(boxes, live, p, live', n);
    MergedFree(boxes, live, p, live', n);
    if disjoint { MergedDisjoint(boxes, live, p, live', n); }
    MergedQueue(boxes, live, pairs, p, live', n);
    MergedPairsOrdered(boxes, boxes', pairs);
  }

  class Merger {
    const dims: nat
    const hash: Hash
    const grid: CoverGrid
    var boxes: seq<Box>
    var live: seq<bool>
    var buckets: Buckets
    var pairs: seq<Pair>
    var disjoint: bool

    /** Every live box has a point, is listed in its buckets, and is found by the grid. */
    ghost predicate Core()
      reads this, grid
    {
      && Sound(boxes, live, dims) && LiveRegistered(boxes, live, buckets, hash)
      && grid.Valid() && |grid.binOf| == |boxes| && |grid.cell| == dims
      && forall id: nat :: id < |boxes| && Alive(live, id) ==> grid.Finds(id, boxes[id])
    }

    /** The cover is subsumption-free, and disjoint when it is flagged so. */
    ghost predicate Valid()
      reads this, grid
    {
      Core() && Free(boxes, live) && PairsOrdered(boxes, pairs) && (disjoint ==> Disjoint(boxes, live, dims))
    }

    ghost function Contents(): set<Box>
      reads this
    {
      LiveSet(boxes, live)
    }

    /** Indexes a cover, leaving out the boxes without a point. */
    constructor (cover: seq<Box>, dims: nat, hash: Hash, binHash: BinHash)
      requires cover != [] && AllDims(cover, dims)
      ensures Core() && this.dims == dims && boxes == cover && pairs == [] && !disjoint && fresh(grid)
      ensures Contents() == Solid(cover)
    {
      this.dims, this.hash := dims, hash;
      boxes, pairs, disjoint := cover, [], false;
      var g := GridOver(cover, dims, binHash);
      var alive, index := IndexSolid(cover, hash);
      live, buckets, grid := alive, index, g;
      new;
      SolidIsLive(cover, live);
    }

    /** kill: the box leaves the indexes; its geometry stays, because the heap orders pairs by it. */
    method Kill(id: nat)
      requires Core() && id < |boxes| && live[id]
      modifies this`live, this`buckets, grid
      ensures Core() && live == old(live)[id := false]
      ensures Unlists(old(buckets), buckets, Keys(hash, boxes[id]), id)
      ensures id !in grid.big && forall key: nat :: !Listed(grid.bins, key, id)
    {
      ghost var live0, buckets0 := live, buckets;
      live := live[id := false];
      buckets := UnindexBox(buckets, hash, boxes[id], id);
      RegisteredAfterKill(boxes, live0, id, buckets0, buckets, hash);
      grid.Remove(id);
    }

    /** add: a new live box under the next free id, known to the buckets and the grid. */
    method Add(b: Box) returns (id: nat)
      requires Core() && |b| == dims && !Hollow(b)
      modifies this`boxes, this`live, this`buckets, grid
      ensures Core() && id == old(|boxes|) && boxes == old(boxes) + [b] && live == old(live) + [true]
      ensures Lists(old(buckets), buckets, Keys(hash, b), id)
    {
      id := |boxes|;
      ghost var boxes0, live0, buckets0 := boxes, live, buckets;
      boxes := boxes + [b];
      live := live + [true];
      buckets := IndexBox(buckets, hash, b, id);
      RegisteredAfterAdd(boxes0, live0, b, buckets0, buckets, hash);
      grid.Add(id, b);
    }

    /** The live boxes that may share a point with the given one. */
    method Candidates(id: nat) returns (ids: seq<nat>)
      requires Core() && id < |boxes|
      ensures forall k :: 0 <= k < |ids| ==> ids[k] < |boxes|
      ensures forall c: nat :: c < |boxes| && Alive(live, c) && Overlaps(boxes[c], boxes[id]) ==> c in ids
    {
      var exhaustive;
      ids, exhaustive := grid.Overlapping(boxes[id]);
      if exhaustive {
        ids := seq(|boxes|, k => k);
        forall c: nat | c < |boxes|
          ensures c in ids
        {
          assert ids[c] == c;
        }
      }
    }

    /** The lowest live id whose box covers the given one, or -1. */
    method Subsumer(id: nat) returns (best: int)
      requires Core() && id < |boxes| && live[id]
      ensures best == -1 <==> Uncovered(boxes, live, id)
      ensures best != -1 ==> 0 <= best < |boxes| && best != id && live[best] && Sub(boxes[best], boxes[id])
      ensures forall c: nat :: c < |boxes| && c < best && c != id && live[c] ==> !Sub(boxes[c], boxes[id])
    {
      var ids := Candidates(id);
      best := -1;
      for k := 0 to |ids|
        invariant best == -1 || (0 <= best < |boxes| && best != id && live[best] && Sub(boxes[best], boxes[id]))
        invariant forall j :: 0 <= j < k && ids[j] != id && live[ids[j]] && Sub(boxes[ids[j]], boxes[id]) ==>
          best != -1 && best <= ids[j]
      {
        var c := ids[k];
        if c != id && live[c] && Sub(boxes[c], boxes[id]) {
          if best < 0 || c < best { best := c; }
        }
      }
      forall c: nat | c < |boxes| && c != id && Alive(live, c) && Sub(boxes[c], boxes[id])
        ensures best != -1 && best <= c
      {
        CovererOverlaps(boxes[c], boxes[id]);
        var j :| 0 <= j < |ids| && ids[j] == c;
      }
    }

    /** dedupe: exactly the maximal boxes stay live, each geometry once. */
    method Dedupe()
      requires Core()
      modifies this`live, this`buckets, grid
      ensures Core() && Free(boxes, live) && Contents() == Maxima(old(Contents()))
    {
      ghost var S, live0 := Contents(), live;
      StartCoversAll(boxes, live);
      for id := 0 to |boxes|
        invariant Core() && CoversAll(boxes, live, S) && Shrinks(live0, live)
        invariant forall i: nat :: i < id && Alive(live, i) ==> Uncovered(boxes, live, i)
      {
        ghost var before := live;
        if live[id] {
          var subsumer := Subsumer(id);
          if subsumer >= 0 {
            KillCovered(boxes, live, S, id, subsumer);
            Kill(id);
          }
        }
        StillUncovered(boxes, before, live, id);
      }
      LiveSetShrinks(boxes, live0, live);
      DedupedIsMaximal(boxes, live, S);
    }

    /** detectDisjoint: whether no two live boxes share a point. */
    method DetectDisjoint() returns (apart: bool)
      requires Core()
      ensures apart <==> Disjoint(boxes, live, dims)
    {
      for id := 0 to |boxes|
        invariant forall i: nat, c: nat :: i < id && c < |boxes| && c != i && Alive(live, i) && Alive(live, c) ==>
          !Overlaps(boxes[i], boxes[c])
      {
        if live[id] {
          var ids := Candidates(id);
          for k := 0 to |ids|
            invariant forall j :: 0 <= j < k && ids[j] != id && live[ids[j]] ==> !Overlaps(boxes[id], boxes[ids[j]])
          {
            var c := ids[k];
            if c != id && live[c] && Overlaps(boxes[id], boxes[c]) {
              assert Alive(live, id) && Alive(live, c);
              return false;
            }
          }
          forall c: nat | c < |boxes| && c != id && Alive(live, c)
            ensures !Overlaps(boxes[id], boxes[c])
          {
            OverlapsIsSymmetric(boxes[c], boxes[id]);
            if c in ids { var j :| 0 <= j < |ids| && ids[j] == c; }
          }
        }
      }
      return true;
    }

    /** The live boxes that can merge with the given one. */
    method Partners(id: nat) returns (out: seq<nat>)
      requires Core() && id < |boxes| && live[id]
      ensures forall k :: 0 <= k < |out| ==> out[k] < |boxes| && Partner(boxes, live, id, out[k])
      ensures forall j: nat :: j < |boxes| && j != id && Alive(live, j) && Mergeable(boxes[id], boxes[j]) ==> j in out
    {
      var box := boxes[id];
      out := [];
      for d := 0 to dims
        invariant forall k :: 0 <= k < |out| ==> out[k] < |boxes| && Partner(boxes, live, id, out[k])
        invariant forall e, j :: 0 <= e < d && Listed(buckets, Key(hash, box, e), j) && Partner(boxes, live, id, j) ==> j in out
      {
        var k := Key(hash, box, d);
        if k in buckets {
          assert forall t :: 0 <= t < |buckets[k]| ==> Listed(buckets, k, buckets[k][t]);
          var more := FilterPartners(boxes, live, id, buckets[k]);
          out := out + more;
        }
      }
      forall j: nat | j < |boxes| && j != id && Alive(live, j) && Mergeable(box, boxes[j])
        ensures j in out
      {
        var d := PartnerIsListed(buckets, hash, box, boxes[j], j);
        assert Partner(boxes, live, id, j);
      }
    }

    /** offer: pushes every pair the box forms with a partner. */
    method Offer(id: nat)
      requires Core() && id < |boxes| && live[id] && PairsOrdered(boxes, pairs)
      modifies this`pairs
      ensures PairsOrdered(boxes, pairs) && old(pairs) <= pairs
      ensures forall p :: LivePair(boxes, live, p) && (p.first == id || p.second == id) ==> p in pairs
    {
      var others := Partners(id);
      ghost var before := pairs;
      for k := 0 to |others|
        invariant PairsOrdered(boxes, pairs) && before <= pairs
        invariant forall j :: 0 <= j < k ==> OrderedPair(boxes, id, others[j]) in pairs
      {
        pairs := pairs + [OrderedPair(boxes, id, others[k])];
        OrderedIsOrdered(boxes, id, others[k], dims);
      }
      forall p | LivePair(boxes, live, p) && (p.first == id || p.second == id)
        ensures p in pairs
      {
        var j := PairPartner(boxes, live, p, id, dims);
      }
    }

    /** container/heap Pop, by contract: removes a pair that no other precedes. */
    method PopPair() returns (p: Pair)
      requires Core() && PairsOrdered(boxes, pairs) && pairs != []
      modifies this`pairs
      ensures p in old(pairs) && |pairs| == old(|pairs|) - 1
      ensures forall q :: q in old(pairs) && q != p ==> q in pairs
      ensures forall q :: q in pairs ==> q in old(pairs)
      ensures forall q :: q in old(pairs) ==> !PairBefore(boxes, q, p)
    {
      var m := LeastOf(boxes, pairs, dims);
      p := pairs[m];
      assert pairs == pairs[..m] + [pairs[m]] + pairs[m + 1..];
      pairs := pairs[..m] + pairs[m + 1..];
    }

    /** nextPair: the first pair still mergeable; stale pairs are discarded on the way. */
    method NextPair() returns (p: Pair, ok: bool)
      requires Valid() && Queued(boxes, live, pairs)
      modifies this`pairs
      ensures Valid()
      ensures ok ==> LivePair(boxes, live, p) && IsFirst(Contents(), boxes[p.first], boxes[p.second])
      ensures ok ==> forall q :: LivePair(boxes, live, q) && q != p ==> q in pairs
      ensures !ok ==> Stuck(Contents())
    {
      while pairs != []
        invariant Valid() && Queued(boxes, live, pairs)
        decreases |pairs|
      {
        ghost var before := pairs;
        p := PopPair();
        if live[p.first] && live[p.second] {
          if MergePair(boxes[p.first], boxes[p.second]).Some? {
            PoppedIsFirst(boxes, live, before, p, dims);
            return p, true;
          }
        }
      }
      NoPairIsStuck(boxes, live);
      return Pair(0, 0), false;
    }

    /** absorb: retires every live box the union covers; a disjoint cover has none. */
    method Absorb(union: nat)
      requires Core() && union < |boxes| && live[union]
      requires disjoint ==> forall c: nat :: c < |boxes| && c != union && Alive(live, c) ==> !Overlaps(boxes[union], boxes[c])
      modifies this`live, this`buckets, grid
      ensures Core() && Absorbed(boxes, old(live), live, union)
    {
      if disjoint {
        DisjointAbsorbsNothing(boxes, live, union, dims);
        return;
      }
      ghost var before := live;
      var ids := Candidates(union);
      for k := 0 to |ids|
        invariant Core() && Partly(boxes, before, live, union)
        invariant forall j :: 0 <= j < k && ids[j] != union && Sub(boxes[union], boxes[ids[j]]) ==> !live[ids[j]]
      {
        var c := ids[k];
        if c != union && live[c] && Sub(boxes[union], boxes[c]) {
          Kill(c);
        }
      }
      forall c: nat | c < |boxes| && c != union && Alive(live, c)
        ensures !Sub(boxes[union], boxes[c])
      {
        assert Alive(before, c);
        assert c in ids ==> !Sub(boxes[union], boxes[c]);
        if Sub(boxes[union], boxes[c]) { AbsorbedOverlaps(boxes[union], boxes[c]); }
      }
    }

    /** Retires the pair and adds its union. */
    method Replace(p: Pair) returns (union: nat)
      requires Valid() && LivePair(boxes, live, p)
      modifies this`boxes, this`live, this`buckets, grid
      ensures Core() && union == old(|boxes|)
      ensures boxes == old(boxes) + [old(MergePair(boxes[p.first], boxes[p.second]).value)]
      ensures live == Replaced(old(live), p)
    {
      var merged := MergePair(boxes[p.first], boxes[p.second]).value;
      assert Alive(live, p.first) && Alive(live, p.second);
      MergeIsUnion(boxes[p.first], boxes[p.second]);
      LessIsIrreflexive(boxes[p.first], boxes[p.second]);
      Kill(p.first);
      Kill(p.second);
      union := Add(merged);
    }

    /** The union replaces the pair and absorbs what it covers. */
    method Unite(p: Pair) returns (union: nat)
      requires Valid() && LivePair(boxes, live, p)
      modifies this`boxes, this`live, this`buckets, grid
      ensures Core() && union == old(|boxes|) && IsUnited(old(boxes), p, boxes)
      ensures AfterMerge(old(boxes), old(live), p, live, dims)
    {
      ghost var boxes0, live0 := boxes, live;
      union := Replace(p);
      if disjoint { UnionStaysApart(boxes0, live0, p, dims); }
      Absorb(union);
    }

    /** merge: the union replaces the pair, absorbs what it covers, and is offered to its partners. */
    method Merge(p: Pair)
      requires Valid() && LivePair(boxes, live, p)
      requires forall q :: LivePair(boxes, live, q) && q != p ==> q in pairs
      modifies this, grid
      ensures Valid() && Queued(boxes, live, pairs)
      ensures Contents() == old(Merged(Contents(), boxes[p.first], boxes[p.second]))
    {
      ghost var boxes0, live0, before := boxes, live, pairs;
      var union := Unite(p);
      MergedCover(boxes0, live0, pairs, disjoint, p, boxes, live, dims);
      Offer(union);
      OfferedAll(boxes, live, before, pairs, union);
    }

    /** Settles a freshly indexed cover: dedupe, detect disjointness, offer every pair. */
    method Prepare()
      requires Core() && pairs == []
      modifies this, grid
      ensures Valid() && Queued(boxes, live, pairs) && Contents() == Maxima(old(Contents()))
    {
      Dedupe();
      disjoint := DetectDisjoint();
      OfferAll();
    }

    method OfferAll()
      requires Valid()
      modifies this`pairs
      ensures Valid() && Queued(boxes, live, pairs)
    {
      for id := 0 to |boxes|
        invariant PairsOrdered(boxes, pairs)
        invariant forall p :: LivePair(boxes, live, p) && (p.first < id || p.second < id) ==> p in pairs
      {
        if live[id] {
          Offer(id);
        }
      }
    }

    /** run: merges until no mergeable pair is left. */
    method Run() returns (out: seq<Box>)
      requires Valid() && Queued(boxes, live, pairs)
      modifies this, grid
      ensures Sorted(out) && Elements(out) == Greedy(old(Contents()))
    {
      while true
        invariant Valid() && Queued(boxes, live, pairs) && Greedy(Contents()) == Greedy(old(Contents()))
        decreases |Contents()|
      {
        var p, ok := NextPair();
        if !ok {
          GreedyStops(Contents());
          out := Result();
          return;
        }
        ghost var before := Contents();
        LessIsIrreflexive(boxes[p.first], boxes[p.second]);
        MergedShrinks(before, boxes[p.first], boxes[p.second]);
        GreedyStep(before, boxes[p.first], boxes[p.second]);
        Merge(p);
      }
    }

    /** The surviving boxes in canonical cover order. */
    method Result() returns (out: seq<Box>)
      requires Valid()
      ensures Sorted(out) && Elements(out) == Contents()
    {
      var found: seq<Box> := [];
      for id := 0 to |boxes|
        invariant Distinct(found) && forall b :: b in found <==> exists i: nat :: i < id && Alive(live, i) && boxes[i] == b
      {
        if live[id] {
          assert Alive(live, id);
          forall i: nat | i < id && Alive(live, i)
            ensures boxes[i] != boxes[id]
          {
            if boxes[i] == boxes[id] { FreeIsInjective(boxes, live, i, id); }
          }
          assert boxes[id] !in found;
          DistinctAppend(found, boxes[id]);
          found := found + [boxes[id]];
        }
      }
      out := SortBoxes(found, dims);
      assert forall b :: b in found <==> b in Contents();
    }
  }

  // ----- dedupe -----

  /** A box with a point overlaps every box that covers it. */
  lemma CovererOverlaps(c: Box, b: Box)
    requires Sub(c, b) && !Hollow(b)
    ensures Overlaps(c, b)
  {
    SelfOverlaps(b);
    SubsumesIsReflexive(b);
    OverlapGrows(c, b, b, b);
  }

  /** Every box of `S` lies in a live one. */
  ghost predicate CoversAll(boxes: seq<Box>, live: seq<bool>, S: set<Box>) {
    forall s :: s in S ==> exists id: nat :: id < |boxes| && Alive(live, id) && Sub(boxes[id], s)
  }

  /** Retiring a box another live box covers loses nothing. */
  lemma KillCovered(boxes: seq<Box>, live: seq<bool>, S: set<Box>, id: nat, c: nat)
    requires |live| == |boxes| && CoversAll(boxes, live, S)
    requires id < |boxes| && c < |boxes| && c != id && live[c] && Sub(boxes[c], boxes[id])
    ensures CoversAll(boxes, live[id := false], S)
  {
    var live' := live[id := false];
    forall s | s in S
      ensures exists i: nat :: i < |boxes| && Alive(live', i) && Sub(boxes[i], s)
    {
      var i: nat :| i < |boxes| && Alive(live, i) && Sub(boxes[i], s);
      if i == id {
        SubIsTransitive(boxes[c], boxes[id], s);
        assert Alive(live', c);
      } else {
        assert Alive(live', i);
      }
    }
  }

  lemma StartCoversAll(boxes: seq<Box>, live: seq<bool>)
    ensures CoversAll(boxes, live, LiveSet(boxes, live))
  {
    forall s | s in LiveSet(boxes, live)
      ensures exists i: nat :: i < |boxes| && Alive(live, i) && Sub(boxes[i], s)
    {
      var i: nat :| i < |boxes| && Alive(live, i) && boxes[i] == s;
      SubsumesIsReflexive(s);
    }
  }

  lemma DedupedIsMaximal(boxes: seq<Box>, live: seq<bool>, S: set<Box>)
    requires Free(boxes, live) && CoversAll(boxes, live, S) && LiveSet(boxes, live) <= S
    ensures LiveSet(boxes, live) == Maxima(S)
  {
    FreeIsAntichain(boxes, live);
    var C := LiveSet(boxes, live);
    forall s | s in S
      ensures exists c :: c in C && Sub(c, s)
    {
      var i: nat :| i < |boxes| && Alive(live, i) && Sub(boxes[i], s);
      assert boxes[i] in C;
    }
    MaximalIsUnique(C, S);
  }

  /** No other live box covers box `i`. */
  ghost predicate Uncovered(boxes: seq<Box>, live: seq<bool>, i: nat)
    requires i < |boxes|
  {
    forall j: nat :: j < |boxes| && j != i && Alive(live, j) ==> !Sub(boxes[j], boxes[i])
  }

  /** Live ids only disappear. */
  ghost predicate Shrinks(before: seq<bool>, after: seq<bool>) {
    forall i: nat :: Alive(after, i) ==> Alive(before, i)
  }

  /** With fewer live boxes the uncovered ones stay uncovered. */
  lemma StillUncovered(boxes: seq<Box>, before: seq<bool>, after: seq<bool>, id: nat)
    requires |before| == |after| == |boxes| && id < |boxes| && Shrinks(before, after)
    requires forall i: nat :: i < id && Alive(before, i) ==> Uncovered(boxes, before, i)
    requires Alive(after, id) ==> Uncovered(boxes, after, id)
    ensures forall i: nat :: i < id + 1 && Alive(after, i) ==> Uncovered(boxes, after, i)
  {
    forall i: nat | i < id && Alive(after, i)
      ensures Uncovered(boxes, after, i)
    {
      assert Uncovered(boxes, before, i);
    }
  }

  lemma LiveSetShrinks(boxes: seq<Box>, before: seq<bool>, after: seq<bool>)
    requires Shrinks(before, after)
    ensures LiveSet(boxes, after) <= LiveSet(boxes, before)
  {
  }

  lemma RegisteredAfterKill(boxes: seq<Box>, live: seq<bool>, id: nat, before: Buckets, after: Buckets, hash: Hash)
    requires |live| == |boxes| && id < |live| && LiveRegistered(boxes, live, before, hash)
    requires Keeps(after, before)
    requires forall key, x :: x != id && Listed(before, key, x) ==> Listed(after, key, x)
    ensures LiveRegistered(boxes, live[id := false], after, hash)
  {
    forall i: nat | i < |boxes| && Alive(live[id := false], i)
      ensures Registered(after, hash, boxes[i], i)
    {
      assert Alive(live, i) && i != id;
      RegisteredKept(before, after, hash, boxes[i], i);
    }
  }

  lemma RegisteredAfterSkip(boxes: seq<Box>, live: seq<bool>, b: Box, buckets: Buckets, hash: Hash)
    requires |live| == |boxes| && LiveRegistered(boxes, live, buckets, hash)
    ensures LiveRegistered(boxes + [b], live + [false], buckets, hash)
  {
    forall i: nat | i < |boxes| + 1 && Alive(live + [false], i)
      ensures Registered(buckets, hash, (boxes + [b])[i], i)
    {
      assert Alive(live, i);
    }
  }

  lemma SolidIsLive(boxes: seq<Box>, live: seq<bool>)
    requires |live| == |boxes| && forall k :: 0 <= k < |boxes| ==> (live[k] <==> !Hollow(boxes[k]))
    ensures LiveSet(boxes, live) == Solid(boxes)
  {
    forall b | b in Solid(boxes)
      ensures b in LiveSet(boxes, live)
    {
      var k :| 0 <= k < |boxes| && boxes[k] == b;
      assert Alive(live, k);
    }
  }

  lemma RegisteredAfterAdd(boxes: seq<Box>, live: seq<bool>, b: Box, before: Buckets, after: Buckets, hash: Hash)
    requires |live| == |boxes| && LiveRegistered(boxes, live, before, hash)
    requires Keeps(before, after) && GainsOnly(before, after, |boxes|) && Registered(after, hash, b, |boxes|)
    ensures LiveRegistered(boxes + [b], live + [true], after, hash)
  {
    forall i: nat | i < |boxes| + 1 && Alive(live + [true], i)
      ensures Registered(after, hash, (boxes + [b])[i], i)
    {
      if i < |boxes| {
        assert Alive(live, i);
        RegisteredKept(before, after, hash, boxes[i], i);
      }
    }
  }

  // ----- MergeAdjacent -----

  /** The indexed merger: the sorted greedy fixpoint of the maximal boxes of the input. */
  method IndexedMerge(boxes: seq<Box>, n: nat, hash: Hash, binHash: BinHash) returns (out: seq<Box>)
    requires boxes != [] && OfDims(boxes, n)
    ensures Sorted(out) && Elements(out) == Greedy(Maxima(Solid(boxes)))
  {
    forall k | 0 <= k < |boxes|
      ensures |boxes[k]| == n
    {
      assert boxes[k] in boxes;
    }
    var m := new Merger(boxes, n, hash, binHash);
    m.Prepare();
    out := m.Run();
  }
}
