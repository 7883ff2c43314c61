/** space/merge_scan.go: the scanner that finds the first mergeable pair through cross-section buckets. */
module Scanning {
  import opened Sequences
  import opened Boxes
  import opened Covers
  import opened BoxSets
  import opened Merging
  import opened CrossIndex

  // ----- the live order and its inverse -----

  ghost predicate IdsBelow(live: seq<nat>, m: nat) {
    forall k :: 0 <= k < |live| ==> live[k] < m
  }

  /** `rank` inverts `live`; ids merged away have rank -1. */
  ghost predicate Ranked(live: seq<nat>, rank: seq<int>) {
    && (forall k :: 0 <= k < |live| ==> live[k] < |rank| && rank[live[k]] == k)
    && (forall id :: 0 <= id < |rank| && rank[id] != -1 ==> 0 <= rank[id] < |live| && live[rank[id]] == id)
  }

  lemma RankedIsDistinct(live: seq<nat>, rank: seq<int>)
    requires Ranked(live, rank)
    ensures Distinct(live)
  {
  }

  /** Rewrites the rank of every id from position `pos` on. */
  method Renumber(live: seq<nat>, rank: seq<int>, pos: nat) returns (out: seq<int>)
    requires pos <= |live| && IdsBelow(live, |rank|) && Distinct(live)
    ensures |out| == |rank|
    ensures forall k :: pos <= k < |live| ==> out[live[k]] == k
    ensures forall id :: 0 <= id < |rank| && id !in live[pos..] ==> out[id] == rank[id]
  {
    out := rank;
    for k := pos to |live|
      invariant |out| == |rank|
      invariant forall j :: pos <= j < k ==> out[live[j]] == j
      invariant forall id :: 0 <= id < |rank| && id !in live[pos..k] ==> out[id] == rank[id]
    {
      out := out[live[k] := k];
      assert live[pos..k + 1] == live[pos..k] + [live[k]];
    }
  }

  lemma RankedAfterRemoval(live: seq<nat>, rank: seq<int>, pos: nat, out: seq<int>)
    requires Ranked(live, rank) && pos < |live| && |out| == |rank|
    requires var live' := live[..pos] + live[pos + 1..];
      && (forall k :: pos <= k < |live'| ==> out[live'[k]] == k)
      && (forall id :: 0 <= id < |rank| && id !in live'[pos..] ==> out[id] == rank[id])
    ensures Ranked(live[..pos] + live[pos + 1..], out[live[pos] := -1])
  {
    var live', id := live[..pos] + live[pos + 1..], live[pos];
    var r := out[id := -1];
    assert live'[pos..] == live[pos + 1..];
    forall k | 0 <= k < |live'|
      ensures live'[k] < |r| && r[live'[k]] == k
    {
      if k < pos {
        assert live'[k] == live[k];
        assert live[k] !in live[pos + 1..];
      } else {
        assert live'[k] == live[k + 1];
      }
    }
    forall x | 0 <= x < |r| && r[x] != -1
      ensures 0 <= r[x] < |live'| && live'[r[x]] == x
    {
      if x in live'[pos..] {
        var k :| 0 <= k < |live'[pos..]| && live'[pos..][k] == x;
        assert live'[pos + k] == x;
      } else {
        OldRankBefore(live, rank, pos, x);
      }
    }
  }

  lemma OldRankBefore(live: seq<nat>, rank: seq<int>, pos: nat, x: nat)
    requires Ranked(live, rank) && pos < |live| && x < |rank| && rank[x] != -1 && x != live[pos]
    requires x !in live[pos + 1..]
    ensures 0 <= rank[x] < pos && live[rank[x]] == x
  {
    InSuffix(live, pos + 1);
  }

  lemma RankedAfterInsertion(live: seq<nat>, rank: seq<int>, pos: nat, out: seq<int>)
    requires Ranked(live, rank) && pos <= |live| && |out| == |rank| + 1
    requires var live' := live[..pos] + [|rank|] + live[pos..];
      && (forall k :: pos <= k < |live'| ==> 0 <= live'[k] < |out| && out[live'[k]] == k)
      && (forall id :: 0 <= id < |rank| && id !in live'[pos..] ==> out[id] == rank[id])
    ensures Ranked(live[..pos] + [|rank|] + live[pos..], out)
  {
    var live' := live[..pos] + [|rank|] + live[pos..];
    assert live'[pos..] == [|rank|] + live[pos..];
    assert live'[pos] == |rank|;
    forall k | 0 <= k < pos
      ensures live'[k] < |out| && out[live'[k]] == k
    {
      assert live'[k] == live[k];
      assert live[k] !in live[pos..];
    }
    forall x | 0 <= x < |out| && out[x] != -1
      ensures 0 <= out[x] < |live'| && live'[out[x]] == x
    {
      if x in live'[pos..] {
        var k :| 0 <= k < |live'[pos..]| && live'[pos..][k] == x;
        assert live'[pos + k] == x;
      } else {
        assert x < |rank| && live'[rank[x]] == x by { OldRankKept(live, rank, pos, x); }
      }
    }
  }

  lemma OldRankKept(live: seq<nat>, rank: seq<int>, pos: nat, x: nat)
    requires Ranked(live, rank) && pos <= |live| && x <= |rank|
    requires x !in [|rank|] + live[pos..]
    ensures x < |rank| && (rank[x] != -1 ==> 0 <= rank[x] < pos && live[rank[x]] == x)
  {
    assert ([|rank|] + live[pos..])[0] == |rank|;
    InSuffix(live, pos);
  }

  // ----- the cover as a list -----

  /** The live boxes in order. */
  ghost function Listing(boxes: seq<Box>, live: seq<nat>): (g: seq<Box>)
    requires IdsBelow(live, |boxes|)
    ensures |g| == |live| && forall k :: 0 <= k < |g| ==> g[k] == boxes[live[k]]
  {
    seq(|live|, k requires 0 <= k < |live| => boxes[live[k]])
  }

  ghost predicate AllRegistered(boxes: seq<Box>, live: seq<nat>, buckets: Buckets, hash: Hash)
    requires IdsBelow(live, |boxes|)
  {
    forall k :: 0 <= k < |live| ==> Registered(buckets, hash, boxes[live[k]], live[k])
  }

  function Dropped<T>(s: seq<T>, pos: nat): seq<T>
    requires pos < |s|
  {
    s[..pos] + s[pos + 1..]
  }

  lemma ListingAfterRemoval(boxes: seq<Box>, live: seq<nat>, pos: nat)
    requires IdsBelow(live, |boxes|) && Distinct(live) && pos < |live|
    ensures IdsBelow(Dropped(live, pos), |boxes|)
    ensures Listing(boxes[live[pos] := []], Dropped(live, pos)) == Dropped(Listing(boxes, live), pos)
  {
  }

  lemma DroppedElements(g: seq<Box>, pos: nat)
    requires Sorted(g) && pos < |g|
    ensures Elements(Dropped(g, pos)) == Elements(g) - {g[pos]}
  {
    assert g == g[..pos] + [g[pos]] + g[pos + 1..];
    forall b | b in Dropped(g, pos)
      ensures b != g[pos]
    {
      var k :| 0 <= k < |Dropped(g, pos)| && Dropped(g, pos)[k] == b;
      LessIsTotal(b, g[pos]);
    }
  }

  lemma DroppedSorted(g: seq<Box>, pos: nat)
    requires Sorted(g) && pos < |g|
    ensures Sorted(Dropped(g, pos))
  {
  }

  lemma DroppedNormalized(g: seq<Box>, pos: nat, n: nat)
    requires Normalized(g, n) && pos < |g|
    ensures Normalized(Dropped(g, pos), n)
    ensures Elements(Dropped(g, pos)) == Elements(g) - {g[pos]}
  {
    DroppedElements(g, pos);
    DroppedSorted(g, pos);
    forall b | b in Dropped(g, pos)
      ensures b in Elements(g)
    {
      assert b in Elements(Dropped(g, pos));
    }
  }

  lemma RegisteredAfterRemoval(boxes: seq<Box>, live: seq<nat>, pos: nat, before: Buckets, after: Buckets, hash: Hash)
    requires IdsBelow(live, |boxes|) && Distinct(live) && pos < |live| && AllRegistered(boxes, live, before, hash)
    requires forall key, x :: x != live[pos] && Listed(before, key, x) ==> Listed(after, key, x)
    ensures IdsBelow(Dropped(live, pos), |boxes|)
    ensures AllRegistered(boxes[live[pos] := []], Dropped(live, pos), after, hash)
  {
    var live', boxes' := Dropped(live, pos), boxes[live[pos] := []];
    forall k | 0 <= k < |live'|
      ensures Registered(after, hash, boxes'[live'[k]], live'[k])
    {
      var j := if k < pos then k else k + 1;
      assert live'[k] == live[j] && live[j] != live[pos];
      RegisteredKept(before, after, hash, boxes[live[j]], live[j]);
    }
  }

  ghost predicate Indexed(boxes: seq<Box>, live: seq<nat>, rank: seq<int>, buckets: Buckets, hash: Hash, dims: nat) {
    && |rank| == |boxes| && IdsBelow(live, |boxes|) && Ranked(live, rank) && Bounded(buckets, |boxes|)
    && Normalized(Listing(boxes, live), dims)
    && AllRegistered(boxes, live, buckets, hash)
  }

  lemma IndexedAfterRemoval(boxes: seq<Box>, live: seq<nat>, rank: seq<int>, buckets: Buckets, hash: Hash, dims: nat,
                            pos: nat, rank': seq<int>, buckets': Buckets)
    requires Indexed(boxes, live, rank, buckets, hash, dims) && pos < |live|
    requires Ranked(Dropped(live, pos), rank') && |rank'| == |rank|
    requires Keeps(buckets', buckets)
    requires forall key, x :: x != live[pos] && Listed(buckets, key, x) ==> Listed(buckets', key, x)
    ensures Indexed(boxes[live[pos] := []], Dropped(live, pos), rank', buckets', hash, dims)
    ensures Listing(boxes[live[pos] := []], Dropped(live, pos)) == Dropped(Listing(boxes, live), pos)
  {
    RankedIsDistinct(live, rank);
    RegisteredAfterRemoval(boxes, live, pos, buckets, buckets', hash);
    ListingAfterRemoval(boxes, live, pos);
    DroppedNormalized(Listing(boxes, live), pos, dims);
  }

  /** The ranks after dropping position `pos` from the live order. */
  method RankWithout(ghost live: seq<nat>, rank: seq<int>, pos: nat, live': seq<nat>, id: nat) returns (out: seq<int>)
    requires Ranked(live, rank) && pos < |live| && live' == Dropped(live, pos) && id == live[pos]
    ensures |out| == |rank| && Ranked(live', out)
  {
    RankedIsDistinct(live, rank);
    out := Renumber(live', rank, pos);
    RankedAfterRemoval(live, rank, pos, out);
    out := out[id := -1];
  }

  function Spliced<T>(s: seq<T>, pos: nat, x: T): seq<T>
    requires pos <= |s|
  {
    s[..pos] + [x] + s[pos..]
  }

  /** The box has a point and is comparable with no box of the cover. */
  ghost predicate Admits(g: seq<Box>, b: Box, n: nat) {
    |b| == n && !Hollow(b) && forall c :: c in g ==> !Sub(c, b) && !Sub(b, c)
  }

  lemma AdmitsIsNew(g: seq<Box>, b: Box, n: nat)
    requires Admits(g, b, n)
    ensures b !in g
  {
    SubsumesIsReflexive(b);
  }

  lemma WithoutAdmits(g: seq<Box>, b: Box, n: nat)
    requires |b| == n && !Hollow(b) && forall c :: c in g ==> !Sub(c, b)
    ensures Admits(Without(g, b), b, n)
  {
    WithoutElements(g, b);
  }

  method RankWith(ghost live: seq<nat>, rank: seq<int>, pos: nat, live': seq<nat>) returns (out: seq<int>)
    requires Ranked(live, rank) && pos <= |live| && live' == Spliced(live, pos, |rank|)
    ensures |out| == |rank| + 1 && Ranked(live', out)
  {
    RankedIsDistinct(live, rank);
    out := Renumber(live', rank + [pos], pos);
    RankedAfterInsertion(live, rank, pos, out);
  }

  /** sort.Search for the first live box not before `b`. */
  method PositionOf(boxes: seq<Box>, live: seq<nat>, b: Box, ghost n: nat) returns (pos: nat)
    requires IdsBelow(live, |boxes|) && Sorted(Listing(boxes, live))
    ensures Fits(Listing(boxes, live), b, pos)
  {
    ghost var g := Listing(boxes, live);
    var f := (k: nat) => k < |live| && live[k] < |boxes| ==> !Less(boxes[live[k]], b);
    forall j: nat, k: nat | j < k < |live| && f(j)
      ensures f(k)
    {
      if Less(g[k], b) { LessIsTransitive(g[j], g[k], b); }
    }
    pos := Search(|live|, f);
    forall k | 0 <= k < |live|
      ensures Less(g[k], b) <==> k < pos
    {
      assert f(k) <==> pos <= k;
    }
  }

  lemma SplicedNormalized(g: seq<Box>, pos: nat, b: Box, n: nat)
    requires Normalized(g, n) && Admits(g, b, n) && Fits(g, b, pos)
    ensures Normalized(Spliced(g, pos, b), n) && Elements(Spliced(g, pos, b)) == Elements(g) + {b}
  {
    AdmitsIsNew(g, b, n);
    SplicedSorted(g, b, pos, n);
    forall c | c in Spliced(g, pos, b)
      ensures |c| == n && !Hollow(c)
    {
      assert c in Elements(Spliced(g, pos, b));
      if c != b {
        var k :| 0 <= k < |g| && g[k] == c;
      }
    }
  }

  lemma ListingAfterInsertion(boxes: seq<Box>, live: seq<nat>, pos: nat, b: Box)
    requires IdsBelow(live, |boxes|) && pos <= |live|
    ensures IdsBelow(Spliced(live, pos, |boxes|), |boxes| + 1)
    ensures Listing(boxes + [b], Spliced(live, pos, |boxes|)) == Spliced(Listing(boxes, live), pos, b)
  {
  }

  lemma RegisteredAfterInsertion(boxes: seq<Box>, live: seq<nat>, pos: nat, b: Box, before: Buckets, after: Buckets, hash: Hash)
    requires IdsBelow(live, |boxes|) && pos <= |live| && AllRegistered(boxes, live, before, hash)
    requires Keeps(before, after) && Registered(after, hash, b, |boxes|)
    ensures IdsBelow(Spliced(live, pos, |boxes|), |boxes| + 1)
    ensures AllRegistered(boxes + [b], Spliced(live, pos, |boxes|), after, hash)
  {
    var live', boxes' := Spliced(live, pos, |boxes|), boxes + [b];
    forall k | 0 <= k < |live'|
      ensures Registered(after, hash, boxes'[live'[k]], live'[k])
    {
      if k != pos {
        var j := if k < pos then k else k - 1;
        assert live'[k] == live[j];
        RegisteredKept(before, after, hash, boxes[live[j]], live[j]);
      }
    }
  }

  lemma IndexedAfterInsertion(boxes: seq<Box>, live: seq<nat>, rank: seq<int>, buckets: Buckets, hash: Hash, dims: nat,
                              b: Box, pos: nat, boxes': seq<Box>, live': seq<nat>, rank': seq<int>, buckets': Buckets)
    requires Indexed(boxes, live, rank, buckets, hash, dims)
    requires Admits(Listing(boxes, live), b, dims) && Fits(Listing(boxes, live), b, pos)
    requires boxes' == boxes + [b] && live' == Spliced(live, pos, |boxes|)
    requires Ranked(live', rank') && |rank'| == |rank| + 1
    requires Keeps(buckets, buckets') && GainsOnly(buckets, buckets', |boxes|) && Registered(buckets', hash, b, |boxes|)
    ensures Indexed(boxes', live', rank', buckets', hash, dims)
    ensures Elements(Listing(boxes', live')) == Elements(Listing(boxes, live)) + {b}
  {
    RegisteredAfterInsertion(boxes, live, pos, b, buckets, buckets', hash);
    ListingAfterInsertion(boxes, live, pos, b);
    SplicedNormalized(Listing(boxes, live), pos, b, dims);
  }

  /** The cover with the boxes `b` covers dropped from position `k` on. */
  ghost function Partway(g: seq<Box>, k: nat, b: Box): seq<Box>
    requires k <= |g|
  {
    g[..k] + Without(g[k..], b)
  }

  lemma PartwayStep(g: seq<Box>, k: nat, b: Box)
    requires k < |g|
    ensures |Partway(g, k + 1, b)| > k && Partway(g, k + 1, b)[k] == g[k]
    ensures Partway(g, k, b) == if Sub(b, g[k]) then Dropped(Partway(g, k + 1, b), k) else Partway(g, k + 1, b)
  {
    assert g[k..] == [g[k]] + g[k + 1..];
    assert g[..k + 1] == g[..k] + [g[k]];
  }

  // ----- the search for a pair -----

  /** A partner found so far is a live position after `i` that merges. */
  ghost predicate Candidate(boxes: seq<Box>, live: seq<nat>, i: nat, box: Box, best: int)
    requires IdsBelow(live, |boxes|)
  {
    best == -1 || (i < best < |live| && Mergeable(box, boxes[live[best]]))
  }

  /** The partner found is at least as early as `other`, if `other` is one. */
  ghost predicate Beaten(boxes: seq<Box>, rank: seq<int>, i: nat, box: Box, best: int, other: nat)
  {
    other < |rank| && other < |boxes| && rank[other] > i && Mergeable(box, boxes[other]) ==> best != -1 && best <= rank[other]
  }

  lemma BucketIsBelow(buckets: Buckets, key: nat, m: nat)
    requires Bounded(buckets, m) && key in buckets
    ensures IdsBelow(buckets[key], m)
  {
    assert forall t :: 0 <= t < |buckets[key]| ==> Listed(buckets, key, buckets[key][t]);
  }

  /** A candidate no listed partner precedes is the earliest partner. */
  lemma NoneEarlier(boxes: seq<Box>, live: seq<nat>, rank: seq<int>, buckets: Buckets, hash: Hash, dims: nat, i: nat, best: int)
    requires Indexed(boxes, live, rank, buckets, hash, dims) && i < |live|
    requires
      var box := boxes[live[i]];
      forall e, other :: 0 <= e < |box| && Listed(buckets, Key(hash, box, e), other) ==> Beaten(boxes, rank, i, box, best, other)
    ensures forall k :: i < k < |live| && (best == -1 || k < best) ==> !Mergeable(boxes[live[i]], boxes[live[k]])
  {
    forall k | i < k < |live| && Mergeable(boxes[live[i]], boxes[live[k]])
      ensures best != -1 && best <= k
    {
      var d := PartnerIsListed(buckets, hash, boxes[live[i]], boxes[live[k]], live[k]);
      assert Beaten(boxes, rank, i, boxes[live[i]], best, live[k]);
    }
  }

  method ScanBucket(boxes: seq<Box>, live: seq<nat>, rank: seq<int>, ids: seq<nat>, i: nat, box: Box, start: int)
    returns (best: int)
    requires |rank| == |boxes| && IdsBelow(live, |boxes|) && Ranked(live, rank) && IdsBelow(ids, |boxes|)
    requires Candidate(boxes, live, i, box, start)
    ensures Candidate(boxes, live, i, box, best) && (start != -1 ==> best != -1 && best <= start)
    ensures forall other :: other in ids ==> Beaten(boxes, rank, i, box, best, other)
    ensures forall other :: Beaten(boxes, rank, i, box, start, other) ==> Beaten(boxes, rank, i, box, best, other)
  {
    best := start;
    for t := 0 to |ids|
      invariant Candidate(boxes, live, i, box, best) && (start != -1 ==> best != -1 && best <= start)
      invariant forall s :: 0 <= s < t ==> Beaten(boxes, rank, i, box, best, ids[s])
    {
      var j := rank[ids[t]];
      if !(j <= i || (best >= 0 && j >= best)) {
        if MergePair(box, boxes[ids[t]]).Some? {
          best := j;
        }
      }
    }
  }

  lemma FirstByPosition(g: seq<Box>, i: nat, j: nat, n: nat)
    requires Normalized(g, n) && i < j < |g| && Mergeable(g[i], g[j])
    requires forall p, q :: 0 <= p < i && p < q < |g| ==> !Mergeable(g[p], g[q])
    requires forall q :: i < q < j ==> !Mergeable(g[i], g[q])
    ensures IsFirst(Elements(g), g[i], g[j])
  {
    forall c, d | IsPair(Elements(g), c, d)
      ensures (c == g[i] && d == g[j]) || PairLess(g[i], g[j], c, d)
    {
      var p, q := PairPositions(g, c, d);
    }
  }

  lemma PairPositions(g: seq<Box>, c: Box, d: Box) returns (p: nat, q: nat)
    requires Sorted(g) && c in g && d in g && Less(c, d)
    ensures p < q < |g| && g[p] == c && g[q] == d
  {
    p :| 0 <= p < |g| && g[p] == c;
    q :| 0 <= q < |g| && g[q] == d;
    LessIsTotal(c, d);
  }

  lemma StuckByPosition(g: seq<Box>, n: nat)
    requires Normalized(g, n)
    requires forall p, q :: 0 <= p < q < |g| ==> !Mergeable(g[p], g[q])
    ensures Stuck(Elements(g))
  {
    forall c, d | IsPair(Elements(g), c, d)
      ensures false
    {
      var p, q := PairPositions(g, c, d);
    }
  }

  lemma DroppedMembers(live: seq<nat>, pos: nat)
    requires pos < |live|
    ensures forall x :: x in live && x != live[pos] ==> x in Dropped(live, pos)
  {
    assert live == live[..pos] + [live[pos]] + live[pos + 1..];
  }

  lemma LiveBoxes(boxes: seq<Box>, live: seq<nat>, rank: seq<int>, n: nat, a: nat, b: nat)
    requires IdsBelow(live, |boxes|) && Ranked(live, rank) && Normalized(Listing(boxes, live), n)
    requires a in live && b in live && a != b
    ensures a < |boxes| && b < |boxes| && boxes[a] != boxes[b]
    ensures boxes[a] in Elements(Listing(boxes, live)) && boxes[b] in Elements(Listing(boxes, live))
    ensures |boxes[a]| == |boxes[b]| == n && !Hollow(boxes[a]) && !Hollow(boxes[b])
  {
    var g := Listing(boxes, live);
    var i :| 0 <= i < |live| && live[i] == a;
    var j :| 0 <= j < |live| && live[j] == b;
    assert g[i] == boxes[a] && g[j] == boxes[b];
    assert g[i] in g && g[j] in g;
    if g[i] == g[j] { SortedIsDistinct(g, i, j); }
  }

  lemma InsertIsMerged(C: set<Box>, a: Box, b: Box, rest: seq<Box>)
    requires Mergeable(a, b) && Elements(rest) == C - {a} - {b}
    ensures Elements(Without(rest, MergePair(a, b).value)) + {MergePair(a, b).value} == Merged(C, a, b)
    ensures forall c :: c in rest ==> c in C - {a} - {b}
  {
    var m := MergePair(a, b).value;
    WithoutElements(rest, m);
    forall c
      ensures c in rest <==> c in C && c != a && c != b
    {
      assert c in rest <==> c in Elements(rest);
    }
    assert Elements(Without(rest, m)) == (set c | c in C && c != a && c != b && !Sub(m, c));
  }

  class Scanner {
    const hash: Hash
    const dims: nat
    var boxes: seq<Box>
    var live: seq<nat>
    var rank: seq<int>
    var buckets: Buckets

    /** `rank` inverts `live`, the live boxes form a normalized cover, and each is indexed. */
    ghost predicate Valid()
      reads this
    {
      Indexed(boxes, live, rank, buckets, hash, dims)
    }

    /** The live cover in canonical order. */
    ghost function Contents(): seq<Box>
      requires Valid()
      reads this
    {
      Listing(boxes, live)
    }

    constructor (cover: seq<Box>, dims: nat, hash: Hash)
      requires Normalized(cover, dims)
      ensures Valid() && Contents() == cover
      ensures this.dims == dims
    {
      this.dims, this.hash := dims, hash;
      var ids := seq(|cover|, k => k);
      boxes, live := cover, ids;
      rank := seq(|cover|, k => k);
      var index: Buckets := map[];
      for id := 0 to |cover|
        invariant Bounded(index, |cover|)
        invariant forall k :: 0 <= k < id ==> Registered(index, hash, cover[k], k)
      {
        var more := IndexBox(index, hash, cover[id], id);
        forall k | 0 <= k < id
          ensures Registered(more, hash, cover[k], k)
        {
          RegisteredKept(index, more, hash, cover[k], k);
        }
        index := more;
      }
      buckets := index;
      assert Listing(cover, ids) == cover;
    }

    method RemoveAt(pos: nat)
      requires Valid() && pos < |live|
      modifies this
      ensures Valid() && Contents() == Dropped(old(Contents()), pos)
      ensures live == Dropped(old(live), pos) && boxes == old(boxes[live[pos] := []])
      ensures Unlists(old(buckets), buckets, old(Keys(hash, boxes[live[pos]])), old(live[pos]))
    {
      var id := live[pos];
      ghost var live0, rank0, boxes0, buckets0 := live, rank, boxes, buckets;
      live := Dropped(live, pos);
      rank := RankWithout(live0, rank, pos, live, id);
      buckets := UnindexBox(buckets, hash, boxes[id], id);
      boxes := boxes[id := []];
      IndexedAfterRemoval(boxes0, live0, rank0, buckets0, hash, dims, pos, rank, buckets);
    }

    /** Places a box that no live box covers or is covered by at its canonical position. */
    method InsertInOrder(b: Box)
      requires Valid() && Admits(Contents(), b, dims)
      modifies this
      ensures Valid() && Sorted(Contents()) && Elements(Contents()) == old(Elements(Contents())) + {b}
    {
      var pos := PositionOf(boxes, live, b, dims);
      var id := |boxes|;
      ghost var live0, rank0, boxes0, buckets0 := live, rank, boxes, buckets;
      boxes := boxes + [b];
      live := Spliced(live, pos, id);
      rank := RankWith(live0, rank, pos, live);
      buckets := IndexBox(buckets, hash, b, id);
      IndexedAfterInsertion(boxes0, live0, rank0, buckets0, hash, dims, b, pos, boxes, live, rank, buckets);
    }

    /** Drops every box the union covers, highest position first. */
    method Absorb(merged: Box)
      requires Valid()
      modifies this
      ensures Valid() && Contents() == Without(old(Contents()), merged)
    {
      ghost var g := Contents();
      var k := |live|;
      while k > 0
        invariant 0 <= k <= |g| && Valid() && |live| >= k
        invariant Contents() == Partway(g, k, merged)
      {
        k := k - 1;
        PartwayStep(g, k, merged);
        if Sub(merged, boxes[live[k]]) {
          RemoveAt(k);
        }
      }
      assert g[0..] == g;
    }

    /** Drops every box the union covers, then places the union. */
    method Insert(merged: Box)
      requires Valid() && |merged| == dims && !Hollow(merged)
      requires forall c :: c in Contents() ==> !Sub(c, merged)
      modifies this
      ensures Valid() && Elements(Contents()) == old(Elements(Without(Contents(), merged))) + {merged}
    {
      WithoutAdmits(Contents(), merged, dims);
      Absorb(merged);
      InsertInOrder(merged);
    }

    /** The earliest position after `i` whose box merges with the box at `i`, or -1. */
    method EarliestPartner(i: nat) returns (best: int)
      requires Valid() && i < |live|
      ensures best == -1 || i < best < |live|
      ensures best != -1 ==> Mergeable(Contents()[i], Contents()[best])
      ensures forall k :: i < k < |live| && (best == -1 || k < best) ==> !Mergeable(Contents()[i], Contents()[k])
    {
      var box := boxes[live[i]];
      best := -1;
      for d := 0 to |box|
        invariant Candidate(boxes, live, i, box, best)
        invariant forall e, other :: 0 <= e < d && Listed(buckets, Key(hash, box, e), other) ==>
          Beaten(boxes, rank, i, box, best, other)
      {
        var k := Key(hash, box, d);
        if k in buckets {
          BucketIsBelow(buckets, k, |boxes|);
          best := ScanBucket(boxes, live, rank, buckets[k], i, box, best);
        }
      }
      NoneEarlier(boxes, live, rank, buckets, hash, dims, i, best);
    }

    /** The pair the greedy merges next, if any. */
    method FirstMergeablePair() returns (a: nat, b: nat, ok: bool)
      requires Valid()
      ensures ok ==> a in live && b in live && a != b
      ensures ok ==> a < |boxes| && b < |boxes| && IsFirst(Elements(Contents()), boxes[a], boxes[b])
      ensures !ok ==> Stuck(Elements(Contents()))
    {
      for i := 0 to |live|
        invariant forall p, q :: 0 <= p < i && p < q < |live| ==> !Mergeable(Contents()[p], Contents()[q])
      {
        var j := EarliestPartner(i);
        if j != -1 {
          FirstByPosition(Contents(), i, j, dims);
          RankedIsDistinct(live, rank);
          return live[i], live[j], true;
        }
      }
      StuckByPosition(Contents(), dims);
      return 0, 0, false;
    }

    /** Drops one box by id. */
    method Remove(id: nat)
      requires Valid() && id in live
      modifies this
      ensures Valid() && |boxes| == old(|boxes|)
      ensures Elements(Contents()) == old(Elements(Contents())) - {old(boxes[id])}
      ensures forall x :: x in old(live) && x != id ==> x in live && boxes[x] == old(boxes[x])
    {
      var pos := rank[id];
      DroppedElements(Contents(), pos);
      RankedIsDistinct(live, rank);
      DroppedMembers(live, pos);
      RemoveAt(pos);
    }

    /** Drops two boxes, after which no remaining box covers their union. */
    method RemovePair(a: nat, b: nat)
      requires Valid() && a in live && b in live && a != b && Mergeable(boxes[a], boxes[b])
      modifies this
      ensures Valid() && Elements(Contents()) == old(Elements(Contents()) - {boxes[a]} - {boxes[b]})
    {
      Remove(a);
      Remove(b);
    }

    /** Replaces two live boxes by their union, folded into the cover. */
    method Merge(a: nat, b: nat)
      requires Valid() && a in live && b in live && a != b && Mergeable(boxes[a], boxes[b])
      modifies this
      ensures Valid() && Elements(Contents()) == old(Merged(Elements(Contents()), boxes[a], boxes[b]))
    {
      var merged := MergePair(boxes[a], boxes[b]).value;
      ghost var C, A, B := Elements(Contents()), boxes[a], boxes[b];
      LiveBoxes(boxes, live, rank, dims, a, b);
      RemovePair(a, b);
      UnionSurvives(C, A, B, dims);
      InsertIsMerged(C, A, B, Contents());
      Insert(merged);
    }

    /** The surviving boxes in canonical cover order. */
    method Result() returns (out: seq<Box>)
      requires Valid()
      ensures out == Contents()
    {
      out := [];
      for k := 0 to |live|
        invariant out == Contents()[..k]
      {
        out := out + [boxes[live[k]]];
      }
    }
  }

  /** scanMerge: the sorted greedy fixpoint of the maximal boxes of the input. */
  method ScanMerge(boxes: seq<Box>, ghost n: nat, hash: Hash) returns (out: seq<Box>)
    requires OfDims(boxes, n)
    ensures Sorted(out) && Elements(out) == Greedy(Maxima(Solid(boxes)))
  {
    var painted := seq(|boxes|, k requires 0 <= k < |boxes| => Painted(boxes[k], ()));
    assert Geo(painted) == boxes;
    var cover := Normalize(painted, (a, b) => (), n);
    if |cover| == 0 {
      out := [];
      NoElements(Geo(cover));
      GreedyStops({});
      NoElements(out);
      return;
    }
    assert Geo(cover)[0] in Geo(cover);
    var m := new Scanner(Geo(cover), |cover[0].box|, hash);
    ghost var C := Elements(m.Contents());
    while true
      invariant m.Valid() && fresh(m) && m.dims == n && Greedy(Elements(m.Contents())) == Greedy(C)
      decreases |Elements(m.Contents())|
    {
      var a, b, ok := m.FirstMergeablePair();
      if !ok {
        GreedyStops(Elements(m.Contents()));
        out := m.Result();
        return;
      }
      ghost var before := Elements(m.Contents());
      LessIsIrreflexive(m.boxes[a], m.boxes[b]);
      MergedShrinks(before, m.boxes[a], m.boxes[b]);
      GreedyStep(before, m.boxes[a], m.boxes[b]);
      m.Merge(a, b);
    }
  }
}
