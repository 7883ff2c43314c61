/** space/merge_index.go: the coarse uniform grid that lists the boxes near a box. */
module Gridding {
  import opened Sequences
  import opened Boxes
  import opened CrossIndex

  type BinHash = seq<int> -> nat

  // ----- bins -----

  /** The bin of a coordinate on one axis. */
  function Bin(origin: real, cell: real, x: real): int
    requires cell > 0.0
  {
    ((x - origin) / cell).Floor
  }

  lemma DivideIsMonotone(a: real, b: real, c: real)
    requires c > 0.0 && a <= b
    ensures a / c <= b / c
  {
    assert (a / c) * c == a && (b / c) * c == b;
  }

  lemma BinIsMonotone(origin: real, cell: real, x: real, y: real)
    requires cell > 0.0 && x <= y
    ensures Bin(origin, cell, x) <= Bin(origin, cell, y)
  {
    DivideIsMonotone(x - origin, y - origin, cell);
  }

  /** Bin `v` holds exactly the coordinates from `v` to `v + 1` cells past the origin. */
  lemma BinIff(origin: real, cell: real, x: real, v: int)
    requires cell > 0.0
    ensures Bin(origin, cell, x) == v <==> origin + v as real * cell <= x < origin + (v + 1) as real * cell
  {
    var t := (x - origin) / cell;
    AtLeast(x - origin, t, v as real, cell);
    AtLeast(x - origin, t, (v + 1) as real, cell);
  }

  lemma AtLeast(d: real, t: real, v: real, cell: real)
    requires cell > 0.0 && t * cell == d
    ensures v <= t <==> v * cell <= d
  {
    assert d - v * cell == (t - v) * cell;
  }

  // ----- eachBin -----

  /** A bin coordinate of the inclusive range; an inverted axis stands for its lower end. */
  ghost predicate InRange(v: seq<int>, lo: seq<int>, hi: seq<int>) {
    |v| == |lo| == |hi| && forall d :: 0 <= d < |v| ==> lo[d] <= v[d] && (v[d] <= hi[d] || v[d] == lo[d])
  }

  /** The odometer order: the highest axis decides first. */
  ghost predicate Before(u: seq<int>, v: seq<int>) {
    |u| == |v| && exists d :: 0 <= d < |u| && BeforeAt(u, v, d)
  }

  ghost predicate BeforeAt(u: seq<int>, v: seq<int>, d: nat)
    requires |u| == |v| && d < |u|
  {
    u[d] < v[d] && forall e :: d < e < |u| ==> u[e] == v[e]
  }

  /** Axes below `d` stand at their upper end, so only they separate `at` from the vectors above it. */
  ghost predicate AtEnd(at: seq<int>, lo: seq<int>, hi: seq<int>, d: nat)
    requires |at| == |lo| == |hi| && d <= |at|
  {
    forall e :: 0 <= e < d ==> at[e] + 1 > hi[e]
  }

  /** A vector that agrees with `at` from axis `d` on, where the lower axes are at their end, is not after it. */
  lemma {:induction false} BelowEnd(v: seq<int>, at: seq<int>, lo: seq<int>, hi: seq<int>, d: nat)
    requires InRange(v, lo, hi) && InRange(at, lo, hi) && d <= |at| && AtEnd(at, lo, hi, d)
    requires forall e :: d <= e < |at| ==> v[e] == at[e]
    ensures v == at || Before(v, at)
    decreases d
  {
    if d > 0 {
      if v[d - 1] == at[d - 1] {
        BelowEnd(v, at, lo, hi, d - 1);
      } else {
        assert BeforeAt(v, at, d - 1);
      }
    }
  }

  /** The next stand of the odometer: axes below `d` reset, axis `d` advanced. */
  ghost predicate Advanced(at: seq<int>, at': seq<int>, lo: seq<int>, hi: seq<int>, d: nat) {
    && |at| == |at'| == |lo| == |hi| && d < |at|
    && (forall e :: 0 <= e < d ==> at'[e] == lo[e])
    && at'[d] == at[d] + 1 && at'[d] <= hi[d]
    && (forall e :: d < e < |at| ==> at'[e] == at[e])
  }

  /** Nothing of the range lies strictly between two stands. */
  lemma NothingSkipped(v: seq<int>, at: seq<int>, at': seq<int>, lo: seq<int>, hi: seq<int>, d: nat)
    requires InRange(v, lo, hi) && InRange(at, lo, hi) && Advanced(at, at', lo, hi, d) && AtEnd(at, lo, hi, d)
    requires Before(v, at')
    ensures v == at || Before(v, at)
  {
    var e :| 0 <= e < |v| && BeforeAt(v, at', e);
    if e > d || v[d] < at[d] {
      assert BeforeAt(v, at, if e > d then e else d);
    } else {
      BelowEnd(v, at, lo, hi, d);
    }
  }

  lemma AdvancedIsAfter(u: seq<int>, at: seq<int>, at': seq<int>, lo: seq<int>, hi: seq<int>, d: nat)
    requires InRange(at, lo, hi) && Advanced(at, at', lo, hi, d)
    requires u == at || Before(u, at)
    ensures InRange(at', lo, hi) && Before(u, at')
  {
    assert BeforeAt(at, at', d);
    if u != at {
      var e :| 0 <= e < |u| && BeforeAt(u, at, e);
      assert BeforeAt(u, at', if e > d then e else d);
    }
  }

  lemma BeforeIsIrreflexive(v: seq<int>)
    ensures !Before(v, v)
  {
  }

  /** All vectors of the range, as a finite set. */
  ghost function Vectors(lo: seq<int>, hi: seq<int>): set<seq<int>>
    requires |lo| == |hi|
  {
    if lo == [] then {[]}
    else
      var n := |lo| - 1;
      set v, x | v in Vectors(lo[..n], hi[..n]) && x in Steps(lo[n], hi[n]) :: v + [x]
  }

  ghost function Steps(lo: int, hi: int): set<int>
    decreases hi - lo
  {
    if hi <= lo then {lo} else Steps(lo, hi - 1) + {hi}
  }

  lemma {:induction false} StepsHold(lo: int, hi: int, x: int)
    requires lo <= x && (x <= hi || x == lo)
    ensures x in Steps(lo, hi)
    decreases hi - lo
  {
    if hi > lo && x != hi { StepsHold(lo, hi - 1, x); }
  }

  lemma {:induction false} RangeIsFinite(v: seq<int>, lo: seq<int>, hi: seq<int>)
    requires InRange(v, lo, hi)
    ensures v in Vectors(lo, hi)
    decreases |v|
  {
    if lo != [] {
      var n := |lo| - 1;
      RangeIsFinite(v[..n], lo[..n], hi[..n]);
      assert v == v[..n] + [v[n]];
      StepsHold(lo[n], hi[n], v[n]);
    }
  }

  /** One turn of the odometer, or the end of the range. */
  method Advance(at: seq<int>, lo: seq<int>, hi: seq<int>) returns (at': seq<int>, d: nat)
    requires InRange(at, lo, hi)
    ensures d <= |at| && AtEnd(at, lo, hi, d)
    ensures d < |at| ==> Advanced(at, at', lo, hi, d)
  {
    at', d := at, 0;
    while d < |at|
      invariant d <= |at| && |at'| == |at| && AtEnd(at, lo, hi, d)
      invariant forall e :: 0 <= e < d ==> at'[e] == lo[e]
      invariant forall e :: d <= e < |at| ==> at'[e] == at[e]
    {
      at' := at'[d := at'[d] + 1];
      if at'[d] <= hi[d] { return; }
      at' := at'[d := lo[d]];
      d := d + 1;
    }
  }

  /** The bins visited so far, each once, and their keys. */
  ghost predicate Walked(visits: seq<seq<int>>, keys: seq<nat>, lo: seq<int>, hi: seq<int>, hash: BinHash) {
    && |keys| == |visits| && Distinct(visits)
    && forall k :: 0 <= k < |visits| ==> InRange(visits[k], lo, hi) && keys[k] == hash(visits[k])
  }

  /** The visited bins are exactly those of the range before `at`. */
  ghost predicate WalkedTo(visits: seq<seq<int>>, lo: seq<int>, hi: seq<int>, at: seq<int>) {
    && (forall k :: 0 <= k < |visits| ==> Before(visits[k], at))
    && (forall v :: InRange(v, lo, hi) && Before(v, at) ==> v in visits)
  }

  /** Every bin of the range exactly once. */
  ghost predicate VisitsRange(visits: seq<seq<int>>, keys: seq<nat>, lo: seq<int>, hi: seq<int>, hash: BinHash) {
    Walked(visits, keys, lo, hi, hash) && forall v :: InRange(v, lo, hi) ==> v in visits
  }

  ghost predicate KeysOfRange(keys: seq<nat>, lo: seq<int>, hi: seq<int>, hash: BinHash) {
    exists visits :: VisitsRange(visits, keys, lo, hi, hash)
  }

  lemma WalkMore(visits: seq<seq<int>>, keys: seq<nat>, lo: seq<int>, hi: seq<int>, hash: BinHash, at: seq<int>)
    requires Walked(visits, keys, lo, hi, hash) && WalkedTo(visits, lo, hi, at) && InRange(at, lo, hi)
    ensures Walked(visits + [at], keys + [hash(at)], lo, hi, hash)
    ensures Left(visits + [at], lo, hi) < Left(visits, lo, hi)
  {
    BeforeIsIrreflexive(at);
    assert at !in visits;
    DistinctAppend(visits, at);
    OneLeftLess(visits, lo, hi, at);
  }

  lemma OneLeftLess(visits: seq<seq<int>>, lo: seq<int>, hi: seq<int>, at: seq<int>)
    requires InRange(at, lo, hi) && at !in visits
    ensures Left(visits + [at], lo, hi) < Left(visits, lo, hi)
  {
    RangeIsFinite(at, lo, hi);
    var all := Vectors(lo, hi);
    var left := all - Elements(visits);
    assert at in left;
    assert all - Elements(visits + [at]) == left - {at};
  }

  lemma WalkContinues(visits: seq<seq<int>>, lo: seq<int>, hi: seq<int>, at: seq<int>, next: seq<int>, d: nat)
    requires WalkedTo(visits, lo, hi, at) && InRange(at, lo, hi) && d < |at| && Advanced(at, next, lo, hi, d)
    requires AtEnd(at, lo, hi, d)
    ensures InRange(next, lo, hi) && WalkedTo(visits + [at], lo, hi, next)
  {
    forall k | 0 <= k < |visits|
      ensures Before(visits[k], next)
    {
      AdvancedIsAfter(visits[k], at, next, lo, hi, d);
    }
    AdvancedIsAfter(at, at, next, lo, hi, d);
    forall v | InRange(v, lo, hi) && Before(v, next)
      ensures v in visits + [at]
    {
      NothingSkipped(v, at, next, lo, hi, d);
    }
  }

  lemma WalkEnds(visits: seq<seq<int>>, keys: seq<nat>, lo: seq<int>, hi: seq<int>, hash: BinHash, at: seq<int>)
    requires WalkedTo(visits, lo, hi, at) && InRange(at, lo, hi) && AtEnd(at, lo, hi, |at|)
    requires Walked(visits + [at], keys + [hash(at)], lo, hi, hash)
    ensures forall v :: InRange(v, lo, hi) ==> v in visits + [at] && hash(v) in keys + [hash(at)]
  {
    KeysVisited(visits + [at], keys + [hash(at)], lo, hi, hash);
    forall v | InRange(v, lo, hi)
      ensures v in visits + [at]
    {
      BelowEnd(v, at, lo, hi, |at|);
    }
  }

  /** eachBin: the key of every bin in the range, each bin exactly once, in odometer order. */
  method EachBin(lo: seq<int>, hi: seq<int>, hash: BinHash) returns (keys: seq<nat>)
    requires |lo| == |hi|
    ensures KeysOfRange(keys, lo, hi, hash)
    ensures forall v :: InRange(v, lo, hi) ==> hash(v) in keys
  {
    var at := lo;
    keys := [];
    ghost var visits: seq<seq<int>> := [];
    StartOfWalk(lo, hi);
    while true
      invariant InRange(at, lo, hi) && Walked(visits, keys, lo, hi, hash) && WalkedTo(visits, lo, hi, at)
      decreases Left(visits, lo, hi)
    {
      WalkMore(visits, keys, lo, hi, hash, at);
      var next, d := Advance(at, lo, hi);
      if d == |at| {
        WalkEnds(visits, keys, lo, hi, hash, at);
        keys, visits := keys + [hash(at)], visits + [at];
        assert VisitsRange(visits, keys, lo, hi, hash);
        return;
      }
      WalkContinues(visits, lo, hi, at, next, d);
      keys, visits, at := keys + [hash(at)], visits + [at], next;
    }
  }

  /** How many bins are still to visit. */
  ghost function Left(visits: seq<seq<int>>, lo: seq<int>, hi: seq<int>): nat {
    if |lo| == |hi| then |Vectors(lo, hi) - Elements(visits)| else 0
  }

  lemma StartOfWalk(lo: seq<int>, hi: seq<int>)
    requires |lo| == |hi|
    ensures InRange(lo, lo, hi) && WalkedTo([], lo, hi, lo)
  {
    forall v | InRange(v, lo, hi)
      ensures !Before(v, lo)
    {
    }
  }

  lemma KeysVisited(visits: seq<seq<int>>, keys: seq<nat>, lo: seq<int>, hi: seq<int>, hash: BinHash)
    requires Walked(visits, keys, lo, hi, hash)
    ensures forall v :: v in visits ==> hash(v) in keys
  {
    forall v | v in visits
      ensures hash(v) in keys
    {
      var k :| 0 <= k < |visits| && visits[k] == v;
      assert keys[k] in keys;
    }
  }

  // ----- the grid -----

  ghost predicate ValidFrame(origin: seq<real>, cell: seq<real>) {
    |origin| == |cell| && forall d :: 0 <= d < |cell| ==> cell[d] > 0.0
  }

  /** A bin coordinate the box touches. */
  ghost predicate Touches(origin: seq<real>, cell: seq<real>, b: Box, v: seq<int>)
    requires ValidFrame(origin, cell)
  {
    && |b| == |v| == |cell|
    && forall d :: 0 <= d < |v| ==>
        Bin(origin[d], cell[d], b[d].start) <= v[d] <= Bin(origin[d], cell[d], b[d].end)
  }

  /** The bin of a shared point is touched by every box that contains it. */
  ghost function BinsOf(origin: seq<real>, cell: seq<real>, p: Point): seq<int>
    requires ValidFrame(origin, cell) && |p| == |cell|
  {
    seq(|p|, d requires 0 <= d < |p| => Bin(origin[d], cell[d], p[d]))
  }

  lemma PointIsTouched(origin: seq<real>, cell: seq<real>, b: Box, p: Point)
    requires ValidFrame(origin, cell) && |b| == |cell| && Inside(b, p)
    ensures Touches(origin, cell, b, BinsOf(origin, cell, p))
  {
    forall d | 0 <= d < |p|
      ensures Bin(origin[d], cell[d], b[d].start) <= BinsOf(origin, cell, p)[d] <= Bin(origin[d], cell[d], b[d].end)
    {
      BinIsMonotone(origin[d], cell[d], b[d].start, p[d]);
      BinIsMonotone(origin[d], cell[d], p[d], b[d].end);
    }
  }

  /** Overlapping boxes touch a common bin. */
  lemma OverlapTouches(origin: seq<real>, cell: seq<real>, a: Box, q: Box) returns (v: seq<int>)
    requires ValidFrame(origin, cell) && |a| == |q| == |cell| && Overlaps(a, q)
    ensures Touches(origin, cell, a, v) && Touches(origin, cell, q, v)
  {
    var p := SharedPoint(a, q);
    PointIsTouched(origin, cell, a, p);
    PointIsTouched(origin, cell, q, p);
    v := BinsOf(origin, cell, p);
  }

  /** The box is kept aside, or listed in every bin it touches. */
  ghost predicate Known(bins: Buckets, big: seq<nat>, hash: BinHash, origin: seq<real>, cell: seq<real>, id: nat, b: Box)
    requires ValidFrame(origin, cell)
  {
    id in big || forall v :: Touches(origin, cell, b, v) ==> Listed(bins, hash(v), id)
  }

  /** `bigAt` inverts the list of boxes kept aside. */
  ghost predicate Aside(big: seq<nat>, bigAt: map<nat, nat>) {
    && (forall k :: 0 <= k < |big| ==> big[k] in bigAt && bigAt[big[k]] == k)
    && (forall id :: id in bigAt ==> bigAt[id] < |big| && big[bigAt[id]] == id)
  }

  /** Every box is listed in the bins it is noted under, as often as it is noted, and in no other. */
  ghost predicate Tallied(bins: Buckets, binOf: seq<seq<nat>>) {
    forall key: nat, id: nat :: Count(bins, key, id) == if id < |binOf| then multiset(binOf[id])[key] else 0
  }

  lemma TalliedIsBounded(bins: Buckets, binOf: seq<seq<nat>>)
    requires Tallied(bins, binOf)
    ensures Bounded(bins, |binOf|)
  {
    forall key: nat, id: nat | Listed(bins, key, id)
      ensures id < |binOf|
    {
      assert Count(bins, key, id) > 0;
    }
  }

  lemma TalliedMore(bins: Buckets, binOf: seq<seq<nat>>, keys: seq<nat>, bins': Buckets)
    requires Tallied(bins, binOf) && Lists(bins, bins', keys, |binOf|)
    ensures Tallied(bins', binOf + [keys])
  {
    var more := binOf + [keys];
    forall key: nat, id: nat
      ensures Count(bins', key, id) == if id < |more| then multiset(more[id])[key] else 0
    {
      assert Count(bins', key, id) == Count(bins, key, id) + (if id == |binOf| then multiset(keys)[key] else 0);
      assert Count(bins, key, id) == if id < |binOf| then multiset(binOf[id])[key] else 0;
    }
  }

  /** Unlisting a box under the bins it is noted under leaves it in none. */
  lemma TalliedLess(bins: Buckets, binOf: seq<seq<nat>>, id: nat, bins': Buckets)
    requires Tallied(bins, binOf) && id < |binOf| && Unlists(bins, bins', binOf[id], id)
    ensures Tallied(bins', binOf[id := []])
  {
    var less := binOf[id := []];
    forall key: nat, x: nat
      ensures Count(bins', key, x) == if x < |less| then multiset(less[x])[key] else 0
    {
      assert Count(bins', key, x) ==
        if x == id then Minus(Count(bins, key, x), multiset(binOf[id])[key]) else Count(bins, key, x);
      assert Count(bins, key, x) == if x < |binOf| then multiset(binOf[x])[key] else 0;
    }
  }

  /** A box noted under no bin is listed in none. */
  lemma Unnoted(bins: Buckets, binOf: seq<seq<nat>>, id: nat)
    requires Tallied(bins, binOf) && id < |binOf| && binOf[id] == []
    ensures forall key: nat :: !Listed(bins, key, id)
  {
    forall key: nat
      ensures !Listed(bins, key, id)
    {
      assert Count(bins, key, id) == 0;
    }
  }

  /** Swap-removal keeps the inverse and every other box. */
  lemma SwapRemoved(big: seq<nat>, bigAt: map<nat, nat>, id: nat)
    requires Aside(big, bigAt) && id in bigAt
    ensures var at, n := bigAt[id], |big| - 1;
      var rest := big[at := big[n]][..n];
      var restAt := if at < n then (bigAt - {id})[big[n] := at] else bigAt - {id};
      Aside(rest, restAt) && id !in rest && (forall x :: x in big && x != id ==> x in rest) && forall x :: x in rest ==> x in big
  {
    var at, n := bigAt[id], |big| - 1;
    var rest := big[at := big[n]][..n];
    forall x | x in big && x != id
      ensures x in rest
    {
      var k :| 0 <= k < |big| && big[k] == x;
      assert rest[if k == n then at else k] == x;
    }
  }

  /** The largest number of bins one box may be listed in: four per axis. */
  function Budget(dims: nat): nat {
    if dims == 0 then 1 else 4 * Budget(dims - 1)
  }

  /** The number of bins a box touches on its first axes. */
  ghost function BinCount(origin: seq<real>, cell: seq<real>, b: Box, d: nat): int
    requires ValidFrame(origin, cell) && |b| == |cell| && d <= |cell|
  {
    if d == 0 then 1 else BinCount(origin, cell, b, d - 1) * BinsOn(origin, cell, b, d - 1)
  }

  ghost function BinsOn(origin: seq<real>, cell: seq<real>, b: Box, e: nat): int
    requires ValidFrame(origin, cell) && |b| == |cell| && e < |cell|
  {
    Bin(origin[e], cell[e], b[e].end) - Bin(origin[e], cell[e], b[e].start) + 1
  }

  /** No initial run of axes touches more bins than the budget. */
  ghost predicate WithinBudget(origin: seq<real>, cell: seq<real>, b: Box, d: nat)
    requires ValidFrame(origin, cell) && |b| == |cell| && d <= |cell|
  {
    d == 0 || (WithinBudget(origin, cell, b, d - 1) && BinCount(origin, cell, b, d) <= Budget(|cell|))
  }

  ghost predicate IsBinRange(origin: seq<real>, cell: seq<real>, b: Box, lo: seq<int>, hi: seq<int>)
    requires ValidFrame(origin, cell) && |b| == |cell| && |lo| == |hi| <= |cell|
  {
    forall e :: 0 <= e < |lo| ==> lo[e] == Bin(origin[e], cell[e], b[e].start) && hi[e] == Bin(origin[e], cell[e], b[e].end)
  }

  lemma CountMore(origin: seq<real>, cell: seq<real>, b: Box, d: nat)
    requires ValidFrame(origin, cell) && |b| == |cell| && d < |cell|
    ensures BinCount(origin, cell, b, d + 1) == BinCount(origin, cell, b, d) * BinsOn(origin, cell, b, d)
    ensures WithinBudget(origin, cell, b, d + 1) <==>
      WithinBudget(origin, cell, b, d) && BinCount(origin, cell, b, d + 1) <= Budget(|cell|)
  {
  }

  /** Once over the budget, over it for good. */
  lemma {:induction false} OverBudgetStays(origin: seq<real>, cell: seq<real>, b: Box, d: nat, e: nat)
    requires ValidFrame(origin, cell) && |b| == |cell| && d <= e <= |cell| && !WithinBudget(origin, cell, b, d)
    ensures !WithinBudget(origin, cell, b, e)
  {
    if d < e { OverBudgetStays(origin, cell, b, d, e - 1); }
  }

  class CoverGrid {
    const hash: BinHash
    const origin: seq<real>
    const cell: seq<real>
    var bins: Buckets
    var binOf: seq<seq<nat>>
    var big: seq<nat>
    var bigAt: map<nat, nat>

    ghost predicate Valid()
      reads this
    {
      && ValidFrame(origin, cell) && Aside(big, bigAt) && Tallied(bins, binOf)
      && forall k :: 0 <= k < |big| ==> big[k] < |binOf| && binOf[big[k]] == []
    }

    /** The grid finds the box whenever a query touches it. */
    ghost predicate Finds(id: nat, b: Box)
      requires Valid()
      reads this
    {
      Known(bins, big, hash, origin, cell, id, b)
    }

    constructor (origin: seq<real>, cell: seq<real>, hash: BinHash)
      requires ValidFrame(origin, cell)
      ensures Valid() && this.origin == origin && this.cell == cell && binOf == []
    {
      this.origin, this.cell, this.hash := origin, cell, hash;
      bins, binOf, big, bigAt := map[], [], [], map[];
    }

    /** The inclusive bin range of a box, unless it touches more bins than the budget allows. */
    method BinRange(b: Box) returns (lo: seq<int>, hi: seq<int>, ok: bool)
      requires Valid() && |b| == |cell|
      ensures ok <==> WithinBudget(origin, cell, b, |cell|)
      ensures ok ==> |lo| == |hi| == |cell| && IsBinRange(origin, cell, b, lo, hi)
      ensures ok ==> forall v :: Touches(origin, cell, b, v) ==> InRange(v, lo, hi)
    {
      lo, hi := [], [];
      var reached := 1;
      for d := 0 to |cell|
        invariant |lo| == |hi| == d && IsBinRange(origin, cell, b, lo, hi)
        invariant reached == BinCount(origin, cell, b, d) && WithinBudget(origin, cell, b, d)
      {
        lo := lo + [Bin(origin[d], cell[d], b[d].start)];
        hi := hi + [Bin(origin[d], cell[d], b[d].end)];
        CountMore(origin, cell, b, d);
        reached := reached * (hi[d] - lo[d] + 1);
        if reached > Budget(|cell|) {
          OverBudgetStays(origin, cell, b, d + 1, |cell|);
          return [], [], false;
        }
      }
      ok := true;
    }

    /** The keys of the bins the box touches, unless they are too many. */
    method TouchedKeys(b: Box) returns (keys: seq<nat>, ok: bool)
      requires Valid() && |b| == |cell|
      ensures ok ==> forall v :: Touches(origin, cell, b, v) ==> hash(v) in keys
    {
      keys := [];
      var lo, hi;
      lo, hi, ok := BinRange(b);
      if ok { keys := EachBin(lo, hi, hash); }
    }

    /** Registers the next box under every bin it touches, or aside when those are too many. */
    method Add(id: nat, b: Box)
      requires Valid() && |b| == |cell| && id == |binOf|
      modifies this
      ensures Valid() && |binOf| == old(|binOf|) + 1 && Finds(id, b)
      ensures forall x, c :: old(Finds(x, c)) ==> Finds(x, c)
    {
      var lo, hi, ok := BinRange(b);
      if !ok {
        binOf := binOf + [[]];
        bigAt := bigAt[id := |big|];
        big := big + [id];
        TalliedMore(bins, binOf[..id], [], bins);
      } else {
        var keys := EachBin(lo, hi, hash);
        ghost var before := bins;
        bins := ListUnder(bins, keys, id);
        TalliedMore(before, binOf, keys, bins);
        ListsKeeps(before, bins, keys, id);
        binOf := binOf + [keys];
      }
    }

    /** Unregisters a box from wherever it was registered. */
    method Remove(id: nat)
      requires Valid() && id < |binOf|
      modifies this
      ensures Valid() && |binOf| == old(|binOf|)
      ensures forall x, c :: x != id && old(Finds(x, c)) ==> Finds(x, c)
      ensures id !in big && forall key: nat :: !Listed(bins, key, id)
    {
      if id in bigAt {
        SwapRemoved(big, bigAt, id);
        var at, n := bigAt[id], |big| - 1;
        big := big[at := big[n]][..n];
        bigAt := bigAt - {id};
        if at < n { bigAt := bigAt[big[at] := at]; }
      } else {
        ghost var before := bins;
        bins := UnlistUnder(bins, binOf[id], id);
        TalliedLess(before, binOf, id, bins);
        UnlistsKeeps(before, bins, binOf[id], id);
        binOf := binOf[id := []];
      }
      Unnoted(bins, binOf, id);
    }

    /** The registered boxes that may share a point with `q`, unless `q` is too wide to look up. */
    method Overlapping(q: Box) returns (ids: seq<nat>, exhaustive: bool)
      requires Valid() && |q| == |cell|
      ensures !exhaustive ==> forall k :: 0 <= k < |ids| ==> ids[k] < |binOf|
      ensures !exhaustive ==> forall id, b :: Finds(id, b) && |b| == |q| && Overlaps(b, q) ==> id in ids
    {
      var keys, ok := TouchedKeys(q);
      if !ok { return [], true; }
      ids := [];
      TalliedIsBounded(bins, binOf);
      for k := 0 to |keys|
        invariant forall j :: 0 <= j < |ids| ==> ids[j] < |binOf|
        invariant forall j, id :: 0 <= j < k && Listed(bins, keys[j], id) ==> id in ids
      {
        if keys[k] in bins {
          assert forall t :: 0 <= t < |bins[keys[k]]| ==> Listed(bins, keys[k], bins[keys[k]][t]);
          ids := ids + bins[keys[k]];
        }
      }
      forall id, b | Finds(id, b) && |b| == |q| && Overlaps(b, q)
        ensures id in ids + big
      {
        if id !in big {
          var v := OverlapTouches(origin, cell, b, q);
          assert Listed(bins, hash(v), id);
          var j :| 0 <= j < |keys| && keys[j] == hash(v);
        }
      }
      return ids + big, false;
    }
  }

  // ----- sizing -----

  /** The lower corner of the boxes and their extent per axis. */
  method CoverBounds(boxes: seq<Box>, dims: nat) returns (origin: seq<real>, extent: seq<real>)
    requires forall b :: b in boxes ==> |b| == dims
    ensures |origin| == |extent| == dims
    ensures boxes != [] ==> forall d :: 0 <= d < dims ==> Spans(boxes, d, origin[d], origin[d] + extent[d])
    ensures boxes == [] ==> forall d :: 0 <= d < dims ==> origin[d] == extent[d] == 0.0
  {
    if |boxes| == 0 { return seq(dims, _ => 0.0), seq(dims, _ => 0.0); }
    origin, extent := [], [];
    for d := 0 to dims
      invariant |origin| == |extent| == d
      invariant forall e :: 0 <= e < d ==> Spans(boxes, e, origin[e], origin[e] + extent[e])
    {
      var lo, hi := BoundsOn(boxes, d);
      origin := origin + [lo];
      extent := extent + [hi - lo];
    }
  }

  /** The least start and the greatest end of the boxes on one axis. */
  ghost predicate Spans(boxes: seq<Box>, d: nat, lo: real, hi: real)
    requires forall b :: b in boxes ==> d < |b|
  {
    && (forall b: Box :: b in boxes ==> lo <= b[d].start && b[d].end <= hi)
    && (exists b: Box :: b in boxes && b[d].start == lo) && (exists b: Box :: b in boxes && b[d].end == hi)
  }

  method BoundsOn(boxes: seq<Box>, d: nat) returns (lo: real, hi: real)
    requires boxes != [] && forall b :: b in boxes ==> d < |b|
    ensures Spans(boxes, d, lo, hi)
  {
    assert boxes[0] in boxes;
    lo, hi := boxes[0][d].start, boxes[0][d].end;
    for i := 0 to |boxes|
      invariant forall b: Box :: b in boxes[..i] ==> lo <= b[d].start && b[d].end <= hi
      invariant (exists b: Box :: b in boxes && b[d].start == lo) && (exists b: Box :: b in boxes && b[d].end == hi)
    {
      assert boxes[i] in boxes && boxes[..i + 1] == boxes[..i] + [boxes[i]];
      if boxes[i][d].start < lo { lo := boxes[i][d].start; }
      if boxes[i][d].end > hi { hi := boxes[i][d].end; }
    }
    assert boxes[..|boxes|] == boxes;
  }

  function Power(side: nat, dims: nat): nat {
    if dims == 0 then 1 else side * Power(side, dims - 1)
  }

  /** The smallest bin count per axis whose grid holds one box per bin, capped at 64. */
  lemma {:induction false} PowerOfOne(dims: nat)
    ensures Power(1, dims) == 1
  {
    if dims > 0 { PowerOfOne(dims - 1); }
  }

  method BinsPerAxis(n: nat, dims: nat) returns (side: nat)
    ensures 1 <= side <= 64 && (side == 64 || n <= Power(side, dims))
    ensures forall s :: 1 <= s < side ==> Power(s, dims) < n
  {
    side := 1;
    var capacity := 1;
    PowerOfOne(dims);
    while capacity < n && side < 64
      invariant 1 <= side <= 64 && capacity == Power(side, dims)
      invariant forall s :: 1 <= s < side ==> Power(s, dims) < n
      decreases 64 - side
    {
      side := side + 1;
      capacity := Power(side, dims);
    }
  }

  /** The frame of a grid over the boxes; a flat axis gets unit bins. */
  method FrameOf(boxes: seq<Box>, dims: nat) returns (origin: seq<real>, cell: seq<real>)
    requires boxes != [] && forall b :: b in boxes ==> |b| == dims
    ensures ValidFrame(origin, cell) && |cell| == dims
  {
    var extent;
    origin, extent := CoverBounds(boxes, dims);
    var side := BinsPerAxis(|boxes|, dims);
    cell := [];
    for d := 0 to dims
      invariant |cell| == d && forall e :: 0 <= e < d ==> cell[e] > 0.0
    {
      var width := extent[d] / (side as real);
      cell := cell + [if width <= 0.0 then 1.0 else width];
    }
  }
}
