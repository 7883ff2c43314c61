/** space/strategy/strategy.go: conflict-resolution strategies over operations on boxes. */
module BoxStrategies {
  import opened Sequences
  import opened Entries
  import opened Boxes
  import opened Covers
  import opened BoxSets
  import opened BoxDifference

  datatype Strategy = LWW | FWW | AdditiveWins | GrowOnly | AdditiveWinsLWW

  datatype Kind = Add | Remove | Retract

  /** Metadata is carried along and joined by a given function, never inspected. */
  type Meta = string
  type Join = (Meta, Meta) -> Meta

  /** What a box operation does; a retraction names the operation it cancels. */
  datatype Edit = Edit(kind: Kind, box: Box, ref: int, meta: Meta)

  type Op = Entry<Edit>

  datatype Winner = Winner(ts: int, id: int, kind: Kind)

  datatype Segment = Segment(piece: Painted<Meta>, winner: Winner)

  function WinnerOf(o: Op): Winner {
    Winner(o.ts, o.id, o.edit.kind)
  }

  predicate Better(s: Strategy, a: Winner, b: Winner) {
    if s.FWW? then
      if a.ts != b.ts then a.ts < b.ts else a.id < b.id
    else
      if a.ts != b.ts then a.ts > b.ts else a.id > b.id
  }

  /** Operations of dimension `n`, each on a box with a point, as validation demands. */
  ghost predicate ValidOps(ops: set<Op>, n: nat) {
    forall o :: o in ops ==> |o.edit.box| == n && !Hollow(o.edit.box)
  }

  // ----- the pointwise meaning -----

  ghost predicate IsRetracted(ops: set<Op>, id: int) {
    exists r :: r in ops && r.edit.kind.Retract? && r.edit.ref == id
  }

  /** The operations that count: no retraction, and nothing a retraction names. */
  ghost function EffectiveSet(ops: set<Op>): set<Op> {
    set o | o in ops && !o.edit.kind.Retract? && !IsRetracted(ops, o.id)
  }

  ghost function OfKind(ops: set<Op>, kind: Kind): set<Op> {
    set o | o in ops && o.edit.kind == kind
  }

  ghost predicate Touched(ops: set<Op>, x: Point) {
    exists o :: o in ops && Inside(o.edit.box, x)
  }

  ghost predicate Decides(s: Strategy, ops: set<Op>, o: Op, x: Point) {
    && o in ops && Inside(o.edit.box, x)
    && forall q :: q in ops && q != o && Inside(q.edit.box, x) ==> Better(s, WinnerOf(o), WinnerOf(q))
  }

  /** The operation covers the point, and every other one that does has a smaller timestamp, or the same and a smaller id. */
  ghost predicate Latest(ops: set<Op>, o: Op, x: Point) {
    && o in ops && Inside(o.edit.box, x)
    && forall q :: q in ops && q != o && Inside(q.edit.box, x) ==> q.ts < o.ts || (q.ts == o.ts && q.id < o.id)
  }

  /** The operation covers the point, and every other one that does has a greater timestamp, or the same and a greater id. */
  ghost predicate Earliest(ops: set<Op>, o: Op, x: Point) {
    && o in ops && Inside(o.edit.box, x)
    && forall q :: q in ops && q != o && Inside(q.edit.box, x) ==> q.ts > o.ts || (q.ts == o.ts && q.id > o.id)
  }

  /** The last write decides under LWW, the first under FWW. */
  lemma DecidesIff(ops: set<Op>, o: Op, x: Point)
    ensures Decides(LWW, ops, o, x) <==> Latest(ops, o, x)
    ensures Decides(FWW, ops, o, x) <==> Earliest(ops, o, x)
  {
  }

  /** The rule of each strategy on the effective operations. */
  ghost predicate Rule(s: Strategy, ops: set<Op>, x: Point) {
    match s
    case LWW | FWW => exists o :: Decides(s, ops, o, x) && o.edit.kind.Add?
    case AdditiveWins | AdditiveWinsLWW => Touched(OfKind(ops, Add), x) && !Touched(OfKind(ops, Remove), x)
    case GrowOnly => Touched(OfKind(ops, Add), x)
  }

  // ----- Effective -----

  predicate RetractedIn(retracted: set<int>, o: Op) {
    o.edit.kind.Retract? || o.id in retracted
  }

  method Effective(ops: seq<Op>) returns (out: seq<Op>)
    ensures Elements(out) == EffectiveSet(Elements(ops))
    ensures Distinct(ops) ==> Distinct(out)
  {
    var retracted: set<int> := {};
    for i := 0 to |ops|
      invariant forall id :: id in retracted <==> exists k :: 0 <= k < i && ops[k].edit.kind.Retract? && ops[k].edit.ref == id
    {
      if ops[i].edit.kind == Retract { retracted := retracted + {ops[i].edit.ref}; }
    }
    ghost var all := Elements(ops);
    forall id
      ensures id in retracted <==> IsRetracted(all, id)
    {
      if IsRetracted(all, id) {
        var r :| r in all && r.edit.kind.Retract? && r.edit.ref == id;
        var k :| 0 <= k < |ops| && ops[k] == r;
      }
      if id in retracted {
        var k :| 0 <= k < |ops| && ops[k].edit.kind.Retract? && ops[k].edit.ref == id;
        assert ops[k] in all;
      }
    }
    if retracted == {} {
      assert EffectiveSet(all) == all by { NoRetraction(all, retracted); }
      return ops;
    }
    out := [];
    for i := 0 to |ops|
      invariant forall o :: o in out <==> o in ops[..i] && !RetractedIn(retracted, o)
      invariant Distinct(ops) ==> Distinct(out)
    {
      assert ops[..i + 1] == ops[..i] + [ops[i]];
      if !RetractedIn(retracted, ops[i]) {
        if Distinct(ops) {
          assert ops[i] !in ops[..i];
          DistinctAppend(out, ops[i]);
        }
        out := out + [ops[i]];
      }
    }
    assert ops[..|ops|] == ops;
  }

  lemma NoRetraction(all: set<Op>, retracted: set<int>)
    requires retracted == {} && forall id :: id in retracted <==> IsRetracted(all, id)
    ensures EffectiveSet(all) == all
  {
    forall o | o in all
      ensures !o.edit.kind.Retract? && !IsRetracted(all, o.id)
    {
      if o.edit.kind.Retract? { assert IsRetracted(all, o.edit.ref); }
    }
  }

  // ----- Segments -----

  ghost function BoxesIn(ops: seq<Op>): set<Box> {
    set o | o in ops :: o.edit.box
  }

  /** The pieces of a box outside every box of `S`. */
  ghost function FreeOf(box: Box, S: set<Box>): set<Box> {
    MinusAll({box}, SortedOf(Maxima(S)))
  }

  ghost function PiecesOf(o: Op, S: set<Box>): set<Segment> {
    set b | b in FreeOf(o.edit.box, S) :: Segment(Painted(b, o.edit.meta), WinnerOf(o))
  }

  /** The segments of operations in priority order: each decides what none before it covers. */
  ghost function SegmentSet(list: seq<Op>): set<Segment> {
    if list == [] then {}
    else SegmentSet(list[..|list| - 1]) + PiecesOf(list[|list| - 1], BoxesIn(list[..|list| - 1]))
  }

  ghost predicate InPriority(s: Strategy, list: seq<Op>) {
    forall j, k :: 0 <= j < k < |list| ==> Better(s, WinnerOf(list[j]), WinnerOf(list[k]))
  }

  ghost predicate AllValid(list: seq<Op>, n: nat) {
    forall k :: 0 <= k < |list| ==> |list[k].edit.box| == n && !Hollow(list[k].edit.box)
  }

  /** The segment is a piece of operation `k`, outside every operation before it. */
  ghost predicate PieceOf(list: seq<Op>, g: Segment, k: nat, n: nat) {
    && k < |list| && g.winner == WinnerOf(list[k]) && g.piece.meta == list[k].edit.meta
    && |g.piece.box| == n && !Hollow(g.piece.box)
    && forall x :: Inside(g.piece.box, x) ==>
      Inside(list[k].edit.box, x) && forall j :: 0 <= j < k ==> !Inside(list[j].edit.box, x)
  }

  lemma BoxesInAreProper(list: seq<Op>, n: nat)
    requires AllValid(list, n)
    ensures Proper(BoxesIn(list), n) && Proper(Maxima(BoxesIn(list)), n)
  {
    forall b | b in BoxesIn(list)
      ensures |b| == n && !Hollow(b)
    {
      var o :| o in list && o.edit.box == b;
      var k :| 0 <= k < |list| && list[k] == o;
    }
  }

  lemma FreeIsExact(list: seq<Op>, box: Box, n: nat, x: Point)
    requires AllValid(list, n) && |box| == n && !Hollow(box)
    ensures Proper(FreeOf(box, BoxesIn(list)), n) && ApartSet(FreeOf(box, BoxesIn(list)))
    ensures InSet(FreeOf(box, BoxesIn(list)), x) <==>
      Inside(box, x) && forall j :: 0 <= j < |list| ==> !Inside(list[j].edit.box, x)
  {
    var S := BoxesIn(list);
    BoxesInAreProper(list, n);
    SortedOfIsSorted(Maxima(S), n);
    var c := SortedOf(Maxima(S));
    assert OfDims(c, n) by {
      forall b | b in c ensures |b| == n { assert b in Elements(c); }
    }
    MinusAllIsExact({box}, c, n, x);
    MinusAllIsApart({box}, c, n);
    InsideSomeIsInSet(c, x);
    MaximaKeepPoints(S, x);
    BoxesInPoints(list, x);
  }

  lemma BoxesInPoints(list: seq<Op>, x: Point)
    ensures InSet(BoxesIn(list), x) <==> exists j :: 0 <= j < |list| && Inside(list[j].edit.box, x)
  {
    if InSet(BoxesIn(list), x) {
      var b :| b in BoxesIn(list) && Inside(b, x);
      var o :| o in list && o.edit.box == b;
      var j :| 0 <= j < |list| && list[j] == o;
    }
    if exists j :: 0 <= j < |list| && Inside(list[j].edit.box, x) {
      var j :| 0 <= j < |list| && Inside(list[j].edit.box, x);
      assert list[j] in list;
      assert list[j].edit.box in BoxesIn(list);
    }
  }

  lemma NewPieceOf(rest: seq<Op>, o: Op, g: Segment, n: nat)
    requires AllValid(rest + [o], n) && g in PiecesOf(o, BoxesIn(rest))
    ensures PieceOf(rest + [o], g, |rest|, n)
  {
    var list := rest + [o];
    assert list[|rest|] == o;
    assert AllValid(rest, n) by {
      forall k | 0 <= k < |rest| ensures |rest[k].edit.box| == n && !Hollow(rest[k].edit.box) { assert list[k] == rest[k]; }
    }
    var b := g.piece.box;
    assert b in FreeOf(o.edit.box, BoxesIn(rest));
    forall x
      ensures Inside(b, x) ==> Inside(o.edit.box, x) && forall j :: 0 <= j < |rest| ==> !Inside(rest[j].edit.box, x)
    {
      FreeIsExact(rest, o.edit.box, n, x);
    }
    FreeIsExact(rest, o.edit.box, n, []);
  }

  /** Where a segment comes from. */
  lemma {:induction false} SegmentFrom(list: seq<Op>, g: Segment, n: nat) returns (k: nat)
    requires AllValid(list, n) && g in SegmentSet(list)
    ensures PieceOf(list, g, k, n)
  {
    var rest, o := list[..|list| - 1], list[|list| - 1];
    assert list == rest + [o];
    if g in SegmentSet(rest) {
      k := SegmentFrom(rest, g, n);
      assert forall j :: 0 <= j <= k ==> list[j] == rest[j];
    } else {
      NewPieceOf(rest, o, g, n);
      k := |rest|;
    }
  }

  /** Every covered point lies in a segment. */
  lemma {:induction false} SegmentsCover(list: seq<Op>, n: nat, x: Point, j: nat) returns (g: Segment)
    requires AllValid(list, n) && j < |list| && Inside(list[j].edit.box, x)
    ensures g in SegmentSet(list) && Inside(g.piece.box, x)
    decreases |list|
  {
    var rest, o := list[..|list| - 1], list[|list| - 1];
    assert j < |rest| ==> rest[j] == list[j];
    if exists i :: 0 <= i < |rest| && Inside(rest[i].edit.box, x) {
      var i :| 0 <= i < |rest| && Inside(rest[i].edit.box, x);
      g := SegmentsCover(rest, n, x, i);
    } else {
      g := NewPieceCovers(rest, o, n, x);
    }
  }

  lemma NewPieceCovers(rest: seq<Op>, o: Op, n: nat, x: Point) returns (g: Segment)
    requires AllValid(rest, n) && |o.edit.box| == n && !Hollow(o.edit.box)
    requires Inside(o.edit.box, x) && forall i :: 0 <= i < |rest| ==> !Inside(rest[i].edit.box, x)
    ensures g in PiecesOf(o, BoxesIn(rest)) && Inside(g.piece.box, x)
  {
    FreeIsExact(rest, o.edit.box, n, x);
    var b :| b in FreeOf(o.edit.box, BoxesIn(rest)) && Inside(b, x);
    g := Segment(Painted(b, o.edit.meta), WinnerOf(o));
  }

  /** Distinct segments share no point. */
  lemma {:induction false} SegmentsApart(list: seq<Op>, g: Segment, h: Segment, n: nat)
    requires AllValid(list, n) && g in SegmentSet(list) && h in SegmentSet(list) && g != h
    ensures |g.piece.box| == |h.piece.box| == n && !Overlaps(g.piece.box, h.piece.box)
    decreases |list|
  {
    var rest, o := list[..|list| - 1], list[|list| - 1];
    assert list == rest + [o];
    PrefixValid(list, |list| - 1, n);
    if g in SegmentSet(rest) && h in SegmentSet(rest) {
      SegmentsApart(rest, g, h, n);
    } else if g !in SegmentSet(rest) && h !in SegmentSet(rest) {
      OwnPiecesApart(rest, o, g, h, n);
    } else {
      var inner, outer := if g in SegmentSet(rest) then g else h, if g in SegmentSet(rest) then h else g;
      InnerOuterApart(rest, o, inner, outer, n);
      OverlapsIsSymmetric(inner.piece.box, outer.piece.box);
    }
  }

  lemma OwnPiecesApart(rest: seq<Op>, o: Op, g: Segment, h: Segment, n: nat)
    requires AllValid(rest, n) && |o.edit.box| == n && !Hollow(o.edit.box)
    requires g in PiecesOf(o, BoxesIn(rest)) && h in PiecesOf(o, BoxesIn(rest)) && g != h
    ensures |g.piece.box| == |h.piece.box| == n && !Overlaps(g.piece.box, h.piece.box)
  {
    FreeIsExact(rest, o.edit.box, n, []);
    assert ApartPair(g.piece.box, h.piece.box);
  }

  lemma InnerOuterApart(rest: seq<Op>, o: Op, inner: Segment, outer: Segment, n: nat)
    requires AllValid(rest + [o], n) && AllValid(rest, n)
    requires inner in SegmentSet(rest) && outer in PiecesOf(o, BoxesIn(rest))
    ensures |inner.piece.box| == |outer.piece.box| == n && !Overlaps(inner.piece.box, outer.piece.box)
  {
    var k := SegmentFrom(rest, inner, n);
    NewPieceOf(rest, o, outer, n);
    assert (rest + [o])[k] == rest[k];
    OverlapsMeansShared(inner.piece.box, outer.piece.box);
  }

  /** The operation a segment names decides every point of the segment. */
  lemma SegmentDecides(s: Strategy, list: seq<Op>, g: Segment, n: nat, x: Point) returns (o: Op)
    requires AllValid(list, n) && InPriority(s, list) && g in SegmentSet(list) && Inside(g.piece.box, x)
    ensures Decides(s, Elements(list), o, x) && g.winner == WinnerOf(o) && g.piece.meta == o.edit.meta
  {
    var k := SegmentFrom(list, g, n);
    o := list[k];
    forall q | q in Elements(list) && q != o && Inside(q.edit.box, x)
      ensures Better(s, WinnerOf(o), WinnerOf(q))
    {
      var j :| 0 <= j < |list| && list[j] == q;
    }
  }

  lemma MaximaAdd(S: set<Box>, b: Box)
    ensures Maxima(Maxima(S) + {b}) == Maxima(S + {b})
  {
    var M := Maxima(S);
    MaximaAreMaximal(S);
    MaximaAreMaximal(M + {b});
    var C := Maxima(M + {b});
    forall s | s in S + {b}
      ensures exists c :: c in C && Sub(c, s)
    {
      if s in S {
        var m :| m in M && Sub(m, s);
        var c :| c in C && Sub(c, m);
        SubIsTransitive(c, m, s);
      }
    }
    MaximalIsUnique(C, S + {b});
  }

  function Pieces(segs: seq<Segment>): (ps: seq<Painted<Meta>>)
    ensures |ps| == |segs| && forall k :: 0 <= k < |ps| ==> ps[k] == segs[k].piece
  {
    seq(|segs|, k requires 0 <= k < |segs| => segs[k].piece)
  }

  /** What the resolution of a keyed set of operations yields: its segments in canonical order of their boxes. */
  ghost predicate IsResolution(s: Strategy, ops: set<Op>, list: seq<Op>, out: seq<Segment>) {
    && InPriority(s, list) && Elements(list) == ops
    && Elements(out) == SegmentSet(list) && Sorted(Geo(Pieces(out)))
  }

  /** The operations in strict priority order. */
  method ByPriority(s: Strategy, ops: seq<Op>) returns (list: seq<Op>)
    requires Distinct(ops) && Keyed(Elements(ops))
    ensures InPriority(s, list) && Elements(list) == Elements(ops)
  {
    list := Sort(ops, (a: Op, b: Op) => Better(s, WinnerOf(a), WinnerOf(b)));
    DistinctTransfers(ops, list);
    forall j, k | 0 <= j < k < |list|
      ensures Better(s, WinnerOf(list[j]), WinnerOf(list[k]))
    {
      assert list[j] in Elements(ops) && list[k] in Elements(ops) && list[j] != list[k];
      var less := (a: Op, b: Op) => Better(s, WinnerOf(a), WinnerOf(b));
      assert !less(list[k], list[j]);
    }
  }

  /** The part of one operation that no earlier one claimed, and the claims with it added. */
  method Claim(o: Op, claimed: seq<Box>, join: Join, ghost rest: seq<Op>, ghost n: nat)
    returns (free: seq<Painted<Meta>>, claimed': seq<Box>)
    requires AllValid(rest, n) && |o.edit.box| == n && !Hollow(o.edit.box)
    requires Normalized(claimed, n) && Elements(claimed) == Maxima(BoxesIn(rest))
    ensures Sorted(Geo(free)) && Elements(Geo(free)) == FreeOf(o.edit.box, BoxesIn(rest))
    ensures forall t :: t in free ==> t.meta == o.edit.meta
    ensures Normalized(claimed', n) && Elements(claimed') == Maxima(BoxesIn(rest + [o]))
  {
    var one := [Painted(o.edit.box, o.edit.meta)];
    assert Geo(one) == [o.edit.box];
    BoxesInAreProper(rest, n);
    SortedOfIsSorted(Maxima(BoxesIn(rest)), n);
    SortedIsUnique(claimed, SortedOf(Maxima(BoxesIn(rest))));
    free := DifferenceSorted(one, claimed, join, n);
    assert Solid([o.edit.box]) == {o.edit.box};
    MaximaOfAntichain({o.edit.box});
    claimed' := InsertNormalized(claimed, o.edit.box, n);
    SolidOfNormalized(claimed, o.edit.box, n);
    MaximaAdd(BoxesIn(rest), o.edit.box);
    BoxesAppend(rest, o);
  }

  lemma BoxesAppend(rest: seq<Op>, o: Op)
    ensures BoxesIn(rest + [o]) == BoxesIn(rest) + {o.edit.box}
  {
    forall b | b in BoxesIn(rest) + {o.edit.box}
      ensures b in BoxesIn(rest + [o])
    {
      if b == o.edit.box {
        assert o in rest + [o];
      } else {
        var q :| q in rest && q.edit.box == b;
        assert q in rest + [o];
      }
    }
  }

  function SegmentsFrom(free: seq<Painted<Meta>>, w: Winner): (out: seq<Segment>)
    ensures |out| == |free| && forall k :: 0 <= k < |out| ==> out[k] == Segment(free[k], w)
  {
    seq(|free|, k requires 0 <= k < |free| => Segment(free[k], w))
  }

  lemma FreeSegments(o: Op, free: seq<Painted<Meta>>, S: set<Box>)
    requires Sorted(Geo(free)) && Elements(Geo(free)) == FreeOf(o.edit.box, S) && forall t :: t in free ==> t.meta == o.edit.meta
    ensures Elements(SegmentsFrom(free, WinnerOf(o))) == PiecesOf(o, S) && Distinct(SegmentsFrom(free, WinnerOf(o)))
  {
    var out := SegmentsFrom(free, WinnerOf(o));
    forall g | g in out
      ensures g in PiecesOf(o, S)
    {
      var k :| 0 <= k < |out| && out[k] == g;
      assert Geo(free)[k] in Elements(Geo(free)) && free[k] in free;
      assert g == Segment(Painted(free[k].box, o.edit.meta), WinnerOf(o));
    }
    forall g | g in PiecesOf(o, S)
      ensures g in out
    {
      assert g.piece.box in Elements(Geo(free));
      var k :| 0 <= k < |free| && Geo(free)[k] == g.piece.box;
      assert free[k] in free;
      assert out[k] == g;
    }
    forall j, k | 0 <= j < k < |out|
      ensures out[j] != out[k]
    {
      LessIsTotal(Geo(free)[j], Geo(free)[k]);
    }
  }

  /** Segments and normalize: defined for LWW and FWW, empty otherwise. */
  method Segments(s: Strategy, ops: seq<Op>, join: Join, ghost n: nat) returns (out: seq<Segment>, ghost list: seq<Op>)
    requires Distinct(ops) && Keyed(Elements(ops)) && ValidOps(Elements(ops), n)
    ensures s.LWW? || s.FWW? ==> IsResolution(s, Elements(ops), list, out) && AllValid(list, n)
    ensures !(s.LWW? || s.FWW?) ==> out == []
  {
    if s != LWW && s != FWW { return [], []; }
    var sorted := ByPriority(s, ops);
    list := sorted;
    ListIsValid(sorted, Elements(ops), n);
    var found := CarveInOrder(sorted, join, n);
    out := SortSegments(found, sorted, n);
  }

  /** Higher-priority operations decide first; each later one keeps what is still free. */
  method CarveInOrder(sorted: seq<Op>, join: Join, ghost n: nat) returns (found: seq<Segment>)
    requires AllValid(sorted, n)
    ensures Elements(found) == SegmentSet(sorted) && Distinct(found)
  {
    var claimed: seq<Box> := [];
    found := [];
    NoClaims(n);
    for i := 0 to |sorted|
      invariant Normalized(claimed, n) && Elements(claimed) == Maxima(BoxesIn(sorted[..i]))
      invariant Elements(found) == SegmentSet(sorted[..i]) && Distinct(found)
    {
      var o := sorted[i];
      ghost var rest := sorted[..i];
      NextValid(sorted, i, n);
      var free;
      free, claimed := Claim(o, claimed, join, rest, n);
      FreeSegments(o, free, BoxesIn(rest));
      MoreSegments(rest, o, found, SegmentsFrom(free, WinnerOf(o)), n);
      found := found + SegmentsFrom(free, WinnerOf(o));
    }
    assert sorted[..|sorted|] == sorted;
  }

  lemma PrefixValid(list: seq<Op>, i: nat, n: nat)
    requires AllValid(list, n) && i <= |list|
    ensures AllValid(list[..i], n)
  {
  }

  lemma NextValid(list: seq<Op>, i: nat, n: nat)
    requires AllValid(list, n) && i < |list|
    ensures list[..i + 1] == list[..i] + [list[i]] && AllValid(list[..i], n) && AllValid(list[..i] + [list[i]], n)
  {
  }

  lemma NoClaims(n: nat)
    ensures Normalized([], n) && Elements<Box>([]) == Maxima(BoxesIn([]))
    ensures Elements<Segment>([]) == SegmentSet([])
  {
  }

  lemma ListIsValid(list: seq<Op>, ops: set<Op>, n: nat)
    requires Elements(list) == ops && ValidOps(ops, n)
    ensures AllValid(list, n)
  {
    forall k | 0 <= k < |list|
      ensures |list[k].edit.box| == n && !Hollow(list[k].edit.box)
    {
      assert list[k] in Elements(list);
    }
  }

  lemma MoreSegments(rest: seq<Op>, o: Op, found: seq<Segment>, more: seq<Segment>, n: nat)
    requires AllValid(rest, n) && AllValid(rest + [o], n)
    requires Elements(found) == SegmentSet(rest) && Distinct(found)
    requires Elements(more) == PiecesOf(o, BoxesIn(rest)) && Distinct(more)
    ensures Elements(found + more) == SegmentSet(rest + [o]) && Distinct(found + more)
  {
    assert (rest + [o])[..|rest|] == rest;
    ElementsConcat(found, more);
    forall j, k | 0 <= j < |found| && 0 <= k < |more|
      ensures found[j] != more[k]
    {
      assert found[j] in Elements(found) && more[k] in Elements(more);
      if found[j] == more[k] {
        InnerOuterApart(rest, o, found[j], more[k], n);
        NewPieceOf(rest, o, more[k], n);
        SelfOverlaps(more[k].piece.box);
      }
    }
  }

  method SortSegments(found: seq<Segment>, ghost list: seq<Op>, ghost n: nat) returns (out: seq<Segment>)
    requires Distinct(found) && Elements(found) == SegmentSet(list) && AllValid(list, n)
    ensures Elements(out) == SegmentSet(list) && Sorted(Geo(Pieces(out)))
  {
    forall x, y, z | x in found && y in found && z in found
      ensures Less(x.piece.box, y.piece.box) ==> !Less(y.piece.box, x.piece.box)
      ensures !Less(y.piece.box, x.piece.box) && !Less(z.piece.box, y.piece.box) ==> !Less(z.piece.box, x.piece.box)
    {
      assert x in Elements(found) && y in Elements(found) && z in Elements(found);
      var i := SegmentFrom(list, x, n);
      var j := SegmentFrom(list, y, n);
      var k := SegmentFrom(list, z, n);
      OrderOfThree(x.piece.box, y.piece.box, z.piece.box);
    }
    out := Sort(found, (a: Segment, b: Segment) => Less(a.piece.box, b.piece.box));
    DistinctTransfers(found, out);
    forall j, k | 0 <= j < k < |out|
      ensures Less(Geo(Pieces(out))[j], Geo(Pieces(out))[k])
    {
      assert out[j] in Elements(found) && out[k] in Elements(found);
      StrictOrder(list, out[j], out[k], n);
      var less := (a: Segment, b: Segment) => Less(a.piece.box, b.piece.box);
      assert !less(out[k], out[j]);
    }
  }

  lemma StrictOrder(list: seq<Op>, g: Segment, h: Segment, n: nat)
    requires AllValid(list, n) && g in SegmentSet(list) && h in SegmentSet(list) && g != h
    ensures Less(g.piece.box, h.piece.box) || Less(h.piece.box, g.piece.box)
  {
    SegmentsApart(list, g, h, n);
    var k := SegmentFrom(list, g, n);
    SelfOverlaps(g.piece.box);
    LessIsTotal(g.piece.box, h.piece.box);
  }

  lemma OrderOfThree(x: Box, y: Box, z: Box)
    requires |x| == |y| == |z|
    ensures Less(x, y) ==> !Less(y, x)
    ensures !Less(y, x) && !Less(z, y) ==> !Less(z, x)
  {
    LessIsTotal(x, y);
    LessIsTotal(y, z);
    LessIsTotal(x, z);
    if Less(x, y) && Less(y, z) { LessIsTransitive(x, y, z); }
  }
}
