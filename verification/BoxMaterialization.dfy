/** space/strategy/strategy.go: Materialize over boxes, its meaning and its convergence. */
module BoxMaterialization {
  import opened Sequences
  import opened Boxes
  import opened BoxSubtraction
  import opened Covers
  import opened BoxSets
  import opened BoxDifference
  import opened Entries
  import opened BoxStrategies

  // ----- BoxesOf -----

  ghost function KindBoxes(ops: set<Op>, kind: Kind): set<Box> {
    set o | o in ops && o.edit.kind == kind :: o.edit.box
  }

  lemma KindBoxesPoints(ops: set<Op>, kind: Kind, x: Point)
    ensures InSet(KindBoxes(ops, kind), x) <==> Touched(OfKind(ops, kind), x)
  {
    if InSet(KindBoxes(ops, kind), x) {
      var b :| b in KindBoxes(ops, kind) && Inside(b, x);
      var o :| o in ops && o.edit.kind == kind && o.edit.box == b;
      assert o in OfKind(ops, kind);
    }
    if Touched(OfKind(ops, kind), x) {
      var o :| o in OfKind(ops, kind) && Inside(o.edit.box, x);
      assert o.edit.box in KindBoxes(ops, kind);
    }
  }

  lemma KindBoxesProper(ops: set<Op>, kind: Kind, n: nat)
    requires ValidOps(ops, n)
    ensures Proper(KindBoxes(ops, kind), n) && Proper(Maxima(KindBoxes(ops, kind)), n)
  {
  }

  /** opsOf: the operations of one kind, in input order. */
  method OpsOf(ops: seq<Op>, kind: Kind) returns (out: seq<Op>)
    ensures Elements(out) == OfKind(Elements(ops), kind)
    ensures Distinct(ops) ==> Distinct(out)
  {
    out := [];
    for i := 0 to |ops|
      invariant forall o :: o in out <==> o in ops[..i] && o.edit.kind == kind
      invariant Distinct(ops) ==> Distinct(out)
    {
      assert ops[..i + 1] == ops[..i] + [ops[i]];
      if ops[i].edit.kind == kind {
        if Distinct(ops) {
          assert ops[i] !in ops[..i];
          DistinctAppend(out, ops[i]);
        }
        out := out + [ops[i]];
      }
    }
    assert ops[..|ops|] == ops;
  }

  function PaintedBoxes(ops: seq<Op>): (ps: seq<Painted<Meta>>)
    ensures |ps| == |ops| && forall k :: 0 <= k < |ps| ==> ps[k] == Painted(ops[k].edit.box, ops[k].edit.meta)
  {
    seq(|ops|, k requires 0 <= k < |ops| => Painted(ops[k].edit.box, ops[k].edit.meta))
  }

  lemma PaintedAreSolid(ops: seq<Op>, all: set<Op>, kind: Kind, n: nat)
    requires Elements(ops) == OfKind(all, kind) && ValidOps(all, n)
    ensures Solid(Geo(PaintedBoxes(ops))) == KindBoxes(all, kind) && OfDims(Geo(PaintedBoxes(ops)), n)
  {
    var g := Geo(PaintedBoxes(ops));
    forall b | b in g
      ensures b in KindBoxes(all, kind) && |b| == n && !Hollow(b)
    {
      var k :| 0 <= k < |g| && g[k] == b;
      assert ops[k] in Elements(ops);
    }
    forall b | b in KindBoxes(all, kind)
      ensures b in g
    {
      var o :| o in all && o.edit.kind == kind && o.edit.box == b;
      assert o in Elements(ops);
      var k :| 0 <= k < |ops| && ops[k] == o;
      assert g[k] == b;
    }
  }

  method BoxesOf(ops: seq<Op>, kind: Kind, join: Join, ghost n: nat) returns (out: seq<Painted<Meta>>)
    requires ValidOps(Elements(ops), n)
    ensures Normalized(Geo(out), n) && Elements(Geo(out)) == Maxima(KindBoxes(Elements(ops), kind))
  {
    var some := OpsOf(ops, kind);
    PaintedAreSolid(some, Elements(ops), kind, n);
    out := Normalize(PaintedBoxes(some), join, n);
  }

  // ----- ToBoxes -----

  ghost function AddPieces(list: seq<Op>): set<Painted<Meta>> {
    set g | g in SegmentSet(list) && g.winner.kind.Add? :: g.piece
  }

  ghost function AddBoxes(list: seq<Op>): set<Box> {
    set g | g in SegmentSet(list) && g.winner.kind.Add? :: g.piece.box
  }

  /** The pieces decided by additions so far, in order and before what is still to come. */
  ghost predicate Sifted(segs: seq<Segment>, i: nat, ps: seq<Painted<Meta>>)
    requires i <= |segs|
  {
    && (forall t :: t in ps <==> exists k :: 0 <= k < i && segs[k].winner.kind.Add? && segs[k].piece == t)
    && Sorted(Geo(ps))
    && (forall j, k :: 0 <= j < |ps| && i <= k < |segs| ==> Less(ps[j].box, segs[k].piece.box))
  }

  lemma SiftMore(segs: seq<Segment>, i: nat, ps: seq<Painted<Meta>>)
    requires i < |segs| && Sorted(Geo(Pieces(segs))) && Sifted(segs, i, ps)
    ensures segs[i].winner.kind.Add? ==> Sifted(segs, i + 1, ps + [segs[i].piece])
    ensures !segs[i].winner.kind.Add? ==> Sifted(segs, i + 1, ps)
  {
    var g := Geo(Pieces(segs));
    assert forall k :: 0 <= k < |segs| ==> g[k] == segs[k].piece.box;
    if segs[i].winner.kind.Add? {
      var more := ps + [segs[i].piece];
      GeoAppend(ps, segs[i].piece);
      forall t
        ensures t in more <==> exists k :: 0 <= k < i + 1 && segs[k].winner.kind.Add? && segs[k].piece == t
      {
        assert t in more <==> t in ps || t == segs[i].piece;
      }
    }
  }

  lemma SiftedIsApart(list: seq<Op>, segs: seq<Segment>, ps: seq<Painted<Meta>>, n: nat)
    requires AllValid(list, n) && Elements(segs) == SegmentSet(list) && Sifted(segs, |segs|, ps)
    ensures Apart(Geo(ps)) && NoneHollow(Geo(ps)) && OfDims(Geo(ps), n)
    ensures Elements(ps) == AddPieces(list)
  {
    forall t
      ensures t in ps <==> t in AddPieces(list)
    {
      if t in ps {
        var k :| 0 <= k < |segs| && segs[k].winner.kind.Add? && segs[k].piece == t;
        assert segs[k] in Elements(segs);
      }
      if t in AddPieces(list) {
        var g :| g in SegmentSet(list) && g.winner.kind.Add? && g.piece == t;
        assert g in Elements(segs);
        var k :| 0 <= k < |segs| && segs[k] == g;
      }
    }
    forall k | 0 <= k < |ps|
      ensures |ps[k].box| == n && !Hollow(ps[k].box)
    {
      var g := SourceOf(list, ps[k]);
      var i := SegmentFrom(list, g, n);
    }
    forall j, k | 0 <= j < k < |ps|
      ensures |ps[j].box| == |ps[k].box| && !Overlaps(ps[j].box, ps[k].box)
    {
      var g := SourceOf(list, ps[j]);
      var h := SourceOf(list, ps[k]);
      assert Less(Geo(ps)[j], Geo(ps)[k]);
      LessIsTotal(ps[j].box, ps[k].box);
      SegmentsApart(list, g, h, n);
    }
  }

  lemma SourceOf(list: seq<Op>, t: Painted<Meta>) returns (g: Segment)
    requires t in AddPieces(list)
    ensures g in SegmentSet(list) && g.winner.kind.Add? && g.piece == t
  {
    g :| g in SegmentSet(list) && g.winner.kind.Add? && g.piece == t;
  }

  method ToBoxes(segs: seq<Segment>, join: Join, ghost list: seq<Op>, ghost n: nat) returns (out: seq<Painted<Meta>>)
    requires AllValid(list, n) && Elements(segs) == SegmentSet(list) && Sorted(Geo(Pieces(segs)))
    ensures Normalized(Geo(out), n) && Apart(Geo(out)) && Elements(out) == AddPieces(list)
  {
    var ps: seq<Painted<Meta>> := [];
    for i := 0 to |segs|
      invariant Sifted(segs, i, ps)
    {
      SiftMore(segs, i, ps);
      if segs[i].winner.kind == Add { ps := ps + [segs[i].piece]; }
    }
    SiftedIsApart(list, segs, ps, n);
    ApartIsIncomparable(Geo(ps));
    out := Normalize(ps, join, n);
    SameMembers(out, ps);
    RearrangedApart(ps, out);
  }

  lemma AddBoxesAreGeo(list: seq<Op>, out: seq<Painted<Meta>>)
    requires Elements(out) == AddPieces(list)
    ensures Elements(Geo(out)) == AddBoxes(list)
  {
    forall b | b in Geo(out)
      ensures b in AddBoxes(list)
    {
      var k :| 0 <= k < |out| && Geo(out)[k] == b;
      assert out[k] in Elements(out);
      var g := SourceOf(list, out[k]);
    }
    forall b | b in AddBoxes(list)
      ensures b in Geo(out)
    {
      var g :| g in SegmentSet(list) && g.winner.kind.Add? && g.piece.box == b;
      assert g.piece in Elements(out);
      var k :| 0 <= k < |out| && out[k] == g.piece;
      assert Geo(out)[k] == b;
    }
  }

  // ----- Materialize -----

  lemma DeciderIsUnique(s: Strategy, ops: set<Op>, a: Op, b: Op, x: Point)
    requires Decides(s, ops, a, x) && Decides(s, ops, b, x)
    ensures a == b
  {
  }

  /** The points of the addition pieces are those an addition decides. */
  lemma AddBoxesPoints(s: Strategy, list: seq<Op>, n: nat, x: Point)
    requires AllValid(list, n) && InPriority(s, list)
    ensures InSet(AddBoxes(list), x) <==> exists o :: Decides(s, Elements(list), o, x) && o.edit.kind.Add?
  {
    if InSet(AddBoxes(list), x) {
      var b :| b in AddBoxes(list) && Inside(b, x);
      var g :| g in SegmentSet(list) && g.winner.kind.Add? && g.piece.box == b;
      var o := SegmentDecides(s, list, g, n, x);
    }
    if exists o :: Decides(s, Elements(list), o, x) && o.edit.kind.Add? {
      var o :| Decides(s, Elements(list), o, x) && o.edit.kind.Add?;
      var j :| 0 <= j < |list| && list[j] == o;
      var g := SegmentsCover(list, n, x, j);
      var d := SegmentDecides(s, list, g, n, x);
      DeciderIsUnique(s, Elements(list), o, d, x);
      assert g.piece.box in AddBoxes(list);
    }
  }

  /** With additions only, a point is decided by one exactly when one covers it. */
  lemma AdditionsDecide(list: seq<Op>, n: nat, x: Point)
    requires AllValid(list, n) && InPriority(LWW, list) && forall k :: 0 <= k < |list| ==> list[k].edit.kind.Add?
    ensures InSet(AddBoxes(list), x) <==> Touched(Elements(list), x)
  {
    if InSet(AddBoxes(list), x) {
      AddBoxesPoints(LWW, list, n, x);
    }
    if Touched(Elements(list), x) {
      var o :| o in Elements(list) && Inside(o.edit.box, x);
      var j :| 0 <= j < |list| && list[j] == o;
      AdditionIsKept(list, n, x, j);
    }
  }

  lemma AdditionIsKept(list: seq<Op>, n: nat, x: Point, j: nat)
    requires AllValid(list, n) && InPriority(LWW, list) && forall k :: 0 <= k < |list| ==> list[k].edit.kind.Add?
    requires j < |list| && Inside(list[j].edit.box, x)
    ensures InSet(AddBoxes(list), x)
  {
    var g := SegmentsCover(list, n, x, j);
    var d := SegmentDecides(LWW, list, g, n, x);
    assert g.piece.box in AddBoxes(list);
  }

  /** The geometry each strategy computes from the effective operations, as a function of their set. */
  ghost predicate IsGeometry(s: Strategy, ops: set<Op>, g: seq<Box>, n: nat) {
    match s
    case LWW | FWW => exists list :: PriorityList(s, ops, list) && Sorted(g) && Elements(g) == AddBoxes(list)
    case AdditiveWins => IsDifference(Maxima(KindBoxes(ops, Add)), Maxima(KindBoxes(ops, Remove)), g, n)
    case GrowOnly => Sorted(g) && Elements(g) == Maxima(KindBoxes(ops, Add))
    case AdditiveWinsLWW =>
      exists list ::
        PriorityList(LWW, OfKind(ops, Add), list) && IsDifference(AddBoxes(list), Maxima(KindBoxes(ops, Remove)), g, n)
  }

  ghost predicate PriorityList(s: Strategy, ops: set<Op>, list: seq<Op>) {
    InPriority(s, list) && Elements(list) == ops
  }

  lemma PriorityIsUnique(s: Strategy, ops: set<Op>, list: seq<Op>, list': seq<Op>)
    requires PriorityList(s, ops, list) && PriorityList(s, ops, list')
    ensures list == list'
  {
    var less := (a: Op, b: Op) => Better(s, WinnerOf(a), WinnerOf(b));
    assert Increasing(less, list) && Increasing(less, list') && Asymmetric(less, list);
    IncreasingIsUnique(less, list, list');
  }

  /** The operations that compete for the metadata of a point, and how. */
  ghost predicate Paints(s: Strategy, ops: set<Op>, o: Op, x: Point) {
    if s.AdditiveWinsLWW? then Decides(LWW, OfKind(ops, Add), o, x) else Decides(s, ops, o, x)
  }

  /** Each point lies in at most one box, which carries the metadata of the addition that decides it. */
  ghost predicate CarriesMeta(s: Strategy, ops: set<Op>, out: seq<Painted<Meta>>) {
    && Apart(Geo(out))
    && forall t, x :: t in out && Inside(t.box, x) ==>
      exists o :: Paints(s, ops, o, x) && o.edit.kind.Add? && o.edit.meta == t.meta
  }

  lemma PiecesCarryMeta(s: Strategy, list: seq<Op>, out: seq<Painted<Meta>>, t: Painted<Meta>, n: nat, x: Point)
    requires AllValid(list, n) && InPriority(s, list) && Elements(out) == AddPieces(list) && t in out && Inside(t.box, x)
    ensures exists o :: Decides(s, Elements(list), o, x) && o.edit.kind.Add? && o.edit.meta == t.meta
  {
    assert t in Elements(out);
    var g := SourceOf(list, t);
    var o := SegmentDecides(s, list, g, n, x);
  }

  lemma CutPiecesCarryMeta(list: seq<Op>, adds: seq<Painted<Meta>>, out: seq<Painted<Meta>>, t: Painted<Meta>, n: nat, x: Point)
    requires AllValid(list, n) && InPriority(LWW, list) && Elements(adds) == AddPieces(list)
    requires KeepsMeta(adds, out) && t in out && Inside(t.box, x)
    ensures exists o :: Decides(LWW, Elements(list), o, x) && o.edit.kind.Add? && o.edit.meta == t.meta
  {
    var r :| r in adds && r.meta == t.meta && Sub(r.box, t.box);
    PiecesCarryMeta(LWW, list, adds, r, n, x);
  }

  method MaterializeWinners(s: Strategy, eff: seq<Op>, join: Join, ghost n: nat) returns (out: seq<Painted<Meta>>)
    requires s.LWW? || s.FWW?
    requires Distinct(eff) && Keyed(Elements(eff)) && ValidOps(Elements(eff), n)
    ensures Normalized(Geo(out), n) && IsGeometry(s, Elements(eff), Geo(out), n) && CarriesMeta(s, Elements(eff), out)
  {
    ghost var list;
    var segs;
    segs, list := Segments(s, eff, join, n);
    out := ToBoxes(segs, join, list, n);
    AddBoxesAreGeo(list, out);
    assert PriorityList(s, Elements(eff), list);
    forall t, x | t in out && Inside(t.box, x)
      ensures exists o :: Paints(s, Elements(eff), o, x) && o.edit.kind.Add? && o.edit.meta == t.meta
    {
      PiecesCarryMeta(s, list, out, t, n, x);
      var o :| Decides(s, Elements(list), o, x) && o.edit.kind.Add? && o.edit.meta == t.meta;
      assert Paints(s, Elements(eff), o, x);
    }
  }

  method MaterializePainted(eff: seq<Op>, join: Join, ghost n: nat) returns (out: seq<Painted<Meta>>)
    requires Distinct(eff) && Keyed(Elements(eff)) && ValidOps(Elements(eff), n)
    ensures Normalized(Geo(out), n) && IsGeometry(AdditiveWinsLWW, Elements(eff), Geo(out), n)
    ensures CarriesMeta(AdditiveWinsLWW, Elements(eff), out)
  {
    var addOps := OpsOf(eff, Add);
    ghost var list;
    var segs;
    segs, list := Segments(LWW, addOps, join, n);
    var adds := ToBoxes(segs, join, list, n);
    AddBoxesAreGeo(list, adds);
    var removes := BoxesOf(eff, Remove, join, n);
    out := Difference(adds, removes, join, n);
    SolidOfNormal(Geo(adds), n);
    SolidOfNormal(Geo(removes), n);
    assert PriorityList(LWW, OfKind(Elements(eff), Add), list);
    forall t, x | t in out && Inside(t.box, x)
      ensures exists o :: Paints(AdditiveWinsLWW, Elements(eff), o, x) && o.edit.kind.Add? && o.edit.meta == t.meta
    {
      CutPiecesCarryMeta(list, adds, out, t, n, x);
      var o :| Decides(LWW, Elements(list), o, x) && o.edit.kind.Add? && o.edit.meta == t.meta;
      assert Paints(AdditiveWinsLWW, Elements(eff), o, x);
    }
  }

  lemma SolidOfNormal(g: seq<Box>, n: nat)
    requires Normalized(g, n)
    ensures Solid(g) == Elements(g)
  {
    forall b | b in g
      ensures !Hollow(b)
    {
      var k :| 0 <= k < |g| && g[k] == b;
    }
  }

  /** Materialize, for all five strategies. */
  method Materialize(s: Strategy, ops: seq<Op>, join: Join, ghost n: nat) returns (out: seq<Painted<Meta>>)
    requires Distinct(ops) && Keyed(Elements(ops)) && ValidOps(Elements(ops), n)
    ensures Normalized(Geo(out), n) && IsGeometry(s, EffectiveSet(Elements(ops)), Geo(out), n)
    ensures s.LWW? || s.FWW? || s.AdditiveWinsLWW? ==> CarriesMeta(s, EffectiveSet(Elements(ops)), out)
  {
    var eff := Effective(ops);
    match s
    case LWW | FWW => out := MaterializeWinners(s, eff, join, n);
    case AdditiveWinsLWW => out := MaterializePainted(eff, join, n);
    case GrowOnly => out := BoxesOf(eff, Add, join, n);
    case AdditiveWins =>
      var adds := BoxesOf(eff, Add, join, n);
      var removes := BoxesOf(eff, Remove, join, n);
      out := Difference(adds, removes, join, n);
      SolidOfNormal(Geo(adds), n);
      SolidOfNormal(Geo(removes), n);
  }

  // ----- its meaning and convergence -----

  lemma AddBoxesProper(list: seq<Op>, n: nat)
    requires AllValid(list, n)
    ensures Proper(AddBoxes(list), n)
  {
    forall b | b in AddBoxes(list)
      ensures |b| == n && !Hollow(b)
    {
      var g :| g in SegmentSet(list) && g.winner.kind.Add? && g.piece.box == b;
      var k := SegmentFrom(list, g, n);
    }
  }

  lemma CutPoints(A: set<Box>, ops: set<Op>, g: seq<Box>, n: nat, x: Point)
    requires Proper(A, n) && ValidOps(ops, n) && IsDifference(A, Maxima(KindBoxes(ops, Remove)), g, n)
    ensures InsideSome(g, x) <==> InSet(A, x) && !Touched(OfKind(ops, Remove), x)
  {
    KindBoxesProper(ops, Remove, n);
    DifferenceIsExact(A, Maxima(KindBoxes(ops, Remove)), g, n, x);
    MaximaKeepPoints(KindBoxes(ops, Remove), x);
    KindBoxesPoints(ops, Remove, x);
  }

  /** The geometry of every strategy covers exactly the points its rule admits. */
  lemma GeometryFollowsRule(s: Strategy, ops: set<Op>, g: seq<Box>, n: nat, x: Point)
    requires ValidOps(ops, n) && IsGeometry(s, ops, g, n)
    ensures InsideSome(g, x) <==> Rule(s, ops, x)
  {
    KindBoxesProper(ops, Add, n);
    KindBoxesPoints(ops, Add, x);
    MaximaKeepPoints(KindBoxes(ops, Add), x);
    InsideSomeIsInSet(g, x);
    match s
    case LWW | FWW =>
      var list :| PriorityList(s, ops, list) && Sorted(g) && Elements(g) == AddBoxes(list);
      ListIsValid(list, ops, n);
      AddBoxesPoints(s, list, n, x);
    case GrowOnly =>
    case AdditiveWins => CutPoints(Maxima(KindBoxes(ops, Add)), ops, g, n, x);
    case AdditiveWinsLWW =>
      var list :| PriorityList(LWW, OfKind(ops, Add), list) && IsDifference(AddBoxes(list), Maxima(KindBoxes(ops, Remove)), g, n);
      PaintedPoints(ops, list, g, n, x);
  }

  /** Under LWW the last operation to cover a point decides whether it is in the result, and with what metadata. */
  lemma LastWriteWins(ops: set<Op>, out: seq<Painted<Meta>>, n: nat, x: Point)
    requires ValidOps(ops, n) && IsGeometry(LWW, ops, Geo(out), n) && CarriesMeta(LWW, ops, out)
    ensures InsideSome(Geo(out), x) <==> exists o :: Latest(ops, o, x) && o.edit.kind.Add?
    ensures forall o :: Latest(ops, o, x) ==> (InsideSome(Geo(out), x) <==> o.edit.kind.Add?)
    ensures forall o, t :: Latest(ops, o, x) && t in out && Inside(t.box, x) ==> t.meta == o.edit.meta
  {
    GeometryFollowsRule(LWW, ops, Geo(out), n, x);
    forall o { DecidesIff(ops, o, x); }
    forall o, t | Latest(ops, o, x) && t in out && Inside(t.box, x)
      ensures t.meta == o.edit.meta
    {
      var d :| Paints(LWW, ops, d, x) && d.edit.kind.Add? && d.edit.meta == t.meta;
      DeciderIsUnique(LWW, ops, o, d, x);
    }
  }

  /** Under FWW the first operation to cover a point does. */
  lemma FirstWriteWins(ops: set<Op>, out: seq<Painted<Meta>>, n: nat, x: Point)
    requires ValidOps(ops, n) && IsGeometry(FWW, ops, Geo(out), n) && CarriesMeta(FWW, ops, out)
    ensures InsideSome(Geo(out), x) <==> exists o :: Earliest(ops, o, x) && o.edit.kind.Add?
    ensures forall o :: Earliest(ops, o, x) ==> (InsideSome(Geo(out), x) <==> o.edit.kind.Add?)
    ensures forall o, t :: Earliest(ops, o, x) && t in out && Inside(t.box, x) ==> t.meta == o.edit.meta
  {
    GeometryFollowsRule(FWW, ops, Geo(out), n, x);
    forall o { DecidesIff(ops, o, x); }
    forall o, t | Earliest(ops, o, x) && t in out && Inside(t.box, x)
      ensures t.meta == o.edit.meta
    {
      var d :| Paints(FWW, ops, d, x) && d.edit.kind.Add? && d.edit.meta == t.meta;
      DeciderIsUnique(FWW, ops, o, d, x);
    }
  }

  /** Under AdditiveWinsLWW a removal takes a point away, and the last addition to cover it gives the metadata. */
  lemma LastAdditionPaints(ops: set<Op>, out: seq<Painted<Meta>>, n: nat, x: Point)
    requires ValidOps(ops, n) && IsGeometry(AdditiveWinsLWW, ops, Geo(out), n) && CarriesMeta(AdditiveWinsLWW, ops, out)
    ensures InsideSome(Geo(out), x) <==>
      (exists o :: o in ops && o.edit.kind.Add? && Inside(o.edit.box, x)) &&
      !exists o :: o in ops && o.edit.kind.Remove? && Inside(o.edit.box, x)
    ensures forall o, t :: Latest(OfKind(ops, Add), o, x) && t in out && Inside(t.box, x) ==> t.meta == o.edit.meta
  {
    GeometryFollowsRule(AdditiveWinsLWW, ops, Geo(out), n, x);
    assert forall o :: o in OfKind(ops, Add) <==> o in ops && o.edit.kind.Add?;
    assert forall o :: o in OfKind(ops, Remove) <==> o in ops && o.edit.kind.Remove?;
    forall o, t | Latest(OfKind(ops, Add), o, x) && t in out && Inside(t.box, x)
      ensures t.meta == o.edit.meta
    {
      var d :| Paints(AdditiveWinsLWW, ops, d, x) && d.edit.kind.Add? && d.edit.meta == t.meta;
      DecidesIff(OfKind(ops, Add), o, x);
      DeciderIsUnique(LWW, OfKind(ops, Add), o, d, x);
    }
  }

  lemma PaintedPoints(ops: set<Op>, list: seq<Op>, g: seq<Box>, n: nat, x: Point)
    requires ValidOps(ops, n) && PriorityList(LWW, OfKind(ops, Add), list)
    requires IsDifference(AddBoxes(list), Maxima(KindBoxes(ops, Remove)), g, n)
    ensures InsideSome(g, x) <==> Touched(OfKind(ops, Add), x) && !Touched(OfKind(ops, Remove), x)
  {
    ListIsValid(list, OfKind(ops, Add), n);
    forall k | 0 <= k < |list|
      ensures list[k].edit.kind.Add?
    {
      assert list[k] in Elements(list);
    }
    AddBoxesProper(list, n);
    CutPoints(AddBoxes(list), ops, g, n, x);
    AdditionsDecide(list, n, x);
  }

  /** The geometry depends on the set of operations alone, so any order of arrival gives the identical list. */
  lemma GeometryIsUnique(s: Strategy, ops: set<Op>, g: seq<Box>, g': seq<Box>, n: nat)
    requires IsGeometry(s, ops, g, n) && IsGeometry(s, ops, g', n)
    ensures g == g'
  {
    match s
    case LWW | FWW =>
      var list :| PriorityList(s, ops, list) && Sorted(g) && Elements(g) == AddBoxes(list);
      var list' :| PriorityList(s, ops, list') && Sorted(g') && Elements(g') == AddBoxes(list');
      PriorityIsUnique(s, ops, list, list');
      SortedIsUnique(g, g');
    case GrowOnly => SortedIsUnique(g, g');
    case AdditiveWins => DifferenceIsUnique(Maxima(KindBoxes(ops, Add)), Maxima(KindBoxes(ops, Remove)), g, g', n);
    case AdditiveWinsLWW =>
      var list :| PriorityList(LWW, OfKind(ops, Add), list) && IsDifference(AddBoxes(list), Maxima(KindBoxes(ops, Remove)), g, n);
      var list' :|
        PriorityList(LWW, OfKind(ops, Add), list') && IsDifference(AddBoxes(list'), Maxima(KindBoxes(ops, Remove)), g', n);
      PriorityIsUnique(LWW, OfKind(ops, Add), list, list');
      DifferenceIsUnique(AddBoxes(list), Maxima(KindBoxes(ops, Remove)), g, g', n);
  }
}
