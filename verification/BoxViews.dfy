/** space/engine/engine.go: what the cached view of boxes covers, and when patching it is right. */
module BoxViews {
  import opened Sequences
  import opened Boxes
  import opened BoxSubtraction
  import opened Covers
  import opened BoxSets
  import opened BoxDifference
  import opened Entries
  import opened BoxStrategies
  import opened MergeAdjacent

  type View = seq<Painted<Meta>>

  /** A canonicalizer that changes no covered point. */
  type Canonicalizer = View -> View

  ghost predicate Preserving(c: Canonicalizer, n: nat) {
    forall bs :: Preserves(c, n, bs)
  }

  ghost predicate Preserves(c: Canonicalizer, n: nat, bs: View) {
    OfDims(Geo(bs), n) ==> OfDims(Geo(c(bs)), n) && SamePoints(bs, c(bs))
  }

  ghost predicate SamePoints(a: View, b: View) {
    forall x :: InsideSome(Geo(a), x) <==> InsideSome(Geo(b), x)
  }

  /** A function that computes what MergeAdjacent computes is such a canonicalizer. */
  lemma MergeAdjacentIsPreserving(c: Canonicalizer, n: nat)
    requires forall bs :: OfDims(Geo(bs), n) ==> IsMergeOf(Geo(bs), Geo(c(bs)))
    ensures Preserving(c, n)
  {
    forall bs
      ensures Preserves(c, n, bs)
    {
      if OfDims(Geo(bs), n) { IsCoverPreserving(Geo(bs), Geo(c(bs)), n); }
    }
  }

  // ----- what the fields of an engine cover -----

  ghost predicate CoversRule(bs: View, s: Strategy, effective: set<Op>) {
    forall x :: InsideSome(Geo(bs), x) <==> Rule(s, effective, x)
  }

  ghost predicate CoversKind(bs: View, effective: set<Op>, kind: Kind) {
    forall x :: InsideSome(Geo(bs), x) <==> Touched(OfKind(effective, kind), x)
  }

  /** The cached view, and the covers it is patched from, are those of the effective operations. */
  ghost predicate IsView(s: Strategy, effective: set<Op>, view: View, adds: View, removes: View) {
    && CoversRule(view, s, effective)
    && (Patched(s) ==> CoversKind(adds, effective, Add))
    && (s.AdditiveWins? ==> CoversKind(removes, effective, Remove))
  }

  /** The strategies whose view is patched operation by operation. */
  predicate Patched(s: Strategy) {
    s.AdditiveWins? || s.GrowOnly?
  }

  lemma NormalizedPoints(bs: seq<Box>, out: seq<Box>, x: Point)
    requires Elements(out) == Maxima(Solid(bs))
    ensures InsideSome(out, x) <==> InsideSome(bs, x)
  {
    InsideSomeIsInSet(out, x);
    MaximaKeepPoints(Solid(bs), x);
    SolidKeepsPoints(bs, x);
  }

  lemma CutIsRule(view: View, adds: View, removes: View, effective: set<Op>, n: nat)
    requires OfDims(Geo(adds), n) && OfDims(Geo(removes), n)
    requires CoversKind(adds, effective, Add) && CoversKind(removes, effective, Remove)
    requires IsDifference(Solid(Geo(adds)), Solid(Geo(removes)), Geo(view), n)
    ensures CoversRule(view, AdditiveWins, effective)
  {
    forall x
      ensures InsideSome(Geo(view), x) <==> Rule(AdditiveWins, effective, x)
    {
      SolidIsProper(Geo(adds), n);
      SolidIsProper(Geo(removes), n);
      DifferenceIsExact(Solid(Geo(adds)), Solid(Geo(removes)), Geo(view), n, x);
      SolidKeepsPoints(Geo(adds), x);
      SolidKeepsPoints(Geo(removes), x);
    }
  }

  lemma SamePointsKeepRule(a: View, b: View, s: Strategy, effective: set<Op>)
    requires SamePoints(a, b) && CoversRule(a, s, effective)
    ensures CoversRule(b, s, effective)
  {
  }

  /** UnionMerged with a single box. */
  method UnionWith(a: View, o: Op, join: Join, ghost n: nat, ghost effective: set<Op>) returns (out: View)
    requires OfDims(Geo(a), n) && |o.edit.box| == n
    ensures OfDims(Geo(out), n)
    ensures CoversKind(a, effective, o.edit.kind) ==> CoversKind(out, effective + {o}, o.edit.kind)
  {
    var one := Painted(o.edit.box, o.edit.meta);
    GeoAppend(a, one);
    assert OfDims(Geo(a + [one]), n);
    out := Normalize(a + [one], join, n);
    if CoversKind(a, effective, o.edit.kind) {
      UnionCovers(a, one, out, effective, o);
    }
  }

  lemma UnionCovers(a: View, one: Painted<Meta>, out: View, effective: set<Op>, o: Op)
    requires one.box == o.edit.box && Elements(Geo(out)) == Maxima(Solid(Geo(a + [one])))
    requires CoversKind(a, effective, o.edit.kind)
    ensures CoversKind(out, effective + {o}, o.edit.kind)
  {
    forall x
      ensures InsideSome(Geo(out), x) <==> Touched(OfKind(effective + {o}, o.edit.kind), x)
    {
      NormalizedPoints(Geo(a + [one]), Geo(out), x);
      GeoAppend(a, one);
      InsideConcat(Geo(a), [o.edit.box], x);
      assert InsideSome([o.edit.box], x) <==> Inside(o.edit.box, x) by {
        if Inside(o.edit.box, x) { assert Inside([o.edit.box][0], x); }
      }
      TouchedGrows(effective, o, o.edit.kind, x);
    }
  }

  lemma TouchedGrows(E: set<Op>, o: Op, kind: Kind, x: Point)
    ensures Touched(OfKind(E + {o}, kind), x) <==> Touched(OfKind(E, kind), x) || (o.edit.kind == kind && Inside(o.edit.box, x))
  {
    if Touched(OfKind(E, kind), x) {
      var q :| q in OfKind(E, kind) && Inside(q.edit.box, x);
      assert q in OfKind(E + {o}, kind);
    }
    if o.edit.kind == kind && Inside(o.edit.box, x) {
      assert o in OfKind(E + {o}, kind);
    }
  }

  lemma OtherKindCovers(a: View, E: set<Op>, o: Op, kind: Kind)
    requires CoversKind(a, E, kind) && o.edit.kind != kind
    ensures CoversKind(a, E + {o}, kind)
  {
    assert OfKind(E + {o}, kind) == OfKind(E, kind);
  }

  // ----- when patching is right -----

  /** Patching adds the operation to the effective ones; what it should do depends on retractions seen before. */
  lemma EffectiveGrows(S: set<Op>, o: Op)
    requires !o.edit.kind.Retract?
    ensures EffectiveSet(S + {o}) == EffectiveSet(S) + (if IsRetracted(S, o.id) then {} else {o})
  {
    forall id
      ensures IsRetracted(S + {o}, id) <==> IsRetracted(S, id)
    {
      if IsRetracted(S, id) {
        var r :| r in S && r.edit.kind.Retract? && r.edit.ref == id;
        assert r in S + {o};
      }
    }
  }

  /** The operation would change no point of the view. */
  ghost predicate Idle(s: Strategy, effective: set<Op>, o: Op) {
    forall x :: Inside(o.edit.box, x) ==>
      if o.edit.kind.Add? then Touched(OfKind(effective, Add), x) || (s.AdditiveWins? && Touched(OfKind(effective, Remove), x))
      else s.GrowOnly? || !Rule(s, effective, x)
  }

  /**
   * Patching the view with an operation is right exactly when no known retraction names it, or when
   * it changes no point anyway.
   */
  lemma PatchIsRightIff(s: Strategy, S: set<Op>, o: Op)
    requires Patched(s) && !o.edit.kind.Retract?
    ensures (forall x :: Rule(s, EffectiveSet(S) + {o}, x) <==> Rule(s, EffectiveSet(S + {o}), x))
      <==> (!IsRetracted(S, o.id) || Idle(s, EffectiveSet(S), o))
  {
    EffectiveGrows(S, o);
    var E := EffectiveSet(S);
    if IsRetracted(S, o.id) {
      assert EffectiveSet(S + {o}) == E;
      forall x
        ensures (Rule(s, E + {o}, x) <==> Rule(s, E, x)) <==> (Inside(o.edit.box, x) ==>
          if o.edit.kind.Add? then Touched(OfKind(E, Add), x) || (s.AdditiveWins? && Touched(OfKind(E, Remove), x))
          else s.GrowOnly? || !Rule(s, E, x))
      {
        TouchedGrows(E, o, Add, x);
        TouchedGrows(E, o, Remove, x);
      }
    }
  }

  /** An addition folded after the retraction that names it is put back on every one of its points. */
  lemma RetractedAdditionIsPutBack(s: Strategy, box: Box, x: Point)
    requires Patched(s) && Inside(box, x)
    ensures var r := Entry(2, 2, Edit(Retract, box, 1, ""));
      var o := Entry(1, 1, Edit(Add, box, 0, ""));
      IsRetracted({r}, o.id) && Rule(s, EffectiveSet({r}) + {o}, x) && !Rule(s, EffectiveSet({r} + {o}), x)
  {
    var r := Entry(2, 2, Edit(Retract, box, 1, ""));
    var o := Entry(1, 1, Edit(Add, box, 0, ""));
    assert r in {r};
    EffectiveGrows({r}, o);
    assert EffectiveSet({r}) == {};
    TouchedGrows({}, o, Add, x);
    TouchedGrows({}, o, Remove, x);
  }
}
