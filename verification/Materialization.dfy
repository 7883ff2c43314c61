/** strategy/strategy.go: Materialize and its convergence. */
module Materialization {
  import opened Line
  import opened Intervals
  import opened Runs
  import opened Sequences
  import opened Sweeping
  import opened IntervalSets
  import opened Entries
  import opened Strategies

  /** The rule for a list that may hold ties: among equal (timestamp, id) the earlier entry decides. */
  ghost predicate ListRule(s: Strategy, ops: seq<Op>, p: Fine) {
    match s
    case LWW | FWW => exists i: nat :: i < |ops| && Best(s, SegmentsOfOps(ops), i, p) && ops[i].edit.kind.Add?
    case AdditiveWins => Covered(Elements(ops), Add, p) && !Covered(Elements(ops), Remove, p)
    case GrowOnly => Covered(Elements(ops), Add, p)
  }

  ghost predicate AddDecided(segs: seq<Segment>, p: Fine) {
    exists k :: 0 <= k < |segs| && segs[k].winner.kind.Add? && Holds(segs[k].interval, p)
  }

  /** The intervals of the add-decided segments, in order. */
  function AddSpans(segs: seq<Segment>): seq<Interval> {
    if segs == [] then []
    else
      var rest, last := AddSpans(segs[..|segs| - 1]), segs[|segs| - 1];
      if last.winner.kind.Add? then rest + [last.interval] else rest
  }

  lemma {:induction false} AddSpansAreAddDecided(segs: seq<Segment>, p: Fine)
    ensures Within(AddSpans(segs), p) <==> AddDecided(segs, p)
  {
    if segs != [] {
      var n := |segs| - 1;
      AddSpansAreAddDecided(segs[..n], p);
      AddDecidedPrefix(segs, n, p);
      assert segs[..n + 1] == segs;
      WithinAppend(AddSpans(segs[..n]), segs[n].interval, p);
    }
  }

  method ToIntervals(segs: seq<Segment>) returns (out: seq<Interval>)
    ensures IsCanonical(out)
    ensures forall p :: Within(out, p) <==> AddDecided(segs, p)
  {
    var ivs: seq<Interval> := [];
    for k := 0 to |segs|
      invariant ivs == AddSpans(segs[..k])
    {
      assert segs[..k + 1][..k] == segs[..k];
      if segs[k].winner.kind == Add {
        ivs := ivs + [segs[k].interval];
      }
    }
    assert segs[..|segs|] == segs;
    forall p { AddSpansAreAddDecided(segs, p); }
    out := Normalize(ivs);
  }

  lemma AddDecidedPrefix(segs: seq<Segment>, i: nat, p: Fine)
    requires i < |segs|
    ensures AddDecided(segs[..i + 1], p)
       <==> AddDecided(segs[..i], p) || (segs[i].winner.kind.Add? && Holds(segs[i].interval, p))
  {
    if AddDecided(segs[..i], p) {
      var k :| 0 <= k < i && segs[..i][k].winner.kind.Add? && Holds(segs[..i][k].interval, p);
      assert Holds(segs[..i + 1][k].interval, p);
    }
    if segs[i].winner.kind.Add? && Holds(segs[i].interval, p) {
      assert Holds(segs[..i + 1][i].interval, p);
    }
    if AddDecided(segs[..i + 1], p) {
      var k :| 0 <= k < i + 1 && segs[..i + 1][k].winner.kind.Add? && Holds(segs[..i + 1][k].interval, p);
      if k < i { assert Holds(segs[..i][k].interval, p); }
    }
  }

  lemma CoveredPrefix(ops: seq<Op>, kind: Kind, i: nat, p: Fine)
    requires i < |ops|
    ensures Covered(Elements(ops[..i + 1]), kind, p)
       <==> Covered(Elements(ops[..i]), kind, p) || (ops[i].edit.kind == kind && Holds(ops[i].edit.interval, p))
  {
    assert ops[..i + 1] == ops[..i] + [ops[i]];
  }

  method IntervalsOf(ops: seq<Op>, kind: Kind) returns (out: seq<Interval>)
    ensures IsCanonical(out)
    ensures forall p :: Within(out, p) <==> Covered(Elements(ops), kind, p)
  {
    var ivs: seq<Interval> := [];
    for k := 0 to |ops|
      invariant forall p :: Within(ivs, p) <==> Covered(Elements(ops[..k]), kind, p)
    {
      forall p { CoveredPrefix(ops, kind, k, p); }
      if ops[k].edit.kind == kind {
        forall p { WithinAppend(ivs, ops[k].edit.interval, p); }
        ivs := ivs + [ops[k].edit.interval];
      }
    }
    assert ops[..|ops|] == ops;
    out := Normalize(ivs);
  }

  lemma AddDecidedFollowsRule(s: Strategy, ops: seq<Op>, covers: seq<Cover>, segs: seq<Segment>, p: Fine)
    requires s.LWW? || s.FWW?
    requires IsResolved(s, SegmentsOfOps(ops), covers, segs) && AddDecided(segs, p)
    ensures ListRule(s, ops, p)
  {
    var k :| 0 <= k < |segs| && segs[k].winner.kind.Add? && Holds(segs[k].interval, p);
    assert On(RunsOf(covers)[k], p);
    assert covers[k] in covers;
    assert Best(s, SegmentsOfOps(ops), covers[k].index, p);
  }

  lemma RuleIsAddDecided(s: Strategy, ops: seq<Op>, covers: seq<Cover>, segs: seq<Segment>, p: Fine)
    requires s.LWW? || s.FWW?
    requires IsResolved(s, SegmentsOfOps(ops), covers, segs) && ListRule(s, ops, p)
    ensures AddDecided(segs, p)
  {
    var input, rs := SegmentsOfOps(ops), RunsOf(covers);
    var i: nat :| i < |ops| && Best(s, input, i, p) && ops[i].edit.kind.Add?;
    assert OnSome(rs, p);
    var k :| 0 <= k < |rs| && On(rs[k], p);
    WinnerRankRanks(s, input);
    BestIsUnique(SpansOf(input), WinnerRank(s, input), i, covers[k].index, p);
    assert segs[k].interval == covers[k].interval;
  }

  /** Add-decided segments of a resolution are the points whose best operation is an addition. */
  lemma ResolvedRule(s: Strategy, ops: seq<Op>, segs: seq<Segment>, p: Fine)
    requires s.LWW? || s.FWW?
    requires Resolves(s, SegmentsOfOps(ops), segs)
    ensures AddDecided(segs, p) <==> ListRule(s, ops, p)
  {
    var covers: seq<Cover> :| IsResolved(s, SegmentsOfOps(ops), covers, segs);
    if AddDecided(segs, p) { AddDecidedFollowsRule(s, ops, covers, segs, p); }
    if ListRule(s, ops, p) { RuleIsAddDecided(s, ops, covers, segs, p); }
  }

  lemma BestIsUnique(ivs: seq<Interval>, better: Rank, i: nat, j: nat, p: Fine)
    requires Ranks(better, |ivs|) && IsBest(ivs, better, i, p) && IsBest(ivs, better, j, p)
    ensures i == j
  {
  }

  /** A canonical interval list whose points are those the strategy's rule admits. */
  ghost predicate IsMaterialization(s: Strategy, ops: seq<Op>, out: seq<Interval>) {
    IsCanonical(out) && forall p :: Within(out, p) <==> ListRule(s, ops, p)
  }

  method Materialize(s: Strategy, ops: seq<Op>) returns (out: seq<Interval>)
    ensures IsMaterialization(s, ops, out)
  {
    match s
    case LWW | FWW =>
      var segs := Segments(s, ops);
      forall p { ResolvedRule(s, ops, segs, p); }
      out := ToIntervals(segs);
    case AdditiveWins =>
      var adds := IntervalsOf(ops, Add);
      var removes := IntervalsOf(ops, Remove);
      out := Difference(adds, removes);
    case GrowOnly =>
      out := IntervalsOf(ops, Add);
  }

  /** When (timestamp, id) identifies an operation the rule depends on the set of operations only. */
  lemma ListRuleIsRule(s: Strategy, ops: seq<Op>, p: Fine)
    requires Keyed(Elements(ops))
    ensures ListRule(s, ops, p) <==> Rule(s, Elements(ops), p)
  {
    if s.LWW? || s.FWW? {
      var segs, all := SegmentsOfOps(ops), Elements(ops);
      OpsSpeak(s, ops);
      if ListRule(s, ops, p) {
        var i: nat :| i < |ops| && Best(s, segs, i, p) && ops[i].edit.kind.Add?;
        BestDecides(s, all, segs, i, p);
      }
      if Rule(s, all, p) {
        var o :| Decides(s, all, o, p) && o.edit.kind.Add?;
        var i := FirstOccurrence(ops, o);
        FirstIsBest(s, ops, i, p);
      }
    }
  }

  /** Under LWW a point is in the result exactly when the last operation to cover it is an addition. */
  lemma LastWriteWins(ops: seq<Op>, out: seq<Interval>, p: Fine)
    requires Keyed(Elements(ops)) && IsMaterialization(LWW, ops, out)
    ensures Within(out, p) <==> exists o :: Latest(Elements(ops), o, p) && o.edit.kind.Add?
    ensures forall o :: Latest(Elements(ops), o, p) ==> (Within(out, p) <==> o.edit.kind.Add?)
  {
    ListRuleIsRule(LWW, ops, p);
    forall o { DecidesIff(Elements(ops), o, p); }
  }

  /** Under FWW a point is in the result exactly when the first operation to cover it is an addition. */
  lemma FirstWriteWins(ops: seq<Op>, out: seq<Interval>, p: Fine)
    requires Keyed(Elements(ops)) && IsMaterialization(FWW, ops, out)
    ensures Within(out, p) <==> exists o :: Earliest(Elements(ops), o, p) && o.edit.kind.Add?
    ensures forall o :: Earliest(Elements(ops), o, p) ==> (Within(out, p) <==> o.edit.kind.Add?)
  {
    ListRuleIsRule(FWW, ops, p);
    forall o { DecidesIff(Elements(ops), o, p); }
  }

  lemma FirstOccurrence(ops: seq<Op>, o: Op) returns (i: nat)
    requires o in ops
    ensures i < |ops| && ops[i] == o && forall j :: 0 <= j < i ==> ops[j] != o
  {
    if ops[0] == o {
      i := 0;
    } else {
      i := FirstOccurrence(ops[1..], o);
      i := i + 1;
    }
  }

  lemma FirstIsBest(s: Strategy, ops: seq<Op>, i: nat, p: Fine)
    requires i < |ops| && Decides(s, Elements(ops), ops[i], p)
    requires forall j :: 0 <= j < i ==> ops[j] != ops[i]
    ensures Best(s, SegmentsOfOps(ops), i, p)
  {
    var segs := SegmentsOfOps(ops);
    forall j | 0 <= j < |segs| && j != i && Holds(SpansOf(segs)[j], p)
      ensures Outranks(WinnerRank(s, segs), i, j)
    {
      assert ops[j] in Elements(ops);
    }
  }

  /**
   * Convergence: lists holding the same operations, in any order and multiplicity, materialize to
   * the identical list.
   */
  lemma Converges(s: Strategy, ops: seq<Op>, ops': seq<Op>, out: seq<Interval>, out': seq<Interval>)
    requires Keyed(Elements(ops)) && Elements(ops) == Elements(ops')
    requires IsMaterialization(s, ops, out) && IsMaterialization(s, ops', out')
    ensures out == out'
  {
    forall x
      ensures Covers(out, x) <==> Covers(out', x)
    {
      ListRuleIsRule(s, ops, At(x));
      ListRuleIsRule(s, ops', At(x));
      WithinIsCovers(out, x);
      WithinIsCovers(out', x);
    }
    CanonicalSetsAreEqual(out, out');
  }
}
