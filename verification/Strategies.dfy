/** strategy/strategy.go: conflict-resolution strategies over one-dimensional operations. */
module Strategies {
  import opened Line
  import opened Runs
  import opened Sequences
  import opened Entries
  import opened Sweeping
  import opened IntervalSets

  datatype Strategy = LWW | FWW | AdditiveWins | GrowOnly

  datatype Kind = Add | Remove

  /** What a range operation does. */
  datatype Edit = Edit(kind: Kind, interval: Interval)

  type Op = Entry<Edit>

  datatype Winner = Winner(ts: int, id: int, kind: Kind)

  datatype Segment = Segment(interval: Interval, winner: Winner)

  function WinnerOf(o: Op): Winner {
    Winner(o.ts, o.id, o.edit.kind)
  }

  predicate Better(s: Strategy, a: Winner, b: Winner) {
    if s.FWW? then
      if a.ts != b.ts then a.ts < b.ts else a.id < b.id
    else
      if a.ts != b.ts then a.ts > b.ts else a.id > b.id
  }

  // ----- the pointwise meaning of a set of operations -----

  /** `o` is the best operation covering the fine point. */
  ghost predicate Decides(s: Strategy, ops: set<Op>, o: Op, p: Fine) {
    && o in ops && Holds(o.edit.interval, p)
    && forall q :: q in ops && q != o && Holds(q.edit.interval, p) ==> Better(s, WinnerOf(o), WinnerOf(q))
  }

  ghost predicate DecidedBy(s: Strategy, ops: set<Op>, w: Winner, p: Fine) {
    exists o :: Decides(s, ops, o, p) && WinnerOf(o) == w
  }

  ghost predicate Covered(ops: set<Op>, kind: Kind, p: Fine) {
    exists o :: o in ops && o.edit.kind == kind && Holds(o.edit.interval, p)
  }

  /** The rule of each strategy: which points the operations put into the set. */
  ghost predicate Rule(s: Strategy, ops: set<Op>, p: Fine) {
    match s
    case LWW | FWW => exists o :: Decides(s, ops, o, p) && o.edit.kind.Add?
    case AdditiveWins => Covered(ops, Add, p) && !Covered(ops, Remove, p)
    case GrowOnly => Covered(ops, Add, p)
  }

  /** The operation covers the point, and every other one that does has a smaller timestamp, or the same and a smaller id. */
  ghost predicate Latest(ops: set<Op>, o: Op, p: Fine) {
    && o in ops && Holds(o.edit.interval, p)
    && forall q :: q in ops && q != o && Holds(q.edit.interval, p) ==> q.ts < o.ts || (q.ts == o.ts && q.id < o.id)
  }

  /** The operation covers the point, and every other one that does has a greater timestamp, or the same and a greater id. */
  ghost predicate Earliest(ops: set<Op>, o: Op, p: Fine) {
    && o in ops && Holds(o.edit.interval, p)
    && forall q :: q in ops && q != o && Holds(q.edit.interval, p) ==> q.ts > o.ts || (q.ts == o.ts && q.id > o.id)
  }

  /** The last write decides under LWW, the first under FWW. */
  lemma DecidesIff(ops: set<Op>, o: Op, p: Fine)
    ensures Decides(LWW, ops, o, p) <==> Latest(ops, o, p)
    ensures Decides(FWW, ops, o, p) <==> Earliest(ops, o, p)
  {
  }

  /** Canonical winner-annotated segments: every point is labelled with the operation that decides it. */
  ghost predicate IsSegmentation(s: Strategy, ops: set<Op>, segs: seq<Segment>) {
    && Canonical(WinnerRuns(segs))
    && (forall k, p :: 0 <= k < |segs| && Holds(segs[k].interval, p) ==> DecidedBy(s, ops, segs[k].winner, p))
    && (forall o, p :: o in ops && Holds(o.edit.interval, p) ==> OnSome(WinnerRuns(segs), p))
  }

  function WinnerRuns(segs: seq<Segment>): (rs: seq<Run<Winner>>) {
    seq(|segs|, k requires 0 <= k < |segs| =>
      Run(Lo(segs[k].interval), Hi(segs[k].interval), segs[k].winner))
  }

  lemma DeciderIsUnique(s: Strategy, ops: set<Op>, a: Op, b: Op, p: Fine)
    requires Decides(s, ops, a, p) && Decides(s, ops, b, p)
    ensures a == b
  {
  }

  /** A segment is labelled with the timestamp, id and kind of the operation that writes its points last, or first. */
  lemma SegmentNames(ops: set<Op>, last: seq<Segment>, first: seq<Segment>, o: Op, p: Fine)
    requires IsSegmentation(LWW, ops, last) && IsSegmentation(FWW, ops, first)
    ensures Latest(ops, o, p) ==> forall g :: g in last && Holds(g.interval, p) ==>
      g.winner.ts == o.ts && g.winner.id == o.id && g.winner.kind == o.edit.kind
    ensures Earliest(ops, o, p) ==> forall g :: g in first && Holds(g.interval, p) ==>
      g.winner.ts == o.ts && g.winner.id == o.id && g.winner.kind == o.edit.kind
  {
    DecidesIff(ops, o, p);
    if Latest(ops, o, p) {
      forall g | g in last && Holds(g.interval, p)
        ensures g.winner == WinnerOf(o)
      {
        var d :| Decides(LWW, ops, d, p) && WinnerOf(d) == g.winner;
        DeciderIsUnique(LWW, ops, o, d, p);
      }
    }
    if Earliest(ops, o, p) {
      forall g | g in first && Holds(g.interval, p)
        ensures g.winner == WinnerOf(o)
      {
        var d :| Decides(FWW, ops, d, p) && WinnerOf(d) == g.winner;
        DeciderIsUnique(FWW, ops, o, d, p);
      }
    }
  }

  /** In a keyed set every covered point has a decider. */
  lemma {:induction false} DeciderExists(s: Strategy, ops: set<Op>, o: Op, p: Fine) returns (d: Op)
    requires Keyed(ops) && o in ops && Holds(o.edit.interval, p)
    ensures Decides(s, ops, d, p)
    decreases ops
  {
    if forall q :: q in ops && q != o ==> !Holds(q.edit.interval, p) {
      d := o;
    } else {
      var q :| q in ops && q != o && Holds(q.edit.interval, p);
      var smaller := ops - {o};
      d := DeciderExists(s, smaller, q, p);
      assert ops == smaller + {o};
      if Better(s, WinnerOf(o), WinnerOf(d)) {
        d := o;
      }
    }
  }

  // ----- sweeping segments -----

  function SpansOf(segs: seq<Segment>): (ivs: seq<Interval>)
    ensures |ivs| == |segs|
  {
    seq(|segs|, k requires 0 <= k < |segs| => segs[k].interval)
  }

  function WinnerRank(s: Strategy, segs: seq<Segment>): Rank {
    (i: nat, j: nat) => i < |segs| && j < |segs| && Better(s, segs[i].winner, segs[j].winner)
  }

  lemma WinnerRankRanks(s: Strategy, segs: seq<Segment>)
    ensures Ranks(WinnerRank(s, segs), |segs|)
  {
  }

  function Relabel(segs: seq<Segment>, covers: seq<Cover>): (out: seq<Segment>)
    requires forall c :: c in covers ==> c.index < |segs|
  {
    seq(|covers|, k requires 0 <= k < |covers| => Segment(covers[k].interval, segs[covers[k].index].winner))
  }

  /** `out` is what sweeping the segments by winner yields. */
  ghost predicate IsResolved(s: Strategy, segs: seq<Segment>, covers: seq<Cover>, out: seq<Segment>) {
    && IsSweep(SpansOf(segs), WinnerRank(s, segs), RunsOf(covers))
    && (forall c :: c in covers ==> c.index < |segs|)
    && out == Relabel(segs, covers)
  }

  ghost predicate Resolves(s: Strategy, segs: seq<Segment>, out: seq<Segment>) {
    exists covers :: IsResolved(s, segs, covers, out)
  }

  method NormalizeSegments(s: Strategy, segs: seq<Segment>) returns (out: seq<Segment>)
    ensures Resolves(s, segs, out)
  {
    var covers: seq<Cover> := [];
    if |segs| == 0 {
      out := [];
    } else {
      WinnerRankRanks(s, segs);
      covers := Sweep(SpansOf(segs), WinnerRank(s, segs));
      forall c | c in covers
        ensures c.index < |segs|
      {
        var k :| 0 <= k < |covers| && covers[k] == c;
        PieceInsideOwner(SpansOf(segs), WinnerRank(s, segs), covers, k);
      }
      out := [];
      for k := 0 to |covers|
        invariant out == Relabel(segs, covers[..k])
      {
        out := out + [Segment(covers[k].interval, segs[covers[k].index].winner)];
      }
      assert covers[..|covers|] == covers;
    }
    assert IsResolved(s, segs, covers, out);
  }

  // ----- when a resolution is the segmentation of a set of operations -----

  /** The input segments say, point by point, what some operations of `ops` say, and miss no decider. */
  ghost predicate Speaks(s: Strategy, ops: set<Op>, segs: seq<Segment>) {
    && (forall i, p :: 0 <= i < |segs| && Holds(segs[i].interval, p) ==> Claims(ops, segs[i].winner, p))
    && (forall o, p :: Decides(s, ops, o, p) ==> OnWinner(segs, WinnerOf(o), p))
  }

  ghost predicate Claims(ops: set<Op>, w: Winner, p: Fine) {
    exists o :: o in ops && WinnerOf(o) == w && Holds(o.edit.interval, p)
  }

  ghost predicate OnWinner(segs: seq<Segment>, w: Winner, p: Fine) {
    exists i :: 0 <= i < |segs| && Holds(segs[i].interval, p) && segs[i].winner == w
  }

  ghost predicate Best(s: Strategy, segs: seq<Segment>, i: nat, p: Fine) {
    IsBest(SpansOf(segs), WinnerRank(s, segs), i, p)
  }

  /** Two segments of one winner are never best on neighbouring stretches. */
  ghost predicate NeverSplits(s: Strategy, segs: seq<Segment>) {
    forall i: nat, j: nat, lo, h |
      i < |segs| && j < |segs| && i != j && segs[i].winner == segs[j].winner && Lt(lo, h) && Best(s, segs, j, h) ::
      !BestOver(s, segs, i, lo, h)
  }

  ghost predicate BestOver(s: Strategy, segs: seq<Segment>, i: nat, lo: Fine, hi: Fine) {
    forall p :: Le(lo, p) && Lt(p, hi) ==> Best(s, segs, i, p)
  }

  /** The best segment at a point carries the winner that decides the point. */
  lemma BestDecides(s: Strategy, ops: set<Op>, segs: seq<Segment>, i: nat, p: Fine)
    requires Keyed(ops) && Speaks(s, ops, segs) && Best(s, segs, i, p)
    ensures DecidedBy(s, ops, segs[i].winner, p)
  {
    var o :| o in ops && WinnerOf(o) == segs[i].winner && Holds(o.edit.interval, p);
    var d := DeciderExists(s, ops, o, p);
    var k :| 0 <= k < |segs| && Holds(segs[k].interval, p) && segs[k].winner == WinnerOf(d);
    assert SpansOf(segs)[k] == segs[k].interval;
    assert k == i || Outranks(WinnerRank(s, segs), i, k);
    assert o == d;
  }

  lemma ResolutionIsSegmentation(s: Strategy, ops: set<Op>, segs: seq<Segment>, covers: seq<Cover>, out: seq<Segment>)
    requires Keyed(ops) && Speaks(s, ops, segs) && NeverSplits(s, segs) && IsResolved(s, segs, covers, out)
    ensures IsSegmentation(s, ops, out)
  {
    var rs := RunsOf(covers);
    assert forall k :: 0 <= k < |out| ==> rs[k].lo == Lo(out[k].interval) && rs[k].hi == Hi(out[k].interval);
    forall k, p | 0 <= k < |out| && Holds(out[k].interval, p)
      ensures DecidedBy(s, ops, out[k].winner, p)
    {
      assert On(rs[k], p);
      BestDecides(s, ops, segs, covers[k].index, p);
    }
    forall o, p | o in ops && Holds(o.edit.interval, p)
      ensures OnSome(WinnerRuns(out), p)
    {
      ResolvedWhereCovered(s, ops, segs, covers, out, o, p);
    }
    ResolutionIsCanonical(s, segs, covers, out);
  }

  lemma ResolvedWhereCovered(s: Strategy, ops: set<Op>, segs: seq<Segment>, covers: seq<Cover>, out: seq<Segment>, o: Op, p: Fine)
    requires Keyed(ops) && Speaks(s, ops, segs) && IsResolved(s, segs, covers, out)
    requires o in ops && Holds(o.edit.interval, p)
    ensures OnSome(WinnerRuns(out), p)
  {
    var d := DeciderExists(s, ops, o, p);
    var i :| 0 <= i < |segs| && Holds(segs[i].interval, p) && segs[i].winner == WinnerOf(d);
    assert SpansOf(segs)[i] == segs[i].interval;
    assert OnSome(RunsOf(covers), p);
    var k :| 0 <= k < |covers| && On(RunsOf(covers)[k], p);
    assert On(WinnerRuns(out)[k], p);
  }

  lemma ResolutionIsCanonical(s: Strategy, segs: seq<Segment>, covers: seq<Cover>, out: seq<Segment>)
    requires NeverSplits(s, segs) && IsResolved(s, segs, covers, out)
    ensures Canonical(WinnerRuns(out))
  {
    var rs, ws := RunsOf(covers), WinnerRuns(out);
    assert |rs| == |ws| && forall k :: 0 <= k < |rs| ==> rs[k].lo == ws[k].lo && rs[k].hi == ws[k].hi;
    forall j, k | 0 <= j < k < |ws| && ws[j].hi == ws[k].lo
      ensures ws[j].tag != ws[k].tag
    {
      MeetingRunsDiffer(s, segs, covers, out, j, k);
    }
  }

  lemma MeetingRunsDiffer(s: Strategy, segs: seq<Segment>, covers: seq<Cover>, out: seq<Segment>, j: nat, k: nat)
    requires NeverSplits(s, segs) && IsResolved(s, segs, covers, out)
    requires j < k < |covers| && RunsOf(covers)[j].hi == RunsOf(covers)[k].lo
    ensures out[j].winner != out[k].winner
  {
    var rj, rk := RunsOf(covers)[j], RunsOf(covers)[k];
    assert rj.tag != rk.tag;
    assert On(rk, rk.lo);
    assert Best(s, segs, rk.tag, rk.lo);
    assert covers[j] in covers && covers[k] in covers;
    forall p | Le(rj.lo, p) && Lt(p, rj.hi)
      ensures Best(s, segs, rj.tag, p)
    {
      assert On(rj, p);
    }
    assert BestOver(s, segs, rj.tag, rj.lo, rj.hi);
  }

  // ----- Segments -----

  function SegmentsOfOps(ops: seq<Op>): (segs: seq<Segment>)
    ensures |segs| == |ops|
  {
    seq(|ops|, k requires 0 <= k < |ops| => Segment(ops[k].edit.interval, WinnerOf(ops[k])))
  }

  lemma OpsSpeak(s: Strategy, ops: seq<Op>)
    ensures Speaks(s, Elements(ops), SegmentsOfOps(ops))
  {
    var segs := SegmentsOfOps(ops);
    forall i, p | 0 <= i < |segs| && Holds(segs[i].interval, p)
      ensures Claims(Elements(ops), segs[i].winner, p)
    {
      assert ops[i] in Elements(ops);
    }
    forall o, p | Decides(s, Elements(ops), o, p)
      ensures OnWinner(segs, WinnerOf(o), p)
    {
      var i :| 0 <= i < |ops| && ops[i] == o;
      assert Holds(segs[i].interval, p);
    }
  }

  /** Equal winners are equal operations, so the lower index is best wherever either is. */
  lemma OpsNeverSplit(s: Strategy, ops: seq<Op>)
    requires Keyed(Elements(ops))
    ensures NeverSplits(s, SegmentsOfOps(ops))
  {
    var segs := SegmentsOfOps(ops);
    forall i: nat, j: nat, lo, h |
      i < |segs| && j < |segs| && i != j && segs[i].winner == segs[j].winner && Lt(lo, h) && Best(s, segs, j, h)
      ensures !BestOver(s, segs, i, lo, h)
    {
      assert ops[i] in Elements(ops) && ops[j] in Elements(ops);
      assert ops[i] == ops[j];
      OneBestPerOp(s, ops, i, j, lo, h);
    }
  }

  lemma OneBestPerOp(s: Strategy, ops: seq<Op>, i: nat, j: nat, p: Fine, q: Fine)
    requires i < |ops| && j < |ops| && i != j && ops[i] == ops[j]
    requires Best(s, SegmentsOfOps(ops), j, q)
    ensures !Best(s, SegmentsOfOps(ops), i, p)
  {
    var segs := SegmentsOfOps(ops);
    assert SpansOf(segs)[i] == SpansOf(segs)[j] == ops[i].edit.interval;
    assert Outranks(WinnerRank(s, segs), j, i);
  }

  /** Segments: defined for LWW and FWW, empty otherwise. */
  method Segments(s: Strategy, ops: seq<Op>) returns (out: seq<Segment>)
    ensures s.LWW? || s.FWW? ==> Resolves(s, SegmentsOfOps(ops), out)
    ensures (s.LWW? || s.FWW?) && Keyed(Elements(ops)) ==> IsSegmentation(s, Elements(ops), out)
    ensures !(s.LWW? || s.FWW?) ==> out == []
  {
    if s != LWW && s != FWW { return []; }
    var segs: seq<Segment> := [];
    for k := 0 to |ops|
      invariant segs == SegmentsOfOps(ops[..k])
    {
      segs := segs + [Segment(ops[k].edit.interval, WinnerOf(ops[k]))];
    }
    assert ops[..|ops|] == ops;
    out := NormalizeSegments(s, segs);
    if Keyed(Elements(ops)) {
      OpsSpeak(s, ops);
      OpsNeverSplit(s, ops);
      var covers :| IsResolved(s, segs, covers, out);
      ResolutionIsSegmentation(s, Elements(ops), segs, covers, out);
    }
  }

  /** A segmentation depends only on the set of operations. */
  lemma SegmentationIsUnique(s: Strategy, ops: set<Op>, a: seq<Segment>, b: seq<Segment>)
    requires Keyed(ops) && IsSegmentation(s, ops, a) && IsSegmentation(s, ops, b)
    ensures a == b
  {
    forall x: real, w: Winner
      ensures Labelled(WinnerRuns(a), At(x), w) <==> Labelled(WinnerRuns(b), At(x), w)
    {
      LabelledIsDecided(s, ops, a, At(x), w);
      LabelledIsDecided(s, ops, b, At(x), w);
    }
    CanonicalIsUnique(WinnerRuns(a), WinnerRuns(b));
    assert |a| == |WinnerRuns(a)| && |b| == |WinnerRuns(b)|;
    forall k | 0 <= k < |a|
      ensures a[k] == b[k]
    {
      assert WinnerRuns(a)[k] == WinnerRuns(b)[k];
      SameSpan(a[k].interval, b[k].interval);
    }
  }

  lemma LabelledIsDecided(s: Strategy, ops: set<Op>, segs: seq<Segment>, p: Fine, w: Winner)
    requires IsSegmentation(s, ops, segs)
    ensures Labelled(WinnerRuns(segs), p, w) <==> DecidedBy(s, ops, w, p)
  {
    var ws := WinnerRuns(segs);
    if Labelled(ws, p, w) {
      var k :| 0 <= k < |ws| && On(ws[k], p) && ws[k].tag == w;
      assert Holds(segs[k].interval, p);
    }
    if DecidedBy(s, ops, w, p) {
      var o :| Decides(s, ops, o, p) && WinnerOf(o) == w;
      assert OnSome(ws, p);
      var k :| 0 <= k < |ws| && On(ws[k], p);
      assert Holds(segs[k].interval, p);
      var d :| Decides(s, ops, d, p) && WinnerOf(d) == segs[k].winner;
      DeciderIsUnique(s, ops, o, d, p);
      assert ws[k].tag == w;
    }
  }

  // ----- CombineSegments -----

  lemma DecidesSubset(s: Strategy, ops: set<Op>, sub: set<Op>, o: Op, p: Fine)
    requires sub <= ops && o in sub && Decides(s, ops, o, p)
    ensures Decides(s, sub, o, p)
  {
  }

  lemma SegmentationClaims(s: Strategy, ops: set<Op>, segs: seq<Segment>, k: nat, p: Fine) returns (o: Op)
    requires IsSegmentation(s, ops, segs) && k < |segs| && Holds(segs[k].interval, p)
    ensures o in ops && WinnerOf(o) == segs[k].winner && Decides(s, ops, o, p)
  {
    o :| Decides(s, ops, o, p) && WinnerOf(o) == segs[k].winner;
  }

  lemma SegmentationAnswers(s: Strategy, ops: set<Op>, segs: seq<Segment>, o: Op, p: Fine) returns (k: nat)
    requires IsSegmentation(s, ops, segs) && Decides(s, ops, o, p)
    ensures k < |segs| && Holds(segs[k].interval, p) && segs[k].winner == WinnerOf(o)
  {
    LabelledIsDecided(s, ops, segs, p, WinnerOf(o));
    var ws := WinnerRuns(segs);
    k :| 0 <= k < |ws| && On(ws[k], p) && ws[k].tag == WinnerOf(o);
  }

  lemma CombinedSpeak(s: Strategy, A: set<Op>, B: set<Op>, a: seq<Segment>, b: seq<Segment>)
    requires IsSegmentation(s, A, a) && IsSegmentation(s, B, b)
    ensures Speaks(s, A + B, a + b)
  {
    var segs := a + b;
    forall i, p | 0 <= i < |segs| && Holds(segs[i].interval, p)
      ensures Claims(A + B, segs[i].winner, p)
    {
      if i < |a| {
        var o := SegmentationClaims(s, A, a, i, p);
      } else {
        var o := SegmentationClaims(s, B, b, i - |a|, p);
      }
    }
    forall o, p | Decides(s, A + B, o, p)
      ensures OnWinner(segs, WinnerOf(o), p)
    {
      if o in A {
        DecidesSubset(s, A + B, A, o, p);
        var k := SegmentationAnswers(s, A, a, o, p);
        assert segs[k] == a[k];
      } else {
        DecidesSubset(s, A + B, B, o, p);
        var k := SegmentationAnswers(s, B, b, o, p);
        assert segs[|a| + k] == b[k];
      }
    }
  }

  /** An operation known to the first list wins through a segment of the first list. */
  lemma FirstListWins(s: Strategy, A: set<Op>, B: set<Op>, a: seq<Segment>, b: seq<Segment>, o: Op, i: nat, p: Fine)
    requires Keyed(A + B) && IsSegmentation(s, A, a) && IsSegmentation(s, B, b)
    requires Best(s, a + b, i, p) && (a + b)[i].winner == WinnerOf(o) && o in A
    ensures i < |a|
  {
    CombinedSpeak(s, A, B, a, b);
    BestDecides(s, A + B, a + b, i, p);
    var d :| Decides(s, A + B, d, p) && WinnerOf(d) == WinnerOf(o);
    assert d == o;
    DecidesSubset(s, A + B, A, o, p);
    var k := SegmentationAnswers(s, A, a, o, p);
    assert SpansOf(a + b)[k] == a[k].interval && (a + b)[k] == a[k];
    assert k != i ==> Outranks(WinnerRank(s, a + b), i, k);
  }

  /** Two segments of one list that share a winner are not best on neighbouring stretches. */
  lemma OneListNeverSplits(s: Strategy, ops: set<Op>, list: seq<Segment>, i: nat, j: nat, lo: Fine, h: Fine)
    requires IsSegmentation(s, ops, list) && i < |list| && j < |list| && i != j
    requires Lt(lo, h) && list[i].winner == list[j].winner && Holds(list[j].interval, h)
    ensures exists p :: Le(lo, p) && Lt(p, h) && !Holds(list[i].interval, p)
  {
    var ws := WinnerRuns(list);
    assert Canonical(ws);
    var ri, rj := ws[i], ws[j];
    assert ri.tag == rj.tag && ri.hi != rj.lo;
    if j < i {
      assert Le(rj.hi, ri.lo);
      assert !Holds(list[i].interval, lo);
    } else {
      assert Lt(ri.hi, rj.lo);
      var p := Max(lo, ri.hi);
      assert Le(lo, p) && Lt(p, h) && !Holds(list[i].interval, p);
    }
  }

  lemma CombinedNeverSplit(s: Strategy, A: set<Op>, B: set<Op>, a: seq<Segment>, b: seq<Segment>)
    requires Keyed(A + B) && IsSegmentation(s, A, a) && IsSegmentation(s, B, b)
    ensures NeverSplits(s, a + b)
  {
    var segs := a + b;
    forall i: nat, j: nat, lo, h |
      i < |segs| && j < |segs| && i != j && segs[i].winner == segs[j].winner && Lt(lo, h) && Best(s, segs, j, h)
      ensures !BestOver(s, segs, i, lo, h)
    {
      CombinedPairNeverSplits(s, A, B, a, b, i, j, lo, h);
    }
  }

  lemma CombinedPairNeverSplits(s: Strategy, A: set<Op>, B: set<Op>, a: seq<Segment>, b: seq<Segment>, i: nat, j: nat,
                                lo: Fine, h: Fine)
    requires Keyed(A + B) && IsSegmentation(s, A, a) && IsSegmentation(s, B, b)
    requires i < |a + b| && j < |a + b| && i != j && (a + b)[i].winner == (a + b)[j].winner
    requires Lt(lo, h) && Best(s, a + b, j, h)
    ensures !BestOver(s, a + b, i, lo, h)
  {
    var segs := a + b;
    assert SpansOf(segs)[j] == segs[j].interval && SpansOf(segs)[i] == segs[i].interval;
    if Best(s, segs, i, lo) {
      if i < |a| {
        var o := SegmentationClaims(s, A, a, i, lo);
        FirstListWins(s, A, B, a, b, o, j, h);
        OneListNeverSplits(s, A, a, i, j, lo, h);
      } else if j < |a| {
        var o := SegmentationClaims(s, A, a, j, h);
        FirstListWins(s, A, B, a, b, o, i, lo);
        assert false;
      } else {
        OneListNeverSplits(s, B, b, i - |a|, j - |a|, lo, h);
      }
    } else {
      assert Le(lo, lo) && Lt(lo, h);
    }
  }

  /** Combining the segments of two operation sets yields exactly the segments of their union. */
  method CombineSegments(s: Strategy, a: seq<Segment>, b: seq<Segment>) returns (out: seq<Segment>)
    ensures Resolves(s, a + b, out)
  {
    out := NormalizeSegments(s, a + b);
  }

  lemma CombineIsUnion(s: Strategy, A: set<Op>, B: set<Op>, a: seq<Segment>, b: seq<Segment>, out: seq<Segment>)
    requires Keyed(A + B) && IsSegmentation(s, A, a) && IsSegmentation(s, B, b) && Resolves(s, a + b, out)
    ensures IsSegmentation(s, A + B, out)
    ensures forall whole :: IsSegmentation(s, A + B, whole) ==> whole == out
  {
    CombinedSpeak(s, A, B, a, b);
    CombinedNeverSplit(s, A, B, a, b);
    var covers :| IsResolved(s, a + b, covers, out);
    ResolutionIsSegmentation(s, A + B, a + b, covers, out);
    forall whole | IsSegmentation(s, A + B, whole)
      ensures whole == out
    {
      SegmentationIsUnique(s, A + B, whole, out);
    }
  }
}
