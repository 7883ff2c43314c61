/** space/engine/engine.go: a run that leaves boxes of two dimensions in one log. */
module MixedDimensions {
  import opened Line
  import opened Runs
  import opened Entries
  import opened Boxes
  import opened BoxStrategies
  import opened Storage
  import opened Histories
  import opened Replication
  import opened BoxHistories
  import opened BoxEngines

  function Square(side: real): Box {
    [Interval(0.0, side, Closed, Bound.Open), Interval(0.0, side, Closed, Bound.Open)]
  }

  function Cube(side: real): Box {
    Square(side) + [Interval(0.0, side, Closed, Bound.Open)]
  }

  /**
   * An engine opened on an empty log accepts a batch of three dimensions; a rival appends a box of two
   * first. The engine conflicts, catches up, and appends its batch to a log of another dimension.
   */
  method RivalFixesTheDimension(join: Join) returns (outcome: Outcome, log: seq<Op>)
    ensures outcome == Mixed && !OneDimension(log)
    ensures |log| == 2 && |log[0].edit.box| == 2 && |log[1].edit.box| == 3
  {
    var flat, solid := Entry(1, 1, Edit(Add, Square(1.0), 0, "")), Entry(2, 2, Edit(Add, Cube(1.0), 0, ""));
    var store := new Store<Op, Snapshot>();
    var clock := new Clock(_ => 0);
    var e := new Engine(store, LWW, clock, 0, None, join, join, 2);
    var rivals: nat -> seq<Op> := k => if k == 0 then [flat] else [];
    FlatRival(rivals, flat, solid);
    ghost var stamped, turns;
    outcome, stamped, turns := e.Apply([solid], rivals);
    log := store.ops;
    MixedOutcome(rivals, flat, solid, outcome, stamped, turns, log);
  }

  lemma FlatRival(rivals: nat -> seq<Op>, flat: Op, solid: Op)
    requires flat == Entry(1, 1, Edit(Add, Square(1.0), 0, "")) && solid == Entry(2, 2, Edit(Add, Cube(1.0), 0, ""))
    requires forall k: nat :: rivals(k) == if k == 0 then [flat] else []
    ensures MayInterfere(LWW, [], rivals, [solid], 2) && IsWellFormed(solid)
    ensures forall k: nat :: 0 < k <= 4 ==> LogAt([], rivals, k) == [flat]
  {
    forall k: nat | 0 < k <= 4
      ensures LogAt([], rivals, k) == [flat]
    {
      OnlyFlat(rivals, flat, k);
    }
    forall k: nat | k <= 4
      ensures MayInterfereAt(LWW, [], rivals, k, [solid], 2)
    {
      assert k == 0 || LogAt([], rivals, k) == [flat];
    }
  }

  lemma {:induction false} OnlyFlat(rivals: nat -> seq<Op>, flat: Op, k: nat)
    requires k > 0 && forall k: nat :: rivals(k) == if k == 0 then [flat] else []
    ensures LogAt([], rivals, k) == [flat]
  {
    if k > 1 { OnlyFlat(rivals, flat, k - 1); }
  }

  lemma MixedOutcome(rivals: nat -> seq<Op>, flat: Op, solid: Op, outcome: Outcome, stamped: seq<Op>, turns: nat, log: seq<Op>)
    requires flat.id == 1 && solid.id == 2 && |flat.edit.box| == 2 && |solid.edit.box| == 3 && Attempted(outcome)
    requires forall k: nat :: rivals(k) == if k == 0 then [flat] else []
    requires forall k: nat :: 0 < k <= 4 ==> LogAt([], rivals, k) == [flat]
    requires Ends([], rivals, [solid], outcome, stamped, turns, log, 2)
    ensures outcome == Mixed && !OneDimension(log) && |log| == 2 && |log[0].edit.box| == 2 && |log[1].edit.box| == 3
  {
    assert LogAt([], rivals, turns + 1) == [flat];
    assert !outcome.Conflict?;
    TheRestIsNew(flat, solid, stamped);
    assert log == [flat] + stamped;
    assert log[0] == flat && log[1] == stamped[0];
  }

  lemma TheRestIsNew(flat: Op, solid: Op, stamped: seq<Op>)
    requires flat.id != solid.id && IsNewPart([flat], [solid], stamped)
    ensures |stamped| == 1 && stamped[0].edit == solid.edit
  {
    var before, after :| IsStamped(Unseen(FoldOps(map[], [flat]), [solid]), stamped, before, after);
    assert [solid][..0] == [] && [flat][..0] == [];
    assert Unseen(FoldOps(map[], [flat]), [solid]) == [solid];
  }
}
