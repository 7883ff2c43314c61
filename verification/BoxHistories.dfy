/** What the engine over boxes relies on in its log, and what a batch may add to it. */
module BoxHistories {
  import opened Sequences
  import opened Entries
  import opened Boxes
  import opened BoxStrategies
  import opened BoxViews
  import opened Histories
  import opened Replication

  /** No operation follows a retraction that names it. */
  predicate TargetsFirst(ops: seq<Op>) {
    forall j, k :: 0 <= j < k < |ops| && ops[j].edit.kind.Retract? ==> ops[j].edit.ref != ops[k].id
  }

  /** Valid operations of one dimension with unique ids, and targets first where views are patched. */
  ghost predicate IsLog(s: Strategy, log: seq<Op>, n: nat) {
    UniqueIds(log) && AllValid(log, n) && (Patched(s) ==> TargetsFirst(log))
  }

  lemma PrefixIsLog(s: Strategy, log: seq<Op>, v: nat, n: nat)
    requires IsLog(s, log, n) && v <= |log|
    ensures IsLog(s, log[..v], n)
  {
  }

  /** Unique ids make the operations distinct and keyed. */
  lemma UniqueIsKeyed(ops: seq<Op>)
    requires UniqueIds(ops)
    ensures Distinct(ops) && Keyed(Elements(ops))
  {
    forall a, b | a in Elements(ops) && b in Elements(ops) && a.ts == b.ts && a.id == b.id
      ensures a == b
    {
      var j :| 0 <= j < |ops| && ops[j] == a;
      var k :| 0 <= k < |ops| && ops[k] == b;
    }
  }

  lemma ValidElements(ops: seq<Op>, n: nat)
    requires AllValid(ops, n)
    ensures ValidOps(Elements(ops), n)
  {
    forall o | o in ops
      ensures |o.edit.box| == n && !Hollow(o.edit.box)
    {
      var k :| 0 <= k < |ops| && ops[k] == o;
    }
  }

  /** No retraction of the list names an operation that comes after it. */
  lemma NextIsNotRetracted(ops: seq<Op>, o: Op)
    requires TargetsFirst(ops + [o])
    ensures !IsRetracted(Elements(ops), o.id)
  {
    var more := ops + [o];
    assert more[|ops|] == o;
    forall r | r in Elements(ops) && r.edit.kind.Retract?
      ensures r.edit.ref != o.id
    {
      var j :| 0 <= j < |ops| && ops[j] == r;
      assert more[j] == r;
    }
  }

  // ----- batches -----

  /** What a caller of a patched strategy keeps to: a new operation comes before every retraction that names it. */
  ghost predicate MayFollow(s: Strategy, log: seq<Op>, batch: seq<Op>) {
    Patched(s) ==> (TargetsFirst(batch) && NewTargetsFirst(log, batch))
  }

  /** An operation of the batch that the log already retracts is in the log. */
  ghost predicate NewTargetsFirst(log: seq<Op>, batch: seq<Op>) {
    forall j, k :: 0 <= j < |log| && 0 <= k < |batch| && Names(log[j], batch[k]) ==> HasId(log, batch[k].id)
  }

  predicate Names(r: Op, o: Op) {
    r.edit.kind.Retract? && r.edit.ref == o.id
  }

  lemma {:induction false} UnseenIsLog(s: Strategy, known: Known<Edit>, batch: seq<Op>, n: nat)
    requires UniqueIds(batch) && AllValid(batch, n) && (Patched(s) ==> TargetsFirst(batch))
    ensures IsLog(s, Unseen(known, batch), n)
  {
    if batch != [] {
      var rest, last := batch[..|batch| - 1], batch[|batch| - 1];
      UnseenIsLog(s, known, rest, n);
      forall k | 0 <= k < |Unseen(known, rest)|
        ensures Unseen(known, rest)[k].id != last.id
        ensures Patched(s) && Unseen(known, rest)[k].edit.kind.Retract? ==> Unseen(known, rest)[k].edit.ref != last.id
      {
        var j := UnseenAreNew(known, rest, k);
      }
    }
  }

  /** Appending the stamped unseen part of a batch to a log that is fully known keeps it a log. */
  lemma AppendIsLog(s: Strategy, log: seq<Op>, batch: seq<Op>, stamped: seq<Op>, before: int, after: int, n: nat)
    requires IsLog(s, log, n) && UniqueIds(batch) && AllValid(batch, n) && MayFollow(s, log, batch)
    requires IsStamped(Unseen(FoldOps(map[], log), batch), stamped, before, after)
    ensures IsLog(s, log + stamped, n)
  {
    var incoming := Unseen(FoldOps(map[], log), batch);
    UnseenIsLog(s, FoldOps(map[], log), batch, n);
    forall j, k | 0 <= j < |log| && 0 <= k < |stamped|
      ensures log[j].id != stamped[k].id && (Patched(s) ==> !Names(log[j], stamped[k]))
    {
      NewIsUnnamed(s, log, batch, incoming, j, k);
    }
    StampedIsLog(s, incoming, stamped, before, after, n);
    JoinedIsLog(s, log, stamped, n);
  }

  lemma NewIsUnnamed(s: Strategy, log: seq<Op>, batch: seq<Op>, incoming: seq<Op>, j: nat, k: nat)
    requires MayFollow(s, log, batch) && incoming == Unseen(FoldOps(map[], log), batch) && j < |log| && k < |incoming|
    ensures log[j].id != incoming[k].id && (Patched(s) ==> !Names(log[j], incoming[k]))
  {
    var i := UnseenAreNew(FoldOps(map[], log), batch, k);
    FoldIds(map[], log, batch[i].id);
  }

  lemma StampedIsLog(s: Strategy, incoming: seq<Op>, stamped: seq<Op>, before: int, after: int, n: nat)
    requires IsLog(s, incoming, n) && IsStamped(incoming, stamped, before, after)
    ensures IsLog(s, stamped, n)
  {
  }

  lemma JoinedIsLog(s: Strategy, log: seq<Op>, more: seq<Op>, n: nat)
    requires IsLog(s, log, n) && IsLog(s, more, n)
    requires forall j, k :: 0 <= j < |log| && 0 <= k < |more| ==>
      log[j].id != more[k].id && (Patched(s) ==> !Names(log[j], more[k]))
    ensures IsLog(s, log + more, n)
  {
  }

  // ----- dimensions -----

  /** ensureDims by value: every box has the dimension the engine has fixed, or that of the first box. */
  predicate Accepts(dims: int, batch: seq<Op>) {
    forall k :: 0 <= k < |batch| ==> |batch[k].edit.box| == (if dims == -1 then |batch[0].edit.box| else dims)
  }

  ghost predicate OfDimension(log: seq<Op>, n: nat) {
    forall k :: 0 <= k < |log| ==> |log[k].edit.box| == n
  }

  /** All boxes of the log have one dimension. */
  ghost predicate OneDimension(log: seq<Op>) {
    forall j, k :: 0 <= j < |log| && 0 <= k < |log| ==> |log[j].edit.box| == |log[k].edit.box|
  }

  /**
   * A batch that ensureDims accepted, appended in part or whole to a log of dimension `n`, leaves the log
   * of one dimension exactly when that log was empty or had the dimension of the batch.
   */
  lemma OneDimensionIff(log: seq<Op>, dims: int, batch: seq<Op>, stamped: seq<Op>, n: nat)
    requires Accepts(dims, batch) && OfDimension(log, n) && IsNewPart(log, batch, stamped) && stamped != []
    ensures OneDimension(log + stamped) <==> log == [] || n == |batch[0].edit.box|
  {
    var before, after :| IsStamped(Unseen(FoldOps(map[], log), batch), stamped, before, after);
    var d := |batch[0].edit.box|;
    forall k | 0 <= k < |stamped|
      ensures |stamped[k].edit.box| == d
    {
      var j := UnseenAreNew(FoldOps(map[], log), batch, k);
    }
    MixedIff(log, stamped, n, d);
  }

  lemma MixedIff(log: seq<Op>, more: seq<Op>, n: nat, d: nat)
    requires OfDimension(log, n) && OfDimension(more, d) && more != []
    ensures OneDimension(log + more) <==> log == [] || n == d
  {
    var whole := log + more;
    assert whole[|log|] == more[0];
    if log != [] { assert whole[0] == log[0]; }
  }
}
