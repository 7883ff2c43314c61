/** What the engines of both kinds of set do with operations: listing, filtering, stamping and recording them. */
module Journals {
  import opened Sequences
  import opened Entries
  import opened Histories
  import opened Replication
  import opened Storage

  predicate LessId<E>(a: Entry<E>, b: Entry<E>) {
    a.id < b.id
  }

  /** opsList: the known operations sorted by id. */
  method OpsList<E(==)>(known: Known<E>) returns (out: seq<Entry<E>>)
    requires ById(known)
    ensures Elements(out) == Recorded(known) && UniqueIds(out)
    ensures forall j, k :: 0 <= j < k < |out| ==> out[j].id < out[k].id
  {
    var keys: set<int> := known.Keys;
    var list: seq<Entry<E>> := [];
    while keys != {}
      invariant keys <= known.Keys
      invariant forall k :: 0 <= k < |list| ==> list[k].id in known && known[list[k].id] == list[k] && list[k].id !in keys
      invariant forall id :: id in known && id !in keys ==> known[id] in list
      invariant UniqueIds(list)
      decreases keys
    {
      var id := AnyOf(keys);
      list := list + [known[id]];
      keys := keys - {id};
    }
    out := Sort(list, LessId<E>);
    ListIsStrict(list, out);
    assert Elements(out) == Recorded(known);
  }

  lemma ListIsStrict<E>(list: seq<Entry<E>>, out: seq<Entry<E>>)
    requires UniqueIds(list) && multiset(out) == multiset(list) && SortedBy(LessId<E>, out)
    ensures forall j, k :: 0 <= j < k < |out| ==> out[j].id < out[k].id
  {
    SameMembers(out, list);
    assert Distinct(list);
    DistinctTransfers(list, out);
    forall j, k | 0 <= j < k < |out|
      ensures out[j].id < out[k].id
    {
      assert !LessId(out[k], out[j]);
      assert out[j] in list && out[k] in list && out[j] != out[k];
    }
  }

  method UnseenOf<E>(known: Known<E>, batch: seq<Entry<E>>) returns (incoming: seq<Entry<E>>)
    ensures incoming == Unseen(known, batch)
  {
    incoming := [];
    for i := 0 to |batch|
      invariant incoming == Unseen(known, batch[..i])
    {
      assert batch[..i + 1][..i] == batch[..i];
      if batch[i].id !in known { incoming := incoming + [batch[i]]; }
    }
    assert batch[..|batch|] == batch;
  }

  /** After a successful attempt every operation of the batch is known. */
  lemma BatchIsKnown<E>(known: Known<E>, batch: seq<Entry<E>>, stamped: seq<Entry<E>>, known': Known<E>)
    requires known' == FoldOps(known, stamped)
    requires |stamped| == |Unseen(known, batch)| && forall k :: 0 <= k < |stamped| ==> stamped[k].id == Unseen(known, batch)[k].id
    ensures forall k :: 0 <= k < |batch| ==> batch[k].id in known'
  {
    forall k | 0 <= k < |batch|
      ensures batch[k].id in known'
    {
      var id := batch[k].id;
      FoldIds(known, stamped, id);
      if id !in known {
        UnseenCoversNew(known, batch, id);
        var j :| 0 <= j < |Unseen(known, batch)| && Unseen(known, batch)[j].id == id;
        assert stamped[j].id == id;
      }
    }
  }

  // ----- stamping and recording -----

  /** stamp: gives a timestamp to the operations that carry none. */
  method Stamp<E>(clock: Clock, incoming: seq<Entry<E>>) returns (stamped: seq<Entry<E>>)
    modifies clock
    ensures IsStamped(incoming, stamped, old(clock.last), clock.last)
  {
    stamped := [];
    for i := 0 to |incoming|
      invariant IsStamped(incoming[..i], stamped, old(clock.last), clock.last)
    {
      ghost var before, mid := stamped, clock.last;
      if incoming[i].ts == 0 {
        var ts := clock.Tick();
        stamped := stamped + [incoming[i].(ts := ts)];
      } else {
        stamped := stamped + [incoming[i]];
      }
      StampedMore(incoming, i, before, old(clock.last), mid, stamped[i], clock.last);
    }
    assert incoming[..|incoming|] == incoming;
  }

  lemma StampedMore<E>(incoming: seq<Entry<E>>, i: nat, stamped: seq<Entry<E>>, before: int, mid: int, o: Entry<E>, after: int)
    requires i < |incoming| && IsStamped(incoming[..i], stamped, before, mid) && mid <= after
    requires o == incoming[i].(ts := o.ts)
    requires if incoming[i].ts == 0 then mid < o.ts <= after else o.ts == incoming[i].ts
    ensures IsStamped(incoming[..i + 1], stamped + [o], before, after)
  {
    assert forall k :: 0 <= k < i ==> incoming[..i][k] == incoming[k];
  }

  /** Observes and records operations in order. */
  method Record<E>(clock: Clock, ops: Known<E>, more: seq<Entry<E>>) returns (known: Known<E>)
    modifies clock
    ensures known == FoldOps(ops, more) && clock.last >= old(clock.last) && Observed(more, clock.last)
  {
    known := ops;
    for i := 0 to |more|
      invariant known == FoldOps(ops, more[..i]) && clock.last >= old(clock.last) && Observed(more[..i], clock.last)
    {
      assert more[..i + 1][..i] == more[..i];
      clock.Observe(more[i].ts);
      known := known[more[i].id := more[i]];
    }
    assert more[..|more|] == more;
  }

  // ----- what the recorded operations are -----

  /** What a faithful replica of a log with unique ids knows, as a set. */
  lemma FaithfulKnows<E>(log: seq<Entry<E>>, r: Replica<E>)
    requires Faithful(log, r) && UniqueIds(log)
    ensures Recorded(r.known) == Elements(log[..r.version]) && ById(r.known) && Keyed(Recorded(r.known))
  {
    TailUnique(log[..r.version], log[r.version..]);
    assert log == log[..r.version] + log[r.version..];
    FoldOfUnique(log[..r.version]);
    FoldIsById(map[], log[..r.version]);
    ByIdIsKeyed(r.known);
  }

  lemma HeadObserved<E>(head: seq<Entry<E>>, delta: seq<Entry<E>>, listed: seq<Entry<E>>, clock: int)
    requires Elements(listed) == Elements(head) && Observed(listed, clock) && Observed(delta, clock)
    ensures Observed(head + delta, clock)
  {
    forall k | 0 <= k < |head|
      ensures head[k].ts <= clock
    {
      assert head[k] in Elements(listed);
      var j :| 0 <= j < |listed| && listed[j] == head[k];
    }
  }

  /** The snapshot's operations and the replayed tail are together the whole log. */
  lemma WholeLog<E>(log: seq<Entry<E>>, v: nat, listed: seq<Entry<E>>)
    requires UniqueIds(log) && v <= |log| && Elements(listed) == Elements(log[..v])
    ensures Elements(listed) + Elements(log[v..]) == Recorded(FoldOps(map[], log))
    ensures Keyed(Recorded(FoldOps(map[], log)))
  {
    FoldOfUnique(log);
    FoldIsById(map[], log);
    ByIdIsKeyed(FoldOps(map[], log));
    assert log == log[..v] + log[v..];
  }

  lemma FoldedIsFaithful<E>(log: seq<Entry<E>>, appended: seq<Entry<E>>, r: Replica<E>, r': Replica<E>)
    requires Faithful(log, r) && r.version == |log| && Folds(r, appended, r.clock, r')
    ensures Faithful(log + appended, r')
  {
    assert log[..|log|] == log && (log + appended)[..|log + appended|] == log + appended;
    FoldConcat(map[], log, appended);
  }
}
