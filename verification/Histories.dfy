/** What an engine knows of a log: operations folded by id, stamped by a clock that observes them. */
module Histories {
  import opened Sequences
  import opened Entries

  type Known<E> = map<int, Entry<E>>

  /** Operations recorded by id in order, later entries replacing earlier ones. */
  function FoldOps<E>(known: Known<E>, ops: seq<Entry<E>>): Known<E> {
    if ops == [] then known
    else FoldOps(known, ops[..|ops| - 1])[ops[|ops| - 1].id := ops[|ops| - 1]]
  }

  lemma {:induction false} FoldConcat<E>(known: Known<E>, a: seq<Entry<E>>, b: seq<Entry<E>>)
    ensures FoldOps(known, a + b) == FoldOps(FoldOps(known, a), b)
  {
    if b == [] {
      assert a + b == a;
    } else {
      assert (a + b)[..|a + b| - 1] == a + b[..|b| - 1];
      FoldConcat(known, a, b[..|b| - 1]);
    }
  }

  ghost function Recorded<E>(known: Known<E>): set<Entry<E>> {
    set id | id in known :: known[id]
  }

  /** Every operation is recorded under its own id. */
  ghost predicate ById<E>(known: Known<E>) {
    forall id :: id in known ==> known[id].id == id
  }

  lemma {:induction false} FoldIsById<E>(known: Known<E>, ops: seq<Entry<E>>)
    requires ById(known)
    ensures ById(FoldOps(known, ops))
  {
    if ops != [] { FoldIsById(known, ops[..|ops| - 1]); }
  }

  /** Distinct ids are distinct keys. */
  lemma ByIdIsKeyed<E>(known: Known<E>)
    requires ById(known)
    ensures Keyed(Recorded(known))
  {
    forall a, b | a in Recorded(known) && b in Recorded(known) && a.ts == b.ts && a.id == b.id
      ensures a == b
    {
      var i :| i in known && known[i] == a;
      var j :| j in known && known[j] == b;
    }
  }

  predicate UniqueIds<E>(ops: seq<Entry<E>>) {
    forall j, k :: 0 <= j < k < |ops| ==> ops[j].id != ops[k].id
  }

  ghost predicate HasId<E>(ops: seq<Entry<E>>, id: int) {
    exists k :: 0 <= k < |ops| && ops[k].id == id
  }

  /** The ids known after a fold are those known before and those folded. */
  lemma {:induction false} FoldIds<E>(known: Known<E>, ops: seq<Entry<E>>, id: int)
    ensures id in FoldOps(known, ops) <==> id in known || HasId(ops, id)
  {
    if ops != [] {
      var rest, last := ops[..|ops| - 1], ops[|ops| - 1];
      FoldIds(known, rest, id);
      if HasId(rest, id) {
        var k :| 0 <= k < |rest| && rest[k].id == id;
        assert ops[k].id == id;
      }
      if last.id == id { assert ops[|ops| - 1].id == id; }
      if HasId(ops, id) {
        var k :| 0 <= k < |ops| && ops[k].id == id;
        if k < |rest| { assert rest[k].id == id; }
      }
    }
  }

  /** Folding a list with unique ids records exactly its operations. */
  lemma {:induction false} FoldOfUnique<E>(ops: seq<Entry<E>>)
    requires UniqueIds(ops)
    ensures Recorded(FoldOps(map[], ops)) == Elements(ops)
    ensures forall k :: 0 <= k < |ops| ==> ops[k].id in FoldOps(map[], ops) && FoldOps(map[], ops)[ops[k].id] == ops[k]
  {
    if ops != [] {
      var rest, last := ops[..|ops| - 1], ops[|ops| - 1];
      FoldOfUnique(rest);
      FoldIds(map[], rest, last.id);
      var m := FoldOps(map[], rest);
      assert last.id !in m;
      FreshEntry(m, last);
      assert Elements(ops) == Elements(rest) + {last};
      forall k | 0 <= k < |ops|
        ensures ops[k].id in m[last.id := last] && m[last.id := last][ops[k].id] == ops[k]
      {
        if k < |rest| { assert rest[k] == ops[k]; }
      }
    }
  }

  lemma FreshEntry<E>(m: Known<E>, o: Entry<E>)
    requires o.id !in m
    ensures Recorded(m[o.id := o]) == Recorded(m) + {o}
  {
    var m' := m[o.id := o];
    forall v | v in Recorded(m) + {o}
      ensures v in Recorded(m')
    {
      if v == o {
        assert m'[o.id] == v;
      } else {
        var i :| i in m && m[i] == v;
        assert m'[i] == v;
      }
    }
  }

  /** unseen: the operations whose ids are not yet known, in order. */
  function Unseen<E>(known: Known<E>, ops: seq<Entry<E>>): seq<Entry<E>> {
    if ops == [] then []
    else
      var rest := Unseen(known, ops[..|ops| - 1]);
      if ops[|ops| - 1].id in known then rest else rest + [ops[|ops| - 1]]
  }

  /** The operations at the listed places, and no others, have ids that are not known; the places rise. */
  ghost predicate NewPlaces<E>(known: Known<E>, ops: seq<Entry<E>>, at: seq<nat>) {
    && (forall k :: 0 <= k < |at| ==> at[k] < |ops| && ops[at[k]].id !in known)
    && (forall j, k :: 0 <= j < k < |at| ==> at[j] < at[k])
    && (forall i: nat :: i < |ops| ==> IsPlaced(known, ops, at, i))
  }

  ghost predicate IsPlaced<E>(known: Known<E>, ops: seq<Entry<E>>, at: seq<nat>, i: nat)
    requires i < |ops|
  {
    ops[i].id in known || exists k :: 0 <= k < |at| && at[k] == i
  }

  /** The unseen operations are those of the list whose ids are not known, each where it stood, in order. */
  lemma {:induction false} UnseenIsFiltered<E>(known: Known<E>, ops: seq<Entry<E>>) returns (at: seq<nat>)
    ensures NewPlaces(known, ops, at) && |Unseen(known, ops)| == |at|
    ensures forall k :: 0 <= k < |at| ==> at[k] < |ops| && Unseen(known, ops)[k] == ops[at[k]]
  {
    if ops == [] {
      at := [];
    } else {
      var n := |ops| - 1;
      var rest := UnseenIsFiltered(known, ops[..n]);
      at := if ops[n].id in known then rest else rest + [n];
      PlacesMore(known, ops, n, rest, at);
    }
  }

  lemma PlacesMore<E>(known: Known<E>, ops: seq<Entry<E>>, n: nat, rest: seq<nat>, at: seq<nat>)
    requires |ops| == n + 1 && NewPlaces(known, ops[..n], rest)
    requires at == if ops[n].id in known then rest else rest + [n]
    ensures NewPlaces(known, ops, at)
  {
    forall i: nat | i < |ops|
      ensures IsPlaced(known, ops, at, i)
    {
      if i < n {
        assert IsPlaced(known, ops[..n], rest, i);
        if k :| 0 <= k < |rest| && rest[k] == i { assert at[k] == i; }
      } else if ops[n].id !in known {
        assert at[|rest|] == i;
      }
    }
  }

  lemma {:induction false} UnseenAreNew<E>(known: Known<E>, ops: seq<Entry<E>>, k: nat) returns (j: nat)
    requires k < |Unseen(known, ops)|
    ensures j < |ops| && ops[j] == Unseen(known, ops)[k] && ops[j].id !in known
  {
    var rest := ops[..|ops| - 1];
    if k < |Unseen(known, rest)| { j := UnseenAreNew(known, rest, k); } else { j := |ops| - 1; }
  }

  lemma {:induction false} UnseenCoversNew<E>(known: Known<E>, ops: seq<Entry<E>>, id: int)
    requires HasId(ops, id) && id !in known
    ensures HasId(Unseen(known, ops), id)
  {
    var rest, last := ops[..|ops| - 1], ops[|ops| - 1];
    if last.id == id {
      assert Unseen(known, ops)[|Unseen(known, rest)|].id == id;
    } else {
      var k :| 0 <= k < |ops| && ops[k].id == id;
      assert rest[k].id == id;
      UnseenCoversNew(known, rest, id);
      var j :| 0 <= j < |Unseen(known, rest)| && Unseen(known, rest)[j].id == id;
      assert Unseen(known, ops)[j].id == id;
    }
  }

  lemma {:induction false} UnseenRepeats<E>(known: Known<E>, ops: seq<Entry<E>>, j: nat, k: nat)
    requires j < k < |ops| && ops[j].id == ops[k].id && ops[j].id !in known
    ensures !UniqueIds(Unseen(known, ops))
  {
    var rest, last := ops[..|ops| - 1], ops[|ops| - 1];
    var unlisted := Unseen(known, rest);
    if k < |ops| - 1 {
      UnseenRepeats(known, rest, j, k);
      assert forall m :: 0 <= m < |unlisted| ==> (unlisted + [last])[m] == unlisted[m];
    } else {
      assert rest[j].id == last.id;
      UnseenCoversNew(known, rest, last.id);
      var m :| 0 <= m < |unlisted| && unlisted[m].id == last.id;
      assert (unlisted + [last])[m].id == (unlisted + [last])[|unlisted|].id;
    }
  }

  lemma {:induction false} UnseenKeepsUnique<E>(known: Known<E>, ops: seq<Entry<E>>)
    requires UniqueIds(ops)
    ensures UniqueIds(Unseen(known, ops))
  {
    if ops != [] {
      var rest, last := ops[..|ops| - 1], ops[|ops| - 1];
      UnseenKeepsUnique(known, rest);
      forall k | 0 <= k < |Unseen(known, rest)|
        ensures Unseen(known, rest)[k].id != last.id
      {
        var j := UnseenAreNew(known, rest, k);
      }
    }
  }

  // ----- clocks -----

  /** The clock is at or past every timestamp of the list. */
  ghost predicate Observed<E>(ops: seq<Entry<E>>, clock: int) {
    forall k :: 0 <= k < |ops| ==> ops[k].ts <= clock
  }

  /**
   * stamp: operations without a timestamp get increasing ones past the clock; everything else stays.
   */
  ghost predicate IsStamped<E>(incoming: seq<Entry<E>>, stamped: seq<Entry<E>>, before: int, after: int) {
    && |stamped| == |incoming| && before <= after
    && (forall k :: 0 <= k < |incoming| ==> stamped[k] == incoming[k].(ts := stamped[k].ts))
    && (forall k :: 0 <= k < |incoming| ==>
          if incoming[k].ts == 0 then before < stamped[k].ts <= after else stamped[k].ts == incoming[k].ts)
    && (forall j, k :: 0 <= j < k < |incoming| && incoming[j].ts == 0 && incoming[k].ts == 0 ==> stamped[j].ts < stamped[k].ts)
  }

  lemma StampKeepsIds<E>(incoming: seq<Entry<E>>, stamped: seq<Entry<E>>, before: int, after: int, id: int)
    requires IsStamped(incoming, stamped, before, after)
    ensures HasId(stamped, id) <==> HasId(incoming, id)
    ensures UniqueIds(incoming) <==> UniqueIds(stamped)
  {
    assert forall k :: 0 <= k < |incoming| ==> stamped[k].id == incoming[k].id;
    if HasId(incoming, id) {
      var k :| 0 <= k < |incoming| && incoming[k].id == id;
      assert stamped[k].id == id;
    }
  }

  // ----- snapshots -----

  /** A fold lays what it records over what was known. */
  lemma {:induction false} FoldOverlays<E>(known: Known<E>, ops: seq<Entry<E>>)
    ensures FoldOps(known, ops) == known + FoldOps(map[], ops)
  {
    if ops != [] { FoldOverlays(known, ops[..|ops| - 1]); }
  }

  /** Folding a list of what is known, in any order, gives it back. */
  lemma ListingIsKnown<E>(known: Known<E>, listed: seq<Entry<E>>)
    requires ById(known) && UniqueIds(listed) && Elements(listed) == Recorded(known)
    ensures FoldOps(map[], listed) == known
  {
    var m := FoldOps(map[], listed);
    FoldOfUnique(listed);
    forall id | id in known
      ensures id in m && m[id] == known[id]
    {
      assert known[id] in Recorded(known);
      var k :| 0 <= k < |listed| && listed[k] == known[id];
    }
    forall id | id in m
      ensures id in known
    {
      FoldIds(map[], listed, id);
      var k :| 0 <= k < |listed| && listed[k].id == id;
      assert listed[k] in Elements(listed);
    }
  }

  /** Whatever both record, they record alike. */
  ghost predicate RecordAlike<E>(a: Known<E>, b: Known<E>) {
    forall id :: id in a && id in b ==> a[id] == b[id]
  }

  /**
   * Folding a snapshot's operations over the rest of the log knows the log in full if and only if no
   * operation of the rest replaces one of the snapshot by another: the snapshot's would come back.
   */
  lemma PrefixThenRestIff<E>(head: seq<Entry<E>>, tail: seq<Entry<E>>, listed: seq<Entry<E>>)
    requires UniqueIds(listed) && Elements(listed) == Recorded(FoldOps(map[], head))
    ensures FoldOps(FoldOps(map[], tail), listed) == FoldOps(map[], head + tail) <==>
      RecordAlike(FoldOps(map[], head), FoldOps(map[], tail))
  {
    var h, t := FoldOps(map[], head), FoldOps(map[], tail);
    FoldIsById(map[], head);
    ListingIsKnown(h, listed);
    FoldOverlays(t, listed);
    FoldConcat(map[], head, tail);
    FoldOverlays(h, tail);
    OverlaysCommuteIff(h, t);
  }

  lemma OverlaysCommuteIff<E>(a: Known<E>, b: Known<E>)
    ensures a + b == b + a <==> RecordAlike(a, b)
  {
    if a + b == b + a {
      forall id | id in a && id in b
        ensures a[id] == b[id]
      {
        assert (a + b)[id] == (b + a)[id];
      }
    }
    if RecordAlike(a, b) {
      assert (a + b).Keys == (b + a).Keys;
      forall id | id in a + b
        ensures (a + b)[id] == (b + a)[id]
      {
        if id in a && id in b { assert a[id] == b[id]; }
      }
    }
  }

  /** With unique ids nothing is replaced, so any prefix and the rest are the whole log. */
  lemma PrefixThenRest<E>(head: seq<Entry<E>>, tail: seq<Entry<E>>, listed: seq<Entry<E>>)
    requires UniqueIds(head + tail) && UniqueIds(listed) && Elements(listed) == Elements(head)
    ensures FoldOps(FoldOps(map[], tail), listed) == FoldOps(map[], head + tail)
  {
    TailUnique(head, tail);
    FoldOfUnique(head);
    PrefixThenRestIff(head, tail, listed);
    forall id | id in FoldOps(map[], head)
      ensures id !in FoldOps(map[], tail)
    {
      HeadIdIsNew(head, tail, id);
    }
  }

  lemma HeadIdIsNew<E>(head: seq<Entry<E>>, tail: seq<Entry<E>>, id: int)
    requires UniqueIds(head + tail) && id in FoldOps(map[], head)
    ensures id !in FoldOps(map[], tail)
  {
    FoldIds(map[], head, id);
    FoldIds(map[], tail, id);
    var j :| 0 <= j < |head| && head[j].id == id;
    forall k | 0 <= k < |tail|
      ensures tail[k].id != id
    {
      assert (head + tail)[j] == head[j] && (head + tail)[|head| + k] == tail[k];
    }
  }

  lemma TailUnique<E>(head: seq<Entry<E>>, tail: seq<Entry<E>>)
    requires UniqueIds(head + tail)
    ensures UniqueIds(tail) && UniqueIds(head)
  {
    var log := head + tail;
    forall j, k | 0 <= j < k < |tail|
      ensures tail[j].id != tail[k].id
    {
      assert log[|head| + j] == tail[j] && log[|head| + k] == tail[k];
    }
    forall j, k | 0 <= j < k < |head|
      ensures head[j].id != head[k].id
    {
      assert log[j] == head[j] && log[k] == head[k];
    }
  }
}
