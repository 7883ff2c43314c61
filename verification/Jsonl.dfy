/** store/jsonl/jsonl.go as a stream of records: operations, and snapshots that renumber what follows. */
module Jsonl {
  import opened Runs
  import opened Strategies

  datatype Record<D> = Operation(op: Op) | Marker(version: nat, data: D)

  // ----- the stream as a function of its records -----

  /** The logical operation count a scan ends with. */
  function Reach<D>(records: seq<Record<D>>): nat {
    if records == [] then 0
    else
      var rest := Reach(records[..|records| - 1]);
      match records[|records| - 1]
      case Operation(_) => rest + 1
      case Marker(version, _) => if version > rest then version else rest
  }

  /** The operations whose ordinal is past a version, in stream order. */
  function After<D>(records: seq<Record<D>>, version: int): seq<Op> {
    if records == [] then []
    else
      var rest := records[..|records| - 1];
      match records[|records| - 1]
      case Operation(op) => if Reach(rest) + 1 > version then After(rest, version) + [op] else After(rest, version)
      case Marker(_, _) => After(rest, version)
  }

  function Operations<D>(ops: seq<Op>): (rs: seq<Record<D>>)
    ensures |rs| == |ops| && forall k :: 0 <= k < |ops| ==> rs[k] == Operation(ops[k])
  {
    seq(|ops|, k requires 0 <= k < |ops| => Operation(ops[k]))
  }

  // ----- the history the stream stands for -----

  /** The part of a history past a version, for any version. */
  function Suffix(history: seq<Op>, version: int): seq<Op> {
    if version <= 0 then history else if version >= |history| then [] else history[version..]
  }

  function Later(a: int, b: int): int {
    if a < b then b else a
  }

  /**
   * The stream stands for `history`, of which the first `cut` operations live on only in a snapshot:
   * it counts the whole history and reads exactly what follows the later of the version and the cut.
   */
  ghost predicate Represents<D>(records: seq<Record<D>>, history: seq<Op>, cut: nat) {
    && Reach(records) == |history| && cut <= |history|
    && forall v: int :: After(records, v) == Suffix(history, Later(v, cut))
  }

  lemma EmptyRepresents<D>()
    ensures Represents<D>([], [], 0)
  {
  }

  lemma OperationExtends<D>(records: seq<Record<D>>, history: seq<Op>, cut: nat, op: Op)
    requires Represents(records, history, cut)
    ensures Represents(records + [Operation(op)], history + [op], cut)
  {
    var more := records + [Operation(op)];
    assert more[..|more| - 1] == records;
    forall v: int
      ensures After(more, v) == Suffix(history + [op], Later(v, cut))
    {
      var w := Later(v, cut);
      assert After(records, v) == Suffix(history, w);
      if 0 < w <= |history| { assert (history + [op])[w..] == history[w..] + [op]; }
    }
  }

  lemma {:induction false} OperationsExtend<D>(records: seq<Record<D>>, history: seq<Op>, cut: nat, ops: seq<Op>)
    requires Represents(records, history, cut)
    ensures Represents(records + Operations(ops), history + ops, cut)
    decreases |ops|
  {
    if ops == [] {
      assert records + Operations(ops) == records && history + ops == history;
    } else {
      var first := ops[..|ops| - 1];
      OperationsExtend(records, history, cut, first);
      OperationExtends(records + Operations(first), history + first, cut, ops[|ops| - 1]);
      assert records + Operations(ops) == records + Operations(first) + [Operation(ops[|ops| - 1])];
      assert history + ops == history + first + [ops[|ops| - 1]];
    }
  }

  /** A snapshot record keeps the history exactly when it does not claim more operations than there are. */
  lemma MarkerKeepsIff<D>(records: seq<Record<D>>, history: seq<Op>, cut: nat, version: nat, data: D)
    requires Represents(records, history, cut)
    ensures Represents(records + [Marker(version, data)], history, cut) <==> version <= |history|
  {
    var more := records + [Marker(version, data)];
    assert more[..|more| - 1] == records;
    assert forall v: int :: After(more, v) == After(records, v);
  }

  /** Compact: the snapshot followed by the operations it does not cover. */
  function Compacted<D>(records: seq<Record<D>>, version: nat, data: D): seq<Record<D>> {
    [Marker(version, data)] + Operations(After(records, version))
  }

  lemma MarkerStarts<D>(history: seq<Op>, version: nat, data: D)
    requires |history| == version
    ensures Represents([Marker(version, data)], history, version)
  {
    var one := [Marker(version, data)];
    assert one[..0] == [];
    assert forall v: int :: After(one, v) == After(one[..0], v);
  }

  lemma {:induction false} ReachOfOperations<D>(records: seq<Record<D>>, ops: seq<Op>)
    ensures Reach(records + Operations(ops)) == Reach(records) + |ops|
    decreases |ops|
  {
    if ops == [] {
      assert records + Operations(ops) == records;
    } else {
      var first := ops[..|ops| - 1];
      ReachOfOperations(records, first);
      var all := records + Operations(ops);
      assert all[..|all| - 1] == records + Operations(first);
    }
  }

  /**
   * Compaction keeps the history, with its version as the new cut, exactly when the version lies
   * between the previous cut and the number of operations.
   */
  lemma CompactKeepsIff<D>(records: seq<Record<D>>, history: seq<Op>, cut: nat, version: nat, data: D)
    requires Represents(records, history, cut)
    ensures Represents(Compacted(records, version, data), history, version) <==> cut <= version <= |history|
  {
    var tail := After(records, version);
    assert tail == Suffix(history, Later(version, cut));
    if cut <= version <= |history| {
      assert history == history[..version] + tail;
      MarkerStarts(history[..version], version, data);
      OperationsExtend([Marker(version, data)], history[..version], version, tail);
    } else if version < cut {
      ReachOfOperations([Marker(version, data)], tail);
      assert Reach([Marker(version, data)]) == version by { assert [Marker(version, data)][..0] == []; }
    }
  }

  /** A read is the whole rest of the history exactly when nothing after the version was compacted away. */
  lemma ReadIsCompleteIff<D>(records: seq<Record<D>>, history: seq<Op>, cut: nat, version: nat)
    requires Represents(records, history, cut) && version <= |history|
    ensures After(records, version) == history[version..] <==> cut <= version
  {
    assert After(records, version) == Suffix(history, Later(version, cut));
  }

  // ----- snapshots -----

  /** LoadSnapshot: the snapshot with the highest version, the latest of several. */
  function Newest<D>(records: seq<Record<D>>): Option<Record<D>> {
    if records == [] then None
    else
      var rest, last := Newest(records[..|records| - 1]), records[|records| - 1];
      if last.Marker? && (rest.None? || !rest.value.Marker? || last.version >= rest.value.version) then Some(last) else rest
  }

  lemma {:induction false} NewestIsHighest<D>(records: seq<Record<D>>)
    ensures Newest(records).Some? <==> exists k :: 0 <= k < |records| && records[k].Marker?
    ensures Newest(records).Some? ==> Newest(records).value in records && Newest(records).value.Marker?
    ensures forall k :: 0 <= k < |records| && records[k].Marker? ==>
      Newest(records).Some? && Newest(records).value.Marker? && records[k].version <= Newest(records).value.version
    ensures Newest(records).Some? ==> exists k: nat :: IsLatest(records, k, Newest(records).value)
  {
    if records != [] {
      var rest, last := records[..|records| - 1], records[|records| - 1];
      NewestIsHighest(rest);
      assert records == rest + [last];
      if Newest(records).Some? {
        if Newest(records) == Newest(rest) && !(last.Marker? && Newest(records).value == last) {
          var k: nat :| IsLatest(rest, k, Newest(rest).value);
          assert IsLatest(records, k, Newest(records).value);
        } else {
          assert IsLatest(records, |rest|, last);
        }
      }
    }
  }

  /** The record at `k` is the marker, and every later marker has a lower version. */
  ghost predicate IsLatest<D>(records: seq<Record<D>>, k: nat, r: Record<D>) {
    && k < |records| && records[k] == r && r.Marker?
    && forall j :: k < j < |records| && records[j].Marker? ==> records[j].version < r.version
  }

  // ----- the store -----

  class Stream<D(==)> {
    var records: seq<Record<D>>

    constructor ()
      ensures records == [] && Represents(records, [], 0)
    {
      records := [];
      EmptyRepresents<D>();
    }

    /** scan: walks the records with a running baseline and ordinal. */
    method Scan(fromVersion: int) returns (out: seq<Op>, count: nat)
      ensures count == Reach(records) && out == After(records, fromVersion)
    {
      var baseline: nat, ordinal: nat := 0, 0;
      out := [];
      for k := 0 to |records|
        invariant Later(baseline, ordinal) == Reach(records[..k])
        invariant out == After(records[..k], fromVersion)
      {
        assert records[..k + 1][..k] == records[..k];
        match records[k]
        case Marker(version, _) =>
          if version > baseline { baseline := version; }
        case Operation(op) =>
          if ordinal < baseline { ordinal := baseline; }
          ordinal := ordinal + 1;
          if ordinal > fromVersion { out := out + [op]; }
      }
      assert records[..|records|] == records;
      if ordinal < baseline { ordinal := baseline; }
      count := ordinal;
    }

    /** Append: adds the events when the expected version is the operation count. */
    method Append(expectedVersion: int, events: seq<Op>) returns (ok: bool)
      modifies this
      ensures ok <==> old(Reach(records)) == expectedVersion
      ensures records == if ok then old(records) + Operations(events) else old(records)
      ensures forall h, c: nat :: ok && Represents(old(records), h, c) ==> Represents(records, h + events, c)
    {
      var _, count := Scan(0);
      if count != expectedVersion { return false; }
      forall h, c: nat | Represents(records, h, c)
        ensures Represents(records + Operations(events), h + events, c)
      {
        OperationsExtend(records, h, c, events);
      }
      records := records + Operations(events);
      return true;
    }

    /** Read: the operations after a version, and the operation count. */
    method Read(fromVersion: int) returns (out: seq<Op>, count: nat)
      ensures forall h, c: nat :: Represents(records, h, c) ==> count == |h| && out == Suffix(h, Later(fromVersion, c))
    {
      out, count := Scan(fromVersion);
    }

    /** SaveSnapshot: appends a snapshot record. */
    method SaveSnapshot(version: nat, data: D)
      modifies this
      ensures records == old(records) + [Marker(version, data)]
      ensures forall h, c: nat :: Represents(old(records), h, c) ==> (Represents(records, h, c) <==> version <= |h|)
    {
      forall h, c: nat | Represents(records, h, c)
        ensures Represents(records + [Marker(version, data)], h, c) <==> version <= |h|
      {
        MarkerKeepsIff(records, h, c, version, data);
      }
      records := records + [Marker(version, data)];
    }

    /** LoadSnapshot: the newest snapshot record of the highest version. */
    method LoadSnapshot() returns (latest: Option<Record<D>>)
      ensures latest == Newest(records)
    {
      latest := None;
      for k := 0 to |records|
        invariant latest == Newest(records[..k])
      {
        assert records[..k + 1][..k] == records[..k];
        NewestIsHighest(records[..k]);
        var r := records[k];
        if r.Marker? && (latest.None? || r.version >= latest.value.version) { latest := Some(r); }
      }
      assert records[..|records|] == records;
    }

    /** Compact: rewrites the stream as a snapshot and the operations it does not cover. */
    method Compact(version: nat, data: D)
      modifies this
      ensures records == old(Compacted(records, version, data))
      ensures forall h, c: nat :: Represents(old(records), h, c) ==> (Represents(records, h, version) <==> c <= version <= |h|)
    {
      var tail, _ := Scan(version);
      forall h, c: nat | Represents(records, h, c)
        ensures Represents(Compacted(records, version, data), h, version) <==> c <= version <= |h|
      {
        CompactKeepsIff(records, h, c, version, data);
      }
      records := [Marker(version, data)] + Operations(tail);
    }
  }

  // ----- runs -----

  datatype Action<D> = Append(events: seq<Op>) | Save(version: nat, data: D) | Compact(version: nat, data: D)

  function Step<D>(records: seq<Record<D>>, a: Action<D>): seq<Record<D>> {
    match a
    case Append(events) => records + Operations(events)
    case Save(version, data) => records + [Marker(version, data)]
    case Compact(version, data) => Compacted(records, version, data)
  }

  /** The plain log the stream refines: an ever-growing history and the last compaction point. */
  datatype Plain = Plain(history: seq<Op>, cut: nat)

  function PlainStep<D>(p: Plain, a: Action<D>): Plain {
    match a
    case Append(events) => p.(history := p.history + events)
    case Save(_, _) => p
    case Compact(version, _) => p.(cut := version)
  }

  /** What callers have to keep to: snapshots claim no operations that do not exist, and cuts never go back. */
  predicate Legal<D>(p: Plain, a: Action<D>) {
    match a
    case Append(_) => true
    case Save(version, _) => version <= |p.history|
    case Compact(version, _) => p.cut <= version <= |p.history|
  }

  function PlainAfter<D>(actions: seq<Action<D>>): Plain {
    if actions == [] then Plain([], 0) else PlainStep(PlainAfter(actions[..|actions| - 1]), actions[|actions| - 1])
  }

  function StreamAfter<D>(actions: seq<Action<D>>): seq<Record<D>> {
    if actions == [] then [] else Step(StreamAfter(actions[..|actions| - 1]), actions[|actions| - 1])
  }

  ghost predicate AllLegal<D>(actions: seq<Action<D>>) {
    forall k :: 0 <= k < |actions| ==> Legal(PlainAfter(actions[..k]), actions[k])
  }

  /**
   * Over any sequence of legal actions the stream refines the plain log: its count is the number of
   * operations ever appended, and a read at or after the last cut returns the whole rest of the history.
   */
  lemma {:induction false} StreamRefinesLog<D>(actions: seq<Action<D>>)
    requires AllLegal(actions)
    ensures Represents(StreamAfter(actions), PlainAfter(actions).history, PlainAfter(actions).cut)
  {
    if actions == [] {
      EmptyRepresents<D>();
    } else {
      var rest, a := actions[..|actions| - 1], actions[|actions| - 1];
      forall k | 0 <= k < |rest|
        ensures Legal(PlainAfter(rest[..k]), rest[k])
      {
        assert rest[..k] == actions[..k] && rest[k] == actions[k];
      }
      StreamRefinesLog(rest);
      assert Legal(PlainAfter(rest), a);
      var records, p := StreamAfter(rest), PlainAfter(rest);
      match a
      case Append(events) => OperationsExtend(records, p.history, p.cut, events);
      case Save(version, data) => MarkerKeepsIff(records, p.history, p.cut, version, data);
      case Compact(version, data) => CompactKeepsIff(records, p.history, p.cut, version, data);
    }
  }
}
