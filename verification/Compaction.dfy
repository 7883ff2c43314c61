/** engine/snapshot.go over store/jsonl/jsonl.go: reopening and catching up on a stream that has been compacted. */
module Compaction {
  import opened Runs
  import opened Sequences
  import opened Line
  import opened Strategies
  import opened Storage
  import opened Histories
  import opened Jsonl
  import opened Engines

  // ----- what the markers say -----

  /** The data of a marker describes the part of the history its version covers; loading sets the version. */
  ghost predicate Describes(data: Snapshot, version: nat, history: seq<Op>) {
    SnapshotOf(data.(version := version), history)
  }

  ghost predicate MarkerFits(r: Record<Snapshot>, history: seq<Op>) {
    r.Marker? ==> Describes(r.data, r.version, history)
  }

  /** Some marker covers everything that was compacted away. */
  ghost predicate CutIsCovered(records: seq<Record<Snapshot>>, cut: nat) {
    cut > 0 ==> exists k :: 0 <= k < |records| && records[k].Marker? && records[k].version >= cut
  }

  /** A stream for a history with unique ids, whose markers all describe it and make up for what was cut. */
  ghost predicate Preserved(records: seq<Record<Snapshot>>, history: seq<Op>, cut: nat) {
    && Represents(records, history, cut) && UniqueIds(history) && CutIsCovered(records, cut)
    && forall k :: 0 <= k < |records| ==> MarkerFits(records[k], history)
  }

  /** What an engine has to keep to: ids stay unique, and snapshots describe what they claim to cover. */
  ghost predicate Fits(history: seq<Op>, a: Action<Snapshot>) {
    match a
    case Append(events) => UniqueIds(history + events)
    case Save(version, data) => Describes(data, version, history)
    case Compact(version, data) => Describes(data, version, history)
  }

  ghost predicate AllFit(actions: seq<Action<Snapshot>>) {
    forall k :: 0 <= k < |actions| ==> Fits(PlainAfter(actions[..k]).history, actions[k])
  }

  lemma FitsLater(r: Record<Snapshot>, history: seq<Op>, more: seq<Op>)
    requires MarkerFits(r, history)
    ensures MarkerFits(r, history + more)
  {
    if r.Marker? {
      assert (history + more)[..r.version] == history[..r.version];
    }
  }

  lemma AppendPreserves(records: seq<Record<Snapshot>>, history: seq<Op>, cut: nat, events: seq<Op>)
    requires Preserved(records, history, cut) && UniqueIds(history + events)
    ensures Preserved(records + Operations(events), history + events, cut)
  {
    var more := records + Operations(events);
    OperationsExtend(records, history, cut, events);
    forall k | 0 <= k < |more|
      ensures MarkerFits(more[k], history + events)
    {
      if k < |records| { FitsLater(records[k], history, events); }
    }
    if cut > 0 {
      var k :| 0 <= k < |records| && records[k].Marker? && records[k].version >= cut;
      assert more[k] == records[k];
    }
  }

  lemma SavePreserves(records: seq<Record<Snapshot>>, history: seq<Op>, cut: nat, version: nat, data: Snapshot)
    requires Preserved(records, history, cut) && Describes(data, version, history)
    ensures Preserved(records + [Marker(version, data)], history, cut)
  {
    MarkerKeepsIff(records, history, cut, version, data);
    if cut > 0 {
      var k :| 0 <= k < |records| && records[k].Marker? && records[k].version >= cut;
      assert (records + [Marker(version, data)])[k] == records[k];
    }
  }

  lemma CompactPreserves(records: seq<Record<Snapshot>>, history: seq<Op>, cut: nat, version: nat, data: Snapshot)
    requires Preserved(records, history, cut) && Describes(data, version, history) && cut <= version
    ensures Preserved(Compacted(records, version, data), history, version)
  {
    CompactKeepsIff(records, history, cut, version, data);
    var r := Compacted(records, version, data);
    assert r[0].Marker? && r[0].version >= version;
  }

  /** Over any run of legal actions by engines that save what they know, the stream keeps the whole history. */
  lemma {:induction false} RunsPreserve(actions: seq<Action<Snapshot>>)
    requires AllLegal(actions) && AllFit(actions)
    ensures Preserved(StreamAfter(actions), PlainAfter(actions).history, PlainAfter(actions).cut)
  {
    if actions == [] {
      EmptyRepresents<Snapshot>();
    } else {
      var rest, a := actions[..|actions| - 1], actions[|actions| - 1];
      forall k | 0 <= k < |rest|
        ensures Legal(PlainAfter(rest[..k]), rest[k]) && Fits(PlainAfter(rest[..k]).history, rest[k])
      {
        assert rest[..k] == actions[..k] && rest[k] == actions[k];
      }
      RunsPreserve(rest);
      assert Legal(PlainAfter(rest), a) && Fits(PlainAfter(rest).history, a);
      var records, p := StreamAfter(rest), PlainAfter(rest);
      match a
      case Append(events) => AppendPreserves(records, p.history, p.cut, events);
      case Save(version, data) => SavePreserves(records, p.history, p.cut, version, data);
      case Compact(version, data) => CompactPreserves(records, p.history, p.cut, version, data);
    }
  }

  // ----- reopening -----

  /** The newest marker, when it is of the strategy. */
  function Usable(records: seq<Record<Snapshot>>, s: Strategy): Option<Record<Snapshot>> {
    var newest := Newest(records);
    if newest.Some? && newest.value.Marker? && newest.value.data.strategy == s then newest else None
  }

  /** What an engine of a strategy knows after opening a stream. */
  function Reopened(records: seq<Record<Snapshot>>, s: Strategy): Known<Edit> {
    match Usable(records, s)
    case Some(r) =>
      if r.Marker? then FoldOps(FoldOps(map[], After(records, r.version)), r.data.ops) else map[]
    case None => FoldOps(map[], After(records, 0))
  }

  /** The newest marker covers the cut and describes its part of the history. */
  lemma NewestCovers(records: seq<Record<Snapshot>>, history: seq<Op>, cut: nat)
    requires Preserved(records, history, cut)
    ensures Newest(records).None? ==> cut == 0
    ensures var n := Newest(records);
      n.Some? ==> n.value.Marker? && cut <= n.value.version <= |history| && Describes(n.value.data, n.value.version, history)
  {
    NewestIsHighest(records);
    if Newest(records).Some? {
      var k :| 0 <= k < |records| && records[k] == Newest(records).value;
      assert MarkerFits(records[k], history);
    }
  }

  lemma HeadListed(history: seq<Op>, v: nat)
    requires UniqueIds(history) && v <= |history|
    ensures history == history[..v] + history[v..] && Recorded(FoldOps(map[], history[..v])) == Elements(history[..v])
  {
    assert history == history[..v] + history[v..];
    TailUnique(history[..v], history[v..]);
    FoldOfUnique(history[..v]);
  }

  /** Opening with a usable snapshot knows the whole history, however often it was compacted. */
  lemma ReopenKnowsAll(records: seq<Record<Snapshot>>, history: seq<Op>, cut: nat, s: Strategy)
    requires Preserved(records, history, cut) && Usable(records, s).Some?
    ensures Reopened(records, s) == FoldOps(map[], history)
  {
    NewestCovers(records, history, cut);
    var r := Newest(records).value;
    ReadIsCompleteIff(records, history, cut, r.version);
    HeadListed(history, r.version);
    PrefixThenRest(history[..r.version], history[r.version..], r.data.ops);
  }

  /** What is left out of a history of unique ids is in none of the rest. */
  lemma GapIsNotKept(history: seq<Op>, i: nat, j: nat, k: nat)
    requires UniqueIds(history) && i < j <= |history| && k < |history[..i] + history[j..]|
    ensures (history[..i] + history[j..])[k].id != history[i].id
  {
    if k < i {
      assert (history[..i] + history[j..])[k] == history[k];
    } else {
      assert (history[..i] + history[j..])[k] == history[k - i + j];
    }
  }

  lemma GapIsMissed(history: seq<Op>, i: nat, j: nat)
    requires UniqueIds(history) && i < j <= |history|
    ensures FoldOps(map[], history[..i] + history[j..]) != FoldOps(map[], history)
  {
    var kept, id := history[..i] + history[j..], history[i].id;
    FoldIds(map[], kept, id);
    FoldIds(map[], history, id);
    forall k | 0 <= k < |kept|
      ensures kept[k].id != id
    {
      GapIsNotKept(history, i, j, k);
    }
    assert HasId(history, id);
  }

  /** Leaving out a part of a history knows everything if and only if the part is empty. */
  lemma GapIsMissedIff(history: seq<Op>, i: nat, j: nat)
    requires UniqueIds(history) && i <= j <= |history|
    ensures FoldOps(map[], history[..i] + history[j..]) == FoldOps(map[], history) <==> i == j
  {
    if i == j {
      assert history == history[..i] + history[j..];
    } else {
      GapIsMissed(history, i, j);
    }
  }

  lemma ReadFrom(records: seq<Record<Snapshot>>, history: seq<Op>, cut: nat, v: nat, from: nat)
    requires Represents(records, history, cut) && v <= |history| && from == (if v < cut then cut else v)
    ensures from <= |history| && After(records, v) == history[from..]
  {
    assert After(records, v) == Suffix(history, Later(v, cut));
  }

  /** Opening without a usable snapshot knows the whole history if and only if nothing was compacted away. */
  lemma ReopenOtherIff(records: seq<Record<Snapshot>>, history: seq<Op>, cut: nat, s: Strategy)
    requires Preserved(records, history, cut) && Usable(records, s).None?
    ensures Reopened(records, s) == FoldOps(map[], history) <==> cut == 0
  {
    ReadFrom(records, history, cut, 0, cut);
    GapIsMissedIff(history, 0, cut);
    assert history[..0] + history[cut..] == history[cut..];
  }

  /**
   * An engine that knows the first `known` operations catches up completely if and only if no later
   * part was compacted away: what lies between its version and the cut is never read, though its
   * version moves past it.
   */
  lemma CatchUpIsCompleteIff(records: seq<Record<Snapshot>>, history: seq<Op>, cut: nat, known: nat)
    requires Preserved(records, history, cut) && known <= |history|
    ensures FoldOps(FoldOps(map[], history[..known]), After(records, known)) == FoldOps(map[], history) <==> cut <= known
  {
    var from := if known < cut then cut else known;
    ReadFrom(records, history, cut, known, from);
    FoldConcat(map[], history[..known], history[from..]);
    GapIsMissedIff(history, known, from);
  }

  /** Two operations are appended and compacted away by an engine that knows both. */
  function TwoThenCompact(o: Op, p: Op, data: Snapshot): seq<Action<Snapshot>> {
    [Append([o]), Append([p]), Compact(2, data)]
  }

  /** The snapshot of an engine that knows two operations. */
  method SnapshotOfTwo(s: Strategy, o: Op, p: Op) returns (data: Snapshot)
    requires o.id != p.id
    ensures Describes(data, 2, [o, p]) && data.strategy == s
  {
    var history := [o, p];
    var known: Known<Edit> := map[o.id := o, p.id := p];
    assert history[..2] == history && history[..1] == [o] && history[..0] == [];
    assert FoldOps(map[], history) == known by { KnownOfTwo(o, p); }
    FoldOfUnique(history);
    var view, segments, adds, removes := Rebuild(s, known);
    data := Snapshot(s, 2, view, segments, adds, removes, history);
  }

  lemma KnownOfTwo(o: Op, p: Op)
    requires o.id != p.id
    ensures FoldOps(map[], [o, p]) == map[o.id := o, p.id := p]
  {
    assert [o, p][..1] == [o] && [o][..0] == [];
    assert FoldOps(map[], [o]) == map[o.id := o];
  }

  lemma PlainMore(actions: seq<Action<Snapshot>>, k: nat)
    requires k < |actions|
    ensures PlainAfter(actions[..k + 1]) == PlainStep(PlainAfter(actions[..k]), actions[k])
  {
    assert actions[..k + 1][..k] == actions[..k];
  }

  lemma TwoAreLegal(o: Op, p: Op, data: Snapshot)
    requires o.id != p.id && Describes(data, 2, [o, p])
    ensures AllLegal(TwoThenCompact(o, p, data)) && AllFit(TwoThenCompact(o, p, data))
    ensures PlainAfter(TwoThenCompact(o, p, data)) == Plain([o, p], 2)
  {
    var actions, history := TwoThenCompact(o, p, data), [o, p];
    PlainMore(actions, 0);
    PlainMore(actions, 1);
    PlainMore(actions, 2);
    assert [] + [o] == [o] && [o] + [p] == history;
    assert actions[..0] == [] && actions[..3] == actions;
  }

  /** A legal run after which an engine that knew the first operation only never learns of the second. */
  lemma StaleEngineMisses(o: Op, p: Op, data: Snapshot)
    requires o.id != p.id && Describes(data, 2, [o, p])
    ensures AllLegal(TwoThenCompact(o, p, data)) && AllFit(TwoThenCompact(o, p, data))
    ensures PlainAfter(TwoThenCompact(o, p, data)) == Plain([o, p], 2)
    ensures FoldOps(FoldOps(map[], [o]), After(StreamAfter(TwoThenCompact(o, p, data)), 1)) != FoldOps(map[], [o, p])
  {
    TwoAreLegal(o, p, data);
    RunsPreserve(TwoThenCompact(o, p, data));
    CatchUpIsCompleteIff(StreamAfter(TwoThenCompact(o, p, data)), [o, p], 2, 1);
    assert [o, p][..1] == [o];
  }

  // ----- reload over the stream -----

  /**
   * reload over a stream: loads the newest snapshot when it is of this strategy, and replays the rest.
   * An engine of the snapshot's strategy knows the whole history.
   */
  method Reopen(stream: Stream<Snapshot>, s: Strategy, clock: Clock, ghost history: seq<Op>, ghost cut: nat)
    returns (ops: Known<Edit>, version: nat, view: seq<Interval>, segments: seq<Segment>, dirty: bool)
    requires Preserved(stream.records, history, cut)
    modifies clock
    ensures version == |history|
    ensures ops == FoldOps(map[], if Usable(stream.records, s).Some? then history else history[cut..])
    ensures dirty <==> Usable(stream.records, s).Some? && !s.LWW? && !s.FWW?
    ensures !dirty ==> IsView(s, ops, view, segments)
  {
    NewestCovers(stream.records, history, cut);
    view, segments, dirty := [], [], false;
    var snap := stream.LoadSnapshot();
    if snap.Some? && snap.value.data.strategy == s {
      var from, data := snap.value.version, snap.value.data;
      var delta, count := stream.Read(from);
      ReopenKnowsAll(stream.records, history, cut, s);
      version := count;
      ops := Journals.Record(clock, map[], delta);
      ops := Journals.Record(clock, ops, data.ops);
      if s.LWW? || s.FWW? {
        HeadListed(history, from);
        Journals.WholeLog(history, from, data.ops);
        segments, view := ReplayView(s, data.segments, delta, Elements(data.ops), ops);
      } else {
        dirty := true;
      }
    } else {
      var delta, count := stream.Read(0);
      version := count;
      ops := Journals.Record(clock, map[], delta);
      FoldIsById(map[], delta);
      var adds, removes;
      view, segments, adds, removes := Rebuild(s, ops);
    }
  }
}
