/** engine/engine.go and engine/snapshot.go: the replicated set of intervals. */
module Engines {
  import opened Line
  import opened Intervals
  import opened Runs
  import opened Sequences
  import opened IntervalSets
  import opened Entries
  import opened Strategies
  import opened Materialization
  import opened Storage
  import opened Histories
  import opened Journals
  import opened Replication

  datatype Snapshot = Snapshot(
    strategy: Strategy, version: nat, intervals: seq<Interval>, segments: seq<Segment>,
    adds: seq<Interval>, removes: seq<Interval>, ops: seq<Op>)

  // ----- the cached view -----

  /** The view (and the segments behind it) are those of the known operations. */
  ghost predicate IsView(s: Strategy, known: Known<Edit>, view: seq<Interval>, segments: seq<Segment>) {
    && IsCanonical(view) && (forall p :: Within(view, p) <==> Rule(s, Recorded(known), p))
    && (s.LWW? || s.FWW? ==> IsSegmentation(s, Recorded(known), segments))
  }

  /** The canonical points that some known operation of the kind covers. */
  ghost predicate IsKind(list: seq<Interval>, known: Known<Edit>, kind: Kind) {
    IsCanonical(list) && forall p :: Within(list, p) <==> Covered(Recorded(known), kind, p)
  }

  /** The additions and removals a set strategy keeps beside its view. */
  ghost predicate AreKinds(s: Strategy, known: Known<Edit>, adds: seq<Interval>, removes: seq<Interval>) {
    && (s.AdditiveWins? || s.GrowOnly? ==> IsKind(adds, known, Add))
    && (s.AdditiveWins? ==> IsKind(removes, known, Remove))
  }

  lemma SegmentationRule(s: Strategy, ops: set<Op>, segs: seq<Segment>, p: Fine)
    requires (s.LWW? || s.FWW?) && IsSegmentation(s, ops, segs)
    ensures AddDecided(segs, p) <==> Rule(s, ops, p)
  {
    if AddDecided(segs, p) {
      var k :| 0 <= k < |segs| && segs[k].winner.kind.Add? && Holds(segs[k].interval, p);
      var o := SegmentationClaims(s, ops, segs, k, p);
    }
    if Rule(s, ops, p) {
      var o :| Decides(s, ops, o, p) && o.edit.kind.Add?;
      var k := SegmentationAnswers(s, ops, segs, o, p);
    }
  }

  /** The same knowledge gives the same view, however it was reached: by folding, rebuilding, or restoring. */
  lemma ViewIsDetermined(s: Strategy, known: Known<Edit>, view: seq<Interval>, segs: seq<Segment>, view': seq<Interval>,
                         segs': seq<Segment>)
    requires ById(known) && IsView(s, known, view, segs) && IsView(s, known, view', segs')
    ensures view == view' && (s.LWW? || s.FWW? ==> segs == segs')
  {
    forall x
      ensures Covers(view, x) <==> Covers(view', x)
    {
      WithinIsCovers(view, x);
      WithinIsCovers(view', x);
    }
    CanonicalSetsAreEqual(view, view');
    ByIdIsKeyed(known);
    if s.LWW? || s.FWW? { SegmentationIsUnique(s, Recorded(known), segs, segs'); }
  }

  /** The segments of the known operations, extended by replayed ones, when all have different keys. */
  method ReplaySegments(s: Strategy, segments: seq<Segment>, delta: seq<Op>, ghost base: set<Op>) returns (out: seq<Segment>)
    requires s.LWW? || s.FWW?
    ensures Keyed(base + Elements(delta)) && IsSegmentation(s, base, segments) ==> IsSegmentation(s, base + Elements(delta), out)
  {
    out := segments;
    assert base + Elements(delta[..0]) == base;
    for k := 0 to |delta|
      invariant Keyed(base + Elements(delta)) && IsSegmentation(s, base, segments) ==>
        IsSegmentation(s, base + Elements(delta[..k]), out)
    {
      assert delta[..k + 1] == delta[..k] + [delta[k]];
      assert base + Elements(delta[..k + 1]) == (base + Elements(delta[..k])) + {delta[k]};
      out := ReplayOne(s, out, delta[k], base + Elements(delta[..k]));
    }
    assert delta[..|delta|] == delta;
  }

  method ReplayOne(s: Strategy, segments: seq<Segment>, o: Op, ghost base: set<Op>) returns (out: seq<Segment>)
    requires s.LWW? || s.FWW?
    ensures Keyed(base + {o}) && IsSegmentation(s, base, segments) ==> IsSegmentation(s, base + {o}, out)
  {
    assert Elements([o]) == {o};
    var one := Segments(s, [o]);
    out := CombineSegments(s, segments, one);
    if Keyed(base + {o}) && IsSegmentation(s, base, segments) {
      CombineIsUnion(s, base, {o}, segments, one, out);
    }
  }

  /** The view of a snapshot's segments extended by the replayed tail. */
  method ReplayView(s: Strategy, segments: seq<Segment>, delta: seq<Op>, ghost base: set<Op>, ghost known: Known<Edit>)
    returns (segs: seq<Segment>, view: seq<Interval>)
    requires (s.LWW? || s.FWW?) && IsSegmentation(s, base, segments)
    ensures Keyed(Recorded(known)) && base + Elements(delta) == Recorded(known) ==> IsView(s, known, view, segs)
  {
    segs := ReplaySegments(s, segments, delta, base);
    if Keyed(Recorded(known)) && base + Elements(delta) == Recorded(known) {
      forall p { SegmentationRule(s, Recorded(known), segs, p); }
    }
    view := ToIntervals(segs);
  }

  /** The view of the known operations, and what each strategy makes it of. */
  method Rebuild(s: Strategy, known: Known<Edit>)
    returns (view: seq<Interval>, segments: seq<Segment>, adds: seq<Interval>, removes: seq<Interval>)
    requires ById(known)
    ensures IsView(s, known, view, segments) && AreKinds(s, known, adds, removes)
  {
    segments, adds, removes := [], [], [];
    var list := OpsList(known);
    ByIdIsKeyed(known);
    match s
    case LWW | FWW =>
      segments := Segments(s, list);
      forall p { SegmentationRule(s, Recorded(known), segments, p); }
      view := ToIntervals(segments);
    case AdditiveWins =>
      adds := IntervalsOf(list, Add);
      removes := IntervalsOf(list, Remove);
      view := Difference(adds, removes);
    case GrowOnly =>
      adds := IntervalsOf(list, Add);
      view := adds;
  }

  /** A stored snapshot describes the log prefix of its version. */
  ghost predicate SnapshotOf(snap: Snapshot, log: seq<Op>) {
    && snap.version <= |log| && UniqueIds(snap.ops) && Elements(snap.ops) == Recorded(FoldOps(map[], log[..snap.version]))
    && IsView(snap.strategy, FoldOps(map[], log[..snap.version]), snap.intervals, snap.segments)
    && (snap.strategy.AdditiveWins? ==> AreKinds(snap.strategy, FoldOps(map[], log[..snap.version]), snap.adds, snap.removes))
  }

  ghost predicate SnapshotFits(snap: Option<Snapshot>, log: seq<Op>) {
    snap.Some? ==> SnapshotOf(snap.value, log)
  }

  lemma SnapshotStillFits(snap: Option<Snapshot>, log: seq<Op>, log': seq<Op>)
    requires SnapshotFits(snap, log) && log <= log'
    ensures SnapshotFits(snap, log')
  {
    if snap.Some? { assert log'[..snap.value.version] == log[..snap.value.version]; }
  }

  /** The snapshot, if it is one an engine of the strategy restores. */
  predicate Restores(snap: Option<Snapshot>, s: Strategy) {
    snap.Some? && snap.value.strategy == s
  }

  /** What an engine of a strategy knows after opening the store. */
  ghost function Loaded(log: seq<Op>, snap: Option<Snapshot>, s: Strategy): Known<Edit>
    requires SnapshotFits(snap, log)
  {
    if Restores(snap, s) then FoldOps(FoldOps(map[], log[snap.value.version..]), snap.value.ops) else FoldOps(map[], log)
  }

  /** Opening knows the whole log if and only if nothing past a restored snapshot replaces an operation of it. */
  lemma LoadedIsWholeIff(log: seq<Op>, snap: Option<Snapshot>, s: Strategy)
    requires SnapshotFits(snap, log)
    ensures Loaded(log, snap, s) == FoldOps(map[], log) <==>
      (Restores(snap, s) ==> RecordAlike(FoldOps(map[], log[..snap.value.version]), FoldOps(map[], log[snap.value.version..])))
  {
    if Restores(snap, s) {
      var v := snap.value.version;
      assert log == log[..v] + log[v..];
      PrefixThenRestIff(log[..v], log[v..], snap.value.ops);
    }
  }

  datatype Outcome = Applied | Conflict

  class Engine {
    const store: Store<Op, Snapshot>
    const strategy: Strategy
    const clock: Clock
    const snapshotEvery: nat
    var ops: Known<Edit>
    var view: seq<Interval>
    var segments: seq<Segment>
    var adds: seq<Interval>
    var removes: seq<Interval>
    var version: nat
    var since: nat
    var dirty: bool

    ghost function Rep(): Replica<Edit>
      reads this, clock
    {
      Replica(ops, version, clock.last)
    }

    /** The engine knows a prefix of the log, and a view not marked dirty is the view of what it knows. */
    ghost predicate Valid()
      reads this, store, clock
    {
      && Faithful(store.ops, Rep()) && SnapshotFits(store.snapshot, store.ops)
      && (!dirty ==> IsView(strategy, ops, view, segments) && AreKinds(strategy, ops, adds, removes))
    }

    /** Open: loads the snapshot when it is of this strategy, and replays the rest of the log. */
    constructor (store: Store<Op, Snapshot>, strategy: Strategy, clock: Clock, snapshotEvery: nat)
      requires SnapshotFits(store.snapshot, store.ops)
      modifies clock
      ensures ops == Loaded(store.ops, store.snapshot, strategy) && version == |store.ops|
      ensures (Restores(store.snapshot, strategy) ==> UniqueIds(store.ops)) ==> Valid() && Opens(store.ops, Rep())
      ensures this.store == store && this.strategy == strategy && this.clock == clock && this.snapshotEvery == snapshotEvery
    {
      this.store, this.strategy, this.clock, this.snapshotEvery := store, strategy, clock, snapshotEvery;
      ops, view, segments, adds, removes, version, since, dirty := map[], [], [], [], [], 0, 0, false;
      new;
      Reload();
    }

    /** reload: rebuilds the state of a new engine from the store. */
    method Reload()
      requires ops == map[] && !dirty && SnapshotFits(store.snapshot, store.ops)
      modifies this, clock
      ensures ops == Loaded(store.ops, store.snapshot, strategy) && version == |store.ops|
      ensures (Restores(store.snapshot, strategy) ==> UniqueIds(store.ops)) ==> Valid() && Opens(store.ops, Rep())
    {
      var snap := store.LoadSnapshot();
      var compatible := snap.Some? && snap.value.strategy == strategy;
      var from := if compatible then snap.value.version else 0;
      var more, v := store.Read(from);
      version := v;
      ops := Record(clock, ops, more);
      if compatible {
        Restore(snap.value, more);
      } else {
        FoldIsById(map[], store.ops);
        MaterializeAll();
      }
      if ops == FoldOps(map[], store.ops) && Observed(store.ops, clock.last) { OpenIsFaithful(store.ops, Rep()); }
    }

    /**
     * restore: the snapshot's operations go over the replayed tail. With unique ids that is the whole
     * log, and the snapshot's view extended by the tail is its view.
     */
    method Restore(snap: Snapshot, delta: seq<Op>)
      requires SnapshotOf(snap, store.ops) && snap.strategy == strategy && !dirty
      requires delta == store.ops[snap.version..] && ops == FoldOps(map[], delta) && Observed(delta, clock.last)
      modifies this, clock
      ensures ops == FoldOps(FoldOps(map[], delta), snap.ops) && version == old(version)
      ensures UniqueIds(store.ops) ==> ops == FoldOps(map[], store.ops) && Observed(store.ops, clock.last)
      ensures UniqueIds(store.ops) && !dirty ==> IsView(strategy, ops, view, segments) && AreKinds(strategy, ops, adds, removes)
    {
      ops := Record(clock, ops, snap.ops);
      if UniqueIds(store.ops) { WholeRestored(store.ops, snap, delta, clock.last); }
      ExtendView(snap, delta);
    }

    /** The view of the snapshot extended by the tail, or left to be rebuilt. */
    method ExtendView(snap: Snapshot, delta: seq<Op>)
      requires SnapshotOf(snap, store.ops) && snap.strategy == strategy && !dirty
      modifies this`segments, this`view, this`dirty
      ensures dirty || (Keyed(Recorded(ops)) && Elements(snap.ops) + Elements(delta) == Recorded(ops) ==>
        IsView(strategy, ops, view, segments) && AreKinds(strategy, ops, adds, removes))
    {
      match strategy
      case LWW | FWW =>
        segments, view := ReplayView(strategy, snap.segments, delta, Elements(snap.ops), ops);
      case AdditiveWins => dirty := true;
      case GrowOnly => dirty := true;
    }

    /** materializeAll: rebuilds the view and what it is made of from the known operations. */
    method MaterializeAll()
      requires ById(ops)
      modifies this`view, this`segments, this`adds, this`removes
      ensures IsView(strategy, ops, view, segments) && AreKinds(strategy, ops, adds, removes)
    {
      view, segments, adds, removes := Rebuild(strategy, ops);
    }

    /** ensureView: rebuilds a dirty view. */
    method EnsureView()
      requires Valid()
      modifies this`view, this`segments, this`adds, this`removes, this`dirty
      ensures Valid() && !dirty
    {
      if dirty {
        FoldIsById(map[], store.ops[..version]);
        MaterializeAll();
        dirty := false;
      }
    }

    /** Materialize: the canonical view of exactly the operations the engine knows. */
    method Materialize() returns (out: seq<Interval>)
      requires Valid()
      modifies this`view, this`segments, this`adds, this`removes, this`dirty
      ensures Valid() && IsCanonical(out) && forall p :: Within(out, p) <==> Rule(strategy, Recorded(ops), p)
    {
      EnsureView();
      out := view;
    }

    /** fold: records appended operations, marks the view dirty, and snapshots when one is due. */
    method Fold(appended: seq<Op>, ghost log: seq<Op>)
      requires Faithful(log, Rep()) && store.ops == log + appended && version == |log|
      requires SnapshotFits(store.snapshot, store.ops)
      modifies this, clock, store`snapshot
      ensures Valid() && Folds(old(Rep()), appended, old(clock.last), Rep())
      ensures if snapshotEvery > 0 && old(since) + |appended| >= snapshotEvery then since == 0 && Saved()
        else since == old(since) + |appended| && store.snapshot == old(store.snapshot) && dirty
    {
      ops := Record(clock, ops, appended);
      dirty := true;
      version := version + |appended|;
      since := since + |appended|;
      FoldedIsFaithful(log, appended, old(Rep()), Rep());
      if snapshotEvery > 0 && since >= snapshotEvery {
        TakeSnapshot();
      }
    }

    /** One turn of applyLocked: append the unseen operations at the known version. */
    method Attempt(batch: seq<Op>) returns (outcome: Outcome, ghost stamped: seq<Op>)
      requires Valid()
      modifies this, clock, store
      ensures Valid() && store.ops == old(store.ops) + (if outcome.Applied? then stamped else [])
      ensures old(Unseen(ops, batch)) == [] ==> outcome == Applied && stamped == [] && Rep() == old(Rep())
      ensures old(Unseen(ops, batch)) != [] ==>
        && Attempts(old(store.ops), old(Rep()), batch, stamped, store.ops, Rep())
        && (outcome.Applied? <==> old(version == |store.ops|))
    {
      ghost var log, r := store.ops, Rep();
      var incoming := UnseenOf(ops, batch);
      if |incoming| == 0 { return Applied, []; }
      var marked := Stamp(clock, incoming);
      stamped := marked;
      ghost var mid := clock.last;
      var ok := store.Append(version, marked);
      if !ok {
        assert AttemptsAt(log, r, batch, stamped, mid, store.ops, Rep());
        return Conflict, stamped;
      }
      AppendedFits(log, r, stamped, mid, store.snapshot);
      Fold(marked, log);
      assert AttemptsAt(log, r, batch, stamped, mid, store.ops, Rep());
      return Applied, stamped;
    }

    /**
     * applyLocked: catches up and retries when other writers were first, giving up after the fourth
     * conflict. `rivals[k]` is what other engines append before attempt `k`.
     */
    method ApplyLocked(batch: seq<Op>, rivals: nat -> seq<Op>)
      returns (outcome: Outcome, ghost stamped: seq<Op>, ghost turns: nat)
      requires Valid()
      modifies this, clock, store
      ensures Valid() && turns <= 3
      ensures store.ops == LogAt(old(store.ops), rivals, turns + 1) + (if outcome.Applied? then stamped else [])
      ensures outcome.Applied? ==> IsNewPart(LogAt(old(store.ops), rivals, turns + 1), batch, stamped)
      ensures outcome.Applied? ==> forall k :: 0 <= k < |batch| ==> batch[k].id in ops
      ensures outcome.Conflict? ==> turns == 3 && forall k: nat :: 1 <= k <= 3 ==> rivals(k) != []
    {
      ghost var log := store.ops;
      var attempt: nat := 0;
      while true
        invariant attempt <= 3 && Valid() && store.ops == LogAt(log, rivals, attempt)
        invariant attempt > 0 ==> version == |store.ops|
        invariant forall k: nat :: 1 <= k < attempt ==> rivals(k) != []
        decreases 4 - attempt
      {
        turns := attempt;
        outcome, stamped := Turn(batch, rivals(attempt), LogAt(log, rivals, attempt + 1), attempt < 3);
        if outcome.Applied? || attempt >= 3 { return; }
        attempt := attempt + 1;
      }
    }

    /** Others append, then one attempt, then a catch-up when it failed and another attempt is left. */
    method Turn(batch: seq<Op>, more: seq<Op>, ghost log': seq<Op>, again: bool)
      returns (outcome: Outcome, ghost stamped: seq<Op>)
      requires Valid() && log' == store.ops + more
      modifies this, clock, store
      ensures Valid() && store.ops == log' + (if outcome.Applied? then stamped else [])
      ensures outcome.Applied? ==> IsNewPart(log', batch, stamped)
      ensures outcome.Applied? ==> forall k :: 0 <= k < |batch| ==> batch[k].id in ops
      ensures outcome.Conflict? ==> old(version) != |log'| && (again ==> version == |store.ops|)
    {
      Interfere(more, log');
      ghost var known, r := ops, Rep();
      outcome, stamped := Attempt(batch);
      if outcome.Applied? {
        BatchIsKnown(known, batch, stamped, ops);
        AppliedIsNewPart(log', r, batch, stamped, store.ops, Rep());
      } else if again {
        CatchUp();
      }
    }

    /** Other engines append to the shared store. */
    method Interfere(more: seq<Op>, ghost log': seq<Op>)
      requires Valid() && log' == store.ops + more
      modifies store`ops
      ensures Valid() && store.ops == log'
    {
      ghost var log := store.ops;
      store.ops := store.ops + more;
      FaithfulSurvives(log, store.ops, Rep());
      SnapshotStillFits(store.snapshot, log, store.ops);
    }

    /** catchUp: reads what other engines appended since the known version. */
    method CatchUp()
      requires Valid()
      modifies this, clock
      ensures Valid() && CatchesUp(store.ops, old(Rep()), Rep()) && version == |store.ops|
    {
      var more, v := store.Read(version);
      assert more == store.ops[version..];
      ops := Record(clock, ops, more);
      dirty := true;
      version := v;
      CatchUpIsFaithful(store.ops, old(Rep()), Rep());
    }

    /** The store holds a snapshot of the engine's own state. */
    ghost predicate Saved()
      reads this, store
    {
      && store.snapshot.Some? && !dirty
      && var snap := store.snapshot.value;
      && snap.strategy == strategy && snap.version == version && snap.intervals == view && Elements(snap.ops) == Recorded(ops)
      && snap.segments == (if strategy.LWW? || strategy.FWW? then segments else [])
      && snap.adds == (if strategy.AdditiveWins? then adds else [])
      && snap.removes == (if strategy.AdditiveWins? then removes else [])
    }

    /** snapshot: stores the view and the version it covers. */
    method TakeSnapshot()
      requires Valid()
      modifies this, store`snapshot
      ensures Valid() && !dirty && ops == old(ops) && version == old(version)
      ensures since == 0 && Saved()
    {
      EnsureView();
      FoldIsById(map[], store.ops[..version]);
      var list := OpsList(ops);
      var isWinnerBased := strategy.LWW? || strategy.FWW?;
      store.SaveSnapshot(Snapshot(strategy, version, view,
        if isWinnerBased then segments else [],
        if strategy.AdditiveWins? then adds else [],
        if strategy.AdditiveWins? then removes else [], list));
      since := 0;
    }
  }

  /** With unique ids the snapshot and the tail are the whole log. */
  lemma WholeRestored(log: seq<Op>, snap: Snapshot, delta: seq<Op>, clock: int)
    requires SnapshotOf(snap, log) && UniqueIds(log) && delta == log[snap.version..]
    requires Observed(delta, clock) && Observed(snap.ops, clock)
    ensures FoldOps(FoldOps(map[], delta), snap.ops) == FoldOps(map[], log) && Observed(log, clock)
    ensures Keyed(Recorded(FoldOps(map[], log))) && Elements(snap.ops) + Elements(delta) == Recorded(FoldOps(map[], log))
  {
    var head := log[..snap.version];
    SplitAt(log, snap.version);
    TailUnique(head, delta);
    FoldOfUnique(head);
    PrefixThenRest(head, delta, snap.ops);
    HeadObserved(head, delta, snap.ops, clock);
    WholeLog(log, snap.version, snap.ops);
  }

  /** A successful append leaves the snapshot fitting. */
  lemma AppendedFits(log: seq<Op>, r: Replica<Edit>, stamped: seq<Op>, mid: int, snap: Option<Snapshot>)
    requires Faithful(log, r) && r.version == |log| && SnapshotFits(snap, log) && r.clock <= mid
    ensures SnapshotFits(snap, log + stamped) && Faithful(log, r.(clock := mid))
  {
    SnapshotStillFits(snap, log, log + stamped);
    assert log[..|log|] == log;
  }
}
