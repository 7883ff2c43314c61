/** space/engine/engine.go and space/engine/snapshot.go: the replicated set of boxes. */
module BoxEngines {
  import opened Runs
  import opened Sequences
  import opened Entries
  import opened Boxes
  import opened BoxSubtraction
  import opened BoxSets
  import opened BoxDifference
  import opened BoxStrategies
  import opened BoxMaterialization
  import opened BoxViews
  import opened Storage
  import opened Histories
  import opened Replication
  import opened Journals
  import opened BoxHistories

  datatype Snapshot = Snapshot(strategy: Strategy, version: nat, boxes: View, adds: View, removes: View, ops: seq<Op>)

  /** The view and the covers behind it, unless marked dirty, are those of the operations `S`. */
  ghost predicate ViewHolds(s: Strategy, n: nat, S: set<Op>, view: View, adds: View, removes: View, dirty: bool) {
    && OfDims(Geo(view), n) && OfDims(Geo(adds), n) && OfDims(Geo(removes), n)
    && (!dirty ==> IsView(s, EffectiveSet(S), view, adds, removes))
  }

  /** The same, by the history the view follows. */
  ghost predicate Follows(s: Strategy, n: nat, hist: seq<Op>, view: View, adds: View, removes: View, dirty: bool) {
    forall u :: u == hist ==> FollowsOn(s, n, u, view, adds, removes, dirty)
  }

  ghost predicate FollowsOn(s: Strategy, n: nat, hist: seq<Op>, view: View, adds: View, removes: View, dirty: bool) {
    ViewHolds(s, n, Elements(hist), view, adds, removes, dirty)
  }

  lemma FollowsHolds(s: Strategy, n: nat, hist: seq<Op>, view: View, adds: View, removes: View, dirty: bool)
    ensures Follows(s, n, hist, view, adds, removes, dirty) <==> ViewHolds(s, n, Elements(hist), view, adds, removes, dirty)
  {
    assert FollowsOn(s, n, hist, view, adds, removes, dirty) <==> ViewHolds(s, n, Elements(hist), view, adds, removes, dirty);
  }

  /** A stored snapshot describes the log prefix of its version. */
  ghost predicate SnapshotOf(snap: Snapshot, log: seq<Op>, n: nat) {
    && snap.version <= |log| && Elements(snap.ops) == Elements(log[..snap.version]) && UniqueIds(snap.ops)
    && ViewHolds(snap.strategy, n, Elements(snap.ops), snap.boxes,
         if snap.strategy.AdditiveWins? then snap.adds else snap.boxes, snap.removes, false)
  }

  ghost predicate SnapshotFits(snap: Option<Snapshot>, log: seq<Op>, n: nat) {
    snap.Some? ==> SnapshotOf(snap.value, log, n)
  }

  lemma SnapshotStillFits(snap: Option<Snapshot>, log: seq<Op>, log': seq<Op>, n: nat)
    requires SnapshotFits(snap, log, n) && log <= log'
    ensures SnapshotFits(snap, log', n)
  {
    if snap.Some? { assert log'[..snap.value.version] == log[..snap.value.version]; }
  }

  /** What holds of an engine over boxes and its store between any two steps. */
  ghost predicate Sound(s: Strategy, n: nat, log: seq<Op>, snap: Option<Snapshot>, r: Replica<Edit>, dims: int,
                        view: View, adds: View, removes: View, dirty: bool) {
    && r.version <= |log|
    && forall hist :: hist == log[..r.version] ==> SoundOn(s, n, log, snap, r, dims, view, adds, removes, dirty, hist)
  }

  /** The same, by the part of the log the engine has folded. */
  ghost predicate SoundOn(s: Strategy, n: nat, log: seq<Op>, snap: Option<Snapshot>, r: Replica<Edit>, dims: int,
                          view: View, adds: View, removes: View, dirty: bool, hist: seq<Op>) {
    && Faithful(log, r) && IsLog(s, log, n) && SnapshotFits(snap, log, n) && (r.version > 0 ==> dims == n)
    && ViewHolds(s, n, Elements(hist), view, adds, removes, dirty)
  }

  /** Knowing the whole log. */
  lemma WholeIsSound(s: Strategy, n: nat, log: seq<Op>, snap: Option<Snapshot>, r: Replica<Edit>, dims: int,
                     view: View, adds: View, removes: View, dirty: bool)
    requires Faithful(log, r) && r.version == |log| && IsLog(s, log, n) && SnapshotFits(snap, log, n) && (log != [] ==> dims == n)
    requires ViewHolds(s, n, Elements(log), view, adds, removes, dirty)
    ensures Sound(s, n, log, snap, r, dims, view, adds, removes, dirty)
  {
    SplitAt(log, |log|);
    assert SoundOn(s, n, log, snap, r, dims, view, adds, removes, dirty, log[..r.version]);
  }

  /** Others append. */
  lemma SoundSurvives(s: Strategy, n: nat, log: seq<Op>, snap: Option<Snapshot>, r: Replica<Edit>, dims: int,
                      view: View, adds: View, removes: View, dirty: bool, log': seq<Op>)
    requires Sound(s, n, log, snap, r, dims, view, adds, removes, dirty) && log <= log' && IsLog(s, log', n)
    ensures Sound(s, n, log', snap, r, dims, view, adds, removes, dirty)
  {
    assert SoundOn(s, n, log, snap, r, dims, view, adds, removes, dirty, log[..r.version]);
    FaithfulSurvives(log, log', r);
    SnapshotStillFits(snap, log, log', n);
    assert log'[..r.version] == log[..r.version];
    assert SoundOn(s, n, log', snap, r, dims, view, adds, removes, dirty, log'[..r.version]);
  }

  /** Stamping moves the clock. */
  lemma SoundLater(s: Strategy, n: nat, log: seq<Op>, snap: Option<Snapshot>, r: Replica<Edit>, dims: int,
                   view: View, adds: View, removes: View, dirty: bool, clock: int)
    requires Sound(s, n, log, snap, r, dims, view, adds, removes, dirty) && r.clock <= clock
    ensures Sound(s, n, log, snap, r.(clock := clock), dims, view, adds, removes, dirty)
  {
    assert SoundOn(s, n, log, snap, r, dims, view, adds, removes, dirty, log[..r.version]);
    assert SoundOn(s, n, log, snap, r.(clock := clock), dims, view, adds, removes, dirty, log[..r.version]);
  }

  /** Rebuilding the view. */
  lemma SoundRebuilt(s: Strategy, n: nat, log: seq<Op>, snap: Option<Snapshot>, r: Replica<Edit>, dims: int,
                     view: View, adds: View, removes: View, dirty: bool, view': View, adds': View, removes': View, dirty': bool)
    requires Sound(s, n, log, snap, r, dims, view, adds, removes, dirty) && r.version <= |log|
    requires ViewHolds(s, n, Elements(log[..r.version]), view', adds', removes', dirty')
    ensures Sound(s, n, log, snap, r, dims, view', adds', removes', dirty')
  {
    assert SoundOn(s, n, log, snap, r, dims, view, adds, removes, dirty, log[..r.version]);
    assert SoundOn(s, n, log, snap, r, dims, view', adds', removes', dirty', log[..r.version]);
  }

  /** Fixing a dimension while nothing is known. */
  lemma SoundWithDims(s: Strategy, n: nat, log: seq<Op>, snap: Option<Snapshot>, r: Replica<Edit>, dims: int,
                      view: View, adds: View, removes: View, dirty: bool, dims': int)
    requires Sound(s, n, log, snap, r, dims, view, adds, removes, dirty) && (dims' != dims ==> dims == -1)
    ensures Sound(s, n, log, snap, r, dims', view, adds, removes, dirty)
  {
    assert SoundOn(s, n, log, snap, r, dims, view, adds, removes, dirty, log[..r.version]);
    assert SoundOn(s, n, log, snap, r, dims', view, adds, removes, dirty, log[..r.version]);
  }

  /** Storing a snapshot. */
  lemma SoundWithSnapshot(s: Strategy, n: nat, log: seq<Op>, snap: Option<Snapshot>, r: Replica<Edit>, dims: int,
                          view: View, adds: View, removes: View, dirty: bool, snap': Option<Snapshot>)
    requires Sound(s, n, log, snap, r, dims, view, adds, removes, dirty) && SnapshotFits(snap', log, n)
    ensures Sound(s, n, log, snap', r, dims, view, adds, removes, dirty)
  {
    assert SoundOn(s, n, log, snap, r, dims, view, adds, removes, dirty, log[..r.version]);
    assert SoundOn(s, n, log, snap', r, dims, view, adds, removes, dirty, log[..r.version]);
  }

  /** What the engine may rely on. */
  lemma SoundGives(s: Strategy, n: nat, log: seq<Op>, snap: Option<Snapshot>, r: Replica<Edit>, dims: int,
                   view: View, adds: View, removes: View, dirty: bool)
    requires Sound(s, n, log, snap, r, dims, view, adds, removes, dirty)
    ensures Faithful(log, r) && IsLog(s, log, n) && SnapshotFits(snap, log, n) && (r.version > 0 ==> dims == n)
    ensures ViewHolds(s, n, Elements(log[..r.version]), view, adds, removes, dirty)
  {
    assert SoundOn(s, n, log, snap, r, dims, view, adds, removes, dirty, log[..r.version]);
  }

  /** Folding one more operation of a log makes it effective, unless it is a retraction. */
  lemma FoldStep(s: Strategy, hist: seq<Op>, o: Op, n: nat)
    requires IsLog(s, hist + [o], n) && Patched(s) && !o.edit.kind.Retract?
    ensures EffectiveSet(Elements(hist + [o])) == EffectiveSet(Elements(hist)) + {o}
  {
    NextIsNotRetracted(hist, o);
    EffectiveGrows(Elements(hist), o);
    assert Elements(hist + [o]) == Elements(hist) + {o};
  }

  /** Mixed: the log now holds boxes of two dimensions, which the source's comparisons cannot handle. */
  datatype Outcome = Applied | Conflict | Invalid | WrongDimension | Mixed

  predicate Attempted(outcome: Outcome) {
    outcome.Applied? || outcome.Conflict? || outcome.Mixed?
  }

  predicate IsWellFormed(o: Op) {
    |o.edit.box| > 0 && !Hollow(o.edit.box)
  }

  /** Exactly the operations on a box with a point in at least one dimension are well-formed. */
  lemma WellFormedIff(o: Op)
    ensures IsWellFormed(o) <==> |o.edit.box| > 0 && exists x :: Inside(o.edit.box, x)
  {
    HollowMeansNoPoint(o.edit.box);
  }

  class Engine {
    const store: Store<Op, Snapshot>
    const strategy: Strategy
    const clock: Clock
    const snapshotEvery: nat
    const canonicalize: Option<Canonicalizer>
    const metaMerge: Join
    const metaUnion: Join
    /** The dimension of the log; any number while the log is empty. */
    ghost const n: nat
    var ops: Known<Edit>
    var view: View
    var adds: View
    var removes: View
    var version: nat
    var since: nat
    var dims: int
    var dirty: bool

    ghost predicate Configured() {
      canonicalize.Some? ==> Preserving(canonicalize.value, n)
    }

    ghost function Rep(): Replica<Edit>
      reads this, clock
    {
      Replica(ops, version, clock.last)
    }

    /** The part of the log the engine has folded. */
    ghost function History(): seq<Op>
      reads this, store
      requires version <= |store.ops|
    {
      store.ops[..version]
    }

    /**
     * The engine knows a prefix of the log, its clock has seen it, and a view not marked dirty covers what
     * the strategy's rule admits on it.
     */
    ghost predicate Valid()
      reads this, store, clock
    {
      Configured() && Sound(strategy, n, store.ops, store.snapshot, Rep(), dims, view, adds, removes, dirty)
    }

    /** Open: loads the snapshot when it is of this strategy, and replays the rest of the log. */
    constructor (store: Store<Op, Snapshot>, strategy: Strategy, clock: Clock, snapshotEvery: nat,
                 canonicalize: Option<Canonicalizer>, metaMerge: Join, metaUnion: Join, ghost n: nat)
      requires IsLog(strategy, store.ops, n) && SnapshotFits(store.snapshot, store.ops, n)
      requires canonicalize.Some? ==> Preserving(canonicalize.value, n)
      modifies clock
      ensures Valid() && Opens(store.ops, Rep()) && dims == if store.ops == [] then -1 else n
      ensures this.store == store && this.strategy == strategy && this.clock == clock && this.n == n
    {
      this.store, this.strategy, this.clock, this.snapshotEvery := store, strategy, clock, snapshotEvery;
      this.canonicalize, this.metaMerge, this.metaUnion, this.n := canonicalize, metaMerge, metaUnion, n;
      ops, view, adds, removes, version, since, dims, dirty := map[], [], [], [], 0, 0, -1, false;
      new;
      Reload();
    }

    /** reload: rebuilds the state of a new engine from the store. */
    method Reload()
      requires Configured() && ops == map[] && view == [] && adds == [] && removes == [] && !dirty
      requires IsLog(strategy, store.ops, n) && SnapshotFits(store.snapshot, store.ops, n)
      modifies this, clock
      ensures Valid() && Opens(store.ops, Rep()) && dims == if store.ops == [] then -1 else n
    {
      LoadWhole();
      DeriveDims(store.ops);
      OpenIsFaithful(store.ops, Rep());
      WholeIsSound(strategy, n, store.ops, store.snapshot, Rep(), dims, view, adds, removes, dirty);
    }

    /** Loads a compatible snapshot and replays the rest of the log. */
    method LoadWhole()
      requires Configured() && ops == map[] && view == [] && adds == [] && removes == [] && !dirty
      requires IsLog(strategy, store.ops, n) && SnapshotFits(store.snapshot, store.ops, n)
      modifies this`ops, this`view, this`adds, this`removes, this`dirty, this`version, clock
      ensures Opens(store.ops, Rep()) && ViewHolds(strategy, n, Elements(store.ops), view, adds, removes, dirty)
    {
      var snap := store.LoadSnapshot();
      var compatible := snap.Some? && snap.value.strategy == strategy;
      var from := if compatible then snap.value.version else 0;
      var more, v := ReadFrom(from);
      version := v;
      ops := Record(clock, ops, more);
      Rebuild(if compatible then snap else None, more);
    }

    /** The state of the whole log, from the snapshot and the tail after it when there is one. */
    method Rebuild(snap: Option<Snapshot>, more: seq<Op>)
      requires Configured() && IsLog(strategy, store.ops, n) && SnapshotFits(snap, store.ops, n)
      requires snap.Some? ==> snap.value.strategy == strategy && more == store.ops[snap.value.version..]
      requires snap.None? ==> more == store.ops
      requires ops == FoldOps(map[], more) && Observed(more, clock.last)
      requires view == [] && adds == [] && removes == [] && !dirty
      modifies this`ops, this`view, this`adds, this`removes, this`dirty, clock
      ensures ops == FoldOps(map[], store.ops) && Observed(store.ops, clock.last)
      ensures ViewHolds(strategy, n, Elements(store.ops), view, adds, removes, dirty)
    {
      if snap.Some? { Restore(snap.value, more); } else { MaterializeAll(store.ops); }
    }

    method ReadFrom(from: nat) returns (more: seq<Op>, v: nat)
      requires from <= |store.ops|
      ensures more == store.ops[from..] && store.ops == store.ops[..from] + more && v == |store.ops|
      ensures from == 0 ==> more == store.ops
    {
      more, v := store.Read(from);
    }

    /** restore: the snapshot's covers extended by the replayed tail are those of the whole log. */
    method Restore(snap: Snapshot, delta: seq<Op>)
      requires Configured() && IsLog(strategy, store.ops, n) && SnapshotOf(snap, store.ops, n) && snap.strategy == strategy
      requires delta == store.ops[snap.version..] && ops == FoldOps(map[], delta) && Observed(delta, clock.last) && !dirty
      requires OfDims(Geo(view), n) && OfDims(Geo(adds), n) && OfDims(Geo(removes), n)
      modifies this`ops, this`view, this`adds, this`removes, this`dirty, clock
      ensures ops == FoldOps(map[], store.ops) && Observed(store.ops, clock.last)
      ensures ViewHolds(strategy, n, Elements(store.ops), view, adds, removes, dirty)
    {
      ghost var head := store.ops[..snap.version];
      SplitAt(store.ops, snap.version);
      RecordListed(snap.ops, head, delta);
      RestoreView(snap, delta, head);
    }

    /** Records the operations a snapshot lists over the replayed tail. */
    method RecordListed(listed: seq<Op>, ghost head: seq<Op>, ghost tail: seq<Op>)
      requires UniqueIds(head + tail) && UniqueIds(listed) && Elements(listed) == Elements(head)
      requires ops == FoldOps(map[], tail) && Observed(tail, clock.last)
      modifies this`ops, clock
      ensures ops == FoldOps(map[], head + tail) && Observed(head + tail, clock.last)
    {
      ops := Record(clock, ops, listed);
      PrefixThenRest(head, tail, listed);
      HeadObserved(head, tail, listed, clock.last);
    }

    method RestoreView(snap: Snapshot, delta: seq<Op>, ghost head: seq<Op>)
      requires Configured() && IsLog(strategy, head + delta, n) && ops == FoldOps(map[], head + delta) && !dirty
      requires SnapshotOf(snap, head, n) && snap.version == |head| && snap.strategy == strategy
      requires OfDims(Geo(view), n) && OfDims(Geo(adds), n) && OfDims(Geo(removes), n)
      modifies this`view, this`adds, this`removes, this`dirty
      ensures ViewHolds(strategy, n, Elements(head + delta), view, adds, removes, dirty)
    {
      match strategy
      case LWW | FWW | AdditiveWinsLWW => MaterializeAll(head + delta);
      case AdditiveWins | GrowOnly =>
        RestoreCovers(snap, head);
        Replay(delta, head);
    }

    /** The covers of a patched strategy as the snapshot holds them; one that only grows has its view alone. */
    method RestoreCovers(snap: Snapshot, ghost head: seq<Op>)
      requires Configured() && SnapshotOf(snap, head, n) && snap.version == |head| && snap.strategy == strategy
      requires Patched(strategy)
      requires OfDims(Geo(removes), n)
      modifies this`view, this`adds, this`removes
      ensures ViewHolds(strategy, n, Elements(head), view, adds, removes, false)
    {
      assert head[..|head|] == head;
      if strategy.AdditiveWins? {
        adds := snap.adds;
        removes := snap.removes;
        CutView(EffectiveSet(Elements(head)));
      } else {
        adds := snap.boxes;
        SetView(adds);
      }
    }

    /** Folds replayed operations into the view. */
    method Replay(delta: seq<Op>, ghost head: seq<Op>)
      requires Configured() && IsLog(strategy, head + delta, n)
      requires ViewHolds(strategy, n, Elements(head), view, adds, removes, dirty)
      modifies this`view, this`adds, this`removes, this`dirty
      ensures ViewHolds(strategy, n, Elements(head + delta), view, adds, removes, dirty)
    {
      assert head + delta[..0] == head;
      for i := 0 to |delta|
        invariant ViewHolds(strategy, n, Elements(head + delta[..i]), view, adds, removes, dirty)
      {
        SliceStep(head, delta, i);
        FoldOne(delta[i], head + delta[..i], head + delta);
      }
      assert delta[..|delta|] == delta;
    }

    /** applyToView on the next operation of a log. */
    method FoldOne(o: Op, ghost hist: seq<Op>, ghost log: seq<Op>)
      requires Configured() && IsLog(strategy, log, n) && hist + [o] <= log
      requires ViewHolds(strategy, n, Elements(hist), view, adds, removes, dirty)
      modifies this`view, this`adds, this`removes, this`dirty
      ensures ViewHolds(strategy, n, Elements(hist + [o]), view, adds, removes, dirty)
    {
      PrefixIsLog(strategy, log, |hist| + 1, n);
      assert log[..|hist| + 1] == hist + [o];
      assert (hist + [o])[|hist|] == o;
      ApplyToView(o, Elements(hist));
      if !dirty { FoldStep(strategy, hist, o, n); }
    }

    /**
     * applyToView: a retraction, or any operation under a priority-resolved strategy, marks the view
     * dirty; otherwise the operation is patched in.
     */
    method ApplyToView(o: Op, ghost S: set<Op>)
      requires Configured() && |o.edit.box| == n && ViewHolds(strategy, n, S, view, adds, removes, dirty)
      modifies this`view, this`adds, this`removes, this`dirty
      ensures dirty <==> old(dirty) || o.edit.kind.Retract? || strategy.LWW? || strategy.FWW? || strategy.AdditiveWinsLWW?
      ensures OfDims(Geo(view), n) && OfDims(Geo(adds), n) && OfDims(Geo(removes), n)
      ensures !dirty ==> IsView(strategy, EffectiveSet(S) + {o}, view, adds, removes)
    {
      if o.edit.kind == Retract {
        dirty := true;
        return;
      }
      ghost var E := EffectiveSet(S);
      match strategy
      case LWW | FWW | AdditiveWinsLWW => dirty := true;
      case AdditiveWins =>
        if o.edit.kind == Add {
          adds := UnionWith(adds, o, metaMerge, n, E);
          if !dirty { OtherKindCovers(removes, E, o, Remove); }
        } else {
          removes := UnionWith(removes, o, metaMerge, n, E);
          if !dirty { OtherKindCovers(adds, E, o, Add); }
        }
        CutView(E + {o});
      case GrowOnly =>
        if o.edit.kind == Add {
          adds := UnionWith(adds, o, metaMerge, n, E);
          SetView(adds);
        } else if !dirty {
          OtherKindCovers(adds, E, o, Add);
          assert OfKind(E + {o}, Add) == OfKind(E, Add);
        }
    }

    /** The view of the additions without the removals. */
    method CutView(ghost effective: set<Op>)
      requires Configured() && OfDims(Geo(adds), n) && OfDims(Geo(removes), n)
      modifies this`view
      ensures OfDims(Geo(view), n)
      ensures CoversKind(adds, effective, Add) && CoversKind(removes, effective, Remove) ==>
        CoversRule(view, AdditiveWins, effective)
    {
      var boxes := Difference(adds, removes, metaMerge, n);
      if CoversKind(adds, effective, Add) && CoversKind(removes, effective, Remove) {
        CutIsRule(boxes, adds, removes, effective, n);
      }
      SetView(boxes);
    }

    /** setView: canonicalizes a cover and caches it. */
    method SetView(boxes: View)
      requires Configured() && OfDims(Geo(boxes), n)
      modifies this`view
      ensures OfDims(Geo(view), n) && SamePoints(boxes, view)
    {
      assert canonicalize.Some? ==> Preserves(canonicalize.value, n, boxes);
      view := if canonicalize.Some? then canonicalize.value(boxes) else boxes;
    }

    /** materializeAll: rebuilds the view and the covers behind it from the known operations. */
    method MaterializeAll(ghost hist: seq<Op>)
      requires Configured() && ops == FoldOps(map[], hist) && IsLog(strategy, hist, n)
      requires OfDims(Geo(adds), n) && OfDims(Geo(removes), n)
      modifies this`view, this`adds, this`removes
      ensures ViewHolds(strategy, n, Elements(hist), view, adds, removes, false)
    {
      var list := ListAll(hist);
      match strategy
      case LWW | FWW | AdditiveWinsLWW => Resolve(list);
      case AdditiveWins | GrowOnly =>
        var effective := Effective(list);
        RebuildCovers(effective);
    }

    /** The covers and the view of a patched strategy, from the effective operations. */
    method RebuildCovers(effective: seq<Op>)
      requires Configured() && Patched(strategy) && ValidOps(Elements(effective), n) && OfDims(Geo(removes), n)
      modifies this`view, this`adds, this`removes
      ensures OfDims(Geo(view), n) && OfDims(Geo(adds), n) && OfDims(Geo(removes), n)
      ensures IsView(strategy, Elements(effective), view, adds, removes)
    {
      adds := KindCover(effective, Add, metaMerge, n);
      if strategy.AdditiveWins? {
        removes := KindCover(effective, Remove, metaMerge, n);
        CutView(Elements(effective));
      } else {
        SetView(adds);
      }
    }

    method ListAll(ghost hist: seq<Op>) returns (list: seq<Op>)
      requires ops == FoldOps(map[], hist) && IsLog(strategy, hist, n)
      ensures Elements(list) == Elements(hist) && Distinct(list) && Keyed(Elements(list)) && ValidOps(Elements(list), n)
    {
      FoldOfUnique(hist);
      FoldIsById(map[], hist);
      list := OpsList(ops);
      UniqueIsKeyed(list);
      ValidElements(hist, n);
    }

    /** The view of a priority-resolved strategy. */
    method Resolve(list: seq<Op>)
      requires Configured() && Distinct(list) && Keyed(Elements(list)) && ValidOps(Elements(list), n)
      modifies this`view
      ensures OfDims(Geo(view), n) && CoversRule(view, strategy, EffectiveSet(Elements(list)))
    {
      var boxes := BoxMaterialization.Materialize(strategy, list, metaUnion, n);
      ghost var E := EffectiveSet(Elements(list));
      GeometryCoversRule(strategy, E, boxes, n);
      SetView(boxes);
      SamePointsKeepRule(boxes, view, strategy, E);
    }

    /** ensureView: rebuilds a dirty view. */
    method EnsureView()
      requires Valid()
      modifies this`view, this`adds, this`removes, this`dirty
      ensures Valid() && !dirty
    {
      if dirty {
        SoundGives(strategy, n, store.ops, store.snapshot, Rep(), dims, view, adds, removes, dirty);
        PrefixIsLog(strategy, store.ops, version, n);
        ghost var v, a, r := view, adds, removes;
        MaterializeAll(History());
        SoundRebuilt(strategy, n, store.ops, store.snapshot, Rep(), dims, v, a, r, true, view, adds, removes, false);
        dirty := false;
      }
    }

    /** Materialize: a cover of exactly the points the strategy's rule admits on what the engine knows. */
    method Materialize() returns (out: View)
      requires Valid()
      modifies this`view, this`adds, this`removes, this`dirty
      ensures Valid() && version <= |store.ops| && CoversRule(out, strategy, EffectiveSet(Elements(History())))
    {
      EnsureView();
      SoundGives(strategy, n, store.ops, store.snapshot, Rep(), dims, view, adds, removes, dirty);
      out := view;
    }

    /** Contains: whether a point is in the set. */
    method Contains(p: Point) returns (r: bool)
      requires Valid()
      modifies this`view, this`adds, this`removes, this`dirty
      ensures Valid() && version <= |store.ops| && (r <==> Rule(strategy, EffectiveSet(Elements(History())), p))
    {
      EnsureView();
      SoundGives(strategy, n, store.ops, store.snapshot, Rep(), dims, view, adds, removes, dirty);
      r := SomeBoxHolds(view, p);
    }

    /** deriveDims: the dimension of any known operation. */
    method DeriveDims(ghost hist: seq<Op>)
      requires ops == FoldOps(map[], hist) && IsLog(strategy, hist, n)
      modifies this`dims
      ensures dims == if hist == [] then -1 else n
    {
      dims := -1;
      FoldOfUnique(hist);
      NothingKnown(ops, hist);
      if ops != map[] {
        var id := AnyOf(ops.Keys);
        KnownIsValid(ops, hist, id, n);
        dims := |ops[id].edit.box|;
      }
    }

    /** ensureDims: fixes the dimension by the first box offered, and rejects any other. */
    method EnsureDims(batch: seq<Op>) returns (ok: bool)
      modifies this`dims
      ensures ok <==> Accepts(old(dims), batch)
      ensures dims == if old(dims) == -1 && |batch| > 0 then |batch[0].edit.box| else old(dims)
    {
      for i := 0 to |batch|
        invariant dims == if old(dims) == -1 && i > 0 then |batch[0].edit.box| else old(dims)
        invariant forall k :: 0 <= k < i ==> |batch[k].edit.box| == dims
      {
        if dims == -1 {
          dims := |batch[i].edit.box|;
        } else if |batch[i].edit.box| != dims {
          return false;
        }
      }
      return true;
    }

    /** Observes, records and folds operations of the log in order. */
    method Absorb(more: seq<Op>, ghost hist: seq<Op>, ghost log: seq<Op>)
      requires Configured() && IsLog(strategy, log, n) && hist + more == log && ops == FoldOps(map[], hist)
      requires ViewHolds(strategy, n, Elements(hist), view, adds, removes, dirty)
      modifies this`ops, this`view, this`adds, this`removes, this`dirty, clock
      ensures ops == FoldOps(old(ops), more) && clock.last >= old(clock.last) && Observed(more, clock.last)
      ensures ViewHolds(strategy, n, Elements(log), view, adds, removes, dirty)
    {
      assert hist + more[..0] == hist;
      FollowsHolds(strategy, n, hist, view, adds, removes, dirty);
      for i := 0 to |more|
        invariant ops == FoldOps(old(ops), more[..i]) && clock.last >= old(clock.last) && Observed(more[..i], clock.last)
        invariant Follows(strategy, n, hist + more[..i], view, adds, removes, dirty)
      {
        SliceStep(hist, more, i);
        FoldMore(old(ops), more, i);
        AbsorbOne(more[i], hist + more[..i], log);
      }
      SplitAt(more, |more|);
      FollowsHolds(strategy, n, log, view, adds, removes, dirty);
    }

    /** Observes, records and folds the next operation of the log. */
    method AbsorbOne(o: Op, ghost hist: seq<Op>, ghost log: seq<Op>)
      requires Configured() && IsLog(strategy, log, n) && hist + [o] <= log
      requires Follows(strategy, n, hist, view, adds, removes, dirty)
      modifies this`ops, this`view, this`adds, this`removes, this`dirty, clock
      ensures ops == old(ops)[o.id := o] && clock.last >= old(clock.last) && clock.last >= o.ts
      ensures Follows(strategy, n, hist + [o], view, adds, removes, dirty)
    {
      FollowsHolds(strategy, n, hist, view, adds, removes, dirty);
      clock.Observe(o.ts);
      ops := ops[o.id := o];
      FoldOne(o, hist, log);
      FollowsHolds(strategy, n, hist + [o], view, adds, removes, dirty);
    }

    /** fold: records appended operations, and snapshots when one is due. */
    method Fold(appended: seq<Op>, ghost log: seq<Op>)
      requires Configured() && Faithful(log, Rep()) && store.ops == log + appended && version == |log|
      requires IsLog(strategy, store.ops, n) && SnapshotFits(store.snapshot, store.ops, n) && dims == n
      requires ViewHolds(strategy, n, Elements(log), view, adds, removes, dirty)
      modifies this, clock, store`snapshot
      ensures Valid() && Folds(old(Rep()), appended, old(clock.last), Rep()) && dims == n
      ensures if snapshotEvery > 0 && old(since) + |appended| >= snapshotEvery then since == 0 && Saved()
        else since == old(since) + |appended| && store.snapshot == old(store.snapshot)
    {
      FoldAppended(appended, log);
      if snapshotEvery > 0 && since >= snapshotEvery {
        TakeSnapshot();
      }
    }

    method FoldAppended(appended: seq<Op>, ghost log: seq<Op>)
      requires Configured() && Faithful(log, Rep()) && store.ops == log + appended && version == |log|
      requires IsLog(strategy, store.ops, n) && SnapshotFits(store.snapshot, store.ops, n) && dims == n
      requires ViewHolds(strategy, n, Elements(log), view, adds, removes, dirty)
      modifies this, clock
      ensures Valid() && Folds(old(Rep()), appended, old(clock.last), Rep()) && dims == n && since == old(since) + |appended|
    {
      SplitAt(log, |log|);
      Absorb(appended, log, store.ops);
      version := version + |appended|;
      since := since + |appended|;
      FoldedIsFaithful(log, appended, old(Rep()), Rep());
      WholeIsSound(strategy, n, store.ops, store.snapshot, Rep(), dims, view, adds, removes, dirty);
    }

    /** catchUp: folds what other engines appended since the known version. */
    method CatchUp()
      requires Valid()
      modifies this, clock
      ensures Valid() && CatchesUp(store.ops, old(Rep()), Rep()) && version == |store.ops|
    {
      SoundGives(strategy, n, store.ops, store.snapshot, Rep(), dims, view, adds, removes, dirty);
      FoldTail();
      CatchUpIsFaithful(store.ops, old(Rep()), Rep());
      SplitAt(store.ops, |store.ops|);
      DeriveDims(store.ops);
      WholeIsSound(strategy, n, store.ops, store.snapshot, Rep(), dims, view, adds, removes, dirty);
    }

    method FoldTail()
      requires Configured() && Faithful(store.ops, Rep()) && IsLog(strategy, store.ops, n)
      requires ViewHolds(strategy, n, Elements(History()), view, adds, removes, dirty)
      modifies this`ops, this`view, this`adds, this`removes, this`dirty, this`version, clock
      ensures CatchesUp(store.ops, old(Rep()), Rep())
      ensures ViewHolds(strategy, n, Elements(store.ops), view, adds, removes, dirty)
    {
      ghost var hist := History();
      var more, v := ReadFrom(version);
      Absorb(more, hist, store.ops);
      version := v;
    }

    /** The store holds a snapshot of the engine's own state. */
    ghost predicate Saved()
      reads this, store
    {
      && store.snapshot.Some? && !dirty
      && var snap := store.snapshot.value;
      && snap.strategy == strategy && snap.version == version && snap.boxes == view && Elements(snap.ops) == Recorded(ops)
      && snap.adds == (if strategy.AdditiveWins? then adds else [])
      && snap.removes == (if strategy.AdditiveWins? then removes else [])
    }

    /** snapshot: stores the view, the covers behind it, and the version they cover. */
    method TakeSnapshot()
      requires Valid()
      modifies this, store`snapshot
      ensures Valid() && !dirty && Rep() == old(Rep()) && dims == old(dims)
      ensures since == 0 && Saved()
    {
      EnsureView();
      SoundGives(strategy, n, store.ops, store.snapshot, Rep(), dims, view, adds, removes, dirty);
      FaithfulKnows(store.ops, Rep());
      var list := OpsList(ops);
      ghost var before := store.snapshot;
      var patchable := strategy.AdditiveWins?;
      var saved, cut := if patchable then adds else [], if patchable then removes else [];
      store.SaveSnapshot(Snapshot(strategy, version, view, saved, cut, list));
      since := 0;
      SnapshotIsOf(store.snapshot.value, store.ops, n, adds, removes);
      SoundWithSnapshot(strategy, n, store.ops, before, Rep(), dims, view, adds, removes, dirty, store.snapshot);
    }

    /**
     * One turn of applyLocked: append the unseen operations at the known version. The batch has one
     * dimension `d`; appended to a log of another, the model ends here.
     */
    method Attempt(batch: seq<Op>, ghost d: nat) returns (outcome: Outcome, ghost stamped: seq<Op>)
      requires Valid() && IsBatch(batch, d) && MayFollow(strategy, store.ops, batch)
      requires (version == 0 ==> dims == d) && (store.ops == [] ==> d == n)
      modifies this, clock, store
      ensures Attempted(outcome)
      ensures outcome.Conflict? <==> old(Unseen(ops, batch) != [] && version < |store.ops|)
      ensures outcome.Mixed? <==> old(Unseen(ops, batch) != [] && version == |store.ops| && store.ops != []) && d != n
      ensures outcome.Mixed? ==> stamped != []
      ensures store.ops == old(store.ops) + (if outcome.Conflict? then [] else stamped)
      ensures !outcome.Conflict? ==> IsNewPart(old(store.ops), batch, stamped)
      ensures !outcome.Mixed? ==> Valid()
      ensures old(Unseen(ops, batch)) == [] ==> stamped == [] && Rep() == old(Rep()) && dims == old(dims)
      ensures old(Unseen(ops, batch)) != [] && !outcome.Mixed? ==>
        Attempts(old(store.ops), old(Rep()), batch, stamped, store.ops, Rep())
    {
      SoundGives(strategy, n, store.ops, store.snapshot, Rep(), dims, view, adds, removes, dirty);
      var incoming := UnseenOf(ops, batch);
      if |incoming| == 0 {
        AppliedIsNewPart(store.ops, Rep(), batch, [], store.ops, Rep());
        return Applied, [];
      }
      outcome, stamped := AttemptNew(batch, incoming, d);
    }

    method AttemptNew(batch: seq<Op>, incoming: seq<Op>, ghost d: nat) returns (outcome: Outcome, ghost stamped: seq<Op>)
      requires Valid() && IsBatch(batch, d) && MayFollow(strategy, store.ops, batch)
      requires (version == 0 ==> dims == d) && (store.ops == [] ==> d == n) && incoming == Unseen(ops, batch) != []
      modifies this, clock, store
      ensures Attempted(outcome) && (outcome.Conflict? <==> old(version < |store.ops|))
      ensures outcome.Mixed? <==> old(version == |store.ops| && store.ops != []) && d != n
      ensures store.ops == old(store.ops) + (if outcome.Conflict? then [] else stamped) && stamped != []
      ensures !outcome.Conflict? ==> IsNewPart(old(store.ops), batch, stamped)
      ensures !outcome.Mixed? ==> Valid() && Attempts(old(store.ops), old(Rep()), batch, stamped, store.ops, Rep())
    {
      SoundGives(strategy, n, store.ops, store.snapshot, Rep(), dims, view, adds, removes, dirty);
      ghost var log, r := store.ops, Rep();
      var marked := Stamp(clock, incoming);
      stamped := marked;
      ghost var mid := clock.last;
      assert Rep() == r.(clock := mid);
      SoundLater(strategy, n, log, store.snapshot, r, dims, view, adds, removes, dirty, mid);
      var ok := store.Append(version, marked);
      if !ok {
        assert AttemptsAt(log, r, batch, stamped, mid, store.ops, Rep());
        return Conflict, stamped;
      }
      NewPartOf(log, r, batch, stamped, mid);
      StampedDimension(ops, batch, marked, r.clock, mid, d);
      if |marked[0].edit.box| != dims { return Mixed, stamped; }
      FoldNew(marked, log, r, batch, mid);
      return Applied, stamped;
    }

    /** fold after a successful append of the log's dimension. */
    method FoldNew(marked: seq<Op>, ghost log: seq<Op>, ghost r: Replica<Edit>, ghost batch: seq<Op>, ghost mid: int)
      requires Configured() && Sound(strategy, n, log, store.snapshot, Rep(), dims, view, adds, removes, dirty) && dims == n
      requires store.ops == log + marked && version == |log| && Rep() == r.(clock := mid) && Faithful(log, r)
      requires UniqueIds(batch) && AllValid(batch, n) && MayFollow(strategy, log, batch)
      requires IsStamped(Unseen(r.known, batch), marked, r.clock, mid) && Unseen(r.known, batch) != []
      modifies this, clock, store`snapshot
      ensures Valid() && Attempts(log, r, batch, marked, store.ops, Rep())
    {
      SoundGives(strategy, n, log, store.snapshot, Rep(), dims, view, adds, removes, dirty);
      AppendedFits(strategy, log, r, batch, marked, mid, store.snapshot, n);
      SplitAt(log, |log|);
      Fold(marked, log);
      assert AttemptsAt(log, r, batch, marked, mid, store.ops, Rep());
    }

    /** Other engines append to the shared store. */
    method Interfere(more: seq<Op>, ghost log': seq<Op>)
      requires Valid() && log' == store.ops + more && IsLog(strategy, log', n)
      modifies store`ops
      ensures Valid() && store.ops == log'
    {
      SoundSurvives(strategy, n, store.ops, store.snapshot, Rep(), dims, view, adds, removes, dirty, log');
      store.ops := store.ops + more;
    }

    /**
     * apply: rejects malformed boxes, and boxes of another dimension than the one the engine has fixed,
     * then appends, catching up and retrying when other writers were first. `rivals[k]` is what they
     * append before attempt `k`. While the log is empty its dimension is that of the batch.
     */
    method Apply(batch: seq<Op>, rivals: nat -> seq<Op>) returns (outcome: Outcome, ghost stamped: seq<Op>, ghost turns: nat)
      requires Valid() && UniqueIds(batch) && batch != [] && MayInterfere(strategy, store.ops, rivals, batch, n)
      requires store.ops + rivals(0) == [] ==> |batch[0].edit.box| == n
      modifies this, clock, store
      ensures outcome.Invalid? <==> exists k :: 0 <= k < |batch| && !IsWellFormed(batch[k])
      ensures outcome.WrongDimension? <==> !outcome.Invalid? && !Accepts(old(dims), batch)
      ensures outcome.Invalid? || outcome.WrongDimension? ==> store.ops == old(store.ops) && ops == old(ops)
      ensures !outcome.Mixed? ==> Valid()
      ensures Attempted(outcome) ==> Ends(old(store.ops), rivals, batch, outcome, stamped, turns, store.ops, n)
      ensures outcome.Applied? || outcome.Mixed? ==> forall k :: 0 <= k < |batch| ==> HasId(store.ops, batch[k].id)
      ensures Attempted(outcome) ==> (OneDimension(store.ops) <==> !outcome.Mixed?)
    {
      turns, stamped := 0, [];
      for i := 0 to |batch|
        invariant forall k :: 0 <= k < i ==> IsWellFormed(batch[k])
      {
        if !IsWellFormed(batch[i]) { return Invalid, [], 0; }
      }
      ghost var log, d0 := store.ops, dims;
      var ok := EnsureDims(batch);
      SoundWithDims(strategy, n, store.ops, store.snapshot, Rep(), d0, view, adds, removes, dirty, dims);
      if !ok { return WrongDimension, [], 0; }
      BatchIsAdmitted(strategy, store.ops, rivals, batch, n, |batch[0].edit.box|);
      outcome, stamped, turns := ApplyLocked(batch, rivals, |batch[0].edit.box|);
      EndsWell(strategy, log, rivals, d0, batch, outcome, stamped, turns, store.ops, n);
    }

    /** Others append, then one attempt, then a catch-up when it failed and another attempt is left. */
    method Turn(batch: seq<Op>, more: seq<Op>, ghost log': seq<Op>, again: bool, ghost d: nat)
      returns (outcome: Outcome, ghost stamped: seq<Op>)
      requires Valid() && IsBatch(batch, d)
      requires log' == store.ops + more && IsLog(strategy, log', n) && MayFollow(strategy, log', batch)
      requires (version == 0 ==> dims == d) && (log' == [] ==> d == n)
      modifies this, clock, store
      ensures Attempted(outcome)
      ensures store.ops == log' + (if outcome.Conflict? then [] else stamped)
      ensures !outcome.Conflict? ==> IsNewPart(log', batch, stamped)
      ensures outcome.Conflict? ==> old(version) < |log'| && (again ==> version == |log'|)
      ensures outcome.Mixed? ==> stamped != [] && log' != [] && d != n
      ensures outcome.Applied? ==> stamped == [] || d == n
      ensures !outcome.Mixed? ==> Valid()
    {
      Interfere(more, log');
      outcome, stamped := Attempt(batch, d);
      if outcome.Conflict? && again { CatchUp(); }
    }

    /** applyLocked: gives up after the fourth conflict. */
    method ApplyLocked(batch: seq<Op>, rivals: nat -> seq<Op>, ghost d: nat)
      returns (outcome: Outcome, ghost stamped: seq<Op>, ghost turns: nat)
      requires Valid() && Admits(strategy, store.ops, rivals, batch, n, d)
      requires (version == 0 ==> dims == d) && (store.ops + rivals(0) == [] ==> d == n)
      modifies this, clock, store
      ensures Attempted(outcome) && turns <= 3 && (!outcome.Mixed? ==> Valid())
      ensures store.ops == LogAt(old(store.ops), rivals, turns + 1) + (if outcome.Conflict? then [] else stamped)
      ensures !outcome.Conflict? ==> IsNewPart(LogAt(old(store.ops), rivals, turns + 1), batch, stamped)
      ensures outcome.Mixed? ==> stamped != [] && LogAt(old(store.ops), rivals, turns + 1) != [] && d != n
      ensures outcome.Applied? ==> stamped == [] || d == n
      ensures outcome.Conflict? ==> turns == 3 && rivals(1) != [] && rivals(2) != [] && rivals(3) != []
    {
      ghost var log := store.ops;
      var attempt: nat := 0;
      while true
        invariant attempt <= 3 && Valid() && store.ops == LogAt(log, rivals, attempt)
        invariant if attempt == 0 then version == 0 ==> dims == d else version == |store.ops| > 0
        invariant forall k: nat :: 0 < k < attempt ==> rivals(k) != []
        decreases 4 - attempt
      {
        turns := attempt;
        ghost var v := version;
        outcome, stamped := TurnAt(batch, rivals, log, attempt, d);
        RivalsWereFirst(log, rivals, attempt, v, outcome);
        if !outcome.Conflict? || attempt >= 3 { return; }
        attempt := attempt + 1;
      }
    }

    /** The turn of attempt `attempt`. */
    method TurnAt(batch: seq<Op>, rivals: nat -> seq<Op>, ghost log: seq<Op>, attempt: nat, ghost d: nat)
      returns (outcome: Outcome, ghost stamped: seq<Op>)
      requires Valid() && attempt <= 3 && Admits(strategy, log, rivals, batch, n, d)
      requires store.ops == LogAt(log, rivals, attempt) && (version == 0 ==> dims == d) && (log + rivals(0) == [] ==> d == n)
      modifies this, clock, store
      ensures Attempted(outcome) && (!outcome.Mixed? ==> Valid())
      ensures store.ops == LogAt(log, rivals, attempt + 1) + (if outcome.Conflict? then [] else stamped)
      ensures !outcome.Conflict? ==> IsNewPart(LogAt(log, rivals, attempt + 1), batch, stamped)
      ensures outcome.Conflict? ==> old(version) < |store.ops| && (attempt < 3 ==> version == |store.ops|)
      ensures outcome.Mixed? ==> stamped != [] && LogAt(log, rivals, attempt + 1) != [] && d != n
      ensures outcome.Applied? ==> stamped == [] || d == n
    {
      AdmitsNext(strategy, log, rivals, batch, n, d, attempt);
      FirstTurn(log, rivals, attempt);
      outcome, stamped := Turn(batch, rivals(attempt), LogAt(log, rivals, attempt + 1), attempt < 3, d);
    }
  }

  /** A batch of operations on boxes of dimension `d`. */
  ghost predicate IsBatch(batch: seq<Op>, d: nat) {
    batch != [] && UniqueIds(batch) && AllValid(batch, d) && d == |batch[0].edit.box|
  }

  lemma FirstTurn(log: seq<Op>, rivals: nat -> seq<Op>, attempt: nat)
    ensures LogAt(log, rivals, attempt + 1) == [] ==> log + rivals(0) == []
  {
    LogOnlyGrows(log, rivals, 1, attempt + 1);
    assert LogAt(log, rivals, 1) == log + rivals(0);
  }

  /** A conflict after catching up means that a rival appended in between. */
  lemma RivalsWereFirst(log: seq<Op>, rivals: nat -> seq<Op>, attempt: nat, version: nat, outcome: Outcome)
    requires attempt > 0 ==> version == |LogAt(log, rivals, attempt)|
    requires outcome.Conflict? ==> version < |LogAt(log, rivals, attempt + 1)|
    requires forall k: nat :: 0 < k < attempt ==> rivals(k) != []
    ensures outcome.Conflict? ==> forall k: nat :: 0 < k < attempt + 1 ==> rivals(k) != []
  {
  }

  /**
   * How applyLocked ends: with the batch's new part appended, or nothing new to append, or after four
   * conflicts, each of the last three caused by a rival. The new part is of another dimension than the
   * log exactly in the outcome Mixed.
   */
  ghost predicate Ends(log: seq<Op>, rivals: nat -> seq<Op>, batch: seq<Op>, outcome: Outcome,
                       stamped: seq<Op>, turns: nat, log': seq<Op>, n: nat)
    requires batch != []
  {
    var before := LogAt(log, rivals, turns + 1);
    turns <= 3 &&
    match outcome
    case Applied => log' == before + stamped && IsNewPart(before, batch, stamped) && (stamped == [] || |batch[0].edit.box| == n)
    case Mixed =>
      log' == before + stamped && IsNewPart(before, batch, stamped) && stamped != [] && before != [] && |batch[0].edit.box| != n
    case Conflict => log' == before && turns == 3 && rivals(1) != [] && rivals(2) != [] && rivals(3) != []
    case _ => false
  }

  /** After an attempt that did not conflict the batch is in the log, of one dimension unless the outcome says otherwise. */
  lemma EndsWell(s: Strategy, log: seq<Op>, rivals: nat -> seq<Op>, dims: int, batch: seq<Op>, outcome: Outcome,
                 stamped: seq<Op>, turns: nat, log': seq<Op>, n: nat)
    requires batch != [] && Accepts(dims, batch) && MayInterfere(s, log, rivals, batch, n)
    requires Attempted(outcome) && Ends(log, rivals, batch, outcome, stamped, turns, log', n)
    ensures !outcome.Conflict? ==> forall k :: 0 <= k < |batch| ==> HasId(log', batch[k].id)
    ensures OneDimension(log') <==> !outcome.Mixed?
  {
    var before := LogAt(log, rivals, turns + 1);
    assert MayInterfereAt(s, log, rivals, turns + 1, batch, n);
    assert OfDimension(before, n);
    if !outcome.Conflict? {
      NewPartCompletes(before, batch, stamped);
      if stamped != [] { OneDimensionIff(before, dims, batch, stamped, n); }
    }
  }

  /** Whatever the others append, the log stays one and the batch may follow. */
  ghost predicate MayInterfere(s: Strategy, log: seq<Op>, rivals: nat -> seq<Op>, batch: seq<Op>, n: nat) {
    forall k: nat :: k <= 4 ==> MayInterfereAt(s, log, rivals, k, batch, n)
  }

  ghost predicate MayInterfereAt(s: Strategy, log: seq<Op>, rivals: nat -> seq<Op>, k: nat, batch: seq<Op>, n: nat) {
    IsLog(s, LogAt(log, rivals, k), n) && MayFollow(s, LogAt(log, rivals, k), batch)
  }

  /** The same, for a batch of dimension `d`. */
  ghost predicate Admits(s: Strategy, log: seq<Op>, rivals: nat -> seq<Op>, batch: seq<Op>, n: nat, d: nat) {
    forall k: nat :: k <= 4 ==> AdmitsAt(s, log, rivals, k, batch, n, d)
  }

  ghost predicate AdmitsAt(s: Strategy, log: seq<Op>, rivals: nat -> seq<Op>, k: nat, batch: seq<Op>, n: nat, d: nat) {
    IsBatch(batch, d) && MayInterfereAt(s, log, rivals, k, batch, n)
  }

  lemma BatchIsAdmitted(s: Strategy, log: seq<Op>, rivals: nat -> seq<Op>, batch: seq<Op>, n: nat, d: nat)
    requires MayInterfere(s, log, rivals, batch, n) && UniqueIds(batch) && batch != [] && d == |batch[0].edit.box|
    requires (forall k :: 0 <= k < |batch| ==> IsWellFormed(batch[k])) && forall k :: 0 <= k < |batch| ==>
      |batch[k].edit.box| == d
    ensures Admits(s, log, rivals, batch, n, d)
  {
    forall k: nat | k <= 4
      ensures AdmitsAt(s, log, rivals, k, batch, n, d)
    {
      assert MayInterfereAt(s, log, rivals, k, batch, n);
    }
  }

  lemma AdmitsNext(s: Strategy, log: seq<Op>, rivals: nat -> seq<Op>, batch: seq<Op>, n: nat, d: nat, k: nat)
    requires Admits(s, log, rivals, batch, n, d) && k < 4
    ensures var next := LogAt(log, rivals, k + 1);
      IsBatch(batch, d) && IsLog(s, next, n) && MayFollow(s, next, batch) && next == LogAt(log, rivals, k) + rivals(k)
  {
    assert AdmitsAt(s, log, rivals, k + 1, batch, n, d);
  }

  lemma NewPartOf(log: seq<Op>, r: Replica<Edit>, batch: seq<Op>, stamped: seq<Op>, mid: int)
    requires Faithful(log, r) && r.version == |log| && IsStamped(Unseen(r.known, batch), stamped, r.clock, mid)
    ensures IsNewPart(log, batch, stamped)
  {
    UnseenIsNew(log, r, batch);
  }

  lemma StampedDimension(known: Known<Edit>, batch: seq<Op>, stamped: seq<Op>, before: int, after: int, d: nat)
    requires AllValid(batch, d) && IsStamped(Unseen(known, batch), stamped, before, after)
    ensures OfDimension(stamped, d)
  {
    forall k | 0 <= k < |stamped|
      ensures |stamped[k].edit.box| == d
    {
      var j := UnseenAreNew(known, batch, k);
    }
  }

  /** A successful append of the log's dimension keeps the log one and its snapshot fitting. */
  lemma AppendedFits(s: Strategy, log: seq<Op>, r: Replica<Edit>, batch: seq<Op>, stamped: seq<Op>, mid: int,
                     snap: Option<Snapshot>, n: nat)
    requires Faithful(log, r) && r.version == |log| && IsLog(s, log, n) && SnapshotFits(snap, log, n)
    requires UniqueIds(batch) && AllValid(batch, n) && MayFollow(s, log, batch)
    requires IsStamped(Unseen(r.known, batch), stamped, r.clock, mid)
    ensures IsLog(s, log + stamped, n) && SnapshotFits(snap, log + stamped, n) && Faithful(log, r.(clock := mid))
  {
    SplitAt(log, |log|);
    AppendIsLog(s, log, batch, stamped, r.clock, mid, n);
    SnapshotStillFits(snap, log, log + stamped, n);
  }

  lemma NothingKnown(known: Known<Edit>, hist: seq<Op>)
    requires forall k :: 0 <= k < |hist| ==> hist[k].id in known
    ensures known == map[] ==> hist == []
  {
    if hist != [] { assert hist[0].id in known; }
  }

  lemma KnownIsValid(known: Known<Edit>, hist: seq<Op>, id: int, n: nat)
    requires AllValid(hist, n) && Recorded(known) == Elements(hist) && id in known
    ensures |known[id].edit.box| == n && hist != []
  {
    assert known[id] in Recorded(known);
    var k :| 0 <= k < |hist| && hist[k] == known[id];
  }

  lemma SliceStep<T>(head: seq<T>, more: seq<T>, i: nat)
    requires i < |more|
    ensures head + more[..i + 1] == (head + more[..i]) + [more[i]] && (head + more[..i]) + [more[i]] <= head + more
  {
  }

  lemma FoldMore(known: Known<Edit>, more: seq<Op>, i: nat)
    requires i < |more|
    ensures FoldOps(known, more[..i + 1]) == FoldOps(known, more[..i])[more[i].id := more[i]]
    ensures more[..i + 1] == more[..i] + [more[i]]
  {
    assert more[..i + 1][..i] == more[..i];
  }

  method SomeBoxHolds(view: View, p: Point) returns (r: bool)
    ensures r <==> InsideSome(Geo(view), p)
  {
    for i := 0 to |view|
      invariant forall k :: 0 <= k < i ==> !Inside(Geo(view)[k], p)
    {
      if Inside(view[i].box, p) {
        assert Inside(Geo(view)[i], p);
        return true;
      }
    }
    return false;
  }

  lemma GeometryCoversRule(s: Strategy, effective: set<Op>, boxes: View, n: nat)
    requires ValidOps(effective, n) && IsGeometry(s, effective, Geo(boxes), n)
    ensures CoversRule(boxes, s, effective)
  {
    forall x
      ensures InsideSome(Geo(boxes), x) <==> Rule(s, effective, x)
    {
      GeometryFollowsRule(s, effective, Geo(boxes), n, x);
    }
  }

  /** BoxesOf, by the points it covers. */
  method KindCover(effective: seq<Op>, kind: Kind, join: Join, ghost n: nat) returns (out: View)
    requires ValidOps(Elements(effective), n)
    ensures OfDims(Geo(out), n) && CoversKind(out, Elements(effective), kind)
  {
    out := BoxesOf(effective, kind, join, n);
    forall x
      ensures InsideSome(Geo(out), x) <==> Touched(OfKind(Elements(effective), kind), x)
    {
      KindPoints(effective, kind, Geo(out), x);
    }
  }

  lemma KindPoints(effective: seq<Op>, kind: Kind, g: seq<Box>, x: Point)
    requires Elements(g) == Covers.Maxima(KindBoxes(Elements(effective), kind))
    ensures InsideSome(g, x) <==> Touched(OfKind(Elements(effective), kind), x)
  {
    Covers.InsideSomeIsInSet(g, x);
    Covers.MaximaKeepPoints(KindBoxes(Elements(effective), kind), x);
    KindBoxesPoints(Elements(effective), kind, x);
  }

  lemma SnapshotIsOf(snap: Snapshot, log: seq<Op>, n: nat, adds: View, removes: View)
    requires snap.version <= |log| && Elements(snap.ops) == Elements(log[..snap.version]) && UniqueIds(snap.ops)
    requires ViewHolds(snap.strategy, n, Elements(log[..snap.version]), snap.boxes, adds, removes, false)
    requires snap.strategy.AdditiveWins? ==> snap.adds == adds && snap.removes == removes
    requires !snap.strategy.AdditiveWins? ==> snap.removes == []
    ensures SnapshotOf(snap, log, n)
  {
  }
}
