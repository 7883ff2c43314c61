/**
 * The optimistic log protocol of engine/engine.go over the log of store/memory/memory.go: any number
 * of engines append at the version they know, catch up on conflict, and try again.
 */
module Replication {
  import opened Entries
  import opened Histories

  /** What one engine holds: the operations it knows, the log version it has reached, and its clock. */
  datatype Replica<E> = Replica(known: Known<E>, version: nat, clock: int)

  datatype System<E> = System(log: seq<Entry<E>>, replicas: map<nat, Replica<E>>)

  // ----- the steps, each atomic at one access to the store -----

  /** An engine opened on the log without a snapshot. */
  ghost predicate Opens<E>(log: seq<Entry<E>>, r: Replica<E>) {
    r.known == FoldOps(map[], log) && r.version == |log| && Observed(log, r.clock)
  }

  /**
   * One attempt to append the unseen part of a batch. Stamping advances the clock in any case; the
   * append succeeds exactly when the engine's version is the length of the log.
   */
  ghost predicate Attempts<E>(log: seq<Entry<E>>, r: Replica<E>, batch: seq<Entry<E>>, stamped: seq<Entry<E>>,
                              log': seq<Entry<E>>, r': Replica<E>) {
    Unseen(r.known, batch) != [] && exists mid :: AttemptsAt(log, r, batch, stamped, mid, log', r')
  }

  ghost predicate AttemptsAt<E>(log: seq<Entry<E>>, r: Replica<E>, batch: seq<Entry<E>>, stamped: seq<Entry<E>>, mid: int,
                                log': seq<Entry<E>>, r': Replica<E>) {
    && IsStamped(Unseen(r.known, batch), stamped, r.clock, mid)
    && (r.version == |log| ==> log' == log + stamped && Folds(r, stamped, mid, r'))
    && (r.version != |log| ==> log' == log && r' == r.(clock := mid))
  }

  /** Recording freshly appended operations. */
  ghost predicate Folds<E>(r: Replica<E>, stamped: seq<Entry<E>>, mid: int, r': Replica<E>) {
    && r'.known == FoldOps(r.known, stamped) && r'.version == r.version + |stamped|
    && mid <= r'.clock && Observed(stamped, r'.clock)
  }

  /** Reading what other engines appended since the known version. */
  ghost predicate CatchesUp<E>(log: seq<Entry<E>>, r: Replica<E>, r': Replica<E>) {
    && r.version <= |log|
    && r'.known == FoldOps(r.known, log[r.version..]) && r'.version == |log|
    && r.clock <= r'.clock && Observed(log[r.version..], r'.clock)
  }

  datatype Event<E> =
    | Open(name: nat)
    | Attempt(name: nat, batch: seq<Entry<E>>, stamped: seq<Entry<E>>)
    | CatchUp(name: nat)

  ghost predicate Next<E>(s: System<E>, e: Event<E>, s': System<E>) {
    && e.name in s'.replicas
    && s'.replicas == s.replicas[e.name := s'.replicas[e.name]]
    && match e
       case Open(name) => name !in s.replicas && s'.log == s.log && Opens(s.log, s'.replicas[name])
       case Attempt(name, batch, stamped) =>
         name in s.replicas && Attempts(s.log, s.replicas[name], batch, stamped, s'.log, s'.replicas[name])
       case CatchUp(name) =>
         name in s.replicas && s'.log == s.log && CatchesUp(s.log, s.replicas[name], s'.replicas[name])
  }

  /** The attempt appended its operations. */
  ghost predicate Succeeds<E>(s: System<E>, e: Event<E>) {
    e.Attempt? && e.name in s.replicas && s.replicas[e.name].version == |s.log|
  }

  /** A run from an empty log with no engines. */
  ghost predicate IsRun<E>(run: seq<System<E>>, events: seq<Event<E>>) {
    && |run| == |events| + 1 && run[0] == System([], map[])
    && forall k :: 0 <= k < |events| ==> Next(run[k], events[k], run[k + 1])
  }

  // ----- what every state of every run satisfies -----

  /** The replica knows exactly a prefix of the log, folded by id, and its clock has seen it. */
  ghost predicate Faithful<E>(log: seq<Entry<E>>, r: Replica<E>) {
    && r.version <= |log| && r.known == FoldOps(map[], log[..r.version])
    && Observed(log[..r.version], r.clock)
  }

  ghost predicate AllFaithful<E>(s: System<E>) {
    forall name :: name in s.replicas ==> Faithful(s.log, s.replicas[name])
  }

  lemma OpenIsFaithful<E>(log: seq<Entry<E>>, r: Replica<E>)
    requires Opens(log, r)
    ensures Faithful(log, r)
  {
    assert log[..|log|] == log;
  }

  lemma AttemptIsFaithful<E>(log: seq<Entry<E>>, r: Replica<E>, batch: seq<Entry<E>>, stamped: seq<Entry<E>>,
                             log': seq<Entry<E>>, r': Replica<E>)
    requires Faithful(log, r) && Attempts(log, r, batch, stamped, log', r')
    ensures Faithful(log', r') && log <= log'
  {
    var mid :| AttemptsAt(log, r, batch, stamped, mid, log', r');
    if r.version == |log| {
      assert log[..|log|] == log && log'[..|log'|] == log + stamped;
      FoldConcat(map[], log, stamped);
    }
  }

  lemma CatchUpIsFaithful<E>(log: seq<Entry<E>>, r: Replica<E>, r': Replica<E>)
    requires Faithful(log, r) && CatchesUp(log, r, r')
    ensures Faithful(log, r')
  {
    var head, tail := log[..r.version], log[r.version..];
    assert log == head + tail && log[..|log|] == log;
    FoldConcat(map[], head, tail);
  }

  /** What a replica knows is unaffected by what others append. */
  lemma FaithfulSurvives<E>(log: seq<Entry<E>>, log': seq<Entry<E>>, r: Replica<E>)
    requires Faithful(log, r) && log <= log'
    ensures Faithful(log', r)
  {
    assert log'[..r.version] == log[..r.version];
  }

  lemma NextIsFaithful<E>(s: System<E>, e: Event<E>, s': System<E>)
    requires AllFaithful(s) && Next(s, e, s')
    ensures AllFaithful(s') && s.log <= s'.log
  {
    match e {
      case Open(name) => OpenIsFaithful(s.log, s'.replicas[name]);
      case Attempt(name, batch, stamped) =>
        AttemptIsFaithful(s.log, s.replicas[name], batch, stamped, s'.log, s'.replicas[name]);
      case CatchUp(name) => CatchUpIsFaithful(s.log, s.replicas[name], s'.replicas[name]);
    }
    forall name | name in s'.replicas && name != e.name
      ensures Faithful(s'.log, s'.replicas[name])
    {
      FaithfulSurvives(s.log, s'.log, s.replicas[name]);
    }
  }

  /** In every run every engine knows exactly the log prefix of its version, and the log only grows. */
  lemma {:induction false} RunsAreFaithful<E>(run: seq<System<E>>, events: seq<Event<E>>, k: nat)
    requires IsRun(run, events) && k < |run|
    ensures AllFaithful(run[k])
    ensures forall j :: 0 <= j <= k ==> run[j].log <= run[k].log
  {
    if k > 0 {
      RunsAreFaithful(run, events, k - 1);
      NextIsFaithful(run[k - 1], events[k - 1], run[k]);
    }
  }

  /** Engines that have reached the same version, at any two moments of a run, know the same operations. */
  lemma EqualVersionsAgree<E>(run: seq<System<E>>, events: seq<Event<E>>, j: nat, k: nat, a: nat, b: nat)
    requires IsRun(run, events) && j <= k < |run| && a in run[j].replicas && b in run[k].replicas
    requires run[j].replicas[a].version == run[k].replicas[b].version
    ensures run[j].replicas[a].known == run[k].replicas[b].known
  {
    RunsAreFaithful(run, events, j);
    RunsAreFaithful(run, events, k);
    var v := run[j].replicas[a].version;
    assert run[j].log[..v] == run[k].log[..v];
  }

  /** An attempt at a stale version leaves the log as it was. */
  lemma ConflictLeavesLog<E>(run: seq<System<E>>, events: seq<Event<E>>, k: nat)
    requires IsRun(run, events) && k < |events|
    ensures !Succeeds(run[k], events[k]) ==> run[k + 1].log == run[k].log
    ensures Succeeds(run[k], events[k]) ==> run[k + 1].log == run[k].log + events[k].stamped
  {
    assert Next(run[k], events[k], run[k + 1]);
  }

  /** Every operation an engine stamps is later than everything in the log before its batch. */
  lemma StampsAreLater<E>(run: seq<System<E>>, events: seq<Event<E>>, k: nat, i: nat, j: nat)
    requires IsRun(run, events) && k < |events| && Succeeds(run[k], events[k])
    requires j < |run[k].log| && |run[k].log| + i < |run[k + 1].log|
    requires var e := events[k]; var incoming := Unseen(run[k].replicas[e.name].known, e.batch);
      i < |incoming| && incoming[i].ts == 0
    ensures run[k].log[j].ts < run[k + 1].log[|run[k].log| + i].ts
  {
    var e := events[k];
    var s, r := run[k], run[k].replicas[e.name];
    RunsAreFaithful(run, events, k);
    assert Next(s, e, run[k + 1]);
    assert s.log[..r.version] == s.log;
    assert s.log[j].ts <= r.clock;
  }

  /** Whether the appended part keeps ids unique depends on the batch alone. */
  lemma AppendKeepsUniqueIff<E>(log: seq<Entry<E>>, r: Replica<E>, batch: seq<Entry<E>>, stamped: seq<Entry<E>>,
                                log': seq<Entry<E>>, r': Replica<E>)
    requires Faithful(log, r) && Attempts(log, r, batch, stamped, log', r') && r.version == |log|
    requires UniqueIds(log)
    ensures UniqueIds(log') <==> UniqueIds(Unseen(r.known, batch))
  {
    var incoming := Unseen(r.known, batch);
    var mid :| AttemptsAt(log, r, batch, stamped, mid, log', r');
    StampKeepsIds(incoming, stamped, r.clock, mid, 0);
    assert log[..|log|] == log;
    forall j, k | 0 <= j < |log| && 0 <= k < |stamped|
      ensures log[j].id != stamped[k].id
    {
      var i := UnseenAreNew(r.known, batch, k);
      FoldIds(map[], log, stamped[k].id);
    }
    UniqueConcat(log, stamped);
  }

  lemma UniqueConcat<E>(a: seq<Entry<E>>, b: seq<Entry<E>>)
    requires UniqueIds(a) && forall j, k :: 0 <= j < |a| && 0 <= k < |b| ==> a[j].id != b[k].id
    ensures UniqueIds(a + b) <==> UniqueIds(b)
  {
    if UniqueIds(a + b) {
      forall j, k | 0 <= j < k < |b|
        ensures b[j].id != b[k].id
      {
        assert (a + b)[|a| + j] == b[j] && (a + b)[|a| + k] == b[k];
      }
    }
  }

  /** No id is appended twice in a run whose batches have distinct ids. */
  lemma {:induction false} RunsKeepIdsUnique<E>(run: seq<System<E>>, events: seq<Event<E>>, k: nat)
    requires IsRun(run, events) && k < |run|
    requires forall i :: 0 <= i < |events| && events[i].Attempt? ==> UniqueIds(events[i].batch)
    ensures UniqueIds(run[k].log)
  {
    if k > 0 {
      RunsKeepIdsUnique(run, events, k - 1);
      RunsAreFaithful(run, events, k - 1);
      var s, e, s' := run[k - 1], events[k - 1], run[k];
      assert Next(s, e, s');
      if Succeeds(s, e) {
        UnseenKeepsUnique(s.replicas[e.name].known, e.batch);
        AppendKeepsUniqueIff(s.log, s.replicas[e.name], e.batch, e.stamped, s'.log, s'.replicas[e.name]);
      }
    }
  }

  /** A batch that repeats a new id is appended with the repetition, so the ids must be distinct. */
  lemma RepeatedIdIsAppendedTwice<E>(
      log: seq<Entry<E>>, r: Replica<E>, batch: seq<Entry<E>>, j: nat, k: nat, stamped: seq<Entry<E>>,
      log': seq<Entry<E>>, r': Replica<E>)
    requires Faithful(log, r) && r.version == |log| && UniqueIds(log) && Attempts(log, r, batch, stamped, log', r')
    requires j < k < |batch| && batch[j].id == batch[k].id && batch[j].id !in r.known
    ensures !UniqueIds(log')
  {
    UnseenRepeats(r.known, batch, j, k);
    AppendKeepsUniqueIff(log, r, batch, stamped, log', r');
  }

  /** `stamped` is the part of the batch whose ids are not in the log, in order, with only timestamps filled in. */
  ghost predicate IsNewPart<E>(log: seq<Entry<E>>, batch: seq<Entry<E>>, stamped: seq<Entry<E>>) {
    exists before: int, after: int :: IsStamped(Unseen(FoldOps(map[], log), batch), stamped, before, after)
  }

  /** What is unseen by an engine that knows the whole log, or every id of the batch, is not in the log. */
  lemma UnseenIsNew<E>(log: seq<Entry<E>>, r: Replica<E>, batch: seq<Entry<E>>)
    requires Faithful(log, r) && (r.version == |log| || Unseen(r.known, batch) == [])
    ensures Unseen(FoldOps(map[], log), batch) == Unseen(r.known, batch)
  {
    if r.version == |log| {
      assert log[..|log|] == log;
    } else {
      forall k | 0 <= k < |batch|
        ensures batch[k].id in FoldOps(map[], log)
      {
        KnownIsInLog(log, r, batch, k);
      }
      var rest := Unseen(FoldOps(map[], log), batch);
      if rest != [] {
        var j := UnseenAreNew(FoldOps(map[], log), batch, 0);
      }
    }
  }

  lemma KnownIsInLog<E>(log: seq<Entry<E>>, r: Replica<E>, batch: seq<Entry<E>>, k: nat)
    requires Faithful(log, r) && Unseen(r.known, batch) == [] && k < |batch|
    ensures batch[k].id in FoldOps(map[], log)
  {
    var id, head := batch[k].id, log[..r.version];
    if id !in r.known { UnseenCoversNew(r.known, batch, id); }
    FoldIds(map[], head, id);
    FoldIds(map[], log, id);
    var j :| 0 <= j < |head| && head[j].id == id;
    assert log[j].id == id;
  }

  /** A successful attempt appends exactly the new part of its batch. */
  lemma AppliedIsNewPart<E>(log: seq<Entry<E>>, r: Replica<E>, batch: seq<Entry<E>>, stamped: seq<Entry<E>>,
                            log': seq<Entry<E>>, r': Replica<E>)
    requires Faithful(log, r)
    requires if Unseen(r.known, batch) == [] then stamped == []
      else r.version == |log| && Attempts(log, r, batch, stamped, log', r')
    ensures IsNewPart(log, batch, stamped)
  {
    UnseenIsNew(log, r, batch);
    if Unseen(r.known, batch) == [] {
      assert IsStamped(Unseen(r.known, batch), stamped, 0, 0);
    } else {
      var mid :| AttemptsAt(log, r, batch, stamped, mid, log', r');
      assert IsStamped(Unseen(r.known, batch), stamped, r.clock, mid);
    }
  }

  /** With its new part appended, every operation of the batch is in the log. */
  lemma NewPartCompletes<E>(log: seq<Entry<E>>, batch: seq<Entry<E>>, stamped: seq<Entry<E>>)
    requires IsNewPart(log, batch, stamped)
    ensures forall k :: 0 <= k < |batch| ==> HasId(log + stamped, batch[k].id)
  {
    var before, after :| IsStamped(Unseen(FoldOps(map[], log), batch), stamped, before, after);
    forall k | 0 <= k < |batch|
      ensures HasId(log + stamped, batch[k].id)
    {
      InLogOrNew(log, batch, stamped, before, after, k);
    }
  }

  lemma InLogOrNew<E>(log: seq<Entry<E>>, batch: seq<Entry<E>>, stamped: seq<Entry<E>>, before: int, after: int, k: nat)
    requires k < |batch| && IsStamped(Unseen(FoldOps(map[], log), batch), stamped, before, after)
    ensures HasId(log + stamped, batch[k].id)
  {
    var id, whole := batch[k].id, FoldOps(map[], log);
    FoldIds(map[], log, id);
    if id in whole {
      var j :| 0 <= j < |log| && log[j].id == id;
      assert (log + stamped)[j].id == id;
    } else {
      UnseenCoversNew(whole, batch, id);
      var j :| 0 <= j < |Unseen(whole, batch)| && Unseen(whole, batch)[j].id == id;
      assert (log + stamped)[|log| + j].id == id;
    }
  }
}
