/** clock/clock.go and store/memory/memory.go: the clock and the log an engine works on. */
module Storage {
  import opened Runs

  // ----- clock/clock.go -----

  /**
   * A hybrid clock. `wall` gives the successive readings of the wall clock; readings that never pass
   * `last` make it the Lamport clock.
   */
  class Clock {
    const wall: nat -> int
    var ticks: nat
    var last: int

    constructor (wall: nat -> int)
      ensures last == 0
    {
      this.wall, ticks, last := wall, 0, 0;
    }

    /** The next timestamp, past every one returned or observed before. */
    method Tick() returns (ts: int)
      modifies this
      ensures ts > old(last) && last == ts && ticks == old(ticks) + 1
      ensures ts == if wall(old(ticks)) > old(last) then wall(old(ticks)) else old(last) + 1
    {
      ts := wall(ticks);
      ticks := ticks + 1;
      if ts <= last { ts := last + 1; }
      last := ts;
    }

    /** Moves the clock to at least `ts`. */
    method Observe(ts: int)
      modifies this`last
      ensures last == if ts <= old(last) then old(last) else ts
    {
      if ts > last { last := ts; }
    }
  }

  // ----- store/memory/memory.go -----

  /** The in-memory log of operations `O` with at most one snapshot `S`. */
  class Store<O, S> {
    var ops: seq<O>
    var snapshot: Option<S>

    constructor ()
      ensures ops == [] && snapshot == None
    {
      ops, snapshot := [], None;
    }

    /** Appends when the expected version is the length of the log, and changes nothing otherwise. */
    method Append(expectedVersion: int, events: seq<O>) returns (ok: bool)
      modifies this`ops
      ensures ok <==> old(|ops|) == expectedVersion
      ensures ops == if ok then old(ops) + events else old(ops)
    {
      if |ops| != expectedVersion { return false; }
      ops := ops + events;
      return true;
    }

    /** The operations after a version, clamped to the log, and the log length. */
    method Read(fromVersion: int) returns (out: seq<O>, version: nat)
      ensures version == |ops|
      ensures out == if fromVersion <= 0 then ops else if fromVersion >= |ops| then [] else ops[fromVersion..]
    {
      var from := if fromVersion < 0 then 0 else if fromVersion > |ops| then |ops| else fromVersion;
      return ops[from..], |ops|;
    }

    /** Replaces the snapshot. */
    method SaveSnapshot(data: S)
      modifies this`snapshot
      ensures snapshot == Some(data)
    {
      snapshot := Some(data);
    }

    /** The snapshot last saved, if any. */
    method LoadSnapshot() returns (data: Option<S>)
      ensures data == snapshot
    {
      data := snapshot;
    }
  }

  /** The log after others have appended to it before attempts `0` to `k - 1`. */
  function LogAt<O>(log: seq<O>, rivals: nat -> seq<O>, k: nat): seq<O> {
    if k == 0 then log else LogAt(log, rivals, k - 1) + rivals(k - 1)
  }

  lemma {:induction false} LogOnlyGrows<O>(log: seq<O>, rivals: nat -> seq<O>, j: nat, k: nat)
    requires j <= k
    ensures LogAt(log, rivals, j) <= LogAt(log, rivals, k)
  {
    if j < k { LogOnlyGrows(log, rivals, j, k - 1); }
  }
}
