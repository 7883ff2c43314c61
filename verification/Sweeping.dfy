/** interval/sweep.go: the event sweep over the doubled line with a lazily cleaned priority heap. */
module Sweeping {
  import opened Line
  import opened Runs
  import opened Sequences

  /** One maximal piece of a swept union and the index of the interval that owns it. */
  datatype Cover = Cover(interval: Interval, index: nat)

  datatype Event = Event(p: Fine, idx: nat, start: bool)

  type Rank = (nat, nat) -> bool

  /** `better` is a strict weak order on the indices below `n`. */
  ghost predicate Ranks(better: Rank, n: nat) {
    && (forall i, j :: 0 <= i < n && 0 <= j < n && better(i, j) ==> !better(j, i))
    && (forall i, j, k :: 0 <= i < n && 0 <= j < n && 0 <= k < n && !better(j, i) && !better(k, j) ==> !better(k, i))
  }

  /** The order of the heap: better first, ties by the lower index. */
  predicate Outranks(better: Rank, i: nat, j: nat) {
    if better(i, j) then true else if better(j, i) then false else i < j
  }

  lemma OutranksIsTotal(better: Rank, n: nat, i: nat, j: nat)
    requires Ranks(better, n) && i < n && j < n && i != j
    ensures Outranks(better, i, j) <==> !Outranks(better, j, i)
  {
  }

  lemma OutranksIsTransitive(better: Rank, n: nat, i: nat, j: nat, k: nat)
    requires Ranks(better, n) && i < n && j < n && k < n
    requires !Outranks(better, j, i) && !Outranks(better, k, j)
    ensures !Outranks(better, k, i)
  {
  }

  /** Interval `i` covers the fine point and outranks every other interval that does. */
  ghost predicate IsBest(ivs: seq<Interval>, better: Rank, i: nat, p: Fine) {
    && i < |ivs| && Holds(ivs[i], p)
    && forall j :: 0 <= j < |ivs| && j != i && Holds(ivs[j], p) ==> Outranks(better, i, j)
  }

  /** The best interval at a point: none that covers it is better, and those before it in the list are worse. */
  lemma BestIff(ivs: seq<Interval>, better: Rank, i: nat, p: Fine)
    requires Ranks(better, |ivs|)
    ensures IsBest(ivs, better, i, p) <==>
      i < |ivs| && Holds(ivs[i], p) && forall j: nat :: j < |ivs| && j != i && Holds(ivs[j], p) ==>
        !better(j, i) && (j < i ==> better(i, j))
  {
    if i < |ivs| && Holds(ivs[i], p) {
      assert forall j :: 0 <= j < |ivs| && j != i ==> (Outranks(better, i, j) <==> !better(j, i) && (j < i ==> better(i, j)));
    }
  }

  ghost predicate OnSome<L>(rs: seq<Run<L>>, p: Fine) {
    exists k :: 0 <= k < |rs| && On(rs[k], p)
  }

  /** The runs label exactly the covered fine points before `q` with the best interval covering them. */
  ghost predicate SweptTo(ivs: seq<Interval>, better: Rank, rs: seq<Run<nat>>, q: Fine) {
    && Canonical(rs)
    && (forall k :: 0 <= k < |rs| ==> Le(rs[k].hi, q))
    && (forall k, p :: 0 <= k < |rs| && On(rs[k], p) ==> IsBest(ivs, better, rs[k].tag, p))
    && (forall i, p :: 0 <= i < |ivs| && Holds(ivs[i], p) && Lt(p, q) ==> OnSome(rs, p))
  }

  /** What a sweep promises: canonical runs labelling exactly the covered fine points with their best interval. */
  ghost predicate IsSweep(ivs: seq<Interval>, better: Rank, rs: seq<Run<nat>>) {
    && Canonical(rs)
    && (forall k, p :: 0 <= k < |rs| && On(rs[k], p) ==> IsBest(ivs, better, rs[k].tag, p))
    && (forall i, p :: 0 <= i < |ivs| && Holds(ivs[i], p) ==> OnSome(rs, p))
  }

  // ----- the heap of active intervals -----

  /** The position of an item that no other outranks. */
  method TopOf(items: seq<nat>, better: Rank, ghost n: nat) returns (m: nat)
    requires Ranks(better, n) && items != []
    requires forall k :: 0 <= k < |items| ==> items[k] < n
    ensures m < |items| && forall k :: 0 <= k < |items| ==> !Outranks(better, items[k], items[m])
  {
    m := 0;
    for i := 1 to |items|
      invariant m < |items|
      invariant forall k :: 0 <= k < i ==> !Outranks(better, items[k], items[m])
    {
      if Outranks(better, items[i], items[m]) {
        forall k | 0 <= k < i
          ensures !Outranks(better, items[k], items[i])
        {
          OutranksIsTotal(better, n, items[m], items[i]);
          OutranksIsTransitive(better, n, items[i], items[m], items[k]);
        }
        m := i;
      }
    }
  }

  /** The items with the one at position `m` moved to the front. */
  function Raised(items: seq<nat>, m: nat): (out: seq<nat>)
    requires m < |items|
    ensures multiset(out) == multiset(items) && |out| == |items| && out[0] == items[m]
    ensures forall k :: 0 <= k < |out| ==> out[k] in items
  {
    assert items == items[..m] + [items[m]] + items[m + 1..];
    [items[m]] + items[..m] + items[m + 1..]
  }

  lemma RaisedIsHeap(items: seq<nat>, m: nat, better: Rank, n: nat)
    requires m < |items| && (forall k :: 0 <= k < |items| ==> items[k] < n && !Outranks(better, items[k], items[m]))
    ensures forall k :: 0 <= k < |items| ==>
      Raised(items, m)[k] < n && !Outranks(better, Raised(items, m)[k], Raised(items, m)[0])
  {
    forall k | 0 <= k < |items|
      ensures Raised(items, m)[k] < n && !Outranks(better, Raised(items, m)[k], items[m])
    {
      var j :| 0 <= j < |items| && items[j] == Raised(items, m)[k];
    }
  }

  /** A rearrangement with nothing outranking the front. */
  method Reheaped(items: seq<nat>, better: Rank, ghost n: nat) returns (out: seq<nat>)
    requires Ranks(better, n) && items != [] && forall k :: 0 <= k < |items| ==> items[k] < n
    ensures multiset(out) == multiset(items) && |out| == |items|
    ensures forall k :: 0 <= k < |out| ==> out[k] < n && !Outranks(better, out[k], out[0])
  {
    var m := TopOf(items, better, n);
    RaisedIsHeap(items, m, better, n);
    out := Raised(items, m);
  }

  class CoverHeap {
    const better: Rank
    var items: seq<nat>
    var gone: seq<bool>

    /** Every item is a known index, and nothing outranks the item at the top. */
    ghost predicate Valid()
      reads this
    {
      && Ranks(better, |gone|)
      && (forall k :: 0 <= k < |items| ==> items[k] < |gone|)
      && (forall k :: 0 <= k < |items| ==> !Outranks(better, items[k], items[0]))
    }

    constructor (better: Rank, n: nat)
      requires Ranks(better, n)
      ensures Valid() && this.better == better && items == [] && gone == seq(n, _ => false)
    {
      this.better := better;
      items := [];
      gone := seq(n, _ => false);
    }

    /** container/heap Push, by contract. */
    method Push(x: nat)
      requires Valid() && x < |gone|
      modifies this`items
      ensures Valid() && multiset(items) == old(multiset(items)) + multiset{x}
    {
      if items == [] || !Outranks(better, x, items[0]) {
        items := items + [x];
      } else {
        forall k | 0 <= k < |items|
          ensures !Outranks(better, items[k], x)
        {
          if items[k] != x {
            OutranksIsTotal(better, |gone|, x, items[0]);
            OutranksIsTransitive(better, |gone|, x, items[0], items[k]);
          }
        }
        items := [x] + items;
      }
    }

    /** container/heap Pop, by contract: drops the top and brings a best remaining item up. */
    method Pop()
      requires Valid() && items != []
      modifies this`items
      ensures Valid() && multiset(items) == old(multiset(items)) - multiset{old(items[0])}
      ensures |items| == old(|items|) - 1
    {
      var rest := items[1..];
      TailOfMultiset(items);
      assert forall k :: 0 <= k < |rest| ==> rest[k] == items[k + 1];
      if rest == [] {
        items := rest;
      } else {
        items := Reheaped(rest, better, |gone|);
      }
    }

    /** The best interval not yet gone; gone ones are dropped when they reach the top. */
    method Best() returns (idx: nat, ok: bool)
      requires Valid()
      modifies this`items
      ensures Valid()
      ensures forall i :: i in items ==> i in old(items)
      ensures forall i :: i in old(items) && !gone[i] ==> i in items
      ensures ok ==> idx in items && !gone[idx]
      ensures ok ==> forall j :: j in items && j != idx ==> Outranks(better, idx, j)
      ensures !ok ==> items == []
    {
      while items != []
        invariant Valid()
        invariant forall i :: i in items ==> i in old(items)
        invariant forall i :: i in old(items) && !gone[i] ==> i in items
        decreases |items|
      {
        idx := items[0];
        if !gone[idx] {
          forall j | j in items && j != idx
            ensures Outranks(better, idx, j)
          {
            OutranksIsTotal(better, |gone|, idx, j);
          }
          return idx, true;
        }
        ghost var before := items;
        Pop();
        forall i
          ensures i in items <==> i in before && (i != idx || multiset(before)[i] > 1)
        {
          assert i in items <==> i in multiset(items);
          assert i in before <==> i in multiset(before);
        }
      }
      return 0, false;
    }
  }

  // ----- events -----

  predicate LessEvent(a: Event, b: Event) {
    if Lt(a.p, b.p) then true else if Lt(b.p, a.p) then false else a.idx < b.idx
  }

  function Begin(ivs: seq<Interval>, i: nat): Event
    requires i < |ivs|
  {
    Event(Lo(ivs[i]), i, true)
  }

  function End(ivs: seq<Interval>, i: nat): Event
    requires i < |ivs|
  {
    Event(Hi(ivs[i]), i, false)
  }

  /** The list holds the start and the end event of every interval, and no other. */
  ghost predicate EventsOf(ivs: seq<Interval>, evs: seq<Event>) {
    && (forall e :: e in evs ==> e.idx < |ivs| && e == if e.start then Begin(ivs, e.idx) else End(ivs, e.idx))
    && (forall i :: 0 <= i < |ivs| ==> Begin(ivs, i) in evs && End(ivs, i) in evs)
  }

  ghost predicate InOrder(evs: seq<Event>) {
    forall j, k :: 0 <= j < k < |evs| ==> Le(evs[j].p, evs[k].p)
  }

  lemma MoreEvents(ivs: seq<Interval>, i: nat, raw: seq<Event>)
    requires i < |ivs| && EventsOf(ivs[..i], raw)
    ensures EventsOf(ivs[..i + 1], raw + [Begin(ivs, i), End(ivs, i)])
  {
    var more, ivs' := raw + [Begin(ivs, i), End(ivs, i)], ivs[..i + 1];
    forall j | 0 <= j < |ivs'|
      ensures Begin(ivs', j) in more && End(ivs', j) in more
    {
      if j < i {
        assert Begin(ivs[..i], j) == Begin(ivs', j) && End(ivs[..i], j) == End(ivs', j);
      } else {
        assert more[|raw|] == Begin(ivs', j) && more[|raw| + 1] == End(ivs', j);
      }
    }
    forall e | e in more
      ensures e.idx < |ivs'| && e == if e.start then Begin(ivs', e.idx) else End(ivs', e.idx)
    {
      if e in raw {
        assert ivs'[e.idx] == ivs[..i][e.idx];
      }
    }
  }

  method SweepEvents(ivs: seq<Interval>) returns (evs: seq<Event>)
    ensures EventsOf(ivs, evs) && InOrder(evs)
  {
    var raw: seq<Event> := [];
    for i := 0 to |ivs|
      invariant EventsOf(ivs[..i], raw)
    {
      MoreEvents(ivs, i, raw);
      raw := raw + [Begin(ivs, i), End(ivs, i)];
    }
    assert ivs[..|ivs|] == ivs;
    evs := Sort(raw, LessEvent);
  }

  /** After the first `i` events the heap holds every interval begun and not ended, and `gone` the ended ones. */
  ghost predicate Tracks(ivs: seq<Interval>, evs: seq<Event>, i: nat, items: seq<nat>, gone: seq<bool>)
    requires i <= |evs|
  {
    && |gone| == |ivs| && (forall k: nat :: k in items ==> k < |ivs|)
    && (forall k: nat :: k < |ivs| ==> TracksOne(ivs, evs[..i], items, gone, k))
  }

  ghost predicate TracksOne(ivs: seq<Interval>, past: seq<Event>, items: seq<nat>, gone: seq<bool>, k: nat)
    requires |gone| == |ivs| && k < |ivs|
  {
    && (k in items ==> Begin(ivs, k) in past)
    && (gone[k] <==> End(ivs, k) in past)
    && (Begin(ivs, k) in past && !gone[k] ==> k in items)
  }

  lemma TrackStart(ivs: seq<Interval>, evs: seq<Event>, i: nat, items: seq<nat>, gone: seq<bool>, items': seq<nat>)
    requires i < |evs| && EventsOf(ivs, evs) && Tracks(ivs, evs, i, items, gone) && evs[i].start
    requires multiset(items') == multiset(items) + multiset{evs[i].idx}
    ensures Tracks(ivs, evs, i + 1, items', gone)
  {
    assert evs[..i + 1] == evs[..i] + [evs[i]];
    assert forall k :: k in items' <==> k in multiset(items');
    assert forall k :: k in items <==> k in multiset(items);
    assert evs[i] in evs;
    var past := evs[..i + 1];
    forall k: nat | k < |ivs|
      ensures TracksOne(ivs, past, items', gone, k)
    {
      assert TracksOne(ivs, evs[..i], items, gone, k);
    }
  }

  lemma TrackEnd(ivs: seq<Interval>, evs: seq<Event>, i: nat, items: seq<nat>, gone: seq<bool>)
    requires i < |evs| && EventsOf(ivs, evs) && Tracks(ivs, evs, i, items, gone) && !evs[i].start
    ensures evs[i].idx < |gone| && Tracks(ivs, evs, i + 1, items, gone[evs[i].idx := true])
  {
    assert evs[..i + 1] == evs[..i] + [evs[i]];
    assert evs[i] in evs;
    var gone' := gone[evs[i].idx := true];
    var past := evs[..i + 1];
    forall k: nat | k < |ivs|
      ensures TracksOne(ivs, past, items, gone', k)
    {
      assert TracksOne(ivs, evs[..i], items, gone, k);
    }
  }

  /** Dropping items that are gone loses track of nothing. */
  lemma TracksFewer(ivs: seq<Interval>, evs: seq<Event>, i: nat, items: seq<nat>, gone: seq<bool>, items': seq<nat>)
    requires i <= |evs| && Tracks(ivs, evs, i, items, gone)
    requires (forall k :: k in items' ==> k in items) && (forall k :: k in items && !gone[k] ==> k in items')
    ensures Tracks(ivs, evs, i, items', gone)
  {
    var past := evs[..i];
    forall k: nat | k < |ivs|
      ensures TracksOne(ivs, past, items', gone, k)
    {
      assert TracksOne(ivs, past, items, gone, k);
    }
  }

  /** Applies one event: a start pushes its interval, an end marks it gone. */
  method ApplyEvent(h: CoverHeap, evs: seq<Event>, i: nat, ghost ivs: seq<Interval>)
    requires h.Valid() && i < |evs| && EventsOf(ivs, evs) && Tracks(ivs, evs, i, h.items, h.gone)
    modifies h
    ensures h.Valid() && Tracks(ivs, evs, i + 1, h.items, h.gone)
  {
    assert evs[i] in evs;
    if evs[i].start {
      ghost var before := h.items;
      h.Push(evs[i].idx);
      TrackStart(ivs, evs, i, before, h.gone, h.items);
    } else {
      TrackEnd(ivs, evs, i, h.items, h.gone);
      h.gone := h.gone[evs[i].idx := true];
    }
  }

  /** Applies every event at point `p` and returns the index of the next one. */
  method ApplyEvents(h: CoverHeap, evs: seq<Event>, from: nat, p: Fine, ghost ivs: seq<Interval>) returns (i: nat)
    requires h.Valid() && from < |evs| && evs[from].p == p
    requires EventsOf(ivs, evs) && InOrder(evs) && Tracks(ivs, evs, from, h.items, h.gone)
    modifies h
    ensures h.Valid() && from < i <= |evs| && Tracks(ivs, evs, i, h.items, h.gone)
    ensures evs[i - 1].p == p && (i < |evs| ==> Lt(p, evs[i].p))
  {
    i := from;
    while i < |evs| && evs[i].p == p
      invariant from <= i <= |evs| && h.Valid() && Tracks(ivs, evs, i, h.items, h.gone)
      invariant from < i ==> evs[i - 1].p == p
    {
      ApplyEvent(h, evs, i, ivs);
      i := i + 1;
    }
    Stops(evs, i);
  }

  lemma Stops(evs: seq<Event>, i: nat)
    requires InOrder(evs) && 0 < i <= |evs| && (i < |evs| ==> evs[i].p != evs[i - 1].p)
    ensures i < |evs| ==> Lt(evs[i - 1].p, evs[i].p)
  {
  }

  /** Between two consecutive event points the begun and not ended intervals are exactly the covering ones. */
  lemma ActiveIsCovering(ivs: seq<Interval>, evs: seq<Event>, i: nat, items: seq<nat>, gone: seq<bool>, k: nat, r: Fine)
    requires EventsOf(ivs, evs) && InOrder(evs) && 0 < i < |evs| && Lt(evs[i - 1].p, evs[i].p)
    requires Tracks(ivs, evs, i, items, gone)
    requires k < |ivs| && Le(evs[i - 1].p, r) && Lt(r, evs[i].p)
    ensures Holds(ivs[k], r) <==> k in items && !gone[k]
  {
    assert TracksOne(ivs, evs[..i], items, gone, k);
    Split(ivs, evs, i, Begin(ivs, k));
    Split(ivs, evs, i, End(ivs, k));
  }

  lemma Split(ivs: seq<Interval>, evs: seq<Event>, i: nat, e: Event)
    requires InOrder(evs) && 0 < i < |evs| && Lt(evs[i - 1].p, evs[i].p) && e in evs
    ensures e in evs[..i] <==> Le(e.p, evs[i - 1].p)
    ensures e !in evs[..i] <==> Le(evs[i].p, e.p)
  {
    var j :| 0 <= j < |evs| && evs[j] == e;
    if j < i {
      assert evs[..i][j] == e;
    } else {
      assert Le(evs[i].p, e.p);
      forall m | 0 <= m < i
        ensures evs[..i][m] != e
      {
        assert Le(evs[m].p, evs[i - 1].p);
      }
    }
  }

  // ----- runs -----

  function AppendRun(rs: seq<Run<nat>>, lo: Fine, hi: Fine, idx: nat): seq<Run<nat>> {
    if rs != [] && rs[|rs| - 1].tag == idx && rs[|rs| - 1].hi == lo then
      rs[..|rs| - 1] + [Run(rs[|rs| - 1].lo, hi, idx)]
    else
      rs + [Run(lo, hi, idx)]
  }

  lemma AppendedOn(rs: seq<Run<nat>>, lo: Fine, hi: Fine, idx: nat, p: Fine)
    requires Lt(lo, hi) && (forall k :: 0 <= k < |rs| ==> Lt(rs[k].lo, rs[k].hi) && Le(rs[k].hi, lo))
    ensures OnSome(AppendRun(rs, lo, hi, idx), p) <==> OnSome(rs, p) || (Le(lo, p) && Lt(p, hi))
  {
    var rs' := AppendRun(rs, lo, hi, idx);
    var last := |rs'| - 1;
    if OnSome(rs, p) {
      var k :| 0 <= k < |rs| && On(rs[k], p);
      assert On(rs'[k], p);
    }
    if Le(lo, p) && Lt(p, hi) {
      assert On(rs'[last], p);
    }
    if OnSome(rs', p) {
      var k :| 0 <= k < |rs'| && On(rs'[k], p);
      if k < |rs| && On(rs[k], p) { assert OnSome(rs, p); }
    }
  }

  lemma AppendedCanonical(rs: seq<Run<nat>>, lo: Fine, hi: Fine, idx: nat)
    requires Lt(lo, hi) && Canonical(rs) && (forall k :: 0 <= k < |rs| ==> Le(rs[k].hi, lo))
    ensures Canonical(AppendRun(rs, lo, hi, idx))
    ensures forall k :: 0 <= k < |AppendRun(rs, lo, hi, idx)| ==> Le(AppendRun(rs, lo, hi, idx)[k].hi, hi)
  {
    var rs' := AppendRun(rs, lo, hi, idx);
    if |rs'| == |rs| {
      assert forall k :: 0 <= k < |rs| - 1 ==> rs'[k] == rs[k];
    } else {
      assert forall k :: 0 <= k < |rs| ==> rs'[k] == rs[k];
      forall j | 0 <= j < |rs| && rs[j].hi == lo
        ensures rs[j].tag != idx
      {
        if j < |rs| - 1 {
          assert false;
        }
      }
    }
  }

  /** Recording the best interval of the next stretch extends the sweep to its end. */
  lemma ExtendSwept(ivs: seq<Interval>, better: Rank, rs: seq<Run<nat>>, lo: Fine, hi: Fine, idx: nat)
    requires Lt(lo, hi) && SweptTo(ivs, better, rs, lo)
    requires forall p :: Le(lo, p) && Lt(p, hi) ==> IsBest(ivs, better, idx, p)
    ensures SweptTo(ivs, better, AppendRun(rs, lo, hi, idx), hi)
  {
    var rs' := AppendRun(rs, lo, hi, idx);
    AppendedCanonical(rs, lo, hi, idx);
    forall k, p | 0 <= k < |rs'| && On(rs'[k], p)
      ensures IsBest(ivs, better, rs'[k].tag, p)
    {
      if k < |rs| && On(rs[k], p) {
        assert rs'[k].tag == rs[k].tag;
      }
    }
    forall i, p | 0 <= i < |ivs| && Holds(ivs[i], p) && Lt(p, hi)
      ensures OnSome(rs', p)
    {
      AppendedOn(rs, lo, hi, idx, p);
    }
  }

  lemma BestOfActive(ivs: seq<Interval>, better: Rank, evs: seq<Event>, i: nat, items: seq<nat>, gone: seq<bool>, idx: nat,
                     r: Fine)
    requires EventsOf(ivs, evs) && InOrder(evs) && 0 < i < |evs| && Lt(evs[i - 1].p, evs[i].p)
    requires Tracks(ivs, evs, i, items, gone) && Le(evs[i - 1].p, r) && Lt(r, evs[i].p)
    requires idx in items && !gone[idx] && forall j :: j in items && j != idx ==> Outranks(better, idx, j)
    ensures IsBest(ivs, better, idx, r)
  {
    ActiveIsCovering(ivs, evs, i, items, gone, idx, r);
    forall j | 0 <= j < |ivs| && j != idx && Holds(ivs[j], r)
      ensures Outranks(better, idx, j)
    {
      ActiveIsCovering(ivs, evs, i, items, gone, j, r);
    }
  }

  /** One turn of the sweep: the stretch since the previous event point goes to the best active interval. */
  method SweepStretch(h: CoverHeap, ivs: seq<Interval>, evs: seq<Event>, i: nat, rs: seq<Run<nat>>)
    returns (rs': seq<Run<nat>>)
    requires h.Valid() && EventsOf(ivs, evs) && InOrder(evs)
    requires 0 < i < |evs| && Lt(evs[i - 1].p, evs[i].p) && Tracks(ivs, evs, i, h.items, h.gone)
    requires SweptTo(ivs, h.better, rs, evs[i - 1].p)
    modifies h`items
    ensures h.Valid() && Tracks(ivs, evs, i, h.items, h.gone)
    ensures SweptTo(ivs, h.better, rs', evs[i].p)
  {
    var lo, hi := evs[i - 1].p, evs[i].p;
    ghost var before := h.items;
    var idx, ok := h.Best();
    TracksFewer(ivs, evs, i, before, h.gone, h.items);
    if ok {
      forall p | Le(lo, p) && Lt(p, hi)
        ensures IsBest(ivs, h.better, idx, p)
      {
        BestOfActive(ivs, h.better, evs, i, h.items, h.gone, idx, p);
      }
      ExtendSwept(ivs, h.better, rs, lo, hi, idx);
      rs' := AppendRun(rs, lo, hi, idx);
    } else {
      forall k, p | 0 <= k < |ivs| && Holds(ivs[k], p) && Lt(p, hi)
        ensures OnSome(rs, p)
      {
        if Le(lo, p) { ActiveIsCovering(ivs, evs, i, h.items, h.gone, k, p); }
      }
      rs' := rs;
    }
  }

  function CoverList(rs: seq<Run<nat>>): (covers: seq<Cover>) {
    seq(|rs|, k requires 0 <= k < |rs| => Cover(FromFine(rs[k].lo, rs[k].hi), rs[k].tag))
  }

  /** The runs a list of covers stands for. */
  function RunsOf(covers: seq<Cover>): (rs: seq<Run<nat>>) {
    seq(|covers|, k requires 0 <= k < |covers| =>
      Run(Lo(covers[k].interval), Hi(covers[k].interval), covers[k].index))
  }

  /** Sweep, for any interval list and any strict weak order. */
  method Sweep(ivs: seq<Interval>, better: Rank) returns (covers: seq<Cover>)
    requires Ranks(better, |ivs|)
    ensures IsSweep(ivs, better, RunsOf(covers))
  {
    var evs := SweepEvents(ivs);
    var h := new CoverHeap(better, |ivs|);
    var rs: seq<Run<nat>> := [];
    var i := 0;
    while i < |evs|
      invariant i <= |evs| && fresh(h) && h.Valid() && h.better == better && Tracks(ivs, evs, i, h.items, h.gone)
      invariant i == 0 ==> rs == []
      invariant 0 < i < |evs| ==> Lt(evs[i - 1].p, evs[i].p)
      invariant 0 < i ==> SweptTo(ivs, better, rs, evs[i - 1].p)
    {
      if i > 0 {
        rs := SweepStretch(h, ivs, evs, i, rs);
      } else {
        NothingBefore(ivs, better, evs);
      }
      i := ApplyEvents(h, evs, i, evs[i].p, ivs);
    }
    NothingAfter(ivs, better, evs, rs);
    covers := CoverList(rs);
    assert RunsOf(covers) == rs;
  }

  lemma NothingBefore(ivs: seq<Interval>, better: Rank, evs: seq<Event>)
    requires EventsOf(ivs, evs) && InOrder(evs) && evs != []
    ensures SweptTo(ivs, better, [], evs[0].p)
  {
    forall i, p | 0 <= i < |ivs| && Holds(ivs[i], p)
      ensures !Lt(p, evs[0].p)
    {
      assert Begin(ivs, i) in evs;
      var k :| 0 <= k < |evs| && evs[k] == Begin(ivs, i);
      assert Le(evs[0].p, evs[k].p);
    }
  }

  lemma NothingAfter(ivs: seq<Interval>, better: Rank, evs: seq<Event>, rs: seq<Run<nat>>)
    requires EventsOf(ivs, evs) && InOrder(evs)
    requires if evs == [] then rs == [] else SweptTo(ivs, better, rs, evs[|evs| - 1].p)
    ensures IsSweep(ivs, better, rs)
  {
    forall i, p | 0 <= i < |ivs| && Holds(ivs[i], p)
      ensures OnSome(rs, p)
    {
      assert End(ivs, i) in evs;
      var k :| 0 <= k < |evs| && evs[k] == End(ivs, i);
      assert Le(evs[k].p, evs[|evs| - 1].p);
    }
  }
}
