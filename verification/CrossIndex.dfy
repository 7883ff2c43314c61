/** The cross-section buckets shared by space/merge_scan.go and space/merge_index.go. */
module CrossIndex {
  import opened Boxes
  import opened Merging

  /** Any hash of a cross-section: equal cross-sections always collide, others may. */
  type Hash = Box -> nat

  type Buckets = map<nat, seq<nat>>

  function Key(hash: Hash, b: Box, d: nat): nat
    requires d < |b|
  {
    hash(CrossSection(b, d))
  }

  /** The id is listed in bucket `key`. */
  predicate Listed(buckets: Buckets, key: nat, id: nat) {
    key in buckets && id in buckets[key]
  }

  /** The box is listed under its cross-section on every axis. */
  ghost predicate Registered(buckets: Buckets, hash: Hash, b: Box, id: nat) {
    forall d :: 0 <= d < |b| ==> Listed(buckets, Key(hash, b, d), id)
  }

  /** Every listed id is below `m`. */
  ghost predicate Bounded(buckets: Buckets, m: nat) {
    forall key: nat, id: nat :: Listed(buckets, key, id) ==> id < m
  }

  /** Nothing listed is lost. */
  ghost predicate Keeps(before: Buckets, after: Buckets) {
    forall key, x :: Listed(before, key, x) ==> Listed(after, key, x)
  }

  /** Nothing but `id` is gained. */
  ghost predicate GainsOnly(before: Buckets, after: Buckets, id: nat) {
    forall key, x :: Listed(after, key, x) ==> x == id || Listed(before, key, x)
  }

  // ----- listings, counted -----

  /** How often the id is listed in bucket `key`. */
  function Count(buckets: Buckets, key: nat, id: nat): (n: nat)
    ensures n > 0 <==> Listed(buckets, key, id)
  {
    if key in buckets then multiset(buckets[key])[id] else 0
  }

  /** `id` is listed once more per occurrence of a key in `keys`, and nothing else changes. */
  ghost predicate Lists(before: Buckets, after: Buckets, keys: seq<nat>, id: nat) {
    forall key: nat, x: nat :: Count(after, key, x) == Count(before, key, x) + (if x == id then multiset(keys)[key] else 0)
  }

  /** `id` is listed once less per occurrence of a key in `keys`, and nothing else changes. */
  ghost predicate Unlists(before: Buckets, after: Buckets, keys: seq<nat>, id: nat) {
    forall key: nat, x: nat ::
      Count(after, key, x) == if x == id then Minus(Count(before, key, x), multiset(keys)[key]) else Count(before, key, x)
  }

  function Minus(n: nat, m: nat): nat {
    if n < m then 0 else n - m
  }

  /** What was listed and then unlisted leaves every count as it was. */
  lemma UnlistUndoesList(a: Buckets, b: Buckets, c: Buckets, keys: seq<nat>, id: nat)
    requires Lists(a, b, keys, id) && Unlists(b, c, keys, id)
    ensures forall key: nat, x: nat :: Count(c, key, x) == Count(a, key, x)
  {
  }

  /** One more listing under one key. */
  function WithListing(buckets: Buckets, key: nat, id: nat): Buckets {
    buckets[key := (if key in buckets then buckets[key] else []) + [id]]
  }

  lemma ListOneMore(before: Buckets, out: Buckets, keys: seq<nat>, key: nat, id: nat)
    requires Lists(before, out, keys, id)
    ensures Lists(before, WithListing(out, key, id), keys + [key], id)
  {
    var next := WithListing(out, key, id);
    forall k: nat, x: nat
      ensures Count(next, k, x) == Count(before, k, x) + (if x == id then multiset(keys + [key])[k] else 0)
    {
      assert Count(out, k, x) == Count(before, k, x) + (if x == id then multiset(keys)[k] else 0);
      CountWith(out, key, id, k, x);
    }
  }

  lemma CountWith(buckets: Buckets, key: nat, id: nat, k: nat, x: nat)
    ensures Count(WithListing(buckets, key, id), k, x) == Count(buckets, k, x) + if k == key && x == id then 1 else 0
  {
  }

  /** One listing less under one key, if there is one. */
  function WithoutListing(buckets: Buckets, key: nat, id: nat): Buckets {
    if key in buckets then buckets[key := DropFirst(buckets[key], id)] else buckets
  }

  lemma UnlistOneMore(before: Buckets, out: Buckets, keys: seq<nat>, key: nat, id: nat)
    requires Unlists(before, out, keys, id)
    ensures Unlists(before, WithoutListing(out, key, id), keys + [key], id)
  {
    var next := WithoutListing(out, key, id);
    forall k: nat, x: nat
      ensures Count(next, k, x) == if x == id then Minus(Count(before, k, x), multiset(keys + [key])[k]) else Count(before, k, x)
    {
      assert Count(out, k, x) == if x == id then Minus(Count(before, k, x), multiset(keys)[k]) else Count(before, k, x);
      CountWithout(out, key, id, k, x);
    }
  }

  lemma CountWithout(buckets: Buckets, key: nat, id: nat, k: nat, x: nat)
    ensures Count(WithoutListing(buckets, key, id), k, x) ==
      if k == key && x == id then Minus(Count(buckets, k, x), 1) else Count(buckets, k, x)
  {
    if key in buckets { DropFirstCounts(buckets[key], id); }
  }

  method ListUnder(buckets: Buckets, keys: seq<nat>, id: nat) returns (out: Buckets)
    ensures Lists(buckets, out, keys, id)
  {
    out := buckets;
    for k := 0 to |keys|
      invariant Lists(buckets, out, keys[..k], id)
    {
      ListOneMore(buckets, out, keys[..k], keys[k], id);
      assert keys[..k + 1] == keys[..k] + [keys[k]];
      out := WithListing(out, keys[k], id);
    }
    assert keys[..|keys|] == keys;
  }

  method UnlistUnder(buckets: Buckets, keys: seq<nat>, id: nat) returns (out: Buckets)
    ensures Unlists(buckets, out, keys, id)
  {
    out := buckets;
    for k := 0 to |keys|
      invariant Unlists(buckets, out, keys[..k], id)
    {
      UnlistOneMore(buckets, out, keys[..k], keys[k], id);
      assert keys[..k + 1] == keys[..k] + [keys[k]];
      out := WithoutListing(out, keys[k], id);
    }
    assert keys[..|keys|] == keys;
  }

  lemma ListsKeeps(before: Buckets, after: Buckets, keys: seq<nat>, id: nat)
    requires Lists(before, after, keys, id)
    ensures Keeps(before, after) && GainsOnly(before, after, id)
    ensures forall key :: key in keys ==> Listed(after, key, id)
  {
    forall key, x
      ensures Listed(before, key, x) ==> Listed(after, key, x)
      ensures Listed(after, key, x) ==> x == id || Listed(before, key, x)
      ensures key in keys ==> Listed(after, key, id)
    {
      assert Count(after, key, x) == Count(before, key, x) + (if x == id then multiset(keys)[key] else 0);
      assert Count(after, key, id) == Count(before, key, id) + multiset(keys)[key];
      assert key in keys <==> multiset(keys)[key] > 0;
    }
  }

  lemma UnlistsKeeps(before: Buckets, after: Buckets, keys: seq<nat>, id: nat)
    requires Unlists(before, after, keys, id)
    ensures Keeps(after, before)
    ensures forall key, x :: x != id && Listed(before, key, x) ==> Listed(after, key, x)
  {
    forall key, x
      ensures Listed(after, key, x) ==> Listed(before, key, x)
      ensures x != id && Listed(before, key, x) ==> Listed(after, key, x)
    {
      assert Count(after, key, x) == if x == id then Minus(Count(before, key, x), multiset(keys)[key]) else Count(before, key, x);
    }
  }

  // ----- index and unindex -----

  /** The keys of a box, one per axis. */
  function Keys(hash: Hash, b: Box): (keys: seq<nat>)
    ensures |keys| == |b| && forall d :: 0 <= d < |b| ==> keys[d] == Key(hash, b, d)
  {
    seq(|b|, d requires 0 <= d < |b| => Key(hash, b, d))
  }

  /** index: lists the box once under each axis. */
  method IndexBox(buckets: Buckets, hash: Hash, b: Box, id: nat) returns (out: Buckets)
    ensures Lists(buckets, out, Keys(hash, b), id)
    ensures Keeps(buckets, out) && GainsOnly(buckets, out, id) && Registered(out, hash, b, id)
  {
    out := ListUnder(buckets, Keys(hash, b), id);
    ListsKeeps(buckets, out, Keys(hash, b), id);
    forall d | 0 <= d < |b|
      ensures Listed(out, Key(hash, b, d), id)
    {
      assert Keys(hash, b)[d] in Keys(hash, b);
    }
  }

  function DropFirst(ids: seq<nat>, id: nat): seq<nat> {
    if ids == [] then [] else if ids[0] == id then ids[1..] else [ids[0]] + DropFirst(ids[1..], id)
  }

  lemma {:induction false} DropFirstCounts(ids: seq<nat>, id: nat)
    ensures multiset(DropFirst(ids, id)) == multiset(ids) - multiset{id}
  {
    if ids != [] {
      assert ids == [ids[0]] + ids[1..];
      if ids[0] != id { DropFirstCounts(ids[1..], id); }
    }
  }

  /** unindex: drops one listing of the box per axis; no other listing changes. */
  method UnindexBox(buckets: Buckets, hash: Hash, b: Box, id: nat) returns (out: Buckets)
    ensures Unlists(buckets, out, Keys(hash, b), id)
    ensures Keeps(out, buckets)
    ensures forall key, x :: x != id && Listed(buckets, key, x) ==> Listed(out, key, x)
  {
    out := UnlistUnder(buckets, Keys(hash, b), id);
    UnlistsKeeps(buckets, out, Keys(hash, b), id);
  }

  lemma RegisteredKept(before: Buckets, after: Buckets, hash: Hash, b: Box, id: nat)
    requires Registered(before, hash, b, id)
    requires forall key :: Listed(before, key, id) ==> Listed(after, key, id)
    ensures Registered(after, hash, b, id)
  {
  }

  /** A mergeable partner is listed in a bucket of the box. */
  lemma PartnerIsListed(buckets: Buckets, hash: Hash, a: Box, b: Box, id: nat) returns (d: nat)
    requires Mergeable(a, b) && Registered(buckets, hash, b, id)
    ensures d < |a| && Listed(buckets, Key(hash, a, d), id)
  {
    d := MergeableShareCrossSection(a, b);
    assert Listed(buckets, Key(hash, b, d), id);
  }
}
