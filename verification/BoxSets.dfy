/** space/set.go: normalized covers, insertion into them, and set difference. */
module BoxSets {
  import opened Sequences
  import opened Boxes
  import opened Covers

  /** A box with its metadata, which the geometry never reads. */
  datatype Painted<M> = Painted(box: Box, meta: M)

  function Geo<M>(s: seq<Painted<M>>): (g: seq<Box>)
    ensures |g| == |s| && forall k :: 0 <= k < |g| ==> g[k] == s[k].box
  {
    seq(|s|, k requires 0 <= k < |s| => s[k].box)
  }

  /** The boxes of a list that contain a point. */
  ghost function Solid(s: seq<Box>): set<Box> {
    set b | b in s && !Hollow(b)
  }

  predicate OfDims(s: seq<Box>, n: nat) {
    forall b {:trigger b in s} :: b in s ==> |b| == n
  }

  // ----- NormalizeMerged -----

  /** The boxes of a list that `b` does not cover. */
  function Without(g: seq<Box>, b: Box): seq<Box> {
    if g == [] then []
    else if Sub(b, g[0]) then Without(g[1..], b)
    else [g[0]] + Without(g[1..], b)
  }

  lemma {:induction false} WithoutElements(g: seq<Box>, b: Box)
    ensures forall x :: x in Without(g, b) <==> x in g && !Sub(b, x)
    ensures |Without(g, b)| <= |g|
  {
    if g != [] { WithoutElements(g[1..], b); }
  }

  lemma {:induction false} WithoutDistinct(g: seq<Box>, b: Box)
    requires Distinct(g)
    ensures Distinct(Without(g, b))
  {
    if g != [] {
      WithoutDistinct(g[1..], b);
      WithoutElements(g[1..], b);
      assert forall k :: 0 <= k < |g[1..]| ==> g[1..][k] != g[0];
    }
  }

  lemma {:induction false} WithoutSorted(g: seq<Box>, b: Box)
    requires Sorted(g)
    ensures Sorted(Without(g, b))
  {
    if g != [] {
      WithoutSorted(g[1..], b);
      WithoutElements(g[1..], b);
      forall x | x in Without(g[1..], b)
        ensures Less(g[0], x)
      {
        var k :| 0 <= k < |g[1..]| && g[1..][k] == x;
        assert g[k + 1] == x;
      }
    }
  }

  /** Some kept box covers `b` without being covered by it. */
  ghost predicate CoveredBy(g: seq<Box>, b: Box) {
    exists k :: 0 <= k < |g| && !Sub(b, g[k]) && Sub(g[k], b)
  }

  ghost predicate Unrelated(g: seq<Box>, b: Box) {
    forall k :: 0 <= k < |g| ==> !Sub(b, g[k]) && !Sub(g[k], b)
  }

  /** One pass over the kept boxes, last first: drop those `b` covers, note one that covers `b`. */
  method Settle<M(==)>(kept: seq<Painted<M>>, b: Painted<M>, join: (M, M) -> M)
    returns (kept': seq<Painted<M>>, b': Painted<M>, subsumed: bool)
    ensures b'.box == b.box && Geo(kept') == Without(Geo(kept), b.box)
    ensures subsumed <==> CoveredBy(Geo(kept), b.box)
    ensures Unrelated(Geo(kept), b.box) ==> kept' == kept && b' == b
  {
    ghost var g := Geo(kept);
    var tail: seq<Painted<M>> := [];
    b', subsumed := b, false;
    var i := |kept|;
    while i > 0
      invariant 0 <= i <= |kept| && b'.box == b.box
      invariant Geo(tail) == Without(g[i..], b.box)
      invariant subsumed <==> exists k :: i <= k < |g| && !Sub(b.box, g[k]) && Sub(g[k], b.box)
      invariant Unrelated(g, b.box) ==> tail == kept[i..] && b' == b
    {
      i := i - 1;
      assert g[i..] == [g[i]] + g[i + 1..];
      assert kept[i..] == [kept[i]] + kept[i + 1..];
      if Sub(b'.box, kept[i].box) {
        b' := b'.(meta := join(b'.meta, kept[i].meta));
      } else {
        var k := kept[i];
        if Sub(k.box, b'.box) {
          k := k.(meta := join(k.meta, b'.meta));
          subsumed := true;
        }
        GeoCons(k, tail);
        tail := [k] + tail;
      }
    }
    assert kept[0..] == kept && g[0..] == g;
    kept' := tail;
  }

  lemma GeoCons<M>(k: Painted<M>, tail: seq<Painted<M>>)
    ensures Geo([k] + tail) == [k.box] + Geo(tail)
  {
  }

  /** Settling a box against the maximal boxes of `S` gives the maximal boxes of `S` with it. */
  lemma SettleKeepsMaximal(g: seq<Box>, S: set<Box>, b: Box)
    requires IsMaximal(Elements(g), S)
    ensures CoveredBy(g, b) ==> IsMaximal(Elements(Without(g, b)), S + {b})
    ensures !CoveredBy(g, b) ==> IsMaximal(Elements(Without(g, b)) + {b}, S + {b})
  {
    if CoveredBy(g, b) { CoveredChangesNothing(g, S, b); } else { UncoveredJoins(g, S, b); }
  }

  lemma CoveredChangesNothing(g: seq<Box>, S: set<Box>, b: Box)
    requires IsMaximal(Elements(g), S) && CoveredBy(g, b)
    ensures Elements(Without(g, b)) == Elements(g) && IsMaximal(Elements(g), S + {b})
  {
    WithoutElements(g, b);
    var k :| 0 <= k < |g| && !Sub(b, g[k]) && Sub(g[k], b);
    assert g[k] in Elements(g);
    forall x | x in Elements(g)
      ensures !Sub(b, x)
    {
      if Sub(b, x) { SubIsTransitive(g[k], b, x); }
    }
  }

  lemma UncoveredJoins(g: seq<Box>, S: set<Box>, b: Box)
    requires IsMaximal(Elements(g), S) && !CoveredBy(g, b)
    ensures IsMaximal(Elements(Without(g, b)) + {b}, S + {b})
  {
    WithoutElements(g, b);
    var W := Elements(Without(g, b));
    forall x | x in W
      ensures !Sub(x, b)
    {
      var k :| 0 <= k < |g| && g[k] == x;
    }
    assert W <= Elements(g);
    forall s | s in S + {b}
      ensures exists c :: c in W + {b} && Sub(c, s)
    {
      StillCovered(Elements(g), W, S, b, s);
    }
  }

  lemma StillCovered(K: set<Box>, W: set<Box>, S: set<Box>, b: Box, s: Box)
    requires IsMaximal(K, S) && s in S + {b} && W == (set k | k in K && !Sub(b, k))
    ensures exists c :: c in W + {b} && Sub(c, s)
  {
    assert b in W + {b};
    if s in S {
      var c :| c in K && Sub(c, s);
      if Sub(b, c) {
        SubIsTransitive(b, c, s);
      } else {
        assert c in W + {b};
      }
    } else {
      SubsumesIsReflexive(b);
    }
  }

  ghost predicate Incomparable(g: seq<Box>) {
    forall j, k :: 0 <= j < |g| && 0 <= k < |g| && j != k ==> !Sub(g[j], g[k])
  }

  ghost predicate NoneHollow(g: seq<Box>) {
    forall k :: 0 <= k < |g| ==> !Hollow(g[k])
  }

  lemma SolidPrefix(g: seq<Box>, i: nat)
    requires i < |g|
    ensures Solid(g[..i + 1]) == if Hollow(g[i]) then Solid(g[..i]) else Solid(g[..i]) + {g[i]}
  {
    assert g[..i + 1] == g[..i] + [g[i]];
  }

  lemma GeoAppend<M>(s: seq<Painted<M>>, k: Painted<M>)
    ensures Geo(s + [k]) == Geo(s) + [k.box]
  {
  }

  lemma GeoPrefix<M>(s: seq<Painted<M>>, i: nat)
    requires i <= |s|
    ensures Geo(s[..i]) == Geo(s)[..i]
  {
  }

  /** The pass before sorting: the maximal boxes of the list, each once. */
  method Keep<M(==)>(boxes: seq<Painted<M>>, join: (M, M) -> M) returns (kept: seq<Painted<M>>)
    ensures Distinct(Geo(kept)) && Elements(Geo(kept)) == Maxima(Solid(Geo(boxes)))
    ensures Incomparable(Geo(boxes)) && NoneHollow(Geo(boxes)) ==> kept == boxes
  {
    ghost var g := Geo(boxes);
    kept := [];
    for i := 0 to |boxes|
      invariant Distinct(Geo(kept)) && IsMaximal(Elements(Geo(kept)), Solid(g[..i]))
      invariant Incomparable(g) && NoneHollow(g) ==> kept == boxes[..i]
    {
      SolidPrefix(g, i);
      var b := boxes[i];
      if !Hollow(b.box) {
        ghost var same := Incomparable(g) && NoneHollow(g);
        if same { GeoPrefix(boxes, i); UnrelatedPrefix(g, i); }
        kept := KeepOne(kept, b, join, Solid(g[..i]));
      }
    }
    assert g[..|boxes|] == g;
    MaximalIsUnique(Elements(Geo(kept)), Solid(g));
  }

  /** The maximal boxes with one more box considered. */
  method KeepOne<M(==)>(kept: seq<Painted<M>>, b: Painted<M>, join: (M, M) -> M, ghost S: set<Box>)
    returns (kept': seq<Painted<M>>)
    requires Distinct(Geo(kept)) && IsMaximal(Elements(Geo(kept)), S)
    ensures Distinct(Geo(kept')) && IsMaximal(Elements(Geo(kept')), S + {b.box})
    ensures Unrelated(Geo(kept), b.box) ==> kept' == kept + [b]
  {
    ghost var before := Geo(kept);
    SettleKeepsMaximal(before, S, b.box);
    WithoutDistinct(before, b.box);
    var rest, b', subsumed := Settle(kept, b, join);
    if subsumed {
      return rest;
    }
    WithoutElements(before, b.box);
    NotYetKept(before, b.box);
    GeoAppend(rest, b');
    kept' := rest + [b'];
    assert Elements(Geo(kept')) == Elements(Without(before, b.box)) + {b.box};
  }

  lemma NotYetKept(g: seq<Box>, b: Box)
    ensures b !in Without(g, b)
  {
    WithoutElements(g, b);
    SubsumesIsReflexive(b);
  }

  lemma UnrelatedPrefix(g: seq<Box>, i: nat)
    requires i < |g| && Incomparable(g)
    ensures Unrelated(g[..i], g[i])
  {
  }

  predicate LessPainted<M>(a: Painted<M>, b: Painted<M>) {
    Less(a.box, b.box)
  }

  lemma LessOrders<M>(s: seq<Painted<M>>, n: nat)
    requires OfDims(Geo(s), n)
    ensures Orders((a: Painted<M>, b: Painted<M>) => LessPainted(a, b), s)
  {
    forall x, y, z | x in s && y in s && z in s
      ensures LessPainted(x, y) ==> !LessPainted(y, x)
      ensures !LessPainted(y, x) && !LessPainted(z, y) ==> !LessPainted(z, x)
    {
      assert x.box in Geo(s) && y.box in Geo(s) && z.box in Geo(s);
      LessIsTotal(x.box, y.box);
      LessIsTotal(y.box, z.box);
      LessIsTotal(x.box, z.box);
      if Less(x.box, y.box) && Less(y.box, z.box) { LessIsTransitive(x.box, y.box, z.box); }
    }
  }

  /** A normalized cover: canonical order, one dimension, no hollow and no covered box. */
  ghost predicate Normalized(g: seq<Box>, n: nat) {
    Sorted(g) && OfDims(g, n) && NoneHollow(g) && Antichain(Elements(g))
  }

  lemma MaximaAreNormalized(g: seq<Box>, all: seq<Box>, n: nat)
    requires Sorted(g) && Elements(g) == Maxima(Solid(all)) && OfDims(all, n)
    ensures Normalized(g, n)
  {
    MaximaAreMaximal(Solid(all));
    forall b | b in g
      ensures |b| == n && !Hollow(b)
    {
      assert b in Elements(g);
    }
  }

  lemma StrictlySorted<M>(s: seq<Painted<M>>, n: nat)
    requires OfDims(Geo(s), n) && Distinct(Geo(s))
    requires SortedBy((a: Painted<M>, b: Painted<M>) => LessPainted(a, b), s)
    ensures Sorted(Geo(s))
  {
    var less := (a: Painted<M>, b: Painted<M>) => LessPainted(a, b);
    var g := Geo(s);
    forall j, k | 0 <= j < k < |g|
      ensures Less(g[j], g[k])
    {
      assert !less(s[k], s[j]);
      assert g[j] in g && g[k] in g;
      LessIsTotal(g[j], g[k]);
    }
  }

  lemma GeoOfRearranged<M>(s: seq<Painted<M>>, t: seq<Painted<M>>)
    requires |s| == |t| && forall x :: x in s <==> x in t
    ensures Elements(Geo(s)) == Elements(Geo(t))
    ensures Distinct(Geo(s)) ==> Distinct(Geo(t))
  {
    forall b | b in Geo(s) ensures b in Geo(t) {
      var k :| 0 <= k < |s| && s[k].box == b;
      assert s[k] in t;
      var j :| 0 <= j < |t| && t[j] == s[k];
      assert Geo(t)[j] == b;
    }
    forall b | b in Geo(t) ensures b in Geo(s) {
      var k :| 0 <= k < |t| && t[k].box == b;
      assert t[k] in s;
      var j :| 0 <= j < |s| && s[j] == t[k];
      assert Geo(s)[j] == b;
    }
    if Distinct(Geo(s)) { DistinctTransfers(Geo(s), Geo(t)); }
  }

  /** NormalizeMerged: exactly the subsumption-maximal boxes, in canonical order. */
  method Normalize<M(==)>(boxes: seq<Painted<M>>, join: (M, M) -> M, ghost n: nat) returns (out: seq<Painted<M>>)
    requires OfDims(Geo(boxes), n)
    ensures Sorted(Geo(out)) && Elements(Geo(out)) == Maxima(Solid(Geo(boxes)))
    ensures Normalized(Geo(out), n)
    ensures Incomparable(Geo(boxes)) && NoneHollow(Geo(boxes)) ==> multiset(out) == multiset(boxes)
  {
    var kept := Keep(boxes, join);
    forall b | b in Geo(kept)
      ensures |b| == n
    {
      assert b in Elements(Geo(kept));
    }
    LessOrders(kept, n);
    out := Sort(kept, (a: Painted<M>, b: Painted<M>) => LessPainted(a, b));
    GeoOfRearranged(kept, out);
    forall b | b in Geo(out)
      ensures |b| == n
    {
      assert b in Elements(Geo(out));
    }
    StrictlySorted(out, n);
    MaximaAreNormalized(Geo(out), Geo(boxes), n);
  }

  /** The normalized list of the boxes: their maximal ones in canonical order. */
  ghost function NormalOf<M>(boxes: seq<Painted<M>>): seq<Box> {
    SortedOf(Maxima(Solid(Geo(boxes))))
  }

  lemma NormalIsUnique<M>(boxes: seq<Painted<M>>, out: seq<Box>, n: nat)
    requires OfDims(Geo(boxes), n) && Sorted(out) && Elements(out) == Maxima(Solid(Geo(boxes)))
    ensures out == NormalOf(boxes)
  {
    SortedOfIsSorted(Maxima(Solid(Geo(boxes))), n);
    SortedIsUnique(out, NormalOf(boxes));
  }

  // ----- InsertNormalized -----

  /** Where a box belongs in canonical order. */
  ghost predicate Fits(cover: seq<Box>, b: Box, pos: nat) {
    && pos <= |cover|
    && (forall k :: 0 <= k < pos ==> Less(cover[k], b))
    && (forall k :: pos <= k < |cover| ==> !Less(cover[k], b))
  }

  method InsertSorted(cover: seq<Box>, b: Box, ghost n: nat) returns (out: seq<Box>)
    requires Sorted(cover) && OfDims(cover, n) && |b| == n && b !in cover
    ensures Sorted(out) && Elements(out) == Elements(cover) + {b}
  {
    var f := (k: nat) => k < |cover| ==> !Less(cover[k], b);
    forall j: nat, k: nat | j < k < |cover| && f(j)
      ensures f(k)
    {
      if Less(cover[k], b) { LessIsTransitive(cover[j], cover[k], b); }
    }
    var pos := Search(|cover|, f);
    forall k | 0 <= k < |cover|
      ensures Less(cover[k], b) <==> k < pos
    {
      assert f(k) <==> pos <= k;
    }
    out := cover[..pos] + [b] + cover[pos..];
    SplicedSorted(cover, b, pos, n);
  }

  lemma SplicedSorted(cover: seq<Box>, b: Box, pos: nat, n: nat)
    requires Sorted(cover) && OfDims(cover, n) && |b| == n && b !in cover && Fits(cover, b, pos)
    ensures Sorted(cover[..pos] + [b] + cover[pos..])
    ensures Elements(cover[..pos] + [b] + cover[pos..]) == Elements(cover) + {b}
  {
    forall k | pos <= k < |cover|
      ensures Less(b, cover[k])
    {
      assert cover[k] in cover;
      LessIsTotal(cover[k], b);
    }
    SpliceRises(cover, b, pos);
    SpliceMembers(cover, b, pos);
  }

  lemma SpliceRises(cover: seq<Box>, b: Box, pos: nat)
    requires Sorted(cover) && pos <= |cover|
    requires (forall k :: 0 <= k < pos ==> Less(cover[k], b)) && (forall k :: pos <= k < |cover| ==> Less(b, cover[k]))
    ensures Sorted(cover[..pos] + [b] + cover[pos..])
  {
    var out := cover[..pos] + [b] + cover[pos..];
    forall k | 0 <= k < |out|
      ensures out[k] == if k < pos then cover[k] else if k == pos then b else cover[k - 1]
    {
    }
  }

  lemma SpliceMembers(cover: seq<Box>, b: Box, pos: nat)
    requires pos <= |cover|
    ensures Elements(cover[..pos] + [b] + cover[pos..]) == Elements(cover) + {b}
  {
    assert cover == cover[..pos] + cover[pos..];
  }

  /** InsertNormalized computes the normalization of the set with the box added. */
  method InsertNormalized(cover: seq<Box>, box: Box, ghost n: nat) returns (out: seq<Box>)
    requires Normalized(cover, n) && |box| == n
    ensures Sorted(out) && Elements(out) == Maxima(Solid(cover + [box]))
    ensures Normalized(out, n)
  {
    SolidOfNormalized(cover, box, n);
    if Hollow(box) {
      MaximaOfAntichain(Elements(cover));
      out := cover;
    } else {
      var subsumed;
      out, subsumed := DropCovered(cover, box);
      WithoutSorted(cover, box);
      WithoutElements(cover, box);
      NotYetKept(cover, box);
      SelfMaximal(Elements(cover));
      SettleKeepsMaximal(cover, Elements(cover), box);
      if !subsumed {
        out := InsertSorted(out, box, n);
      }
      MaximalIsUnique(Elements(out), Elements(cover) + {box});
    }
    MaximaAreNormalized(out, cover + [box], n);
  }

  /** The boxes `box` does not cover, and whether one of them covers it. */
  method DropCovered(cover: seq<Box>, box: Box) returns (out: seq<Box>, subsumed: bool)
    ensures out == Without(cover, box) && (subsumed <==> CoveredBy(cover, box))
  {
    out, subsumed := [], false;
    for i := 0 to |cover|
      invariant out == Without(cover[..i], box)
      invariant subsumed <==> CoveredBy(cover[..i], box)
    {
      WithoutAppend(cover[..i], cover[i], box);
      CoveredAppend(cover[..i], cover[i], box);
      assert cover[..i + 1] == cover[..i] + [cover[i]];
      if !Sub(box, cover[i]) {
        if Sub(cover[i], box) { subsumed := true; }
        out := out + [cover[i]];
      }
    }
    assert cover[..|cover|] == cover;
  }

  lemma SelfMaximal(S: set<Box>)
    requires Antichain(S)
    ensures IsMaximal(S, S)
  {
    forall s | s in S
      ensures exists c :: c in S && Sub(c, s)
    {
      SubsumesIsReflexive(s);
    }
  }

  lemma SolidOfNormalized(cover: seq<Box>, box: Box, n: nat)
    requires Normalized(cover, n) && |box| == n
    ensures Solid(cover + [box]) == if Hollow(box) then Elements(cover) else Elements(cover) + {box}
    ensures OfDims(cover + [box], n)
  {
    forall b | b in cover
      ensures !Hollow(b)
    {
      var k :| 0 <= k < |cover| && cover[k] == b;
    }
  }

  /** Inserting into a normalized list and normalizing the longer list give the identical list. */
  lemma InsertIsNormalize(cover: seq<Box>, box: Box, inserted: seq<Box>, normal: seq<Box>)
    requires Sorted(inserted) && Elements(inserted) == Maxima(Solid(cover + [box]))
    requires Sorted(normal) && Elements(normal) == Maxima(Solid(cover + [box]))
    ensures inserted == normal
  {
    SortedIsUnique(inserted, normal);
  }

  lemma {:induction false} WithoutAppend(g: seq<Box>, x: Box, b: Box)
    ensures Without(g + [x], b) == Without(g, b) + if Sub(b, x) then [] else [x]
  {
    if g == [] {
      assert g + [x] == [x];
    } else {
      assert (g + [x])[1..] == g[1..] + [x];
      WithoutAppend(g[1..], x, b);
    }
  }

  lemma CoveredAppend(g: seq<Box>, x: Box, b: Box)
    ensures CoveredBy(g + [x], b) <==> CoveredBy(g, b) || (!Sub(b, x) && Sub(x, b))
  {
    if CoveredBy(g, b) {
      var k :| 0 <= k < |g| && !Sub(b, g[k]) && Sub(g[k], b);
      assert (g + [x])[k] == g[k];
    }
    if !Sub(b, x) && Sub(x, b) { assert (g + [x])[|g|] == x; }
    if CoveredBy(g + [x], b) {
      var k :| 0 <= k < |g + [x]| && !Sub(b, (g + [x])[k]) && Sub((g + [x])[k], b);
      if k < |g| { assert g[k] == (g + [x])[k]; }
    }
  }
}
