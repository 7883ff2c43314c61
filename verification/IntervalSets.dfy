/** interval/set.go: canonical interval sets, their union and difference. */
module IntervalSets {
  import opened Line
  import opened Intervals
  import opened Runs
  import opened Sequences
  import opened Sweeping

  /** Some interval of the set holds the fine point. */
  ghost predicate Within(s: seq<Interval>, p: Fine) {
    exists k :: 0 <= k < |s| && Holds(s[k], p)
  }

  /** The intervals as runs that all carry the same label. */
  function AsRuns(s: seq<Interval>): (rs: seq<Run<()>>) {
    seq(|s|, k requires 0 <= k < |s| => Run(Lo(s[k]), Hi(s[k]), ()))
  }

  /** Sorted, nonempty, and no two intervals contiguous. */
  ghost predicate IsCanonical(s: seq<Interval>) {
    && (forall k :: 0 <= k < |s| ==> Lt(Lo(s[k]), Hi(s[k])))
    && (forall j, k :: 0 <= j < k < |s| ==> Lt(Hi(s[j]), Lo(s[k])))
  }

  lemma WithinIsCovers(s: seq<Interval>, x: real)
    ensures Within(s, At(x)) <==> Covers(s, x)
  {
  }

  /** Canonical sets with the same real points are the same list. */
  lemma CanonicalSetsAreEqual(s: seq<Interval>, t: seq<Interval>)
    requires IsCanonical(s) && IsCanonical(t)
    requires forall x :: Covers(s, x) <==> Covers(t, x)
    ensures s == t
  {
    forall x: real, l: ()
      ensures Labelled(AsRuns(s), At(x), l) <==> Labelled(AsRuns(t), At(x), l)
    {
      LabelledIsWithin(s, At(x));
      LabelledIsWithin(t, At(x));
      WithinIsCovers(s, x);
      WithinIsCovers(t, x);
    }
    CanonicalIsUnique(AsRuns(s), AsRuns(t));
    assert |s| == |AsRuns(s)| && |t| == |AsRuns(t)|;
    forall k | 0 <= k < |s|
      ensures s[k] == t[k]
    {
      assert AsRuns(s)[k] == AsRuns(t)[k];
      SameSpan(s[k], t[k]);
    }
  }

  lemma LabelledIsWithin(s: seq<Interval>, p: Fine)
    ensures Labelled(AsRuns(s), p, ()) <==> Within(s, p)
  {
    if Within(s, p) {
      var k :| 0 <= k < |s| && Holds(s[k], p);
      assert On(AsRuns(s)[k], p);
    }
  }

  lemma SameSpan(a: Interval, b: Interval)
    requires Lo(a) == Lo(b) && Hi(a) == Hi(b)
    ensures a == b
  {
  }

  // ----- Normalize -----

  predicate Less(a: Interval, b: Interval) {
    if a.start != b.start then a.start < b.start
    else if a.startBound != b.startBound then a.startBound.Closed?
    else if a.end != b.end then a.end < b.end
    else if a.endBound != b.endBound then a.endBound.Closed?
    else false
  }

  /** Folds the next interval in order into the last one when they are contiguous. */
  function Absorb(out: seq<Interval>, iv: Interval): seq<Interval> {
    if out != [] && (Overlaps(out[|out| - 1], iv) || Touches(out[|out| - 1], iv)) then
      out[..|out| - 1] + [Merge(out[|out| - 1], iv)]
    else
      out + [iv]
  }

  ghost predicate StartsBy(s: seq<Interval>, p: Fine) {
    forall k :: 0 <= k < |s| ==> Le(Lo(s[k]), p)
  }

  lemma MergeSpans(a: Interval, b: Interval)
    ensures Lo(Merge(a, b)) == Min(Lo(a), Lo(b)) && Hi(Merge(a, b)) == Max(Hi(a), Hi(b))
  {
  }

  lemma AbsorbKeepsCanonical(out: seq<Interval>, iv: Interval)
    requires IsCanonical(out) && StartsBy(out, Lo(iv)) && !Empty(iv)
    ensures IsCanonical(Absorb(out, iv)) && StartsBy(Absorb(out, iv), Lo(iv))
  {
    if out != [] {
      var last := out[|out| - 1];
      MergeSpans(last, iv);
      ContiguousIff(last, iv);
    }
  }

  lemma AbsorbKeepsPoints(out: seq<Interval>, iv: Interval, p: Fine)
    requires IsCanonical(out) && StartsBy(out, Lo(iv)) && !Empty(iv)
    ensures Within(Absorb(out, iv), p) <==> Within(out, p) || Holds(iv, p)
  {
    var out' := Absorb(out, iv);
    var n := |out'| - 1;
    if out != [] {
      MergeSpans(out[|out| - 1], iv);
      ContiguousIff(out[|out| - 1], iv);
    }
    assert forall k :: 0 <= k < n ==> out'[k] == out[k];
    if Within(out, p) {
      var k :| 0 <= k < |out| && Holds(out[k], p);
      assert Holds(out'[k], p);
    }
    if Holds(iv, p) { assert Holds(out'[n], p); }
    if Within(out', p) {
      var k :| 0 <= k < |out'| && Holds(out'[k], p);
      if k < |out| && Holds(out[k], p) { assert Within(out, p); }
    }
  }

  lemma SortedStarts(s: seq<Interval>)
    requires SortedBy(Less, s)
    ensures forall j, k :: 0 <= j < k < |s| ==> Le(Lo(s[j]), Lo(s[k]))
  {
  }

  lemma WithinPrefix(s: seq<Interval>, i: nat, p: Fine)
    requires i < |s|
    ensures Within(s[..i + 1], p) <==> Within(s[..i], p) || Holds(s[i], p)
  {
    if Within(s[..i], p) {
      var k :| 0 <= k < i && Holds(s[..i][k], p);
      assert Holds(s[..i + 1][k], p);
    }
    if Holds(s[i], p) { assert Holds(s[..i + 1][i], p); }
    if Within(s[..i + 1], p) {
      var k :| 0 <= k < i + 1 && Holds(s[..i + 1][k], p);
      if k < i { assert Holds(s[..i][k], p); }
    }
  }

  lemma SameElementsSameWithin(s: seq<Interval>, t: seq<Interval>, p: Fine)
    requires forall iv :: iv in s ==> iv in t
    ensures Within(s, p) ==> Within(t, p)
  {
    if Within(s, p) {
      var k :| 0 <= k < |s| && Holds(s[k], p);
      assert s[k] in t;
    }
  }

  method Normalize(ivs: seq<Interval>) returns (out: seq<Interval>)
    ensures IsCanonical(out)
    ensures forall p :: Within(out, p) <==> Within(ivs, p)
  {
    if |ivs| == 0 { return []; }
    var sorted := Sort(ivs, Less);
    SortedStarts(sorted);
    out := [];
    for i := 0 to |sorted|
      invariant IsCanonical(out)
      invariant i < |sorted| ==> StartsBy(out, Lo(sorted[i]))
      invariant forall p :: Within(out, p) <==> Within(sorted[..i], p)
    {
      var iv := sorted[i];
      forall p { WithinPrefix(sorted, i, p); }
      EmptyMeansNoPoint(iv);
      if !Empty(iv) {
        AbsorbKeepsCanonical(out, iv);
        forall p { AbsorbKeepsPoints(out, iv, p); }
        out := Absorb(out, iv);
      }
    }
    assert sorted[..|sorted|] == sorted;
    forall p
      ensures Within(sorted, p) <==> Within(ivs, p)
    {
      SameElementsSameWithin(sorted, ivs, p);
      SameElementsSameWithin(ivs, sorted, p);
    }
  }

  lemma WithinConcat(a: seq<Interval>, b: seq<Interval>, p: Fine)
    ensures Within(a + b, p) <==> Within(a, p) || Within(b, p)
  {
    if Within(a, p) {
      var k :| 0 <= k < |a| && Holds(a[k], p);
      assert Holds((a + b)[k], p);
    }
    if Within(b, p) {
      var k :| 0 <= k < |b| && Holds(b[k], p);
      assert Holds((a + b)[|a| + k], p);
    }
    if Within(a + b, p) {
      var k :| 0 <= k < |a + b| && Holds((a + b)[k], p);
      if k < |a| { assert Holds(a[k], p); } else { assert Holds(b[k - |a|], p); }
    }
  }

  lemma WithinAppend(s: seq<Interval>, iv: Interval, p: Fine)
    ensures Within(s + [iv], p) <==> Within(s, p) || Holds(iv, p)
  {
    WithinPrefix(s + [iv], |s|, p);
    assert (s + [iv])[..|s|] == s && (s + [iv])[..|s| + 1] == s + [iv];
  }

  method Union(a: seq<Interval>, b: seq<Interval>) returns (out: seq<Interval>)
    ensures IsCanonical(out)
    ensures forall p :: Within(out, p) <==> Within(a, p) || Within(b, p)
  {
    forall p { WithinConcat(a, b, p); }
    out := Normalize(a + b);
  }

  // ----- Difference -----

  /** The pieces of a sweep owned by the first `n` intervals. */
  function OwnedBelow(covers: seq<Cover>, n: nat): seq<Interval> {
    if covers == [] then []
    else
      var rest, last := OwnedBelow(covers[..|covers| - 1], n), covers[|covers| - 1];
      if last.index < n then rest + [last.interval] else rest
  }

  lemma {:induction false} OwnedFrom(covers: seq<Cover>, n: nat, k: nat) returns (j: nat)
    requires k < |OwnedBelow(covers, n)|
    ensures j < |covers| && covers[j].interval == OwnedBelow(covers, n)[k] && covers[j].index < n
  {
    var rest := covers[..|covers| - 1];
    if k < |OwnedBelow(rest, n)| {
      j := OwnedFrom(rest, n, k);
    } else {
      j := |covers| - 1;
    }
  }

  lemma {:induction false} OwnedKept(covers: seq<Cover>, n: nat, j: nat) returns (k: nat)
    requires j < |covers| && covers[j].index < n
    ensures k < |OwnedBelow(covers, n)| && OwnedBelow(covers, n)[k] == covers[j].interval
  {
    var rest := covers[..|covers| - 1];
    if j < |rest| {
      k := OwnedKept(rest, n, j);
    } else {
      k := |OwnedBelow(rest, n)|;
    }
  }

  /** Pieces owned by distinct intervals of a canonical set are never contiguous. */
  ghost predicate Separated(covers: seq<Cover>, n: nat) {
    && (forall k :: 0 <= k < |covers| ==> Lt(Lo(covers[k].interval), Hi(covers[k].interval)))
    && (forall j, k :: 0 <= j < k < |covers| && covers[j].index < n && covers[k].index < n
          ==> Lt(Hi(covers[j].interval), Lo(covers[k].interval)))
  }

  lemma {:induction false} OwnedIsCanonical(covers: seq<Cover>, n: nat)
    requires Separated(covers, n)
    ensures IsCanonical(OwnedBelow(covers, n))
  {
    if covers != [] {
      var rest := covers[..|covers| - 1];
      OwnedIsCanonical(rest, n);
      var own := OwnedBelow(rest, n);
      forall k | 0 <= k < |own| && covers[|covers| - 1].index < n
        ensures Lt(Hi(own[k]), Lo(covers[|covers| - 1].interval))
      {
        var j := OwnedFrom(rest, n, k);
      }
    }
  }

  /** A piece lies inside the interval that owns it. */
  lemma PieceInsideOwner(ivs: seq<Interval>, better: Rank, covers: seq<Cover>, k: nat)
    requires IsSweep(ivs, better, RunsOf(covers)) && k < |covers|
    ensures covers[k].index < |ivs|
    ensures Lt(Lo(covers[k].interval), Hi(covers[k].interval))
    ensures Le(Lo(ivs[covers[k].index]), Lo(covers[k].interval)) && Le(Hi(covers[k].interval), Hi(ivs[covers[k].index]))
  {
    var r := RunsOf(covers)[k];
    assert On(r, r.lo);
    var owner := ivs[covers[k].index];
    if Lt(Hi(owner), r.hi) {
      assert Le(r.lo, Hi(owner));
      assert On(r, Hi(owner));
      assert false;
    }
  }

  lemma PiecesSeparated(a: seq<Interval>, ivs: seq<Interval>, better: Rank, covers: seq<Cover>)
    requires IsCanonical(a) && |a| <= |ivs| && ivs[..|a|] == a
    requires IsSweep(ivs, better, RunsOf(covers))
    ensures Separated(covers, |a|)
  {
    forall k | 0 <= k < |covers|
      ensures Lt(Lo(covers[k].interval), Hi(covers[k].interval))
    {
      PieceInsideOwner(ivs, better, covers, k);
    }
    forall j, k | 0 <= j < k < |covers| && covers[j].index < |a| && covers[k].index < |a|
      ensures Lt(Hi(covers[j].interval), Lo(covers[k].interval))
    {
      OwnersSeparate(a, ivs, better, covers, j, k);
    }
  }

  lemma OwnersSeparate(a: seq<Interval>, ivs: seq<Interval>, better: Rank, covers: seq<Cover>, j: nat, k: nat)
    requires IsCanonical(a) && |a| <= |ivs| && ivs[..|a|] == a
    requires IsSweep(ivs, better, RunsOf(covers))
    requires j < k < |covers| && covers[j].index < |a| && covers[k].index < |a|
    ensures Lt(Hi(covers[j].interval), Lo(covers[k].interval))
  {
    PieceInsideOwner(ivs, better, covers, j);
    PieceInsideOwner(ivs, better, covers, k);
    var rj, rk := RunsOf(covers)[j], RunsOf(covers)[k];
    assert Le(rj.hi, rk.lo);
    assert a[rj.tag] == ivs[rj.tag] && a[rk.tag] == ivs[rk.tag];
  }

  /** Removing intervals win over kept ones, whatever their position. */
  function Cuts(n: nat): Rank {
    (i, j) => i >= n && j < n
  }

  lemma OwnedAreUncut(a: seq<Interval>, b: seq<Interval>, covers: seq<Cover>, p: Fine)
    requires IsSweep(a + b, Cuts(|a|), RunsOf(covers)) && Within(OwnedBelow(covers, |a|), p)
    ensures Within(a, p) && !Within(b, p)
  {
    var own, ivs := OwnedBelow(covers, |a|), a + b;
    var k :| 0 <= k < |own| && Holds(own[k], p);
    var j := OwnedFrom(covers, |a|, k);
    assert On(RunsOf(covers)[j], p);
    assert Holds(ivs[covers[j].index], p) && ivs[covers[j].index] == a[covers[j].index];
    forall m | 0 <= m < |b|
      ensures !Holds(b[m], p)
    {
      assert ivs[|a| + m] == b[m];
    }
  }

  lemma UncutAreOwned(a: seq<Interval>, b: seq<Interval>, covers: seq<Cover>, p: Fine)
    requires IsSweep(a + b, Cuts(|a|), RunsOf(covers)) && Within(a, p) && !Within(b, p)
    ensures Within(OwnedBelow(covers, |a|), p)
  {
    var ivs := a + b;
    var i :| 0 <= i < |a| && Holds(a[i], p);
    assert ivs[i] == a[i];
    assert OnSome(RunsOf(covers), p);
    var j :| 0 <= j < |covers| && On(RunsOf(covers)[j], p);
    assert forall m :: 0 <= m < |b| ==> ivs[|a| + m] == b[m];
    assert covers[j].index < |a|;
    var k := OwnedKept(covers, |a|, j);
  }

  lemma OwnedPoints(a: seq<Interval>, b: seq<Interval>, covers: seq<Cover>, p: Fine)
    requires IsSweep(a + b, Cuts(|a|), RunsOf(covers))
    ensures Within(OwnedBelow(covers, |a|), p) <==> Within(a, p) && !Within(b, p)
  {
    if Within(OwnedBelow(covers, |a|), p) { OwnedAreUncut(a, b, covers, p); }
    if Within(a, p) && !Within(b, p) { UncutAreOwned(a, b, covers, p); }
  }

  method Difference(a: seq<Interval>, b: seq<Interval>) returns (out: seq<Interval>)
    ensures IsCanonical(out)
    ensures forall p :: Within(out, p) <==> Within(a, p) && !Within(b, p)
  {
    if |a| == 0 || |b| == 0 {
      out := Normalize(a);
      return;
    }
    var a' := Normalize(a);
    var b' := Normalize(b);
    var n := |a'|;
    var covers := Sweep(a' + b', Cuts(n));
    out := [];
    for k := 0 to |covers|
      invariant out == OwnedBelow(covers[..k], n)
    {
      assert covers[..k + 1][..k] == covers[..k];
      if covers[k].index < n {
        out := out + [covers[k].interval];
      }
    }
    assert covers[..|covers|] == covers;
    PiecesSeparated(a', a' + b', Cuts(n), covers);
    OwnedIsCanonical(covers, n);
    forall p { OwnedPoints(a', b', covers, p); }
  }
}
