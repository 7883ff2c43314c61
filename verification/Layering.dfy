/** space/strategy/layers.go: the painter's front of the operations. */
module Layering {
  import opened Sequences
  import opened Boxes
  import opened Covers
  import opened BoxSets
  import opened Entries
  import opened BoxStrategies

  /** A box painted whole, later layers over earlier ones; a Remove layer paints the background. */
  datatype Layer = Layer(box: Box, kind: Kind)

  function LayerOf(o: Op): Layer {
    Layer(o.edit.box, o.edit.kind)
  }

  /** The operation is the first of the list to cover the point. */
  ghost predicate FirstAt(list: seq<Op>, j: nat, x: Point) {
    j < |list| && Inside(list[j].edit.box, x) && forall i :: 0 <= i < j ==> !Inside(list[i].edit.box, x)
  }

  /** `kept`, highest first, holds every operation of the list that shows somewhere, and no other. */
  ghost predicate Front(list: seq<Op>, kept: seq<Op>) {
    && (forall k :: 0 <= k < |kept| ==> kept[k] in list)
    && (forall j: nat, x :: FirstAt(list, j, x) ==> exists k: nat :: FirstAt(kept, k, x) && kept[k] == list[j])
    && (forall k: nat :: k < |kept| ==> Surfaces(kept, k))
  }

  /** The operation is the first to cover some point. */
  ghost predicate Surfaces(list: seq<Op>, k: nat) {
    exists x :: FirstAt(list, k, x)
  }

  lemma FrontSkips(list: seq<Op>, kept: seq<Op>, o: Op, n: nat)
    requires Front(list, kept) && AllValid(list + [o], n) && AllValid(list, n) && FreeOf(o.edit.box, BoxesIn(list)) == {}
    ensures Front(list + [o], kept)
  {
    var more := list + [o];
    assert more[|list|] == o;
    forall j: nat, x | FirstAt(more, j, x)
      ensures exists k: nat :: FirstAt(kept, k, x) && kept[k] == more[j]
    {
      if j < |list| {
        FirstInPrefix(list, o, j, x);
      } else {
        FreeIsExact(list, o.edit.box, n, x);
        FirstIsLast(list, o, j, x);
      }
    }
  }

  lemma FirstInPrefix(list: seq<Op>, o: Op, j: nat, x: Point)
    requires j < |list|
    ensures FirstAt(list + [o], j, x) <==> FirstAt(list, j, x)
  {
    assert forall i :: 0 <= i <= j ==> (list + [o])[i] == list[i];
  }

  lemma FirstIsLast(list: seq<Op>, o: Op, j: nat, x: Point)
    requires FirstAt(list + [o], j, x) && j >= |list|
    ensures Inside(o.edit.box, x) && forall i :: 0 <= i < |list| ==> !Inside(list[i].edit.box, x)
  {
    assert forall i :: 0 <= i < |list| ==> (list + [o])[i] == list[i];
  }

  lemma FrontKeeps(list: seq<Op>, kept: seq<Op>, o: Op, n: nat)
    requires Front(list, kept) && AllValid(list + [o], n) && AllValid(list, n) && FreeOf(o.edit.box, BoxesIn(list)) != {}
    ensures Front(list + [o], kept + [o])
  {
    var more, kept' := list + [o], kept + [o];
    assert more[|list|] == o;
    forall j: nat, x | FirstAt(more, j, x)
      ensures exists k: nat :: FirstAt(kept', k, x) && kept'[k] == more[j]
    {
      if j < |list| {
        FirstInPrefix(list, o, j, x);
        var k: nat :| FirstAt(kept, k, x) && kept[k] == list[j];
        FirstInPrefix(kept, o, k, x);
        assert kept'[k] == more[j];
      } else {
        FirstIsLast(list, o, j, x);
        ShowsOnTop(list, kept, o, x);
      }
    }
    forall k: nat | k < |kept'|
      ensures Surfaces(kept', k)
    {
      if k < |kept| {
        assert Surfaces(kept, k);
        var x :| FirstAt(kept, k, x);
        FirstInPrefix(kept, o, k, x);
      } else {
        var x := FreePoint(list, o, n);
        ShowsOnTop(list, kept, o, x);
      }
    }
  }

  lemma ShowsOnTop(list: seq<Op>, kept: seq<Op>, o: Op, x: Point)
    requires forall k :: 0 <= k < |kept| ==> kept[k] in list
    requires Inside(o.edit.box, x) && forall i :: 0 <= i < |list| ==> !Inside(list[i].edit.box, x)
    ensures FirstAt(kept + [o], |kept|, x)
  {
    forall k | 0 <= k < |kept|
      ensures !Inside((kept + [o])[k].edit.box, x)
    {
      var i :| 0 <= i < |list| && list[i] == kept[k];
    }
  }

  lemma FreePoint(list: seq<Op>, o: Op, n: nat) returns (x: Point)
    requires AllValid(list, n) && |o.edit.box| == n && !Hollow(o.edit.box) && FreeOf(o.edit.box, BoxesIn(list)) != {}
    ensures Inside(o.edit.box, x) && forall i :: 0 <= i < |list| ==> !Inside(list[i].edit.box, x)
  {
    var b :| b in FreeOf(o.edit.box, BoxesIn(list));
    FreeIsExact(list, o.edit.box, n, []);
    x := SomePoint(b);
    FreeIsExact(list, o.edit.box, n, x);
  }

  /** The sweep from the highest layer down, dropping the layers that show nowhere. */
  method Cull(sorted: seq<Op>, join: Join, ghost n: nat) returns (kept: seq<Op>)
    requires AllValid(sorted, n)
    ensures Front(sorted, kept)
  {
    var covered: seq<Box> := [];
    kept := [];
    NoClaims(n);
    for i := 0 to |sorted|
      invariant Normalized(covered, n) && Elements(covered) == Maxima(BoxesIn(sorted[..i]))
      invariant Front(sorted[..i], kept)
    {
      var o := sorted[i];
      ghost var rest := sorted[..i];
      NextValid(sorted, i, n);
      var free;
      free, covered := Claim(o, covered, join, rest, n);
      NoElements(Geo(free));
      if |free| == 0 {
        FrontSkips(rest, kept, o, n);
      } else {
        FrontKeeps(rest, kept, o, n);
        kept := kept + [o];
      }
    }
    assert sorted[..|sorted|] == sorted;
  }

  /** The first and last `i` places are flipped, the rest untouched. */
  ghost predicate FlippedTo<T>(s: seq<T>, r: seq<T>, i: nat) {
    && |r| == |s| && 2 * i <= |s|
    && (forall k :: 0 <= k < i ==> r[k] == s[|s| - 1 - k])
    && (forall k :: i <= k < |s| - i ==> r[k] == s[k])
    && (forall k :: |s| - i <= k < |s| ==> r[k] == s[|s| - 1 - k])
  }

  lemma SwapFlips<T>(s: seq<T>, r: seq<T>, i: nat, j: nat)
    requires FlippedTo(s, r, i) && i < j && i + j == |s| - 1
    ensures FlippedTo(s, r[i := r[j]][j := r[i]], i + 1)
  {
  }

  /** The in-place flip from highest-first to paint order. */
  method Flip<T>(s: seq<T>) returns (r: seq<T>)
    ensures |r| == |s| && forall k :: 0 <= k < |s| ==> r[k] == s[|s| - 1 - k]
  {
    r := s;
    var i, j := 0, |s| - 1;
    while i < j
      invariant 0 <= i && i + j == |s| - 1 && FlippedTo(s, r, i)
    {
      SwapFlips(s, r, i, j);
      r := r[i := r[j]][j := r[i]];
      i, j := i + 1, j - 1;
    }
  }

  /** The layer shows at the point: it covers it and no later layer does. */
  ghost predicate Shows(layers: seq<Layer>, k: nat, x: Point) {
    k < |layers| && Inside(layers[k].box, x) && forall j :: k < j < |layers| ==> !Inside(layers[j].box, x)
  }

  /**
   * Painting the layers in order shows at every covered point the operation that decides it, nothing
   * anywhere else, and every layer somewhere.
   */
  ghost predicate IsFront(ops: set<Op>, painted: seq<Op>, layers: seq<Layer>) {
    && |layers| == |painted| && (forall k :: 0 <= k < |layers| ==> painted[k] in ops)
    && (forall k :: 0 <= k < |layers| ==> layers[k].box == painted[k].edit.box && layers[k].kind == painted[k].edit.kind)
    && (forall k: nat, x :: Shows(layers, k, x) ==> Decides(LWW, ops, painted[k], x))
    && (forall x :: Touched(ops, x) ==> exists k: nat :: Shows(layers, k, x))
    && (forall k: nat :: k < |layers| ==> Visible(layers, k))
  }

  ghost predicate ShowsDeciders(ops: set<Op>, layers: seq<Layer>) {
    exists painted :: IsFront(ops, painted, layers)
  }

  /** The layer shows somewhere. */
  ghost predicate Visible(layers: seq<Layer>, k: nat) {
    exists x :: Shows(layers, k, x)
  }

  /** The point is painted: the layer that shows there is an addition. */
  ghost predicate PaintedAt(layers: seq<Layer>, x: Point) {
    exists k: nat :: Shows(layers, k, x) && layers[k].kind.Add?
  }

  /** Painting the layers in order paints exactly the points that materializing under LWW keeps. */
  lemma PaintingIsMaterializing(ops: set<Op>, painted: seq<Op>, layers: seq<Layer>, x: Point)
    requires IsFront(ops, painted, layers)
    ensures PaintedAt(layers, x) <==> Rule(LWW, ops, x)
    ensures PaintedAt(layers, x) <==> exists o :: Latest(ops, o, x) && o.edit.kind.Add?
  {
    if PaintedAt(layers, x) {
      var k: nat :| Shows(layers, k, x) && layers[k].kind.Add?;
      assert Decides(LWW, ops, painted[k], x);
    }
    if o :| Decides(LWW, ops, o, x) && o.edit.kind.Add? {
      assert Touched(ops, x);
      var k: nat :| Shows(layers, k, x);
      assert Decides(LWW, ops, painted[k], x) && painted[k] == o;
    }
    forall o { DecidesIff(ops, o, x); }
  }

  /** A covered point has a first operation covering it. */
  lemma {:induction false} FirstExists(list: seq<Op>, i: nat, x: Point) returns (j: nat)
    requires i < |list| && Inside(list[i].edit.box, x)
    ensures FirstAt(list, j, x) && j <= i
    decreases i
  {
    if forall m :: 0 <= m < i ==> !Inside(list[m].edit.box, x) {
      j := i;
    } else {
      var m :| 0 <= m < i && Inside(list[m].edit.box, x);
      j := FirstExists(list, m, x);
    }
  }

  lemma FirstDecides(list: seq<Op>, j: nat, x: Point)
    requires InPriority(LWW, list) && FirstAt(list, j, x)
    ensures Decides(LWW, Elements(list), list[j], x)
  {
    forall q | q in Elements(list) && q != list[j] && Inside(q.edit.box, x)
      ensures Better(LWW, WinnerOf(list[j]), WinnerOf(q))
    {
      var k :| 0 <= k < |list| && list[k] == q;
    }
  }

  lemma ShownIsFirst(kept: seq<Op>, painted: seq<Op>, layers: seq<Layer>, k: nat, x: Point)
    requires |kept| == |painted| == |layers| && k < |layers|
    requires forall i :: 0 <= i < |kept| ==> painted[i] == kept[|kept| - 1 - i] && layers[i] == LayerOf(painted[i])
    ensures Shows(layers, k, x) <==> FirstAt(kept, |kept| - 1 - k, x)
  {
    var m := |kept| - 1 - k;
    forall i | 0 <= i < |kept|
      ensures kept[i].edit.box == layers[|kept| - 1 - i].box
    {
      assert painted[|kept| - 1 - i] == kept[i];
    }
    if Shows(layers, k, x) {
      forall i | 0 <= i < m
        ensures !Inside(kept[i].edit.box, x)
      {
        assert !Inside(layers[|kept| - 1 - i].box, x);
      }
    }
    if FirstAt(kept, m, x) {
      forall j | k < j < |layers|
        ensures !Inside(layers[j].box, x)
      {
        assert !Inside(kept[|kept| - 1 - j].edit.box, x);
      }
    }
  }

  /** The highest kept operation covering a point decides it. */
  lemma KeptDecides(list: seq<Op>, kept: seq<Op>, m: nat, x: Point)
    requires InPriority(LWW, list) && Front(list, kept) && FirstAt(kept, m, x)
    ensures Decides(LWW, Elements(list), kept[m], x)
  {
    var i :| 0 <= i < |list| && list[i] == kept[m];
    var j := FirstExists(list, i, x);
    var k: nat :| FirstAt(kept, k, x) && kept[k] == list[j];
    assert k == m;
    FirstDecides(list, j, x);
  }

  lemma FlippedIsFront(list: seq<Op>, kept: seq<Op>, painted: seq<Op>, layers: seq<Layer>)
    requires InPriority(LWW, list) && Front(list, kept)
    requires |kept| == |painted| == |layers|
    requires forall i :: 0 <= i < |kept| ==> painted[i] == kept[|kept| - 1 - i] && layers[i] == LayerOf(painted[i])
    ensures IsFront(Elements(list), painted, layers)
  {
    var n := |kept|;
    forall k: nat, x | Shows(layers, k, x)
      ensures Decides(LWW, Elements(list), painted[k], x)
    {
      ShownIsFirst(kept, painted, layers, k, x);
      KeptDecides(list, kept, n - 1 - k, x);
    }
    forall x | Touched(Elements(list), x)
      ensures exists k: nat :: Shows(layers, k, x)
    {
      var o :| o in Elements(list) && Inside(o.edit.box, x);
      var i :| 0 <= i < |list| && list[i] == o;
      var j := FirstExists(list, i, x);
      var m: nat :| FirstAt(kept, m, x) && kept[m] == list[j];
      ShownIsFirst(kept, painted, layers, n - 1 - m, x);
    }
    forall k: nat | k < n
      ensures Visible(layers, k)
    {
      assert Surfaces(kept, n - 1 - k);
      var x :| FirstAt(kept, n - 1 - k, x);
      ShownIsFirst(kept, painted, layers, k, x);
    }
  }

  /** Layers: the front of the effective operations in bottom-to-top paint order. */
  method Layers(ops: seq<Op>, join: Join, ghost n: nat) returns (layers: seq<Layer>)
    requires Distinct(ops) && Keyed(Elements(ops)) && ValidOps(Elements(ops), n)
    ensures ShowsDeciders(EffectiveSet(Elements(ops)), layers)
    ensures forall x :: PaintedAt(layers, x) <==> Rule(LWW, EffectiveSet(Elements(ops)), x)
  {
    var effective := Effective(ops);
    var sorted := ByPriority(LWW, effective);
    ListIsValid(sorted, Elements(effective), n);
    var kept := Cull(sorted, join, n);
    var flipped := Flip(kept);
    layers := seq(|flipped|, k requires 0 <= k < |flipped| => LayerOf(flipped[k]));
    FlippedIsFront(sorted, kept, flipped, layers);
    forall x { PaintingIsMaterializing(Elements(sorted), flipped, layers, x); }
  }
}
