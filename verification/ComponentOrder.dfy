/** space/components.go: when the components come in canonical order, and when they do not. */
module ComponentOrder {
  import opened Line
  import opened Sequences
  import opened Boxes
  import opened Covers
  import opened BoxSets
  import opened Connectivity
  import opened Components

  /** The components are in canonical order of their first boxes. */
  ghost predicate InCanonicalOrder(out: seq<seq<Box>>) {
    && (forall g :: 0 <= g < |out| ==> out[g] != [])
    && forall g, h :: 0 <= g < h < |out| ==> Less(out[g][0], out[h][0])
  }

  /** No box chained to `m` comes before it. */
  ghost predicate IsLeast(boxes: seq<Box>, m: nat) {
    m < |boxes| && forall p: nat :: p < |boxes| && Chained(boxes, p, m) ==> m <= p
  }

  /** Every component has a least box. */
  lemma {:induction false} LeastExists(boxes: seq<Box>, p: nat) returns (m: nat)
    requires p < |boxes|
    ensures IsLeast(boxes, m) && RootOf(boxes)[m] == RootOf(boxes)[p] && m <= p
  {
    if q: nat :| q < p && RootOf(boxes)[q] == RootOf(boxes)[p] {
      m := LeastExists(boxes, q);
    } else {
      m := p;
      forall q: nat | q < |boxes| && Chained(boxes, q, m)
        ensures m <= q
      {
        RootsAreChains(boxes, q, m);
      }
    }
  }

  /** Every root is the least box of its component. */
  ghost predicate RootsAreLeast(boxes: seq<Box>) {
    forall p: nat :: p < |boxes| ==> IsLeast(boxes, RootOf(boxes)[p])
  }

  /** Every root is the least box of its component exactly when no pair unseats a least box. */
  lemma RootsAreLeastIff(boxes: seq<Box>)
    ensures RootsAreLeast(boxes) <==> forall m: nat :: IsLeast(boxes, m) ==> !Unseated(boxes, m)
  {
    if RootsAreLeast(boxes) {
      forall m: nat | IsLeast(boxes, m)
        ensures !Unseated(boxes, m)
      {
        LeastIsItsRoot(boxes, m);
        RootIsNeverUnseated(boxes, m);
      }
    }
    if forall m: nat :: IsLeast(boxes, m) ==> !Unseated(boxes, m) {
      forall p: nat | p < |boxes|
        ensures IsLeast(boxes, RootOf(boxes)[p])
      {
        var m := LeastExists(boxes, p);
        RootIsNeverUnseated(boxes, m);
      }
    }
  }

  lemma LeastIsItsRoot(boxes: seq<Box>, m: nat)
    requires IsLeast(boxes, m) && IsLeast(boxes, RootOf(boxes)[m])
    ensures RootOf(boxes)[m] == m
  {
    var r := RootOf(boxes)[m];
    RootIsSettled(boxes, m);
    RootsAreChains(boxes, r, m);
    RootsAreChains(boxes, m, r);
  }

  // ----- the order of the result -----

  /**
   * Components out of place: `p` and `q` are never unseated, `p` before `q`, and yet some box chained to
   * `q` comes before every box chained to `p`.
   */
  ghost predicate OutOfPlace(boxes: seq<Box>, p: nat, q: nat, m: nat) {
    && p < q < |boxes| && m < |boxes| && !Unseated(boxes, p) && !Unseated(boxes, q)
    && Chained(boxes, m, q) && forall k: nat :: k < |boxes| && Chained(boxes, k, p) ==> m < k
  }

  /** The first box of a group is the least of its tree. */
  lemma FirstOfGroup(boxes: seq<Box>, root: seq<nat>, r: nat, group: seq<Box>) returns (m: nat)
    requires |boxes| == |root| && IsGroup(boxes, root, r, group)
    ensures m < |boxes| && root[m] == r && group != [] && group[0] == boxes[m]
    ensures forall k: nat :: k < |boxes| && root[k] == r ==> m <= k
  {
    MembersAre(root, r, |root|);
    var at := Members(root, r, |root|);
    assert at[0] in at;
    m := at[0];
    forall k: nat | k < |boxes| && root[k] == r
      ensures m <= k
    {
      assert k in at;
      var j :| 0 <= j < |at| && at[j] == k;
    }
  }

  lemma PairInOrder(boxes: seq<Box>, p: nat, q: nat, a: seq<Box>, b: seq<Box>)
    requires Sorted(boxes) && p < q < |boxes| && RootOf(boxes)[p] == p && RootOf(boxes)[q] == q
    requires IsGroup(boxes, RootOf(boxes), p, a) && IsGroup(boxes, RootOf(boxes), q, b)
    ensures a != [] && b != []
    ensures Less(a[0], b[0]) <==> !exists m: nat :: OutOfPlace(boxes, p, q, m)
  {
    var root := RootOf(boxes);
    var i := FirstOfGroup(boxes, root, p, a);
    var j := FirstOfGroup(boxes, root, q, b);
    RootIsNeverUnseated(boxes, p);
    RootIsNeverUnseated(boxes, q);
    RootsAreChains(boxes, j, q);
    RootsAreChains(boxes, i, p);
    LessIsByPosition(boxes, i, j);
    if j < i {
      forall k: nat | k < |boxes| && Chained(boxes, k, p)
        ensures j < k
      {
        RootsAreChains(boxes, k, p);
      }
      assert OutOfPlace(boxes, p, q, j);
    }
    if m: nat :| OutOfPlace(boxes, p, q, m) {
      RootsAreChains(boxes, m, q);
      assert m < i;
    }
  }

  lemma LessIsByPosition(boxes: seq<Box>, i: nat, j: nat)
    requires Sorted(boxes) && i < |boxes| && j < |boxes|
    ensures Less(boxes[i], boxes[j]) <==> i < j
  {
    if |boxes[i]| == |boxes[j]| { LessIsTotal(boxes[i], boxes[j]); }
  }

  /** The components are in canonical order exactly when no two of them are out of place. */
  lemma OrderIsCanonicalIff(boxes: seq<Box>, out: seq<seq<Box>>)
    requires Sorted(boxes) && IsResult(boxes, out)
    ensures InCanonicalOrder(out) <==> !exists p: nat, q: nat, m: nat :: OutOfPlace(boxes, p, q, m)
  {
    var root := RootOf(boxes);
    var roots: seq<nat> :| IsGrouped(boxes, root, roots, out);
    if p: nat, q: nat, m: nat :| OutOfPlace(boxes, p, q, m) {
      var g, h := PlacesOf(boxes, roots, out, p, q);
      PairInOrder(boxes, p, q, out[g], out[h]);
    }
    if !exists p: nat, q: nat, m: nat :: OutOfPlace(boxes, p, q, m) {
      forall g, h | 0 <= g < h < |out|
        ensures out[g] != [] && out[h] != [] && Less(out[g][0], out[h][0])
      {
        RootIsOwn(boxes, roots, out, g);
        RootIsOwn(boxes, roots, out, h);
        PairInOrder(boxes, roots[g], roots[h], out[g], out[h]);
      }
      forall g | 0 <= g < |out|
        ensures out[g] != []
      {
        assert IsGroup(boxes, root, roots[g], out[g]);
      }
    }
  }

  lemma RootIsOwn(boxes: seq<Box>, roots: seq<nat>, out: seq<seq<Box>>, g: nat)
    requires IsGrouped(boxes, RootOf(boxes), roots, out) && g < |out|
    ensures roots[g] < |boxes| && RootOf(boxes)[roots[g]] == roots[g] && IsGroup(boxes, RootOf(boxes), roots[g], out[g])
  {
    assert IsGroup(boxes, RootOf(boxes), roots[g], out[g]);
    var m := FirstOfGroup(boxes, RootOf(boxes), roots[g], out[g]);
    RootIsSettled(boxes, m);
  }

  lemma PlacesOf(boxes: seq<Box>, roots: seq<nat>, out: seq<seq<Box>>, p: nat, q: nat) returns (g: nat, h: nat)
    requires IsGrouped(boxes, RootOf(boxes), roots, out) && p < q < |boxes| && !Unseated(boxes, p) && !Unseated(boxes, q)
    ensures g < h < |out| && roots[g] == p && roots[h] == q && RootOf(boxes)[p] == p && RootOf(boxes)[q] == q
    ensures IsGroup(boxes, RootOf(boxes), p, out[g]) && IsGroup(boxes, RootOf(boxes), q, out[h])
  {
    RootIsNeverUnseated(boxes, p);
    RootIsNeverUnseated(boxes, q);
    assert p in roots && q in roots;
    g :| 0 <= g < |roots| && roots[g] == p;
    h :| 0 <= h < |roots| && roots[h] == q;
  }

  /** When no pair unseats a least box the promised order holds. */
  lemma LeastRootsAreCanonical(boxes: seq<Box>, out: seq<seq<Box>>)
    requires Sorted(boxes) && IsResult(boxes, out)
    requires forall m: nat :: IsLeast(boxes, m) ==> !Unseated(boxes, m)
    ensures InCanonicalOrder(out)
  {
    RootsAreLeastIff(boxes);
    OrderIsCanonicalIff(boxes, out);
    forall p: nat, q: nat, m: nat
      ensures !OutOfPlace(boxes, p, q, m)
    {
      LeastIsInPlace(boxes, p, q, m);
    }
  }

  lemma LeastIsInPlace(boxes: seq<Box>, p: nat, q: nat, m: nat)
    requires RootsAreLeast(boxes)
    ensures !OutOfPlace(boxes, p, q, m)
  {
    if p < q < |boxes| {
      RootIsNeverUnseated(boxes, p);
      RootIsNeverUnseated(boxes, q);
      RootsAreChains(boxes, p, p);
      assert IsLeast(boxes, RootOf(boxes)[q]);
    }
  }

  // ----- an input that breaks the order -----

  function Rect(x0: real, x1: real, y0: real, y1: real): Box {
    [Interval(x0, x1, Closed, Open), Interval(y0, y1, Closed, Open)]
  }

  /** Boxes in canonical order of which exactly the first and the last, and the third and the last, are connected. */
  function Misplaced(): seq<Box> {
    [Rect(0.0, 5.0, 0.0, 1.0), Rect(1.0, 2.0, 100.0, 101.0), Rect(2.0, 3.0, 10.0, 11.0), Rect(3.0, 4.0, 0.0, 11.0)]
  }

  lemma MisplacedPairs()
    ensures Sorted(Misplaced())
    ensures forall i, j :: 0 <= i < j < 4 ==> (Connected(Misplaced()[i], Misplaced()[j]) <==> j == 3 && i != 1)
  {
    var b := Misplaced();
    forall i, j | 0 <= i < j < 4
      ensures Less(b[i], b[j])
    {
      assert LessFrom(b[i], b[j], 0);
    }
    assert Overlaps(b[0], b[3]);
    assert Meet(b[2], b[3], 0);
    assert !SpanOverlap(b[0][1], b[1][1]) && !SpanOverlap(b[0][1], b[2][1]);
    assert !SpanOverlap(b[1][1], b[2][1]) && !SpanOverlap(b[1][1], b[3][1]);
  }

  /** They are a normalized cover, so ConnectedComponents works on them as they are. */
  lemma MisplacedIsNormal<M>(boxes: seq<Painted<M>>)
    requires Geo(boxes) == Misplaced()
    ensures NormalOf(boxes) == Misplaced()
  {
    var b := Misplaced();
    MisplacedPairs();
    forall x, y | x in Elements(b) && y in Elements(b) && x != y
      ensures !Sub(x, y)
    {
      var i: nat :| i < |b| && b[i] == x;
      var j: nat :| j < |b| && b[j] == y;
      NoneCovers(i, j);
    }
    forall x | x in b
      ensures |x| == 2 && !Hollow(x)
    {
      var i: nat :| i < |b| && b[i] == x;
      NoneCovers(i, i);
    }
    assert Solid(b) == Elements(b);
    MaximaOfAntichain(Elements(b));
    NormalIsUnique(boxes, b, 2);
  }

  lemma NoneCovers(i: nat, j: nat)
    requires i < 4 && j < 4
    ensures |Misplaced()[i]| == 2 && !Hollow(Misplaced()[i])
    ensures i != j ==> !Sub(Misplaced()[i], Misplaced()[j])
  {
    var a, b := Misplaced()[i], Misplaced()[j];
    assert i != j ==> !SpanWithin(a[0], b[0]) || !SpanWithin(a[1], b[1]);
  }

  lemma MisplacedRoots()
    ensures RootOf(Misplaced()) == [2, 1, 2, 2]
  {
    var b := Misplaced();
    MisplacedPairs();
    assert RootsTo(b, 0, 1) == [0, 1, 2, 3];
    assert RootsTo(b, 0, 2) == [0, 1, 2, 3];
    assert RootsTo(b, 0, 3) == [0, 1, 2, 3];
    assert RootsTo(b, 0, 4) == [0, 1, 2, 0];
    assert RootsTo(b, 1, 2) == [0, 1, 2, 0];
    assert RootsTo(b, 1, 3) == [0, 1, 2, 0];
    assert RootsTo(b, 1, 4) == [0, 1, 2, 0];
    assert RootsTo(b, 2, 3) == [0, 1, 2, 0];
    assert RootsTo(b, 2, 4) == [2, 1, 2, 2];
    assert RootsTo(b, 3, 4) == [2, 1, 2, 2];
  }

  /** ConnectedComponents returns the component of the first box last. */
  lemma FirstComponentComesLast(out: seq<seq<Box>>)
    requires IsResult(Misplaced(), out)
    ensures |out| == 2 && out[0] == [Misplaced()[1]] && out[1] == [Misplaced()[0], Misplaced()[2], Misplaced()[3]]
    ensures !InCanonicalOrder(out)
  {
    var b := Misplaced();
    MisplacedPairs();
    MisplacedRoots();
    var roots: seq<nat> :| IsGrouped(b, RootOf(b), roots, out);
    MisplacedGroups(roots, out);
    assert Less(b[0], b[1]);
    LessIsTotal(b[0], b[1]);
  }

  lemma MisplacedGroups(roots: seq<nat>, out: seq<seq<Box>>)
    requires IsGrouped(Misplaced(), [2, 1, 2, 2], roots, out)
    ensures |out| == 2 && out[0] == [Misplaced()[1]] && out[1] == [Misplaced()[0], Misplaced()[2], Misplaced()[3]]
  {
    var b: seq<Box>, root: seq<nat> := Misplaced(), [2, 1, 2, 2];
    assert root[0] == 2 && root[1] == 1;
    forall r: nat ensures r in roots <==> r == 1 || r == 2 { RootsOfGroups(b, root, roots, out, r); }
    TwoRoots(roots);
    assert Members(root, 1, 4) == [1] && Members(root, 2, 4) == [0, 2, 3];
    assert IsGroup(b, root, 1, out[0]) && IsGroup(b, root, 2, out[1]);
  }

  lemma TwoRoots(roots: seq<nat>)
    requires (forall r: nat :: r in roots <==> r == 1 || r == 2) && forall j, k :: 0 <= j < k < |roots| ==> roots[j] < roots[k]
    ensures roots == [1, 2]
  {
    var less := (a: nat, b: nat) => a < b;
    assert Increasing(less, roots) && Increasing(less, [1, 2]) && Asymmetric(less, roots);
    assert Elements(roots) == Elements([1, 2]);
    IncreasingIsUnique(less, roots, [1, 2]);
  }
}
