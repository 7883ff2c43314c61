/** demo/web/partition.go: the explicit worklist that computes the cells. */
module Worklist {
  import opened Breakpoints
  import opened Boxes
  import opened BoxSubtraction
  import opened BoxSets
  import opened BoxDifference
  import opened Partitioning

  /** Boxes clipped to a common prefix of slabs, with the next axis to sweep. */
  datatype Work = Work(boxes: seq<Box>, axis: nat)

  ghost predicate IsWork(w: Work, dims: nat) {
    OfDims(w.boxes, dims) && w.axis < dims
  }

  ghost predicate AreWorks(stack: seq<Work>, dims: nat) {
    forall k :: 0 <= k < |stack| ==> IsWork(stack[k], dims)
  }

  method SlabCoordinates(boxes: seq<Box>, axis: nat) returns (coords: seq<real>)
    requires forall b :: b in boxes ==> axis < |b|
    ensures coords == Coords(boxes, axis)
    ensures Rising(coords) && forall x :: x in coords <==> IsFace(boxes, axis, x)
  {
    var list: seq<real> := [];
    for i := 0 to |boxes|
      invariant forall b :: b in boxes[..i] ==> axis < |b|
      invariant list == Faces(boxes[..i], axis)
    {
      assert boxes[..i + 1] == boxes[..i] + [boxes[i]];
      assert boxes[..i + 1][..i] == boxes[..i];
      assert boxes[i] in boxes;
      if !Hollow(boxes[i]) { list := list + [boxes[i][axis].start, boxes[i][axis].end]; }
    }
    assert boxes[..|boxes|] == boxes;
    coords := SortUnique(list);
    UniqueRises(list);
    forall x { FacesIff(boxes, axis, x); }
  }

  method SlabOfBoxes(boxes: seq<Box>, axis: nat, lo: real, hi: real) returns (slab: seq<Box>)
    requires forall b :: b in boxes ==> axis < |b|
    ensures slab == SlabAt(boxes, axis, lo, hi)
  {
    slab := [];
    for i := 0 to |boxes|
      invariant forall b :: b in boxes[..i] ==> axis < |b|
      invariant slab == SlabAt(boxes[..i], axis, lo, hi)
    {
      assert boxes[..i + 1] == boxes[..i] + [boxes[i]];
      assert boxes[..i + 1][..i] == boxes[..i];
      assert boxes[i] in boxes;
      if CoversSlab(boxes[i], axis, lo, hi) { slab := slab + [Clip(boxes[i], axis, lo, hi)]; }
    }
    assert boxes[..|boxes|] == boxes;
  }

  // ----- what is left to do -----

  /** The number of work items the first `i` slabs give rise to. */
  ghost function SizeTo(boxes: seq<Box>, axis: nat, dims: nat, i: nat): nat
    requires OfDims(boxes, dims) && axis < dims && i <= SlabCount(boxes, axis)
    decreases dims - axis, i
  {
    if i == 0 || axis == dims - 1 then 0
    else
      SlabDims(boxes, axis, i - 1, dims);
      var slab := Slab(boxes, axis, i - 1);
      SizeTo(boxes, axis, dims, i - 1) + (if slab == [] then 0 else SizeFrom(slab, axis + 1, dims))
  }

  ghost function SizeFrom(boxes: seq<Box>, axis: nat, dims: nat): nat
    requires OfDims(boxes, dims) && axis < dims
    decreases dims - axis, SlabCount(boxes, axis) + 1
  {
    1 + SizeTo(boxes, axis, dims, SlabCount(boxes, axis))
  }

  ghost function Size(w: Work, dims: nat): nat
    requires IsWork(w, dims)
  {
    SizeFrom(w.boxes, w.axis, dims)
  }

  ghost function TotalSize(stack: seq<Work>, dims: nat): nat
    requires AreWorks(stack, dims)
  {
    if stack == [] then 0 else Size(stack[|stack| - 1], dims) + TotalSize(stack[..|stack| - 1], dims)
  }

  /** The cells the stack still has to emit, the top first. */
  ghost function Pending(stack: seq<Work>, dims: nat): seq<Box>
    requires AreWorks(stack, dims)
  {
    if stack == [] then []
    else Cells(stack[|stack| - 1].boxes, stack[|stack| - 1].axis, dims) + Pending(stack[..|stack| - 1], dims)
  }

  lemma Push(stack: seq<Work>, w: Work, dims: nat)
    requires AreWorks(stack, dims) && IsWork(w, dims)
    ensures AreWorks(stack + [w], dims) && TotalSize(stack + [w], dims) == Size(w, dims) + TotalSize(stack, dims)
    ensures Pending(stack + [w], dims) == Cells(w.boxes, w.axis, dims) + Pending(stack, dims)
  {
    assert (stack + [w])[..|stack|] == stack;
  }

  /** What the stack and the output hold after the first `i` slabs of a work item, over those before it. */
  ghost predicate Swept(w: Work, dims: nat, i: nat, rest: seq<Work>, done: seq<Box>, stack: seq<Work>, out: seq<Box>) {
    forall k: nat :: k == i ==> SweptAt(w, dims, k, rest, done, stack, out)
  }

  ghost predicate SweptAt(w: Work, dims: nat, i: nat, rest: seq<Work>, done: seq<Box>, stack: seq<Work>, out: seq<Box>) {
    && IsWork(w, dims) && i <= SlabCount(w.boxes, w.axis) && AreWorks(rest, dims) && AreWorks(stack, dims)
    && TotalSize(stack, dims) == SizeTo(w.boxes, w.axis, dims, i) + TotalSize(rest, dims)
    && (w.axis == dims - 1 ==> stack == rest && out == done + CellsTo(w.boxes, w.axis, dims, i))
    && (w.axis < dims - 1 ==> out == done && Pending(stack, dims) == CellsTo(w.boxes, w.axis, dims, i) + Pending(rest, dims))
  }

  lemma SweptEmpty(w: Work, dims: nat, i: nat, rest: seq<Work>, done: seq<Box>, stack: seq<Work>, out: seq<Box>)
    requires SweptAt(w, dims, i, rest, done, stack, out) && i < SlabCount(w.boxes, w.axis) && Slab(w.boxes, w.axis, i) == []
    ensures SweptAt(w, dims, i + 1, rest, done, stack, out)
  {
    SlabDims(w.boxes, w.axis, i, dims);
    var own, before := SlabCells(Slab(w.boxes, w.axis, i), w.axis, dims), CellsTo(w.boxes, w.axis, dims, i);
    assert own == [] && own + before == before && before + own == before;
  }

  lemma SweptCell(w: Work, dims: nat, i: nat, rest: seq<Work>, done: seq<Box>, out: seq<Box>)
    requires SweptAt(w, dims, i, rest, done, rest, out) && i < SlabCount(w.boxes, w.axis) && w.axis == dims - 1
    requires Slab(w.boxes, w.axis, i) != []
    ensures SweptAt(w, dims, i + 1, rest, done, rest, out + [Slab(w.boxes, w.axis, i)[0]])
  {
    SlabDims(w.boxes, w.axis, i, dims);
    var cell, before := Slab(w.boxes, w.axis, i)[0], CellsTo(w.boxes, w.axis, dims, i);
    assert CellsTo(w.boxes, w.axis, dims, i + 1) == before + [cell];
    assert (done + before) + [cell] == done + (before + [cell]);
  }

  lemma SweptDeeper(w: Work, dims: nat, i: nat, rest: seq<Work>, done: seq<Box>, stack: seq<Work>, out: seq<Box>, deeper: Work)
    requires SweptAt(w, dims, i, rest, done, stack, out) && i < SlabCount(w.boxes, w.axis) && w.axis < dims - 1
    requires Slab(w.boxes, w.axis, i) != [] && deeper == Work(Slab(w.boxes, w.axis, i), w.axis + 1)
    ensures SweptAt(w, dims, i + 1, rest, done, stack + [deeper], out)
  {
    SlabDims(w.boxes, w.axis, i, dims);
    DeeperSize(w, dims, i, rest, stack, deeper);
    DeeperCells(w, dims, i, rest, stack, deeper);
  }

  lemma DeeperSize(w: Work, dims: nat, i: nat, rest: seq<Work>, stack: seq<Work>, deeper: Work)
    requires IsWork(w, dims) && i < SlabCount(w.boxes, w.axis) && w.axis < dims - 1 && Slab(w.boxes, w.axis, i) != []
    requires IsWork(deeper, dims) && deeper == Work(Slab(w.boxes, w.axis, i), w.axis + 1) && AreWorks(rest, dims)
    requires AreWorks(stack, dims)
    requires TotalSize(stack, dims) == SizeTo(w.boxes, w.axis, dims, i) + TotalSize(rest, dims)
    ensures AreWorks(stack + [deeper], dims)
    ensures TotalSize(stack + [deeper], dims) == SizeTo(w.boxes, w.axis, dims, i + 1) + TotalSize(rest, dims)
  {
    StepSize(w, dims, i, deeper);
    Push(stack, deeper, dims);
  }

  lemma DeeperCells(w: Work, dims: nat, i: nat, rest: seq<Work>, stack: seq<Work>, deeper: Work)
    requires IsWork(w, dims) && i < SlabCount(w.boxes, w.axis) && w.axis < dims - 1 && Slab(w.boxes, w.axis, i) != []
    requires IsWork(deeper, dims) && deeper == Work(Slab(w.boxes, w.axis, i), w.axis + 1) && AreWorks(rest, dims)
    requires AreWorks(stack, dims)
    requires Pending(stack, dims) == CellsTo(w.boxes, w.axis, dims, i) + Pending(rest, dims)
    ensures AreWorks(stack + [deeper], dims)
    ensures Pending(stack + [deeper], dims) == CellsTo(w.boxes, w.axis, dims, i + 1) + Pending(rest, dims)
  {
    StepCells(w, dims, i, deeper);
    Push(stack, deeper, dims);
    Regroup(Cells(deeper.boxes, deeper.axis, dims), CellsTo(w.boxes, w.axis, dims, i), Pending(rest, dims));
  }

  /** One slab adds one work item, whose cells come before those of the slabs before it. */
  lemma StepSize(w: Work, dims: nat, i: nat, deeper: Work)
    requires IsWork(w, dims) && i < SlabCount(w.boxes, w.axis) && w.axis < dims - 1 && Slab(w.boxes, w.axis, i) != []
    requires IsWork(deeper, dims) && deeper == Work(Slab(w.boxes, w.axis, i), w.axis + 1)
    ensures SizeTo(w.boxes, w.axis, dims, i + 1) == SizeTo(w.boxes, w.axis, dims, i) + Size(deeper, dims)
  {
    SizeMore(w.boxes, w.axis, deeper.axis, dims, i, deeper.boxes);
  }

  lemma StepCells(w: Work, dims: nat, i: nat, deeper: Work)
    requires IsWork(w, dims) && i < SlabCount(w.boxes, w.axis) && w.axis < dims - 1 && Slab(w.boxes, w.axis, i) != []
    requires IsWork(deeper, dims) && deeper == Work(Slab(w.boxes, w.axis, i), w.axis + 1)
    ensures CellsTo(w.boxes, w.axis, dims, i + 1) == Cells(deeper.boxes, deeper.axis, dims) + CellsTo(w.boxes, w.axis, dims, i)
  {
    DeeperSlab(deeper.boxes, w.axis, deeper.axis, dims);
    OneMore(w.boxes, w.axis, dims, i, SlabCells(deeper.boxes, w.axis, dims), CellsTo(w.boxes, w.axis, dims, i));
  }

  lemma SizeMore(boxes: seq<Box>, axis: nat, next: nat, dims: nat, i: nat, slab: seq<Box>)
    requires OfDims(boxes, dims) && next == axis + 1 < dims && i < SlabCount(boxes, axis) && slab == Slab(boxes, axis, i)
    requires slab != [] && OfDims(slab, dims)
    ensures SizeTo(boxes, axis, dims, i + 1) == SizeTo(boxes, axis, dims, i) + SizeFrom(slab, next, dims)
  {
  }

  lemma Top<T>(stack: seq<T>)
    requires |stack| > 0
    ensures stack == stack[..|stack| - 1] + [stack[|stack| - 1]]
  {
  }

  lemma Regroup<T>(a: seq<T>, b: seq<T>, c: seq<T>)
    ensures a + (b + c) == (a + b) + c
  {
  }

  /** What one slab does to the stack and the output. */
  ghost function SweepOne(w: Work, dims: nat, i: nat, stack: seq<Work>, out: seq<Box>): (seq<Work>, seq<Box>)
    requires IsWork(w, dims) && i < SlabCount(w.boxes, w.axis)
  {
    var slab := Slab(w.boxes, w.axis, i);
    if slab == [] then (stack, out)
    else if w.axis == dims - 1 then (stack, out + [slab[0]])
    else (stack + [Work(slab, w.axis + 1)], out)
  }

  /** The stack and the output after the first `i` slabs of a work item. */
  ghost function SweepTo(w: Work, dims: nat, i: nat, rest: seq<Work>, done: seq<Box>): (seq<Work>, seq<Box>)
    requires IsWork(w, dims) && i <= SlabCount(w.boxes, w.axis)
  {
    if i == 0 then (rest, done)
    else SweepOne(w, dims, i - 1, SweepTo(w, dims, i - 1, rest, done).0, SweepTo(w, dims, i - 1, rest, done).1)
  }

  lemma SweptIs(w: Work, dims: nat, i: nat, rest: seq<Work>, done: seq<Box>, stack: seq<Work>, out: seq<Box>)
    requires SweptAt(w, dims, i, rest, done, stack, out)
    ensures Swept(w, dims, i, rest, done, stack, out)
  {
  }

  lemma MoreEmpty(w: Work, dims: nat, i: nat, rest: seq<Work>, done: seq<Box>, stack: seq<Work>, out: seq<Box>,
                  stack': seq<Work>, out': seq<Box>)
    requires IsWork(w, dims) && i < SlabCount(w.boxes, w.axis) && Swept(w, dims, i, rest, done, stack, out)
    requires (stack', out') == SweepOne(w, dims, i, stack, out) && Slab(w.boxes, w.axis, i) == []
    ensures Swept(w, dims, i + 1, rest, done, stack', out')
  {
    assert SweptAt(w, dims, i, rest, done, stack, out);
    SweptEmpty(w, dims, i, rest, done, stack, out);
    SweptIs(w, dims, i + 1, rest, done, stack, out);
  }

  lemma MoreCell(w: Work, dims: nat, i: nat, rest: seq<Work>, done: seq<Box>, stack: seq<Work>, out: seq<Box>,
                 stack': seq<Work>, out': seq<Box>)
    requires IsWork(w, dims) && i < SlabCount(w.boxes, w.axis) && Swept(w, dims, i, rest, done, stack, out)
    requires (stack', out') == SweepOne(w, dims, i, stack, out)
    requires Slab(w.boxes, w.axis, i) != [] && w.axis == dims - 1
    ensures Swept(w, dims, i + 1, rest, done, stack', out')
  {
    assert SweptAt(w, dims, i, rest, done, stack, out);
    SweptCell(w, dims, i, rest, done, out);
    SweptIs(w, dims, i + 1, rest, done, rest, out + [Slab(w.boxes, w.axis, i)[0]]);
  }

  lemma MoreDeeper(w: Work, dims: nat, i: nat, rest: seq<Work>, done: seq<Box>, stack: seq<Work>, out: seq<Box>, deeper: Work)
    requires IsWork(w, dims) && i < SlabCount(w.boxes, w.axis) && Swept(w, dims, i, rest, done, stack, out)
    requires Slab(w.boxes, w.axis, i) != [] && w.axis < dims - 1 && deeper == Work(Slab(w.boxes, w.axis, i), w.axis + 1)
    ensures Swept(w, dims, i + 1, rest, done, stack + [deeper], out)
  {
    assert SweptAt(w, dims, i, rest, done, stack, out);
    SweptDeeper(w, dims, i, rest, done, stack, out, deeper);
    SweptIs(w, dims, i + 1, rest, done, stack + [deeper], out);
  }

  lemma SweptMore(w: Work, dims: nat, i: nat, rest: seq<Work>, done: seq<Box>, stack: seq<Work>, out: seq<Box>,
                  stack': seq<Work>, out': seq<Box>)
    requires IsWork(w, dims) && i < SlabCount(w.boxes, w.axis) && Swept(w, dims, i, rest, done, stack, out)
    requires (stack', out') == SweepOne(w, dims, i, stack, out)
    ensures Swept(w, dims, i + 1, rest, done, stack', out')
  {
    if Slab(w.boxes, w.axis, i) == [] {
      MoreEmpty(w, dims, i, rest, done, stack, out, stack', out');
    } else if w.axis == dims - 1 {
      MoreCell(w, dims, i, rest, done, stack, out, stack', out');
    } else {
      MoreDeeper(w, dims, i, rest, done, stack, out, Work(Slab(w.boxes, w.axis, i), w.axis + 1));
    }
  }

  lemma SweptNone(w: Work, dims: nat, i: nat, rest: seq<Work>, done: seq<Box>) returns (stack: seq<Work>, out: seq<Box>)
    requires IsWork(w, dims) && AreWorks(rest, dims) && i == 0
    ensures (stack, out) == (rest, done) && Swept(w, dims, i, rest, done, stack, out)
  {
    stack, out := rest, done;
    assert [] + Pending(rest, dims) == Pending(rest, dims) && done + [] == done;
    assert SweptAt(w, dims, 0, rest, done, stack, out);
  }

  lemma {:induction false} SweepIsSwept(w: Work, dims: nat, i: nat, rest: seq<Work>, done: seq<Box>)
    returns (stack: seq<Work>, out: seq<Box>)
    requires IsWork(w, dims) && AreWorks(rest, dims) && i <= SlabCount(w.boxes, w.axis)
    ensures (stack, out) == SweepTo(w, dims, i, rest, done) && Swept(w, dims, i, rest, done, stack, out)
  {
    if i == 0 {
      stack, out := SweptNone(w, dims, i, rest, done);
    } else {
      var stack0, out0 := SweepIsSwept(w, dims, i - 1, rest, done);
      stack, out := SweepTo(w, dims, i, rest, done).0, SweepTo(w, dims, i, rest, done).1;
      SweptMore(w, dims, i - 1, rest, done, stack0, out0, stack, out);
    }
  }

  /** Sweeps one work item, emitting cells or pushing the slabs for the next axis. */
  method SweepAxis(w: Work, dims: nat, rest: seq<Work>, done: seq<Box>) returns (stack: seq<Work>, out: seq<Box>)
    requires IsWork(w, dims) && AreWorks(rest, dims)
    ensures (stack, out) == SweepTo(w, dims, SlabCount(w.boxes, w.axis), rest, done)
  {
    stack, out := rest, done;
    var coords := SlabCoordinates(w.boxes, w.axis);
    var i: nat := 0;
    while i + 1 < |coords|
      invariant i <= SlabCount(w.boxes, w.axis) && (stack, out) == SweepTo(w, dims, i, rest, done)
    {
      var slab := SlabOfBoxes(w.boxes, w.axis, coords[i], coords[i + 1]);
      if |slab| != 0 {
        if w.axis == dims - 1 {
          out := out + [slab[0]];
        } else {
          stack := stack + [Work(slab, w.axis + 1)];
        }
      }
      i := i + 1;
    }
  }

  /** partition: runs the worklist to its end. */
  method RunWorklist(boxes: seq<Box>, dims: nat) returns (out: seq<Box>)
    requires OfDims(boxes, dims) && dims > 0
    ensures out == Cells(boxes, 0, dims)
  {
    var stack := [Work(boxes, 0)];
    out := [];
    Push([], Work(boxes, 0), dims);
    assert [] + [Work(boxes, 0)] == stack;
    while |stack| > 0
      invariant AreWorks(stack, dims) && out + Pending(stack, dims) == Cells(boxes, 0, dims)
      decreases if AreWorks(stack, dims) then TotalSize(stack, dims) else 0
    {
      var w, rest := stack[|stack| - 1], stack[..|stack| - 1];
      Top(stack);
      Push(rest, w, dims);
      ghost var before := out;
      stack, out := SweepAxis(w, dims, rest, out);
      TurnKeeps(w, dims, rest, before, stack, out);
    }
  }

  /** Sweeping a work item loses no cell and leaves one item less to do. */
  lemma TurnKeeps(w: Work, dims: nat, rest: seq<Work>, done: seq<Box>, stack: seq<Work>, out: seq<Box>)
    requires IsWork(w, dims) && AreWorks(rest, dims) && (stack, out) == SweepTo(w, dims, SlabCount(w.boxes, w.axis), rest, done)
    ensures AreWorks(stack, dims) && TotalSize(stack, dims) < Size(w, dims) + TotalSize(rest, dims)
    ensures out + Pending(stack, dims) == done + (Cells(w.boxes, w.axis, dims) + Pending(rest, dims))
  {
    var s, o := SweepIsSwept(w, dims, SlabCount(w.boxes, w.axis), rest, done);
    assert SweptAt(w, dims, SlabCount(w.boxes, w.axis), rest, done, s, o);
    Regroup(done, Cells(w.boxes, w.axis, dims), Pending(rest, dims));
  }

  /**
   * Partition: disjoint cells that cover exactly the kept points, and so exactly the points of the boxes
   * when these are half-open. Nothing when no box has a point.
   */
  method Partition(boxes: seq<Box>, ghost n: nat) returns (out: seq<Box>)
    requires OfDims(boxes, n) && n > 0
    ensures Apart(out) && forall x :: InsideSome(out, x) <==> Kept(boxes, x)
    ensures (forall b :: b in boxes ==> IsHalfOpen(b)) ==> forall x :: InsideSome(out, x) <==> InsideSome(boxes, x)
  {
    var dims := 0;
    for i := 0 to |boxes|
      invariant dims == 0 && forall k :: 0 <= k < i ==> Hollow(boxes[k])
    {
      if !Hollow(boxes[i]) {
        assert boxes[i] in boxes;
        dims := |boxes[i]|;
        break;
      }
    }
    if dims == 0 {
      NothingToKeep(boxes, n);
      return [];
    }
    out := RunWorklist(boxes, dims);
    IsUniform(boxes, [], n);
    CellsAreApart(boxes, [], n, SlabCount(boxes, 0));
    forall x
      ensures InsideSome(out, x) <==> Kept(boxes, x)
    {
      CellsCoverKept(boxes, n, x);
    }
    if forall b :: b in boxes ==> IsHalfOpen(b) { HalfOpenArePartitioned(boxes, n); }
  }

  lemma NothingToKeep(boxes: seq<Box>, n: nat)
    requires OfDims(boxes, n) && n > 0 && forall k :: 0 <= k < |boxes| ==> Hollow(boxes[k])
    ensures forall x :: !Kept(boxes, x) && !InsideSome(boxes, x)
  {
    forall x
      ensures !Kept(boxes, x) && !InsideSome(boxes, x)
    {
      forall b | b in boxes && Inside(Halved(b), x)
        ensures false
      {
        HalvedIsNotHollow(b, x);
      }
      forall k | 0 <= k < |boxes|
        ensures !Inside(boxes[k], x)
      {
        HollowMeansNoPoint(boxes[k]);
      }
    }
  }
}
