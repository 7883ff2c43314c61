/** demo/paint/ui-src/grid.js: the cells a pen stroke crosses, by an integer error term. */
module GridLines {

  datatype Cell = Cell(ix: int, iy: int)

  /** A cell in board units. */
  datatype Rect = Rect(x0: real, y0: real, x1: real, y1: real)

  function Abs(v: int): nat {
    if v < 0 then -v else v
  }

  function Longer(a: nat, b: nat): nat {
    if a < b then b else a
  }

  function Toward(from: int, to: int): int {
    if from < to then 1 else -1
  }

  function RectOf(c: Cell, cell: real): Rect {
    Rect(c.ix as real * cell, c.iy as real * cell, (c.ix + 1) as real * cell, (c.iy + 1) as real * cell)
  }

  /**
   * The cell is between the ends of the line on both axes, `k` steps along the longer one, and within
   * half a cell of the ideal line on the shorter one, a step ahead when it is exactly half a cell off.
   */
  ghost predicate OnLine(a: Cell, b: Cell, k: nat, c: Cell) {
    var dx, dy := Abs(b.ix - a.ix), Abs(b.iy - a.iy);
    var x, y := (c.ix - a.ix) * Toward(a.ix, b.ix), (c.iy - a.iy) * Toward(a.iy, b.iy);
    && 0 <= x <= dx && 0 <= y <= dy
    && if dx >= dy then x == k && WithinHalf(dx, dy, x, y) else y == k && WithinHalf(dy, dx, y, x)
  }

  /**
   * After `along` of `long` steps the `across` position is behind the ideal one by less than a half, or
   * ahead of it by at most a half.
   */
  predicate WithinHalf(long: int, short: int, along: int, across: int) {
    var behind := 2 * (along * short - across * long);
    0 - long <= behind && (long > 0 ==> behind < long) && (long == 0 ==> behind == 0)
  }

  /** Where the loop stands after `k` steps of the longer axis, seen from that axis. */
  ghost predicate Led(long: int, short: int, k: int, along: int, across: int, e: int) {
    && along == k && 0 <= along <= long && 0 <= across <= short
    && WithinHalf(long, short, along, across) && e == long - short - along * short + across * long
  }

  /** Where the loop stands after `k` iterations: `x` and `y` steps taken, and the error term they give. */
  ghost predicate Balanced(dx: int, dy: int, k: int, x: int, y: int, err: int) {
    if dx >= dy then Led(dx, dy, k, x, y, err) else Led(dy, dx, k, y, x, 0 - err)
  }

  lemma HalfIsNone(gap: int, long: int)
    requires long > 0 && 2 * (gap * long) <= long
    ensures gap <= 0
  {
    if gap >= 1 { Scales(gap, long); }
  }

  lemma Scales(gap: int, long: int)
    requires gap >= 1 && long > 0
    ensures gap * long >= long
  {
    assert gap * long == (gap - 1) * long + long;
    assert (gap - 1) * long >= 0;
  }

  /** A full run along the longer axis has arrived on the shorter one. */
  lemma FullRunArrives(long: int, short: int, across: int)
    requires WithinHalf(long, short, long, across) && long > 0
    ensures across == short
  {
    var gap := short - across;
    assert long * short - across * long == gap * long;
    assert (0 - gap) * long == 0 - gap * long;
    HalfIsNone(gap, long);
    HalfIsNone(0 - gap, long);
  }

  /** Until then the shorter axis has not passed its end. */
  lemma NeverOvershoots(long: int, short: int, along: int, across: int)
    requires WithinHalf(long, short, along, across) && along <= long && long > 0 && short >= 0
    ensures across <= short
  {
    var left, gap := long - along, across - short;
    assert left * short >= 0;
    assert along * short - across * long == 0 - left * short - gap * long;
    HalfIsNone(gap, long);
  }

  /** One step along the longer axis, with one on the shorter exactly when the error term allows it. */
  lemma StepLeads(long: int, short: int, k: int, along: int, across: int, e: int)
    requires 0 <= short <= long && Led(long, short, k, along, across, e) && !(along == long && across == short)
    ensures k < long && 2 * e >= 0 - short
    ensures 2 * e <= long ==> Led(long, short, k + 1, along + 1, across + 1, e - short + long)
    ensures 2 * e > long ==> Led(long, short, k + 1, along + 1, across, e - short)
  {
    assert (along + 1) * short == along * short + short && (across + 1) * long == across * long + long;
    if along == long && long > 0 { FullRunArrives(long, short, across); }
    if 2 * e <= long && along < long { NeverOvershoots(long, short, along + 1, across + 1); }
  }

  /** The two tests of the loop body, and what they do to the position and the error term. */
  lemma BodyKeepsBalance(dx: int, dy: int, k: int, x: int, y: int, err: int)
    requires dx >= 0 && dy >= 0 && Balanced(dx, dy, k, x, y, err) && !(x == dx && y == dy)
    ensures k < (if dx >= dy then dx else dy) && (2 * err >= 0 - dy || 2 * err <= dx)
    ensures 2 * err >= 0 - dy && 2 * err <= dx ==> Balanced(dx, dy, k + 1, x + 1, y + 1, err - dy + dx)
    ensures 2 * err >= 0 - dy && 2 * err > dx ==> Balanced(dx, dy, k + 1, x + 1, y, err - dy)
    ensures 2 * err < 0 - dy && 2 * err <= dx ==> Balanced(dx, dy, k + 1, x, y + 1, err + dx)
  {
    if dx >= dy { StepLeads(dx, dy, k, x, y, err); } else { StepLeads(dy, dx, k, y, x, 0 - err); }
  }

  /** The cells of the line: one per step of the longer axis, in order, ending at `b`. */
  ghost predicate IsLine(a: Cell, b: Cell, cells: seq<Cell>) {
    && |cells| == Longer(Abs(b.ix - a.ix), Abs(b.iy - a.iy))
    && (forall k :: 0 <= k < |cells| ==> OnLine(a, b, k + 1, cells[k]))
    && (|cells| > 0 ==> cells[|cells| - 1] == b)
    && (forall k :: 0 <= k < |cells| ==> Neighbours(Before(a, cells, k), cells[k]))
  }

  lemma NoneFurther(long: int, short: int, along: int, across: int, across': int)
    requires long > 0 && WithinHalf(long, short, along, across) && WithinHalf(long, short, along, across')
    ensures across <= across'
  {
    var gap := across - across';
    assert gap * long == across * long - across' * long;
    if gap >= 1 { Scales(gap, long); }
  }

  /** Only one position is within a half of the ideal one. */
  lemma AcrossIsUnique(long: int, short: int, along: int, across: int, across': int)
    requires long > 0 && WithinHalf(long, short, along, across) && WithinHalf(long, short, along, across')
    ensures across == across'
  {
    NoneFurther(long, short, along, across, across');
    NoneFurther(long, short, along, across', across);
  }

  lemma OneCellPerStep(a: Cell, b: Cell, k: nat, c: Cell, d: Cell)
    requires 0 < k <= Longer(Abs(b.ix - a.ix), Abs(b.iy - a.iy)) && OnLine(a, b, k, c) && OnLine(a, b, k, d)
    ensures c == d
  {
    var dx, dy := Abs(b.ix - a.ix), Abs(b.iy - a.iy);
    var x, y := (c.ix - a.ix) * Toward(a.ix, b.ix), (c.iy - a.iy) * Toward(a.iy, b.iy);
    var x', y' := (d.ix - a.ix) * Toward(a.ix, b.ix), (d.iy - a.iy) * Toward(a.iy, b.iy);
    if dx >= dy { AcrossIsUnique(dx, dy, x, y, y'); } else { AcrossIsUnique(dy, dx, y, x, x'); }
  }

  /** The line from one cell to another is determined. */
  lemma LineIsUnique(a: Cell, b: Cell, cells: seq<Cell>, cells': seq<Cell>)
    requires IsLine(a, b, cells) && IsLine(a, b, cells')
    ensures cells == cells'
  {
    forall k | 0 <= k < |cells|
      ensures cells[k] == cells'[k]
    {
      OneCellPerStep(a, b, k + 1, cells[k], cells'[k]);
    }
  }

  /** At most one step on each axis, and at least one on some. */
  predicate Neighbours(c: Cell, d: Cell) {
    Abs(d.ix - c.ix) <= 1 && Abs(d.iy - c.iy) <= 1 && c != d
  }

  /** The cell `x` and `y` steps from `a` towards `b`. */
  function CellAt(a: Cell, b: Cell, x: int, y: int): Cell {
    Cell(if a.ix < b.ix then a.ix + x else a.ix - x, if a.iy < b.iy then a.iy + y else a.iy - y)
  }

  lemma BalancedIsOnLine(a: Cell, b: Cell, k: nat, x: int, y: int, err: int)
    requires Balanced(Abs(b.ix - a.ix), Abs(b.iy - a.iy), k, x, y, err)
    ensures OnLine(a, b, k, CellAt(a, b, x, y))
    ensures k <= Longer(Abs(b.ix - a.ix), Abs(b.iy - a.iy))
    ensures CellAt(a, b, x, y) == b <==> x == Abs(b.ix - a.ix) && y == Abs(b.iy - a.iy)
  {
    var c := CellAt(a, b, x, y);
    assert (c.ix - a.ix) * Toward(a.ix, b.ix) == x;
    assert (c.iy - a.iy) * Toward(a.iy, b.iy) == y;
  }

  /** The loop variables: the steps taken on each axis, and the error term. */
  datatype State = State(x: int, y: int, err: int)

  function Body(dx: int, dy: int, s: State): State {
    var stepX, stepY := 2 * s.err >= 0 - dy, 2 * s.err <= dx;
    State(if stepX then s.x + 1 else s.x, if stepY then s.y + 1 else s.y,
      s.err + (if stepX then 0 - dy else 0) + (if stepY then dx else 0))
  }

  /** The state after `k` iterations. */
  ghost function StateAt(dx: int, dy: int, k: nat): State {
    if k == 0 then State(0, 0, dx - dy) else Body(dx, dy, StateAt(dx, dy, k - 1))
  }

  lemma BodyBalances(dx: int, dy: int, k: int, next: int, s: State)
    requires dx >= 0 && dy >= 0 && Balanced(dx, dy, k, s.x, s.y, s.err) && !(s.x == dx && s.y == dy) && next == k + 1
    ensures var t := Body(dx, dy, s); Balanced(dx, dy, next, t.x, t.y, t.err)
  {
    BodyKeepsBalance(dx, dy, k, s.x, s.y, s.err);
  }

  lemma {:induction false} StatesAreBalanced(dx: int, dy: int, k: nat)
    requires dx >= 0 && dy >= 0 && k <= Longer(dx, dy)
    ensures var s := StateAt(dx, dy, k); Balanced(dx, dy, k, s.x, s.y, s.err)
  {
    if k > 0 {
      StatesAreBalanced(dx, dy, k - 1);
      var s := StateAt(dx, dy, k - 1);
      BodyBalances(dx, dy, k - 1, k, s);
    }
  }

  /** The run is at its end exactly after as many iterations as the longer axis has steps. */
  lemma EndsOnTime(dx: int, dy: int, k: nat)
    requires dx >= 0 && dy >= 0 && k <= Longer(dx, dy)
    ensures var s := StateAt(dx, dy, k); s.x == dx && s.y == dy <==> k == Longer(dx, dy)
  {
    StatesAreBalanced(dx, dy, k);
    var s := StateAt(dx, dy, k);
    if k == Longer(dx, dy) && Longer(dx, dy) > 0 {
      if dx >= dy { FullRunArrives(dx, dy, s.y); } else { FullRunArrives(dy, dx, s.x); }
    }
  }

  ghost function LineCell(a: Cell, b: Cell, k: nat): Cell {
    var s := StateAt(Abs(b.ix - a.ix), Abs(b.iy - a.iy), k);
    CellAt(a, b, s.x, s.y)
  }

  lemma LineCellIsOnLine(a: Cell, b: Cell, k: nat)
    requires k <= Longer(Abs(b.ix - a.ix), Abs(b.iy - a.iy))
    ensures OnLine(a, b, k, LineCell(a, b, k))
  {
    var dx, dy := Abs(b.ix - a.ix), Abs(b.iy - a.iy);
    var s := StateAt(dx, dy, k);
    StatesAreBalanced(dx, dy, k);
    BalancedIsOnLine(a, b, k, s.x, s.y, s.err);
  }

  lemma LineCellMoves(a: Cell, b: Cell, k: nat)
    requires k < Longer(Abs(b.ix - a.ix), Abs(b.iy - a.iy))
    ensures Neighbours(LineCell(a, b, k), LineCell(a, b, k + 1))
  {
    var dx, dy := Abs(b.ix - a.ix), Abs(b.iy - a.iy);
    var s := StateAt(dx, dy, k);
    StatesAreBalanced(dx, dy, k);
    StepMoves(dx, dy, s, k);
  }

  lemma LineCellEnds(a: Cell, b: Cell, k: nat)
    requires k <= Longer(Abs(b.ix - a.ix), Abs(b.iy - a.iy))
    ensures LineCell(a, b, k) == b <==> k == Longer(Abs(b.ix - a.ix), Abs(b.iy - a.iy))
  {
    EndsOnTime(Abs(b.ix - a.ix), Abs(b.iy - a.iy), k);
  }

  lemma StepMoves(dx: int, dy: int, s: State, k: nat)
    requires dx >= 0 && dy >= 0 && k < Longer(dx, dy) && Balanced(dx, dy, k, s.x, s.y, s.err)
    ensures Body(dx, dy, s).x != s.x || Body(dx, dy, s).y != s.y
  {
    BodyKeepsBalance(dx, dy, k, s.x, s.y, s.err);
  }

  lemma CellsAreLine(a: Cell, b: Cell, cells: seq<Cell>)
    requires |cells| == Longer(Abs(b.ix - a.ix), Abs(b.iy - a.iy))
    requires forall k :: 0 <= k < |cells| ==> cells[k] == LineCell(a, b, k + 1)
    ensures IsLine(a, b, cells)
  {
    forall k | 0 <= k < |cells|
      ensures OnLine(a, b, k + 1, cells[k]) && Neighbours(Before(a, cells, k), cells[k])
    {
      LineCellIsOnLine(a, b, k + 1);
      LineCellMoves(a, b, k);
    }
    LineCellEnds(a, b, |cells|);
  }

  /** The cell before the `k`th. */
  function Before(a: Cell, cells: seq<Cell>, k: nat): Cell
    requires k <= |cells|
  {
    if k == 0 then a else cells[k - 1]
  }

  /** The rectangles are those of the cells of a line from `a` to `b`. */
  ghost predicate Draws(a: Cell, b: Cell, cell: real, rects: seq<Rect>) {
    exists cells :: IsLine(a, b, cells) && AreRects(cells, cell, rects)
  }

  ghost predicate AreRects(cells: seq<Cell>, cell: real, rects: seq<Rect>) {
    |rects| == |cells| && forall k :: 0 <= k < |rects| ==> Fills(cells[k], cell, rects[k])
  }

  /** The rectangle has its lower corner at the cell's place and sides of one cell. */
  ghost predicate Fills(c: Cell, cell: real, r: Rect) {
    r.x0 == c.ix as real * cell && r.y0 == c.iy as real * cell && r.x1 - r.x0 == cell && r.y1 - r.y0 == cell
  }

  /** The ends and the cell size determine the rectangles. */
  lemma DrawingIsUnique(a: Cell, b: Cell, cell: real, rects: seq<Rect>, rects': seq<Rect>)
    requires Draws(a, b, cell, rects) && Draws(a, b, cell, rects')
    ensures rects == rects'
  {
    var cells :| IsLine(a, b, cells) && AreRects(cells, cell, rects);
    var cells' :| IsLine(a, b, cells') && AreRects(cells', cell, rects');
    LineIsUnique(a, b, cells, cells');
    forall k | 0 <= k < |rects|
      ensures rects[k] == rects'[k]
    {
      assert Fills(cells[k], cell, rects[k]) && Fills(cells[k], cell, rects'[k]);
    }
  }

  lemma RectFills(c: Cell, cell: real)
    ensures Fills(c, cell, RectOf(c, cell))
  {
    assert (c.ix + 1) as real * cell == c.ix as real * cell + cell;
    assert (c.iy + 1) as real * cell == c.iy as real * cell + cell;
  }

  /** gridLine: one cell per step of the longer axis, excluding `a` and including `b`. */
  method GridLine(a: Cell, b: Cell, cell: real) returns (rects: seq<Rect>)
    ensures Draws(a, b, cell, rects)
  {
    rects := [];
    ghost var cells: seq<Cell> := [];
    var x0, y0 := a.ix, a.iy;
    var dx: int, dy: int := Abs(b.ix - x0), 0 - Abs(b.iy - y0);
    var sx, sy := Toward(x0, b.ix), Toward(y0, b.iy);
    var err := dx + dy;
    ghost var longer := Longer(dx, 0 - dy);
    while x0 != b.ix || y0 != b.iy
      invariant AtStep(a, b, |cells|, x0, y0, err) && |cells| <= longer
      invariant forall k :: 0 <= k < |cells| ==> cells[k] == LineCell(a, b, k + 1)
      invariant AreRects(cells, cell, rects)
      decreases longer - |cells|
    {
      LineCellEnds(a, b, |cells|);
      x0, y0, err := Step(x0, y0, err, dx, dy, sx, sy, a, b, |cells|);
      RectFills(Cell(x0, y0), cell);
      rects := rects + [RectOf(Cell(x0, y0), cell)];
      cells := cells + [Cell(x0, y0)];
    }
    LineCellEnds(a, b, |cells|);
    CellsAreLine(a, b, cells);
  }

  /** The loop variables hold the state after `k` iterations. */
  ghost predicate AtStep(a: Cell, b: Cell, k: nat, x0: int, y0: int, err: int) {
    Cell(x0, y0) == LineCell(a, b, k) && err == StateAt(Abs(b.ix - a.ix), Abs(b.iy - a.iy), k).err
  }

  /** The body of the loop: one step on the longer axis, and one on the shorter when it is due. */
  method Step(x0: int, y0: int, err: int, dx: int, dy: int, sx: int, sy: int, ghost a: Cell, ghost b: Cell, ghost k: nat)
    returns (x: int, y: int, e: int)
    requires dx == Abs(b.ix - a.ix) && dy == 0 - Abs(b.iy - a.iy) && sx == Toward(a.ix, b.ix) && sy == Toward(a.iy, b.iy)
    requires AtStep(a, b, k, x0, y0, err)
    ensures AtStep(a, b, k + 1, x, y, e)
  {
    x, y, e := x0, y0, err;
    var e2 := 2 * err;
    if e2 >= dy {
      e := e + dy;
      x := x + sx;
    }
    if e2 <= dx {
      e := e + dx;
      y := y + sy;
    }
  }
}
