/** Adding a rectangular block of per-pass terms into a grid, as the receptor
    loops of `iterDisp` do: pass (i, j) adds `term(i, j)` to row `base - j`,
    column `offset + i`. The stage lemmas follow a sweep cell by cell, with
    either `i` (plan view) or `j` (slice) as the outer loop, and the sweep
    methods are those loops over real-valued counters. */
module Sweep {
  import opened Js
  import opened Domain

  /** Same number of rows, and row by row the same number of cells. */
  predicate SameShape(a: Field, b: Field) {
    |a| == |b| && forall r :: 0 <= r < |a| ==> |a[r]| == |b[r]|
  }

  /** Two grids of one shape with equal cells are equal. */
  lemma CellwiseEqual(a: Field, b: Field)
    requires SameShape(a, b)
    requires forall r, c :: 0 <= r < |a| && 0 <= c < |a[r]| ==> a[r][c] == b[r][c]
    ensures a == b
  {
    forall r | 0 <= r < |a|
      ensures a[r] == b[r]
    {
      assert forall c :: 0 <= c < |a[r]| ==> a[r][c] == b[r][c];
    }
  }

  /** The cells a sweep writes: `ni` columns from `offset`, `nj` rows upward from `base`. */
  datatype Block = Block(base: int, offset: int, ni: nat, nj: nat)

  /** Every cell of the block exists in `grid`. */
  predicate Fits(grid: Field, b: Block) {
    0 <= b.offset && b.nj <= b.base + 1 && b.base < |grid| &&
    forall r :: 0 <= r < |grid| && b.base - b.nj < r ==> b.offset + b.ni <= |grid[r]|
  }

  /** Cell (r, c) is written by pass (c - offset, base - r). */
  predicate InBlock(b: Block, r: int, c: int) {
    0 <= b.base - r < b.nj && 0 <= c - b.offset < b.ni
  }

  /** `grid` with every pass's term added to its cell. */
  function AddBlock(grid: Field, b: Block, term: (nat, nat) -> Double): (out: Field)
    ensures SameShape(out, grid)
  {
    seq(|grid|, r requires 0 <= r < |grid| =>
      seq(|grid[r]|, c requires 0 <= c < |grid[r]| =>
        if InBlock(b, r, c) then Add(grid[r][c], term(c - b.offset, b.base - r)) else grid[r][c]))
  }

  /** Cells outside the block keep their values. */
  lemma OutsideBlockUnchanged(grid: Field, b: Block, term: (nat, nat) -> Double, r: nat, c: nat)
    requires r < |grid| && c < |grid[r]| && !InBlock(b, r, c)
    ensures AddBlock(grid, b, term)[r][c] == grid[r][c]
  {
  }

  /** Cells inside the block gain their pass's term. */
  lemma InsideBlockAdded(grid: Field, b: Block, term: (nat, nat) -> Double, r: nat, c: nat)
    requires r < |grid| && c < |grid[r]| && InBlock(b, r, c)
    ensures AddBlock(grid, b, term)[r][c] == Add(grid[r][c], term(c - b.offset, b.base - r))
  {
  }

  /** Pass (i, 0) writes the base row: the cell exists and gains that pass's term. */
  lemma BaseRowAdded(grid: Field, b: Block, term: (nat, nat) -> Double, i: nat)
    requires Fits(grid, b) && 0 < b.nj && i < b.ni
    ensures 0 <= b.base < |grid| && b.offset + i < |grid[b.base]|
    ensures AddBlock(grid, b, term)[b.base][b.offset + i] == Add(grid[b.base][b.offset + i], term(i, 0))
  {
    InsideBlockAdded(grid, b, term, b.base, b.offset + i);
  }

  /** The real value of a finite number, 0 for the others. */
  function Value(d: Double): real {
    if d.Finite? then d.v else 0.0
  }

  /** What a sweep adds to cell (r, c): its pass's term inside the block, 0 outside. */
  function BlockShare(b: Block, term: (nat, nat) -> Double, r: int, c: int): real {
    if InBlock(b, r, c) then Value(term(c - b.offset, b.base - r)) else 0.0
  }

  /** A finite cell stays finite and gains exactly its share when the term that
      reaches it is finite. */
  lemma AddBlockFiniteCell(grid: Field, b: Block, term: (nat, nat) -> Double, r: nat, c: nat)
    requires r < |grid| && c < |grid[r]| && grid[r][c].Finite?
    requires InBlock(b, r, c) ==> term(c - b.offset, b.base - r).Finite?
    ensures AddBlock(grid, b, term)[r][c] == Finite(grid[r][c].v + BlockShare(b, term, r, c))
  {
    if InBlock(b, r, c) {
      InsideBlockAdded(grid, b, term, r, c);
      AddOfFinite(grid[r][c].v, term(c - b.offset, b.base - r).v);
    } else {
      OutsideBlockUnchanged(grid, b, term, r, c);
    }
  }

  /** Which index the sweep's outer loop runs over. */
  datatype Order = ColumnsFirst | RowsFirst

  /** Whether the pass writing in-block cell (r, c) has happened once the outer loop
      has finished `outer` passes and the current inner loop `inner` passes. */
  predicate Done(order: Order, b: Block, r: int, c: int, outer: nat, inner: nat) {
    var i, j := c - b.offset, b.base - r;
    InBlock(b, r, c) &&
    match order
    case ColumnsFirst => i < outer || (i == outer && j < inner)
    case RowsFirst => j < outer || (j == outer && i < inner)
  }

  /** `out` is `grid` part-way through a sweep. */
  predicate Stage(grid: Field, out: Field, b: Block, term: (nat, nat) -> Double, order: Order, outer: nat, inner: nat) {
    SameShape(out, grid) &&
    forall r, c :: 0 <= r < |grid| && 0 <= c < |grid[r]| ==>
      out[r][c] == if Done(order, b, r, c, outer, inner) then Add(grid[r][c], term(c - b.offset, b.base - r)) else grid[r][c]
  }

  /** The number of inner passes per outer pass. */
  function InnerCount(order: Order, b: Block): nat {
    match order
    case ColumnsFirst => b.nj
    case RowsFirst => b.ni
  }

  /** The number of outer passes. */
  function OuterCount(order: Order, b: Block): nat {
    match order
    case ColumnsFirst => b.ni
    case RowsFirst => b.nj
  }

  lemma StageStart(grid: Field, b: Block, term: (nat, nat) -> Double, order: Order)
    ensures Stage(grid, grid, b, term, order, 0, 0)
  {
  }

  /** One more pass: add its term to its cell. */
  lemma StageWrite(grid: Field, out: Field, b: Block, term: (nat, nat) -> Double, order: Order,
                   outer: nat, inner: nat, i: nat, j: nat, v: Double)
    requires Fits(grid, b) && Stage(grid, out, b, term, order, outer, inner)
    requires outer < OuterCount(order, b) && inner < InnerCount(order, b)
    requires i == (if order.ColumnsFirst? then outer else inner)
    requires j == (if order.ColumnsFirst? then inner else outer)
    requires v == Add(out[b.base - j][b.offset + i], term(i, j))
    ensures b.offset + i < |out[b.base - j]|
    ensures Stage(grid, out[b.base - j := out[b.base - j][b.offset + i := v]], b, term, order, outer, inner + 1)
  {
    var out' := out[b.base - j := out[b.base - j][b.offset + i := v]];
    forall r, c | 0 <= r < |grid| && 0 <= c < |grid[r]|
      ensures out'[r][c] == if Done(order, b, r, c, outer, inner + 1) then Add(grid[r][c], term(c - b.offset, b.base - r)) else grid[r][c]
    {
      if r == b.base - j && c == b.offset + i {
        assert !Done(order, b, r, c, outer, inner);
      } else {
        assert Done(order, b, r, c, outer, inner + 1) == Done(order, b, r, c, outer, inner);
      }
    }
  }

  /** After a full inner loop the next outer pass starts. */
  lemma StageNextOuter(grid: Field, out: Field, b: Block, term: (nat, nat) -> Double, order: Order, outer: nat)
    requires Stage(grid, out, b, term, order, outer, InnerCount(order, b))
    ensures Stage(grid, out, b, term, order, outer + 1, 0)
  {
    forall r, c | 0 <= r < |grid| && 0 <= c < |grid[r]|
      ensures Done(order, b, r, c, outer, InnerCount(order, b)) == Done(order, b, r, c, outer + 1, 0)
    {
    }
  }

  /** After every outer pass the sweep has added the whole block. */
  lemma StageDone(grid: Field, out: Field, b: Block, term: (nat, nat) -> Double, order: Order)
    requires Stage(grid, out, b, term, order, OuterCount(order, b), 0)
    ensures out == AddBlock(grid, b, term)
  {
    var sum := AddBlock(grid, b, term);
    forall r, c | 0 <= r < |out| && 0 <= c < |out[r]|
      ensures out[r][c] == sum[r][c]
    {
      assert Done(order, b, r, c, OuterCount(order, b), 0) == InBlock(b, r, c);
    }
    CellwiseEqual(out, sum);
  }

  /* ---------- the counted loops ---------- */

  /** The term of pass (i, j) of loops whose counters run `x0, x0 + dx, ..` and
      `y0, y0 + dy, ..`: the point function at those counters. */
  function Terms(f: (real, real) -> Double, x0: real, dx: real, y0: real, dy: real): (nat, nat) -> Double {
    (i: nat, j: nat) => f(Pass(x0, i, dx), Pass(y0, j, dy))
  }

  lemma TermsAtCounters(f: (real, real) -> Double, x0: real, dx: real, y0: real, dy: real,
                        i: nat, j: nat, x: real, y: real)
    requires x == Pass(x0, i, dx) && y == Pass(y0, j, dy)
    ensures Terms(f, x0, dx, y0, dy)(i, j) == f(x, y)
  {
  }

  /** `for (x = x0; x <= x1; x += dx) for (y = y0; y <= y1; y += dy) if (active) ..`:
      each pass adds `f(x, y)` to its cell, the `active` test inside the inner loop. */
  method ColumnsFirstSweep(grid: Field, b: Block, f: (real, real) -> Double,
                           x0: real, x1: real, dx: real, y0: real, y1: real, dy: real, active: bool)
    returns (out: Field)
    requires dx > 0.0 && dy > 0.0 && Fits(grid, b)
    requires b.ni == Steps(x0, x1, dx) && b.nj == Steps(y0, y1, dy)
    ensures out == if active then AddBlock(grid, b, Terms(f, x0, dx, y0, dy)) else grid
  {
    var term := Terms(f, x0, dx, y0, dy);
    out := grid;
    StageStart(grid, b, term, ColumnsFirst);
    var i: nat := 0;
    var x := x0;
    while x <= x1
      invariant i <= b.ni && x == Pass(x0, i, dx)
      invariant active ==> Stage(grid, out, b, term, ColumnsFirst, i, 0)
      invariant !active ==> out == grid
      decreases b.ni - i
    {
      StepsCountsPasses(x0, x1, dx, i);
      var j: nat := 0;
      var y := y0;
      while y <= y1
        invariant j <= b.nj && y == Pass(y0, j, dy)
        invariant active ==> Stage(grid, out, b, term, ColumnsFirst, i, j)
        invariant !active ==> out == grid
        decreases b.nj - j
      {
        StepsCountsPasses(y0, y1, dy, j);
        if active {
          var row := out[b.base - j];
          var v := Add(row[b.offset + i], f(x, y));
          TermsAtCounters(f, x0, dx, y0, dy, i, j, x, y);
          StageWrite(grid, out, b, term, ColumnsFirst, i, j, i, j, v);
          out := out[b.base - j := row[b.offset + i := v]];
        }
        NextPass(y0, j, dy);
        j := j + 1;
        y := y + dy;
      }
      StepsCountsPasses(y0, y1, dy, j);
      if active {
        StageNextOuter(grid, out, b, term, ColumnsFirst, i);
      }
      NextPass(x0, i, dx);
      i := i + 1;
      x := x + dx;
    }
    StepsCountsPasses(x0, x1, dx, i);
    if active {
      StageDone(grid, out, b, term, ColumnsFirst);
    }
  }

  /** One inner loop of `RowsFirstSweep`: `for (x = x0; x <= x1; x += dx)` at the
      fixed outer counter `y` of pass `j`. */
  method SweepRow(grid: Field, out0: Field, b: Block, f: (real, real) -> Double,
                  x0: real, x1: real, dx: real, y0: real, dy: real, j: nat, y: real)
    returns (out: Field)
    requires dx > 0.0 && Fits(grid, b)
    requires b.ni == Steps(x0, x1, dx) && j < b.nj && y == Pass(y0, j, dy)
    requires Stage(grid, out0, b, Terms(f, x0, dx, y0, dy), RowsFirst, j, 0)
    ensures Stage(grid, out, b, Terms(f, x0, dx, y0, dy), RowsFirst, j + 1, 0)
  {
    var term := Terms(f, x0, dx, y0, dy);
    out := out0;
    var i: nat := 0;
    var x := x0;
    while x <= x1
      invariant i <= b.ni && x == Pass(x0, i, dx)
      invariant Stage(grid, out, b, term, RowsFirst, j, i)
      decreases b.ni - i
    {
      StepsCountsPasses(x0, x1, dx, i);
      var row := out[b.base - j];
      var v := Add(row[b.offset + i], f(x, y));
      TermsAtCounters(f, x0, dx, y0, dy, i, j, x, y);
      StageWrite(grid, out, b, term, RowsFirst, j, i, i, j, v);
      out := out[b.base - j := row[b.offset + i := v]];
      NextPass(x0, i, dx);
      i := i + 1;
      x := x + dx;
    }
    StepsCountsPasses(x0, x1, dx, i);
    StageNextOuter(grid, out, b, term, RowsFirst, j);
  }

  /** `for (y = y0; y <= y1; y += dy) if (active) for (x = x0; x <= x1; x += dx) ..`:
      the `active` test between the loops. */
  method RowsFirstSweep(grid: Field, b: Block, f: (real, real) -> Double,
                        x0: real, x1: real, dx: real, y0: real, y1: real, dy: real, active: bool)
    returns (out: Field)
    requires dx > 0.0 && dy > 0.0 && Fits(grid, b)
    requires b.ni == Steps(x0, x1, dx) && b.nj == Steps(y0, y1, dy)
    ensures out == if active then AddBlock(grid, b, Terms(f, x0, dx, y0, dy)) else grid
  {
    var term := Terms(f, x0, dx, y0, dy);
    out := grid;
    StageStart(grid, b, term, RowsFirst);
    var j: nat := 0;
    var y := y0;
    while y <= y1
      invariant j <= b.nj && y == Pass(y0, j, dy)
      invariant active ==> Stage(grid, out, b, term, RowsFirst, j, 0)
      invariant !active ==> out == grid
      decreases b.nj - j
    {
      StepsCountsPasses(y0, y1, dy, j);
      if active {
        out := SweepRow(grid, out, b, f, x0, x1, dx, y0, dy, j, y);
      }
      NextPass(y0, j, dy);
      j := j + 1;
      y := y + dy;
    }
    StepsCountsPasses(y0, y1, dy, j);
    if active {
      StageDone(grid, out, b, term, RowsFirst);
    }
  }
}
