/** Rendering the grids as images (`visualise.js` and `updateImage`): the largest
    cell value, the decade band of every cell relative to it, and the RGBA bytes
    of the picture, white where nothing is found and darker blue for higher bands. */
module Visualise {
  import opened Js
  import opened Domain
  import opened Rsdm

  /** `bands`: the number of decades the colour scale spans. */
  const Bands: int := 10

  /* ---------- gridMax ---------- */

  /** The cells `gridMax` reads from a row: the first `cols`, or all of them when the
      row is shorter. A missing cell reads as `undefined`, which is never greater
      than the running maximum. */
  function Scanned(row: seq<Double>, cols: nat): (cells: seq<Double>)
    ensures |cells| <= cols && |cells| <= |row| && (|cells| == cols || |cells| == |row|)
    ensures forall x :: 0 <= x < |cells| ==> cells[x] == row[x]
  {
    if |row| <= cols then row else row[..cols]
  }

  /** One comparison of the loop: the running maximum moves only to a greater value. */
  function Keep(acc: Double, c: Double): Double {
    if Gt(c, acc) then c else acc
  }

  /** The running maximum after the cells of a row, in order. */
  function RowMax(cells: seq<Double>, acc: Double): Double {
    if cells == [] then acc else Keep(RowMax(cells[..|cells| - 1], acc), cells[|cells| - 1])
  }

  /** The running maximum after the rows of a grid, in order. */
  function FieldMax(f: Field, cols: nat, acc: Double): Double {
    if f == [] then acc else RowMax(Scanned(f[|f| - 1], cols), FieldMax(f[..|f| - 1], cols, acc))
  }

  /** `gridMax`: the running maximum from -1 over every cell read. An empty grid has
      no first row to take the width from, and the read throws. */
  function GridMaxOf(grid: Field): (r: Result<Double>)
    ensures r.Ok? <==> grid != []
    ensures r.Err? ==> r.error == TypeError
  {
    if grid == [] then Err(TypeError) else Ok(FieldMax(grid, |grid[0]|, Finite(-1.0)))
  }

  /** Cell (y, x) is one `gridMax` reads. */
  predicate Read(grid: Field, y: int, x: int) {
    0 <= y < |grid| && 0 <= x < |grid[y]| && x < |grid[0]|
  }

  /** `max` is what `gridMax` promises: no cell read is greater, and it is either the
      starting -1 or a cell read that exceeds -1. NaN cells are never greater. */
  ghost predicate IsGridMax(grid: Field, max: Double) {
    (forall y, x :: Read(grid, y, x) ==> !Gt(grid[y][x], max)) &&
    (max == Finite(-1.0) || (Gt(max, Finite(-1.0)) && exists y, x :: Read(grid, y, x) && grid[y][x] == max))
  }

  /** The nested loops of `gridMax`. */
  method GridMax(grid: Field) returns (r: Result<Double>)
    ensures r == GridMaxOf(grid)
  {
    if grid == [] {
      return Err(TypeError);
    }
    var rows, cols := |grid|, |grid[0]|;
    var max := Finite(-1.0);
    var y := 0;
    while y < rows
      invariant 0 <= y <= rows
      invariant max == FieldMax(grid[..y], cols, Finite(-1.0))
    {
      var cells := Scanned(grid[y], cols);
      var start := max;
      var x := 0;
      while x < cols
        invariant 0 <= x <= cols
        invariant max == RowMax(cells[..if x < |cells| then x else |cells|], start)
      {
        if x < |grid[y]| && Gt(grid[y][x], max) {
          max := grid[y][x];
        }
        if x < |cells| {
          assert cells[..x + 1][..x] == cells[..x];
        }
        x := x + 1;
      }
      assert cells[..|cells|] == cells;
      assert grid[..y + 1][..y] == grid[..y];
      y := y + 1;
    }
    assert grid[..rows] == grid;
    r := Ok(max);
  }

  /** Under a non-NaN `b`, "not above" carries over to anything above `b`. */
  lemma NotAboveCarries(a: Double, b: Double, c: Double)
    requires !Gt(a, b) && Gt(c, b)
    ensures !Gt(a, c)
  {
  }

  /** The running maximum over a row is never below where it started, bounds every
      cell, and is either the start or a cell above it. */
  lemma {:induction false} RowMaxBounds(cells: seq<Double>, acc: Double)
    requires !acc.NaN?
    ensures var r := RowMax(cells, acc);
            !r.NaN? && !Gt(acc, r) &&
            (forall i :: 0 <= i < |cells| ==> !Gt(cells[i], r)) &&
            (r == acc || (Gt(r, acc) && r in cells))
  {
    if cells != [] {
      var front, c := cells[..|cells| - 1], cells[|cells| - 1];
      RowMaxBounds(front, acc);
      var r0 := RowMax(front, acc);
      if Gt(c, r0) {
        NotAboveCarries(acc, r0, c);
        forall i | 0 <= i < |front|
          ensures !Gt(front[i], c)
        {
          NotAboveCarries(front[i], r0, c);
        }
        assert forall i :: 0 <= i < |cells| - 1 ==> cells[i] == front[i];
      } else {
        assert forall i :: 0 <= i < |cells| - 1 ==> cells[i] == front[i];
        assert r0 in front ==> r0 in cells;
      }
    }
  }

  /** The same over the rows of a grid read `cols` wide. */
  lemma {:induction false} FieldMaxBounds(f: Field, cols: nat, acc: Double)
    requires !acc.NaN?
    ensures var r := FieldMax(f, cols, acc);
            !r.NaN? && !Gt(acc, r) &&
            (forall y, x :: 0 <= y < |f| && 0 <= x < |f[y]| && x < cols ==> !Gt(f[y][x], r)) &&
            (r == acc || (Gt(r, acc) && exists y, x :: 0 <= y < |f| && 0 <= x < |f[y]| && x < cols && f[y][x] == r))
  {
    if f != [] {
      var front, row := f[..|f| - 1], f[|f| - 1];
      var cells := Scanned(row, cols);
      FieldMaxBounds(front, cols, acc);
      var r0 := FieldMax(front, cols, acc);
      RowMaxBounds(cells, r0);
      var r := RowMax(cells, r0);
      assert forall y :: 0 <= y < |f| - 1 ==> f[y] == front[y];
      forall y, x | 0 <= y < |f| && 0 <= x < |f[y]| && x < cols
        ensures !Gt(f[y][x], r)
      {
        if y < |f| - 1 {
          if Gt(r, r0) {
            NotAboveCarries(f[y][x], r0, r);
          }
        } else {
          assert f[y][x] == cells[x];
        }
      }
      if r != acc {
        if r == r0 {
        } else {
          var x :| 0 <= x < |cells| && cells[x] == r;
          assert f[|f| - 1][x] == r;
          if r0 != acc {
            assert Gt(r, acc);
          }
        }
      }
    }
  }

  /** `gridMax` returns the largest cell read, or -1 when none exceeds -1. */
  lemma GridMaxIsMax(grid: Field)
    requires grid != []
    ensures IsGridMax(grid, GridMaxOf(grid).value)
  {
    FieldMaxBounds(grid, |grid[0]|, Finite(-1.0));
  }

  /** Two values that both meet `IsGridMax` are the same: the description fixes the
      result. */
  lemma GridMaxUnique(grid: Field, a: Double, b: Double)
    requires IsGridMax(grid, a) && IsGridMax(grid, b)
    ensures a == b
  {
    if a != Finite(-1.0) {
      var y, x :| Read(grid, y, x) && grid[y][x] == a;
      assert !Gt(a, b);
    }
    if b != Finite(-1.0) {
      var y, x :| Read(grid, y, x) && grid[y][x] == b;
      assert !Gt(b, a);
    }
  }

  /** A grid with a positive cell read has a positive maximum. */
  lemma GridMaxPositive(grid: Field, y: nat, x: nat)
    requires Read(grid, y, x) && Gt(grid[y][x], Zero)
    ensures Gt(GridMaxOf(grid).value, Zero)
  {
    GridMaxIsMax(grid);
    BelowCarries(Zero, grid[y][x], GridMaxOf(grid).value);
  }

  /** Anything below `b` is below every non-NaN value `b` is not above. */
  lemma BelowCarries(a: Double, b: Double, c: Double)
    requires Gt(b, a) && !Gt(b, c) && !c.NaN?
    ensures Gt(c, a)
  {
  }

  /* ---------- bands and shades ---------- */

  /** `min`: the band `bands` decades below that of the maximum. */
  function Lowest(m: Elementary, max: Double): Double {
    Sub(Trunc(Log10(m, max)), Finite(Bands as real))
  }

  /** The band of a cell: its decade, `trunc(log10(cell))`, or `min` for cells not
      above 0. */
  function Level(m: Elementary, cell: Double, min: Double): Double {
    if Gt(cell, Zero) then Trunc(Log10(m, cell)) else min
  }

  function LevelRow(m: Elementary, row: seq<Double>, min: Double): (out: seq<Double>)
    ensures |out| == |row|
  {
    seq(|row|, x requires 0 <= x < |row| => Level(m, row[x], min))
  }

  /** The display buffer: the band of every cell. */
  function Levels(m: Elementary, grid: Field, min: Double): (out: Field)
    ensures |out| == |grid| && forall y :: 0 <= y < |grid| ==> |out[y]| == |grid[y]|
  {
    seq(|grid|, y requires 0 <= y < |grid| => LevelRow(m, grid[y], min))
  }

  /** An RGBA pixel. */
  datatype Pixel = Pixel(red: byte, green: byte, blue: byte, alpha: byte)

  const White: Pixel := Pixel(255, 255, 255, 255)

  /** The pixel of a cell in band `level`: white unless it is above `min`, otherwise
      blue with red and green `255 - 255 (level - min) / bands`, as a
      `Uint8ClampedArray` stores them. */
  function Shade(level: Double, min: Double): (p: Pixel)
    ensures p.alpha == 255 && p.blue == 255 && p.red == p.green
    ensures !Gt(level, min) ==> p == White
  {
    if Gt(level, min) then
      var conc := Div(Sub(level, min), Finite(Bands as real));
      var v := ToUint8Clamp(Sub(Finite(255.0), Mul(Finite(255.0), conc)));
      Pixel(v, v, 255, 255)
    else White
  }

  /** A cell not above 0 is drawn white. */
  lemma EmptyCellIsWhite(m: Elementary, cell: Double, min: Double)
    requires !Gt(cell, Zero)
    ensures Shade(Level(m, cell, min), min) == White
  {
  }

  /** The red and green of a finite band above a finite `min`. */
  lemma ShadeOfFinite(l: real, min: real)
    requires min < l
    ensures Shade(Finite(l), Finite(min)).red == ToUint8Clamp(Finite(255.0 - 255.0 * ((l - min) / 10.0)))
  {
    assert Sub(Finite(l), Finite(min)) == Finite(l - min);
  }

  /** The cell holding the maximum is in the top band and drawn full blue. */
  lemma MaximumIsDeepestBlue(m: Elementary, max: Double)
    requires max.Finite? && max.v > 0.0
    ensures Shade(Level(m, max, Lowest(m, max)), Lowest(m, max)) == Pixel(0, 0, 255, 255)
  {
    var t := Trunc(Log10(m, max));
    assert t.Finite?;
    assert Lowest(m, max) == Finite(t.v - 10.0);
    assert Level(m, max, Lowest(m, max)) == t;
    ShadeOfFinite(t.v, t.v - 10.0);
    assert (t.v - (t.v - 10.0)) / 10.0 == 1.0;
  }

  /** The ten bands above `min` get ten different shades, darker for higher bands:
      red and green 230, 204, 178, 153, 128, 102, 76, 51, 26 and 0 (halves round to
      even). */
  lemma BandShades(lo: real)
    ensures Shade(Finite(lo + 1.0), Finite(lo)).red == 230
    ensures Shade(Finite(lo + 2.0), Finite(lo)).red == 204
    ensures Shade(Finite(lo + 3.0), Finite(lo)).red == 178
    ensures Shade(Finite(lo + 4.0), Finite(lo)).red == 153
    ensures Shade(Finite(lo + 5.0), Finite(lo)).red == 128
    ensures Shade(Finite(lo + 6.0), Finite(lo)).red == 102
    ensures Shade(Finite(lo + 7.0), Finite(lo)).red == 76
    ensures Shade(Finite(lo + 8.0), Finite(lo)).red == 51
    ensures Shade(Finite(lo + 9.0), Finite(lo)).red == 26
    ensures Shade(Finite(lo + 10.0), Finite(lo)).red == 0
  {
    BandShade(lo, 1.0, 229.5);
    BandShade(lo, 2.0, 204.0);
    BandShade(lo, 3.0, 178.5);
    BandShade(lo, 4.0, 153.0);
    BandShade(lo, 5.0, 127.5);
    BandShade(lo, 6.0, 102.0);
    BandShade(lo, 7.0, 76.5);
    BandShade(lo, 8.0, 51.0);
    BandShade(lo, 9.0, 25.5);
    BandShade(lo, 10.0, 0.0);
  }

  lemma BandShade(lo: real, j: real, v: real)
    requires 0.0 < j && v == 255.0 - 25.5 * j
    ensures Shade(Finite(lo + j), Finite(lo)).red == ToUint8Clamp(Finite(v))
  {
    ShadeOfFinite(lo + j, lo);
    assert (lo + j - lo) / 10.0 == j / 10.0;
  }

  /** A higher band is never drawn lighter. */
  lemma ShadeDarkens(l1: real, l2: real, min: real)
    requires min < l1 <= l2
    ensures Shade(Finite(l2), Finite(min)).red <= Shade(Finite(l1), Finite(min)).red
  {
    ShadeOfFinite(l1, min);
    ShadeOfFinite(l2, min);
    assert (l1 - min) / 10.0 <= (l2 - min) / 10.0;
    ClampMonotone(255.0 - 255.0 * ((l2 - min) / 10.0), 255.0 - 255.0 * ((l1 - min) / 10.0));
  }

  /** `ToUint8Clamp` never reverses the order of two numbers. */
  lemma ClampMonotone(a: real, b: real)
    requires a <= b
    ensures ToUint8Clamp(Finite(a)) <= ToUint8Clamp(Finite(b))
  {
    if 0.0 < a && b < 255.0 {
      var fa, fb := a.Floor, b.Floor;
      assert fa <= fb;
    }
  }

  /* ---------- the RGBA bytes ---------- */

  function Bytes(p: Pixel): (bs: seq<byte>)
    ensures |bs| == 4
  {
    [p.red, p.green, p.blue, p.alpha]
  }

  /** The bytes of a row of bands, pixel after pixel. */
  function RowBytes(row: seq<Double>, min: Double): (bs: seq<byte>)
    ensures |bs| == 4 * |row|
  {
    if row == [] then [] else RowBytes(row[..|row| - 1], min) + Bytes(Shade(row[|row| - 1], min))
  }

  /** The bytes of a grid of bands, row after row. */
  function FieldBytes(f: Field, min: Double): seq<byte> {
    if f == [] then [] else FieldBytes(f[..|f| - 1], min) + RowBytes(f[|f| - 1], min)
  }

  /** Every row of `f` has `cols` cells. */
  predicate Rows(f: Field, cols: nat) {
    forall y :: 0 <= y < |f| ==> |f[y]| == cols
  }

  /** A grid of `rows` rows of `cols` pixels takes `rows cols 4` bytes. */
  lemma {:induction false} FieldBytesLength(f: Field, cols: nat, min: Double)
    requires Rows(f, cols)
    ensures |FieldBytes(f, min)| == |f| * cols * 4
  {
    if f != [] {
      var front := f[..|f| - 1];
      assert Rows(front, cols);
      FieldBytesLength(front, cols, min);
      assert |f| * cols * 4 == (|f| - 1) * cols * 4 + 4 * cols;
    }
  }

  /** Byte `4x + k` of a row is channel `k` of pixel `x`. */
  lemma {:induction false} RowBytesAt(row: seq<Double>, min: Double, x: nat, k: nat)
    requires x < |row| && k < 4
    ensures RowBytes(row, min)[4 * x + k] == Bytes(Shade(row[x], min))[k]
  {
    var front := row[..|row| - 1];
    if x < |row| - 1 {
      RowBytesAt(front, min, x, k);
    }
  }

  /** The offset `(y cols + x) 4` of `updatePNG`: byte `(y cols + x) 4 + k` of the
      image is channel `k` (red, green, blue, alpha) of the pixel of cell (y, x). */
  lemma {:induction false} FieldBytesAt(f: Field, cols: nat, min: Double, y: nat, x: nat, k: nat)
    requires Rows(f, cols) && y < |f| && x < cols && k < 4
    ensures (y * cols + x) * 4 + k < |FieldBytes(f, min)|
    ensures FieldBytes(f, min)[(y * cols + x) * 4 + k] == Bytes(Shade(f[y][x], min))[k]
  {
    var front := f[..|f| - 1];
    assert Rows(front, cols);
    FieldBytesLength(front, cols, min);
    FieldBytesLength(f, cols, min);
    PixelIndexBound(|f|, cols, y, x);
    if y < |f| - 1 {
      PixelIndexBound(|f| - 1, cols, y, x);
      FieldBytesAt(front, cols, min, y, x, k);
    } else {
      assert (y * cols + x) * 4 + k == |front| * cols * 4 + (4 * x + k);
      RowBytesAt(f[y], min, x, k);
    }
  }

  /** The four bytes of pixel (y, x) lie inside a `rows` by `cols` image. */
  lemma PixelIndexBound(rows: nat, cols: nat, y: nat, x: nat)
    requires y < rows && x < cols
    ensures (y * cols + x) * 4 + 4 <= rows * cols * 4
  {
    assert y * cols + x + 1 <= (y + 1) * cols;
    MulMonotone(y + 1, rows, cols);
  }

  lemma MulMonotone(a: nat, b: nat, c: nat)
    requires a <= b
    ensures a * c <= b * c
  {
  }

  /** Distinct cells have distinct offsets: no pixel overwrites another. */
  lemma OffsetsDistinct(cols: nat, y1: nat, x1: nat, y2: nat, x2: nat)
    requires x1 < cols && x2 < cols && (y1, x1) != (y2, x2)
    ensures (y1 * cols + x1) * 4 != (y2 * cols + x2) * 4
  {
    if y1 < y2 {
      PixelIndexBound(y2, cols, y1, x1);
      MulMonotone(y2, y2, cols);
    } else if y2 < y1 {
      PixelIndexBound(y1, cols, y2, x2);
    }
  }

  /** Every byte of a `rows` by `cols` image belongs to one channel of one pixel. */
  lemma OffsetsCover(rows: nat, cols: nat, i: nat) returns (y: nat, x: nat, k: nat)
    requires i < rows * cols * 4
    ensures y < rows && x < cols && k < 4 && i == (y * cols + x) * 4 + k
  {
    var p := i / 4;
    k := i % 4;
    assert p < rows * cols;
    assert cols > 0;
    y, x := p / cols, p % cols;
    assert p == y * cols + x;
    if y >= rows {
      MulMonotone(rows, y, cols);
    }
  }

  /* ---------- updatePNG ---------- */

  /** The display buffer and the image bytes `updatePNG` produces. */
  datatype Frame = Frame(disp: Field, data: seq<byte>)

  /** `updatePNG`: the band of every cell, then the pixel of every band. An empty grid
      has no first row, and the read throws. */
  function Render(m: Elementary, grid: Field, max: Double): (r: Result<Frame>)
    ensures r.Ok? <==> grid != []
    ensures r.Err? ==> r.error == TypeError
    ensures r.Ok? ==> |r.value.disp| == |grid| &&
                      forall y :: 0 <= y < |grid| ==> |r.value.disp[y]| == |grid[y]|
  {
    if grid == [] then Err(TypeError)
    else
      var min := Lowest(m, max);
      var disp := Levels(m, grid, min);
      Ok(Frame(disp, FieldBytes(disp, min)))
  }

  /** Every write of a pixel: four bytes from offset `i`. */
  function Put(data: seq<byte>, i: nat, p: Pixel): (out: seq<byte>)
    requires i + 4 <= |data|
    ensures |out| == |data|
    ensures out[..i + 4] == data[..i] + Bytes(p)
    ensures out[i + 4..] == data[i + 4..]
  {
    data[i := p.red][i + 1 := p.green][i + 2 := p.blue][i + 3 := p.alpha]
  }

  /** Whether every row has the width of the first. */
  predicate Rectangular(grid: Field) {
    grid != [] ==> Rows(grid, |grid[0]|)
  }

  /** The loops of `updatePNG` over a rectangular grid, its equally shaped display
      buffer and an image of `rows cols 4` bytes: first the bands, then the pixels. */
  method UpdatePng(m: Elementary, grid: Field, disp: Field, max: Double, data: seq<byte>) returns (r: Result<Frame>)
    requires Rectangular(grid) && |disp| == |grid| && forall y :: 0 <= y < |grid| ==> |disp[y]| == |grid[y]|
    requires grid != [] ==> |data| == |grid| * |grid[0]| * 4
    ensures r == Render(m, grid, max)
  {
    if grid == [] {
      return Err(TypeError);
    }
    var min := Lowest(m, max);
    var levels := FillLevels(m, grid, disp, min);
    assert Rows(levels, |grid[0]|);
    var out := FillPixels(levels, |grid[0]|, min, data);
    r := Ok(Frame(levels, out));
  }

  /** The first loops of `updatePNG`: the band of every cell into the display buffer. */
  method FillLevels(m: Elementary, grid: Field, disp: Field, min: Double) returns (levels: Field)
    requires |disp| == |grid| && forall y :: 0 <= y < |grid| ==> |disp[y]| == |grid[y]|
    ensures levels == Levels(m, grid, min)
  {
    levels := disp;
    var y := 0;
    while y < |grid|
      invariant 0 <= y <= |grid| && |levels| == |grid|
      invariant forall i :: 0 <= i < y ==> levels[i] == LevelRow(m, grid[i], min)
      invariant forall i :: y <= i < |grid| ==> |levels[i]| == |grid[i]|
    {
      var row := levels[y];
      var x := 0;
      while x < |grid[y]|
        invariant 0 <= x <= |grid[y]| && |row| == |grid[y]|
        invariant forall j :: 0 <= j < x ==> row[j] == Level(m, grid[y][j], min)
      {
        row := row[x := if Gt(grid[y][x], Zero) then Trunc(Log10(m, grid[y][x])) else min];
        x := x + 1;
      }
      assert row == LevelRow(m, grid[y], min);
      levels := levels[y := row];
      y := y + 1;
    }
  }

  /** The second loops of `updatePNG`: the four bytes of every pixel at offset
      `(y cols + x) 4`. */
  method FillPixels(levels: Field, cols: nat, min: Double, data: seq<byte>) returns (out: seq<byte>)
    requires Rows(levels, cols) && |data| == |levels| * cols * 4
    ensures out == FieldBytes(levels, min)
  {
    var rows := |levels|;
    out := data;
    var y := 0;
    while y < rows
      invariant 0 <= y <= rows && |out| == rows * cols * 4
      invariant out[..(y * cols) * 4] == FieldBytes(levels[..y], min)
    {
      RowStart(rows, cols, y);
      out := FillRow(levels[y], (y * cols) * 4, min, out);
      assert levels[..y + 1][..y] == levels[..y];
      y := y + 1;
    }
    assert levels[..rows] == levels;
    assert out[..(rows * cols) * 4] == out;
  }

  /** Row `y` of a `rows` by `cols` image ends where row `y + 1` starts, inside the image. */
  lemma RowStart(rows: nat, cols: nat, y: nat)
    requires y < rows
    ensures (y * cols) * 4 + 4 * cols == ((y + 1) * cols) * 4 <= rows * cols * 4
  {
    MulMonotone(y + 1, rows, cols);
  }

  /** Writing pixel `x` of a row after its first `x` pixels extends the row's bytes. */
  lemma PutExtendsRow(out: seq<byte>, data: seq<byte>, start: nat, row: seq<Double>, x: nat, min: Double)
    requires x < |row| && start + 4 * |row| <= |out| && start <= |data|
    requires out[..start + 4 * x] == data[..start] + RowBytes(row[..x], min)
    ensures Put(out, start + 4 * x, Shade(row[x], min))[..start + 4 * (x + 1)] == data[..start] + RowBytes(row[..x + 1], min)
  {
    assert row[..x + 1][..x] == row[..x];
  }

  /** The pixels of one row, whose first byte is at `start`; with `start = y cols 4`
      the offset `start + 4x` is the `(y cols + x) 4` of `updatePNG`. */
  method FillRow(row: seq<Double>, start: nat, min: Double, data: seq<byte>) returns (out: seq<byte>)
    requires start + 4 * |row| <= |data|
    ensures |out| == |data|
    ensures out[..start + 4 * |row|] == data[..start] + RowBytes(row, min)
  {
    out := data;
    var x := 0;
    while x < |row|
      invariant 0 <= x <= |row| && |out| == |data|
      invariant out[..start + 4 * x] == data[..start] + RowBytes(row[..x], min)
    {
      PutExtendsRow(out, data, start, row, x, min);
      out := Put(out, start + 4 * x, Shade(row[x], min));
      x := x + 1;
    }
    assert row[..|row|] == row;
  }

  /** Byte `k` of pixel (y, x) in an image `cols` pixels wide. */
  function Offset(cols: int, y: int, x: int, k: int): int {
    (y * cols + x) * 4 + k
  }

  /** The pixel of cell (y, x) of a rendered rectangular grid. */
  lemma RenderedPixel(m: Elementary, grid: Field, max: Double, y: nat, x: nat, k: nat)
    requires Rectangular(grid) && y < |grid| && x < |grid[0]| && k < 4
    ensures var f := Render(m, grid, max).value;
            Offset(|grid[0]|, y, x, k) < |f.data| &&
            f.data[Offset(|grid[0]|, y, x, k)] == Bytes(Shade(Level(m, grid[y][x], Lowest(m, max)), Lowest(m, max)))[k]
  {
    var min := Lowest(m, max);
    var disp := Levels(m, grid, min);
    assert Rows(disp, |grid[0]|);
    FieldBytesAt(disp, |grid[0]|, min, y, x, k);
  }

  /* ---------- updateImage ---------- */

  /** `updateImage`: both views rendered against the larger of their two maxima, so
      that one colour means one band in both pictures. */
  function UpdateImage(m: Elementary, s: State): (r: Result<(Frame, Frame)>)
    ensures r.Ok? <==> s.rGrid != [] && s.hGrid != []
    ensures r.Err? ==> r.error == TypeError
  {
    match GridMaxOf(s.rGrid)
    case Err(e) => Err(e)
    case Ok(rMax) =>
      match GridMaxOf(s.hGrid)
      case Err(e) => Err(e)
      case Ok(hMax) =>
        var both := Max(rMax, hMax);
        Ok((Render(m, s.rGrid, both).value, Render(m, s.hGrid, both).value))
  }

  /** The common maximum both views are scaled to. */
  function Scale(s: State): Double
    requires s.rGrid != [] && s.hGrid != []
  {
    Max(GridMaxOf(s.rGrid).value, GridMaxOf(s.hGrid).value)
  }

  /** Both frames are rendered against the common maximum. */
  lemma UpdateImageUsesScale(m: Elementary, s: State)
    requires s.rGrid != [] && s.hGrid != []
    ensures UpdateImage(m, s) == Ok((Render(m, s.rGrid, Scale(s)).value, Render(m, s.hGrid, Scale(s)).value))
  {
  }

  /** The common maximum is at least each view's own maximum, and is one of them. */
  lemma ScaleCoversBoth(s: State)
    requires s.rGrid != [] && s.hGrid != []
    ensures Ge(Scale(s), GridMaxOf(s.rGrid).value) && Ge(Scale(s), GridMaxOf(s.hGrid).value)
    ensures Scale(s) == GridMaxOf(s.rGrid).value || Scale(s) == GridMaxOf(s.hGrid).value
  {
    GridMaxIsMax(s.rGrid);
    GridMaxIsMax(s.hGrid);
  }

  /** Byte `k` of pixel (y, x) in the image of `grid` scaled to `max`. */
  function RenderedByte(m: Elementary, grid: Field, max: Double, y: nat, x: nat, k: nat): byte
    requires Rectangular(grid) && y < |grid| && x < |grid[0]| && k < 4
  {
    RenderedPixel(m, grid, max, y, x, k);
    Render(m, grid, max).value.data[Offset(|grid[0]|, y, x, k)]
  }

  /** Two grids rendered against one maximum, as `updateImage` renders the plan and
      the slice: equal values are drawn in the same colour. */
  lemma SharedColourScale(m: Elementary, plan: Field, slice: Field, max: Double, y1: nat, x1: nat, y2: nat, x2: nat, k: nat)
    requires Rectangular(plan) && Rectangular(slice)
    requires y1 < |plan| && x1 < |plan[0]| && y2 < |slice| && x2 < |slice[0]| && k < 4
    requires plan[y1][x1] == slice[y2][x2]
    ensures RenderedByte(m, plan, max, y1, x1, k) == RenderedByte(m, slice, max, y2, x2, k)
  {
    RenderedPixel(m, plan, max, y1, x1, k);
    RenderedPixel(m, slice, max, y2, x2, k);
  }
}
