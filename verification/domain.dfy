/** The model domain: receptor grids (`Grid`), the emission source (`Source`)
    and the rotation of map coordinates into plume coordinates. */
module Domain {
  import opened Js

  /* ---------- grids ---------- */

  /** A rectangular receptor grid: extents and steps, in metres. */
  datatype GridDef = GridDef(xmin: real, xmax: real, ymin: real, ymax: real, xgap: real, ygap: real)

  /** A grid of numbers, row-major (`grid[row][column]`). */
  type Field = seq<seq<Double>>

  /** Every row of `f` has `cols` entries and there are `rows` rows. */
  predicate Rect(f: Field, rows: nat, cols: nat) {
    |f| == rows && forall r :: 0 <= r < |f| ==> |f[r]| == cols
  }

  /** A `rows` x `cols` grid of zeros. */
  function ZeroField(rows: nat, cols: nat): (f: Field)
    ensures Rect(f, rows, cols)
  {
    seq(rows, _ => seq(cols, _ => Zero))
  }

  /** `(max - min) / gap + 1`, the number of grid lines `generateGrid` asks for. */
  function Count(min: real, max: real, gap: real): Double {
    Add(Div(Sub(Finite(max), Finite(min)), Finite(gap)), Finite(1.0))
  }

  function ColCount(g: GridDef): Double {
    Count(g.xmin, g.xmax, g.xgap)
  }

  function RowCount(g: GridDef): Double {
    Count(g.ymin, g.ymax, g.ygap)
  }

  /** `generateGrid`: a zero-filled grid of `RowCount` rows by `ColCount` columns.
      `Array(rows)` throws a RangeError unless `rows` is an integer in [0, 2^32);
      the column length is only checked by the callback that builds each row,
      which never runs when there are no rows. */
  function GenerateGrid(g: GridDef): (r: Result<Field>)
    ensures r.Ok? <==> ArrayLength(RowCount(g)).Some? &&
                       (RowCount(g).v == 0.0 || ArrayLength(ColCount(g)).Some?)
    ensures r.Err? ==> r.error == RangeError
    ensures r.Ok? ==> |r.value| as real == RowCount(g).v
    ensures r.Ok? ==> forall i :: 0 <= i < |r.value| ==>
                        |r.value[i]| as real == ColCount(g).v &&
                        forall j :: 0 <= j < |r.value[i]| ==> r.value[i][j] == Zero
  {
    match ArrayLength(RowCount(g))
    case None => Err(RangeError)
    case Some(rows) =>
      if rows == 0 then Ok([])
      else
        match ArrayLength(ColCount(g))
        case None => Err(RangeError)
        case Some(cols) => Ok(ZeroField(rows, cols))
  }

  /** The number of passes of `for (v = lo; v <= hi; v += gap)` with exact arithmetic. */
  function Steps(lo: real, hi: real, gap: real): nat
    requires gap > 0.0
  {
    if hi < lo then 0 else ((hi - lo) / gap).Floor + 1
  }

  /** The loop counter on pass `i`. */
  function Pass(lo: real, i: nat, gap: real): real {
    lo + i as real * gap
  }

  /** The counter after one more pass. */
  lemma NextPass(lo: real, i: nat, gap: real)
    ensures Pass(lo, i, gap) + gap == Pass(lo, i + 1, gap)
  {
  }

  /** Pass `i` of the loop happens exactly when `i < Steps`. */
  lemma StepsCountsPasses(lo: real, hi: real, gap: real, i: nat)
    requires gap > 0.0
    ensures i < Steps(lo, hi, gap) <==> Pass(lo, i, gap) <= hi
  {
    if hi < lo {
      assert i as real * gap >= 0.0;
    } else if i < Steps(lo, hi, gap) {
      PassWithinExtent(lo, hi, gap, i);
    } else {
      PassBeyondExtent(lo, hi, gap, i);
    }
  }

  lemma PassWithinExtent(lo: real, hi: real, gap: real, i: nat)
    requires gap > 0.0 && lo <= hi && i <= ((hi - lo) / gap).Floor
    ensures Pass(lo, i, gap) <= hi
  {
    var q := (hi - lo) / gap;
    assert q * gap == hi - lo;
    assert i as real <= q;
    ScaleByPositive(i as real, q, gap);
  }

  lemma PassBeyondExtent(lo: real, hi: real, gap: real, i: nat)
    requires gap > 0.0 && lo <= hi && i > ((hi - lo) / gap).Floor
    ensures Pass(lo, i, gap) > hi
  {
    var q := (hi - lo) / gap;
    assert q * gap == hi - lo;
    assert i as real > q;
    ScaleStrictlyByPositive(q, i as real, gap);
  }

  lemma ScaleByPositive(a: real, b: real, c: real)
    requires a <= b && c > 0.0
    ensures a * c <= b * c
  {
  }

  lemma ScaleStrictlyByPositive(a: real, b: real, c: real)
    requires a < b && c > 0.0
    ensures a * c < b * c
  {
  }

  /** The grid-line count of an extent of `n` whole steps is `n + 1`, the number of
      passes of the loop that walks it. */
  lemma CountOfWholeExtent(min: real, max: real, gap: real, n: nat)
    requires gap > 0.0 && max - min == n as real * gap
    ensures Count(min, max, gap) == Finite((n + 1) as real)
    ensures Steps(min, max, gap) == n + 1
  {
    assert (max - min) / gap == n as real;
    DivOfFinite(max - min, gap);
  }

  lemma ArrayLengthOfNat(n: nat)
    requires n < ArrayLengthLimit
    ensures ArrayLength(Finite(n as real)) == Some(n)
  {
    assert IsNat(n as real);
  }

  /** A grid whose extents are whole numbers of steps has one row and one column per
      grid line, and as many of each as the receptor loops over that grid make passes. */
  lemma GenerateGridOfWholeExtent(g: GridDef, nx: nat, ny: nat)
    requires g.xgap > 0.0 && g.ygap > 0.0
    requires g.xmax - g.xmin == nx as real * g.xgap && g.ymax - g.ymin == ny as real * g.ygap
    requires nx + 1 < ArrayLengthLimit && ny + 1 < ArrayLengthLimit
    ensures GenerateGrid(g) == Ok(ZeroField(ny + 1, nx + 1))
    ensures Steps(g.xmin, g.xmax, g.xgap) == nx + 1 && Steps(g.ymin, g.ymax, g.ygap) == ny + 1
  {
    CountOfWholeExtent(g.xmin, g.xmax, g.xgap, nx);
    CountOfWholeExtent(g.ymin, g.ymax, g.ygap, ny);
    ArrayLengthOfNat(nx + 1);
    ArrayLengthOfNat(ny + 1);
  }

  /** A zero row step can never give a valid row count (it is +-Infinity or NaN). */
  lemma GenerateGridRejectsZeroStep(g: GridDef)
    requires g.ygap == 0.0
    ensures GenerateGrid(g) == Err(RangeError)
  {
  }

  /** A grid whose top edge lies below its bottom edge by more than one step is rejected. */
  lemma GenerateGridRejectsInvertedExtent(g: GridDef)
    requires g.ygap > 0.0 && g.ymax - g.ymin < -g.ygap
    ensures GenerateGrid(g) == Err(RangeError)
  {
    var q := (g.ymax - g.ymin) / g.ygap;
    assert q * g.ygap == g.ymax - g.ymin;
    assert q < -1.0;
  }

  /** The 5 km square plan grid at 25 m spacing has 201 rows of 201 cells. */
  lemma PlanGridAt25m()
    ensures GenerateGrid(GridDef(-2500.0, 2500.0, -2500.0, 2500.0, 25.0, 25.0)) == Ok(ZeroField(201, 201))
  {
    GenerateGridOfWholeExtent(GridDef(-2500.0, 2500.0, -2500.0, 2500.0, 25.0, 25.0), 200, 200);
  }

  /** An off-centre grid: x from -27 to 300 in 3 m steps, y from 50 to 5580 in 10 m steps,
      gives 554 rows of 110 cells. */
  lemma OffsetGridShape()
    ensures GenerateGrid(GridDef(-27.0, 300.0, 50.0, 5580.0, 3.0, 10.0)) == Ok(ZeroField(554, 110))
  {
    GenerateGridOfWholeExtent(GridDef(-27.0, 300.0, 50.0, 5580.0, 3.0, 10.0), 109, 553);
  }

  /* ---------- the source ---------- */

  /** The stack: location (m), height (m), diameter (m), exit velocity (m/s),
      exit temperature (degrees C) and emission rate (g/s). */
  datatype Source = Source(x: real, y: real, elevation: real, diameter: real,
                           velocity: real, temp: real, emission: real)

  /** Plume coordinates of a receptor: downwind distance (km) and crosswind offset (m). */
  datatype PlumePoint = PlumePoint(downwind: real, crosswind: real)

  /** `windComponents`: rotate the receptor's offset from the stack by the wind
      direction, given as its sine and cosine. */
  function WindComponents(s: Source, xr: real, yr: real, sinPhi: real, cosPhi: real): (p: PlumePoint)
    ensures p.downwind * 1000.0 == -(xr - s.x) * sinPhi - (yr - s.y) * cosPhi
    ensures xr == s.x && yr == s.y ==> p == PlumePoint(0.0, 0.0)
    ensures sinPhi * sinPhi + cosPhi * cosPhi == 1.0 ==>
              (p.downwind * 1000.0) * (p.downwind * 1000.0) + p.crosswind * p.crosswind
                == (xr - s.x) * (xr - s.x) + (yr - s.y) * (yr - s.y)
  {
    var p := PlumePoint((-1.0 * (xr - s.x) * sinPhi - (yr - s.y) * cosPhi) / 1000.0,
                        (xr - s.x) * cosPhi - (yr - s.y) * sinPhi);
    if sinPhi * sinPhi + cosPhi * cosPhi == 1.0 then
      RotationKeepsLength(xr - s.x, yr - s.y, sinPhi, cosPhi);
      p
    else
      p
  }

  /** The stack itself is the origin of plume coordinates. */
  lemma StackIsPlumeOrigin(s: Source, sinPhi: real, cosPhi: real)
    ensures WindComponents(s, s.x, s.y, sinPhi, cosPhi) == PlumePoint(0.0, 0.0)
  {
  }

  /** Moving the stack and the receptor together does not change plume coordinates. */
  lemma WindComponentsShiftInvariant(s: Source, xr: real, yr: real, dx: real, dy: real, sinPhi: real, cosPhi: real)
    ensures WindComponents(s.(x := s.x + dx, y := s.y + dy), xr + dx, yr + dy, sinPhi, cosPhi)
         == WindComponents(s, xr, yr, sinPhi, cosPhi)
  {
  }

  /** For a genuine direction (sin^2 + cos^2 = 1) the rotation keeps distances:
      the receptor is as far from the plume origin as from the stack. */
  lemma WindComponentsPreserveDistance(s: Source, xr: real, yr: real, sinPhi: real, cosPhi: real)
    requires sinPhi * sinPhi + cosPhi * cosPhi == 1.0
    ensures var p := WindComponents(s, xr, yr, sinPhi, cosPhi);
            (p.downwind * 1000.0) * (p.downwind * 1000.0) + p.crosswind * p.crosswind
              == (xr - s.x) * (xr - s.x) + (yr - s.y) * (yr - s.y)
  {
    var p := WindComponents(s, xr, yr, sinPhi, cosPhi);
    var dx, dy := xr - s.x, yr - s.y;
    RotationKeepsLength(dx, dy, sinPhi, cosPhi);
  }

  lemma RotationKeepsLength(dx: real, dy: real, sn: real, cs: real)
    requires sn * sn + cs * cs == 1.0
    ensures (-dx * sn - dy * cs) * (-dx * sn - dy * cs) + (dx * cs - dy * sn) * (dx * cs - dy * sn)
         == dx * dx + dy * dy
  {
    calc {
      (-dx * sn - dy * cs) * (-dx * sn - dy * cs) + (dx * cs - dy * sn) * (dx * cs - dy * sn);
      dx * dx * (sn * sn + cs * cs) + dy * dy * (sn * sn + cs * cs);
      dx * dx * 1.0 + dy * dy * 1.0;
    }
  }

  /** The wind direction is the bearing the wind blows from: a receptor `d` metres
      from the stack in the opposite direction lies on the plume centreline, `d`
      metres downwind. */
  lemma DownwindReceptorOnCentreline(s: Source, d: real, sinPhi: real, cosPhi: real)
    requires sinPhi * sinPhi + cosPhi * cosPhi == 1.0
    ensures WindComponents(s, s.x - d * sinPhi, s.y - d * cosPhi, sinPhi, cosPhi)
         == PlumePoint(d / 1000.0, 0.0)
  {
    var dx, dy := -d * sinPhi, -d * cosPhi;
    assert s.x - d * sinPhi - s.x == dx;
    assert s.y - d * cosPhi - s.y == dy;
    assert -1.0 * dx * sinPhi - dy * cosPhi == d * (sinPhi * sinPhi + cosPhi * cosPhi);
    assert dx * cosPhi - dy * sinPhi == 0.0;
  }
}
