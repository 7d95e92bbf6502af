/** The application state of `rsdm.js`: the image-quality setting, the plan and
    slice grids built from it, clearing a grid and running the model for a
    number of hours. */
module Rsdm {
  import opened Js
  import opened Stability
  import opened Domain
  import opened Preprocess
  import opened Sweep
  import opened Disperse

  /* ---------- grid quality ---------- */

  /** The image-quality choices. */
  datatype Quality = Low | Medium | High

  /** `gridQuality`: the grid step in metres for each choice. */
  function GridStep(q: Quality): (step: real)
    ensures step > 0.0
    ensures IsNat(2500.0 / step) && IsNat(2000.0 / step)
  {
    match q
    case Low => 50.0
    case Medium => 25.0
    case High => 10.0
  }

  /** Higher quality means a finer grid. */
  lemma FinerQualitySmallerStep()
    ensures GridStep(High) < GridStep(Medium) < GridStep(Low)
  {
  }

  /** The plan view: 5 km by 5 km centred on the origin, one step in both directions. */
  function PlanCoords(step: real): GridDef {
    GridDef(-2500.0, 2500.0, -2500.0, 2500.0, step, step)
  }

  /** The vertical slice: 5 km across by 1 km high, half a step vertically. */
  function SliceCoords(step: real): GridDef {
    GridDef(-2500.0, 2500.0, 0.0, 1000.0, step, step / 2.0)
  }

  /* ---------- the state ---------- */

  /** The fields of the `RSDM` object: the grid step, the user's wind speed (m/s),
      direction (degrees) and stability class, the terrain, the stack, and the
      two grids with their display buffers. */
  datatype State = State(step: real, wspd: real, wdir: real, roughness: Roughness, pgcat: StabilityClass,
                         source: Source, rCoords: GridDef, hCoords: GridDef,
                         rGrid: Field, rDisp: Field, hGrid: Field, hDisp: Field)

  /** What `iterDisp` reads from the state. */
  function ModelOf(s: State): Model {
    Model(s.source, s.roughness, s.rCoords, s.hCoords)
  }

  /** Every write of the receptor loops lands inside the state's grids. */
  predicate Consistent(s: State) {
    GridsFit(ModelOf(s), Grids(s.rGrid, s.hGrid))
  }

  /** `setupGrids`: fresh zero grids and display buffers for the current step. A
      step that does not divide the extents into whole rows and columns makes
      `generateGrid` throw. */
  function SetupGrids(s: State): (r: Result<State>)
    ensures r.Ok? <==> GenerateGrid(PlanCoords(s.step)).Ok? && GenerateGrid(SliceCoords(s.step)).Ok?
    ensures r.Err? ==> r.error == RangeError
    ensures r.Ok? ==> r.value.(rCoords := s.rCoords, hCoords := s.hCoords, rGrid := s.rGrid, rDisp := s.rDisp,
                               hGrid := s.hGrid, hDisp := s.hDisp) == s
    ensures r.Ok? ==> r.value.rGrid == r.value.rDisp && r.value.hGrid == r.value.hDisp
  {
    var rc, hc := PlanCoords(s.step), SliceCoords(s.step);
    match GenerateGrid(rc)
    case Err(e) => Err(e)
    case Ok(plan) =>
      match GenerateGrid(hc)
      case Err(e) => Err(e)
      case Ok(slice) =>
        Ok(s.(rCoords := rc, hCoords := hc, rGrid := plan, rDisp := plan, hGrid := slice, hDisp := slice))
  }

  /** A rectangular grid holds every block whose rows and columns it has. */
  lemma RectFits(grid: Field, rows: nat, cols: nat, b: Block)
    requires Rect(grid, rows, cols)
    requires 0 <= b.offset && b.nj <= b.base + 1 && b.base < rows && b.offset + b.ni <= cols
    ensures Fits(grid, b)
  {
  }

  /** With a step that fits `n` times into 2500 m, the plan grid is `2n + 1` square
      and every write of the plan loops lands inside it. */
  lemma PlanGridOfWholeStep(step: real, n: nat)
    requires step > 0.0 && n as real * step == 2500.0 && 2 * n + 1 < ArrayLengthLimit
    ensures GenerateGrid(PlanCoords(step)) == Ok(ZeroField(2 * n + 1, 2 * n + 1))
    ensures PlanFits(ZeroField(2 * n + 1, 2 * n + 1), PlanCoords(step))
  {
    var rc := PlanCoords(step);
    assert rc.xmax - rc.xmin == (2 * n) as real * step;
    GenerateGridOfWholeExtent(rc, 2 * n, 2 * n);
    var plan := ZeroField(2 * n + 1, 2 * n + 1);
    RectFits(plan, 2 * n + 1, 2 * n + 1, PlanBlock(plan, rc));
  }

  /** With a step that fits `n` times into 2500 m and `k` times into 2000 m, the slice
      grid has `k + 1` rows of `2n + 1` cells, its ground row is row `k`, its stack
      column is column `n`, and every write of the slice loops lands inside it. */
  lemma SliceGridOfWholeStep(step: real, n: nat, k: nat)
    requires step > 0.0 && n as real * step == 2500.0 && k as real * step == 2000.0
    requires 2 * n + 1 < ArrayLengthLimit && k + 1 < ArrayLengthLimit
    ensures GenerateGrid(SliceCoords(step)) == Ok(ZeroField(k + 1, 2 * n + 1))
    ensures SliceFits(ZeroField(k + 1, 2 * n + 1), SliceCoords(step))
  {
    SliceGridGenerated(step, n, k);
    SliceGridFits(step, n, k);
  }

  lemma SliceGridGenerated(step: real, n: nat, k: nat)
    requires step > 0.0 && n as real * step == 2500.0 && k as real * step == 2000.0
    requires 2 * n + 1 < ArrayLengthLimit && k + 1 < ArrayLengthLimit
    ensures GenerateGrid(SliceCoords(step)) == Ok(ZeroField(k + 1, 2 * n + 1))
  {
    SliceExtents(step, n, k);
    GenerateGridOfWholeExtent(SliceCoords(step), 2 * n, k);
  }

  lemma SliceGridFits(step: real, n: nat, k: nat)
    requires step > 0.0 && n as real * step == 2500.0 && k as real * step == 2000.0
    ensures SliceFits(ZeroField(k + 1, 2 * n + 1), SliceCoords(step))
  {
    SliceExtents(step, n, k);
    SliceSteps(step, n, k);
    RectFits(ZeroField(k + 1, 2 * n + 1), k + 1, 2 * n + 1, SliceBlock(SliceCoords(step)));
  }

  /** The slice loops make `n + 1` passes along and `k + 1` upward. */
  lemma SliceSteps(step: real, n: nat, k: nat)
    requires step > 0.0 && n as real * step == 2500.0 && k as real * step == 2000.0
    ensures SliceCols(SliceCoords(step)) == n + 1 && SliceRows(SliceCoords(step)) == k + 1
  {
    assert k as real * (step / 2.0) == (k as real * step) / 2.0;
    CountOfWholeExtent(0.0, 2500.0, step, n);
    CountOfWholeExtent(0.0, 1000.0, step / 2.0, k);
  }

  /** The slice extents in whole steps, and its ground row and stack column. */
  lemma SliceExtents(step: real, n: nat, k: nat)
    requires step > 0.0 && n as real * step == 2500.0 && k as real * step == 2000.0
    ensures var hc := SliceCoords(step);
            hc.xmax - hc.xmin == (2 * n) as real * hc.xgap && hc.xmax - 0.0 == n as real * hc.xgap &&
            hc.ymax - hc.ymin == k as real * hc.ygap && hc.ymax - 0.0 == k as real * hc.ygap &&
            SliceBase(hc) == k as real && SliceOffset(hc) == n as real
  {
    var hc := SliceCoords(step);
    assert k as real * (step / 2.0) == (k as real * step) / 2.0;
    assert (2 * n) as real * step == 2.0 * (n as real * step);
    assert 1000.0 / (step / 2.0) == 2000.0 / step;
    assert (2500.0 - -2500.0) / 2.0 / step == 2500.0 / step;
  }

  /** The number of steps in 2500 m at quality `q`. */
  function HalfWidthSteps(q: Quality): (n: nat)
    ensures n as real * GridStep(q) == 2500.0
  {
    match q
    case Low => 50
    case Medium => 100
    case High => 250
  }

  /** The number of steps in 2000 m at quality `q`. */
  function HeightSteps(q: Quality): (k: nat)
    ensures k as real * GridStep(q) == 2000.0
  {
    match q
    case Low => 40
    case Medium => 80
    case High => 200
  }

  /** Every quality setting gives zero grids of the right shape that hold every
      write of the receptor loops. */
  lemma SetupGridsOfQuality(s: State, q: Quality)
    requires s.step == GridStep(q)
    ensures var n, k := HalfWidthSteps(q), HeightSteps(q);
            SetupGrids(s).Ok? && Consistent(SetupGrids(s).value) &&
            SetupGrids(s).value.rGrid == ZeroField(2 * n + 1, 2 * n + 1) &&
            SetupGrids(s).value.hGrid == ZeroField(k + 1, 2 * n + 1)
  {
    var n, k := HalfWidthSteps(q), HeightSteps(q);
    PlanGridOfWholeStep(s.step, n);
    SliceGridOfWholeStep(s.step, n, k);
  }

  /** The stack and conditions the page starts with: a 50 m stack of 0.5 m diameter
      at the origin, 10 m/s exit velocity, 60 C, 1 g/s; 5 m/s wind from 235
      degrees over urban terrain in class C, on the High quality grid. */
  function Defaults(): State {
    var none := GridDef(0.0, 0.0, 0.0, 0.0, 0.0, 0.0);
    State(GridStep(High), 5.0, 235.0, Urban, C, Source(0.0, 0.0, 50.0, 0.5, 10.0, 60.0, 1.0),
          none, none, [], [], [], [])
  }

  /** The `RSDM` constructor: the defaults with their grids set up. */
  function Initial(): (r: Result<State>)
    ensures r.Ok? && Consistent(r.value)
    ensures |r.value.rGrid| == 501 && |r.value.hGrid| == 201
  {
    SetupGridsOfQuality(Defaults(), High);
    SetupGrids(Defaults())
  }

  /* ---------- clearing ---------- */

  /** Row `row` after `clearGrid` writes zeros to columns `0 .. cols - 1`; writing
      past the end of a JavaScript array extends it. */
  function ClearRow(row: seq<Double>, cols: nat): (out: seq<Double>)
    ensures |out| == if |row| < cols then cols else |row|
    ensures forall x :: 0 <= x < |out| ==> out[x] == if x < cols then Zero else row[x]
  {
    var len := if |row| < cols then cols else |row|;
    seq(len, x requires 0 <= x < len => if x < cols then Zero else row[x])
  }

  /** `clearGrid`: zero as many columns of every row as the first row has. An empty
      grid has no first row, and reading its length throws. */
  function Cleared(grid: Field): (r: Result<Field>)
    ensures r.Ok? <==> grid != []
    ensures r.Err? ==> r.error == TypeError
    ensures r.Ok? ==> |r.value| == |grid| &&
                      forall y :: 0 <= y < |grid| ==> r.value[y] == ClearRow(grid[y], |grid[0]|)
  {
    if grid == [] then Err(TypeError)
    else Ok(seq(|grid|, y requires 0 <= y < |grid| => ClearRow(grid[y], |grid[0]|)))
  }

  /** The nested loops of `clearGrid`. */
  method ClearGrid(grid: Field) returns (r: Result<Field>)
    ensures r == Cleared(grid)
  {
    if grid == [] {
      return Err(TypeError);
    }
    var rows, cols := |grid|, |grid[0]|;
    var out := grid;
    var y := 0;
    while y < rows
      invariant 0 <= y <= rows && |out| == rows
      invariant forall i :: 0 <= i < y ==> out[i] == ClearRow(grid[i], cols)
      invariant forall i :: y <= i < rows ==> out[i] == grid[i]
    {
      var row := out[y];
      var x := 0;
      while x < cols
        invariant 0 <= x <= cols
        invariant |row| == if |grid[y]| < x then x else |grid[y]|
        invariant forall j :: 0 <= j < |row| ==> row[j] == if j < x then Zero else grid[y][j]
      {
        if x < |row| {
          row := row[x := Zero];
        } else {
          row := row + [Zero];
        }
        x := x + 1;
      }
      assert row == ClearRow(grid[y], cols);
      out := out[y := row];
      y := y + 1;
    }
    r := Ok(out);
    assert out == Cleared(grid).value;
  }

  /** A rectangular grid is cleared to the zero grid of its shape. */
  lemma ClearRectIsZero(grid: Field, rows: nat, cols: nat)
    requires Rect(grid, rows, cols) && rows > 0
    ensures Cleared(grid) == Ok(ZeroField(rows, cols))
  {
    var z := ZeroField(rows, cols);
    var once := Cleared(grid).value;
    forall y | 0 <= y < rows
      ensures once[y] == z[y]
    {
      assert |grid[y]| == cols;
    }
    assert once == z;
  }

  lemma ZeroFieldAt(rows: nat, cols: nat, r: nat, c: nat)
    requires r < rows && c < cols
    ensures |ZeroField(rows, cols)| == rows && |ZeroField(rows, cols)[r]| == cols
    ensures ZeroField(rows, cols)[r][c] == Zero
  {
  }

  /** Clearing twice is clearing once. */
  lemma ClearIdempotent(grid: Field)
    requires grid != []
    ensures Cleared(Cleared(grid).value) == Cleared(grid)
  {
    var once := Cleared(grid).value;
    var cols := |grid[0]|;
    assert |once[0]| == cols;
    var twice := Cleared(once).value;
    forall y | 0 <= y < |grid|
      ensures twice[y] == once[y]
    {
    }
    assert twice == once;
  }

  /** Clearing only lengthens rows, so every write that landed in the grid still does. */
  lemma ClearKeepsFit(grid: Field, b: Block)
    requires Fits(grid, b) && grid != []
    ensures Fits(Cleared(grid).value, b)
  {
  }

  lemma ClearKeepsGridsFit(model: Model, plan: Field, slice: Field)
    requires GridsFit(model, Grids(plan, slice)) && plan != [] && slice != []
    ensures GridsFit(model, Grids(Cleared(plan).value, Cleared(slice).value))
  {
    ClearKeepsFit(plan, PlanBlock(plan, model.rCoords));
    ClearKeepsFit(slice, SliceBlock(model.hCoords));
  }

  /* ---------- running ---------- */

  /** The records `GenMET` draws for the state's conditions. */
  function MetOf(s: State, hours: real, random: RandomStream): seq<HourMet> {
    GenMet(s.wspd, s.wdir, s.pgcat, hours, random)
  }

  /** `runModel`: clear both grids, generate the hours, and disperse every hour
      into the grids. */
  function RunModel(m: Elementary, s: State, hours: real, random: RandomStream): (r: Result<State>)
    requires Consistent(s)
    ensures r.Ok? <==> s.rGrid != [] && s.hGrid != []
    ensures r.Err? ==> r.error == TypeError
    ensures r.Ok? ==> Consistent(r.value)
    ensures r.Ok? ==> r.value.(rGrid := s.rGrid, hGrid := s.hGrid) == s
  {
    match Cleared(s.rGrid)
    case Err(e) => Err(e)
    case Ok(plan) =>
      match Cleared(s.hGrid)
      case Err(e) => Err(e)
      case Ok(slice) =>
        assert GridsFit(ModelOf(s), Grids(plan, slice)) by {
          ClearKeepsGridsFit(ModelOf(s), s.rGrid, s.hGrid);
        }
        var out := Run(m, ModelOf(s), MetOf(s, hours, random), Grids(plan, slice));
        assert GridsFit(ModelOf(s), out) by {
          SameShapeKeepsFit(ModelOf(s), Grids(plan, slice), out);
        }
        Ok(s.(rGrid := out.plan, hGrid := out.slice))
  }

  /** The grids a successful run leaves: the dispersal of the generated hours into
      the cleared grids. */
  lemma RunModelGrids(m: Elementary, s: State, hours: real, random: RandomStream)
    requires Consistent(s) && s.rGrid != [] && s.hGrid != []
    ensures GridsFit(ModelOf(s), Grids(Cleared(s.rGrid).value, Cleared(s.hGrid).value))
    ensures var out := Run(m, ModelOf(s), MetOf(s, hours, random), Grids(Cleared(s.rGrid).value, Cleared(s.hGrid).value));
            RunModel(m, s, hours, random) == Ok(s.(rGrid := out.plan, hGrid := out.slice))
  {
    ClearKeepsGridsFit(ModelOf(s), s.rGrid, s.hGrid);
  }

  /** Every generated hour has a non-zero weight divisor. */
  lemma MetWeightsNonZero(s: State, hours: real, random: RandomStream)
    ensures forall i :: 0 <= i < |MetOf(s, hours, random)| ==> MetOf(s, hours, random)[i].hours != 0.0
  {
  }

  /** The state's grids are `rr` by `rc` and `hr` by `hc`, neither empty. */
  predicate Shaped(s: State, rr: nat, rc: nat, hr: nat, hc: nat) {
    Rect(s.rGrid, rr, rc) && rr > 0 && Rect(s.hGrid, hr, hc) && hr > 0
  }

  /** On rectangular grids a run disperses the generated hours into zero grids of
      the same shape. */
  lemma RunModelFromZero(m: Elementary, s: State, hours: real, random: RandomStream,
                         rr: nat, rc: nat, hr: nat, hc: nat)
    requires Consistent(s) && Shaped(s, rr, rc, hr, hc)
    ensures GridsFit(ModelOf(s), Grids(ZeroField(rr, rc), ZeroField(hr, hc)))
    ensures var out := Run(m, ModelOf(s), MetOf(s, hours, random), Grids(ZeroField(rr, rc), ZeroField(hr, hc)));
            RunModel(m, s, hours, random) == Ok(s.(rGrid := out.plan, hGrid := out.slice))
  {
    ClearRectIsZero(s.rGrid, rr, rc);
    ClearRectIsZero(s.hGrid, hr, hc);
    RunModelGrids(m, s, hours, random);
  }

  /** Dispersing into zero grids leaves each plan cell holding its hourly total. */
  lemma RunPlanFromZero(m: Elementary, model: Model, met: seq<HourMet>, rr: nat, rc: nat, hr: nat, hc: nat, r: nat, c: nat)
    requires GridsFit(model, Grids(ZeroField(rr, rc), ZeroField(hr, hc))) && r < rr && c < rc
    requires forall i :: 0 <= i < |met| ==> met[i].hours != 0.0
    ensures Run(m, model, met, Grids(ZeroField(rr, rc), ZeroField(hr, hc))).plan[r][c]
         == Finite(PlanTotal(m, model, met, rr, r, c))
  {
    ZeroFieldAt(rr, rc, r, c);
    RunPlanIsSum(m, model, met, Grids(ZeroField(rr, rc), ZeroField(hr, hc)), r, c);
  }

  /** Dispersing into zero grids leaves each slice cell holding its hourly total. */
  lemma RunSliceFromZero(m: Elementary, model: Model, met: seq<HourMet>, rr: nat, rc: nat, hr: nat, hc: nat, r: nat, c: nat)
    requires GridsFit(model, Grids(ZeroField(rr, rc), ZeroField(hr, hc))) && r < hr && c < hc
    requires forall i :: 0 <= i < |met| ==> met[i].hours != 0.0
    ensures Run(m, model, met, Grids(ZeroField(rr, rc), ZeroField(hr, hc))).slice[r][c]
         == Finite(SliceTotal(m, model, met, r, c))
  {
    ZeroFieldAt(hr, hc, r, c);
    RunSliceIsSum(m, model, met, Grids(ZeroField(rr, rc), ZeroField(hr, hc)), r, c);
  }

  /** After a run on rectangular grids every plan cell holds exactly the sum of what
      the generated hours add to it, whatever it held before. */
  lemma RunModelPlanIsHourlySum(m: Elementary, s: State, hours: real, random: RandomStream,
                                rr: nat, rc: nat, hr: nat, hc: nat, r: nat, c: nat)
    requires Consistent(s) && Shaped(s, rr, rc, hr, hc) && r < rr && c < rc
    ensures RunModel(m, s, hours, random).Ok?
    ensures RunModel(m, s, hours, random).value.rGrid[r][c]
         == Finite(PlanTotal(m, ModelOf(s), MetOf(s, hours, random), rr, r, c))
  {
    RunModelFromZero(m, s, hours, random, rr, rc, hr, hc);
    MetWeightsNonZero(s, hours, random);
    RunPlanFromZero(m, ModelOf(s), MetOf(s, hours, random), rr, rc, hr, hc, r, c);
  }

  /** After a run on rectangular grids every slice cell holds exactly the sum of what
      the generated hours add to it, whatever it held before. */
  lemma RunModelSliceIsHourlySum(m: Elementary, s: State, hours: real, random: RandomStream,
                                 rr: nat, rc: nat, hr: nat, hc: nat, r: nat, c: nat)
    requires Consistent(s) && Shaped(s, rr, rc, hr, hc) && r < hr && c < hc
    ensures RunModel(m, s, hours, random).Ok?
    ensures RunModel(m, s, hours, random).value.hGrid[r][c]
         == Finite(SliceTotal(m, ModelOf(s), MetOf(s, hours, random), r, c))
  {
    RunModelFromZero(m, s, hours, random, rr, rc, hr, hc);
    MetWeightsNonZero(s, hours, random);
    RunSliceFromZero(m, ModelOf(s), MetOf(s, hours, random), rr, rc, hr, hc, r, c);
  }

  /** Two states that differ only in what their rectangular grids hold give the same
      run: the previous results are forgotten. */
  lemma RunModelForgetsPrevious(m: Elementary, s: State, t: State, hours: real, random: RandomStream,
                                rr: nat, rc: nat, hr: nat, hc: nat)
    requires Consistent(s) && t.(rGrid := s.rGrid, hGrid := s.hGrid) == s
    requires Shaped(s, rr, rc, hr, hc) && Shaped(t, rr, rc, hr, hc)
    ensures Consistent(t)
    ensures RunModel(m, s, hours, random) == RunModel(m, t, hours, random)
  {
    ShapedConsistent(s, t, rr, rc, hr, hc);
    RunModelFromZero(m, s, hours, random, rr, rc, hr, hc);
    RunModelFromZero(m, t, hours, random, rr, rc, hr, hc);
  }

  /** Consistency depends only on the grids' shapes. */
  lemma ShapedConsistent(s: State, t: State, rr: nat, rc: nat, hr: nat, hc: nat)
    requires Consistent(s) && t.(rGrid := s.rGrid, hGrid := s.hGrid) == s
    requires Shaped(s, rr, rc, hr, hc) && Shaped(t, rr, rc, hr, hc)
    ensures Consistent(t)
  {
    assert ModelOf(t) == ModelOf(s);
    assert SameShape(t.rGrid, s.rGrid) && SameShape(t.hGrid, s.hGrid);
    SameShapeKeepsFit(ModelOf(s), Grids(s.rGrid, s.hGrid), Grids(t.rGrid, t.hGrid));
  }

  /** Running again with the same hours and the same draws reproduces the same grids. */
  lemma RunModelRepeatable(m: Elementary, s: State, hours: real, random: RandomStream,
                           rr: nat, rc: nat, hr: nat, hc: nat)
    requires Consistent(s) && Shaped(s, rr, rc, hr, hc)
    ensures RunModel(m, s, hours, random).Ok?
    ensures RunModel(m, RunModel(m, s, hours, random).value, hours, random) == RunModel(m, s, hours, random)
  {
    RunModelFromZero(m, s, hours, random, rr, rc, hr, hc);
    var t := RunModel(m, s, hours, random).value;
    assert Shaped(t, rr, rc, hr, hc);
    RunModelForgetsPrevious(m, t, s, hours, random, rr, rc, hr, hc);
  }

  /** A run of at most one hour uses the user's met values and no draws, so a second
      run with any other draws reproduces the first. */
  lemma OneHourRunIgnoresDraws(m: Elementary, s: State, hours: real, r1: RandomStream, r2: RandomStream,
                               rr: nat, rc: nat, hr: nat, hc: nat)
    requires Consistent(s) && Shaped(s, rr, rc, hr, hc)
    requires hours <= 1.0
    ensures RunModel(m, s, hours, r1).Ok?
    ensures RunModel(m, RunModel(m, s, hours, r1).value, hours, r2) == RunModel(m, s, hours, r1)
  {
    RunModelRepeatable(m, s, hours, r1, rr, rc, hr, hc);
    var t := RunModel(m, s, hours, r1).value;
    OneHourIsDeterministic(t.wspd, t.wdir, t.pgcat, hours, r1, r2);
    assert MetOf(t, hours, r1) == MetOf(t, hours, r2);
  }

  /** `gridAdjDesc`: switch to another quality, rebuild the grids and run one hour. */
  function ChangeQuality(m: Elementary, s: State, q: Quality, random: RandomStream): (r: Result<State>)
    ensures r.Ok? && Consistent(r.value) && r.value.step == GridStep(q)
    ensures var n := HalfWidthSteps(q);
            |r.value.rGrid| == 2 * n + 1 && |r.value.rGrid[0]| == 2 * n + 1
  {
    var s1 := s.(step := GridStep(q));
    SetupGridsOfQuality(s1, q);
    var s2 := SetupGrids(s1).value;
    var r := RunModel(m, s2, 1.0, random);
    assert r.Ok? && r.value.rGrid == Run(m, ModelOf(s2), MetOf(s2, 1.0, random),
                                         Grids(Cleared(s2.rGrid).value, Cleared(s2.hGrid).value)).plan;
    r
  }
}
