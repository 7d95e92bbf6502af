/** `iterDisp`: for every met hour, add each receptor's weighted concentration
    to the plan-view grid (ground level) and to the vertical slice along the
    x axis. Each loop is stated twice: as the code's counted loop over a real
    coordinate, and as a per-cell reference (`PlanAfterHour`, `SliceAfterHour`,
    `Run`) that the loops are proved to compute. */
module Disperse {
  import opened Js
  import opened Stability
  import opened Plume
  import opened Domain
  import opened Preprocess
  import opened Sweep

  /** What `iterDisp` reads from the model besides the grids. */
  datatype Model = Model(source: Source, roughness: Roughness, rCoords: GridDef, hCoords: GridDef)

  /** The plan-view and slice grids `iterDisp` accumulates into. */
  datatype Grids = Grids(plan: Field, slice: Field)

  /** The per-hour quantities computed once before the receptor loops: the stack-tip
      wind speed, the plume-rise distance, the wind direction, the weight divisor
      `Hours`, and `C` with this hour's speed, emission, height and sigma curves fixed,
      as a function of the plume coordinates (x, y, z). */
  datatype Hour = Hour(uz: Double, xf: Double, sinPhi: real, cosPhi: real, weight: real,
                       conc: (Double, Double, Double) -> Double)

  /** Exit temperature in kelvin. */
  function Kelvin(celsius: real): real {
    celsius + 273.15
  }

  /** What `C` promises at every point: a finite value, and 0 upwind of the source. */
  ghost predicate ConcSound(hr: Hour) {
    forall x, y, z :: hr.conc(x, y, z).Finite? && (Le(x, Zero) ==> hr.conc(x, y, z) == Zero)
  }

  /** Wind speed at the stack tip, plume rise, effective height, emission and wind direction. */
  function HourOf(m: Elementary, model: Model, met: HourMet): (hr: Hour)
    ensures hr.weight == met.hours
    ensures ConcSound(hr)
  {
    var s := model.source;
    var k := met.pgcat;
    var uz := CalcUz(m, Finite(met.u), Finite(s.elevation), Finite(10.0), k, model.roughness);
    var rise := PlumeRise(m, uz, Finite(s.velocity), Finite(s.diameter), Finite(Kelvin(s.temp)), Finite(AmbientTemp), k);
    var h := Add(Finite(s.elevation), rise.dH);
    var q := Finite(s.emission);
    Hour(uz, rise.xf, m.sin(met.phi), m.cos(met.phi), met.hours,
         (x, y, z) => Plume.C(m, x, y, z, uz, q, h, SigY(m, k), SigZ(m, k)))
  }

  /** Only hours with a stack-tip wind above 0.5 m/s are dispersed. */
  predicate Windy(hr: Hour) {
    Gt(hr.uz, Finite(0.5))
  }

  function SigY(m: Elementary, k: StabilityClass): Double -> Double {
    x => SigmaY(m, k, x)
  }

  function SigZ(m: Elementary, k: StabilityClass): Double -> Double {
    x => SigmaZ(m, k, x)
  }

  /** Weighted ground-level concentration at map point (xr, yr): the receptor is
      rotated into plume coordinates and moved back by the plume-rise distance. */
  function PlanTerm(model: Model, hr: Hour, xr: real, yr: real): Double {
    var p := WindComponents(model.source, xr, yr, hr.sinPhi, hr.cosPhi);
    var xx := Sub(Finite(p.downwind), Div(hr.xf, Finite(1000.0)));
    Div(hr.conc(xx, Finite(p.crosswind), Zero), Finite(hr.weight))
  }

  /** Weighted concentration at distance `xh` m along the x axis and height `zh` m. */
  function SliceTerm(model: Model, hr: Hour, xh: real, zh: real): Double {
    var xx := Div(Sub(Finite(xh), hr.xf), Finite(1000.0));
    Div(hr.conc(xx, Zero, Finite(zh)), Finite(hr.weight))
  }

  /* ---------- plan view ---------- */

  function PlanCols(g: GridDef): nat
    requires g.xgap > 0.0
  {
    Steps(g.xmin, g.xmax, g.xgap)
  }

  function PlanRows(g: GridDef): nat
    requires g.ygap > 0.0
  {
    Steps(g.ymin, g.ymax, g.ygap)
  }

  /** Pass (x, y) of the plan loops writes `grid[yc - y][x]` with `yc = |grid| - 1`:
      rows are counted from the bottom, so row 0 holds the highest `Yr`. */
  function PlanBlock(grid: Field, g: GridDef): Block
    requires g.xgap > 0.0 && g.ygap > 0.0
  {
    PlanBlockOf(|grid|, g)
  }

  function PlanBlockOf(rows: nat, g: GridDef): Block
    requires g.xgap > 0.0 && g.ygap > 0.0
  {
    Block(rows - 1, 0, PlanCols(g), PlanRows(g))
  }

  /** Every write of the plan loops lands inside `grid`. */
  predicate PlanFits(grid: Field, g: GridDef) {
    g.xgap > 0.0 && g.ygap > 0.0 && Fits(grid, PlanBlock(grid, g))
  }

  /** `PlanTerm` as a function of the receptor. */
  function PlanPoint(model: Model, hr: Hour): (real, real) -> Double {
    (xr: real, yr: real) => PlanTerm(model, hr, xr, yr)
  }

  /** The term of plan pass (x, y), at `Xr = xmin + x xgap`, `Yr = ymin + y ygap`. */
  function PlanTerms(model: Model, hr: Hour): (nat, nat) -> Double {
    var g := model.rCoords;
    Terms(PlanPoint(model, hr), g.xmin, g.xgap, g.ymin, g.ygap)
  }

  lemma PlanTermsAt(model: Model, hr: Hour, x: nat, y: nat)
    ensures PlanTerms(model, hr)(x, y)
         == PlanTerm(model, hr, Pass(model.rCoords.xmin, x, model.rCoords.xgap), Pass(model.rCoords.ymin, y, model.rCoords.ygap))
  {
  }


  /** The plan grid after one hour: every pass's term added in a wind above
      0.5 m/s, nothing otherwise. */
  function PlanAfterHour(model: Model, hr: Hour, grid: Field): (out: Field)
    requires PlanFits(grid, model.rCoords)
    ensures SameShape(out, grid)
  {
    if Windy(hr) then AddBlock(grid, PlanBlock(grid, model.rCoords), PlanTerms(model, hr)) else grid
  }

  /** The plan-view loops of `iterDisp` for one hour, with their real-valued counters
      `Xr` and `Yr`. */
  method AccumulatePlan(model: Model, hr: Hour, grid: Field) returns (out: Field)
    requires PlanFits(grid, model.rCoords)
    ensures out == PlanAfterHour(model, hr, grid)
  {
    var g := model.rCoords;
    out := ColumnsFirstSweep(grid, PlanBlock(grid, g), PlanPoint(model, hr),
                             g.xmin, g.xmax, g.xgap, g.ymin, g.ymax, g.ygap, Gt(hr.uz, Finite(0.5)));
  }

  /* ---------- vertical slice ---------- */

  /** The number of heights `0, ygap, ..` up to `ymax`. */
  function SliceRows(g: GridDef): nat
    requires g.ygap > 0.0
  {
    Steps(0.0, g.ymax, g.ygap)
  }

  /** The number of distances `0, xgap, ..` up to `xmax`. */
  function SliceCols(g: GridDef): nat
    requires g.xgap > 0.0
  {
    Steps(0.0, g.xmax, g.xgap)
  }

  /** `zc = ymax / ygap`, the row written for height 0. */
  function SliceBase(g: GridDef): real
    requires g.ygap > 0.0
  {
    g.ymax / g.ygap
  }

  /** `offset = (xmax - xmin) / 2 / xgap`, the column written for distance 0. */
  function SliceOffset(g: GridDef): real
    requires g.xgap > 0.0
  {
    (g.xmax - g.xmin) / 2.0 / g.xgap
  }

  /** Pass (z, x) of the slice loops writes `grid[zc - z][offset + x]`. */
  function SliceBlock(g: GridDef): Block
    requires g.xgap > 0.0 && g.ygap > 0.0
  {
    Block(SliceBase(g).Floor, SliceOffset(g).Floor, SliceCols(g), SliceRows(g))
  }

  /** `zc` and `offset` are array indices and every write of the slice loops lands
      inside `grid`. */
  predicate SliceFits(grid: Field, g: GridDef) {
    g.xgap > 0.0 && g.ygap > 0.0 &&
    IsNat(SliceBase(g)) && IsNat(SliceOffset(g)) &&
    Fits(grid, SliceBlock(g))
  }

  /** `SliceTerm` as a function of the point. */
  function SlicePoint(model: Model, hr: Hour): (real, real) -> Double {
    (xh: real, zh: real) => SliceTerm(model, hr, xh, zh)
  }

  /** The term of slice pass (z, x), at distance `Xh = x xgap` and height `Zh = z ygap`. */
  function SliceTerms(model: Model, hr: Hour): (nat, nat) -> Double {
    var g := model.hCoords;
    Terms(SlicePoint(model, hr), 0.0, g.xgap, 0.0, g.ygap)
  }

  lemma SliceTermsAt(model: Model, hr: Hour, x: nat, z: nat)
    ensures SliceTerms(model, hr)(x, z)
         == SliceTerm(model, hr, Pass(0.0, x, model.hCoords.xgap), Pass(0.0, z, model.hCoords.ygap))
  {
  }


  /** Slice pass (i, 0) is at height 0, `i xgap` metres along. */
  lemma GroundTerm(model: Model, hr: Hour, i: nat)
    ensures SliceTerms(model, hr)(i, 0) == SliceTerm(model, hr, i as real * model.hCoords.xgap, 0.0)
  {
    SliceTermsAt(model, hr, i, 0);
    assert Pass(0.0, i, model.hCoords.xgap) == i as real * model.hCoords.xgap;
  }

  /** The slice grid after one hour: every pass's term added in a wind above
      0.5 m/s, nothing otherwise. */
  function SliceAfterHour(model: Model, hr: Hour, grid: Field): (out: Field)
    requires SliceFits(grid, model.hCoords)
    ensures SameShape(out, grid)
  {
    if Windy(hr) then AddBlock(grid, SliceBlock(model.hCoords), SliceTerms(model, hr)) else grid
  }

  /** The slice loops of `iterDisp` for one hour, with their real-valued counters
      `Zh` and `Xh`; the distance loop runs only in a wind above 0.5 m/s. */
  method AccumulateSlice(model: Model, hr: Hour, grid: Field) returns (out: Field)
    requires SliceFits(grid, model.hCoords)
    ensures out == SliceAfterHour(model, hr, grid)
  {
    var g := model.hCoords;
    out := RowsFirstSweep(grid, SliceBlock(g), SlicePoint(model, hr),
                          0.0, g.xmax, g.xgap, 0.0, g.ymax, g.ygap, Gt(hr.uz, Finite(0.5)));
  }

  /* ---------- all hours ---------- */

  /** Both grids fit their loops. */
  predicate GridsFit(model: Model, grids: Grids) {
    PlanFits(grids.plan, model.rCoords) && SliceFits(grids.slice, model.hCoords)
  }

  /** One met hour added to both grids. */
  function StepHour(m: Elementary, model: Model, met: HourMet, grids: Grids): (out: Grids)
    requires GridsFit(model, grids)
    ensures SameShape(out.plan, grids.plan) && SameShape(out.slice, grids.slice)
  {
    var hr := HourOf(m, model, met);
    Grids(PlanAfterHour(model, hr, grids.plan), SliceAfterHour(model, hr, grids.slice))
  }

  lemma SameShapeKeepsFit(model: Model, a: Grids, b: Grids)
    requires GridsFit(model, a)
    requires SameShape(b.plan, a.plan) && SameShape(b.slice, a.slice)
    ensures GridsFit(model, b)
  {
  }

  /** The hours of `met` added in order. */
  function Run(m: Elementary, model: Model, met: seq<HourMet>, grids: Grids): (out: Grids)
    requires GridsFit(model, grids)
    ensures SameShape(out.plan, grids.plan) && SameShape(out.slice, grids.slice)
    decreases |met|
  {
    if met == [] then grids
    else
      var next := StepHour(m, model, met[0], grids);
      SameShapeKeepsFit(model, grids, next);
      Run(m, model, met[1..], next)
  }

  /** `iterDisp`: the plan and slice loops for every met hour in turn. */
  method IterDisp(m: Elementary, model: Model, met: seq<HourMet>, grids: Grids) returns (out: Grids)
    requires GridsFit(model, grids)
    ensures out == Run(m, model, met, grids)
  {
    out := grids;
    var i := 0;
    while i < |met|
      invariant i <= |met|
      invariant GridsFit(model, out)
      invariant Run(m, model, met[i..], out) == Run(m, model, met, grids)
    {
      var hr := HourOf(m, model, met[i]);
      var plan := AccumulatePlan(model, hr, out.plan);
      var slice := AccumulateSlice(model, hr, out.slice);
      var next := Grids(plan, slice);
      SameShapeKeepsFit(model, out, next);
      assert met[i..][1..] == met[i + 1..];
      out := next;
      i := i + 1;
    }
    assert met[i..] == [];
  }

  /* ---------- properties ---------- */

  /** Hours whose stack-tip wind is at most 0.5 m/s add nothing to either grid. */
  lemma {:induction false} CalmHoursChangeNothing(m: Elementary, model: Model, met: seq<HourMet>, grids: Grids)
    requires GridsFit(model, grids)
    requires forall i :: 0 <= i < |met| ==> !Windy(HourOf(m, model, met[i]))
    ensures Run(m, model, met, grids) == grids
    decreases |met|
  {
    if met != [] {
      assert StepHour(m, model, met[0], grids) == grids;
      assert forall i :: 0 <= i < |met[1..]| ==> met[1..][i] == met[i + 1];
      CalmHoursChangeNothing(m, model, met[1..], grids);
    }
  }

  /** What an hour adds to cell (r, c) of a plan grid with `rows` rows. */
  function PlanShare(model: Model, hr: Hour, rows: nat, r: int, c: int): real
    requires model.rCoords.xgap > 0.0 && model.rCoords.ygap > 0.0
  {
    if Windy(hr) then BlockShare(PlanBlockOf(rows, model.rCoords), PlanTerms(model, hr), r, c) else 0.0
  }

  /** What the hours of `met` add to plan cell (r, c) in total. */
  function PlanTotal(m: Elementary, model: Model, met: seq<HourMet>, rows: nat, r: int, c: int): real
    requires model.rCoords.xgap > 0.0 && model.rCoords.ygap > 0.0
  {
    if met == [] then 0.0
    else PlanShare(model, HourOf(m, model, met[0]), rows, r, c) + PlanTotal(m, model, met[1..], rows, r, c)
  }

  /** What an hour adds to slice cell (r, c). */
  function SliceShare(model: Model, hr: Hour, r: int, c: int): real
    requires model.hCoords.xgap > 0.0 && model.hCoords.ygap > 0.0
  {
    if Windy(hr) then BlockShare(SliceBlock(model.hCoords), SliceTerms(model, hr), r, c) else 0.0
  }

  /** What the hours of `met` add to slice cell (r, c) in total. */
  function SliceTotal(m: Elementary, model: Model, met: seq<HourMet>, r: int, c: int): real
    requires model.hCoords.xgap > 0.0 && model.hCoords.ygap > 0.0
  {
    if met == [] then 0.0
    else SliceShare(model, HourOf(m, model, met[0]), r, c) + SliceTotal(m, model, met[1..], r, c)
  }

  /** A weighted concentration is finite whenever the hour's divisor is not zero. */
  lemma WeightedTermFinite(c: Double, w: real)
    requires c.Finite? && w != 0.0
    ensures Div(c, Finite(w)).Finite?
  {
  }

  lemma PlanTermFinite(model: Model, hr: Hour, i: nat, j: nat)
    requires ConcSound(hr) && hr.weight != 0.0
    ensures PlanTerms(model, hr)(i, j).Finite?
  {
    var g := model.rCoords;
    PlanTermsAt(model, hr, i, j);
    var p := WindComponents(model.source, Pass(g.xmin, i, g.xgap), Pass(g.ymin, j, g.ygap), hr.sinPhi, hr.cosPhi);
    var xx := Sub(Finite(p.downwind), Div(hr.xf, Finite(1000.0)));
    WeightedTermFinite(hr.conc(xx, Finite(p.crosswind), Zero), hr.weight);
  }

  lemma SliceTermFinite(model: Model, hr: Hour, i: nat, j: nat)
    requires ConcSound(hr) && hr.weight != 0.0
    ensures SliceTerms(model, hr)(i, j).Finite?
  {
    var h := model.hCoords;
    SliceTermsAt(model, hr, i, j);
    var xs := Div(Sub(Finite(Pass(0.0, i, h.xgap)), hr.xf), Finite(1000.0));
    WeightedTermFinite(hr.conc(xs, Zero, Finite(Pass(0.0, j, h.ygap))), hr.weight);
  }

  /** One hour adds its share to a finite plan cell. */
  lemma PlanCellGainsShare(model: Model, hr: Hour, grid: Field, r: nat, c: nat)
    requires PlanFits(grid, model.rCoords) && ConcSound(hr) && hr.weight != 0.0
    requires r < |grid| && c < |grid[r]| && grid[r][c].Finite?
    ensures PlanAfterHour(model, hr, grid)[r][c] == Finite(grid[r][c].v + PlanShare(model, hr, |grid|, r, c))
  {
    var b, term := PlanBlock(grid, model.rCoords), PlanTerms(model, hr);
    if Windy(hr) {
      if InBlock(b, r, c) {
        PlanTermFinite(model, hr, c - b.offset, b.base - r);
      }
      AddBlockFiniteCell(grid, b, term, r, c);
    }
  }

  /** One hour adds its share to a finite slice cell. */
  lemma SliceCellGainsShare(model: Model, hr: Hour, grid: Field, r: nat, c: nat)
    requires SliceFits(grid, model.hCoords) && ConcSound(hr) && hr.weight != 0.0
    requires r < |grid| && c < |grid[r]| && grid[r][c].Finite?
    ensures SliceAfterHour(model, hr, grid)[r][c] == Finite(grid[r][c].v + SliceShare(model, hr, r, c))
  {
    var b, term := SliceBlock(model.hCoords), SliceTerms(model, hr);
    if Windy(hr) {
      if InBlock(b, r, c) {
        SliceTermFinite(model, hr, c - b.offset, b.base - r);
      }
      AddBlockFiniteCell(grid, b, term, r, c);
    }
  }

  /** Each plan cell ends as its start value plus the sum of every hour's share. */
  lemma {:induction false} RunPlanIsSum(m: Elementary, model: Model, met: seq<HourMet>, grids: Grids, r: nat, c: nat)
    requires GridsFit(model, grids)
    requires r < |grids.plan| && c < |grids.plan[r]| && grids.plan[r][c].Finite?
    requires forall i :: 0 <= i < |met| ==> met[i].hours != 0.0
    ensures Run(m, model, met, grids).plan[r][c]
         == Finite(grids.plan[r][c].v + PlanTotal(m, model, met, |grids.plan|, r, c))
    decreases |met|
  {
    if met != [] {
      var next := StepHour(m, model, met[0], grids);
      SameShapeKeepsFit(model, grids, next);
      PlanCellGainsShare(model, HourOf(m, model, met[0]), grids.plan, r, c);
      assert forall i :: 0 <= i < |met[1..]| ==> met[1..][i] == met[i + 1];
      RunPlanIsSum(m, model, met[1..], next, r, c);
    }
  }

  /** Each slice cell ends as its start value plus the sum of every hour's share. */
  lemma {:induction false} RunSliceIsSum(m: Elementary, model: Model, met: seq<HourMet>, grids: Grids, r: nat, c: nat)
    requires GridsFit(model, grids)
    requires r < |grids.slice| && c < |grids.slice[r]| && grids.slice[r][c].Finite?
    requires forall i :: 0 <= i < |met| ==> met[i].hours != 0.0
    ensures Run(m, model, met, grids).slice[r][c]
         == Finite(grids.slice[r][c].v + SliceTotal(m, model, met, r, c))
    decreases |met|
  {
    if met != [] {
      var next := StepHour(m, model, met[0], grids);
      SameShapeKeepsFit(model, grids, next);
      SliceCellGainsShare(model, HourOf(m, model, met[0]), grids.slice, r, c);
      assert forall i :: 0 <= i < |met[1..]| ==> met[1..][i] == met[i + 1];
      RunSliceIsSum(m, model, met[1..], next, r, c);
    }
  }

  /** The slice only covers distances from the stack onward: columns left of
      `offset` never change. */
  lemma {:induction false} SliceUpwindColumnsUnchanged(m: Elementary, model: Model, met: seq<HourMet>, grids: Grids, r: nat, c: nat)
    requires GridsFit(model, grids)
    requires r < |grids.slice| && c < |grids.slice[r]| && (c as real) < SliceOffset(model.hCoords)
    ensures Run(m, model, met, grids).slice[r][c] == grids.slice[r][c]
    decreases |met|
  {
    if met != [] {
      var next := StepHour(m, model, met[0], grids);
      SameShapeKeepsFit(model, grids, next);
      assert !InBlock(SliceBlock(model.hCoords), r, c);
      assert next.slice[r][c] == grids.slice[r][c];
      RunSliceColumnsStep(m, model, met, grids, next, r, c);
    }
  }

  lemma {:induction false} RunSliceColumnsStep(m: Elementary, model: Model, met: seq<HourMet>, grids: Grids, next: Grids, r: nat, c: nat)
    requires GridsFit(model, grids) && met != [] && next == StepHour(m, model, met[0], grids)
    requires r < |grids.slice| && c < |grids.slice[r]| && (c as real) < SliceOffset(model.hCoords)
    requires next.slice[r][c] == grids.slice[r][c]
    ensures Run(m, model, met, grids).slice[r][c] == grids.slice[r][c]
    decreases |met|, 0
  {
    SameShapeKeepsFit(model, grids, next);
    SliceUpwindColumnsUnchanged(m, model, met[1..], next, r, c);
  }

  /** On a grid spanning a whole number `ny` of steps, plan row 0 holds receptors on
      the top edge `Yr = ymax` and the last row those on the bottom edge `Yr = ymin`. */
  lemma PlanRowsRunTopToBottom(model: Model, hr: Hour, grid: Field, c: nat, ny: nat)
    requires PlanFits(grid, model.rCoords) && Windy(hr)
    requires model.rCoords.ymax - model.rCoords.ymin == ny as real * model.rCoords.ygap && |grid| == ny + 1
    requires c < PlanCols(model.rCoords) && c < |grid[0]| && c < |grid[ny]|
    ensures var g := model.rCoords;
            PlanAfterHour(model, hr, grid)[0][c] == Add(grid[0][c], PlanTerm(model, hr, Pass(g.xmin, c, g.xgap), g.ymax)) &&
            PlanAfterHour(model, hr, grid)[ny][c] == Add(grid[ny][c], PlanTerm(model, hr, Pass(g.xmin, c, g.xgap), g.ymin))
  {
    var g := model.rCoords;
    var b, term := PlanBlock(grid, g), PlanTerms(model, hr);
    CountOfWholeExtent(g.ymin, g.ymax, g.ygap, ny);
    assert Pass(g.ymin, ny, g.ygap) == g.ymax;
    assert Pass(g.ymin, 0, g.ygap) == g.ymin;
    InsideBlockAdded(grid, b, term, 0, c);
    InsideBlockAdded(grid, b, term, ny, c);
    PlanTermsAt(model, hr, c, ny);
    PlanTermsAt(model, hr, c, 0);
  }

  /** Slice row `zc` is ground level (`Zh = 0`) and column `offset + i` lies `i xgap`
      metres downwind of the stack's x position 0. */
  lemma SliceBaseRowIsGround(model: Model, hr: Hour, grid: Field, i: nat)
    requires SliceFits(grid, model.hCoords) && Windy(hr)
    requires SliceRows(model.hCoords) > 0 && i < SliceCols(model.hCoords)
    ensures var b := SliceBlock(model.hCoords);
            b.offset + i < |grid[b.base]| &&
            SliceAfterHour(model, hr, grid)[b.base][b.offset + i]
              == Add(grid[b.base][b.offset + i], SliceTerm(model, hr, i as real * model.hCoords.xgap, 0.0))
  {
    var g := model.hCoords;
    var b, term := SliceBlock(g), SliceTerms(model, hr);
    BaseRowAdded(grid, b, term, i);
    GroundTerm(model, hr, i);
  }

  /** Receptors no further downwind than the plume-rise distance receive nothing. */
  lemma PlanUpwindOfRiseGetsNothing(model: Model, hr: Hour, xr: real, yr: real)
    requires ConcSound(hr) && hr.xf.Finite? && hr.weight != 0.0
    requires WindComponents(model.source, xr, yr, hr.sinPhi, hr.cosPhi).downwind <= hr.xf.v / 1000.0
    ensures PlanTerm(model, hr, xr, yr) == Zero
  {
    var p := WindComponents(model.source, xr, yr, hr.sinPhi, hr.cosPhi);
    DivOfFinite(hr.xf.v, 1000.0);
    SubOfFinite(p.downwind, hr.xf.v / 1000.0);
    DivOfFinite(0.0, hr.weight);
  }

  /** Slice cells no further along than the plume-rise distance receive nothing. */
  lemma SliceUpwindOfRiseGetsNothing(model: Model, hr: Hour, xh: real, zh: real)
    requires ConcSound(hr) && hr.xf.Finite? && hr.weight != 0.0 && xh <= hr.xf.v
    ensures SliceTerm(model, hr, xh, zh) == Zero
  {
    SubOfFinite(xh, hr.xf.v);
    DivOfFinite(xh - hr.xf.v, 1000.0);
    DivOfFinite(0.0, hr.weight);
  }
}
