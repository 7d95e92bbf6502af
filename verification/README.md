# Really Simple Dispersion Model, in Dafny

A model of the core of the Really Simple Dispersion Model (RSDM). RSDM is a browser
Gaussian-plume model of a single stack. The model covers:

- the Pasquill-Gifford sigma curves and the power-law wind profile (`stability.dfy`);
- the concentration kernel `C` and the Briggs plume rise (`plume.dfy`);
- the receptor grids and the rotation into plume coordinates (`domain.dfy`);
- the met-hour generator `GenMET` (`preprocess.dfy`);
- the accumulation loops of `iterDisp` (`sweep.dfy`, `disperse.dfy`);
- the `RSDM` object's grid set-up, clearing and `runModel` (`rsdm.dfy`);
- the banded rendering of `visualise.js` and `updateImage` (`visualise.dfy`).

JavaScript numbers are `Js.Double`: a finite value held as an exact real, +Infinity,
-Infinity or NaN. Arithmetic and comparison follow the IEEE-754 rules for the special
values. `Math.exp`, `log`, `log10`, `pow`, `sqrt`, `sin`, `cos` and `tan` are given
as an `Elementary` record of real functions (the oracles). What they do on zero,
negative and non-finite arguments is written out in `Js`. A lemma that needs a fact
about an oracle, such as "`pow` of a positive base is positive", states it as a
requirement. `Math.random` is an injected stream of draws in [0, 1).

The floating-point loop counters of `iterDisp` (`Xr += xgap`) are exact reals. The
number of passes of each loop is `Domain.Steps`, proved to be exactly the passes that
`for (v = lo; v <= hi; v += gap)` makes. Each loop is modelled twice: as a method over
the real counter, and as a per-cell reference function. Each method is proved to
compute its reference.

The model follows the code in three edge cases where a reader might expect otherwise:

- `sigmaZ` at distance 0 is 0, because `Math.pow(0, b)` is 0. It is not NaN.
- `sigmaZA` of NaN is 5000, because every band test fails and the last branch is
  the literal 5000.
- `GenMET` for a fractional number of hours above one makes `ceil(hours)` records.

## Model

| member | source | states |
|---|---|---|
| Js.Min | rsdm/disperse.js:242 | `Math.min`: no larger than either argument and equal to one of them; NaN when either is NaN |
| Js.Max | rsdm/rsdm.js:106 | `Math.max`: no smaller than either argument and equal to one of them; NaN when either is NaN |
| Js.Trunc | rsdm/visualise.js:28 | `Math.trunc`: finite exactly for finite input, and the integer between 0 and the input within distance 1 of it |
| Js.Log | rsdm/visualise.js:34 | `Math.log10`: finite exactly for positive finite input, -Infinity at 0, NaN below 0 |
| Js.Pow | rsdm/disperse.js:25 | `Math.pow` with a fractional exponent: finite exactly for a non-negative finite base, NaN for a negative one, 0 at 0 |
| Js.Sqrt | rsdm/disperse.js:231 | `Math.sqrt`: finite exactly for a non-negative finite argument |
| Js.Tan | rsdm/disperse.js:11 | `Math.tan`: finite on every finite argument, NaN otherwise |
| Js.Exp | rsdm/disperse.js:187-189 | `Math.exp`: finite for finite input and for -Infinity |
| Js.Div | rsdm/disperse.js:307 | division: finite exactly when the dividend is finite, the divisor is not NaN, and a finite divisor is non-zero (a finite value over an infinity is 0) |
| Js.ArrayLength | rsdm/rsdm.js:27 | `Array(n)` accepts exactly the integers in [0, 2^32), and gives that length |
| Js.ToUint8Clamp | rsdm/visualise.js:61-64 | a store into the pixel buffer: 0 for NaN and for values not above 0, 255 from 255 up, within 0.5 of the value in between |
| Stability.SigmaYTable | rsdm/disperse.js:15-22 | every class's sigma-y constants satisfy 0 < d < c |
| Stability.SigmaYConstantsShrinkWithStability | rsdm/disperse.js:16-21 | both sigma-y constants strictly decrease from class A to class F |
| Stability.SigmaY | rsdm/disperse.js:8-13 | sigma-y is finite exactly at positive finite distances and NaN everywhere else |
| Stability.PowerLaw | rsdm/disperse.js:24-26 | `a * x^b` is finite exactly for non-negative finite `x`, and 0 at 0 |
| Stability.Cap | rsdm/disperse.js:49-51 | the 5000 m cap leaves NaN or a value at most 5000, and changes nothing at or below 5000 |
| Stability.SigmaZ | rsdm/disperse.js:28-117 | classes A to C give NaN or at most 5000; A gives exactly 5000 beyond 3.11 km; negative distances give NaN, 0 gives 0, non-negative finite ones give a finite value |
| Stability.ClassAt | rsdm/preprocess.js:39 | index `i` of "ABCDEF" is the class at position `i` |
| Stability.CurveOf | rsdm/disperse.js:37-117 | every band table has ascending bounds and valid fits; exactly classes A to C are capped; only A ends in the literal 5000 |
| Stability.CurveA | rsdm/disperse.js:39-47 | class A's eight bands ascend and each fit is a valid power law |
| Stability.CurveB | rsdm/disperse.js:57-59 | class B's bands ascend and each fit is a valid power law |
| Stability.CurveC | rsdm/disperse.js:68 | class C's single fit is a valid power law |
| Stability.CurveD | rsdm/disperse.js:78-83 | class D's bands ascend and each fit is a valid power law |
| Stability.CurveE | rsdm/disperse.js:90-98 | class E's bands ascend and each fit is a valid power law |
| Stability.CurveF | rsdm/disperse.js:105-114 | class F's bands ascend and each fit is a valid power law |
| Stability.BandIndex | rsdm/disperse.js:39-47 | the band chosen is the first whose bound is at least `x`: `x` is above every earlier bound |
| Stability.AscendingIsStrict | rsdm/disperse.js:39-47 | in an ascending table any earlier bound is below any later one |
| Stability.BandChoiceIsUnique | rsdm/disperse.js:37-117 | band `i` is chosen exactly when `x` is above bound `i - 1` and within bound `i`, so exactly one band applies |
| Stability.SelectsBand | rsdm/disperse.js:37-117 | the band whose bounds enclose `x` is the one chosen |
| Stability.SigmaZAMatchesTable | rsdm/disperse.js:37-53 | the class A if-else chain agrees with its band table at every distance, NaN and infinities included |
| Stability.SigmaZABands0To2 | rsdm/disperse.js:39-41 | the same, for distances up to 0.20 km |
| Stability.SigmaZABands3To5 | rsdm/disperse.js:42-44 | the same, for distances in (0.20, 0.40] km |
| Stability.SigmaZABands6To8 | rsdm/disperse.js:45-47 | the same, beyond 0.40 km |
| Stability.SigmaZBMatchesTable | rsdm/disperse.js:55-65 | the class B chain agrees with its band table |
| Stability.SigmaZDMatchesTable | rsdm/disperse.js:76-86 | the class D chain agrees with its band table |
| Stability.SigmaZDBands0To2 | rsdm/disperse.js:78-80 | the same, up to 3 km |
| Stability.SigmaZDBands3To5 | rsdm/disperse.js:81-83 | the same, beyond 3 km |
| Stability.SigmaZEMatchesTable | rsdm/disperse.js:88-101 | the class E chain agrees with its band table |
| Stability.SigmaZEBands0To2 | rsdm/disperse.js:90-92 | the same, up to 1 km |
| Stability.SigmaZEBands3To5 | rsdm/disperse.js:93-95 | the same, in (1, 10] km |
| Stability.SigmaZEBands6To8 | rsdm/disperse.js:96-98 | the same, beyond 10 km |
| Stability.SigmaZFMatchesTable | rsdm/disperse.js:103-117 | the class F chain agrees with its band table |
| Stability.SigmaZFBands0To2 | rsdm/disperse.js:105-107 | the same, up to 1 km |
| Stability.SigmaZFBands3To5 | rsdm/disperse.js:108-110 | the same, in (1, 7] km |
| Stability.SigmaZFBands6To9 | rsdm/disperse.js:111-114 | the same, beyond 7 km |
| Stability.SigmaZMatchesTable | rsdm/disperse.js:28-35 | the `SigmaZ` dispatch of every class agrees with that class's band table |
| Stability.StableClassesUncapped | rsdm/disperse.js:76-117 | classes D to F return the selected power law itself, with no cap |
| Stability.SigmaZPositive | rsdm/disperse.js:37-117 | sigma-z is finite and positive at every positive finite distance, for every class |
| Stability.EvalCurvePositive | rsdm/disperse.js:24-26 | any well-formed band table gives a positive spread at a positive distance |
| Stability.WindExponent | rsdm/disperse.js:119-136 | every profile exponent is a fraction strictly between 0 and 1 |
| Stability.WindExponentGrowsWithStability | rsdm/disperse.js:119-136 | within a roughness profile the exponent never decreases from A to F |
| Stability.CalcUz | rsdm/disperse.js:151-156 | a finite result needs a finite measured speed and a non-negative finite height ratio |
| Stability.CalcUzAtReference | rsdm/disperse.js:154 | at the reference height the extrapolated speed is the measured speed |
| Stability.CalcUzPositive | rsdm/disperse.js:154 | a positive measured speed gives a positive finite speed at any positive height |
| Stability.CalcUzMonotone | rsdm/disperse.js:154 | the extrapolated speed never decreases with height |
| Plume.C | rsdm/disperse.js:174-196 | `C` is always finite, and exactly 0 at or upwind of the source |
| Plume.Concentration | rsdm/disperse.js:180-195 | the downwind branch of `C` is always finite |
| Plume.CEvenInY | rsdm/disperse.js:189 | `C` is the same at `y` and `-y` |
| Plume.CNonNegative | rsdm/disperse.js:186-195 | with a non-negative emission, positive wind and positive sigmas, `C` is never negative |
| Plume.ConcentrationNonNegative | rsdm/disperse.js:186-191 | the same for the downwind branch |
| Plume.CVanishesOnDegenerateInputs | rsdm/disperse.js:186-194 | a zero or non-finite wind speed or sigma gives exactly 0 |
| Plume.ConcentrationOfDegenerateScale | rsdm/disperse.js:186-194 | a zero or non-finite `c1` gives exactly 0 |
| Plume.BuoyancyFluxNonNegative | rsdm/disperse.js:215 | a gas at least as warm as the air has a finite, non-negative buoyancy flux |
| Plume.MomentumFluxNonNegative | rsdm/disperse.js:217 | with positive temperatures the momentum flux is finite and non-negative |
| Plume.BranchOf | rsdm/disperse.js:223-259 | the stable equations are used exactly for classes E and F; the low-flux equations exactly for classes A to D with a buoyancy flux below 55; the high-flux ones otherwise |
| Plume.MomentumRiseHasNoOffset | rsdm/disperse.js:237-267 | every momentum-dominated branch returns `Xf = 0` |
| Plume.StableMomentumRiseBounded | rsdm/disperse.js:240-242 | a stable momentum-dominated rise is at most the jet rise `3 ds vs / us` |
| Plume.StabilityTermPositive | rsdm/disperse.js:230 | with a positive ambient temperature, `s = g eta / Ta` is positive |
| Plume.CrossoverNonNegative | rsdm/disperse.js:231-260 | every crossover `dT` of a physical stack is finite and non-negative |
| Plume.ColdPlumeIsMomentumDominated | rsdm/disperse.js:231-267 | a gas colder than the air is never buoyancy dominated, so `Xf = 0` |
| Plume.BuoyantPlumeIsWarm | rsdm/disperse.js:233-261 | a buoyancy-dominated plume has `Ts >= Ta` |
| Plume.JetRiseNonNegative | rsdm/disperse.js:240 | the jet rise of a physical stack in a positive wind is finite and non-negative |
| Plume.PlumeRiseNonNegative | rsdm/disperse.js:213-271 | for a physical stack in a positive wind, both `dH` and `Xf` are finite and non-negative, whatever the branch |
| Domain.ZeroField | rsdm/rsdm.js:27 | `rows` rows of `cols` zeros |
| Domain.GenerateGrid | rsdm/rsdm.js:23-29 | succeeds exactly when the row count, and the column count when there are rows, are valid array lengths (otherwise a RangeError); the grid has that many rows of that many zeros |
| Domain.NextPass | rsdm/disperse.js:301 | `Xr += xgap` moves the counter to the next pass |
| Domain.StepsCountsPasses | rsdm/disperse.js:301 | pass `i` of `for (v = lo; v <= hi; v += gap)` happens exactly when `i < Steps` |
| Domain.CountOfWholeExtent | rsdm/rsdm.js:24-25 | an extent of `n` whole steps has `n + 1` grid lines, and its loop makes `n + 1` passes |
| Domain.GenerateGridOfWholeExtent | rsdm/rsdm.js:23-29 | whole-step extents give the zero grid of `ny + 1` by `nx + 1`, matching the loops' pass counts |
| Domain.GenerateGridRejectsZeroStep | rsdm/rsdm.js:25-27 | a zero row step is a RangeError |
| Domain.GenerateGridRejectsInvertedExtent | rsdm/rsdm.js:25-27 | a top edge more than a step below the bottom edge is a RangeError |
| Domain.PlanGridAt25m | rsdm/rsdm_test.js:83-92 | the 5 km plan grid at 25 m is 201 by 201 |
| Domain.OffsetGridShape | rsdm/rsdm_test.js:94-104 | the grid (-27, 300, 50, 5580) in steps of 3 and 10 is 554 rows of 110 |
| Domain.WindComponents | rsdm/rsdm.js:56-60 | a receptor at the stack is the plume origin (0, 0); for a genuine direction (sin² + cos² = 1) the receptor's plume coordinates, with downwind scaled back to metres, are as far from the origin as the receptor is from the stack; the downwind distance is in km |
| Domain.StackIsPlumeOrigin | rsdm/rsdm.js:56-60 | the stack itself maps to (0, 0) |
| Domain.WindComponentsShiftInvariant | rsdm/rsdm.js:57-58 | moving the stack and the receptor together changes nothing |
| Domain.WindComponentsPreserveDistance | rsdm/rsdm.js:57-58 | when sin^2 + cos^2 = 1, the distance in plume coordinates equals the distance from the stack |
| Domain.DownwindReceptorOnCentreline | rsdm/rsdm.js:57-58 | a receptor `d` m from the stack, opposite the wind's bearing, is on the centreline `d / 1000` km downwind |
| Preprocess.RandomInt | rsdm/preprocess.js:18-20 | `getRandomInt(max)` is in 0..max-1, and 0 when max is 0 |
| Preprocess.RandomIntPreimage | rsdm/preprocess.js:18-20 | outcome `n` comes from exactly the draws in [n/max, (n+1)/max), so every outcome has an equal share |
| Preprocess.HourCountCountsPasses | rsdm/preprocess.js:32 | pass `h` of the hour loop happens exactly when `h < hours` |
| Preprocess.DegreesOfRadians | rsdm/preprocess.js:24 | the radian conversion loses nothing: converting back gives the degrees |
| Preprocess.GenMet | rsdm/preprocess.js:22-46 | at most one hour gives one record of the user's speed, direction and class with divisor 1; otherwise `ceil(hours)` records with divisor `hours`, whole speeds 1..50 and whole directions 0..359 degrees |
| Preprocess.OneHourIsDeterministic | rsdm/preprocess.js:27-29 | a single-hour run does not depend on the random draws |
| Preprocess.WeightSumOfEqualDivisors | rsdm/preprocess.js:42 | records sharing divisor `w` weigh `count / w` in total |
| Preprocess.GenMetWeight | rsdm/preprocess.js:22-46 | the records' weights sum to 1 for one hour and to `ceil(hours) / hours` otherwise |
| Preprocess.WholeHoursAverage | rsdm/preprocess.js:32-43 | for a whole number of hours the weights sum to 1, so the grids hold an hourly average |
| Preprocess.FractionalHoursOverweight | rsdm/preprocess.js:32-43 | 2.5 hours give three records weighing 1.2 in total |
| Sweep.AddBlock | rsdm/disperse.js:301-327 | adding a block of terms keeps the grid's shape |
| Sweep.OutsideBlockUnchanged | rsdm/disperse.js:307 | cells no pass writes keep their values |
| Sweep.InsideBlockAdded | rsdm/disperse.js:307 | a written cell gains exactly the term of the pass that writes it |
| Sweep.BaseRowAdded | rsdm/disperse.js:322 | pass (i, 0) writes an existing cell of the base row and adds its term |
| Sweep.AddBlockFiniteCell | rsdm/disperse.js:307 | a finite cell stays finite and gains exactly its share |
| Sweep.StageStart | rsdm/disperse.js:299-301 | before any pass, no cell has been written |
| Sweep.StageWrite | rsdm/disperse.js:307 | one `+=` performs exactly the next pass and leaves the rest as it was |
| Sweep.StageNextOuter | rsdm/disperse.js:303 | finishing the inner loop starts the next outer pass |
| Sweep.StageDone | rsdm/disperse.js:301-312 | after every outer pass the grid holds the whole block added |
| Sweep.TermsAtCounters | rsdm/disperse.js:301-303 | the term of pass (i, j) is the point function at the loop counters of that pass |
| Sweep.ColumnsFirstSweep | rsdm/disperse.js:301-312 | the plan loops, with the wind test inside the inner loop, add the whole block when active and nothing otherwise |
| Sweep.SweepRow | rsdm/disperse.js:320-324 | one inner slice loop completes one more row of the block |
| Sweep.RowsFirstSweep | rsdm/disperse.js:317-327 | the slice loops, with the wind test between the loops, add the whole block when active and nothing otherwise |
| Disperse.HourOf | rsdm/disperse.js:285-296 | the hour's divisor is the record's `Hours`, and its `C` is finite everywhere and 0 upwind |
| Disperse.PlanTermsAt | rsdm/disperse.js:301-307 | plan pass (x, y) evaluates at `Xr = xmin + x xgap`, `Yr = ymin + y ygap` |
| Disperse.PlanAfterHour | rsdm/disperse.js:301-312 | one hour keeps the plan grid's shape |
| Disperse.AccumulatePlan | rsdm/disperse.js:299-312 | the plan loops compute the per-cell reference for the hour |
| Disperse.SliceTermsAt | rsdm/disperse.js:317-322 | slice pass (z, x) evaluates at `Xh = x xgap`, `Zh = z ygap` |
| Disperse.GroundTerm | rsdm/disperse.js:317-322 | slice pass (i, 0) is at height 0, `i xgap` m along |
| Disperse.SliceAfterHour | rsdm/disperse.js:315-327 | one hour keeps the slice grid's shape |
| Disperse.AccumulateSlice | rsdm/disperse.js:315-327 | the slice loops compute the per-cell reference for the hour |
| Disperse.StepHour | rsdm/disperse.js:283-328 | one hour keeps the shape of both grids |
| Disperse.SameShapeKeepsFit | rsdm/disperse.js:280-281 | whether every write lands in the grids depends only on their shapes |
| Disperse.Run | rsdm/disperse.js:283-328 | the hours in order keep the shape of both grids |
| Disperse.IterDisp | rsdm/disperse.js:278-329 | `iterDisp`'s loops compute the hour-by-hour reference |
| Disperse.CalmHoursChangeNothing | rsdm/disperse.js:304 | hours with a stack-tip wind of at most 0.5 m/s leave both grids unchanged |
| Disperse.WeightedTermFinite | rsdm/disperse.js:307 | a finite concentration over a non-zero `Hours` is finite |
| Disperse.PlanTermFinite | rsdm/disperse.js:307 | every plan term is finite |
| Disperse.SliceTermFinite | rsdm/disperse.js:322 | every slice term is finite |
| Disperse.PlanCellGainsShare | rsdm/disperse.js:307 | one hour adds exactly its share to a finite plan cell |
| Disperse.SliceCellGainsShare | rsdm/disperse.js:322 | one hour adds exactly its share to a finite slice cell |
| Disperse.RunPlanIsSum | rsdm/disperse.js:283-312 | each plan cell ends as its start value plus the sum of every hour's share |
| Disperse.RunSliceIsSum | rsdm/disperse.js:283-328 | each slice cell ends as its start value plus the sum of every hour's share |
| Disperse.SliceUpwindColumnsUnchanged | rsdm/disperse.js:316-322 | slice columns left of `offset` are never written |
| Disperse.PlanRowsRunTopToBottom | rsdm/disperse.js:280-307 | plan row 0 holds receptors at `ymax`, and the last row those at `ymin` |
| Disperse.SliceBaseRowIsGround | rsdm/disperse.js:281-322 | slice row `zc` is ground level, and column `offset + i` is `i xgap` m along |
| Disperse.PlanUpwindOfRiseGetsNothing | rsdm/disperse.js:305-307 | a receptor no further downwind than the plume-rise distance gains nothing |
| Disperse.SliceUpwindOfRiseGetsNothing | rsdm/disperse.js:321-322 | a slice cell no further along than the plume-rise distance gains nothing |
| Rsdm.GridStep | rsdm/rsdm.js:6-10 | every step is positive and divides 2500 m and 2000 m a whole number of times |
| Rsdm.FinerQualitySmallerStep | rsdm/rsdm.js:6-10 | High < Medium < Low in step size |
| Rsdm.SetupGrids | rsdm/rsdm.js:78-91 | succeeds exactly when both grids can be generated, otherwise a RangeError; only the coordinates, grids and buffers change, and each buffer equals its grid |
| Rsdm.PlanGridOfWholeStep | rsdm/rsdm.js:83-84 | a step fitting `n` times into 2500 m gives a `2n + 1` square zero grid that holds every plan write |
| Rsdm.SliceGridOfWholeStep | rsdm/rsdm.js:88-89 | the slice grid is `k + 1` rows of `2n + 1` zeros and holds every slice write |
| Rsdm.SliceExtents | rsdm/disperse.js:281-316 | the slice's ground row `zc` is `k` and its stack column `offset` is `n` |
| Rsdm.SetupGridsOfQuality | rsdm/rsdm.js:78-91 | every quality gives zero grids of the right shapes that hold every write of the loops |
| Rsdm.Initial | rsdm/rsdm.js:65-76 | the constructor succeeds with grids that hold every write: 501 plan rows and 201 slice rows |
| Rsdm.ClearRow | rsdm/rsdm.js:98-100 | the first `cols` cells become 0 and the rest keep their values; a short row is extended |
| Rsdm.Cleared | rsdm/rsdm.js:93-102 | an empty grid is a TypeError; otherwise every row is cleared to the first row's width |
| Rsdm.ClearGrid | rsdm/rsdm.js:93-102 | the nested loops compute `Cleared` |
| Rsdm.ClearRectIsZero | rsdm/rsdm.js:93-102 | a rectangular grid clears to the zero grid of its shape |
| Rsdm.ClearIdempotent | rsdm/rsdm.js:93-102 | clearing twice is clearing once |
| Rsdm.ClearKeepsFit | rsdm/rsdm.js:93-102 | a cleared grid still holds every write the grid held |
| Rsdm.ClearKeepsGridsFit | rsdm/rsdm.js:122-123 | clearing both grids keeps every write of the loops in bounds |
| Rsdm.RunModel | rsdm/rsdm.js:121-130 | succeeds exactly when both grids are non-empty, otherwise a TypeError; only the grids change, and they still hold every write |
| Rsdm.RunModelGrids | rsdm/rsdm.js:121-130 | a run's grids are the generated hours dispersed into the cleared grids |
| Rsdm.MetWeightsNonZero | rsdm/preprocess.js:27-42 | no generated record has divisor 0 |
| Rsdm.RunModelFromZero | rsdm/rsdm.js:121-130 | on rectangular grids a run disperses into zero grids of the same shape |
| Rsdm.RunPlanFromZero | rsdm/disperse.js:283-312 | dispersing into a zero plan grid leaves each cell holding its hourly total |
| Rsdm.RunSliceFromZero | rsdm/disperse.js:283-328 | dispersing into a zero slice grid leaves each cell holding its hourly total |
| Rsdm.RunModelPlanIsHourlySum | rsdm/rsdm.js:121-130 | after a run each plan cell holds exactly the sum of the hours' shares, whatever it held before |
| Rsdm.RunModelSliceIsHourlySum | rsdm/rsdm.js:121-130 | after a run each slice cell holds exactly the sum of the hours' shares |
| Rsdm.RunModelForgetsPrevious | rsdm/rsdm.js:121-130 | states that differ only in their grids' contents give the same run |
| Rsdm.RunModelRepeatable | rsdm/rsdm.js:121-130 | running again with the same hours and the same draws reproduces the same grids |
| Rsdm.OneHourRunIgnoresDraws | rsdm/preprocess.js:27-29 | a run of at most one hour, repeated with any other draws, reproduces the same grids: the single hour uses the user's values |
| Rsdm.ChangeQuality | rsdm/rsdm.js:150-155 | changing the quality succeeds with the new step and grids that hold every write, the plan grid `2n + 1` square |
| Visualise.Scanned | rsdm/visualise.js:10-14 | the cells `gridMax` reads from a row: the first `cols`, or the whole row when it is shorter |
| Visualise.GridMaxOf | rsdm/visualise.js:8-21 | an empty grid is a TypeError; any other grid has a maximum |
| Visualise.GridMax | rsdm/visualise.js:8-21 | the nested loops compute `GridMaxOf` |
| Visualise.RowMaxBounds | rsdm/visualise.js:14-18 | the running maximum over a row is not below its start, bounds every cell, and is the start or a greater cell |
| Visualise.FieldMaxBounds | rsdm/visualise.js:13-19 | the same over every row of a grid |
| Visualise.GridMaxIsMax | rsdm/visualise.js:8-21 | `gridMax` is not below any cell, and is either -1 or a cell above -1 |
| Visualise.GridMaxUnique | rsdm/visualise.js:8-21 | that description fixes the result |
| Visualise.GridMaxPositive | rsdm/visualise.js:11-20 | a grid with a positive cell has a positive maximum |
| Visualise.LevelRow | rsdm/visualise.js:32-38 | the bands of a row have the row's length |
| Visualise.Levels | rsdm/visualise.js:31-39 | the display buffer has the grid's shape |
| Visualise.Shade | rsdm/visualise.js:49-58 | alpha and blue are 255 and red equals green; a band not above `min` is white |
| Visualise.EmptyCellIsWhite | rsdm/visualise.js:33-36 | a cell not above 0 is drawn white |
| Visualise.ShadeOfFinite | rsdm/visualise.js:54-57 | a band above `min` has red `255 - 255 (level - min) / 10`, clamped |
| Visualise.MaximumIsDeepestBlue | rsdm/visualise.js:28-57 | the cell holding a positive maximum is drawn (0, 0, 255) |
| Visualise.BandShades | rsdm/visualise.js:54-57 | the ten bands get red 230, 204, 178, 153, 128, 102, 76, 51, 26 and 0 |
| Visualise.ShadeDarkens | rsdm/visualise.js:54-57 | a higher band is never drawn lighter |
| Visualise.Bytes | rsdm/visualise.js:61-64 | a pixel is four bytes |
| Visualise.RowBytes | rsdm/visualise.js:44-65 | a row of `n` pixels is `4n` bytes |
| Visualise.FieldBytesLength | rsdm/visualise.js:43-66 | a `rows` by `cols` image is `rows cols 4` bytes |
| Visualise.FieldBytesAt | rsdm/visualise.js:46-64 | byte `(y cols + x) 4 + k` is channel `k` of the pixel of cell (y, x) |
| Visualise.OffsetsDistinct | rsdm/visualise.js:46 | distinct cells have distinct offsets, so no pixel overwrites another |
| Visualise.OffsetsCover | rsdm/visualise.js:43-46 | every byte of the image belongs to one channel of one pixel |
| Visualise.Render | rsdm/visualise.js:23-67 | an empty grid is a TypeError; otherwise the display buffer has the grid's shape |
| Visualise.Put | rsdm/visualise.js:61-64 | one pixel write sets exactly the four bytes from its offset: the bytes before and after are unchanged |
| Visualise.UpdatePng | rsdm/visualise.js:23-67 | the loops of `updatePNG` compute `Render` |
| Visualise.FillLevels | rsdm/visualise.js:31-39 | the band loops fill the display buffer with every cell's band |
| Visualise.FillPixels | rsdm/visualise.js:43-66 | the pixel loops write the bytes of every pixel |
| Visualise.FillRow | rsdm/visualise.js:44-65 | one row of the pixel loop writes that row's bytes after the earlier ones |
| Visualise.RenderedPixel | rsdm/visualise.js:46-64 | byte `(y cols + x) 4 + k` of the image is channel `k` of the shade of cell (y, x)'s band |
| Visualise.UpdateImage | rsdm/rsdm.js:104-115 | succeeds exactly when both grids are non-empty, otherwise a TypeError |
| Visualise.UpdateImageUsesScale | rsdm/rsdm.js:106-110 | both views are rendered against the one common maximum |
| Visualise.ScaleCoversBoth | rsdm/rsdm.js:106 | the common maximum is at least each view's maximum and is one of them |
| Visualise.SharedColourScale | rsdm/rsdm.js:109-110 | against a common maximum, equal values in the plan and the slice get the same bytes |

## Left out

- Floating-point rounding, overflow, underflow and signed zero: finite numbers are exact reals. The regression values that depend on them are not modelled.
- The values of `exp`, `log`, `log10`, `pow`, `sqrt`, `sin`, `cos` and `tan` are oracles. Only the facts a lemma needs about them are required.
- Float drift of the loop counters `Xr`, `Yr`, `Zh` and `Xh`: they are exact reals.
- `Plume.C`: the value of the Gaussian expression is left to the oracles. Only finiteness, the zero upwind branch, the y-symmetry, the sign and the zero cases are stated.
- Writes outside a grid in `iterDisp` are excluded by the preconditions `PlanFits` and `SliceFits`. In JavaScript they would throw or grow the array. Grids built by `setupGrids` are proved to meet both.
- `Visualise.UpdatePng`: requires a rectangular grid and an image of `rows cols 4` bytes, which `generatePNG` creates. Writes past the end of a typed array are dropped in JavaScript and are not modelled.
- `Visualise.Render`: gives every display row the width of its own grid row. `updatePNG` uses the first row's width for every row, so the two differ on a grid whose rows differ in length; such grids never reach the renderer, as `generateGrid` makes every row equally long.
- `Visualise.UpdateImage`: renders through `Visualise.Render`, so the same caveat applies to grids whose rows differ in length. It also succeeds on a grid whose first row is empty, such as `[[]]`. In the program, `generatePNG` then calls `createImageData` with a width of 0, and the canvas throws an `IndexSizeError`. The canvas is not modelled, and `generateGrid` never makes a zero-width grid.
- `Visualise.GridMaxOf`: a row shorter than the first is read only as far as it goes. Reading past its end gives `undefined`, which is never greater than the maximum, so the result is the same.
- `generatePNG`'s canvas, `toDataURL` and `exportPNG`, the status line `log`, and `simulate` are browser I/O.
- The handlers `sourceAdj`, `modelAdj` and `modelAdjDesc` are left out. `sourceAdj` sets `this.source[parameter]` and `modelAdj` sets `this[parameter]`, both to `Number(value)`. `modelAdjDesc` stores the form string in `this[parameter]` unconverted. Each then calls `runModel(1)` and `updateImage`.
- `Rsdm.ChangeQuality`: does not model the `updateImage` that `gridAdjDesc` ends with, which only renders.
- `Round` is unused.
- `Math.random` is an injected stream. Its distribution is not modelled beyond the equal-share lemma for `getRandomInt`.
- `Rsdm.RunModel`: takes `hours` as a real. A NaN number of hours, which makes `GenMET` produce no records, is not modelled.
- `Preprocess.GenMet`: states the record count and weights as the code computes them. For a fractional number of hours the weights sum to more than 1 (`Preprocess.FractionalHoursOverweight`); the model keeps that behaviour.
