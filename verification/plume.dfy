/** The Gaussian plume kernel `C` and the Briggs plume-rise equations. */
module Plume {
  import opened Js
  import opened Stability

  /* ---------- concentration ---------- */

  /** `C`: concentration at downwind distance `x` (km), crosswind offset `y` (m)
      and height `z` (m), for wind speed `uz`, emission `q` and effective stack
      height `h`, with the class's sigma curves passed in as `sigY` and `sigZ`.
      The expression is evaluated in the code's own order of operations; a
      non-finite result is replaced by 0. */
  function C(m: Elementary, x: Double, y: Double, z: Double, uz: Double, q: Double, h: Double,
             sigY: Double -> Double, sigZ: Double -> Double): (r: Double)
    ensures r.Finite?
    ensures Le(x, Zero) ==> r == Zero
  {
    if Le(x, Zero) then Zero
    else Concentration(m, y, z, uz, q, h, sigY(x), sigZ(x))
  }

  /** The downwind branch of `C` once the sigmas `sy` and `sz` are known:
      `c1 * (c2 + c3) * c4`, or 0 when that is not finite. */
  function Concentration(m: Elementary, y: Double, z: Double, uz: Double, q: Double, h: Double, sy: Double, sz: Double): (r: Double)
    ensures r.Finite?
  {
    var conc := Mul(Mul(Scale(q, uz, sy, sz), Vertical(m, z, h, sz)), Crosswind(m, y, sy));
    if conc.Finite? then conc else Zero
  }

  /** `c1 = Q / (2 pi Uz Sy Sz)`. */
  function Scale(q: Double, uz: Double, sy: Double, sz: Double): Double {
    Div(q, Mul(Mul(Mul(Mul(Finite(2.0), Finite(Pi)), uz), sy), sz))
  }

  /** `2 s s`, the denominator of a Gaussian exponent. */
  function TwiceSquare(s: Double): Double {
    Mul(Mul(Finite(2.0), s), s)
  }

  /** `-1 * a * a`, grouped as the code groups it. */
  function NegSquare(a: Double): Double {
    Mul(Mul(Finite(-1.0), a), a)
  }

  /** `exp(-1 * a * a / (2 s s))`, the shape shared by `c2`, `c3` and `c4`. */
  function GaussianTerm(m: Elementary, a: Double, s: Double): Double {
    Exp(m, Div(NegSquare(a), TwiceSquare(s)))
  }

  /** `c2 + c3`: the direct and the ground-reflected vertical terms. */
  function Vertical(m: Elementary, z: Double, h: Double, sz: Double): Double {
    Add(GaussianTerm(m, Sub(z, h), sz), GaussianTerm(m, Add(z, h), sz))
  }

  /** `c4`: the crosswind term. */
  function Crosswind(m: Elementary, y: Double, sy: Double): Double {
    GaussianTerm(m, y, sy)
  }

  lemma NegSquareEven(a: Double)
    ensures NegSquare(Neg(a)) == NegSquare(a)
  {
    match a
    case Finite(x) =>
      assert -1.0 * -x * -x == -1.0 * x * x;
    case _ =>
  }

  /** `C` depends on `y` only through `y * y`: the plume is symmetric about its centreline. */
  lemma CEvenInY(m: Elementary, x: Double, y: Double, z: Double, uz: Double, q: Double, h: Double,
                 sigY: Double -> Double, sigZ: Double -> Double)
    ensures C(m, x, Neg(y), z, uz, q, h, sigY, sigZ) == C(m, x, y, z, uz, q, h, sigY, sigZ)
  {
    NegSquareEven(y);
  }

  /** Extended-value "non-negative": a finite value is at least 0. */
  predicate NotBelowZero(a: Double) {
    a.Finite? ==> a.v >= 0.0
  }

  lemma MulNotBelowZero(a: Double, b: Double)
    requires NotBelowZero(a) && NotBelowZero(b)
    ensures NotBelowZero(Mul(a, b))
  {
  }

  lemma ExpNotBelowZero(m: Elementary, a: Double)
    requires ExpNonNegative(m)
    ensures NotBelowZero(Exp(m, a))
  {
    if a.Finite? {
      assert m.exp(a.v) >= 0.0;
    }
  }

  lemma PositiveProduct(a: real, b: real)
    requires a > 0.0 && b > 0.0
    ensures a * b > 0.0
  {
  }

  lemma ScaleNotBelowZero(q: Double, uz: Double, sy: Double, sz: Double)
    requires q.Finite? && q.v >= 0.0
    requires uz.Finite? && uz.v > 0.0 && sy.Finite? && sy.v > 0.0 && sz.Finite? && sz.v > 0.0
    ensures NotBelowZero(Scale(q, uz, sy, sz))
  {
    PositiveProduct(2.0 * Pi, uz.v);
    PositiveProduct(2.0 * Pi * uz.v, sy.v);
    PositiveProduct(2.0 * Pi * uz.v * sy.v, sz.v);
    assert Mul(Mul(Mul(Mul(Finite(2.0), Finite(Pi)), uz), sy), sz) == Finite(2.0 * Pi * uz.v * sy.v * sz.v);
  }

  /** With a non-negative emission, a positive speed and positive sigmas, no concentration is negative. */
  lemma CNonNegative(m: Elementary, x: Double, y: Double, z: Double, uz: Double, q: Double, h: Double,
                     sigY: Double -> Double, sigZ: Double -> Double)
    requires ExpNonNegative(m)
    requires q.Finite? && q.v >= 0.0
    requires uz.Finite? && uz.v > 0.0
    requires sigY(x).Finite? && sigY(x).v > 0.0 && sigZ(x).Finite? && sigZ(x).v > 0.0
    ensures C(m, x, y, z, uz, q, h, sigY, sigZ).v >= 0.0
  {
    if !Le(x, Zero) {
      ConcentrationNonNegative(m, y, z, uz, q, h, sigY(x), sigZ(x));
    }
  }

  lemma ConcentrationNonNegative(m: Elementary, y: Double, z: Double, uz: Double, q: Double, h: Double, sy: Double, sz: Double)
    requires ExpNonNegative(m)
    requires q.Finite? && q.v >= 0.0
    requires uz.Finite? && uz.v > 0.0 && sy.Finite? && sy.v > 0.0 && sz.Finite? && sz.v > 0.0
    ensures Concentration(m, y, z, uz, q, h, sy, sz).v >= 0.0
  {
    ScaleNotBelowZero(q, uz, sy, sz);
    ExpNotBelowZero(m, Div(NegSquare(Sub(z, h)), TwiceSquare(sz)));
    ExpNotBelowZero(m, Div(NegSquare(Add(z, h)), TwiceSquare(sz)));
    ExpNotBelowZero(m, Div(NegSquare(y), TwiceSquare(sy)));
    assert NotBelowZero(Vertical(m, z, h, sz));
    MulNotBelowZero(Scale(q, uz, sy, sz), Vertical(m, z, h, sz));
    MulNotBelowZero(Mul(Scale(q, uz, sy, sz), Vertical(m, z, h, sz)), Crosswind(m, y, sy));
  }

  /** A zero or non-finite speed or sigma gives no concentration at all. */
  lemma CVanishesOnDegenerateInputs(m: Elementary, x: Double, y: Double, z: Double, uz: Double, q: Double, h: Double,
                                    sigY: Double -> Double, sigZ: Double -> Double)
    requires ZeroOrNonFinite(uz) || ZeroOrNonFinite(sigY(x)) || ZeroOrNonFinite(sigZ(x))
    ensures C(m, x, y, z, uz, q, h, sigY, sigZ) == Zero
  {
    if !Le(x, Zero) {
      var sy, sz := sigY(x), sigZ(x);
      var d := Mul(Mul(Mul(Mul(Finite(2.0), Finite(Pi)), uz), sy), sz);
      var d1 := Mul(Mul(Finite(2.0), Finite(Pi)), uz);
      var d2 := Mul(d1, sy);
      if ZeroOrNonFinite(uz) {
        MulDegenerate(Mul(Finite(2.0), Finite(Pi)), uz);
      }
      if ZeroOrNonFinite(d1) || ZeroOrNonFinite(sy) {
        MulDegenerate(d1, sy);
      }
      MulDegenerate(d2, sz);
      DivByDegenerate(q, d);
      ConcentrationOfDegenerateScale(m, y, z, uz, q, h, sy, sz);
    }
  }

  /** A zero or non-finite factor makes a product zero or non-finite. */
  lemma MulDegenerate(a: Double, b: Double)
    requires ZeroOrNonFinite(a) || ZeroOrNonFinite(b)
    ensures ZeroOrNonFinite(Mul(a, b))
  {
  }

  /** Dividing by zero or by a non-finite value gives zero or a non-finite value. */
  lemma DivByDegenerate(a: Double, d: Double)
    requires ZeroOrNonFinite(d)
    ensures ZeroOrNonFinite(Div(a, d))
  {
  }

  /** A zero or non-finite `c1` leaves no concentration. */
  lemma ConcentrationOfDegenerateScale(m: Elementary, y: Double, z: Double, uz: Double, q: Double, h: Double, sy: Double, sz: Double)
    requires ZeroOrNonFinite(Scale(q, uz, sy, sz))
    ensures Concentration(m, y, z, uz, q, h, sy, sz) == Zero
  {
    var s := Scale(q, uz, sy, sz);
    var v, w := Vertical(m, z, h, sz), Crosswind(m, y, sy);
    MulDegenerate(s, v);
    MulDegenerate(Mul(s, v), w);
  }

  /* ---------- plume rise ---------- */

  /** Gravitational acceleration (m/s^2). */
  const G: real := 9.80616

  /** The fixed ambient temperature (K), 20 degrees Celsius. */
  const AmbientTemp: real := 293.15

  /** Buoyancy flux `Fb` of the stack gas. */
  function BuoyancyFlux(vs: Double, ds: Double, ts: Double, ta: Double): Double {
    Div(Mul(Mul(Mul(Mul(Finite(G), vs), ds), ds), Sub(ts, ta)), Mul(Finite(4.0), ts))
  }

  /** Momentum flux `Fm` of the stack gas. */
  function MomentumFlux(vs: Double, ds: Double, ts: Double, ta: Double): Double {
    Div(Mul(Mul(Mul(Mul(vs, vs), ds), ds), ta), Mul(Finite(4.0), ts))
  }

  /** A stack gas at least as warm as the air has a finite, non-negative buoyancy flux. */
  lemma BuoyancyFluxNonNegative(vs: Double, ds: Double, ts: Double, ta: Double)
    requires vs.Finite? && ds.Finite? && ts.Finite? && ta.Finite?
    requires vs.v >= 0.0 && ds.v > 0.0 && ts.v > 0.0 && ts.v >= ta.v
    ensures BuoyancyFlux(vs, ds, ts, ta).Finite? && BuoyancyFlux(vs, ds, ts, ta).v >= 0.0
  {
    MulNonNegative(Finite(G), vs);
    MulNonNegative(Mul(Finite(G), vs), ds);
    MulNonNegative(Mul(Mul(Finite(G), vs), ds), ds);
    assert Sub(ts, ta) == Finite(ts.v - ta.v);
    MulNonNegative(Mul(Mul(Mul(Finite(G), vs), ds), ds), Sub(ts, ta));
    MulNonNegative(Finite(4.0), ts);
    DivNonNegative(Mul(Mul(Mul(Mul(Finite(G), vs), ds), ds), Sub(ts, ta)), Mul(Finite(4.0), ts));
  }

  /** With positive temperatures the momentum flux is finite and non-negative. */
  lemma MomentumFluxNonNegative(vs: Double, ds: Double, ts: Double, ta: Double)
    requires vs.Finite? && ds.Finite? && ts.Finite? && ta.Finite?
    requires vs.v >= 0.0 && ds.v > 0.0 && ts.v > 0.0 && ta.v > 0.0
    ensures MomentumFlux(vs, ds, ts, ta).Finite? && MomentumFlux(vs, ds, ts, ta).v >= 0.0
  {
    MulNonNegative(vs, vs);
    MulNonNegative(Mul(vs, vs), ds);
    MulNonNegative(Mul(Mul(vs, vs), ds), ds);
    MulNonNegative(Mul(Mul(Mul(vs, vs), ds), ds), ta);
    MulNonNegative(Finite(4.0), ts);
    DivNonNegative(Mul(Mul(Mul(Mul(vs, vs), ds), ds), ta), Mul(Finite(4.0), ts));
  }

  /** Which group of Briggs equations applies. */
  datatype Branch = Stable | LowFlux | HighFlux

  /** The branch taken, and whether the plume counts as buoyancy dominated. */
  datatype Regime = Regime(branch: Branch, buoyant: bool)

  /** Rise `dH` (m) and the downwind distance `xf` (m) at which it is reached. */
  datatype Rise = Rise(dH: Double, xf: Double)

  /** The stability parameter `eta` of the stable classes. */
  function Eta(k: StabilityClass): real {
    if k == E then 0.020 else 0.035
  }

  /** The stability term `s = g * eta / Ta`. */
  function StabilityTerm(k: StabilityClass, ta: Double): Double {
    Div(Mul(Finite(G), Finite(Eta(k))), ta)
  }

  /** The branch `k` and the buoyancy flux select. */
  function BranchOf(k: StabilityClass, fb: Double): (b: Branch)
    ensures b == Stable <==> k in {E, F}
    ensures b == LowFlux <==> k !in {E, F} && Lt(fb, Finite(55.0))
  {
    if k == E || k == F then Stable
    else if Lt(fb, Finite(55.0)) then LowFlux
    else HighFlux
  }

  /** The crossover temperature difference `dT` of a branch. */
  function Crossover(m: Elementary, b: Branch, k: StabilityClass, vs: Double, ds: Double, ts: Double, ta: Double): Double {
    match b
    case Stable =>
      Mul(Mul(Mul(Finite(0.019582), ts), vs), Sqrt(m, StabilityTerm(k, ta)))
    case LowFlux =>
      Div(Mul(Mul(Finite(0.0297), ts), Pow(m, vs, 0.333333333333)), Pow(m, ds, 0.666666666667))
    case HighFlux =>
      Div(Mul(Mul(Finite(0.00575), ts), Pow(m, vs, 0.666666666667)), Pow(m, ds, 0.333333333333))
  }

  /** The regime `plumeRise` selects: buoyancy dominated when `Ts - Ta >= dT`. */
  function RegimeOf(m: Elementary, vs: Double, ds: Double, ts: Double, ta: Double, k: StabilityClass): Regime {
    var b := BranchOf(k, BuoyancyFlux(vs, ds, ts, ta));
    Regime(b, Ge(Sub(ts, ta), Crossover(m, b, k, vs, ds, ts, ta)))
  }

  /** The momentum rise `3 ds vs / us` of unstable and neutral air. */
  function JetRise(us: Double, vs: Double, ds: Double): Double {
    Div(Mul(Mul(Finite(3.0), ds), vs), us)
  }

  /** `plumeRise`: Briggs plume rise for stack-tip wind `us`, exit velocity `vs`,
      diameter `ds`, stack temperature `ts` and ambient temperature `ta`. */
  function PlumeRise(m: Elementary, us: Double, vs: Double, ds: Double, ts: Double, ta: Double, k: StabilityClass): Rise {
    var fb := BuoyancyFlux(vs, ds, ts, ta);
    var fm := MomentumFlux(vs, ds, ts, ta);
    var regime := RegimeOf(m, vs, ds, ts, ta, k);
    match regime.branch
    case Stable =>
      var s := StabilityTerm(k, ta);
      if regime.buoyant then
        Rise(Mul(Finite(2.6), Pow(m, Div(fb, Mul(us, s)), 0.333333333333)),
             Div(Mul(Finite(2.0715), us), Sqrt(m, s)))
      else
        Rise(Min(JetRise(us, vs, ds), Mul(Finite(1.5), Pow(m, Div(fm, Mul(us, Sqrt(m, s))), 0.333333333333))),
             Zero)
    case LowFlux =>
      if regime.buoyant then
        Rise(Div(Mul(Finite(21.425), Pow(m, fb, 0.75)), us), Mul(Finite(49.0), Pow(m, fb, 0.625)))
      else
        Rise(JetRise(us, vs, ds), Zero)
    case HighFlux =>
      if regime.buoyant then
        Rise(Div(Mul(Finite(38.71), Pow(m, fb, 0.6)), us), Mul(Finite(119.0), Pow(m, fb, 0.4)))
      else
        Rise(JetRise(us, vs, ds), Zero)
  }

  /** A momentum-dominated plume reaches its rise at the stack: `Xf` is 0. */
  lemma MomentumRiseHasNoOffset(m: Elementary, us: Double, vs: Double, ds: Double, ts: Double, ta: Double, k: StabilityClass)
    requires !RegimeOf(m, vs, ds, ts, ta, k).buoyant
    ensures PlumeRise(m, us, vs, ds, ts, ta, k).xf == Zero
  {
  }

  /** In stable air a momentum plume rises no higher than the neutral jet rise `3 ds vs / us`. */
  lemma StableMomentumRiseBounded(m: Elementary, us: Double, vs: Double, ds: Double, ts: Double, ta: Double, k: StabilityClass)
    requires k in {E, F}
    requires !RegimeOf(m, vs, ds, ts, ta, k).buoyant
    requires !PlumeRise(m, us, vs, ds, ts, ta, k).dH.NaN?
    ensures Le(PlumeRise(m, us, vs, ds, ts, ta, k).dH, JetRise(us, vs, ds))
  {
  }

  /** With a positive ambient temperature the stable-air term `s` is positive. */
  lemma StabilityTermPositive(k: StabilityClass, ta: Double)
    requires ta.Finite? && ta.v > 0.0
    ensures StabilityTerm(k, ta).Finite? && StabilityTerm(k, ta).v > 0.0
  {
    MulNonNegative(Finite(G), Finite(Eta(k)));
    DivNonNegative(Mul(Finite(G), Finite(Eta(k))), ta);
  }

  /** The crossover `dT` is never negative for a physical stack. */
  lemma CrossoverNonNegative(m: Elementary, b: Branch, k: StabilityClass, vs: Double, ds: Double, ts: Double, ta: Double)
    requires PowPositive(m) && SqrtPositive(m)
    requires vs.Finite? && ds.Finite? && ts.Finite? && ta.Finite?
    requires vs.v >= 0.0 && ds.v > 0.0 && ts.v > 0.0 && ta.v > 0.0
    ensures Crossover(m, b, k, vs, ds, ts, ta).Finite? && Crossover(m, b, k, vs, ds, ts, ta).v >= 0.0
  {
    match b
    case Stable =>
      StabilityTermPositive(k, ta);
      SqrtOfPositive(m, StabilityTerm(k, ta));
      MulNonNegative(Finite(0.019582), ts);
      MulNonNegative(Mul(Finite(0.019582), ts), vs);
      MulNonNegative(Mul(Mul(Finite(0.019582), ts), vs), Sqrt(m, StabilityTerm(k, ta)));
    case LowFlux =>
      PowOfNonNegative(m, vs, 0.333333333333);
      PowOfNonNegative(m, ds, 0.666666666667);
      MulNonNegative(Finite(0.0297), ts);
      MulNonNegative(Mul(Finite(0.0297), ts), Pow(m, vs, 0.333333333333));
      DivNonNegative(Mul(Mul(Finite(0.0297), ts), Pow(m, vs, 0.333333333333)), Pow(m, ds, 0.666666666667));
    case HighFlux =>
      PowOfNonNegative(m, vs, 0.666666666667);
      PowOfNonNegative(m, ds, 0.333333333333);
      MulNonNegative(Finite(0.00575), ts);
      MulNonNegative(Mul(Finite(0.00575), ts), Pow(m, vs, 0.666666666667));
      DivNonNegative(Mul(Mul(Finite(0.00575), ts), Pow(m, vs, 0.666666666667)), Pow(m, ds, 0.333333333333));
  }

  /** A stack gas colder than the air is never buoyancy dominated, so its rise has no offset. */
  lemma ColdPlumeIsMomentumDominated(m: Elementary, us: Double, vs: Double, ds: Double, ts: Double, ta: Double, k: StabilityClass)
    requires PowPositive(m) && SqrtPositive(m)
    requires vs.Finite? && ds.Finite? && ts.Finite? && ta.Finite?
    requires vs.v >= 0.0 && ds.v > 0.0 && 0.0 < ts.v < ta.v
    ensures !RegimeOf(m, vs, ds, ts, ta, k).buoyant
    ensures PlumeRise(m, us, vs, ds, ts, ta, k).xf == Zero
  {
    var b := BranchOf(k, BuoyancyFlux(vs, ds, ts, ta));
    CrossoverNonNegative(m, b, k, vs, ds, ts, ta);
    assert Sub(ts, ta) == Finite(ts.v - ta.v);
  }

  /** A buoyancy-dominated plume comes from a gas at least as warm as the air. */
  lemma BuoyantPlumeIsWarm(m: Elementary, vs: Double, ds: Double, ts: Double, ta: Double, k: StabilityClass)
    requires PowPositive(m) && SqrtPositive(m)
    requires vs.Finite? && ds.Finite? && ts.Finite? && ta.Finite?
    requires vs.v >= 0.0 && ds.v > 0.0 && ts.v > 0.0 && ta.v > 0.0
    requires RegimeOf(m, vs, ds, ts, ta, k).buoyant
    ensures ts.v >= ta.v
  {
    if ts.v < ta.v {
      ColdPlumeIsMomentumDominated(m, Zero, vs, ds, ts, ta, k);
      assert false;
    }
  }

  /** The neutral jet rise of a physical stack in a positive wind is finite and non-negative. */
  lemma JetRiseNonNegative(us: Double, vs: Double, ds: Double)
    requires us.Finite? && vs.Finite? && ds.Finite?
    requires us.v > 0.0 && vs.v >= 0.0 && ds.v > 0.0
    ensures JetRise(us, vs, ds).Finite? && JetRise(us, vs, ds).v >= 0.0
  {
    MulNonNegative(Finite(3.0), ds);
    MulNonNegative(Mul(Finite(3.0), ds), vs);
    DivNonNegative(Mul(Mul(Finite(3.0), ds), vs), us);
  }

  /** `c * a^b` is finite and non-negative for non-negative `c` and `a`. */
  lemma ScaledPowNonNegative(m: Elementary, c: real, a: Double, b: real)
    requires PowPositive(m) && FractionalExponent(b)
    requires c >= 0.0 && a.Finite? && a.v >= 0.0
    ensures Mul(Finite(c), Pow(m, a, b)).Finite? && Mul(Finite(c), Pow(m, a, b)).v >= 0.0
  {
    PowOfNonNegative(m, a, b);
    MulNonNegative(Finite(c), Pow(m, a, b));
  }

  /** For a physical stack in a positive wind, the rise and its offset are finite and non-negative. */
  lemma PlumeRiseNonNegative(m: Elementary, us: Double, vs: Double, ds: Double, ts: Double, ta: Double, k: StabilityClass)
    requires PowPositive(m) && SqrtPositive(m)
    requires us.Finite? && vs.Finite? && ds.Finite? && ts.Finite? && ta.Finite?
    requires us.v > 0.0 && vs.v >= 0.0 && ds.v > 0.0 && ts.v > 0.0 && ta.v > 0.0
    ensures PlumeRise(m, us, vs, ds, ts, ta, k).dH.Finite? && PlumeRise(m, us, vs, ds, ts, ta, k).dH.v >= 0.0
    ensures PlumeRise(m, us, vs, ds, ts, ta, k).xf.Finite? && PlumeRise(m, us, vs, ds, ts, ta, k).xf.v >= 0.0
  {
    var fb := BuoyancyFlux(vs, ds, ts, ta);
    var fm := MomentumFlux(vs, ds, ts, ta);
    var regime := RegimeOf(m, vs, ds, ts, ta, k);
    MomentumFluxNonNegative(vs, ds, ts, ta);
    JetRiseNonNegative(us, vs, ds);
    if regime.buoyant {
      BuoyantPlumeIsWarm(m, vs, ds, ts, ta, k);
      BuoyancyFluxNonNegative(vs, ds, ts, ta);
    }
    match regime.branch
    case Stable =>
      var s := StabilityTerm(k, ta);
      StabilityTermPositive(k, ta);
      SqrtOfPositive(m, s);
      if regime.buoyant {
        MulNonNegative(us, s);
        DivNonNegative(fb, Mul(us, s));
        ScaledPowNonNegative(m, 2.6, Div(fb, Mul(us, s)), 0.333333333333);
        MulNonNegative(Finite(2.0715), us);
        DivNonNegative(Mul(Finite(2.0715), us), Sqrt(m, s));
      } else {
        MulNonNegative(us, Sqrt(m, s));
        DivNonNegative(fm, Mul(us, Sqrt(m, s)));
        ScaledPowNonNegative(m, 1.5, Div(fm, Mul(us, Sqrt(m, s))), 0.333333333333);
      }
    case LowFlux =>
      if regime.buoyant {
        ScaledPowNonNegative(m, 21.425, fb, 0.75);
        DivNonNegative(Mul(Finite(21.425), Pow(m, fb, 0.75)), us);
        ScaledPowNonNegative(m, 49.0, fb, 0.625);
      }
    case HighFlux =>
      if regime.buoyant {
        ScaledPowNonNegative(m, 38.71, fb, 0.6);
        DivNonNegative(Mul(Finite(38.71), Pow(m, fb, 0.6)), us);
        ScaledPowNonNegative(m, 119.0, fb, 0.4);
      }
  }
}
