/** Pasquill-Gifford dispersion coefficients and the power-law wind profile
    (rsdm/disperse.js): sigma-y as a closed form per stability class, sigma-z
    as a chain of distance bands per class, and the wind-speed extrapolation
    with its (roughness, class) exponent table. Distances are in km. */
module Stability {
  import opened Js

  datatype StabilityClass = A | B | C | D | E | F

  datatype Roughness = Urban | Rural

  /** Position of a class from most unstable (A) to most stable (F). */
  function Order(k: StabilityClass): nat {
    match k
    case A => 0
    case B => 1
    case C => 2
    case D => 3
    case E => 4
    case F => 5
  }

  /* ---------- sigma-y ---------- */

  datatype SigmaYConstants = SigmaYConstants(c: real, d: real)

  /** The (c, d) constants of the class's sigma-y curve. */
  function SigmaYTable(k: StabilityClass): (p: SigmaYConstants)
    ensures 0.0 < p.d < p.c
  {
    match k
    case A => SigmaYConstants(24.1670, 2.5334)
    case B => SigmaYConstants(18.3330, 1.8096)
    case C => SigmaYConstants(12.5000, 1.0857)
    case D => SigmaYConstants(8.3330, 0.72382)
    case E => SigmaYConstants(6.2500, 0.54287)
    case F => SigmaYConstants(4.1667, 0.36191)
  }

  /** The class at a position 0..5 of A..F. */
  function ClassAt(i: nat): (k: StabilityClass)
    requires i < 6
    ensures Order(k) == i
  {
    [A, B, C, D, E, F][i]
  }

  /** Both sigma-y constants shrink from class A to class F: the more stable the
      air, the narrower the plume's opening angle. */
  lemma SigmaYConstantsShrinkWithStability(k1: StabilityClass, k2: StabilityClass)
    requires Order(k1) < Order(k2)
    ensures SigmaYTable(k2).c < SigmaYTable(k1).c
    ensures SigmaYTable(k2).d < SigmaYTable(k1).d
  {
  }

  /** Horizontal spread `465.11628 x tan(0.017453293 (c - d ln x))` in m at `x` km.
      Finite exactly for positive finite distances; NaN everywhere else. */
  function SigmaY(m: Elementary, k: StabilityClass, x: Double): (r: Double)
    ensures r.Finite? <==> x.Finite? && x.v > 0.0
    ensures !r.Finite? ==> r.NaN?
  {
    var p := SigmaYTable(k);
    var theta := Mul(Finite(0.017453293), Sub(Finite(p.c), Mul(Finite(p.d), Ln(m, x))));
    Mul(Mul(Finite(465.11628), x), Tan(m, theta))
  }

  /* ---------- sigma-z, as the source writes it ---------- */

  /** `a * Math.pow(x, b)`. */
  function PowerLaw(m: Elementary, a: real, b: real, x: Double): (r: Double)
    requires FractionalExponent(b)
    ensures r.Finite? <==> x.Finite? && x.v >= 0.0
    ensures x == Zero ==> r == Zero
  {
    Mul(Finite(a), Pow(m, x, b))
  }

  /** The mixing-layer cap of classes A, B and C. */
  function Cap(sz: Double): (r: Double)
    ensures r.NaN? || Le(r, Finite(5000.0))
    ensures Le(sz, Finite(5000.0)) || sz.NaN? ==> r == sz
  {
    if Gt(sz, Finite(5000.0)) then Finite(5000.0) else sz
  }

  function SigmaZA(m: Elementary, x: Double): Double {
    var sz :=
      if Le(x, Finite(0.10)) then PowerLaw(m, 122.800, 0.94470, x)
      else if Le(x, Finite(0.15)) then PowerLaw(m, 158.080, 1.05420, x)
      else if Le(x, Finite(0.20)) then PowerLaw(m, 170.220, 1.09320, x)
      else if Le(x, Finite(0.25)) then PowerLaw(m, 179.520, 1.12620, x)
      else if Le(x, Finite(0.30)) then PowerLaw(m, 217.410, 1.26440, x)
      else if Le(x, Finite(0.40)) then PowerLaw(m, 258.890, 1.40940, x)
      else if Le(x, Finite(0.50)) then PowerLaw(m, 346.750, 1.72830, x)
      else if Le(x, Finite(3.11)) then PowerLaw(m, 453.850, 2.11660, x)
      else Finite(5000.0);
    Cap(sz)
  }

  function SigmaZB(m: Elementary, x: Double): Double {
    var sz :=
      if Le(x, Finite(0.20)) then PowerLaw(m, 90.673, 0.93198, x)
      else if Le(x, Finite(0.40)) then PowerLaw(m, 98.483, 0.98332, x)
      else PowerLaw(m, 109.300, 1.09710, x);
    Cap(sz)
  }

  function SigmaZC(m: Elementary, x: Double): Double {
    Cap(PowerLaw(m, 61.141, 0.91465, x))
  }

  function SigmaZD(m: Elementary, x: Double): Double {
    if Le(x, Finite(0.30)) then PowerLaw(m, 34.459, 0.86974, x)
    else if Le(x, Finite(1.00)) then PowerLaw(m, 32.093, 0.81066, x)
    else if Le(x, Finite(3.00)) then PowerLaw(m, 32.093, 0.64403, x)
    else if Le(x, Finite(10.00)) then PowerLaw(m, 33.504, 0.60486, x)
    else if Le(x, Finite(30.00)) then PowerLaw(m, 36.650, 0.56589, x)
    else PowerLaw(m, 44.053, 0.51179, x)
  }

  function SigmaZE(m: Elementary, x: Double): Double {
    if Le(x, Finite(0.10)) then PowerLaw(m, 24.260, 0.83660, x)
    else if Le(x, Finite(0.30)) then PowerLaw(m, 23.331, 0.81956, x)
    else if Le(x, Finite(1.00)) then PowerLaw(m, 21.628, 0.75660, x)
    else if Le(x, Finite(2.00)) then PowerLaw(m, 21.628, 0.63077, x)
    else if Le(x, Finite(4.00)) then PowerLaw(m, 22.534, 0.57154, x)
    else if Le(x, Finite(10.00)) then PowerLaw(m, 24.703, 0.50527, x)
    else if Le(x, Finite(20.00)) then PowerLaw(m, 26.970, 0.46713, x)
    else if Le(x, Finite(40.00)) then PowerLaw(m, 35.420, 0.37615, x)
    else PowerLaw(m, 47.618, 0.29592, x)
  }

  function SigmaZF(m: Elementary, x: Double): Double {
    if Le(x, Finite(0.20)) then PowerLaw(m, 15.209, 0.81558, x)
    else if Le(x, Finite(0.70)) then PowerLaw(m, 14.457, 0.78407, x)
    else if Le(x, Finite(1.00)) then PowerLaw(m, 13.953, 0.68465, x)
    else if Le(x, Finite(2.00)) then PowerLaw(m, 13.953, 0.63227, x)
    else if Le(x, Finite(3.00)) then PowerLaw(m, 14.823, 0.54503, x)
    else if Le(x, Finite(7.00)) then PowerLaw(m, 16.187, 0.46490, x)
    else if Le(x, Finite(15.00)) then PowerLaw(m, 17.836, 0.41507, x)
    else if Le(x, Finite(30.00)) then PowerLaw(m, 22.651, 0.32681, x)
    else if Le(x, Finite(60.00)) then PowerLaw(m, 27.074, 0.27436, x)
    else PowerLaw(m, 34.219, 0.21716, x)
  }

  /** Vertical spread in m at `x` km: the `SigmaZ` dispatch table. */
  function SigmaZ(m: Elementary, k: StabilityClass, x: Double): (r: Double)
    ensures k in {A, B, C} ==> r.NaN? || Le(r, Finite(5000.0))
    ensures k == A && Gt(x, Finite(3.11)) ==> r == Finite(5000.0)
    ensures x.Finite? && x.v < 0.0 ==> r.NaN?
    ensures x == Zero ==> r == Zero
    ensures x.Finite? && x.v >= 0.0 ==> r.Finite?
  {
    match k
    case A => SigmaZA(m, x)
    case B => SigmaZB(m, x)
    case C => SigmaZC(m, x)
    case D => SigmaZD(m, x)
    case E => SigmaZE(m, x)
    case F => SigmaZF(m, x)
  }

  /* ---------- sigma-z, as a table of bands ---------- */

  /** One fitted curve: `a x^b`, or the literal 5000 m class A uses beyond 3.11 km. */
  datatype Fit = Power(a: real, b: real) | Ceiling

  /** A band applies up to and including `upper` km. */
  datatype Band = Band(upper: real, fit: Fit)

  /** Bands in order, the fit used past the last band, and whether the 5000 m cap applies. */
  datatype Curve = Curve(bands: seq<Band>, beyond: Fit, capped: bool)

  predicate ValidFit(f: Fit) {
    f.Power? ==> 0.0 < f.a && FractionalExponent(f.b)
  }

  /** Each bound exceeds the one before it. */
  predicate Ascending(bands: seq<Band>) {
    forall i :: 0 < i < |bands| ==> bands[i - 1].upper < bands[i].upper
  }

  predicate WellFormed(c: Curve) {
    && Ascending(c.bands)
    && (forall i :: 0 <= i < |c.bands| ==> ValidFit(c.bands[i].fit))
    && ValidFit(c.beyond)
  }

  /** The published band table of each class. */
  function CurveOf(k: StabilityClass): (c: Curve)
    ensures WellFormed(c)
    ensures c.capped <==> k in {A, B, C}
    ensures c.beyond.Ceiling? <==> k == A
  {
    match k
    case A => CurveA()
    case B => CurveB()
    case C => CurveC()
    case D => CurveD()
    case E => CurveE()
    case F => CurveF()
  }

  function CurveA(): (c: Curve)
    ensures WellFormed(c)
  {
    Curve([Band(0.10, Power(122.800, 0.94470)), Band(0.15, Power(158.080, 1.05420)),
           Band(0.20, Power(170.220, 1.09320)), Band(0.25, Power(179.520, 1.12620)),
           Band(0.30, Power(217.410, 1.26440)), Band(0.40, Power(258.890, 1.40940)),
           Band(0.50, Power(346.750, 1.72830)), Band(3.11, Power(453.850, 2.11660))],
          Ceiling, true)
  }

  function CurveB(): (c: Curve)
    ensures WellFormed(c)
  {
    Curve([Band(0.20, Power(90.673, 0.93198)), Band(0.40, Power(98.483, 0.98332))],
          Power(109.300, 1.09710), true)
  }

  function CurveC(): (c: Curve)
    ensures WellFormed(c)
  {
    Curve([], Power(61.141, 0.91465), true)
  }

  function CurveD(): (c: Curve)
    ensures WellFormed(c)
  {
    Curve([Band(0.30, Power(34.459, 0.86974)), Band(1.00, Power(32.093, 0.81066)),
           Band(3.00, Power(32.093, 0.64403)), Band(10.00, Power(33.504, 0.60486)),
           Band(30.00, Power(36.650, 0.56589))],
          Power(44.053, 0.51179), false)
  }

  function CurveE(): (c: Curve)
    ensures WellFormed(c)
  {
    Curve([Band(0.10, Power(24.260, 0.83660)), Band(0.30, Power(23.331, 0.81956)),
           Band(1.00, Power(21.628, 0.75660)), Band(2.00, Power(21.628, 0.63077)),
           Band(4.00, Power(22.534, 0.57154)), Band(10.00, Power(24.703, 0.50527)),
           Band(20.00, Power(26.970, 0.46713)), Band(40.00, Power(35.420, 0.37615))],
          Power(47.618, 0.29592), false)
  }

  function CurveF(): (c: Curve)
    ensures WellFormed(c)
  {
    Curve([Band(0.20, Power(15.209, 0.81558)), Band(0.70, Power(14.457, 0.78407)),
           Band(1.00, Power(13.953, 0.68465)), Band(2.00, Power(13.953, 0.63227)),
           Band(3.00, Power(14.823, 0.54503)), Band(7.00, Power(16.187, 0.46490)),
           Band(15.00, Power(17.836, 0.41507)), Band(30.00, Power(22.651, 0.32681)),
           Band(60.00, Power(27.074, 0.27436))],
          Power(34.219, 0.21716), false)
  }

  /** Index of the first band whose upper bound is at least `x`, or `|bands|` if none is. */
  function BandIndex(bands: seq<Band>, x: Double): (i: nat)
    ensures i <= |bands|
    ensures forall j :: 0 <= j < i ==> !Le(x, Finite(bands[j].upper))
    ensures i < |bands| ==> Le(x, Finite(bands[i].upper))
  {
    if |bands| == 0 then 0
    else if Le(x, Finite(bands[0].upper)) then 0
    else 1 + BandIndex(bands[1..], x)
  }

  function SelectFit(c: Curve, x: Double): (f: Fit)
    requires WellFormed(c)
    ensures ValidFit(f)
  {
    var i := BandIndex(c.bands, x);
    if i < |c.bands| then c.bands[i].fit else c.beyond
  }

  function EvalFit(m: Elementary, f: Fit, x: Double): Double
    requires ValidFit(f)
  {
    match f
    case Power(a, b) => PowerLaw(m, a, b, x)
    case Ceiling => Finite(5000.0)
  }

  /** Sigma-z read off a band table. */
  function EvalCurve(m: Elementary, c: Curve, x: Double): Double
    requires WellFormed(c)
  {
    var sz := EvalFit(m, SelectFit(c, x), x);
    if c.capped then Cap(sz) else sz
  }

  /** Ascending bounds increase strictly between any two bands, not just neighbours. */
  lemma {:induction false} AscendingIsStrict(bands: seq<Band>, i: nat, j: nat)
    requires Ascending(bands)
    requires i < j < |bands|
    ensures bands[i].upper < bands[j].upper
    decreases j - i
  {
    if i + 1 < j {
      AscendingIsStrict(bands, i, j - 1);
    }
  }

  /** Exactly one band applies to each distance: band `i` is chosen precisely when
      `x` is not within the previous bound and is within its own (NaN and +Infinity
      fall past every band, -Infinity into the first). */
  lemma BandChoiceIsUnique(bands: seq<Band>, x: Double, i: nat)
    requires Ascending(bands)
    requires i <= |bands|
    ensures i == BandIndex(bands, x) <==>
              (i == 0 || !Le(x, Finite(bands[i - 1].upper))) && (i == |bands| || Le(x, Finite(bands[i].upper)))
  {
    var k := BandIndex(bands, x);
    if (i == 0 || !Le(x, Finite(bands[i - 1].upper))) && (i == |bands| || Le(x, Finite(bands[i].upper))) {
      if k < i {
        if k < i - 1 {
          AscendingIsStrict(bands, k, i - 1);
        }
        assert Le(x, Finite(bands[i - 1].upper));
        assert false;
      }
    }
  }

  /** The band whose bounds enclose `x` is the one chosen. */
  lemma SelectsBand(bands: seq<Band>, x: Double, i: nat)
    requires Ascending(bands)
    requires i <= |bands|
    requires i == 0 || !Le(x, Finite(bands[i - 1].upper))
    requires i == |bands| || Le(x, Finite(bands[i].upper))
    ensures BandIndex(bands, x) == i
  {
    BandChoiceIsUnique(bands, x, i);
  }

  lemma SigmaZAMatchesTable(m: Elementary, x: Double)
    ensures SigmaZA(m, x) == EvalCurve(m, CurveA(), x)
  {
    var bs := CurveA().bands;
    match x
    case Finite(v) =>
      if v <= 0.20 {
        SigmaZABands0To2(m, v);
      } else if v <= 0.40 {
        SigmaZABands3To5(m, v);
      } else {
        SigmaZABands6To8(m, v);
      }
    case NegInf =>
      SelectsBand(bs, x, 0);
    case _ =>
      SelectsBand(bs, x, 8);
  }

  lemma SigmaZABands0To2(m: Elementary, v: real)
    requires v <= 0.20
    ensures SigmaZA(m, Finite(v)) == EvalCurve(m, CurveA(), Finite(v))
  {
    var bs := CurveA().bands;
    if v <= 0.10 {
      SelectsBand(bs, Finite(v), 0);
    } else if v <= 0.15 {
      SelectsBand(bs, Finite(v), 1);
    } else {
      SelectsBand(bs, Finite(v), 2);
    }
  }

  lemma SigmaZABands3To5(m: Elementary, v: real)
    requires 0.20 < v <= 0.40
    ensures SigmaZA(m, Finite(v)) == EvalCurve(m, CurveA(), Finite(v))
  {
    var bs := CurveA().bands;
    if v <= 0.25 {
      SelectsBand(bs, Finite(v), 3);
    } else if v <= 0.30 {
      SelectsBand(bs, Finite(v), 4);
    } else {
      SelectsBand(bs, Finite(v), 5);
    }
  }

  lemma SigmaZABands6To8(m: Elementary, v: real)
    requires 0.40 < v
    ensures SigmaZA(m, Finite(v)) == EvalCurve(m, CurveA(), Finite(v))
  {
    var bs := CurveA().bands;
    if v <= 0.50 {
      SelectsBand(bs, Finite(v), 6);
    } else if v <= 3.11 {
      SelectsBand(bs, Finite(v), 7);
    } else {
      SelectsBand(bs, Finite(v), 8);
    }
  }

  lemma SigmaZBMatchesTable(m: Elementary, x: Double)
    ensures SigmaZB(m, x) == EvalCurve(m, CurveB(), x)
  {
    var bs := CurveB().bands;
    match x
    case Finite(v) =>
      if v <= 0.20 {
        SelectsBand(bs, x, 0);
      } else if v <= 0.40 {
        SelectsBand(bs, x, 1);
      } else {
        SelectsBand(bs, x, 2);
      }
    case NegInf =>
      SelectsBand(bs, x, 0);
    case _ =>
      SelectsBand(bs, x, 2);
  }

  lemma SigmaZDMatchesTable(m: Elementary, x: Double)
    ensures SigmaZD(m, x) == EvalCurve(m, CurveD(), x)
  {
    var bs := CurveD().bands;
    match x
    case Finite(v) =>
      if v <= 3.00 {
        SigmaZDBands0To2(m, v);
      } else {
        SigmaZDBands3To5(m, v);
      }
    case NegInf =>
      SelectsBand(bs, x, 0);
    case _ =>
      SelectsBand(bs, x, 5);
  }

  lemma SigmaZDBands0To2(m: Elementary, v: real)
    requires v <= 3.00
    ensures SigmaZD(m, Finite(v)) == EvalCurve(m, CurveD(), Finite(v))
  {
    var bs := CurveD().bands;
    if v <= 0.30 {
      SelectsBand(bs, Finite(v), 0);
    } else if v <= 1.00 {
      SelectsBand(bs, Finite(v), 1);
    } else {
      SelectsBand(bs, Finite(v), 2);
    }
  }

  lemma SigmaZDBands3To5(m: Elementary, v: real)
    requires 3.00 < v
    ensures SigmaZD(m, Finite(v)) == EvalCurve(m, CurveD(), Finite(v))
  {
    var bs := CurveD().bands;
    if v <= 10.00 {
      SelectsBand(bs, Finite(v), 3);
    } else if v <= 30.00 {
      SelectsBand(bs, Finite(v), 4);
    } else {
      SelectsBand(bs, Finite(v), 5);
    }
  }

  lemma SigmaZEMatchesTable(m: Elementary, x: Double)
    ensures SigmaZE(m, x) == EvalCurve(m, CurveE(), x)
  {
    var bs := CurveE().bands;
    match x
    case Finite(v) =>
      if v <= 1.00 {
        SigmaZEBands0To2(m, v);
      } else if v <= 10.00 {
        SigmaZEBands3To5(m, v);
      } else {
        SigmaZEBands6To8(m, v);
      }
    case NegInf =>
      SelectsBand(bs, x, 0);
    case _ =>
      SelectsBand(bs, x, 8);
  }

  lemma SigmaZEBands0To2(m: Elementary, v: real)
    requires v <= 1.00
    ensures SigmaZE(m, Finite(v)) == EvalCurve(m, CurveE(), Finite(v))
  {
    var bs := CurveE().bands;
    if v <= 0.10 {
      SelectsBand(bs, Finite(v), 0);
    } else if v <= 0.30 {
      SelectsBand(bs, Finite(v), 1);
    } else {
      SelectsBand(bs, Finite(v), 2);
    }
  }

  lemma SigmaZEBands3To5(m: Elementary, v: real)
    requires 1.00 < v <= 10.00
    ensures SigmaZE(m, Finite(v)) == EvalCurve(m, CurveE(), Finite(v))
  {
    var bs := CurveE().bands;
    if v <= 2.00 {
      SelectsBand(bs, Finite(v), 3);
    } else if v <= 4.00 {
      SelectsBand(bs, Finite(v), 4);
    } else {
      SelectsBand(bs, Finite(v), 5);
    }
  }

  lemma SigmaZEBands6To8(m: Elementary, v: real)
    requires 10.00 < v
    ensures SigmaZE(m, Finite(v)) == EvalCurve(m, CurveE(), Finite(v))
  {
    var bs := CurveE().bands;
    if v <= 20.00 {
      SelectsBand(bs, Finite(v), 6);
    } else if v <= 40.00 {
      SelectsBand(bs, Finite(v), 7);
    } else {
      SelectsBand(bs, Finite(v), 8);
    }
  }

  lemma SigmaZFMatchesTable(m: Elementary, x: Double)
    ensures SigmaZF(m, x) == EvalCurve(m, CurveF(), x)
  {
    var bs := CurveF().bands;
    match x
    case Finite(v) =>
      if v <= 1.00 {
        SigmaZFBands0To2(m, v);
      } else if v <= 7.00 {
        SigmaZFBands3To5(m, v);
      } else {
        SigmaZFBands6To9(m, v);
      }
    case NegInf =>
      SelectsBand(bs, x, 0);
    case _ =>
      SelectsBand(bs, x, 9);
  }

  lemma SigmaZFBands0To2(m: Elementary, v: real)
    requires v <= 1.00
    ensures SigmaZF(m, Finite(v)) == EvalCurve(m, CurveF(), Finite(v))
  {
    var bs := CurveF().bands;
    if v <= 0.20 {
      SelectsBand(bs, Finite(v), 0);
    } else if v <= 0.70 {
      SelectsBand(bs, Finite(v), 1);
    } else {
      SelectsBand(bs, Finite(v), 2);
    }
  }

  lemma SigmaZFBands3To5(m: Elementary, v: real)
    requires 1.00 < v <= 7.00
    ensures SigmaZF(m, Finite(v)) == EvalCurve(m, CurveF(), Finite(v))
  {
    var bs := CurveF().bands;
    if v <= 2.00 {
      SelectsBand(bs, Finite(v), 3);
    } else if v <= 3.00 {
      SelectsBand(bs, Finite(v), 4);
    } else {
      SelectsBand(bs, Finite(v), 5);
    }
  }

  lemma SigmaZFBands6To9(m: Elementary, v: real)
    requires 7.00 < v
    ensures SigmaZF(m, Finite(v)) == EvalCurve(m, CurveF(), Finite(v))
  {
    var bs := CurveF().bands;
    if v <= 15.00 {
      SelectsBand(bs, Finite(v), 6);
    } else if v <= 30.00 {
      SelectsBand(bs, Finite(v), 7);
    } else if v <= 60.00 {
      SelectsBand(bs, Finite(v), 8);
    } else {
      SelectsBand(bs, Finite(v), 9);
    }
  }

  /** The if-else chains of the source select the same fit as the band tables. */
  lemma SigmaZMatchesTable(m: Elementary, k: StabilityClass, x: Double)
    ensures SigmaZ(m, k, x) == EvalCurve(m, CurveOf(k), x)
  {
    match k {
      case A => SigmaZAMatchesTable(m, x);
      case B => SigmaZBMatchesTable(m, x);
      case C =>
      case D => SigmaZDMatchesTable(m, x);
      case E => SigmaZEMatchesTable(m, x);
      case F => SigmaZFMatchesTable(m, x);
    }
  }

  /** Classes D, E and F have no cap: past the last band their value is the bare power law. */
  lemma StableClassesUncapped(m: Elementary, k: StabilityClass, x: Double)
    requires k in {D, E, F}
    ensures SigmaZ(m, k, x) == EvalFit(m, SelectFit(CurveOf(k), x), x)
  {
    SigmaZMatchesTable(m, k, x);
  }

  /** Sigma-z is positive at every positive finite distance. */
  lemma SigmaZPositive(m: Elementary, k: StabilityClass, x: Double)
    requires PowPositive(m)
    requires x.Finite? && x.v > 0.0
    ensures SigmaZ(m, k, x).Finite? && SigmaZ(m, k, x).v > 0.0
  {
    SigmaZMatchesTable(m, k, x);
    EvalCurvePositive(m, CurveOf(k), x);
  }

  /** Every well-formed band table gives a positive spread at a positive distance. */
  lemma EvalCurvePositive(m: Elementary, c: Curve, x: Double)
    requires PowPositive(m) && WellFormed(c)
    requires x.Finite? && x.v > 0.0
    ensures EvalCurve(m, c, x).Finite? && EvalCurve(m, c, x).v > 0.0
  {
    var f := SelectFit(c, x);
    if f.Power? {
      assert m.pow(x.v, f.b) > 0.0;
    }
  }

  /* ---------- wind profile ---------- */

  /** The wind-profile exponent `p` of a roughness profile and class. */
  function WindExponent(rough: Roughness, k: StabilityClass): (p: real)
    ensures FractionalExponent(p) && p < 1.0
  {
    match rough
    case Urban =>
      (match k case A => 0.15 case B => 0.15 case C => 0.20 case D => 0.25 case E => 0.30 case F => 0.30)
    case Rural =>
      (match k case A => 0.07 case B => 0.07 case C => 0.10 case D => 0.15 case E => 0.35 case F => 0.55)
  }

  /** Within a profile the exponent never decreases from unstable to stable classes. */
  lemma WindExponentGrowsWithStability(rough: Roughness, k1: StabilityClass, k2: StabilityClass)
    requires Order(k1) <= Order(k2)
    ensures WindExponent(rough, k1) <= WindExponent(rough, k2)
  {
  }

  /** `CalcUz`: speed at height `z` from the speed `uzref` measured at `zref`. */
  function CalcUz(m: Elementary, uzref: Double, z: Double, zref: Double, k: StabilityClass, rough: Roughness): (uz: Double)
    ensures uz.Finite? ==> uzref.Finite? && Div(z, zref).Finite? && Div(z, zref).v >= 0.0
  {
    Mul(uzref, Pow(m, Div(z, zref), WindExponent(rough, k)))
  }

  /** At the reference height the profile returns the measured speed. */
  lemma CalcUzAtReference(m: Elementary, uzref: Double, zref: Double, k: StabilityClass, rough: Roughness)
    requires PowOfOne(m)
    requires uzref.Finite? && zref.Finite? && zref.v != 0.0
    ensures CalcUz(m, uzref, zref, zref, k, rough) == uzref
  {
    DivOfFinite(zref.v, zref.v);
    assert zref.v / zref.v == 1.0;
  }

  /** A positive measured speed extrapolates to a positive finite speed at any positive height. */
  lemma CalcUzPositive(m: Elementary, uzref: Double, z: Double, zref: Double, k: StabilityClass, rough: Roughness)
    requires PowPositive(m)
    requires uzref.Finite? && uzref.v > 0.0 && z.Finite? && z.v > 0.0 && zref.Finite? && zref.v > 0.0
    ensures CalcUz(m, uzref, z, zref, k, rough).Finite?
    ensures CalcUz(m, uzref, z, zref, k, rough).v > 0.0
  {
    var p := WindExponent(rough, k);
    assert m.pow(z.v / zref.v, p) > 0.0;
  }

  /** Speed does not decrease with height. */
  lemma CalcUzMonotone(m: Elementary, uzref: Double, z1: Double, z2: Double, zref: Double, k: StabilityClass, rough: Roughness)
    requires PowMonotone(m)
    requires uzref.Finite? && uzref.v >= 0.0 && zref.Finite? && zref.v > 0.0
    requires z1.Finite? && z2.Finite? && 0.0 < z1.v <= z2.v
    ensures Le(CalcUz(m, uzref, z1, zref, k, rough), CalcUz(m, uzref, z2, zref, k, rough))
  {
    var p := WindExponent(rough, k);
    var r1, r2 := z1.v / zref.v, z2.v / zref.v;
    DivideByPositive(z1.v, z2.v, zref.v);
    CalcUzOnPositiveRatio(m, uzref, z1, zref, k, rough, r1);
    CalcUzOnPositiveRatio(m, uzref, z2, zref, k, rough, r2);
    ScaledPowOrdered(m, uzref.v, r1, r2, p);
  }

  lemma ScaledPowOrdered(m: Elementary, c: real, r1: real, r2: real, p: real)
    requires PowMonotone(m)
    requires 0.0 <= c && 0.0 < r1 <= r2 && 0.0 < p
    ensures Le(Finite(c * m.pow(r1, p)), Finite(c * m.pow(r2, p)))
  {
    var a, b := m.pow(r1, p), m.pow(r2, p);
    assert a <= b;
    ScaleByNonNegative(c, a, b);
  }

  lemma CalcUzOnPositiveRatio(m: Elementary, uzref: Double, z: Double, zref: Double, k: StabilityClass, rough: Roughness, r: real)
    requires uzref.Finite? && z.Finite? && zref.Finite? && z.v > 0.0 && zref.v > 0.0 && r == z.v / zref.v
    ensures CalcUz(m, uzref, z, zref, k, rough) == Finite(uzref.v * m.pow(r, WindExponent(rough, k)))
  {
    assert r > 0.0;
    assert Div(z, zref) == Finite(r);
  }

  lemma DivideByPositive(a: real, b: real, d: real)
    requires 0.0 < a <= b && 0.0 < d
    ensures 0.0 < a / d <= b / d
  {
  }

  lemma ScaleByNonNegative(c: real, a: real, b: real)
    requires 0.0 <= c && a <= b
    ensures c * a <= c * b
  {
  }
}
