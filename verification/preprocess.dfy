/** Meteorological pre-processing: the hourly met record and `GenMET`, which
    either repeats the user's conditions for one hour or draws random hours. */
module Preprocess {
  import opened Js
  import opened Stability

  /** One hour of meteorology: the weight divisor `Hours`, the 10 m wind speed
      `U` (m/s), the wind direction `PHI` (radians) and the stability class. */
  datatype HourMet = HourMet(hours: real, u: real, phi: real, pgcat: StabilityClass)

  /** A value returned by `Math.random`: a number in [0, 1). */
  type Draw = r: real | 0.0 <= r < 1.0

  /** The successive values `Math.random` returns; call `i` gets `random(i)`. */
  type RandomStream = nat -> Draw

  /** `getRandomInt(max)` when `Math.random()` returned `u`: `floor(u * floor(max))`. */
  function RandomInt(u: Draw, max: nat): (n: nat)
    ensures max > 0 ==> n < max
    ensures max == 0 ==> n == 0
  {
    var f := u * max as real;
    ScaleBelowOne(u, max as real);
    assert 0.0 <= f && (max > 0 ==> f < max as real);
    f.Floor
  }

  lemma ScaleBelowOne(u: real, a: real)
    requires 0.0 <= u < 1.0 && 0.0 <= a
    ensures 0.0 <= u * a <= a
    ensures a > 0.0 ==> u * a < a
  {
  }

  /** The draws that give `n` are exactly those in [n / max, (n + 1) / max): every
      outcome in 0..max-1 takes an equal share of [0, 1). */
  lemma RandomIntPreimage(u: Draw, max: nat, n: nat)
    requires max > 0
    ensures RandomInt(u, max) == n <==> n as real / max as real <= u < (n + 1) as real / max as real
  {
    var a := max as real;
    var f := u * a;
    assert RandomInt(u, max) == n <==> n as real <= f < (n + 1) as real;
    ScaledBound(n as real, u, a);
    ScaledBound((n + 1) as real, u, a);
  }

  /** Comparing `u * a` with `c` is comparing `u` with `c / a`, for positive `a`. */
  lemma ScaledBound(c: real, u: real, a: real)
    requires a > 0.0
    ensures c <= u * a <==> c / a <= u
    ensures u * a < c <==> u < c / a
  {
    assert c / a * a == c;
    if c <= u * a {
      DivideOrdered(c, u * a, a);
    }
    if c / a <= u {
      MultiplyOrdered(c / a, u, a);
    }
    if u * a < c {
      DivideStrictlyOrdered(u * a, c, a);
    }
    if u < c / a {
      MultiplyStrictlyOrdered(u, c / a, a);
    }
  }

  lemma DivideOrdered(a: real, b: real, d: real)
    requires a <= b && d > 0.0
    ensures a / d <= b / d
  {
  }

  lemma DivideStrictlyOrdered(a: real, b: real, d: real)
    requires a < b && d > 0.0
    ensures a / d < b / d
  {
  }

  lemma MultiplyOrdered(a: real, b: real, d: real)
    requires a <= b && d > 0.0
    ensures a * d <= b * d
  {
  }

  lemma MultiplyStrictlyOrdered(a: real, b: real, d: real)
    requires a < b && d > 0.0
    ensures a * d < b * d
  {
  }

  /** The number of passes of `for (h = 0; h < hours; h++)`: `ceil(hours)` for positive `hours`. */
  function HourCount(hours: real): nat {
    if hours <= 0.0 then 0 else -((-hours).Floor)
  }

  /** Pass `h` of the hour loop happens exactly when `h < hours`. */
  lemma HourCountCountsPasses(hours: real, h: nat)
    ensures h < HourCount(hours) <==> (h as real) < hours
  {
  }

  /** Degrees to radians, `deg * Math.PI / 180`. */
  function Radians(deg: real): real {
    deg * Pi / 180.0
  }

  /** Radians back to degrees. */
  function Degrees(rad: real): real {
    rad * 180.0 / Pi
  }

  lemma DegreesOfRadians(deg: real)
    ensures Degrees(Radians(deg)) == deg
  {
  }

  /** Random hour `h` of a `hours`-hour run: three draws per hour, for the
      direction in whole degrees 0..359, the speed in whole m/s 1..50 and the class. */
  function RandomHour(hours: real, random: RandomStream, h: nat): HourMet {
    var wdir := RandomInt(random(3 * h), 360);
    var wspd := RandomInt(random(3 * h + 1), 50) + 1;
    var k := ClassAt(RandomInt(random(3 * h + 2), 6));
    HourMet(hours, wspd as real, Radians(wdir as real), k)
  }

  /** `GenMET`: for at most one hour a single record of the user's conditions with
      weight divisor 1; otherwise `ceil(hours)` random records, each with divisor `hours`. */
  function GenMet(wspd: real, wdir: real, pgcat: StabilityClass, hours: real, random: RandomStream): (met: seq<HourMet>)
    ensures |met| == if hours <= 1.0 then 1 else HourCount(hours)
    ensures hours <= 1.0 ==> met[0].u == wspd && met[0].phi == Radians(wdir) && met[0].pgcat == pgcat
    ensures forall i :: 0 <= i < |met| ==> met[i].hours == if hours <= 1.0 then 1.0 else hours
    ensures hours > 1.0 ==> forall i :: 0 <= i < |met| ==>
              IsNat(met[i].u) && 1.0 <= met[i].u <= 50.0 &&
              IsNat(Degrees(met[i].phi)) && Degrees(met[i].phi) < 360.0
  {
    if hours <= 1.0 then [HourMet(1.0, wspd, Radians(wdir), pgcat)]
    else
      var met := seq(HourCount(hours), h requires 0 <= h => RandomHour(hours, random, h));
      assert forall i :: 0 <= i < |met| ==> Degrees(met[i].phi) == RandomInt(random(3 * i), 360) as real by {
        forall i | 0 <= i < |met| {
          DegreesOfRadians(RandomInt(random(3 * i), 360) as real);
        }
      }
      met
  }

  /** A single-hour run draws nothing: its records do not depend on the random stream. */
  lemma OneHourIsDeterministic(wspd: real, wdir: real, pgcat: StabilityClass, hours: real,
                               r1: RandomStream, r2: RandomStream)
    requires hours <= 1.0
    ensures GenMet(wspd, wdir, pgcat, hours, r1) == GenMet(wspd, wdir, pgcat, hours, r2)
  {
  }

  /** The total weight `sum of 1 / Hours` the records give to the grids. */
  function WeightSum(met: seq<HourMet>): real {
    if met == [] then 0.0
    else (if met[0].hours == 0.0 then 0.0 else 1.0 / met[0].hours) + WeightSum(met[1..])
  }

  /** Records sharing a non-zero divisor `w` weigh `|met| / w` in total. */
  lemma {:induction false} WeightSumOfEqualDivisors(met: seq<HourMet>, w: real)
    requires w != 0.0
    requires forall i :: 0 <= i < |met| ==> met[i].hours == w
    ensures WeightSum(met) == |met| as real / w
  {
    if met != [] {
      WeightSumOfEqualDivisors(met[1..], w);
      assert WeightSum(met) == 1.0 / w + (|met| - 1) as real / w;
    }
  }

  /** The records of a run weigh `ceil(hours) / hours` in total (1 for a single hour). */
  lemma GenMetWeight(wspd: real, wdir: real, pgcat: StabilityClass, hours: real, random: RandomStream)
    ensures WeightSum(GenMet(wspd, wdir, pgcat, hours, random))
         == if hours <= 1.0 then 1.0 else HourCount(hours) as real / hours
  {
    var met := GenMet(wspd, wdir, pgcat, hours, random);
    if hours <= 1.0 {
      WeightSumOfEqualDivisors(met, 1.0);
    } else {
      WeightSumOfEqualDivisors(met, hours);
    }
  }

  /** For a whole number of hours the weights sum to one: the grids hold an hourly average. */
  lemma WholeHoursAverage(wspd: real, wdir: real, pgcat: StabilityClass, hours: real, random: RandomStream)
    requires IsNat(hours)
    ensures WeightSum(GenMet(wspd, wdir, pgcat, hours, random)) == 1.0
  {
    GenMetWeight(wspd, wdir, pgcat, hours, random);
    if hours > 1.0 {
      HourCountOfWhole(hours);
    }
  }

  lemma HourCountOfWhole(hours: real)
    requires IsNat(hours)
    ensures HourCount(hours) as real == hours
  {
    var n := hours.Floor;
    assert (-hours).Floor == -n;
  }

  /** With a fractional number of hours the extra partial hour is weighted as a full one:
      2.5 hours give three records of weight 1/2.5, 1.2 in total. */
  lemma FractionalHoursOverweight(wspd: real, wdir: real, pgcat: StabilityClass, random: RandomStream)
    ensures |GenMet(wspd, wdir, pgcat, 2.5, random)| == 3
    ensures WeightSum(GenMet(wspd, wdir, pgcat, 2.5, random)) == 1.2
  {
    GenMetWeight(wspd, wdir, pgcat, 2.5, random);
  }
}
