/** `Duration.Hours` and `Duration.Minutes`, which go through floating point, and exactly when that carries them into
    the next whole hour or minute. */
module Floats {
  import opened Doubles
  import opened Powers
  import opened Times

  // ---------- the fraction

  /** So close to the whole unit that nothing is left of what is missing: less than half a digit, in whole numbers. */
  ghost predicate Gap(unit: int, t: int, e: nat)
    requires e <= 52
  {
    2 * Pow2(52 - e) * t > unit ==> 2 * Pow2(e) * (2 * Pow2(52 - e) * t - unit) > unit
  }

  /** What is missing from the unit, in units of 2^-53. */
  lemma Missing(unit: int, t: int, p: int, s: int, m: real)
    requires 1 <= t <= unit && p >= 1 && s >= 1 && 2 * s * p == 0x20_0000_0000_0000
    requires m * unit as real == (t * 0x20_0000_0000_0000) as real
    requires 2 * s * t > unit ==> 2 * p * (2 * s * t - unit) > unit
    ensures 2 * s * t <= unit ==> m <= p as real
    ensures 2 * s * t > unit ==> m > p as real + 0.5
  {
    var w := 2 * s * t - unit;
    RegroupTwice(t, s, p);
    assert t * 0x20_0000_0000_0000 == p * (unit + w);
    if w <= 0 {
      MissingLittle(unit, p, w, m);
    } else {
      MissingMuch(unit, p, w, m);
    }
  }

  lemma RegroupTwice(t: int, s: int, p: int)
    ensures t * (2 * s * p) == p * (2 * s * t)
  {
  }

  lemma MissingLittle(unit: int, p: int, w: int, m: real)
    requires unit >= 1 && p >= 1 && w <= 0 && m * unit as real == (p * (unit + w)) as real
    ensures m <= p as real
  {
    ProductGrows(unit + w, unit, p);
    assert m * unit as real <= (p * unit) as real == p as real * unit as real;
    ProductLess(unit as real, m, p as real);
  }

  lemma MissingMuch(unit: int, p: int, w: int, m: real)
    requires unit >= 1 && p >= 1 && 2 * p * w > unit && m * unit as real == (p * (unit + w)) as real
    ensures m > p as real + 0.5
  {
    var u, pw := unit as real, p * w;
    assert p * (unit + w) == p * unit + pw && 2 * pw > unit;
    assert m * u == p as real * u + pw as real;
    assert u * (p as real + 0.5) == p as real * u + 0.5 * u;
    ProductLess(u, m, p as real + 0.5);
  }

  lemma PowersMatch(e: nat)
    requires e <= 50
    ensures 2 * Pow2(52 - e) * Pow2(e) == 0x20_0000_0000_0000 && Pow2(52 - e) >= 4
  {
    Pow52();
    SmallPowers();
    hide *;
    PowAdd(52 - e, e);
    PowMonotone(2, 52 - e);
    TwiceProduct(Pow2(52 - e), Pow2(e));
  }

  lemma TwiceProduct(a: int, b: int)
    ensures 2 * a * b == 2 * (a * b)
  {
  }

  lemma MissingTimesUnit(unit: int, t: int, f: real, m: real)
    requires 1 <= t <= unit < 0x400_0000_0000 && f * unit as real == (unit - t) as real && m == TWO_53 * (1.0 - f)
    ensures m * unit as real == (t * 0x20_0000_0000_0000) as real && 1.0 <= m <= TWO_53 && 0.0 <= f < 1.0
  {
    var u := unit as real;
    assert (1.0 - f) * u == t as real;
    assert m * u == TWO_53 * ((1.0 - f) * u);
    assert Product(u, f) == (unit - t) as real && Product(u, m) == (t * 0x20_0000_0000_0000) as real;
    hide Product;
    ProductZero(u);
    ProductOneAfter(u);
    ProductLess(u, 1.0, m);
    ProductLess(u, 0.0, f);
    ProductLess(u, 1.0, f);
  }

  /** What half a digit of the sum is in units of 2^-53. */
  lemma InDigits(s: int, p: int, f: real, w: int)
    requires s >= 1 && p >= 1 && 2 * s * p == 0x20_0000_0000_0000 && Product(TWO_53, f) == w as real
    ensures Product(s as real, f) >= s as real - 0.5 <==> w >= 0x20_0000_0000_0000 - p
  {
    var x, y, q := Product(s as real, f), s as real - 0.5, 2.0 * p as real;
    assert q * s as real == TWO_53;
    assert q * (s as real * f) == (q * s as real) * f;
    assert q * y == q * s as real - p as real;
    ProductLess(q, y, x);
  }

  lemma RoundAway(z: real, n: int)
    ensures z >= n as real ==> RoundHalfEven(z) >= n
    ensures z < n as real - 0.5 ==> RoundHalfEven(z) < n
    ensures z <= n as real ==> RoundHalfEven(z) <= n
  {
  }

  lemma LargeFraction(f: real, s: int, p: int, m: real)
    requires 0.5 <= f && 1.0 <= m == TWO_53 * (1.0 - f)
    requires s >= 1 && p >= 1 && 2 * s * p == 0x20_0000_0000_0000
    ensures 0.0 <= Double(f) <= 1.0 - 1.0 / TWO_53
    ensures m <= p as real ==> Product(s as real, Double(f)) >= s as real - 0.5
    ensures m > p as real + 0.5 ==> Product(s as real, Double(f)) < s as real - 0.5
  {
    Pow52();
    assert Product(TWO_53, f) == TWO_53 - m;
    DoubleIn(f, 53);
    DoubleBound(f);
    hide *;
    var z := Product(TWO_53, f);
    RoundAway(z, 0x20_0000_0000_0000 - p);
    RoundAway(z, 0x20_0000_0000_0000 - 1);
    InDigits(s, p, Double(f), RoundHalfEven(z));
    AtMost(Double(f), RoundHalfEven(z));
  }

  lemma AtMost(f: real, w: int)
    requires Product(TWO_53, f) == w as real <= TWO_53 - 1.0
    ensures f <= 1.0 - 1.0 / TWO_53
  {
  }

  lemma SmallFraction(f: real, s: int)
    requires 0.0 <= f < 0.5 && s >= 4
    ensures 0.0 <= Double(f) <= 0.75 && Product(s as real, Double(f)) < s as real - 0.5
  {
    if f > 0.0 {
      DoubleBound(f);
    }
    hide Double;
    ProductLess(s as real, Double(f), 0.75);
  }

  /** The fraction that `t` nanoseconds before the end of a unit make, rounded, is less than the unit by no more than
      half a digit of a sum with `s` numbers per unit exactly if `t` is. */
  lemma FractionIff(unit: int, t: int, e: nat, f: real)
    requires 1 <= t <= unit < 0x400_0000_0000 && e <= 50 && Gap(unit, t, e) && f * unit as real == (unit - t) as real
    ensures 0.0 <= Double(f) <= 1.0 - 1.0 / TWO_53
    ensures var s := Pow2(52 - e); Product(s as real, Double(f)) >= s as real - 0.5 <==> 2 * s * t <= unit
  {
    var p, s, m := Pow2(e), Pow2(52 - e), TWO_53 * (1.0 - f);
    PowersMatch(e);
    MissingTimesUnit(unit, t, f, m);
    Missing(unit, t, p, s, m);
    hide *;
    if f >= 0.5 {
      LargeFraction(f, s, p, m);
    } else {
      SmallFraction(f, s);
      MoreThanHalf(unit, t, f, s);
    }
  }

  lemma MoreThanHalf(unit: int, t: int, f: real, s: int)
    requires 1 <= unit && f < 0.5 && f * unit as real == (unit - t) as real && s >= 1
    ensures 2 * s * t > unit
  {
    ProductLess(unit as real, 0.5, f);
    assert 2 * t > unit;
    ProductGrows(1, s, 2 * t);
  }

  /** Why there is such a gap: what `2 * s * t` exceeds the unit by is at least `least`, because `2 * s` is a multiple
      of a power of two which the unit is not. */
  lemma GapFrom(unit: int, t: int, e: nat, k: nat, least: int, from: nat)
    requires e + k <= 53 && unit >= 1 && t >= 1 && e <= 52
    requires least == Pow2(k) - unit % Pow2(k)
    requires 2 * Pow2(from) * least > unit && (e < from ==> Pow2(53 - e) >= 2 * unit)
    ensures Gap(unit, t, e)
  {
    var s2 := 2 * Pow2(52 - e);
    assert s2 == Pow2(53 - e);
    if s2 * t > unit {
      PowMultiple(k, 53 - e);
      PowMonotone(from, e);
      hide Pow2;
      if e < from {
        GapLow(unit, t, s2, Pow2(e));
      } else {
        GapHigh(unit, t, s2, Pow2(e), Pow2(k), Pow2(53 - e - k), least, Pow2(from));
      }
    }
  }

  lemma GapLow(unit: int, t: int, s: int, p: int)
    requires unit >= 1 && t >= 1 && p >= 1 && s >= 2 * unit
    ensures 2 * p * (s * t - unit) > unit
  {
    ProductGrows(1, t, s);
    ProductGrows(1, p, s * t - unit);
    Halves(p, s * t - unit);
  }

  lemma Halves(p: int, w: int)
    ensures 2 * p * w == 2 * (p * w)
  {
  }

  lemma GapHigh(unit: int, t: int, s: int, p: int, pk: int, j: int, least: int, from: int)
    requires unit >= 1 && t >= 1 && p >= from >= 1 && pk >= 1 && s == pk * j && s * t > unit
    requires least == pk - unit % pk && 2 * from * least > unit
    ensures 2 * p * (s * t - unit) > unit
  {
    assert s * t == pk * (j * t);
    NextMultiple(unit, pk, j * t);
    var w := s * t - unit;
    ProductGrows(from, p, w);
    ProductGrows(least, w, from);
    Halves(p, w);
    Halves(from, least);
  }

  lemma NextMultiple(x: int, p: int, j: int)
    requires p >= 1 && p * j > x
    ensures p * j - x >= p - x % p
  {
    var q := x / p;
    assert x == p * q + x % p;
    assert j >= q + 1 by {
      if j <= q {
        ProductGrows(j, q, p);
      }
    }
    ProductGrows(q + 1, j, p);
  }

  // ---------- hours, minutes and days

  /** Conversion to an integer drops the fraction. */
  function Trunc(x: real): int {
    if x < 0.0 then -((-x).Floor) else x.Floor
  }

  /** A number of whole units and the nanoseconds that are left, as one number of units. */
  function InUnits(q: int, r: int, unit: int): real
    requires unit >= 1
  {
    Double(Double(q as real) + Double(Double(r as real) / unit as real))
  }

  function Hours(d: int): real {
    InUnits(Quot(d, HOUR), Rem(d, HOUR), HOUR)
  }

  function Minutes(d: int): real {
    InUnits(Quot(d, MINUTE), Rem(d, MINUTE), MINUTE)
  }

  /** With `left` nanoseconds left until the next whole unit: less than half the distance between the two numbers of
      double precision there. */
  predicate Carries(q: int, left: int, unit: int)
    requires q < 0x10_0000_0000_0000
  {
    q >= 1 && 2 * PerUnit(q) * left <= unit
  }

  /** A fraction below one stays below one when it is rounded again. */
  lemma StaysBelowOne(f: real)
    requires 0.0 <= f <= 1.0 - 1.0 / TWO_53
    ensures 0.0 <= Double(f) < 1.0
  {
    if f > 0.0 {
      DoubleBound(f);
    }
    if f >= 0.5 {
      Pow52();
      assert Product(TWO_53, f) <= TWO_53 - 1.0;
      DoubleIn(f, 53);
      hide Double;
      RoundAway(Product(TWO_53, f), 0x20_0000_0000_0000 - 1);
    }
  }

  /** The floating-point number is the next whole one exactly if it carries. */
  lemma InUnitsIff(q: int, t: int, unit: int)
    requires 0 <= q < 0x10_0000_0000_0000 && 1 <= t <= unit < 0x400_0000_0000
    requires q >= 1 ==> Log2(q) <= 50 && Gap(unit, t, Log2(q))
    ensures var v := InUnits(q, unit - t, unit);
            if Carries(q, t, unit) then v == q as real + 1.0
            else q as real <= v < q as real + 1.0
                 && (q >= 1 ==> Product(PerUnit(q) as real, q as real + 1.0 - v) >= 1.0)
  {
    var f := (unit - t) as real / unit as real;
    InUnitsValue(q, t, unit, f);
    if q >= 1 {
      PerUnitIsPow(q);
      hide Double, PerUnit, Pow2, Log2, Product, InUnits, Gap;
      FractionIff(unit, t, Log2(q), f);
      SumCarries(q, Double(f));
    } else {
      hide Double, InUnits;
      FractionBelowOne(unit, t, f);
      StaysBelowOne(Double(f));
    }
  }

  lemma InUnitsValue(q: int, t: int, unit: int, f: real)
    requires 0 <= q < 0x10_0000_0000_0000 && 1 <= t <= unit < 0x400_0000_0000 && f == (unit - t) as real / unit as real
    ensures InUnits(q, unit - t, unit) == Double(q as real + Double(f)) && f * unit as real == (unit - t) as real
  {
    DoubleWhole(q);
    DoubleWhole(unit - t);
    hide Double;
  }

  lemma FractionBelowOne(unit: int, t: int, f: real)
    requires 1 <= t <= unit < 0x400_0000_0000 && f * unit as real == (unit - t) as real
    ensures 0.0 <= Double(f) <= 1.0 - 1.0 / TWO_53
  {
    MissingTimesUnit(unit, t, f, TWO_53 * (1.0 - f));
    PowersMatch(0);
    hide *;
    if f >= 0.5 {
      LargeFraction(f, Pow2(52), Pow2(0), TWO_53 * (1.0 - f));
    } else {
      SmallFraction(f, 4);
    }
  }

  lemma MinuteGap(q: int, t: int)
    requires 1 <= q <= 153_722_867 && 1 <= t <= MINUTE
    ensures Log2(q) <= 27 && Gap(MINUTE, t, Log2(q))
  {
    SomePowers();
    LogBelow(q, 28);
    var e := Log2(q);
    PowMonotone(44, 53 - e);
    GapFrom(MINUTE, t, e, 26, 62_433_280, 9);
  }

  lemma HourGap(q: int, t: int)
    requires 1 <= q <= 2_562_047 && 1 <= t <= HOUR
    ensures Log2(q) <= 21 && Gap(HOUR, t, Log2(q))
  {
    SomePowers();
    LogBelow(q, 22);
    var e := Log2(q);
    PowMonotone(44, 53 - e);
    GapFrom(HOUR, t, e, 32, 3_477_561_344, 10);
  }

  /** There are more numbers per day than per twelfth of an hour, so that hours that stop short of a whole day stop
      short of it also as days. */
  lemma DayDigits(q: int)
    requires 24 <= q <= 2_562_047
    ensures PerUnit(q / 24) > 12 * PerUnit(q) && PerUnit(q / 24) >= 24
  {
    var d := q / 24;
    LogBounds(d);
    LogBounds(q);
    PerUnitIsPow(d);
    PerUnitIsPow(q);
    LogBelow22(q);
    hide *;
    var e, e' := Log2(q), Log2(d);
    PowPlusFour(e');
    PowMonotone(e' + 4, e + 1);
    PowPlusFour(52 - e);
    PowMonotone(52 - e + 4, 52 - e');
    PowPlusFour(48 - e);
  }

  lemma LogBelow22(q: int)
    requires 1 <= q <= 2_562_047
    ensures Log2(q) < 22
  {
    SomePowers();
    LogBelow(q, 22);
  }

  /** Days are whole days, and the next one exactly if the hours are. */
  lemma DaysFrom(q: int, h: real)
    requires 24 <= q <= 2_562_047
    requires h == q as real + 1.0 || (q as real <= h < q as real + 1.0
                                      && Product(PerUnit(q) as real, q as real + 1.0 - h) >= 1.0)
    ensures Trunc(Double(h / 24.0)) == if h == q as real + 1.0 then (q + 1) / 24 else q / 24
  {
    var d, f := q / 24, h / 24.0 - (q / 24) as real;
    assert 24.0 * (1.0 - f) == (23 - q % 24) as real + (q as real + 1.0 - h);
    hide *;
    if f < 1.0 {
      DayDigits(q);
      SumCarries(d, f);
      ShortOfDay(PerUnit(d), PerUnit(q), f, q as real + 1.0 - h, q % 24);
      TruncIn(Double(d as real + f), d);
    } else {
      assert q % 24 == 23 && h == q as real + 1.0;
      DoubleWhole(d + 1);
      TruncIn((d + 1) as real, d + 1);
    }
  }

  lemma TruncIn(v: real, q: int)
    requires 0 <= q && q as real <= v < q as real + 1.0
    ensures Trunc(v) == q && Trunc(-v) == -q
  {
  }

  lemma ShortOfDay(s: int, s': int, f: real, missing: real, hour: int)
    requires s >= 1 && s' >= 1 && s > 12 * s' && s >= 24 && 0 <= hour < 24 && f < 1.0 && 0.0 <= missing
    requires 24.0 * (1.0 - f) == (23 - hour) as real + missing
    requires missing > 0.0 ==> Product(s' as real, missing) >= 1.0
    ensures Product(s as real, f) < s as real - 0.5
  {
    var m := 1.0 - f;
    ProductSum(s as real, f, m);
    ProductOneAfter(s as real);
    if hour == 23 {
      assert 24.0 * m == missing;
      assert 24.0 * (s' as real * m) == s' as real * missing;
      ProductGrowsReal(12.0 * s' as real, s as real, m);
      assert 12.0 * s' as real * m == 0.5 * (24.0 * (s' as real * m));
    } else {
      ProductLess(s as real, 1.0 / 24.0, m);
    }
  }

  lemma ProductGrowsReal(a: real, b: real, x: real)
    requires a < b && 0.0 < x
    ensures a * x < b * x
  {
    assert (b - a) * x > 0.0;
  }

  function Abs(d: int): nat {
    if d < 0 then -d else d
  }

  /** The floating-point minutes of a duration this long reach the next whole minute. */
  predicate NextMinute(x: nat)
    requires x <= -MIN_INT64
  {
    Carries(x / MINUTE, MINUTE - x % MINUTE, MINUTE)
  }

  predicate NextHour(x: nat)
    requires x <= -MIN_INT64
  {
    Carries(x / HOUR, HOUR - x % HOUR, HOUR)
  }

  function MinutesOf(x: nat): (r: int)
    requires x <= -MIN_INT64
    ensures r >= 0
  {
    x / MINUTE + if NextMinute(x) then 1 else 0
  }

  function HoursOf(x: nat): (r: int)
    requires x <= -MIN_INT64
    ensures r >= 0
  {
    x / HOUR + if NextHour(x) then 1 else 0
  }

  /** Exactly what the floating-point days, hours and minutes of a duration are. */
  lemma FloatsIff(d: int)
    requires IsInt64(d)
    ensures Trunc(Minutes(d)) == if d < 0 then -MinutesOf(Abs(d)) else MinutesOf(Abs(d))
    ensures 0 <= d ==> Trunc(Hours(d)) == HoursOf(d)
    ensures DAY <= d ==> Trunc(Double(Hours(d) / 24.0)) == HoursOf(d) / 24
  {
    var x := Abs(d);
    MinutesOfPositive(x);
    if d < 0 {
      MinutesOdd(x);
    } else {
      HoursOfPositive(x);
    }
    hide *;
  }

  lemma QuotRem(x: nat, unit: int)
    requires unit >= 1
    ensures Quot(x, unit) == x / unit && Rem(x, unit) == x % unit && 1 <= unit - x % unit <= unit && 0 <= x / unit
  {
    assert x == unit * (x / unit) + x % unit;
    assert 0 <= x / unit by { NonNegative(x, unit); }
  }

  lemma NonNegative(x: nat, unit: int)
    requires unit >= 1
    ensures x / unit >= 0
  {
  }

  lemma MinutesOfPositive(x: nat)
    requires x <= -MIN_INT64
    ensures Trunc(Minutes(x)) == MinutesOf(x) && Trunc(-Minutes(x)) == -MinutesOf(x)
  {
    var q, t := x / MINUTE, MINUTE - x % MINUTE;
    assert q <= 153_722_867;
    QuotRem(x, MINUTE);
    hide Carries, InUnits, Gap, Trunc, PerUnit, Log2, Quot, Rem;
    if q >= 1 {
      MinuteGap(q, t);
    }
    InUnitsIff(q, t, MINUTE);
    TruncIn(Minutes(x), MinutesOf(x));
  }

  lemma HoursOfPositive(x: nat)
    requires x <= MAX_INT64
    ensures Trunc(Hours(x)) == HoursOf(x)
    ensures DAY <= x ==> Trunc(Double(Hours(x) / 24.0)) == HoursOf(x) / 24
  {
    var q := x / HOUR;
    HoursIn(x, Hours(x));
    assert q <= 2_562_047 && (DAY <= x ==> q >= 24);
    hide Carries, InUnits, Trunc, PerUnit, Double, Product, Hours;
    TruncIn(Hours(x), HoursOf(x));
    if DAY <= x {
      DaysFrom(q, Hours(x));
    }
  }

  lemma HoursIn(x: nat, h: real)
    requires x <= MAX_INT64 && h == Hours(x)
    ensures var q := x / HOUR;
            if NextHour(x) then h == q as real + 1.0
            else
              q as real <= h < q as real + 1.0 && (q >= 1 ==> Product(PerUnit(q) as real, q as real + 1.0 - h) >= 1.0)
  {
    var q, t := x / HOUR, HOUR - x % HOUR;
    assert q <= 2_562_047;
    QuotRem(x, HOUR);
    hide Carries, InUnits, Gap, PerUnit, Log2, Product, Quot, Rem;
    if q >= 1 {
      HourGap(q, t);
    }
    InUnitsIff(q, t, HOUR);
  }

  lemma MinutesOdd(x: int)
    requires x > 0
    ensures Minutes(-x) == -Minutes(x)
  {
    InUnitsOdd(Quot(x, MINUTE), Rem(x, MINUTE), MINUTE);
    hide InUnits;
  }

  lemma InUnitsOdd(q: int, r: int, unit: int)
    requires unit >= 1
    ensures InUnits(-q, -r, unit) == -InUnits(q, r, unit)
  {
    hide Double;
    Odd(q as real);
    Odd(r as real);
    var f, g := Double(r as real) / unit as real, Double(q as real);
    Odd(f);
    Odd(g + Double(f));
    assert (-q) as real == -(q as real) && (-r) as real == -(r as real);
    assert -Double(r as real) / unit as real == -f;
    assert -g + -Double(f) == -(g + Double(f));
  }

  lemma Odd(x: real)
    ensures Double(-x) == -Double(x)
  {
  }

  // ---------- where nothing is carried

  lemma CarriesOnlyFrom(q: int, t: int, unit: int, k: nat)
    requires 0 <= q < 0x10_0000_0000_0000 && q < Pow2(k) && k <= 50 && t >= 1 && 2 * Pow2(53 - k) * t > unit
    ensures !Carries(q, t, unit)
  {
    PowMonotone(k, 52);
    Pow52();
    if q >= 1 {
      LogBelow(q, k);
      PerUnitIsPow(q);
      PowMonotone(53 - k, 52 - Log2(q));
      hide PerUnit, Pow2;
      ProductGrows(2 * Pow2(53 - k), 2 * PerUnit(q), t);
    }
  }

  /** Not for whole seconds. */
  lemma WholeSecondsClear(x: nat)
    requires x <= -MIN_INT64 && x % SECOND == 0
    ensures !NextMinute(x) && !NextHour(x)
  {
    SomePowers();
    PowNext(25);
    WholeSeconds(x);
    hide Carries, Pow2;
    CarriesOnlyFrom(x / MINUTE, MINUTE - x % MINUTE, MINUTE, 28);
    CarriesOnlyFrom(x / HOUR, HOUR - x % HOUR, HOUR, 28);
  }

  lemma WholeSeconds(x: nat)
    requires x % SECOND == 0
    ensures MINUTE - x % MINUTE >= SECOND && HOUR - x % HOUR >= SECOND
  {
    var k := x / SECOND;
    assert x == k * SECOND && x == (k / 60) * MINUTE + (k % 60) * SECOND;
    assert x == (k / 3600) * HOUR + (k % 3600) * SECOND;
    DivUnique(x, MINUTE, k / 60, (k % 60) * SECOND);
    DivUnique(x, HOUR, k / 3600, (k % 3600) * SECOND);
  }

  /** Not for less than 4096 hours, which is more than 170 days. */
  lemma ShortClear(x: nat)
    requires x < 4096 * HOUR
    ensures !NextMinute(x) && !NextHour(x)
  {
    SomePowers();
    PowNext(11);
    PowNext(12);
    PowAdd(9, 9);
    PowAdd(26, 9);
    PowAdd(32, 9);
    hide Carries, Pow2;
    CarriesOnlyFrom(x / MINUTE, MINUTE - x % MINUTE, MINUTE, 18);
    CarriesOnlyFrom(x / HOUR, HOUR - x % HOUR, HOUR, 12);
  }
}
