/** Rounding to double precision, and what it does to the sum of a whole number and a fraction. */
module Doubles {
  import opened Powers

  const TWO_52: real := 4503599627370496.0
  const TWO_53: real := 9007199254740992.0

  // ---------- double precision

  /** To the nearest whole number, and to the even one of two that are equally near. */
  function RoundHalfEven(x: real): int {
    var below := x.Floor;
    var rest := x - below as real;
    if rest < 0.5 || (rest == 0.5 && below % 2 == 0) then below else below + 1
  }

  /** An upper bound for how often a number is to be halved or doubled until it has 53 binary digits. */
  function Distance(x: real): nat {
    if x >= TWO_53 then x.Floor else if 0.0 < x < TWO_52 then (TWO_52 / x).Floor else 0
  }

  lemma Nearer(x: real)
    ensures x >= TWO_53 ==> Distance(x / 2.0) < Distance(x)
    ensures 0.0 < x < TWO_52 ==> Distance(2.0 * x) < Distance(x)
  {
    if 0.0 < x < TWO_52 {
      var y, z := TWO_52 / x, TWO_52 / (2.0 * x);
      assert y * x == TWO_52 && z * (2.0 * x) == TWO_52;
      Halved(x, y, z);
    }
  }

  lemma Halved(x: real, y: real, z: real)
    requires 0.0 < x < TWO_52 && y * x == TWO_52 && z * (2.0 * x) == TWO_52
    ensures y == 2.0 * z && z > 0.5
  {
    assert (y - 2.0 * z) * x == 0.0;
    assert z <= 0.5 ==> z * (2.0 * x) <= x;
  }

  /** Rounding to double precision: to 53 binary digits, ties to even. The exponent is not bounded, as the numbers
      here are far from both ends of the range. */
  function Double(x: real): real
    decreases x < 0.0, Distance(x)
  {
    Nearer(x);
    if x == 0.0 then 0.0
    else if x < 0.0 then -Double(-x)
    else if x >= TWO_53 then 2.0 * Double(x / 2.0)
    else if x < TWO_52 then Double(2.0 * x) / 2.0
    else RoundHalfEven(x) as real
  }

  lemma DoubleTwice(x: real)
    requires 0.0 < x
    ensures Double(2.0 * x) == 2.0 * Double(x)
  {
    assert 2.0 * x / 2.0 == x;
  }

  /** A product, by name. */
  function Product(s: real, x: real): real {
    s * x
  }

  lemma {:induction false} DoubleScaled(x: real, k: nat)
    requires 0.0 < x
    ensures 0.0 < Product(Pow2(k) as real, x)
            && Double(Product(Pow2(k) as real, x)) == Product(Pow2(k) as real, Double(x))
  {
    hide *;
    PowNext(k);
    if k == 0 {
      ProductOne(Pow2(k) as real, x);
      ProductOne(Pow2(k) as real, Double(x));
    } else {
      var p := Pow2(k - 1) as real;
      DoubleScaled(x, k - 1);
      DoubleTwice(Product(p, x));
      ProductTwice(p, x);
      ProductTwice(p, Double(x));
    }
  }

  lemma ProductOne(s: real, x: real)
    requires s == 1.0
    ensures Product(s, x) == x
  {
  }

  lemma ProductTwice(s: real, x: real)
    ensures 2.0 * Product(s, x) == Product(2.0 * s, x)
  {
  }

  /** A number in units of its last binary digit. */
  lemma DoubleIn(x: real, k: nat)
    requires 0.0 < x && TWO_52 <= Product(Pow2(k) as real, x) < TWO_53
    ensures Product(Pow2(k) as real, Double(x)) == RoundHalfEven(Product(Pow2(k) as real, x)) as real
  {
    hide Pow2, Product, RoundHalfEven;
    DoubleScaled(x, k);
  }

  /** It is as near as any number with as many digits, and where another is as near, its last digit is even. */
  lemma DoubleNearest(x: real, k: nat, n: int)
    requires 0.0 < x && TWO_52 <= Product(Pow2(k) as real, x) < TWO_53
    ensures var z, r := Product(Pow2(k) as real, x), Product(Pow2(k) as real, Double(x));
            && Far(r, z) <= Far(n as real, z)
            && r == r.Floor as real
            && (Far(r, z) == Far(n as real, z) ==> r == n as real || r.Floor % 2 == 0)
  {
    hide *;
    DoubleIn(x, k);
    RoundNearest(Product(Pow2(k) as real, x), n);
  }

  lemma RoundNearest(z: real, n: int)
    ensures Far(RoundHalfEven(z) as real, z) <= Far(n as real, z)
    ensures Far(RoundHalfEven(z) as real, z) == Far(n as real, z) ==> RoundHalfEven(z) == n || RoundHalfEven(z) % 2 == 0
  {
    var below := z.Floor;
    if n <= below {
      assert n as real <= below as real;
    } else {
      assert n as real >= below as real + 1.0;
    }
  }

  function Far(x: real, y: real): real {
    if x < y then y - x else x - y
  }

  lemma {:induction false} DoubleBound(x: real)
    requires 0.0 < x
    ensures 0.0 <= Double(x) <= 1.5 * x
    decreases Distance(x)
  {
    Nearer(x);
    if x >= TWO_53 {
      DoubleBound(x / 2.0);
    } else if x < TWO_52 {
      DoubleBound(2.0 * x);
    }
  }

  /** How many numbers of double precision there are from one whole number to the next. */
  function PerUnit(q: int): (s: int)
    requires 1 <= q < 0x10_0000_0000_0000
    ensures s >= 1
  {
    Pow52();
    LogBelow(q, 52);
    Pow2(52 - Log2(q))
  }

  lemma PerUnitIsPow(q: int)
    requires 1 <= q < 0x10_0000_0000_0000
    ensures Log2(q) < 52 && PerUnit(q) == Pow2(52 - Log2(q))
  {
    Pow52();
    LogBelow(q, 52);
  }

  lemma PerUnitBounds(q: int)
    requires 1 <= q < 0x10_0000_0000_0000
    ensures var s := PerUnit(q); TWO_52 <= (q * s) as real && ((q + 1) * s) as real <= TWO_53 && s % 2 == 0
  {
    PerUnitFits(q);
    hide PerUnit;
  }

  lemma PerUnitFits(q: int)
    requires 1 <= q < 0x10_0000_0000_0000
    ensures var s := PerUnit(q);
            0x10_0000_0000_0000 <= q * s && (q + 1) * s <= 0x20_0000_0000_0000 && s % 2 == 0
  {
    PerUnitIsPow(q);
    Pow52();
    LogBounds(q);
    hide *;
    var e, s := Log2(q), PerUnit(q);
    PowAdd(e, 52 - e);
    PowAdd(e + 1, 52 - e);
    ProductGrows(Pow2(e), q, s);
    ProductGrows(q + 1, Pow2(e + 1), s);
    PowEven(52 - e);
  }

  lemma ProductGrows(a: int, b: int, s: int)
    requires a <= b && s >= 0
    ensures a * s <= b * s
  {
  }

  // ---------- whole numbers, and whole numbers with a fraction

  lemma RoundWhole(n: int)
    ensures RoundHalfEven(n as real) == n
  {
    assert (n as real).Floor == n;
  }

  /** Above an even number. */
  lemma RoundAbove(n: int, y: real)
    requires n % 2 == 0 && 0.0 <= y
    ensures RoundHalfEven(n as real + y) == n + RoundHalfEven(y)
  {
    assert (n as real + y).Floor == n + y.Floor;
  }

  /** Up to an even number. */
  lemma RoundBelow(s: int, y: real)
    requires s % 2 == 0 && 0.0 <= y < s as real
    ensures 0 <= RoundHalfEven(y) <= s
    ensures RoundHalfEven(y) == s <==> y >= s as real - 0.5
  {
  }

  lemma DoubleWhole(q: int)
    requires 0 <= q < 0x10_0000_0000_0000
    ensures Double(q as real) == q as real
  {
    if q > 0 {
      SumIn(q, 0.0);
      hide *;
      ProductZero(PerUnit(q) as real);
      RoundWhole(0);
      ProductEqual(PerUnit(q) as real, Double(q as real), q as real);
    }
  }

  lemma ProductZero(s: real)
    ensures Product(s, 0.0) == 0.0
  {
  }

  lemma ProductEqual(s: real, x: real, y: real)
    requires s > 0.0 && Product(s, x) == Product(s, y)
    ensures x == y
  {
    assert s * (x - y) == 0.0;
  }

  lemma ProductLess(s: real, x: real, y: real)
    requires s > 0.0
    ensures Product(s, x) <= Product(s, y) <==> x <= y
  {
    assert Product(s, y) - Product(s, x) == s * (y - x);
    if x <= y {
      assert s * (y - x) >= 0.0;
    } else {
      assert s * (x - y) > 0.0;
    }
  }

  lemma ProductSum(s: real, x: real, y: real)
    ensures Product(s, x + y) == Product(s, x) + Product(s, y)
  {
  }

  /** Rounding a whole number and a fraction, in units of the last digit. */
  lemma SumIn(q: int, f: real)
    requires 1 <= q < 0x10_0000_0000_0000 && 0.0 <= f < 1.0
    ensures var s := PerUnit(q) as real;
            && 0.0 <= Product(s, f) < s
            && Product(s, Double(q as real + f)) == Product(s, q as real) + RoundHalfEven(Product(s, f)) as real
  {
    hide *;
    PerUnitBounds(q);
    PerUnitIsPow(q);
    SumScaled(q, PerUnit(q), f, 52 - Log2(q));
  }

  lemma SumScaled(q: int, s: int, f: real, k: nat)
    requires 1 <= q && s >= 1 && s % 2 == 0 && 0.0 <= f < 1.0 && s == Pow2(k)
    requires TWO_52 <= (q * s) as real && ((q + 1) * s) as real <= TWO_53
    ensures 0.0 <= Product(s as real, f) < s as real
    ensures Product(s as real, Double(q as real + f)) == Product(s as real, q as real)
            + RoundHalfEven(Product(s as real, f)) as real
  {
    hide *;
    var r := s as real;
    WholeProduct(q, s);
    ProductSum(r, q as real, f);
    ProductUnit(r, f);
    DoubleIn(q as real + f, k);
    EvenProduct(q, s);
    RoundAbove(q * s, Product(r, f));
  }

  lemma WholeProduct(q: int, s: int)
    ensures Product(s as real, q as real) == (q * s) as real
    ensures ((q + 1) * s) as real == (q * s) as real + s as real
  {
  }

  lemma ProductUnit(s: real, f: real)
    requires s > 0.0 && 0.0 <= f < 1.0
    ensures 0.0 <= Product(s, f) < s
  {
    ProductZero(s);
    ProductOneAfter(s);
    ProductLess(s, 0.0, f);
    ProductLess(s, 1.0, f);
  }

  lemma ProductOneAfter(s: real)
    ensures Product(s, 1.0) == s
  {
  }

  /** Adding a fraction to a whole number gives the next whole number exactly if no more than half a digit of double
      precision is missing; if not, at least a whole digit is missing from the sum. */
  lemma SumCarries(q: int, f: real)
    requires 1 <= q < 0x10_0000_0000_0000 && 0.0 <= f < 1.0
    ensures var v, s := Double(q as real + f), PerUnit(q) as real;
            if Product(s, f) >= s - 0.5 then v == q as real + 1.0
            else q as real <= v < q as real + 1.0 && Product(s, q as real + 1.0 - v) >= 1.0
  {
    hide *;
    var v, s := Double(q as real + f), PerUnit(q);
    SumIn(q, f);
    PerUnitBounds(q);
    var r := s as real;
    RoundBelow(s, Product(r, f));
    ProductOneAfter(r);
    ProductSum(r, q as real, 1.0);
    if Product(r, f) >= r - 0.5 {
      ProductEqual(r, v, q as real + 1.0);
    } else {
      ProductLess(r, q as real, v);
      ProductLess(r, q as real + 1.0, v);
      ProductSum(r, q as real + 1.0 - v, v);
    }
  }

  lemma EvenProduct(q: int, s: int)
    requires s % 2 == 0
    ensures (q * s) % 2 == 0
  {
    assert q * s == 2 * (q * (s / 2));
  }
}
