/** Durations as Go has them: 64-bit counts of nanoseconds, with integer division that truncates toward zero. */
module Times {
  const SECOND: int := 1_000_000_000
  const MINUTE: int := 60 * SECOND
  const HOUR: int := 60 * MINUTE
  const DAY: int := 24 * HOUR
  const YEAR: int := 365 * DAY
  const MAX_INT64: int := 0x7FFF_FFFF_FFFF_FFFF
  const MIN_INT64: int := -0x8000_0000_0000_0000

  predicate IsInt64(x: int) {
    MIN_INT64 <= x <= MAX_INT64
  }

  /** Two's complement wrap-around of sums and products. */
  function Wrap(x: int): (r: int)
    ensures IsInt64(r)
    ensures IsInt64(x) ==> r == x
  {
    (x - MIN_INT64) % 0x1_0000_0000_0000_0000 + MIN_INT64
  }

  /** Go's `/` and `%` on integers. */
  function Quot(x: int, y: int): int
    requires y > 0
  {
    if x < 0 then -((-x) / y) else x / y
  }

  function Rem(x: int, y: int): int
    requires y > 0
  {
    x - y * Quot(x, y)
  }

  lemma DivUnique(x: int, d: int, q: int, r: int)
    requires d > 0 && x == d * q + r && 0 <= r < d
    ensures x / d == q && x % d == r
  {
    var e := x / d - q;
    assert d * e == r - x % d;
    MultipleOf(d, e);
  }

  lemma MultipleOf(d: int, e: int)
    requires d > 0
    ensures e >= 1 ==> d * e >= d
    ensures e <= -1 ==> d * e <= -d
  {
  }

  lemma WrapMultiple(x: int, k: int)
    ensures Wrap(x + k * 0x1_0000_0000_0000_0000) == Wrap(x)
  {
    var y, n := x - MIN_INT64, 0x1_0000_0000_0000_0000;
    DivUnique(y + k * n, n, y / n + k, y % n);
  }

  /** Wrapping in between makes no difference. */
  lemma WrapSum(x: int, y: int)
    ensures Wrap(x + Wrap(y)) == Wrap(x + y)
  {
    var n := 0x1_0000_0000_0000_0000;
    var k := (y - MIN_INT64) / n;
    assert Wrap(y) == y - k * n;
    WrapMultiple(x + y, -k);
  }

  lemma WrapFar(x: int, y: int)
    requires IsInt64(y) && -0x1_0000_0000_0000_0000 < x - y < 0x1_0000_0000_0000_0000
    ensures Wrap(x) == y <==> x == y
  {
  }
}
