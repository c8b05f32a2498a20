/** Powers of two. */
module Powers {

  function Pow2(k: nat): (p: int)
    ensures p >= 1
  {
    if k == 0 then 1 else 2 * Pow2(k - 1)
  }

  /** The binary exponent. */
  function Log2(q: int): nat
    requires q >= 1
  {
    if q == 1 then 0 else 1 + Log2(q / 2)
  }

  lemma PowNext(k: nat)
    ensures if k == 0 then Pow2(k) == 1 else Pow2(k) as real == 2.0 * Pow2(k - 1) as real
  {
  }

  lemma {:induction false} PowAdd(a: nat, b: nat)
    ensures Pow2(a + b) == Pow2(a) * Pow2(b)
  {
    if a > 0 {
      PowAdd(a - 1, b);
      assert 2 * (Pow2(a - 1) * Pow2(b)) == (2 * Pow2(a - 1)) * Pow2(b);
    }
  }

  lemma {:induction false} LogBounds(q: int)
    requires q >= 1
    ensures Pow2(Log2(q)) <= q < Pow2(Log2(q) + 1)
  {
    if q > 1 {
      LogBounds(q / 2);
    }
  }

  lemma {:induction false} PowMonotone(a: nat, b: nat)
    ensures Pow2(a) < Pow2(b) ==> a < b
    ensures a <= b ==> Pow2(a) <= Pow2(b)
  {
    if a > 0 && b > 0 {
      PowMonotone(a - 1, b - 1);
    }
  }

  lemma LogIs(q: int, k: nat)
    requires Pow2(k) <= q < Pow2(k + 1)
    ensures Log2(q) == k
  {
    hide Log2, Pow2;
    LogBounds(q);
    PowMonotone(k, Log2(q) + 1);
    PowMonotone(Log2(q), k + 1);
  }

  lemma LogBelow(q: int, k: nat)
    requires 1 <= q < Pow2(k)
    ensures Log2(q) < k
  {
    LogBounds(q);
    PowMonotone(Log2(q), k);
  }

  lemma {:induction false} PowEven(k: nat)
    requires k >= 1
    ensures Pow2(k) % 2 == 0
  {
    var p := Pow2(k - 1);
    assert Pow2(k) == 2 * p;
    hide Pow2;
    assert (2 * p) % 2 == 0;
  }

  lemma SmallPowers()
    ensures Pow2(2) == 4 && Pow2(4) == 16 && Pow2(6) == 64 && Pow2(8) == 256
  {
    assert Pow2(4) == 16;
    PowAdd(4, 2);
    PowAdd(4, 4);
  }

  lemma SomePowers()
    ensures Pow2(9) == 512 && Pow2(10) == 1024 && Pow2(22) == 0x40_0000 && Pow2(26) == 0x400_0000
    ensures Pow2(28) == 0x1000_0000 && Pow2(32) == 0x1_0000_0000 && Pow2(44) == 0x1000_0000_0000
  {
    SmallPowers();
    PowNext(9);
    PowNext(10);
    hide *;
    PowAdd(8, 8);
    PowAdd(16, 6);
    PowAdd(22, 4);
    PowAdd(22, 6);
    PowAdd(16, 16);
    PowAdd(22, 22);
  }

  lemma Pow52()
    ensures Pow2(52) == 0x10_0000_0000_0000 && Pow2(53) == 0x20_0000_0000_0000
  {
    SmallPowers();
    SomePowers();
    PowNext(53);
    hide *;
    PowAdd(44, 8);
  }

  /** Powers of two are multiples of smaller ones. */
  lemma PowMultiple(a: nat, b: nat)
    requires a <= b
    ensures Pow2(b) == Pow2(a) * Pow2(b - a)
  {
    PowAdd(a, b - a);
  }

  lemma PowPlusFour(k: nat)
    ensures Pow2(k + 4) == 16 * Pow2(k)
  {
    PowNext(k + 4);
    PowNext(k + 3);
    PowNext(k + 2);
    PowNext(k + 1);
  }
}
