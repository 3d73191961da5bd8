/**
  Repeated doubling, in unbounded and in 64-bit arithmetic. Doubling k times multiplies by the k-th power of
  two; in 64 bits it does so modulo 2^64, so that 64 doublings leave nothing of any number. The delays of a
  backoff grow in this way.
*/
module Powers {
  import opened Types

  function Pow2(k: nat): nat {
    if k == 0 then 1 else 2 * Pow2(k - 1)
  }

  /** `from` doubled k times. */
  function Grown(from: nat, k: nat): nat {
    if k == 0 then from else 2 * Grown(from, k - 1)
  }

  lemma {:induction false} GrownIsPower(from: nat, k: nat)
    ensures Grown(from, k) == from * Pow2(k)
  {
    if k > 0 { GrownIsPower(from, k - 1); }
  }

  lemma GrownPositive(from: nat, k: nat)
    ensures Grown(from, k) >= from
  {
  }

  lemma {:induction false} GrownShift(from: nat, k: nat)
    ensures Grown(2 * from, k) == Grown(from, k + 1)
  {
    if k > 0 { GrownShift(from, k - 1); }
  }

  lemma {:induction false} GrownMonotone(from: nat, j: nat, k: nat)
    requires j <= k
    ensures Grown(from, j) <= Grown(from, k)
  {
    if j < k { GrownMonotone(from, j, k - 1); }
  }

  lemma Pow62()
    ensures Pow2(62) == 0x4000_0000_0000_0000
  {
    assert Pow2(10) == 1024;
    assert Pow2(20) == 0x10_0000;
    assert Pow2(30) == 0x4000_0000;
    assert Pow2(40) == 0x100_0000_0000;
    assert Pow2(50) == 0x4_0000_0000_0000;
    assert Pow2(60) == 0x1000_0000_0000_0000;
  }

  lemma WrapShifts(x: int, q: int)
    ensures Wrap(x - q * 0x1_0000_0000_0000_0000) == Wrap(x)
  {
  }

  lemma WrapWhole(x: int)
    ensures Wrap(x * 0x1_0000_0000_0000_0000) == 0
  {
    WrapShifts(x * 0x1_0000_0000_0000_0000, x);
    assert x * 0x1_0000_0000_0000_0000 - x * 0x1_0000_0000_0000_0000 == 0;
  }

  lemma WrapDoubles(x: int)
    ensures Wrap(2 * Wrap(x)) == Wrap(2 * x)
  {
    var q := (x + 0x8000_0000_0000_0000) / 0x1_0000_0000_0000_0000;
    assert Wrap(x) == x - q * 0x1_0000_0000_0000_0000;
    WrapShifts(2 * x, 2 * q);
  }

  lemma DoubledAway(from: nat)
    ensures Wrap(Grown(from, 64)) == 0
  {
    GrownIsPower(from, 64);
    Pow62();
    assert Pow2(64) == 0x1_0000_0000_0000_0000;
    WrapWhole(from);
  }
}
