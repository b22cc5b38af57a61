/** Shift and inclusive or on natural numbers, digit by binary digit. */
module Bits {
  function Pow2(k: nat): (r: nat)
    ensures r > 0
  {
    if k == 0 then 1 else 2 * Pow2(k - 1)
  }

  function Or(a: nat, b: nat): nat
    decreases a + b
  {
    if a == 0 && b == 0 then 0
    else (if a % 2 == 1 || b % 2 == 1 then 1 else 0) + 2 * Or(a / 2, b / 2)
  }

  function Shl(a: nat, k: nat): nat
  {
    a * Pow2(k)
  }

  lemma {:induction false} OrZero(a: nat)
    ensures Or(a, 0) == a
  {
    if a > 0 { OrZero(a / 2); }
  }

  lemma {:induction false} OrCommutes(a: nat, b: nat)
    ensures Or(a, b) == Or(b, a)
    decreases a + b
  {
    if a > 0 || b > 0 { OrCommutes(a / 2, b / 2); }
  }

  /** Digits that do not overlap: or is addition. */
  lemma {:induction false} OrDisjoint(high: nat, k: nat, low: nat)
    requires low < Pow2(k)
    ensures Or(Shl(high, k), low) == Shl(high, k) + low
    ensures Or(low, Shl(high, k)) == Shl(high, k) + low
    decreases k
  {
    if k == 0 {
      OrZero(high);
    } else {
      assert Shl(high, k) == 2 * Shl(high, k - 1) by { Doubling(high, Pow2(k - 1)); }
      OrDisjoint(high, k - 1, low / 2);
      if Shl(high, k) == 0 && low == 0 {
      } else {
        assert Or(Shl(high, k), low) == low % 2 + 2 * Or(Shl(high, k - 1), low / 2);
      }
    }
    OrCommutes(Shl(high, k), low);
  }

  lemma Doubling(a: nat, b: nat)
    ensures a * (2 * b) == 2 * (a * b)
  {
  }

  lemma Pow2Values()
    ensures Pow2(7) == 128 && Pow2(12) == 4096 && Pow2(14) == 16384 && Pow2(20) == 1048576 && Pow2(21) == 2097152
    ensures Pow2(28) == 268435456 && Pow2(31) == 2147483648 && Pow2(32) == 4294967296
  {
    assert Pow2(7) == 128;
    assert Pow2(12) == 4096;
    assert Pow2(14) == 16384;
    assert Pow2(20) == 1048576;
    assert Pow2(21) == 2097152;
    assert Pow2(28) == 268435456;
    assert Pow2(31) == 2147483648;
  }
}
