/** Bitwise or, and the bits of a number, on natural numbers. */
module Bits {
  /** Bitwise or. */
  function Or(a: nat, b: nat): nat
    decreases a + b
  {
    if a == 0 && b == 0 then 0
    else (if a % 2 == 1 || b % 2 == 1 then 1 else 0) + 2 * Or(a / 2, b / 2)
  }

  function Pow2(n: nat): nat {
    if n == 0 then 1 else 2 * Pow2(n - 1)
  }

  lemma {:induction false} OrBelow(a: nat, b: nat, n: nat)
    requires a < Pow2(n) && b < Pow2(n)
    ensures Or(a, b) < Pow2(n)
  {
    if n > 0 {
      OrBelow(a / 2, b / 2, n - 1);
    }
  }

  lemma Pow2Of32()
    ensures Pow2(32) == 0x1_0000_0000
  {
    assert Pow2(8) == 0x100;
    assert Pow2(16) == 0x1_0000;
    assert Pow2(24) == 0x100_0000;
  }

  lemma {:induction false} OrZero(b: nat)
    ensures Or(0, b) == b
    decreases b
  {
    if b > 0 {
      OrZero(b / 2);
    }
  }

  /** Bits put above the others are added. */
  lemma {:induction false} OrAbove(a: nat, c: nat, n: nat)
    requires a < Pow2(n)
    ensures Or(a, c * Pow2(n)) == a + c * Pow2(n)
    decreases n
  {
    if n == 0 {
      OrZero(c);
    } else {
      var b := c * Pow2(n - 1);
      Doubled(c, n);
      OrAbove(a / 2, c, n - 1);
      if a != 0 || b != 0 {
        assert Or(a, 2 * b) == a % 2 + 2 * Or(a / 2, b);
      }
    }
  }

  lemma Doubled(c: nat, n: nat)
    requires n > 0
    ensures c * Pow2(n) == 2 * (c * Pow2(n - 1))
  {
  }

  // ---------------------------------------------------------------- single bits

  predicate Bit(w: nat, k: nat) {
    if k == 0 then w % 2 == 1 else Bit(w / 2, k - 1)
  }

  lemma {:induction false} NoBits(k: nat)
    ensures !Bit(0, k)
  {
    if k > 0 {
      NoBits(k - 1);
    }
  }

  lemma {:induction false} OrBit(a: nat, b: nat, k: nat)
    ensures Bit(Or(a, b), k) == (Bit(a, k) || Bit(b, k))
    decreases k
  {
    if a == 0 && b == 0 {
      NoBits(k);
    } else if k > 0 {
      OrBit(a / 2, b / 2, k - 1);
    }
  }

  lemma {:induction false} Pow2Bit(n: nat, k: nat)
    ensures Bit(Pow2(n), k) == (n == k)
  {
    if n == 0 {
      if k > 0 {
        NoBits(k - 1);
      }
    } else if k > 0 {
      Pow2Bit(n - 1, k - 1);
    }
  }

  /** n ones. */
  lemma {:induction false} OnesBit(n: nat, k: nat)
    ensures Pow2(n) >= 1 && Bit(Pow2(n) - 1, k) == (k < n)
  {
    if n == 0 {
      NoBits(k);
    } else if k == 0 {
      OnesBit(n - 1, 0);
    } else {
      OnesBit(n - 1, k - 1);
      assert (Pow2(n) - 1) / 2 == Pow2(n - 1) - 1;
    }
  }

  lemma {:induction false} SameBits(w: nat, v: nat, n: nat)
    requires w < Pow2(n) && v < Pow2(n)
    requires forall k :: 0 <= k < n ==> Bit(w, k) == Bit(v, k)
    ensures w == v
  {
    if n > 0 {
      assert Bit(w, 0) == Bit(v, 0);
      forall k | 0 <= k < n - 1 ensures Bit(w / 2, k) == Bit(v / 2, k) {
        assert Bit(w, k + 1) == Bit(v, k + 1);
      }
      SameBits(w / 2, v / 2, n - 1);
    }
  }

  lemma {:induction false} Pow2Grows(m: nat, n: nat)
    requires m <= n
    ensures 1 <= Pow2(m) <= Pow2(n)
    decreases n
  {
    if m > 0 {
      Pow2Grows(m - 1, n - 1);
    } else if n > 0 {
      Pow2Grows(0, n - 1);
    }
  }

  predicate AllSet(w: nat, n: nat) {
    forall k :: 0 <= k < n ==> Bit(w, k)
  }

  /** A word is n ones exactly when its low n bits are set, if none above them is. */
  lemma OnesAre(w: nat, n: nat, width: nat)
    requires n <= width && w < Pow2(width)
    requires forall k :: n <= k < width ==> !Bit(w, k)
    ensures Pow2(n) >= 1 && (w == Pow2(n) - 1) == AllSet(w, n)
  {
    hide Pow2;
    Pow2Grows(n, width);
    var ones := Pow2(n) - 1;
    forall k | 0 <= k < width ensures Bit(ones, k) == (k < n) {
      OnesBit(n, k);
    }
    assert AllSet(ones, n);
    if AllSet(w, n) {
      SameBits(w, ones, width);
    }
  }
}
