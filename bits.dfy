/**
 * Bitwise arithmetic on natural numbers read as unsigned bit-vectors.
 * These give the AND, OR, XOR and NOT nets their intended bitwise reading.
 */
module Bits {

  /** 2 to the power n. */
  function Pow2(n: nat): (r: nat)
    ensures r >= 1
  {
    if n == 0 then 1 else 2 * Pow2(n - 1)
  }

  /** Bit i of a, counting from the least-significant bit. */
  function Bit(a: nat, i: nat): nat
  {
    if i == 0 then a % 2 else Bit(a / 2, i - 1)
  }

  function BitAnd(a: nat, b: nat): nat
    decreases a + b
  {
    if a == 0 && b == 0 then 0
    else 2 * BitAnd(a / 2, b / 2) + (if a % 2 == 1 && b % 2 == 1 then 1 else 0)
  }

  function BitOr(a: nat, b: nat): nat
    decreases a + b
  {
    if a == 0 && b == 0 then 0
    else 2 * BitOr(a / 2, b / 2) + (if a % 2 == 1 || b % 2 == 1 then 1 else 0)
  }

  function BitXor(a: nat, b: nat): nat
    decreases a + b
  {
    if a == 0 && b == 0 then 0
    else 2 * BitXor(a / 2, b / 2) + (if a % 2 != b % 2 then 1 else 0)
  }

  /** The complement of the low w bits of a. */
  function BitNot(a: nat, w: nat): nat
  {
    if w == 0 then 0 else 2 * BitNot(a / 2, w - 1) + (1 - a % 2)
  }

  lemma {:induction false} Pow2Add(m: nat, n: nat)
    ensures Pow2(m + n) == Pow2(m) * Pow2(n)
  {
    if m > 0 {
      Pow2Add(m - 1, n);
    }
  }

  lemma {:induction false} Pow2Monotone(m: nat, n: nat)
    requires m <= n
    ensures Pow2(m) <= Pow2(n)
  {
    if m < n {
      Pow2Monotone(m, n - 1);
    }
  }

  /** Each bit of a AND b is set exactly when both corresponding bits are. */
  lemma {:induction false} BitAndAt(a: nat, b: nat, i: nat)
    ensures Bit(BitAnd(a, b), i) == (if Bit(a, i) == 1 && Bit(b, i) == 1 then 1 else 0)
  {
    BitAndStep(a, b);
    if i > 0 {
      BitAndAt(a / 2, b / 2, i - 1);
      assert Bit(BitAnd(a, b), i) == Bit(BitAnd(a / 2, b / 2), i - 1);
      assert Bit(a, i) == Bit(a / 2, i - 1) && Bit(b, i) == Bit(b / 2, i - 1);
    }
  }

  lemma BitAndStep(a: nat, b: nat)
    ensures BitAnd(a, b) / 2 == BitAnd(a / 2, b / 2)
    ensures BitAnd(a, b) % 2 == if a % 2 == 1 && b % 2 == 1 then 1 else 0
  {
    if a == 0 && b == 0 {
      assert a / 2 == 0 && b / 2 == 0;
    }
  }

  /** Each bit of a OR b is set exactly when one of the corresponding bits is. */
  lemma {:induction false} BitOrAt(a: nat, b: nat, i: nat)
    ensures Bit(BitOr(a, b), i) == (if Bit(a, i) == 1 || Bit(b, i) == 1 then 1 else 0)
  {
    BitOrStep(a, b);
    if i > 0 {
      BitOrAt(a / 2, b / 2, i - 1);
      assert Bit(BitOr(a, b), i) == Bit(BitOr(a / 2, b / 2), i - 1);
      assert Bit(a, i) == Bit(a / 2, i - 1) && Bit(b, i) == Bit(b / 2, i - 1);
    }
  }

  lemma BitOrStep(a: nat, b: nat)
    ensures BitOr(a, b) / 2 == BitOr(a / 2, b / 2)
    ensures BitOr(a, b) % 2 == if a % 2 == 1 || b % 2 == 1 then 1 else 0
  {
    if a == 0 && b == 0 {
      assert a / 2 == 0 && b / 2 == 0;
    }
  }

  /** Each bit of a XOR b is set exactly when the corresponding bits differ. */
  lemma {:induction false} BitXorAt(a: nat, b: nat, i: nat)
    ensures Bit(BitXor(a, b), i) == (if Bit(a, i) != Bit(b, i) then 1 else 0)
  {
    BitXorStep(a, b);
    if i > 0 {
      BitXorAt(a / 2, b / 2, i - 1);
      assert Bit(BitXor(a, b), i) == Bit(BitXor(a / 2, b / 2), i - 1);
      assert Bit(a, i) == Bit(a / 2, i - 1) && Bit(b, i) == Bit(b / 2, i - 1);
    }
  }

  lemma BitXorStep(a: nat, b: nat)
    ensures BitXor(a, b) / 2 == BitXor(a / 2, b / 2)
    ensures BitXor(a, b) % 2 == if a % 2 != b % 2 then 1 else 0
  {
    if a == 0 && b == 0 {
      assert a / 2 == 0 && b / 2 == 0;
    }
  }

  /** Within its width, NOT flips every bit; above it, every bit is clear. */
  lemma {:induction false} BitNotAt(a: nat, w: nat, i: nat)
    ensures Bit(BitNot(a, w), i) == if i < w then 1 - Bit(a, i) else 0
  {
    if w == 0 {
      ZeroBits(i);
    } else if i > 0 {
      BitNotAt(a / 2, w - 1, i - 1);
    }
  }

  lemma {:induction false} ZeroBits(i: nat)
    ensures Bit(0, i) == 0
  {
    if i > 0 {
      ZeroBits(i - 1);
    }
  }

  /** Two numbers below 2^w with the same low w bits are equal. */
  lemma {:induction false} BitsDetermine(a: nat, b: nat, w: nat)
    requires a < Pow2(w) && b < Pow2(w)
    requires forall i :: 0 <= i < w ==> Bit(a, i) == Bit(b, i)
    ensures a == b
  {
    if w > 0 {
      forall i | 0 <= i < w - 1
        ensures Bit(a / 2, i) == Bit(b / 2, i)
      {
        assert Bit(a, i + 1) == Bit(b, i + 1);
      }
      assert Bit(a, 0) == Bit(b, 0);
      BitsDetermine(a / 2, b / 2, w - 1);
    }
  }

  lemma {:induction false} BitNotBound(a: nat, w: nat)
    ensures BitNot(a, w) < Pow2(w)
  {
    if w > 0 {
      BitNotBound(a / 2, w - 1);
    }
  }

  lemma {:induction false} BitAndBound(a: nat, b: nat, w: nat)
    requires a < Pow2(w) && b < Pow2(w)
    ensures BitAnd(a, b) < Pow2(w)
    decreases w
  {
    if w > 0 && !(a == 0 && b == 0) {
      BitAndBound(a / 2, b / 2, w - 1);
    }
  }

  lemma {:induction false} BitOrBound(a: nat, b: nat, w: nat)
    requires a < Pow2(w) && b < Pow2(w)
    ensures BitOr(a, b) < Pow2(w)
    decreases w
  {
    if w > 0 && !(a == 0 && b == 0) {
      BitOrBound(a / 2, b / 2, w - 1);
    }
  }

  lemma {:induction false} BitXorBound(a: nat, b: nat, w: nat)
    requires a < Pow2(w) && b < Pow2(w)
    ensures BitXor(a, b) < Pow2(w)
    decreases w
  {
    if w > 0 && !(a == 0 && b == 0) {
      BitXorBound(a / 2, b / 2, w - 1);
    }
  }

  /** De Morgan's law on w-bit values: NOT(NOT a AND NOT b) is a OR b. */
  lemma {:induction false} DeMorgan(a: nat, b: nat, w: nat)
    requires a < Pow2(w) && b < Pow2(w)
    ensures BitNot(BitAnd(BitNot(a, w), BitNot(b, w)), w) == BitOr(a, b)
  {
    var lhs := BitNot(BitAnd(BitNot(a, w), BitNot(b, w)), w);
    BitNotBound(BitAnd(BitNot(a, w), BitNot(b, w)), w);
    BitOrBound(a, b, w);
    forall i | 0 <= i < w
      ensures Bit(lhs, i) == Bit(BitOr(a, b), i)
    {
      BitNotAt(BitAnd(BitNot(a, w), BitNot(b, w)), w, i);
      BitAndAt(BitNot(a, w), BitNot(b, w), i);
      BitNotAt(a, w, i);
      BitNotAt(b, w, i);
      BitOrAt(a, b, i);
      BitIsBinary(a, i);
      BitIsBinary(b, i);
    }
    BitsDetermine(lhs, BitOr(a, b), w);
  }

  lemma {:induction false} BitIsBinary(a: nat, i: nat)
    ensures Bit(a, i) == 0 || Bit(a, i) == 1
  {
    if i > 0 {
      BitIsBinary(a / 2, i - 1);
    }
  }

  /** a shifted right by s bits, one halving at a time. */
  function ShiftRight(a: nat, s: nat): nat
  {
    if s == 0 then a else ShiftRight(a / 2, s - 1)
  }

  /** The low n bits of a, one bit at a time. */
  function Truncate(a: nat, n: nat): nat
  {
    if n == 0 then 0 else 2 * Truncate(a / 2, n - 1) + a % 2
  }

  /** Bit i of a shifted right by s is bit s + i of a. */
  lemma {:induction false} ShiftedBit(a: nat, s: nat, i: nat)
    ensures Bit(ShiftRight(a, s), i) == Bit(a, s + i)
  {
    if s > 0 {
      ShiftedBit(a / 2, s - 1, i);
      assert Bit(a, s + i) == Bit(a / 2, s - 1 + i);
    }
  }

  /** Bit i of the low n bits of a is bit i of a for i below n, and 0 from n on. */
  lemma {:induction false} TruncatedBit(a: nat, n: nat, i: nat)
    ensures Bit(Truncate(a, n), i) == if i < n then Bit(a, i) else 0
  {
    if n == 0 {
      ZeroBits(i);
    } else {
      var t := Truncate(a / 2, n - 1);
      assert Truncate(a, n) % 2 == a % 2 && Truncate(a, n) / 2 == t;
      if i > 0 {
        TruncatedBit(a / 2, n - 1, i - 1);
      }
    }
  }

  lemma {:induction false} TruncateBound(a: nat, n: nat)
    ensures Truncate(a, n) < Pow2(n)
  {
    if n > 0 {
      TruncateBound(a / 2, n - 1);
    }
  }

  /** Shifting right by s is division by 2^s. */
  lemma {:induction false} ShiftIsDivision(a: nat, s: nat)
    ensures ShiftRight(a, s) == a / Pow2(s)
  {
    if s > 0 {
      ShiftIsDivision(a / 2, s - 1);
      HalveThenShift(a, s);
    }
  }

  /** Keeping the low n bits is reduction modulo 2^n. */
  lemma {:induction false} TruncateIsModulo(a: nat, n: nat)
    ensures Truncate(a, n) == a % Pow2(n)
  {
    if n > 0 {
      TruncateIsModulo(a / 2, n - 1);
      HalveThenTruncate(a, n);
      TruncateBound(a, n);
      DivModUnique(a % Pow2(n), 2, Truncate(a / 2, n - 1), a % 2);
    }
  }

  /** Halving and then shifting by s - 1 is shifting by s. */
  lemma HalveThenShift(a: nat, s: nat)
    requires s > 0
    ensures a / 2 / Pow2(s - 1) == a / Pow2(s)
  {
    var p := Pow2(s - 1);
    var q, r := a / 2 / p, a / 2 % p;
    assert a / 2 == q * p + r;
    assert a == q * (2 * p) + (2 * r + a % 2);
    DivModUnique(a, 2 * p, q, 2 * r + a % 2);
  }

  /** Reducing modulo 2^n keeps the low bit, and halving it is halving a and reducing modulo 2^(n-1). */
  lemma HalveThenTruncate(a: nat, n: nat)
    requires n > 0
    ensures (a % Pow2(n)) / 2 == (a / 2) % Pow2(n - 1)
    ensures (a % Pow2(n)) % 2 == a % 2
  {
    var p := Pow2(n - 1);
    var q, r := a / 2 / p, a / 2 % p;
    assert a / 2 == q * p + r;
    assert a == q * (2 * p) + (2 * r + a % 2);
    DivModUnique(a, 2 * p, q, 2 * r + a % 2);
    DivModUnique(2 * r + a % 2, 2, r, a % 2);
  }

  lemma DivModUnique(n: nat, p: nat, q: nat, r: nat)
    requires p > 0 && r < p && n == q * p + r
    ensures n / p == q && n % p == r
  {
    var q', r' := n / p, n % p;
    assert n == q' * p + r';
    if q' > q {
      MulMonotone(q + 1, q', p);
    } else if q' < q {
      MulMonotone(q' + 1, q, p);
    }
  }

  lemma MulMonotone(a: nat, b: nat, c: nat)
    requires a <= b
    ensures a * c <= b * c
  {
  }

  /** OR with zero leaves a value unchanged. */
  lemma {:induction false} BitOrZero(a: nat)
    ensures BitOr(a, 0) == a
    decreases a
  {
    if a > 0 {
      BitOrZero(a / 2);
    }
  }
}
