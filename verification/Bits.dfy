/** Unsigned integers as strings of binary digits, least significant first.
    These stand for the masks and shifts of the original: `u >> k & 1` is `Bit(u, k)`,
    `u |= 1 << k` is `SetBit(u, k)` and `(u >> k) as u8` is `Octet(u, k)`. */
module Bits {
  import opened Machine

  predicate Bit(u: nat, k: nat)
    decreases k
  {
    if k == 0 then u % 2 == 1 else Bit(u / 2, k - 1)
  }

  /** `u | 1 << k` */
  function SetBit(u: nat, k: nat): nat
    decreases k
  {
    if k == 0 then u / 2 * 2 + 1 else SetBit(u / 2, k - 1) * 2 + u % 2
  }

  /** `u & !(1 << k)` */
  function ClearBit(u: nat, k: nat): nat
    decreases k
  {
    if k == 0 then u / 2 * 2 else ClearBit(u / 2, k - 1) * 2 + u % 2
  }

  /** `u >> k` */
  function ShiftRight(u: nat, k: nat): nat
    decreases k
  {
    if k == 0 then u else ShiftRight(u / 2, k - 1)
  }

  /** `u & ((1 << n) - 1)` */
  function LowBits(u: nat, n: nat): nat
    decreases n
  {
    if n == 0 then 0 else LowBits(u / 2, n - 1) * 2 + u % 2
  }

  /** `!0 << k` in a word of n digits. */
  function HighOnes(n: nat, k: nat): nat
    decreases n
  {
    if n == 0 then 0
    else if k == 0 then HighOnes(n - 1, 0) * 2 + 1
    else HighOnes(n - 1, k - 1) * 2
  }

  function Pow2(n: nat): nat {
    if n == 0 then 1 else 2 * Pow2(n - 1)
  }

  /** `(u >> k) as u8` */
  function Octet(u: nat, k: nat): byte {
    LowBound(ShiftRight(u, k), 8);
    ByteRange();
    LowBits(ShiftRight(u, k), 8)
  }

  lemma {:induction false} BitOfSetBit(u: nat, k: nat, j: nat)
    ensures Bit(SetBit(u, k), j) <==> j == k || Bit(u, j)
    decreases k
  {
    SetBitDigits(u, k);
    if k > 0 && j > 0 {
      BitOfSetBit(u / 2, k - 1, j - 1);
    }
    hide SetBit;
  }

  lemma SetBitDigits(u: nat, k: nat)
    ensures SetBit(u, k) % 2 == if k == 0 then 1 else u % 2
    ensures SetBit(u, k) / 2 == if k == 0 then u / 2 else SetBit(u / 2, k - 1)
  {
  }

  lemma {:induction false} BitOfClearBit(u: nat, k: nat, j: nat)
    ensures Bit(ClearBit(u, k), j) <==> j != k && Bit(u, j)
    decreases k
  {
    if k > 0 && j > 0 {
      BitOfClearBit(u / 2, k - 1, j - 1);
    }
  }

  lemma {:induction false} BitOfHighOnes(n: nat, k: nat, j: nat)
    ensures Bit(HighOnes(n, k), j) <==> k <= j < n
    ensures HighOnes(n, k) < Pow2(n)
    decreases n
  {
    if n == 0 {
      ZeroHasNoBits(j);
    } else if j > 0 {
      BitOfHighOnes(n - 1, if k == 0 then 0 else k - 1, j - 1);
    } else {
      BitOfHighOnes(n - 1, if k == 0 then 0 else k - 1, 0);
    }
  }

  lemma {:induction false} BitOfShift(u: nat, k: nat, j: nat)
    ensures Bit(ShiftRight(u, k), j) <==> Bit(u, k + j)
    decreases k
  {
    if k > 0 {
      BitOfShift(u / 2, k - 1, j);
    }
  }

  lemma {:induction false} BitOfLow(u: nat, n: nat, j: nat)
    ensures Bit(LowBits(u, n), j) <==> j < n && Bit(u, j)
    decreases n
  {
    if n == 0 {
      ZeroHasNoBits(j);
    } else if j > 0 {
      BitOfLow(u / 2, n - 1, j - 1);
    }
  }

  lemma {:induction false} ZeroHasNoBits(j: nat)
    ensures !Bit(0, j)
    decreases j
  {
    if j > 0 {
      ZeroHasNoBits(j - 1);
    }
  }

  lemma HalfBelow(u: nat, p: nat)
    ensures u / 2 < p <==> u < 2 * p
  {
  }

  lemma {:induction false} SetBitBound(u: nat, k: nat, n: nat)
    requires u < Pow2(n) && k < n
    ensures SetBit(u, k) < Pow2(n)
    decreases k
  {
    SetBitDigits(u, k);
    hide SetBit;
    HalfBelow(u, Pow2(n - 1));
    HalfBelow(SetBit(u, k), Pow2(n - 1));
    if k > 0 {
      SetBitBound(u / 2, k - 1, n - 1);
    }
  }

  lemma {:induction false} ClearBitBound(u: nat, k: nat)
    ensures ClearBit(u, k) <= u
    decreases k
  {
    if k > 0 {
      ClearBitBound(u / 2, k - 1);
    }
  }

  lemma ByteRange()
    ensures Pow2(8) == 256
  {
    assert Pow2(4) == 16;
    assert Pow2(8) == 16 * Pow2(4);
  }

  /** Truncation to eight bits keeps exactly the eight low digits. */
  lemma BitOfOctet(u: nat, k: nat, j: nat)
    requires j < 8
    ensures Bit(Octet(u, k), j) <==> Bit(u, k + j)
  {
    BitOfLow(ShiftRight(u, k), 8, j);
    BitOfShift(u, k, j);
  }

  lemma {:induction false} LowBound(u: nat, n: nat)
    ensures LowBits(u, n) < Pow2(n)
    decreases n
  {
    if n > 0 {
      LowBound(u / 2, n - 1);
    }
  }

  /** Two numbers below 2^n with the same n digits are equal. */
  lemma {:induction false} SameBits(u: nat, v: nat, n: nat)
    requires u < Pow2(n) && v < Pow2(n)
    requires forall j: nat :: j < n ==> (Bit(u, j) <==> Bit(v, j))
    ensures u == v
    decreases n
  {
    if n > 0 {
      assert Bit(u, 0) <==> Bit(v, 0);
      forall j: nat | j < n - 1
        ensures Bit(u / 2, j) <==> Bit(v / 2, j)
      {
        assert Bit(u, j + 1) <==> Bit(v, j + 1);
      }
      SameBits(u / 2, v / 2, n - 1);
    }
  }

  /** A byte is determined by its eight digits. */
  lemma SameByte(u: byte, v: byte)
    requires forall j: nat :: j < 8 ==> (Bit(u, j) <==> Bit(v, j))
    ensures u == v
  {
    ByteRange();
    SameBits(u, v, 8);
  }

  /** A mask test against the low n digits fails exactly when all of them are clear. */
  lemma LowBitsZero(u: nat, n: nat)
    ensures LowBits(u, n) == 0 <==> forall j: nat :: j < n ==> !Bit(u, j)
  {
    if j: nat :| j < n && Bit(u, j) {
      BitOfLow(u, n, j);
      ZeroHasNoBits(j);
    } else {
      forall j: nat | j < n
        ensures Bit(LowBits(u, n), j) <==> Bit(0, j)
      {
        BitOfLow(u, n, j);
        ZeroHasNoBits(j);
      }
      LowBound(u, n);
      SameBits(LowBits(u, n), 0, n);
    }
  }
}
