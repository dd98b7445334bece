/** Ruby Integer bit operators on non-negative integers.
    Ruby integers are unbounded, so the operators are defined on `nat` by
    their binary digits (lowest digit first); nothing here wraps around. */
module Bits {

  /** 2^n */
  function Pow2(n: nat): (r: nat)
    ensures r > 0
  {
    if n == 0 then 1 else 2 * Pow2(n - 1)
  }

  /** 0xFFFFFFFFFFFFFFFF, the largest unsigned 64-bit integer. */
  const MaxUint64: nat := 0xFFFF_FFFF_FFFF_FFFF

  /** The integers a 64-bit bit vector can hold. */
  type UInt64 = x: nat | x <= MaxUint64

  /** Bit i of x (Ruby's x[i]). */
  predicate Bit(x: nat, i: nat)
  {
    if i == 0 then x % 2 == 1 else Bit(x / 2, i - 1)
  }

  /** x & y */
  function And(x: nat, y: nat): nat
    decreases x
  {
    if x == 0 || y == 0 then 0
    else 2 * And(x / 2, y / 2) + (if x % 2 == 1 && y % 2 == 1 then 1 else 0)
  }

  /** x | y */
  function Or(x: nat, y: nat): nat
    decreases x + y
  {
    if x == 0 then y
    else if y == 0 then x
    else 2 * Or(x / 2, y / 2) + (if x % 2 == 1 || y % 2 == 1 then 1 else 0)
  }

  /** x ^ y */
  function Xor(x: nat, y: nat): nat
    decreases x + y
  {
    if x == 0 then y
    else if y == 0 then x
    else 2 * Xor(x / 2, y / 2) + (if x % 2 != y % 2 then 1 else 0)
  }

  /** x >> n */
  function ShiftRight(x: nat, n: nat): nat
  {
    if n == 0 then x else ShiftRight(x, n - 1) / 2
  }

  /** x << n (no truncation: Ruby integers grow) */
  function ShiftLeft(x: nat, n: nat): nat
  {
    if n == 0 then x else 2 * ShiftLeft(x, n - 1)
  }

  // ---------------------------------------------------------------------
  // Powers of two

  lemma {:induction false} Pow2Add(a: nat, b: nat)
    ensures Pow2(a + b) == Pow2(a) * Pow2(b)
  {
    if a > 0 {
      Pow2Add(a - 1, b);
      assert Pow2(a + b) == 2 * Pow2(a - 1 + b);
    }
  }

  lemma {:induction false} Pow2Less(a: nat, b: nat)
    requires a < b
    ensures Pow2(a) < Pow2(b)
  {
    if a + 1 < b {
      Pow2Less(a, b - 1);
    }
  }

  lemma {:induction false} ShiftLeftOne(n: nat)
    ensures ShiftLeft(1, n) == Pow2(n)
  {
    if n > 0 {
      ShiftLeftOne(n - 1);
    }
  }

  /** MAXUINT64 is 2^64 - 1. */
  lemma MaxUint64IsAllOnes()
    ensures Pow2(64) == MaxUint64 + 1
  {
    assert Pow2(8) == 0x100;
    Pow2Add(8, 8);
    assert Pow2(16) == 0x1_0000;
    Pow2Add(16, 16);
    assert Pow2(32) == 0x1_0000_0000;
    Pow2Add(32, 32);
    assert Pow2(64) == 0x1_0000_0000_0000_0000;
  }

  // ---------------------------------------------------------------------
  // Bits of the basic values

  lemma {:induction false} ZeroBit(i: nat)
    ensures !Bit(0, i)
  {
    if i > 0 {
      ZeroBit(i - 1);
    }
  }

  /** The only bit of 2^j is bit j. */
  lemma {:induction false} Pow2Bit(j: nat, i: nat)
    ensures Bit(Pow2(j), i) <==> i == j
  {
    if i == 0 {
      assert j > 0 ==> Pow2(j) % 2 == 0;
    } else if j == 0 {
      ZeroBit(i - 1);
    } else {
      assert Pow2(j) / 2 == Pow2(j - 1);
      Pow2Bit(j - 1, i - 1);
    }
  }

  /** 2^n - 1 has exactly the bits 0..n-1. */
  lemma {:induction false} AllOnesBit(n: nat, i: nat)
    ensures Bit(Pow2(n) - 1, i) <==> i < n
  {
    if n == 0 {
      ZeroBit(i);
    } else if i > 0 {
      assert (Pow2(n) - 1) / 2 == Pow2(n - 1) - 1;
      AllOnesBit(n - 1, i - 1);
    }
  }

  /** Two numbers below 2^n with the same bits 0..n-1 are equal. */
  lemma {:induction false} BitsEqual(x: nat, y: nat, n: nat)
    requires x < Pow2(n) && y < Pow2(n)
    requires forall i :: 0 <= i < n ==> (Bit(x, i) <==> Bit(y, i))
    ensures x == y
  {
    if n > 0 {
      assert Bit(x, 0) <==> Bit(y, 0);
      forall i | 0 <= i < n - 1
        ensures Bit(x / 2, i) <==> Bit(y / 2, i)
      {
        assert Bit(x, i + 1) <==> Bit(y, i + 1);
      }
      BitsEqual(x / 2, y / 2, n - 1);
    }
  }

  /** Subtracting from 2^n - 1 complements bits 0..n-1. */
  lemma {:induction false} ComplementBit(x: nat, n: nat, i: nat)
    requires x < Pow2(n) && i < n
    ensures Bit(Pow2(n) - 1 - x, i) <==> !Bit(x, i)
  {
    assert Pow2(n) == 2 * Pow2(n - 1);
    if i > 0 {
      assert (Pow2(n) - 1 - x) / 2 == Pow2(n - 1) - 1 - x / 2;
      ComplementBit(x / 2, n - 1, i - 1);
    }
  }

  // ---------------------------------------------------------------------
  // Bits of the operators

  lemma {:induction false} AndBit(x: nat, y: nat, i: nat)
    ensures Bit(And(x, y), i) <==> Bit(x, i) && Bit(y, i)
    decreases i
  {
    if x == 0 || y == 0 {
      ZeroBit(i);
    } else {
      var low := if x % 2 == 1 && y % 2 == 1 then 1 else 0;
      assert And(x, y) == 2 * And(x / 2, y / 2) + low;
      if i > 0 {
        assert And(x, y) / 2 == And(x / 2, y / 2);
        AndBit(x / 2, y / 2, i - 1);
      }
    }
  }

  lemma {:induction false} OrBit(x: nat, y: nat, i: nat)
    ensures Bit(Or(x, y), i) <==> Bit(x, i) || Bit(y, i)
    decreases i
  {
    if x == 0 || y == 0 {
      ZeroBit(i);
    } else {
      var low := if x % 2 == 1 || y % 2 == 1 then 1 else 0;
      assert Or(x, y) == 2 * Or(x / 2, y / 2) + low;
      if i > 0 {
        assert Or(x, y) / 2 == Or(x / 2, y / 2);
        OrBit(x / 2, y / 2, i - 1);
      }
    }
  }

  lemma {:induction false} XorBit(x: nat, y: nat, i: nat)
    ensures Bit(Xor(x, y), i) <==> (Bit(x, i) != Bit(y, i))
    decreases i
  {
    if x == 0 || y == 0 {
      ZeroBit(i);
    } else {
      var low := if x % 2 != y % 2 then 1 else 0;
      assert Xor(x, y) == 2 * Xor(x / 2, y / 2) + low;
      if i > 0 {
        assert Xor(x, y) / 2 == Xor(x / 2, y / 2);
        XorBit(x / 2, y / 2, i - 1);
      }
    }
  }

  lemma {:induction false} ShiftRightBit(x: nat, n: nat, i: nat)
    ensures Bit(ShiftRight(x, n), i) <==> Bit(x, i + n)
  {
    if n > 0 {
      ShiftRightBit(x, n - 1, i + 1);
    }
  }

  lemma {:induction false} ShiftLeftBit(x: nat, n: nat, i: nat)
    ensures Bit(ShiftLeft(x, n), i) <==> n <= i && Bit(x, i - n)
  {
    if n > 0 {
      if i == 0 {
        assert ShiftLeft(x, n) % 2 == 0;
      } else {
        assert ShiftLeft(x, n) / 2 == ShiftLeft(x, n - 1);
        ShiftLeftBit(x, n - 1, i - 1);
      }
    }
  }

  // ---------------------------------------------------------------------
  // Widths

  lemma {:induction false} AndBound(x: nat, y: nat, n: nat)
    requires x < Pow2(n)
    ensures And(x, y) < Pow2(n)
  {
    if n > 0 && x != 0 && y != 0 {
      AndBound(x / 2, y / 2, n - 1);
    }
  }

  lemma {:induction false} OrBound(x: nat, y: nat, n: nat)
    requires x < Pow2(n) && y < Pow2(n)
    ensures Or(x, y) < Pow2(n)
  {
    if n > 0 && x != 0 && y != 0 {
      OrBound(x / 2, y / 2, n - 1);
    }
  }

  lemma {:induction false} XorBound(x: nat, y: nat, n: nat)
    requires x < Pow2(n) && y < Pow2(n)
    ensures Xor(x, y) < Pow2(n)
  {
    if n > 0 && x != 0 && y != 0 {
      XorBound(x / 2, y / 2, n - 1);
    }
  }

  /** A number whose bits all lie below n is below 2^n. */
  lemma {:induction false} BoundFromBits(x: nat, n: nat)
    requires forall i :: n <= i ==> !Bit(x, i)
    ensures x < Pow2(n)
    decreases x
  {
    if x > 0 {
      if n == 0 {
        assert !Bit(x, 0);
        forall i | 0 <= i
          ensures !Bit(x / 2, i)
        {
          assert !Bit(x, i + 1);
        }
        BoundFromBits(x / 2, 0);
        assert false;
      } else {
        forall i | n - 1 <= i
          ensures !Bit(x / 2, i)
        {
          assert !Bit(x, i + 1);
        }
        BoundFromBits(x / 2, n - 1);
      }
    }
  }
}
