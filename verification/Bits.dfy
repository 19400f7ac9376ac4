/** The bit operators of unbounded non-negative integers, and what masks and shifts do to their digits. */
module Bits {

  function And(a: nat, b: nat): nat {
    if a == 0 || b == 0 then 0 else a % 2 * (b % 2) + 2 * And(a / 2, b / 2)
  }

  function Or(a: nat, b: nat): nat {
    if a == 0 then b
    else if b == 0 then a
    else (if a % 2 == 1 || b % 2 == 1 then 1 else 0) + 2 * Or(a / 2, b / 2)
  }

  function Shl(a: nat, n: nat): nat
    decreases n
  {
    if n == 0 then a else 2 * Shl(a, n - 1)
  }

  function Shr(a: nat, n: nat): nat
    decreases n
  {
    if n == 0 then a else Shr(a / 2, n - 1)
  }

  /** The number made of the lowest n bits. */
  function Low(a: nat, n: nat): nat
    decreases n
  {
    if n == 0 then 0 else a % 2 + 2 * Low(a / 2, n - 1)
  }

  function Ones(n: nat): nat {
    if n == 0 then 0 else 2 * Ones(n - 1) + 1
  }

  lemma AndEven(a: nat, b: nat)
    ensures And(a, 2 * b) == 2 * And(a / 2, b)
  {
    assert (2 * b) % 2 == 0 && (2 * b) / 2 == b;
  }

  lemma AndOdd(a: nat, b: nat)
    ensures And(a, 2 * b + 1) == a % 2 + 2 * And(a / 2, b)
  {
    assert (2 * b + 1) % 2 == 1 && (2 * b + 1) / 2 == b;
  }

  /** A mask moved up by n bits masks the bits above the lowest n. */
  lemma {:induction false} AndShifted(a: nat, mask: nat, n: nat)
    ensures And(a, Shl(mask, n)) == Shl(And(Shr(a, n), mask), n)
    decreases n
  {
    if n > 0 {
      AndEven(a, Shl(mask, n - 1));
      AndShifted(a / 2, mask, n - 1);
    }
  }

  /** A mask of n ones takes the lowest n bits. */
  lemma {:induction false} AndOnes(a: nat, n: nat)
    ensures And(a, Ones(n)) == Low(a, n)
    decreases n
  {
    if n > 0 {
      AndOdd(a, Ones(n - 1));
      AndOnes(a / 2, n - 1);
    }
  }

  /** Joining a number moved up by n bits with one of n bits adds them. */
  lemma {:induction false} OrDisjoint(high: nat, low: nat, n: nat)
    requires Shr(low, n) == 0
    ensures Or(Shl(high, n), low) == Shl(high, n) + low
    decreases n
  {
    if n > 0 {
      var above := Shl(high, n - 1);
      OrDisjoint(high, low / 2, n - 1);
      assert (2 * above) / 2 == above && (2 * above) % 2 == 0;
    }
  }

  lemma {:induction false} ShrOfShl(a: nat, n: nat, k: nat)
    requires k <= n
    ensures Shr(Shl(a, n), k) == Shl(a, n - k)
    decreases k
  {
    if k > 0 {
      assert 2 * Shl(a, n - 1) / 2 == Shl(a, n - 1);
      ShrOfShl(a, n - 1, k - 1);
    }
  }

  lemma {:induction false} ShrTwice(a: nat, m: nat, n: nat)
    ensures Shr(Shr(a, m), n) == Shr(a, m + n)
    decreases m
  {
    if m > 0 {
      ShrTwice(a / 2, m - 1, n);
    }
  }

  lemma {:induction false} ShlTwice(a: nat, m: nat, n: nat)
    ensures Shl(Shl(a, m), n) == Shl(a, m + n)
    decreases n
  {
    if n > 0 {
      ShlTwice(a, m, n - 1);
    }
  }

  lemma ByteShifts(a: nat)
    ensures Shr(a, 8) == a / 256 && Shl(a, 7) == a * 128
  {
    assert Shr(a, 8) == a / 2 / 2 / 2 / 2 / 2 / 2 / 2 / 2;
    assert Shl(a, 4) == 16 * a;
  }

  lemma {:induction false} HighAndLow(a: nat, n: nat)
    ensures a == Shl(Shr(a, n), n) + Low(a, n) && Low(a, n) < Shl(1, n)
    decreases n
  {
    if n > 0 {
      HighAndLow(a / 2, n - 1);
    }
  }

  lemma RemainderOf(a: nat, high: nat, low: nat)
    requires a == high * 128 + low && low < 128
    ensures a % 128 == low
  {
  }

  lemma SevenBits(a: nat)
    ensures Low(a, 7) == a % 128
  {
    HighAndLow(a, 7);
    ByteShifts(Shr(a, 7));
    ByteShifts(1);
    RemainderOf(a, Shr(a, 7), Low(a, 7));
  }
}
