/** The bits of unsigned words. */
module Bits {
  import opened Rings

  function Shr(x: nat, k: nat): nat {
    if k == 0 then x else Shr(x / 2, k - 1)
  }

  predicate Bit(x: nat, k: nat) {
    Shr(x, k) % 2 == 1
  }

  /** `x & ~y`. */
  function AndNot(x: nat, y: nat): nat {
    if x == 0 then 0 else (if x % 2 == 1 && y % 2 == 0 then 1 else 0) + 2 * AndNot(x / 2, y / 2)
  }

  lemma {:induction false} ShrShr(x: nat, a: nat, b: nat)
    ensures Shr(Shr(x, a), b) == Shr(x, a + b)
  {
    if a == 0 {
    } else {
      ShrShr(x / 2, a - 1, b);
    }
  }

  lemma {:induction false} BitOfZero(k: nat)
    ensures !Bit(0, k)
  {
    if k == 0 {
    } else {
      BitOfZero(k - 1);
    }
  }

  lemma {:induction false} BitOfAnd(x: nat, y: nat, k: nat)
    ensures Bit(And(x, y), k) <==> Bit(x, k) && Bit(y, k)
  {
    BitOfZero(k);
    if x == 0 || y == 0 {
    } else if k == 0 {
    } else {
      BitOfAnd(x / 2, y / 2, k - 1);
      assert And(x, y) / 2 == And(x / 2, y / 2);
    }
  }

  lemma {:induction false} BitOfAndNot(x: nat, y: nat, k: nat)
    ensures Bit(AndNot(x, y), k) <==> Bit(x, k) && !Bit(y, k)
  {
    BitOfZero(k);
    if x == 0 {
    } else if k == 0 {
    } else {
      BitOfAndNot(x / 2, y / 2, k - 1);
      assert AndNot(x, y) / 2 == AndNot(x / 2, y / 2);
    }
  }

  lemma {:induction false} NonzeroHasBit(x: nat) returns (k: nat)
    requires x != 0
    ensures Bit(x, k)
  {
    if x % 2 == 1 {
      k := 0;
    } else {
      k := NonzeroHasBit(x / 2);
      k := k + 1;
    }
  }

  lemma {:induction false} HighBitsClear(x: nat, n: nat, k: nat)
    requires x < Pow2(n) && n <= k
    ensures !Bit(x, k)
  {
    if n == 0 {
      BitOfZero(k);
    } else {
      HighBitsClear(x / 2, n - 1, k - 1);
    }
  }

  lemma {:induction false} LowOnes(x: nat, n: nat, i: nat)
    requires x == Pow2(n) - 1 && i < n
    ensures Bit(x, i)
  {
    if i == 0 {
    } else {
      LowOnes(x / 2, n - 1, i - 1);
    }
  }

  /** `x | y`. */
  function Or(x: nat, y: nat): nat {
    if x == 0 then y else (if x % 2 == 1 || y % 2 == 1 then 1 else 0) + 2 * Or(x / 2, y / 2)
  }

  lemma {:induction false} BitOfOr(x: nat, y: nat, k: nat)
    ensures Bit(Or(x, y), k) <==> Bit(x, k) || Bit(y, k)
  {
    BitOfZero(k);
    if x == 0 || k == 0 {
    } else {
      BitOfOr(x / 2, y / 2, k - 1);
      assert Or(x, y) / 2 == Or(x / 2, y / 2);
    }
  }

  lemma {:induction false} OrFits(x: nat, y: nat, n: nat)
    requires x < Pow2(n) && y < Pow2(n)
    ensures Or(x, y) < Pow2(n)
  {
    if n == 0 || x == 0 {
    } else {
      OrFits(x / 2, y / 2, n - 1);
    }
  }

  /** `1 << k`. */
  lemma {:induction false} BitOfPow2(k: nat, b: nat)
    ensures Bit(Pow2(k), b) <==> b == k
  {
    if k == 0 {
      if b == 0 {
      } else {
        BitOfZero(b - 1);
      }
    } else if b > 0 {
      BitOfPow2(k - 1, b - 1);
    }
  }

  lemma {:induction false} Pow2Below(k: nat, n: nat)
    requires k < n
    ensures Pow2(k) < Pow2(n)
  {
    if k + 1 == n {
    } else {
      Pow2Below(k, n - 1);
    }
  }

  /** The bits of a 32-bit word that are 1. */
  function Ones(x: nat): set<nat> {
    set b: nat | b < 32 && Bit(x, b)
  }

  lemma OnesOfOr(x: nat, y: nat)
    ensures Ones(Or(x, y)) == Ones(x) + Ones(y)
  {
    forall b: nat ensures b in Ones(Or(x, y)) <==> b in Ones(x) + Ones(y) {
      BitOfOr(x, y, b);
    }
  }
}
