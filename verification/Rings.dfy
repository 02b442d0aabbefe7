/** Index arithmetic of a power-of-two ring addressed by free-running 32-bit counters. */
module Rings {
  import opened Words

  function Pow2(k: nat): (n: nat)
    ensures n >= 1
  {
    if k == 0 then 1 else 2 * Pow2(k - 1)
  }

  /** Bitwise and of two unsigned words. */
  function And(x: nat, y: nat): nat {
    if x == 0 || y == 0 then 0 else (x % 2) * (y % 2) + 2 * And(x / 2, y / 2)
  }

  /** Masking with a power of two minus one is the remainder. */
  lemma {:induction false} AndMask(x: nat, k: nat)
    ensures And(x, Pow2(k) - 1) == x % Pow2(k)
    decreases k
  {
    if k == 0 {
    } else if x == 0 {
    } else {
      var h := Pow2(k - 1);
      AndMask(x / 2, k - 1);
      assert (2 * h - 1) / 2 == h - 1 && (2 * h - 1) % 2 == 1;
      ModDouble(x, h);
    }
  }

  lemma ModDouble(x: nat, h: nat)
    requires h >= 1
    ensures x % (2 * h) == x % 2 + 2 * ((x / 2) % h)
  {
    var y := x / 2;
    var q, r := y / h, y % h;
    assert y == q * h + r;
    assert x == q * (2 * h) + (x % 2 + 2 * r);
    ModUnique(x, 2 * h, q, x % 2 + 2 * r);
  }

  lemma MulAtLeast(a: int, n: nat)
    requires a >= 1
    ensures a * n >= n
  {
  }

  lemma MulSub(a: int, b: int, n: int)
    ensures (a - b) * n == a * n - b * n
  {
  }

  lemma DivMod(x: int, n: nat)
    requires n >= 1
    ensures x == (x / n) * n + x % n && 0 <= x % n < n
  {
  }

  lemma ModUnique(x: int, n: nat, q: int, r: int)
    requires n >= 1 && x == q * n + r && 0 <= r < n
    ensures x % n == r && x / n == q
  {
    DivMod(x, n);
    MulSub(x / n, q, n);
    MulSub(q, x / n, n);
    if x / n > q {
      MulAtLeast(x / n - q, n);
    } else if x / n < q {
      MulAtLeast(q - x / n, n);
    }
  }

  lemma Pow2Splits(k: nat, m: nat)
    requires k <= m
    ensures Pow2(m) == Pow2(k) * Pow2(m - k)
  {
    if k == m {
    } else {
      Pow2Splits(k, m - 1);
    }
  }

  lemma Pow2Of32()
    ensures Pow2(32) == TWO32
  {
    assert Pow2(8) == 256;
    Pow2Splits(8, 16); Pow2Splits(16, 32);
  }

  lemma RingBound(k: nat)
    requires k <= 31
    ensures Pow2(k) < TWO32
    decreases 31 - k
  {
    if k < 31 {
      RingBound(k + 1);
    } else {
      Pow2Of32();
    }
  }

  /** The slot of the `j`-th entry in a ring of `n`: `j` modulo `n`, by repeated subtraction. */
  function Index(j: nat, n: nat): (i: nat)
    requires n >= 1
    ensures i < n
  {
    if j < n then j else Index(j - n, n)
  }

  lemma {:induction false} IndexIsMod(j: nat, n: nat)
    requires n >= 1
    ensures Index(j, n) == j % n
  {
    if j >= n {
      IndexIsMod(j - n, n);
      DivMod(j - n, n);
      ModUnique(j, n, (j - n) / n + 1, (j - n) % n);
    } else {
      ModUnique(j, n, 0, j);
    }
  }

  /** A 32-bit counter indexes the ring where the unbounded counter would. */
  lemma WrapIndex(x: nat, k: nat)
    requires k <= 32
    ensures And(Low32(x), Pow2(k) - 1) == Index(x, Pow2(k))
  {
    IndexIsMod(x, Pow2(k));
    Pow2Of32();
    Pow2Splits(k, 32);
    AndMask(Low32(x), k);
    ModOfMultiple(x, Pow2(k), Pow2(32 - k));
  }

  lemma ModOfMultiple(x: nat, n: nat, m: nat)
    requires n >= 1 && m >= 1
    ensures (x % (n * m)) % n == x % n
  {
    MulAtLeast(m, n);
    var q, r := x / (n * m), x % (n * m);
    DivMod(x, n * m);
    DivMod(r, n);
    var t := r / n;
    assert q * (n * m) == (q * m) * n;
    assert (q * m + t) * n == (q * m) * n + t * n;
    ModUnique(x, n, q * m + t, r % n);
  }

  /** Two counters less than a ring apart have different slots. */
  lemma SlotsDiffer(i: nat, j: nat, n: nat)
    requires n >= 1 && i < j < i + n
    ensures Index(i, n) != Index(j, n)
  {
    IndexIsMod(i, n);
    IndexIsMod(j, n);
    DivMod(i, n);
    DivMod(j, n);
    MulSub(j / n, i / n, n);
    MulSub(i / n, j / n, n);
    if j / n > i / n {
      MulAtLeast(j / n - i / n, n);
    } else if j / n < i / n {
      MulAtLeast(i / n - j / n, n);
    }
  }

  /** The distance of two counters survives the wrap. */
  lemma WrapDistance(p: nat, c: nat)
    requires c <= p < c + TWO32
    ensures WrapSub(Low32(p), Low32(c)) == p - c
    ensures Low32(p) == Low32(c) <==> p == c
  {
  }

  lemma WrapPlus(x: nat, y: nat)
    ensures WrapAdd(Low32(x), y) == Low32(x + y)
  {
  }
}
