/** Fixed-width unsigned arithmetic as the firmware and the daemon use it. */
module Words {
  const TWO32: int := 0x1_0000_0000

  type u8 = x: int | 0 <= x < 256
  type u16 = x: int | 0 <= x < 65536
  type u32 = x: int | 0 <= x < 0x1_0000_0000
  type u64 = x: int | 0 <= x < 0x1_0000_0000_0000_0000

  /** The 32-bit register that holds an unbounded count. */
  function Low32(x: int): u32 {
    x % 0x1_0000_0000
  }

  /** `x + y` on a 32-bit register. */
  function WrapAdd(x: int, y: int): u32 {
    Low32(x + y)
  }

  /** `x.wrapping_sub(y)` on a 32-bit register. */
  function WrapSub(x: int, y: int): u32 {
    Low32(x - y)
  }

  /** The naturals below `n`. */
  function Below(n: nat): (s: set<nat>)
    ensures |s| == n && forall x: nat :: x in s <==> x < n
  {
    if n == 0 then {} else Below(n - 1) + {n - 1}
  }

  function Min(x: int, y: int): int {
    if x <= y then x else y
  }

  // ---- little-endian bytes ----

  /** `to_le_bytes` of the low `n` bytes of `v`. */
  function ToLe(v: nat, n: nat): (bs: seq<u8>)
    ensures |bs| == n
  {
    if n == 0 then [] else [v % 256] + ToLe(v / 256, n - 1)
  }

  /** `from_le_bytes`. */
  function FromLe(bs: seq<u8>): (v: nat)
    ensures |bs| == 4 ==> v < TWO32
    ensures |bs| == 3 ==> v < 0x100_0000
    ensures |bs| == 2 ==> v < 65536
    ensures |bs| == 1 ==> v < 256
    ensures |bs| == 0 ==> v == 0
  {
    if bs == [] then 0 else bs[0] as int + 256 * FromLe(bs[1..])
  }

  /** The four bytes of a word, lowest first. */
  lemma LeBytes(v: u32)
    ensures ToLe(v, 4) == [v % 256, v / 0x100 % 256, v / 0x1_0000 % 256, v / 0x100_0000]
  {
    assert v / 256 / 256 == v / 0x1_0000 && v / 256 / 256 / 256 == v / 0x100_0000;
    assert ToLe(v, 4) == [v % 256] + ToLe(v / 256, 3);
    assert ToLe(v / 256, 3) == [v / 256 % 256] + ToLe(v / 256 / 256, 2);
    assert ToLe(v / 256 / 256, 2) == [v / 256 / 256 % 256] + ToLe(v / 256 / 256 / 256, 1);
  }

  lemma {:induction false} LeRoundTrip(bs: seq<u8>)
    ensures ToLe(FromLe(bs), |bs|) == bs
  {
    if bs == [] {
    } else {
      LeRoundTrip(bs[1..]);
      assert FromLe(bs) / 256 == FromLe(bs[1..]) && FromLe(bs) % 256 == bs[0];
      assert bs == [bs[0]] + bs[1..];
    }
  }

  /** Decoding and encoding again is the identity. */
  lemma {:induction false} LeReencode(v: nat, n: nat)
    requires n <= 4 && v < (if n == 4 then TWO32 else if n == 3 then 0x100_0000 else if n == 2 then 65536 else if n == 1 then 256 else 1)
    ensures FromLe(ToLe(v, n)) == v
  {
    if n == 0 {
    } else {
      LeReencode(v / 256, n - 1);
      assert ToLe(v, n)[1..] == ToLe(v / 256, n - 1);
    }
  }
}
