/** `l2cpu_noc_write_bulk` and `load_brisc_firmware` against plain copies. */
module BulkCopy {
  import opened Words

  const TWO_MEG := 0x20_0000

  /** One transient window: its base, and where and how much was copied through it. */
  datatype Chunk = Chunk(base: nat, off: nat, len: nat)

  /** Memory `m` with `data` stored at `addr`. */
  function Spliced(m: nat -> u8, addr: nat, data: seq<u8>): nat -> u8 {
    (a: nat) => if addr <= a < addr + |data| then data[a - addr] else m(a)
  }

  ghost predicate SameMemory(m: nat -> u8, n: nat -> u8) {
    forall a :: m(a) == n(a)
  }

  lemma SpliceAppends(m: nat -> u8, n: nat -> u8, addr: nat, data: seq<u8>, i: nat, j: nat)
    requires i <= j <= |data| && SameMemory(n, Spliced(m, addr, data[..i]))
    ensures SameMemory(Spliced(n, addr + i, data[i..j]), Spliced(m, addr, data[..j]))
  {
  }

  /** The k-th chunk of a copy of `total` bytes to `addr`: the part of it in the k-th window. */
  ghost predicate IsChunk(c: Chunk, addr: nat, total: nat, k: nat) {
    && c.base == (addr / TWO_MEG + k) * TWO_MEG
    && c.off + c.len <= TWO_MEG && c.len > 0
    && c.base + c.off == (if k == 0 then addr else c.base)
    && c.base + c.off + c.len == Min(addr + total, c.base + TWO_MEG)
  }

  /** Position `cur` begins the k-th chunk. */
  ghost predicate Aligned(addr: nat, cur: nat, k: nat) {
    cur / TWO_MEG == addr / TWO_MEG + k && (k > 0 ==> cur % TWO_MEG == 0) && (k == 0 ==> cur == addr)
  }

  /** The window that holds `cur`. */
  function WindowOf(cur: nat): (base: nat)
    ensures base <= cur < base + TWO_MEG
  {
    cur / TWO_MEG * TWO_MEG
  }

  lemma NextChunk(addr: nat, total: nat, cur: nat, k: nat)
    requires Aligned(addr, cur, k) && cur < addr + total
    ensures var base := WindowOf(cur); var n := Min(base + TWO_MEG - cur, addr + total - cur);
      && IsChunk(Chunk(base, cur - base, n), addr, total, k)
      && (cur + n < addr + total ==> Aligned(addr, cur + n, k + 1))
  {
  }

  /** The chunks so far, each through a window that could be created. */
  ghost predicate Chunked(chunks: seq<Chunk>, addr: nat, total: nat, broken: nat -> bool) {
    forall k :: 0 <= k < |chunks| ==> IsChunk(chunks[k], addr, total, k) && !broken(chunks[k].base)
  }

  /** Where the chunks end: after the last one, or at `addr` if there is none. */
  function EndOf(chunks: seq<Chunk>, addr: nat): nat {
    if chunks == [] then addr
    else var c := chunks[|chunks| - 1]; c.base + c.off + c.len
  }

  /** Everything before `cur` is in whole chunks, and `cur` begins the next one or is the end. */
  ghost predicate UpTo(chunks: seq<Chunk>, addr: nat, total: nat, cur: nat, broken: nat -> bool) {
    && Chunked(chunks, addr, total, broken) && EndOf(chunks, addr) == cur
    && (cur < addr + total ==> Aligned(addr, cur, |chunks|))
  }

  lemma UpToNext(chunks: seq<Chunk>, addr: nat, total: nat, cur: nat, broken: nat -> bool)
    requires UpTo(chunks, addr, total, cur, broken) && cur < addr + total && !broken(WindowOf(cur))
    ensures var base := WindowOf(cur); var n := Min(base + TWO_MEG - cur, addr + total - cur);
      UpTo(chunks + [Chunk(base, cur - base, n)], addr, total, cur + n, broken)
  {
    NextChunk(addr, total, cur, |chunks|);
  }

  class Noc {
    var mem: nat -> u8
    ghost var log: seq<Chunk>  // the copies made, in order

    /** One `copy_nonoverlapping` into the window at `c.base`; it must stay inside the window. */
    method CopyChunk(c: Chunk, bytes: seq<u8>)
      requires c.off + c.len <= TWO_MEG && |bytes| == c.len
      modifies this
      ensures SameMemory(mem, Spliced(old(mem), c.base + c.off, bytes))
      ensures log == old(log) + [c]
    {
      mem := Spliced(mem, c.base + c.off, bytes);
      log := log + [c];
    }

    /** The next part of the copy of `data` to `addr`, through the window at `base`. */
    method CopyNext(addr: nat, data: seq<u8>, from: nat, base: nat, broken: nat -> bool,
                    ghost before: nat -> u8, ghost chunks: seq<Chunk>)
      returns (n: nat, ghost c: Chunk)
      requires from < |data| && base == WindowOf(addr + from) && !broken(base)
      requires SameMemory(mem, Spliced(before, addr, data[..from]))
      requires UpTo(chunks, addr, |data|, addr + from, broken)
      modifies this
      ensures 0 < n <= |data| - from && SameMemory(mem, Spliced(before, addr, data[..from + n]))
      ensures log == old(log) + [c] && UpTo(chunks + [c], addr, |data|, addr + from + n, broken)
    {
      var cur := addr + from;
      n := Min(base + TWO_MEG - cur, |data| - from);
      UpToNext(chunks, addr, |data|, cur, broken);
      SpliceAppends(before, mem, addr, data, from, from + n);
      c := Chunk(base, cur - base, n);
      CopyChunk(Chunk(base, cur - base, n), data[from..from + n]);
    }

    /** Copy `data` to `addr` window by window; `broken` says which windows cannot be created.
        Memory becomes a plain copy of what was written; the copies made are, window by window,
        exactly the parts of it, and they end where the written bytes end. */
    method WriteBulk(addr: nat, data: seq<u8>, broken: nat -> bool)
      returns (ok: bool, written: nat, ghost chunks: seq<Chunk>)
      requires addr + |data| <= 0x1_0000_0000_0000_0000
      modifies this
      ensures written <= |data| && SameMemory(mem, Spliced(old(mem), addr, data[..written]))
      ensures ok <==> written == |data|
      ensures log == old(log) + chunks && Chunked(chunks, addr, |data|, broken)
      ensures EndOf(chunks, addr) == addr + written && (chunks == [] <==> written == 0)
      ensures !ok ==> broken(WindowOf(addr + written))
    {
      written, chunks := 0, [];
      while written < |data|
        invariant written <= |data| && SameMemory(mem, Spliced(old(mem), addr, data[..written]))
        invariant log == old(log) + chunks && UpTo(chunks, addr, |data|, addr + written, broken)
        invariant chunks == [] <==> written == 0
      {
        var base := WindowOf(addr + written);
        if broken(base) {
          return false, written, chunks;
        }
        var n, c := CopyNext(addr, data, written, base, broken, old(mem), chunks);
        chunks := chunks + [c];
        written := written + n;
      }
      ok := true;
    }
  }

  // ---- firmware loading ----

  const L1_SIZE := 0x18_0000

  function Padding(n: nat): nat {
    (4 - n % 4) % 4
  }

  /** `fw` padded with zeros to whole words. */
  function Padded(fw: seq<u8>): seq<u8> {
    fw + seq(Padding(|fw|), _ => 0)
  }

  class Tile {
    const l1: array<u8>

    ghost predicate Valid() {
      l1.Length == L1_SIZE
    }

    constructor (l1: array<u8>)
      requires l1.Length == L1_SIZE
      ensures Valid() && this.l1 == l1
    {
      this.l1 := l1;
    }

    /** A little-endian word store. */
    method Write32(off: nat, w: u32)
      requires off + 4 <= l1.Length && off % 4 == 0
      modifies l1
      ensures l1[..] == old(l1[..off]) + ToLe(w, 4) + old(l1[off + 4..])
    {
      var b := ToLe(w, 4);
      l1[off], l1[off + 1], l1[off + 2], l1[off + 3] := b[0], b[1], b[2], b[3];
    }

    /** The next word of the image, given the words before it are stored. */
    method StoreWord(img: seq<u8>, at: nat, ghost before: seq<u8>)
      requires Valid() && at % 4 == 0 && at + 4 <= |img| <= |before| == l1.Length
      requires l1[..] == img[..at] + before[at..]
      modifies l1
      ensures l1[..] == img[..at + 4] + before[at + 4..]
    {
      LeRoundTrip(img[at..at + 4]);
      Write32(at, FromLe(img[at..at + 4]));
      assert img[..at + 4] == img[..at] + img[at..at + 4];
    }

    /** The whole words of the image. */
    method StoreWords(fw: seq<u8>, ghost before: seq<u8>)
      requires Valid() && |fw| <= |before| == l1.Length && l1[..] == before
      modifies l1
      ensures l1[..] == fw[..|fw| / 4 * 4] + before[|fw| / 4 * 4..]
    {
      assert fw[..0] + before[0..] == before;
      for i := 0 to |fw| / 4
        invariant l1[..] == fw[..4 * i] + before[4 * i..]
      {
        StoreWord(fw, 4 * i, before);
      }
    }

    /** `load_brisc_firmware`: L1 becomes the zero-padded image followed by what was there; an
        image larger than L1 is refused and changes nothing. */
    method LoadFirmware(fw: seq<u8>) returns (ok: bool)
      requires Valid()
      modifies l1
      ensures ok <==> |fw| <= L1_SIZE
      ensures !ok ==> l1[..] == old(l1[..])
      ensures ok ==> |Padded(fw)| <= L1_SIZE && l1[..] == Padded(fw) + old(l1[..])[|Padded(fw)|..]
      ensures ok ==> forall i :: 0 <= i < L1_SIZE ==>
        l1[i] == if i < |fw| then fw[i] else if i < (|fw| + 3) / 4 * 4 then 0 else old(l1[i])
    {
      if |fw| > L1_SIZE {
        return false;
      }
      var words := |fw| / 4;
      StoreWords(fw, l1[..]);
      PaddedShape(fw);
      if |fw| % 4 != 0 {
        StoreWord(Padded(fw), words * 4, old(l1[..]));
      }
      PaddedBytes(fw);
      ok := true;
    }
  }

  /** The padded image byte by byte. */
  lemma PaddedBytes(fw: seq<u8>)
    ensures |Padded(fw)| == (|fw| + 3) / 4 * 4
    ensures forall i :: 0 <= i < |Padded(fw)| ==> Padded(fw)[i] == if i < |fw| then fw[i] else 0
  {
  }

  /** Padding completes the last word and leaves whole words alone. */
  lemma PaddedShape(fw: seq<u8>)
    ensures Padded(fw)[..|fw| / 4 * 4] == fw[..|fw| / 4 * 4]
    ensures |Padded(fw)| == |fw| / 4 * 4 + if |fw| % 4 == 0 then 0 else 4
    ensures |fw| % 4 == 0 ==> Padded(fw) == fw == fw[..|fw| / 4 * 4]
    ensures |fw| % 4 != 0 ==> Padded(fw)[..|fw| / 4 * 4 + 4] == Padded(fw)
  {
  }
}
