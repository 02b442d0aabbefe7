/** `read_telemetry`: the bounded walk of a table in ARC CSM whose contents are arbitrary. */
module Telemetry {
  import opened Words

  const CSM_BASE := 0x1000_0000
  const CSM_SIZE := 0x8_0000
  const WINDOW_SIZE := 0x20_0000

  datatype Entry = Entry(tag: u16, offset: u16, data: u32)

  /** `Panic` is a failed assertion of the window accessors. */
  datatype Outcome =
    | Table(version: u32, entries: seq<Entry>)
    | ArcNotReady
    | OutOfCsm
    | UnsupportedVersion
    | EntryCountTooLarge
    | Panic

  predicate InWindow(a: int) {
    CSM_BASE <= a && a + 4 <= CSM_BASE + WINDOW_SIZE
  }

  predicate InCsm(a: int) {
    CSM_BASE <= a && a + 4 <= CSM_BASE + CSM_SIZE
  }

  predicate PointerInCsm(ptr: u32) {
    CSM_BASE <= ptr < CSM_BASE + CSM_SIZE
  }

  function Major(version: u32): int {
    version / 65536 % 256
  }

  predicate CountFits(ptr: u32, count: u32) {
    count != 0 && count * 8 + 8 <= CSM_BASE + CSM_SIZE - ptr
  }

  /** Chip memory as the window shows it: a word at every address. */
  type Memory = int -> u32

  function TagAddr(ptr: u32, i: nat): int {
    ptr as int + 8 + i * 4
  }

  function DataAddr(ptr: u32, count: u32, offset: u16): int {
    ptr as int + 8 + count * 4 + offset * 4
  }

  function EntryAt(m: Memory, ptr: u32, i: nat): Entry {
    var word := m(TagAddr(ptr, i));
    var offset := word / 65536;
    Entry(word % 65536, offset, m(DataAddr(ptr, m(ptr + 4), offset)))
  }

  /** A tag word is the tag in its low half and the offset in its high half; the data word is the
      offset-th after the tags. */
  lemma EntryMeans(m: Memory, ptr: u32, i: nat)
    ensures var e := EntryAt(m, ptr, i);
      && e.tag + 65536 * e.offset == m(ptr + 8 + 4 * i)
      && e.data == m(ptr + 8 + 4 * m(ptr + 4) + 4 * e.offset)
  {
    assert TagAddr(ptr, i) == ptr + 8 + 4 * i;
    var e := EntryAt(m, ptr, i);
    assert DataAddr(ptr, m(ptr + 4), e.offset) == ptr + 8 + 4 * m(ptr + 4) + 4 * e.offset;
  }

  /** The version test is on bits 16 to 23. */
  lemma VersionByte(version: u32)
    ensures Major(version) > 1 <==> version % 0x100_0000 >= 0x2_0000
  {
  }

  /** The table is published, aligned, of a known version and of a count that fits. */
  predicate Readable(m: Memory, ptr: u32) {
    PointerInCsm(ptr) && ptr % 4 == 0 && Major(m(ptr)) <= 1 && CountFits(ptr, m(ptr + 4))
  }

  /** What the walk returns for each chip memory and pointer. */
  function Expected(m: Memory, ptr: u32): Outcome {
    if ptr == 0 then ArcNotReady
    else if !PointerInCsm(ptr) then OutOfCsm
    else if ptr % 4 != 0 then Panic
    else if Major(m(ptr)) > 1 then UnsupportedVersion
    else if !CountFits(ptr, m(ptr + 4)) then EntryCountTooLarge
    else Table(m(ptr), seq(m(ptr + 4), i requires 0 <= i < m(ptr + 4) => EntryAt(m, ptr, i)))
  }

  /** Every tag and every data word of an accepted table lies in the window, whatever offset the
      entry carries. */
  lemma WalkInWindow(ptr: u32, count: u32, i: nat, offset: u16)
    requires PointerInCsm(ptr) && CountFits(ptr, count) && i < count
    ensures InWindow(TagAddr(ptr, i)) && InWindow(DataAddr(ptr, count, offset))
    ensures ptr % 4 == 0 ==> TagAddr(ptr, i) % 4 == 0 && DataAddr(ptr, count, offset) % 4 == 0
    ensures InCsm(TagAddr(ptr, i))
  {
  }

  class Chip {
    const m: Memory
    /** The addresses given to `csm_read32`. */
    ghost var trace: seq<int>

    constructor (m: Memory)
      ensures this.m == m && trace == []
    {
      this.m, trace := m, [];
    }

    /** `csm_read32`, down to the window's bounds and alignment assertions. */
    method CsmRead32(addr: int) returns (ok: bool, w: u32)
      modifies this
      ensures trace == old(trace) + [addr]
      ensures ok <==> InWindow(addr) && addr % 4 == 0
      ensures ok ==> w == m(addr)
    {
      trace := trace + [addr];
      if CSM_BASE <= addr < CSM_BASE + WINDOW_SIZE {
        var off := addr - CSM_BASE;
        if off + 4 <= WINDOW_SIZE && off % 4 == 0 {
          return true, m(addr);
        }
      }
      return false, 0;
    }

    ghost predicate AllInWindow(from: nat)
      reads this
    {
      from <= |trace| && forall k :: from <= k < |trace| ==> InWindow(trace[k])
    }

    /** For every chip memory: each address read leaves four bytes inside the window, so the only
        assertion that can fire is alignment, for a pointer inside CSM that is not a multiple of
        four; a table has exactly `entry_count` entries. */
    method ReadTelemetry(ptr: u32) returns (r: Outcome)
      modifies this
      ensures AllInWindow(|old(trace)|)
      ensures r == Expected(m, ptr)
      ensures r.Panic? <==> PointerInCsm(ptr) && ptr % 4 != 0
      ensures r.Table? <==> Readable(m, ptr)
      ensures r.Table? ==> r.version == m(ptr) && |r.entries| == m(ptr + 4)
      ensures r.Table? ==> forall i :: 0 <= i < |r.entries| ==>
        && r.entries[i].tag + 65536 * r.entries[i].offset == m(ptr + 8 + 4 * i)
        && r.entries[i].data == m(ptr + 8 + 4 * m(ptr + 4) + 4 * r.entries[i].offset)
      ensures r.ArcNotReady? <==> ptr == 0
      ensures r.OutOfCsm? <==> 0 < ptr < 0x1000_0000 || ptr >= 0x1008_0000
      ensures r.UnsupportedVersion? <==>
        0x1000_0000 <= ptr < 0x1008_0000 && ptr % 4 == 0 && m(ptr) % 0x100_0000 >= 0x2_0000
      ensures r.EntryCountTooLarge? <==>
        && 0x1000_0000 <= ptr < 0x1008_0000 && ptr % 4 == 0 && m(ptr) % 0x100_0000 < 0x2_0000
        && (m(ptr + 4) == 0 || ptr + 8 + 8 * m(ptr + 4) > 0x1008_0000)
    {
      VersionByte(m(ptr));
      if ptr == 0 {
        return ArcNotReady;
      }
      if !(CSM_BASE <= ptr < CSM_BASE + CSM_SIZE) {
        return OutOfCsm;
      }
      var ok, version := CsmRead32(ptr);
      if !ok {
        return Panic;
      }
      if version / 65536 % 256 > 1 {
        return UnsupportedVersion;
      }
      var count;
      ok, count := CsmRead32(ptr as int + 4);
      if count == 0 || count as int * 8 + 8 > CSM_BASE + CSM_SIZE - ptr as int {
        return EntryCountTooLarge;
      }
      var entries := ReadEntries(ptr, count);
      return Table(version, entries);
    }

    method ReadEntries(ptr: u32, count: u32) returns (entries: seq<Entry>)
      requires PointerInCsm(ptr) && ptr % 4 == 0 && count == m(ptr + 4) && CountFits(ptr, count)
      modifies this
      ensures old(trace) <= trace && AllInWindow(|old(trace)|)
      ensures |entries| == count && forall i :: 0 <= i < count ==>
        && entries[i] == EntryAt(m, ptr, i)
        && entries[i].tag + 65536 * entries[i].offset == m(ptr + 8 + 4 * i)
        && entries[i].data == m(ptr + 8 + 4 * count + 4 * entries[i].offset)
    {
      entries := [];
      for i := 0 to count
        invariant old(trace) <= trace && AllInWindow(|old(trace)|)
        invariant |entries| == i && forall j :: 0 <= j < i ==> entries[j] == EntryAt(m, ptr, j)
      {
        WalkInWindow(ptr, count, i, 0);
        var ok, word := CsmRead32(ptr as int + 8 + i * 4);
        var offset: u16 := word / 65536;
        WalkInWindow(ptr, count, i, offset);
        var data;
        ok, data := CsmRead32(ptr as int + 8 + count * 4 + offset * 4);
        entries := entries + [Entry(word % 65536, offset, data)];
      }
      forall i | 0 <= i < count
        ensures entries[i].tag + 65536 * entries[i].offset == m(ptr + 8 + 4 * i)
        ensures entries[i].data == m(ptr + 8 + 4 * count + 4 * entries[i].offset)
      {
        EntryMeans(m, ptr, i);
      }
    }
  }

  // ---- the 512 KiB of CSM itself ----

  ghost predicate DataInCsm(m: Memory, ptr: u32) {
    forall i :: 0 <= i < m(ptr + 4) ==> InCsm(DataAddr(ptr, m(ptr + 4), EntryAt(m, ptr, i).offset))
  }

  /** The bound on the count keeps the tags inside CSM; the data words stay inside exactly when
      every entry's offset is below the words left after the tag block. */
  lemma DataInCsmIff(m: Memory, ptr: u32)
    requires Readable(m, ptr)
    ensures DataInCsm(m, ptr) <==> forall i :: 0 <= i < m(ptr + 4) ==>
      EntryAt(m, ptr, i).offset < (CSM_BASE + CSM_SIZE - ptr - 8) / 4 - m(ptr + 4)
  {
    var count := m(ptr + 4);
    forall i | 0 <= i < count
      ensures InCsm(DataAddr(ptr, count, EntryAt(m, ptr, i).offset)) <==>
        EntryAt(m, ptr, i).offset < (CSM_BASE + CSM_SIZE - ptr - 8) / 4 - count
    {
      OffsetBound(ptr, count, EntryAt(m, ptr, i).offset);
    }
  }

  lemma OffsetBound(ptr: u32, count: u32, offset: u16)
    requires PointerInCsm(ptr) && ptr % 4 == 0
    ensures InCsm(DataAddr(ptr, count, offset)) <==> offset < (CSM_BASE + CSM_SIZE - ptr - 8) / 4 - count
  {
  }

  /** A one-entry table at the end of CSM whose data word lies outside CSM. */
  lemma DataCanLeaveCsm() returns (m: Memory, ptr: u32)
    ensures Readable(m, ptr) && !DataInCsm(m, ptr)
  {
    ptr := CSM_BASE + CSM_SIZE - 16;
    m := a => if a == CSM_BASE + CSM_SIZE - 12 then 1 else if a == CSM_BASE + CSM_SIZE - 8 then 65536 else 0;
    assert EntryAt(m, ptr, 0).offset == 1;
  }
}
