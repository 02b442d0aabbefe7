/** BRISC's main loop over the active-slot masks: which slots are re-initialised and polled, and
    how the three TRISC cores are taken in and out of soft reset. */
module SweepLoop {
  import opened Bits
  import opened Rings
  import opened Words

  const NUM_SLOTS := 32
  const DEVS_PER_L2CPU := 8
  const UART_OFFSET := 6
  const UART_SLOT_MASK: u32 := 0x4040_4040

  /** Bit `i` of the 8-bit group at `base` is bit `base + i` of the mask. */
  lemma GroupBit(mask: nat, base: nat, i: nat)
    requires i < 8
    ensures Bit(And(Shr(mask, base), 255), i) <==> Bit(mask, base + i)
  {
    BitOfAnd(Shr(mask, base), 255, i);
    ShrShr(mask, base, i);
    LowOnes(255, 8, i);
  }

  // ---- the plain sweep ----

  /** A call of `init_device` or of `poll_one_device`. */
  datatype Event = Init(slot: nat) | Poll(slot: nat)

  ghost predicate Ascending(es: seq<Event>) {
    forall i, j :: 0 <= i < j < |es| ==> es[i].slot < es[j].slot
  }

  /** The set bits below `n`, polled in ascending order. */
  function PollEvents(mask: nat, n: nat): seq<Event> {
    if n == 0 then [] else PollEvents(mask, n - 1) + if Bit(mask, n - 1) then [Poll(n - 1)] else []
  }

  /** Each set bit once, in ascending order, and nothing else. */
  lemma {:induction false} PollsExact(mask: nat, n: nat)
    ensures forall e :: e in PollEvents(mask, n) <==> e.Poll? && e.slot < n && Bit(mask, e.slot)
    ensures Ascending(PollEvents(mask, n))
  {
    if n == 0 {
    } else {
      PollsExact(mask, n - 1);
      var below := PollEvents(mask, n - 1);
      assert forall i :: 0 <= i < |below| ==> below[i] in below;
    }
  }

  lemma {:induction false} EmptyGroup(mask: nat, base: nat, n: nat)
    requires And(Shr(mask, base), 255) == 0 && n <= 8
    ensures PollEvents(mask, base + n) == PollEvents(mask, base)
  {
    if n == 0 {
    } else {
      EmptyGroup(mask, base, n - 1);
      GroupBit(mask, base, n - 1);
      BitOfZero(n - 1);
    }
  }

  /** The grouped loops make the calls of the plain sweep; an empty group of eight is skipped in
      one test. */
  method PollGroups(active: u32, before: seq<Event>) returns (trace: seq<Event>)
    ensures trace == before + PollEvents(active, NUM_SLOTS)
  {
    trace := before;
    var base := 0;
    while base < NUM_SLOTS
      invariant base % 8 == 0 && base <= NUM_SLOTS
      invariant trace == before + PollEvents(active, base)
    {
      var group := And(Shr(active, base), 255);
      if group == 0 {
        EmptyGroup(active, base, 8);
      } else {
        trace := PollGroup(active, base, group, before, trace);
      }
      base := base + 8;
    }
  }

  /** The inner loop over one group. */
  method PollGroup(ghost active: u32, base: nat, group: nat, ghost before: seq<Event>, was: seq<Event>)
    returns (trace: seq<Event>)
    requires group == And(Shr(active, base), 255) && was == before + PollEvents(active, base)
    ensures trace == before + PollEvents(active, base + 8)
  {
    trace := was;
    for i := 0 to 8
      invariant trace == before + PollEvents(active, base + i)
    {
      GroupBit(active, base, i);
      if Bit(group, i) {
        trace := trace + [Poll(base + i)];
      }
    }
  }

  predicate IsUart(slot: nat) {
    slot % DEVS_PER_L2CPU == UART_OFFSET
  }

  predicate NewlyActive(active: nat, prev: nat, slot: nat) {
    Bit(active, slot) && !Bit(prev, slot) && !IsUart(slot)
  }

  /** The newly active virtio slots, initialised in ascending order. */
  function InitEvents(active: nat, prev: nat, n: nat): seq<Event> {
    if n == 0 then [] else
      InitEvents(active, prev, n - 1) + if NewlyActive(active, prev, n - 1) then [Init(n - 1)] else []
  }

  /** The activation loop, skipped altogether when nothing is newly active. */
  method InitNew(active: u32, prev: u32, before: seq<Event>) returns (trace: seq<Event>)
    ensures trace == before + InitEvents(active, prev, NUM_SLOTS)
  {
    var newly := AndNot(active, prev);
    trace := before;
    if newly != 0 {
      for slot := 0 to NUM_SLOTS
        invariant trace == before + InitEvents(active, prev, slot)
      {
        BitOfAndNot(active, prev, slot);
        if Bit(newly, slot) && slot % DEVS_PER_L2CPU != UART_OFFSET {
          trace := trace + [Init(slot)];
        }
      }
    } else {
      NothingNew(active, prev, NUM_SLOTS);
    }
  }

  lemma {:induction false} NothingNew(active: nat, prev: nat, n: nat)
    requires AndNot(active, prev) == 0
    ensures InitEvents(active, prev, n) == []
  {
    if n == 0 {
    } else {
      NothingNew(active, prev, n - 1);
      BitOfAndNot(active, prev, n - 1);
      BitOfZero(n - 1);
    }
  }

  /** `init_device` runs exactly for non-UART bits that go from 0 to 1, each of them once. */
  lemma {:induction false} InitExactly(active: nat, prev: nat, n: nat)
    ensures forall e :: e in InitEvents(active, prev, n) <==>
      e.Init? && e.slot < n && Bit(active, e.slot) && !Bit(prev, e.slot) && e.slot % 8 != 6
    ensures Ascending(InitEvents(active, prev, n))
  {
    if n == 0 {
    } else {
      InitExactly(active, prev, n - 1);
      var below := InitEvents(active, prev, n - 1);
      assert forall i :: 0 <= i < |below| ==> below[i] in below;
    }
  }

  /** The calls of one pass. */
  function PassEvents(active: u32, prev: u32): seq<Event> {
    InitEvents(active, prev, NUM_SLOTS) + PollEvents(active, NUM_SLOTS)
  }

  /** In a pass every initialisation comes before every poll, and a slot that is initialised is
      polled in the same pass. */
  lemma InitThenPoll(active: u32, prev: u32, i: nat) returns (j: nat)
    requires i < |PassEvents(active, prev)| && PassEvents(active, prev)[i].Init?
    ensures i < j < |PassEvents(active, prev)| && PassEvents(active, prev)[j] == Poll(PassEvents(active, prev)[i].slot)
    ensures forall k :: 0 <= k <= i ==> PassEvents(active, prev)[k].Init?
  {
    var inits, polls := InitEvents(active, prev, NUM_SLOTS), PollEvents(active, NUM_SLOTS);
    InitExactly(active, prev, NUM_SLOTS);
    PollsExact(active, NUM_SLOTS);
    assert forall k :: 0 <= k < |polls| ==> polls[k] in polls;
    assert forall k :: 0 <= k < |inits| ==> inits[k] in inits;
    var e := Poll(inits[i].slot);
    assert e in polls;
    var k :| 0 <= k < |polls| && polls[k] == e;
    j := |inits| + k;
  }

  // ---- TRISC lifecycles ----

  /** SOFT_RESET_ALL_EXCEPT_BRISC, as the set of bits that are 1. */
  const ALL_EXCEPT_BRISC: set<nat> := {12, 13, 14, 18}

  predicate UartActive(active: u32) {
    exists k: nat :: k < NUM_SLOTS && IsUart(k) && Bit(active, k)
  }

  /** The word with ones at the UART slots, shifted right by `k`. */
  function UartWord(k: nat): nat
    decreases 32 - k
  {
    if k >= 32 then 0 else (if IsUart(k) then 1 else 0) + 2 * UartWord(k + 1)
  }

  lemma UartWordIsMask()
    ensures UartWord(0) == UART_SLOT_MASK
  {
    assert UartWord(30) == 0x1;
    assert UartWord(28) == 0x4;
    assert UartWord(26) == 0x10;
    assert UartWord(24) == 0x40;
    assert UartWord(22) == 0x101;
    assert UartWord(20) == 0x404;
    assert UartWord(18) == 0x1010;
    assert UartWord(16) == 0x4040;
    assert UartWord(14) == 0x1_0101;
    assert UartWord(12) == 0x4_0404;
    assert UartWord(10) == 0x10_1010;
    assert UartWord(8) == 0x40_4040;
    assert UartWord(6) == 0x101_0101;
    assert UartWord(4) == 0x404_0404;
    assert UartWord(2) == 0x1010_1010;
  }

  lemma UartWordHalf(k: nat)
    requires k < 32
    ensures UartWord(k) / 2 == UartWord(k + 1) && (UartWord(k) % 2 == 1 <==> IsUart(k))
  {
  }

  lemma {:induction false} UartWordBits(k: nat, n: nat)
    requires k + n < 32
    ensures Bit(UartWord(k), n) <==> IsUart(k + n)
    decreases n
  {
    UartWordHalf(k);
    if n == 0 {
    } else {
      UartWordBits(k + 1, n - 1);
      assert Bit(UartWord(k), n) == Bit(UartWord(k + 1), n - 1);
    }
  }

  lemma UartMaskBits(k: nat)
    requires k < NUM_SLOTS
    ensures Bit(UART_SLOT_MASK, k) <==> IsUart(k)
  {
    UartWordIsMask();
    UartWordBits(0, k);
  }

  /** The mask test of `brisc_drive_trisc0_lifecycle`. */
  lemma UartTest(active: u32)
    ensures And(active, UART_SLOT_MASK) != 0 <==> UartActive(active)
    ensures UartActive(active) <==> exists k: nat :: k < 32 && k % 8 == 6 && Bit(active, k)
  {
    if And(active, UART_SLOT_MASK) != 0 {
      var k := NonzeroHasBit(And(active, UART_SLOT_MASK));
      BitOfAnd(active, UART_SLOT_MASK, k);
      if k < NUM_SLOTS {
        UartMaskBits(k);
      } else {
        Pow2Of32();
        HighBitsClear(active, 32, k);
        assert false;
      }
    }
    forall k: nat | k < NUM_SLOTS && IsUart(k) && Bit(active, k) ensures And(active, UART_SLOT_MASK) != 0 {
      BitOfAnd(active, UART_SLOT_MASK, k);
      UartMaskBits(k);
      BitOfZero(k);
    }
  }

  /** How often a condition changes along a run that starts with it false. */
  function Edges(wants: seq<bool>): nat {
    if wants == [] then 0
    else Edges(wants[..|wants| - 1]) + if Last(wants) != Last(wants[..|wants| - 1]) then 1 else 0
  }

  function Last(wants: seq<bool>): bool {
    wants != [] && wants[|wants| - 1]
  }

  /** The two words the daemon publishes. */
  datatype Masks = Masks(active: u32, virtio: u32)

  /** Should TRISC `c` run under these masks? */
  ghost predicate Want(c: nat, m: Masks) {
    if c == 0 then UartActive(m.active) else m.virtio != 0
  }

  ghost function Wants(c: nat, hist: seq<Masks>): seq<bool> {
    if hist == [] then [] else Wants(c, hist[..|hist| - 1]) + [Want(c, hist[|hist| - 1])]
  }

  /** The active mask of the pass before the n-th; nothing is active before the first. */
  function PrevActive(hist: seq<Masks>, n: nat): u32
    requires n <= |hist|
  {
    if n == 0 then 0 else hist[n - 1].active
  }

  /** Each pass made the calls its masks ask for. */
  ghost predicate Logged(hist: seq<Masks>, log: seq<seq<Event>>) {
    |log| <= |hist| && forall n {:trigger log[n]} :: 0 <= n < |log| ==>
      log[n] == PassEvents(hist[n].active, PrevActive(hist, n))
  }

  /** One TRISC as BRISC drives it: the firmware's flag, and what was wanted in each pass. */
  datatype Core = Core(running: bool, wants: seq<bool>)

  /** The core is out of reset exactly while last wanted, the flag agrees with the register, and
      the core's reset bit was stored `writes` times: once per change of what was wanted. */
  ghost predicate CoreOk(k: Core, inReset: bool, writes: nat) {
    k.running == Last(k.wants) && inReset == !k.running && writes == Edges(k.wants)
  }

  /** The register store, if any, that one core's lifecycle makes: one on an edge, else none. */
  function EdgeStore(bit: nat, before: bool, want: bool): seq<nat> {
    if want != before then [bit] else []
  }

  /** How often `bit` was stored. */
  ghost function Count(stores: seq<nat>, bit: nat): nat {
    multiset(stores)[bit]
  }

  lemma CountMore(s: seq<nat>, bit: nat, before: bool, want: bool)
    ensures Count(s + EdgeStore(bit, before, want), bit) == Count(s, bit) + if want != before then 1 else 0
    ensures forall b: nat :: b != bit ==> Count(s + EdgeStore(bit, before, want), b) == Count(s, b)
  {
  }

  lemma WantMore(wants: seq<bool>, want: bool)
    ensures Last(wants + [want]) == want
    ensures Edges(wants + [want]) == Edges(wants) + if want != Last(wants) then 1 else 0
  {
    assert (wants + [want])[..|wants|] == wants;
  }

  class Firmware {
    var prev: u32
    var softReset: set<nat>
    var trisc0: Core
    var trisc1: Core
    var trisc2: Core
    var log: seq<seq<Event>>
    ghost var stores: seq<nat>  // the reset bits stored through `SetReset`, in order

    /** Each core is as it should be after the masks `hist`, the register was stored exactly on
        the edges, every pass did what its masks ask, BRISC's reset bit stays 0, NCRISC's 1, and
        no other bit ever appears. */
    ghost predicate After(hist: seq<Masks>)
      reads this
    {
      && Cores(hist)
      && |log| == |hist| && Logged(hist, log)
    }

    ghost predicate Cores(hist: seq<Masks>)
      reads this
    {
      && prev == PrevActive(hist, |hist|)
      && Driven()
      && trisc0.wants == Wants(0, hist) && trisc1.wants == Wants(1, hist) && trisc2.wants == Wants(2, hist)
    }

    /** The register and its stores are what was wanted of the three cores so far. */
    ghost predicate Driven()
      reads this
    {
      && CoreOk(trisc0, 12 in softReset, Count(stores, 12))
      && CoreOk(trisc1, 13 in softReset, Count(stores, 13))
      && CoreOk(trisc2, 14 in softReset, Count(stores, 14))
      && (forall b: nat :: b < 12 || b > 14 ==> Count(stores, b) == 0)
      && forall b: nat :: b < 12 || b > 14 ==> (b in softReset <==> b == 18)
    }

    constructor ()
      ensures After([]) && softReset == ALL_EXCEPT_BRISC
    {
      prev, softReset, log, stores := 0, ALL_EXCEPT_BRISC, [], [];
      trisc0, trisc1, trisc2 := Core(false, []), Core(false, []), Core(false, []);
    }

    /** `brisc_set_trisc*_reset`: every other bit of the register is kept. */
    method SetReset(bit: nat, asserted: bool)
      modifies this`softReset, this`stores
      ensures stores == old(stores) + [bit]
      ensures bit in softReset <==> asserted
      ensures forall b: nat :: b != bit ==> (b in softReset <==> b in old(softReset))
    {
      var v := softReset;
      if asserted {
        v := v + {bit};
      } else {
        v := v - {bit};
      }
      softReset := v;
      stores := stores + [bit];
    }

    /** `brisc_drive_trisc*_lifecycle`: one store on an edge, none otherwise. */
    method Drive(k: Core, bit: nat, want: bool) returns (n: Core)
      requires CoreOk(k, bit in softReset, Count(stores, bit))
      modifies this`softReset, this`stores
      ensures CoreOk(n, bit in softReset, Count(stores, bit)) && n.wants == k.wants + [want]
      ensures stores == old(stores) + EdgeStore(bit, Last(k.wants), want)
      ensures forall b: nat :: b != bit ==>
        (b in softReset <==> b in old(softReset)) && Count(stores, b) == Count(old(stores), b)
    {
      CountMore(stores, bit, Last(k.wants), want);
      n := k.(wants := k.wants + [want]);
      WantMore(k.wants, want);
      if want && !k.running {
        SetReset(bit, false);
        n := n.(running := true);
      } else if !want && k.running {
        SetReset(bit, true);
        n := n.(running := false);
      }
    }

    /** The three lifecycles, in the order the loop runs them. */
    method DriveThree(uart: bool, virtio: bool)
      requires Driven()
      modifies this`softReset, this`stores, this`trisc0, this`trisc1, this`trisc2
      ensures Driven()
      ensures trisc0.wants == old(trisc0.wants) + [uart]
      ensures trisc1.wants == old(trisc1.wants) + [virtio] && trisc2.wants == old(trisc2.wants) + [virtio]
    {
      trisc0 := Drive(trisc0, 12, uart);
      trisc1 := Drive(trisc1, 13, virtio);
      trisc2 := Drive(trisc2, 14, virtio);
    }

    /** What one pass does with the masks it reads. */
    method DriveAll(m: Masks, ghost hist: seq<Masks>)
      requires Cores(hist)
      modifies this`softReset, this`stores, this`trisc0, this`trisc1, this`trisc2, this`prev
      ensures Cores(hist + [m])
    {
      prev := m.active;
      var uart := And(m.active, UART_SLOT_MASK) != 0;
      assert uart == Want(0, m) by {
        UartTest(m.active);
      }
      DriveThree(uart, m.virtio != 0);
      WantsMore(0, hist, m);
      WantsMore(1, hist, m);
      WantsMore(2, hist, m);
    }

    /** One pass of the main loop. */
    method OnePass(m: Masks, ghost hist: seq<Masks>)
      requires After(hist)
      modifies this
      ensures After(hist + [m]) && old(log) < log
    {
      var trace := InitNew(m.active, prev, []);
      trace := PollGroups(m.active, trace);
      assert [] + InitEvents(m.active, prev, NUM_SLOTS) == InitEvents(m.active, prev, NUM_SLOTS);
      LogMore(hist, m, log, trace);
      log := log + [trace];
      DriveAll(m, hist);
    }

    lemma ResetFollowsMasks(hist: seq<Masks>)
      requires After(hist) && hist != []
      ensures var last := hist[|hist| - 1];
        && (12 in softReset <==> !UartActive(last.active))
        && (13 in softReset <==> last.virtio == 0) && (14 in softReset <==> last.virtio == 0)
    {
      LastWants(hist, 0);
      LastWants(hist, 1);
      LastWants(hist, 2);
    }

    /** The main loop over any sequence of published masks. */
    method Run(hist: seq<Masks>)
      requires After([])
      modifies this
      ensures After(hist)
      ensures Count(stores, 12) == Edges(Wants(0, hist))
      ensures Count(stores, 13) == Edges(Wants(1, hist))
      ensures Count(stores, 14) == Edges(Wants(2, hist))
      ensures forall b: nat :: b < 12 || b > 14 ==> Count(stores, b) == 0
      ensures hist != [] ==>
        var last := hist[|hist| - 1];
        && (12 in softReset <==> !UartActive(last.active))
        && (13 in softReset <==> last.virtio == 0) && (14 in softReset <==> last.virtio == 0)
    {
      ghost var seen: seq<Masks> := [];
      for n := 0 to |hist|
        invariant seen == hist[..n] && After(seen)
      {
        Snoc(hist, n);
        OnePass(hist[n], seen);
        seen := hist[..n + 1];
      }
      Snoc(hist, |hist|);
      if hist != [] {
        ResetFollowsMasks(hist);
      }
    }
  }

  lemma Snoc(hist: seq<Masks>, n: nat)
    requires n <= |hist|
    ensures n < |hist| ==> hist[..n] + [hist[n]] == hist[..n + 1]
    ensures n == |hist| ==> hist[..n] == hist
  {
  }

  lemma WantsMore(c: nat, hist: seq<Masks>, m: Masks)
    ensures Wants(c, hist + [m]) == Wants(c, hist) + [Want(c, m)]
  {
    assert (hist + [m])[..|hist|] == hist;
  }

  lemma LogMore(hist: seq<Masks>, m: Masks, log: seq<seq<Event>>, trace: seq<Event>)
    requires |log| == |hist| && Logged(hist, log) && trace == PassEvents(m.active, PrevActive(hist, |hist|))
    ensures Logged(hist + [m], log + [trace])
  {
  }

  /** After any run TRISC0 is out of reset exactly when the last mask has a UART bit, TRISC1 and
      TRISC2 exactly when the last virtio mask is nonzero. */
  lemma LastWants(hist: seq<Masks>, c: nat)
    requires hist != []
    ensures Last(Wants(c, hist)) == Want(c, hist[|hist| - 1])
  {
  }
}
