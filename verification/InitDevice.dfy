/** `init_device` as the list of stores it makes, run against every interleaving of stores by
    the guest, the daemon and the other cores to the same register file. */
module InitDevice {
  import opened Words

  // word indices into a slot's register file
  const VERSION := 1
  const DEVICE_ID := 2
  const VENDOR_ID := 3
  const DEVICE_FEATURES := 4
  const SW_IMPL := 6
  const QUEUE_NUM_MAX := 13
  const QUEUE_NOTIFY := 20
  const STATUS := 28
  const CONFIG := 64
  const REG_WORDS := 1024
  const SHADOW_WORDS := 256
  const QUEUE_WORDS := 16

  const NO_NOTIFY: u32 := 0xFFFF_FFFF

  /** A slot's template; `queues` is at most 8. */
  datatype Device = Device(id: u32, queues: nat, features: u32)

  datatype Store = Store(shadow: bool, w: nat, v: u32)

  type Memory = nat -> u32

  // ---- the program ----

  function Zeros(shadow: bool, from: nat, end: nat): seq<Store>
    decreases end - from
  {
    if from >= end then [] else Zeros(shadow, from, end - 1) + [Store(shadow, end - 1, 0)]
  }

  function Plants(d: Device): seq<Store> {
    [Store(false, 0, 0x7472_6976), Store(false, VERSION, 2), Store(false, DEVICE_ID, d.id),
     Store(false, VENDOR_ID, 0x5554_4254), Store(false, QUEUE_NUM_MAX, 256),
     Store(false, DEVICE_FEATURES, d.features), Store(false, QUEUE_NOTIFY, NO_NOTIFY), Store(false, SW_IMPL, 1)]
  }

  /** NUM and READY of each queue's shadow. */
  function QueueZeros(n: nat): seq<Store> {
    if n == 0 then [] else
      QueueZeros(n - 1) + [Store(true, (n - 1) * QUEUE_WORDS, 0), Store(true, (n - 1) * QUEUE_WORDS + 1, 0)]
  }

  /** The stores of `init_device`, in order: the wipe around STATUS, the shadow wipe, the planted
      registers, the queues. */
  function Program(d: Device): seq<Store> {
    Zeros(false, 0, STATUS) + Zeros(false, STATUS + 1, CONFIG) + Zeros(true, 0, SHADOW_WORDS)
    + Plants(d) + QueueZeros(d.queues)
  }

  /** What `p` leaves in a word that held `was`. */
  function Value(p: seq<Store>, shadow: bool, w: nat, was: u32): u32 {
    if p == [] then was
    else if p[|p| - 1].shadow == shadow && p[|p| - 1].w == w then p[|p| - 1].v
    else Value(p[..|p| - 1], shadow, w, was)
  }

  lemma ValueSnoc(p: seq<Store>, st: Store, shadow: bool, w: nat, was: u32)
    ensures Value(p + [st], shadow, w, was) ==
      if st.shadow == shadow && st.w == w then st.v else Value(p, shadow, w, was)
  {
    assert (p + [st])[..|p|] == p;
  }

  lemma {:induction false} ValueAppend(p: seq<Store>, q: seq<Store>, shadow: bool, w: nat, was: u32)
    ensures Value(p + q, shadow, w, was) == Value(q, shadow, w, Value(p, shadow, w, was))
  {
    if q == [] {
      assert p + q == p;
    } else {
      assert (p + q)[..|p + q| - 1] == p + q[..|q| - 1];
      ValueAppend(p, q[..|q| - 1], shadow, w, was);
    }
  }

  lemma {:induction false} ValueZeros(region: bool, from: nat, end: nat, shadow: bool, w: nat, was: u32)
    ensures Value(Zeros(region, from, end), shadow, w, was) == if shadow == region && from <= w < end then 0 else was
    decreases end - from
  {
    if from >= end {
    } else {
      ValueZeros(region, from, end - 1, shadow, w, was);
      var z := Zeros(region, from, end);
      assert z[..|z| - 1] == Zeros(region, from, end - 1);
    }
  }

  lemma {:induction false} ValueQueueZeros(n: nat, shadow: bool, w: nat, was: u32)
    requires !shadow || was == 0
    ensures Value(QueueZeros(n), shadow, w, was) == was
  {
    if n == 0 {
    } else {
      ValueQueueZeros(n - 1, shadow, w, was);
      var p, x := QueueZeros(n - 1), Store(true, (n - 1) * QUEUE_WORDS, 0);
      var y := Store(true, (n - 1) * QUEUE_WORDS + 1, 0);
      assert QueueZeros(n) == p + [x] + [y];
      ValueSnoc(p + [x], y, shadow, w, was);
      ValueSnoc(p, x, shadow, w, was);
    }
  }

  /** The register file `init_device` means to leave. */
  function Planted(d: Device, w: nat, was: u32): u32 {
    if w == STATUS || w >= CONFIG then was
    else if w == 0 then 0x7472_6976
    else if w == VERSION then 2
    else if w == DEVICE_ID then d.id
    else if w == VENDOR_ID then 0x5554_4254
    else if w == DEVICE_FEATURES then d.features
    else if w == SW_IMPL then 1
    else if w == QUEUE_NUM_MAX then 256
    else if w == QUEUE_NOTIFY then NO_NOTIFY
    else 0
  }

  lemma PlantsValue(d: Device, w: nat, was: u32)
    requires w < CONFIG && w != STATUS ==> was == 0
    ensures Value(Plants(d), false, w, was) == Planted(d, w, was)
  {
    var p := Plants(d);
    assert p == [] + [p[0]] + [p[1]] + [p[2]] + [p[3]] + [p[4]] + [p[5]] + [p[6]] + [p[7]];
    ValueSnoc([], p[0], false, w, was);
    ValueSnoc([] + [p[0]], p[1], false, w, was);
    ValueSnoc([] + [p[0]] + [p[1]], p[2], false, w, was);
    ValueSnoc([] + [p[0]] + [p[1]] + [p[2]], p[3], false, w, was);
    ValueSnoc([] + [p[0]] + [p[1]] + [p[2]] + [p[3]], p[4], false, w, was);
    ValueSnoc([] + [p[0]] + [p[1]] + [p[2]] + [p[3]] + [p[4]], p[5], false, w, was);
    ValueSnoc([] + [p[0]] + [p[1]] + [p[2]] + [p[3]] + [p[4]] + [p[5]], p[6], false, w, was);
    ValueSnoc([] + [p[0]] + [p[1]] + [p[2]] + [p[3]] + [p[4]] + [p[5]] + [p[6]], p[7], false, w, was);
  }

  lemma {:induction false} RegionUntouched(p: seq<Store>, shadow: bool, w: nat, was: u32)
    requires forall k :: 0 <= k < |p| ==> p[k].shadow != shadow
    ensures Value(p, shadow, w, was) == was
  {
    if p == [] {
    } else {
      RegionUntouched(p[..|p| - 1], shadow, w, was);
    }
  }

  /** The store list leaves every register as intended and the whole shadow zero. */
  lemma ProgramValue(d: Device, w: nat, was: u32)
    ensures Value(Program(d), false, w, was) == Planted(d, w, was)
    ensures w < SHADOW_WORDS ==> Value(Program(d), true, w, was) == 0
  {
    RegsValue(d, w, was);
    if w < SHADOW_WORDS {
      ShadowValue(d, w, was);
    }
  }

  lemma RegsValue(d: Device, w: nat, was: u32)
    ensures Value(Program(d), false, w, was) == Planted(d, w, was)
  {
    var a, b, c := Zeros(false, 0, STATUS), Zeros(false, STATUS + 1, CONFIG), Zeros(true, 0, SHADOW_WORDS);
    ValueAppend(a + b + c + Plants(d), QueueZeros(d.queues), false, w, was);
    ValueAppend(a + b + c, Plants(d), false, w, was);
    ValueAppend(a + b, c, false, w, was);
    ValueAppend(a, b, false, w, was);
    ValueZeros(false, 0, STATUS, false, w, was);
    var x := Value(a, false, w, was);
    ValueZeros(false, STATUS + 1, CONFIG, false, w, x);
    var y := Value(b, false, w, x);
    ValueZeros(true, 0, SHADOW_WORDS, false, w, y);
    PlantsValue(d, w, y);
    ValueQueueZeros(d.queues, false, w, Value(Plants(d), false, w, y));
  }

  lemma ShadowTail(d: Device, p: seq<Store>, w: nat, was: u32)
    requires Value(p, true, w, was) == 0
    ensures Value(p + Plants(d) + QueueZeros(d.queues), true, w, was) == 0
  {
    ValueAppend(p + Plants(d), QueueZeros(d.queues), true, w, was);
    ValueAppend(p, Plants(d), true, w, was);
    RegionUntouched(Plants(d), true, w, 0);
    ValueQueueZeros(d.queues, true, w, 0);
  }

  lemma ShadowValue(d: Device, w: nat, was: u32)
    requires w < SHADOW_WORDS
    ensures Value(Program(d), true, w, was) == 0
  {
    var p, c := Zeros(false, 0, STATUS) + Zeros(false, STATUS + 1, CONFIG), Zeros(true, 0, SHADOW_WORDS);
    ValueAppend(p, c, true, w, was);
    ValueZeros(true, 0, SHADOW_WORDS, true, w, Value(p, true, w, was));
    ShadowTail(d, p + c, w, was);
  }

  // ---- every interleaving ----

  /** `since[w]` is the last store to register `w` by somebody else since BRISC last stored it. */
  datatype State = State(regs: Memory, shadow: Memory, pc: nat, since: map<nat, u32>)

  datatype Action = Brisc | Other(w: nat, v: u32)

  function Put(m: Memory, w: nat, v: u32): Memory {
    (x: nat) => if x == w then v else m(x)
  }

  function Step(p: seq<Store>, s: State, a: Action): State {
    match a
    case Other(w, v) => s.(regs := Put(s.regs, w, v), since := s.since[w := v])
    case Brisc =>
      if s.pc >= |p| then s
      else
        var st := p[s.pc];
        if st.shadow then s.(shadow := Put(s.shadow, st.w, st.v), pc := s.pc + 1)
        else s.(regs := Put(s.regs, st.w, st.v), pc := s.pc + 1, since := s.since - {st.w})
  }

  function Run(p: seq<Store>, regs: Memory, shadow: Memory, acts: seq<Action>): State {
    if acts == [] then State(regs, shadow, 0, map[])
    else Step(p, Run(p, regs, shadow, acts[..|acts| - 1]), acts[|acts| - 1])
  }

  /** Each word holds the others' last store since BRISC's own, or else what BRISC left. */
  ghost predicate Inv(p: seq<Store>, regs: Memory, shadow: Memory, s: State) {
    && s.pc <= |p|
    && (forall w: nat :: s.regs(w) == if w in s.since then s.since[w] else Value(p[..s.pc], false, w, regs(w)))
    && (forall w: nat :: s.shadow(w) == Value(p[..s.pc], true, w, shadow(w)))
  }

  lemma StepInv(p: seq<Store>, regs: Memory, shadow: Memory, s: State, a: Action)
    requires Inv(p, regs, shadow, s)
    ensures Inv(p, regs, shadow, Step(p, s, a))
  {
    if a.Brisc? && s.pc < |p| {
      assert p[..s.pc + 1][..s.pc] == p[..s.pc];
    }
  }

  lemma {:induction false} RunInv(p: seq<Store>, regs: Memory, shadow: Memory, acts: seq<Action>)
    ensures Inv(p, regs, shadow, Run(p, regs, shadow, acts))
  {
    if acts == [] {
      assert p[..0] == [];
    } else {
      RunInv(p, regs, shadow, acts[..|acts| - 1]);
      StepInv(p, regs, shadow, Run(p, regs, shadow, acts[..|acts| - 1]), acts[|acts| - 1]);
    }
  }

  function Briscs(acts: seq<Action>): nat {
    if acts == [] then 0 else Briscs(acts[..|acts| - 1]) + if acts[|acts| - 1].Brisc? then 1 else 0
  }

  /** BRISC makes one store of its list with every step of its own, in order, and stops at the end. */
  lemma {:induction false} StoresMade(p: seq<Store>, regs: Memory, shadow: Memory, acts: seq<Action>)
    ensures Run(p, regs, shadow, acts).pc == Min(Briscs(acts), |p|)
  {
    if acts == [] {
    } else {
      StoresMade(p, regs, shadow, acts[..|acts| - 1]);
    }
  }

  /** When `init_device` is done, in whatever way the others' stores fell: every register holds
      somebody else's later store or its planted value, and the shadow is zero. */
  lemma InitLeaves(d: Device, regs: Memory, shadow: Memory, acts: seq<Action>, w: nat)
    requires Briscs(acts) >= |Program(d)|
    ensures var s := Run(Program(d), regs, shadow, acts);
      && s.regs(w) == (if w in s.since then s.since[w] else Planted(d, w, regs(w)))
      && (w < SHADOW_WORDS ==> s.shadow(w) == 0)
  {
    RunInv(Program(d), regs, shadow, acts);
    StoresMade(Program(d), regs, shadow, acts);
    assert Program(d)[..|Program(d)|] == Program(d);
    ProgramValue(d, w, regs(w));
    ProgramValue(d, w, shadow(w));
  }

  /** The last store to `w` by anybody but BRISC, or what was there. */
  function LastOther(acts: seq<Action>, w: nat, was: u32): u32 {
    if acts == [] then was
    else
      var a := acts[|acts| - 1];
      if a.Other? && a.w == w then a.v else LastOther(acts[..|acts| - 1], w, was)
  }

  ghost predicate Spares(p: seq<Store>, w: nat) {
    forall k :: 0 <= k < |p| ==> p[k].shadow || p[k].w != w
  }

  lemma {:induction false} ZerosSpare(shadow: bool, from: nat, end: nat, w: nat)
    requires shadow || !(from <= w < end)
    ensures Spares(Zeros(shadow, from, end), w)
    decreases end - from
  {
    if from >= end {
    } else {
      ZerosSpare(shadow, from, end - 1, w);
    }
  }

  lemma {:induction false} QueueZerosSpare(n: nat, w: nat)
    ensures Spares(QueueZeros(n), w)
  {
    if n == 0 {
    } else {
      QueueZerosSpare(n - 1, w);
    }
  }

  /** `init_device` never stores STATUS or a configuration word. */
  lemma ProgramSpares(d: Device, w: nat)
    requires w == STATUS || w >= CONFIG
    ensures Spares(Program(d), w)
  {
    ZerosSpare(false, 0, STATUS, w);
    ZerosSpare(false, STATUS + 1, CONFIG, w);
    ZerosSpare(true, 0, SHADOW_WORDS, w);
    QueueZerosSpare(d.queues, w);
    assert Spares(Plants(d), w);
  }

  lemma {:induction false} SparedIsOthers(p: seq<Store>, regs: Memory, shadow: Memory, acts: seq<Action>, w: nat)
    requires Spares(p, w)
    ensures Run(p, regs, shadow, acts).regs(w) == LastOther(acts, w, regs(w))
  {
    if acts == [] {
    } else {
      SparedIsOthers(p, regs, shadow, acts[..|acts| - 1], w);
    }
  }

  /** STATUS belongs to the guest: at every moment of every interleaving it holds the guest's
      last write, and so does every configuration word from 0x100 up. */
  lemma StatusBelongsToGuest(d: Device, regs: Memory, shadow: Memory, acts: seq<Action>, w: nat)
    requires w == STATUS || w >= CONFIG
    ensures Run(Program(d), regs, shadow, acts).regs(w) == LastOther(acts, w, regs(w))
  {
    ProgramSpares(d, w);
    SparedIsOthers(Program(d), regs, shadow, acts, w);
  }

  // ---- the routine itself ----

  class RegisterFile {
    const regs: array<u32>
    const shadow: array<u32>

    ghost predicate Valid() {
      regs.Length == REG_WORDS && shadow.Length == SHADOW_WORDS && regs != shadow
    }

    constructor (regs: array<u32>, shadow: array<u32>)
      requires regs.Length == REG_WORDS && shadow.Length == SHADOW_WORDS && regs != shadow
      ensures Valid() && this.regs == regs && this.shadow == shadow
    {
      this.regs, this.shadow := regs, shadow;
    }

    /** `zero_region` on words `[from, to)`. */
    static method ZeroRegion(a: array<u32>, from: nat, end: nat)
      requires from <= end <= a.Length
      modifies a
      ensures forall w :: 0 <= w < a.Length ==> a[w] == if from <= w < end then 0 else old(a[w])
    {
      for off := from to end
        invariant forall w :: 0 <= w < a.Length ==> a[w] == if from <= w < off then 0 else old(a[w])
      {
        a[off] := 0;
      }
    }

    /** Uninterrupted, `init_device` leaves what its store list leaves. */
    method Init(d: Device)
      requires Valid() && d.queues <= 8
      modifies regs, shadow
      ensures forall w :: 0 <= w < REG_WORDS ==> regs[w] == Planted(d, w, old(regs[w]))
      ensures forall w :: 0 <= w < SHADOW_WORDS ==> shadow[w] == 0
    {
      ZeroRegion(regs, 0, STATUS);
      ZeroRegion(regs, STATUS + 1, CONFIG);
      ZeroRegion(shadow, 0, SHADOW_WORDS);
      regs[0] := 0x7472_6976;
      regs[VERSION] := 2;
      regs[DEVICE_ID] := d.id;
      regs[VENDOR_ID] := 0x5554_4254;
      regs[QUEUE_NUM_MAX] := 256;
      regs[DEVICE_FEATURES] := d.features;
      regs[QUEUE_NOTIFY] := NO_NOTIFY;
      regs[SW_IMPL] := 1;
      for q := 0 to d.queues
        invariant forall w :: 0 <= w < REG_WORDS ==> regs[w] == Planted(d, w, old(regs[w]))
        invariant forall w :: 0 <= w < SHADOW_WORDS ==> shadow[w] == 0
      {
        shadow[q * QUEUE_WORDS] := 0;
        shadow[q * QUEUE_WORDS + 1] := 0;
      }
    }
  }
}
