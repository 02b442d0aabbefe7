/** The daemon's RX dispatch of a queue against BRISC's stores of it. The dispatch needs no dirty byte
    and does not test READY: it loads the seven shadow words one by one while BRISC may be filling
    the entry (capture or rescue) or clearing it (device reset), and then checks the addresses it has
    put together. */
module ShadowRead {
  import opened Words
  import opened QueueEngine

  /** BRISC and the entry: all words 0, filling it with `v`, filled, clearing it. Both go through the
      words in order. */
  datatype Writer = Empty | Filling(v: Fields, k: nat) | Full | Clearing(k: nat)

  /** `got`: the words the dispatch has loaded so far. */
  datatype State = State(shadow: Fields, pc: Writer, got: seq<u32>)

  datatype Action = Fill(v: Fields) | Clear | Store | Dispatch | Load

  /** The dispatch loads the six address words, low before high, and QUEUE_NUM last; BRISC stores
      QUEUE_NUM first. */
  function LoadOrder(i: nat): nat {
    if i < 6 then i + 1 else 0
  }

  function StoreStep(s: State): State {
    match s.pc
    case Filling(v, k) =>
      if k < 7 then s.(shadow := s.shadow[k := v[k]], pc := if k == 6 then Full else Filling(v, k + 1)) else s
    case Clearing(k) =>
      if k < 7 then s.(shadow := s.shadow[k := 0], pc := if k == 6 then Empty else Clearing(k + 1)) else s
    case _ => s
  }

  function Step(s: State, a: Action): State {
    match a
    case Fill(v) => if s.pc.Empty? || s.pc.Full? then s.(pc := Filling(v, 0)) else s
    case Clear => if s.pc.Full? then s.(pc := Clearing(0)) else s
    case Store => StoreStep(s)
    case Dispatch => if |s.got| == 7 then s.(got := []) else s
    case Load => if |s.got| < 7 then s.(got := s.got + [s.shadow[LoadOrder(|s.got|)]]) else s
  }

  function Run(acts: seq<Action>): State {
    if acts == [] then State(NO_FIELDS, Empty, []) else Step(Run(acts[..|acts| - 1]), acts[|acts| - 1])
  }

  lemma Do(acts: seq<Action>, a: Action)
    ensures Run(acts + [a]) == Step(Run(acts), a)
  {
    assert (acts + [a])[..|acts + [a]| - 1] == acts;
  }

  // ---- what the dispatch accepts ----

  /** `[starting, mem_end)`. */
  datatype Window = Window(start: u64, end: u64)

  const U64_MAX: int := 0xFFFF_FFFF_FFFF_FFFF

  function Address(lo: u32, hi: u32): u64 {
    hi * TWO32 + lo
  }

  /** `in_range`, with its saturating addition. */
  predicate InRange(w: Window, addr: u64, size: nat) {
    w.start <= addr && Min(addr + size, U64_MAX) <= w.end
  }

  predicate Placed(w: Window, lo: u32, hi: u32, size: nat) {
    Address(lo, hi) != 0 && InRange(w, Address(lo, hi), size)
  }

  predicate Accepts(w: Window, got: seq<u32>) {
    && |got| == 7 && Placed(w, got[0], got[1], 16) && Placed(w, got[2], got[3], 4) && Placed(w, got[4], got[5], 4)
    && 0 < got[6] <= 65535
  }

  /** The words of an entry in the order of the loads. */
  function Loaded(v: Fields): seq<u32> {
    [v[1], v[2], v[3], v[4], v[5], v[6], v[0]]
  }

  // ---- one configuration of the queue, filled and cleared any number of times ----

  ghost predicate OnlyFills(acts: seq<Action>, v: Fields) {
    forall k :: 0 <= k < |acts| && acts[k].Fill? ==> acts[k].v == v
  }

  function Filled(v: Fields, n: nat): Fields {
    seq(7, f requires 0 <= f < 7 => if f < n then v[f] else 0)
  }

  function Cleared(v: Fields, n: nat): Fields {
    seq(7, f requires 0 <= f < 7 => if f < n then 0 else v[f])
  }

  /** The entry is what the stores so far make of it. */
  predicate EntryInv(s: State, v: Fields) {
    match s.pc
    case Empty => s.shadow == NO_FIELDS
    case Filling(u, k) => u == v && k < 7 && (s.shadow == Filled(v, k) || s.shadow == v)
    case Full => s.shadow == v
    case Clearing(k) => k < 7 && s.shadow == Cleared(v, k)
  }

  /** A word is the guest's or 0. */
  predicate OrZero(x: u32, y: u32) {
    x == y || x == 0
  }

  ghost predicate GotInv(got: seq<u32>, v: Fields) {
    |got| <= 7 && forall i :: 0 <= i < |got| ==> OrZero(got[i], v[LoadOrder(i)])
  }

  lemma StoreKeepsEntry(s: State, v: Fields)
    requires EntryInv(s, v)
    ensures EntryInv(StoreStep(s), v)
  {
    match s.pc
    case Filling(_, k) =>
      assert Filled(v, k)[k := v[k]] == Filled(v, k + 1) && v[k := v[k]] == v;
      assert k == 6 ==> Filled(v, 7) == v;
    case Clearing(k) => assert k < 6 ==> s.shadow[k := 0] == Cleared(v, k + 1);
    case _ =>
  }

  lemma EntryWord(s: State, v: Fields, f: nat)
    requires EntryInv(s, v) && f < 7
    ensures OrZero(s.shadow[f], v[f])
  {
  }

  lemma StepKeeps(s: State, v: Fields, a: Action)
    requires EntryInv(s, v) && GotInv(s.got, v) && (a.Fill? ==> a.v == v)
    ensures EntryInv(Step(s, a), v) && GotInv(Step(s, a).got, v)
  {
    match a
    case Fill(_) => assert Filled(v, 0) == NO_FIELDS;
    case Clear => assert Cleared(v, 0) == v;
    case Store => StoreKeepsEntry(s, v);
    case Load =>
      if |s.got| < 7 {
        EntryWord(s, v, LoadOrder(|s.got|));
      }
    case Dispatch =>
  }

  lemma {:induction false} RunInv(acts: seq<Action>, v: Fields)
    requires OnlyFills(acts, v)
    ensures EntryInv(Run(acts), v) && GotInv(Run(acts).got, v)
  {
    if acts == [] {
    } else {
      RunInv(acts[..|acts| - 1], v);
      StepKeeps(Run(acts[..|acts| - 1]), v, acts[|acts| - 1]);
    }
  }

  /** In no run does a dispatch accept anything but the guest's words. */
  ghost predicate NeverTorn(w: Window, v: Fields) {
    forall acts :: OnlyFills(acts, v) && Accepts(w, Run(acts).got) ==> Run(acts).got == Loaded(v)
  }

  /** One half alone of the address, the other half read as 0, is an acceptable address. */
  predicate Tears(w: Window, lo: u32, hi: u32, size: nat) {
    lo != 0 && hi != 0 && (InRange(w, Address(0, hi), size) || InRange(w, Address(lo, 0), size))
  }

  predicate AnyTears(w: Window, v: Fields) {
    Tears(w, v[1], v[2], 16) || Tears(w, v[3], v[4], 4) || Tears(w, v[5], v[6], 4)
  }

  lemma Intact(w: Window, lo: u32, hi: u32, size: nat, x: u32, y: u32)
    requires OrZero(x, lo) && OrZero(y, hi) && Placed(w, x, y, size) && !Tears(w, lo, hi, size)
    ensures x == lo && y == hi
  {
  }

  lemma GotIntact(w: Window, v: Fields, got: seq<u32>)
    requires GotInv(got, v) && Accepts(w, got) && !AnyTears(w, v)
    ensures got == Loaded(v)
  {
    assert OrZero(got[0], v[1]) && OrZero(got[1], v[2]) && OrZero(got[2], v[3]);
    assert OrZero(got[3], v[4]) && OrZero(got[4], v[5]) && OrZero(got[5], v[6]) && OrZero(got[6], v[0]);
    Intact(w, v[1], v[2], 16, got[0], got[1]);
    Intact(w, v[3], v[4], 4, got[2], got[3]);
    Intact(w, v[5], v[6], 4, got[4], got[5]);
  }

  // ---- pieces of runs ----

  /** `r` goes on from `acts` without another fill. */
  ghost predicate Extends(acts: seq<Action>, r: seq<Action>) {
    acts <= r && forall k :: |acts| <= k < |r| ==> !r[k].Fill?
  }

  /** BRISC fills the entry up to word `c`. */
  lemma {:induction false} StoreUpTo(acts: seq<Action>, v: Fields, n: nat, c: nat) returns (r: seq<Action>)
    requires n < c <= 7 && Run(acts).pc == Filling(v, n) && Run(acts).shadow == Filled(v, n)
    ensures Run(r) == Run(acts).(shadow := Filled(v, c), pc := if c == 7 then Full else Filling(v, c))
    ensures Extends(acts, r)
    decreases c - n
  {
    Do(acts, Store);
    assert Filled(v, n)[n := v[n]] == Filled(v, n + 1);
    r := acts + [Store];
    if n + 1 == c {
    } else {
      r := StoreUpTo(r, v, n + 1, c);
    }
  }

  /** The words a dispatch loads next from an entry that does not change. */
  function Reads(shadow: Fields, n: nat, c: nat): seq<u32>
    requires n <= c
  {
    seq(c - n, i requires 0 <= i < c - n => shadow[LoadOrder(n + i)])
  }

  lemma ReadsNext(shadow: Fields, n: nat, c: nat)
    requires n < c
    ensures Reads(shadow, n, c) == [shadow[LoadOrder(n)]] + Reads(shadow, n + 1, c)
  {
    var rest := Reads(shadow, n + 1, c);
    assert forall i :: 0 <= i < |rest| ==> rest[i] == shadow[LoadOrder(n + 1 + i)];
  }

  /** The dispatch goes on to its `c`-th load. */
  lemma {:induction false} LoadUpTo(acts: seq<Action>, c: nat) returns (r: seq<Action>)
    requires |Run(acts).got| <= c <= 7
    ensures Run(r) == Run(acts).(got := Run(acts).got + Reads(Run(acts).shadow, |Run(acts).got|, c))
    ensures Extends(acts, r)
    decreases c - |Run(acts).got|
  {
    var s := Run(acts);
    if |s.got| == c {
      r := acts;
    } else {
      Do(acts, Load);
      LoadsOne(s, c);
      r := LoadUpTo(acts + [Load], c);
    }
  }

  lemma LoadsOne(s: State, c: nat)
    requires |s.got| < c <= 7
    ensures var t := Step(s, Load);
      && t == s.(got := t.got) && |t.got| == |s.got| + 1
      && t.got + Reads(s.shadow, |t.got|, c) == s.got + Reads(s.shadow, |s.got|, c)
  {
    ReadsNext(s.shadow, |s.got|, c);
  }

  /** From every reachable state the daemon alone can end its dispatch and begin the next. */
  lemma NextDispatch(acts: seq<Action>) returns (r: seq<Action>)
    requires |Run(acts).got| <= 7
    ensures Run(r) == Run(acts).(got := []) && Extends(acts, r)
  {
    r := LoadUpTo(acts, 7);
    Do(r, Dispatch);
    r := r + [Dispatch];
  }

  // ---- the torn run ----

  lemma CutReads(v: Fields, c: nat)
    requires 1 <= c <= 6
    ensures Reads(Filled(v, c), 0, c) + Reads(v, c, 7) == Loaded(v)[c - 1 := 0]
  {
    var x, y := Reads(Filled(v, c), 0, c), Reads(v, c, 7);
    assert forall i :: 0 <= i < c ==> x[i] == Filled(v, c)[LoadOrder(0 + i)];
    assert forall i :: 0 <= i < 7 - c ==> y[i] == v[LoadOrder(c + i)];
  }

  /** BRISC has stored the words before `c` when the dispatch loads up to word `c`; the dispatch
      then waits for BRISC. It has read word `c` as 0 and every other word as the guest's. */
  lemma MissesOne(v: Fields, c: nat) returns (r: seq<Action>)
    requires 1 <= c <= 6
    ensures OnlyFills(r, v) && Run(r).got == Loaded(v)[c - 1 := 0]
  {
    Do([], Fill(v));
    assert Filled(v, 0) == NO_FIELDS && Filled(v, 7) == v;
    r := StoreUpTo([] + [Fill(v)], v, 0, c);
    r := LoadUpTo(r, c);
    r := StoreUpTo(r, v, c, 7);
    r := LoadUpTo(r, 7);
    CutReads(v, c);
    assert [] + Reads(Filled(v, c), 0, c) == Reads(Filled(v, c), 0, c);
  }

  lemma TornIsAccepted(w: Window, v: Fields, c: nat)
    requires 1 <= c <= 6 && v[c] != 0 && Accepts(w, Loaded(v)[c - 1 := 0])
    ensures !NeverTorn(w, v)
  {
    var r := MissesOne(v, c);
    assert Run(r).got[c - 1] == 0 && Loaded(v)[c - 1] == v[c];
  }

  /** For a queue whose addresses the daemon accepts: no run of fills, clears and dispatches has a
      torn address accepted exactly when none of its three addresses has two nonzero halves of which
      one alone is acceptable. */
  lemma TornIff(w: Window, v: Fields)
    requires Accepts(w, Loaded(v))
    ensures NeverTorn(w, v) <==> !AnyTears(w, v)
  {
    if !AnyTears(w, v) {
      forall acts | OnlyFills(acts, v) && Accepts(w, Run(acts).got) ensures Run(acts).got == Loaded(v) {
        RunInv(acts, v);
        GotIntact(w, v, Run(acts).got);
      }
    } else if Tears(w, v[1], v[2], 16) {
      TornIsAccepted(w, v, if InRange(w, Address(0, v[2]), 16) then 1 else 2);
    } else if Tears(w, v[3], v[4], 4) {
      TornIsAccepted(w, v, if InRange(w, Address(0, v[4]), 4) then 3 else 4);
    } else {
      TornIsAccepted(w, v, if InRange(w, Address(0, v[6]), 4) then 5 else 6);
    }
  }

  // ---- a dispatch that starts on a filled entry ----

  ghost predicate NoFill(more: seq<Action>) {
    forall k :: 0 <= k < |more| ==> !more[k].Fill? && !more[k].Dispatch?
  }

  predicate Untouched(pc: Writer) {
    pc.Full? || pc == Clearing(0)
  }

  /** QUEUE_NUM is cleared first and loaded last. */
  ghost predicate LateInv(s: State, v: Fields) {
    && |s.got| <= 7
    && (if Untouched(s.pc) then s.shadow == v else s.shadow[0] == 0 && !s.pc.Filling?)
    && (Untouched(s.pc) || (|s.got| == 7 && s.got[6] != 0) ==> s.got == Loaded(v)[..|s.got|])
  }

  lemma LateStep(s: State, v: Fields, a: Action)
    requires LateInv(s, v) && !a.Fill? && !a.Dispatch?
    ensures LateInv(Step(s, a), v)
  {
  }

  /** A dispatch whose first load finds the entry filled accepts nothing but the guest's words, for
      any window, even if BRISC clears the entry meanwhile. */
  lemma {:induction false} LateIsWhole(acts: seq<Action>, more: seq<Action>, v: Fields)
    requires OnlyFills(acts, v) && Run(acts).pc.Full? && Run(acts).got == [] && NoFill(more)
    ensures LateInv(Run(acts + more), v)
    ensures forall w :: Accepts(w, Run(acts + more).got) ==> Run(acts + more).got == Loaded(v)
    decreases |more|
  {
    if more == [] {
      assert acts + more == acts;
      RunInv(acts, v);
    } else {
      var init, a := more[..|more| - 1], more[|more| - 1];
      LateIsWhole(acts, init, v);
      assert acts + more == acts + init + [a];
      Do(acts + init, a);
      LateStep(Run(acts + init), v, a);
    }
  }

  // ---- a dispatch across a reconfiguration ----

  /** BRISC clears the entry. */
  lemma {:induction false} ClearAll(acts: seq<Action>, v: Fields, n: nat) returns (r: seq<Action>)
    requires n < 7 && Run(acts).pc == Clearing(n) && Run(acts).shadow == Cleared(v, n)
    ensures Run(r) == Run(acts).(shadow := NO_FIELDS, pc := Empty)
    decreases 7 - n
  {
    Do(acts, Store);
    assert Cleared(v, n)[n := 0] == Cleared(v, n + 1);
    r := acts + [Store];
    if n == 6 {
      assert Cleared(v, 7) == NO_FIELDS;
    } else {
      r := ClearAll(r, v, n + 1);
    }
  }

  lemma Refilled(acts: seq<Action>, v: Fields) returns (r: seq<Action>)
    requires Run(acts).pc == Empty && Run(acts).shadow == NO_FIELDS
    ensures Run(r) == Run(acts).(shadow := v, pc := Full)
  {
    Do(acts, Fill(v));
    assert Filled(v, 0) == NO_FIELDS && Filled(v, 7) == v;
    r := StoreUpTo(acts + [Fill(v)], v, 0, 7);
  }

  lemma Emptied(acts: seq<Action>) returns (r: seq<Action>)
    requires Run(acts).pc == Full
    ensures Run(r) == Run(acts).(shadow := NO_FIELDS, pc := Empty)
  {
    Do(acts, Clear);
    assert Cleared(Run(acts).shadow, 0) == Run(acts).shadow;
    r := ClearAll(acts + [Clear], Run(acts).shadow, 0);
  }

  /** The dispatch has loaded the descriptor address when BRISC clears the entry. */
  lemma LoadedThenCleared(u: Fields) returns (r: seq<Action>)
    ensures Run(r) == State(NO_FIELDS, Empty, Loaded(u)[..2])
  {
    r := Refilled([], u);
    r := LoadUpTo(r, 2);
    assert [] + Reads(u, 0, 2) == Loaded(u)[..2];
    r := Emptied(r);
  }

  lemma MixIsAccepted(w: Window, u: Fields, v: Fields)
    requires Accepts(w, Loaded(u)) && Accepts(w, Loaded(v))
    ensures Accepts(w, Loaded(u)[..2] + Loaded(v)[2..])
  {
    var got := Loaded(u)[..2] + Loaded(v)[2..];
    assert got == [u[1], u[2], v[3], v[4], v[5], v[6], v[0]];
  }

  lemma RingReads(u: Fields, v: Fields)
    ensures |Loaded(u)[..2]| == 2 && Loaded(u)[..2] + Reads(v, 2, 7) == Loaded(u)[..2] + Loaded(v)[2..]
  {
    assert Reads(v, 2, 7) == Loaded(v)[2..];
  }

  /** A dispatch that spans a clear and a refill accepts the old descriptor table with the new
      rings, for any window that accepts both configurations. */
  lemma MixedAcrossRefill(w: Window, u: Fields, v: Fields) returns (r: seq<Action>)
    requires Accepts(w, Loaded(u)) && Accepts(w, Loaded(v))
    ensures Accepts(w, Run(r).got) && Run(r).got == Loaded(u)[..2] + Loaded(v)[2..]
  {
    r := LoadedThenCleared(u);
    r := Refilled(r, v);
    RingReads(u, v);
    r := LoadUpTo(r, 7);
    MixIsAccepted(w, u, v);
  }

  // ---- which memory windows are safe ----

  /** A queue the daemon accepts, aligned as section 2.7 of VIRTIO 1.2 demands. */
  predicate Configured(w: Window, v: Fields) {
    Accepts(w, Loaded(v)) && v[1] % 16 == 0 && v[3] % 2 == 0 && v[5] % 4 == 0
  }

  ghost predicate WindowSafe(w: Window) {
    forall v: Fields :: Configured(w, v) ==> NeverTorn(w, v)
  }

  /** The first positive multiple of 4 GiB in or after the window, as a count of 4 GiB. */
  function Page(w: Window): (m: nat)
    ensures m >= 1 && w.start <= m * TWO32 && (m == 1 || (m - 1) * TWO32 < w.start)
  {
    if w.start <= TWO32 then 1 else (w.start - 1) / TWO32 + 1
  }

  function Boundary(w: Window): nat {
    Page(w) * TWO32
  }

  lemma BoundaryIsFirst(w: Window, hi: nat)
    requires hi > 0 && w.start <= hi * TWO32
    ensures Boundary(w) <= hi * TWO32
  {
  }

  /** An address that can tear lies past a 4 GiB boundary of the window. */
  lemma TearsPastBoundary(w: Window, lo: u32, hi: u32, size: nat)
    requires lo >= 2 && size >= 4 && InRange(w, Address(lo, hi), size) && Tears(w, lo, hi, size)
    ensures Boundary(w) + 6 <= w.end
  {
    assert w.start <= hi * TWO32;
    BoundaryIsFirst(w, hi);
  }

  lemma SafeBelowBoundary(w: Window, v: Fields)
    requires Configured(w, v) && w.end < Boundary(w) + 6
    ensures !AnyTears(w, v)
  {
    if Tears(w, v[1], v[2], 16) {
      TearsPastBoundary(w, v[1], v[2], 16);
    }
    if Tears(w, v[3], v[4], 4) {
      TearsPastBoundary(w, v[3], v[4], 4);
    }
    if Tears(w, v[5], v[6], 4) {
      TearsPastBoundary(w, v[5], v[6], 4);
    }
  }

  lemma Multiple16(m: nat)
    ensures 16 * m % 16 == 0
  {
  }

  lemma Multiple4(m: nat)
    ensures 4 * m % 4 == 0
  {
  }

  /** The halves of the k-th 16-byte unit. */
  lemma UnitAddress(k: nat) returns (lo: u32, hi: u32)
    requires 16 * k <= U64_MAX
    ensures lo % 16 == 0 && lo % 4 == 0 && Address(lo, hi) == 16 * k
  {
    var m := k % 0x1000_0000;
    lo, hi := 16 * m, k / 0x1000_0000;
    Multiple16(m);
    Multiple4(4 * m);
  }

  /** It can hold a descriptor table or a used ring if it is in the window. */
  lemma UnitInWindow(w: Window, k: nat) returns (lo: u32, hi: u32)
    requires w.start < 16 * k && 16 * k + 16 <= w.end
    ensures lo % 16 == 0 && lo % 4 == 0 && Placed(w, lo, hi, 16) && Placed(w, lo, hi, 4)
  {
    lo, hi := UnitAddress(k);
  }

  lemma PastBoundary(w: Window)
    requires Boundary(w) + 6 <= w.end
    ensures Page(w) < TWO32 && Placed(w, 2, Page(w), 4) && Tears(w, 2, Page(w), 4)
  {
    assert Address(0, Page(w)) == Boundary(w);
  }

  /** A queue with its driver area 2 bytes past the boundary. */
  lemma TearingQueue(w: Window) returns (v: Fields)
    requires w.start + 64 <= w.end && Boundary(w) + 6 <= w.end
    ensures Configured(w, v) && AnyTears(w, v)
  {
    var k := w.start / 16 + 1;
    var descLo, descHi := UnitInWindow(w, k);
    var usedLo, usedHi := UnitInWindow(w, k + 1);
    PastBoundary(w);
    v := [1, descLo, descHi, 2, Page(w), usedLo, usedHi];
  }

  /** For a memory window of at least 64 bytes: no configuration of a queue in it is ever read torn
      exactly when the window ends within 6 bytes of its first 4 GiB boundary or before it. */
  lemma WindowSafeIff(w: Window)
    requires w.start + 64 <= w.end
    ensures WindowSafe(w) <==> w.end < Boundary(w) + 6
  {
    if w.end < Boundary(w) + 6 {
      forall v: Fields | Configured(w, v) ensures NeverTorn(w, v) {
        SafeBelowBoundary(w, v);
        TornIff(w, v);
      }
    } else {
      var v := TearingQueue(w);
      TornIff(w, v);
    }
  }

  /** The memory of the four L2CPUs. */
  function L2CpuWindow(i: nat): Window {
    if i < 2 then Window(0x4000_3000_0000, 0x4001_3000_0000)
    else if i == 2 then Window(0x4000_3000_0000, 0x4000_b000_0000)
    else Window(0x4000_b000_0000, 0x4001_3000_0000)
  }

  lemma L2CpuBoundary(i: nat)
    ensures Boundary(L2CpuWindow(i)) == 0x4001_0000_0000
  {
  }

  /** Of the four L2CPUs only the third has a memory window without a 4 GiB boundary in it. */
  lemma OnlyThirdIsSafe(i: nat)
    requires i < 4
    ensures WindowSafe(L2CpuWindow(i)) <==> i == 2
  {
    L2CpuBoundary(i);
    WindowSafeIff(L2CpuWindow(i));
  }
}
