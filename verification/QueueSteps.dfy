/** The same firmware one load or store at a time, interleaved with TRISC1's watch loop
    and with a guest that sets its queues up in increasing QUEUE_SEL order. */
module QueueSteps {
  import opened Words
  import opened QueueEngine

  type Caps = c: seq<u32> | |c| <= 7 witness []

  /** Where BRISC stands inside `poll_one_device`; `l` is its local copy of QUEUE_SEL. */
  datatype Pc =
    | RdSel
    // handle_queue_sel_change; the old selector is snapSel throughout
    | SelClear(l: u32)
    | SelShadow(l: u32)
    | RescueRead(l: u32, caps: Caps)
    | RescueStore(l: u32, all: Fields, k: nat)
    | SelNumMax(l: u32)
    | SelNum(l: u32, num: u32)
    | SelSnap(l: u32)
    // handle_queue_ready_change
    | RdReady(l: u32)
    | CaptureRead(l: u32, r: u32, caps: Caps)
    | CaptureStore(l: u32, r: u32, all: Fields, k: nat)
    | CaptureReady(l: u32, r: u32, passed: bool)
    | ClearReady
    | RdNotify
    | SetDirty(q: u32)
    | ClearNotify
    | RdGen
    | StoreGen(next: u32)
    | SnapGen(next: u32)

  /** TRISC1 either watches QUEUE_SEL or is about to clear QUEUE_READY. */
  datatype Trisc1 = Watch | Clear(qsel: u32)

  /** The guest's program counter and what it has written so far. `hist` maps every queue
      it selected to the seven values it means to write, `complete` holds the queues it
      has finished with QUEUE_READY = 1. */
  datatype Guest = Guest(
    active: bool, done: set<nat>, readied: bool,
    mustBump: bool, waiting: bool, wrote: u32,
    hist: map<u32, Fields>, complete: set<u32>)

  /** `captured`, `aborted` and `rescued` record what BRISC did to each queue's shadow. */
  datatype Sys = Sys(
    d: Dev, pc: Pc, t: Trisc1, lastQsel: u32, g: Guest,
    captured: set<u32>, aborted: map<u32, Fields>, rescued: map<u32, Fields>)

  /** What the guest's accesses respect. BRISC and TRISC1 are never held back.
      `echo`: it runs the sel-generation handshake after each QUEUE_SEL write.
      `apart`: none falls inside a `poll_one_device` call.
      `prompt`: it writes QUEUE_READY only after TRISC1 has dealt with its QUEUE_SEL.
      `inRange`: it selects no queue at or above 8. */
  datatype Policy = Policy(echo: bool, apart: bool, prompt: bool, inRange: bool, numQueues: nat)

  datatype Action =
    | Select(q: u32, vals: Fields) | Bump | PollGen | WriteField(f: nat) | WriteReady
    | Notify(q: u32) | Brisc | Trisc1Step

  function Init(): Sys {
    Sys(Reset(), RdSel, Watch, 0,
        Guest(false, {}, false, false, false, 0, map[], {}), {}, map[], map[])
  }

  predicate InSel(pc: Pc) {
    pc.SelClear? || pc.SelShadow? || pc.RescueRead? || pc.RescueStore? || pc.SelNumMax? || pc.SelNum? || pc.SelSnap?
  }

  predicate InCapture(pc: Pc) {
    pc.RdReady? || pc.CaptureRead? || pc.CaptureStore? || pc.CaptureReady? || pc.ClearReady?
  }

  /** Upper bound on the steps left in the current `poll_one_device`. */
  function Rank(pc: Pc): nat {
    match pc
    case RdSel => 0
    case SnapGen(_) => 1
    case StoreGen(_) => 2
    case RdGen => 3
    case ClearNotify => 4
    case SetDirty(_) => 5
    case RdNotify => 6
    case ClearReady => 7
    case CaptureReady(_, _, _) => 8
    case CaptureStore(_, _, _, k) => 9 + (if k < 7 then 7 - k else 0)
    case CaptureRead(_, _, caps) => 17 + (7 - |caps|)
    case RdReady(_) => 25
    case SelSnap(_) => 26
    case SelNum(_, _) => 27
    case SelNumMax(_) => 28
    case RescueStore(_, _, k) => 29 + (if k < 7 then 7 - k else 0)
    case RescueRead(_, caps) => 37 + (7 - |caps|)
    case SelShadow(_) => 45
    case SelClear(_) => 46
  }

  /** One load or store inside `handle_queue_sel_change`, up to the snapshot of QUEUE_SEL. */
  function SelMicro(p: Policy, s: Sys): Sys
    requires InSel(s.pc)
  {
    var d := s.d;
    match s.pc
    case SelClear(l) =>
      s.(d := d.(ready := 0), pc := SelShadow(l))
    case SelShadow(l) =>
      s.(pc := if d.snapSel < 8 && d.shadow[d.snapSel].ready == 0 then RescueRead(l, []) else SelNumMax(l))
    case RescueRead(l, caps) =>
      if |caps| < 7 then s.(pc := RescueRead(l, caps + [d.fields[|caps|]]))
      else if d.sel == l && caps[0] != 0 then s.(pc := RescueStore(l, caps, 0))
      else s.(pc := SelNumMax(l))
    case RescueStore(l, all, k) =>
      if k < 7 then
        s.(d := d.(shadow := SetField(d.shadow, d.snapSel, k, all[k])), pc := RescueStore(l, all, k + 1))
      else
        s.(d := d.(shadow := SetReady(d.shadow, d.snapSel, 1)), pc := SelNumMax(l),
           rescued := s.rescued[d.snapSel := all])
    case SelNumMax(l) =>
      s.(d := d.(numMax := if l < p.numQueues then QUEUE_NUM_MAX else 0),
         pc := SelNum(l, if l < 8 then d.shadow[l].fields[0] else 0))
    case SelNum(l, num) =>
      s.(d := d.(fields := d.fields[0 := num]), pc := SelSnap(l))
    case SelSnap(l) =>
      s.(d := d.(snapSel := l), pc := RdReady(l))
  }

  /** One load or store of the QUEUE_READY part. */
  function CaptureMicro(s: Sys): Sys
    requires InCapture(s.pc)
  {
    var d := s.d;
    match s.pc
    case RdReady(l) =>
      s.(pc := if d.ready == 0 then RdNotify
               else if l < 8 then CaptureRead(l, d.ready, []) else ClearReady)
    case CaptureRead(l, r, caps) =>
      if |caps| < 7 then s.(pc := CaptureRead(l, r, caps + [d.fields[|caps|]]))
      else if d.sel == l then s.(pc := CaptureStore(l, r, caps, 0))
      else s.(pc := CaptureReady(l, r, false),
              aborted := if l < 8 then s.aborted[l := d.shadow[l].fields] else s.aborted)
    case CaptureStore(l, r, all, k) =>
      if k < 7 then
        s.(d := d.(shadow := SetField(d.shadow, l, k, all[k])), pc := CaptureStore(l, r, all, k + 1))
      else
        s.(pc := CaptureReady(l, r, true))
    case CaptureReady(l, r, passed) =>
      s.(d := d.(shadow := SetReady(d.shadow, l, r)), pc := ClearReady,
         captured := if passed then s.captured + {l} else s.captured)
    case ClearReady =>
      s.(d := d.(ready := 0), pc := RdNotify)
  }

  /** One load or store of the QUEUE_NOTIFY and sel-generation parts. */
  function TailMicro(s: Sys): Sys
    requires !s.pc.RdSel? && !InSel(s.pc) && !InCapture(s.pc)
  {
    var d := s.d;
    match s.pc
    case RdNotify =>
      s.(pc := if d.notify == NO_NOTIFY then RdGen else SetDirty(d.notify))
    case SetDirty(q) =>
      s.(d := d.(dirty := if q < 8 then d.dirty + {q} else d.dirty), pc := ClearNotify)
    case ClearNotify =>
      s.(d := d.(notify := NO_NOTIFY), pc := RdGen)
    case RdGen =>
      s.(pc := if d.gen == d.snapGen then RdSel else StoreGen(WrapAdd(d.gen, 1)))
    case StoreGen(next) =>
      s.(d := d.(gen := next), pc := SnapGen(next))
    case SnapGen(next) =>
      s.(d := d.(snapGen := next), pc := RdSel)
  }

  /** One load or store of BRISC, with the register-to-register work that follows it. */
  function BriscMicro(p: Policy, s: Sys): Sys {
    if s.pc.RdSel? then
      s.(pc := if s.d.sel == s.d.snapSel then RdReady(s.d.sel)
               else if s.d.sel < 8 then SelClear(s.d.sel) else SelSnap(s.d.sel))
    else if InSel(s.pc) then SelMicro(p, s)
    else if InCapture(s.pc) then CaptureMicro(s)
    else TailMicro(s)
  }

  lemma SelDescends(p: Policy, s: Sys)
    requires InSel(s.pc)
    ensures Rank(SelMicro(p, s).pc) < Rank(s.pc)
  {
  }

  lemma CaptureDescends(s: Sys)
    requires InCapture(s.pc)
    ensures Rank(CaptureMicro(s).pc) < Rank(s.pc)
  {
  }

  lemma TailDescends(s: Sys)
    requires !s.pc.RdSel? && !InSel(s.pc) && !InCapture(s.pc)
    ensures Rank(TailMicro(s).pc) < Rank(s.pc)
  {
  }

  lemma MicroDescends(p: Policy, s: Sys)
    requires !s.pc.RdSel?
    ensures Rank(BriscMicro(p, s).pc) < Rank(s.pc)
  {
    if InSel(s.pc) {
      SelDescends(p, s);
    } else if InCapture(s.pc) {
      CaptureDescends(s);
    } else {
      TailDescends(s);
    }
  }

  /** BRISC runs on alone to the end of the current `poll_one_device`. */
  function Finish(p: Policy, s: Sys): Sys
    decreases Rank(s.pc)
  {
    if s.pc.RdSel? then s else MicroDescends(p, s); Finish(p, BriscMicro(p, s))
  }

  /** TRISC1 has seen the present QUEUE_SEL and is not about to clear QUEUE_READY. */
  predicate CaughtUp(s: Sys) {
    s.t.Watch? && s.lastQsel == s.d.sel
  }

  function Trisc1Micro(s: Sys): Sys {
    match s.t
    case Watch => if s.d.sel == s.lastQsel then s else s.(t := Clear(s.d.sel))
    case Clear(q) => s.(d := s.d.(ready := 0), t := Watch, lastQsel := q)
  }

  /** The queue set-up program of section 4.2.3.2 of virtio 1.2, fields in any order. */
  function GuestStep(p: Policy, s: Sys, a: Action): Sys {
    var d, g := s.d, s.g;
    var held := g.mustBump || g.waiting;
    match a
    case Select(q, vals) =>
      if held || (g.active && q <= d.sel) || (p.inRange && q >= 8) then s
      else s.(d := d.(sel := q),
              g := g.(active := true, done := {}, readied := false, mustBump := p.echo,
                      hist := g.hist[q := vals]))
    case Bump =>
      if !g.mustBump then s
      else var n := WrapAdd(d.gen, 1);
           s.(d := d.(gen := n), g := g.(mustBump := false, waiting := true, wrote := n))
    case PollGen =>
      if !g.waiting || d.gen == g.wrote then s else s.(g := g.(waiting := false))
    case WriteField(f) =>
      if held || !g.active || g.readied || f >= 7 || d.sel !in g.hist then s
      else s.(d := d.(fields := d.fields[f := g.hist[d.sel][f]]), g := g.(done := g.done + {f}))
    case WriteReady =>
      if held || !g.active || g.readied || !AllDone(g.done) || (p.prompt && !CaughtUp(s)) then s
      else s.(d := d.(ready := 1), g := g.(readied := true, complete := g.complete + {d.sel}))
    case Notify(q) =>
      s.(d := d.(notify := q))
    case Brisc => s
    case Trisc1Step => s
  }

  function Step(p: Policy, s: Sys, a: Action): Sys {
    match a
    case Brisc => BriscMicro(p, s)
    case Trisc1Step => Trisc1Micro(s)
    case _ => if p.apart && !s.pc.RdSel? then s else GuestStep(p, s, a)
  }

  /** The state after a list of actions; an action that is not enabled changes nothing. */
  function Run(p: Policy, acts: seq<Action>): Sys {
    if acts == [] then Init()
    else Step(p, Run(p, acts[..|acts| - 1]), acts[|acts| - 1])
  }

  lemma Do(p: Policy, acts: seq<Action>, a: Action)
    ensures Run(p, acts + [a]) == Step(p, Run(p, acts), a)
  {
    assert (acts + [a])[..|acts + [a]| - 1] == acts;
  }

  /** BRISC ends a sweep with the k-th action of `more`. */
  predicate EndsAt(p: Policy, acts: seq<Action>, more: seq<Action>, k: nat)
    requires k < |more|
  {
    more[k].Brisc? && Run(p, acts + more[..k + 1]).pc.RdSel?
  }

  // ---- facts the results below share, each over just the parts of the state it reads ----

  predicate AllDone(done: set<nat>) {
    forall f :: 0 <= f < 7 ==> f in done
  }

  /** The first `k` stores of `all` have landed in `f`. */
  predicate Landed(f: Fields, all: Fields, k: nat)
    requires k <= 7
  {
    forall i :: 0 <= i < k ==> f[i] == all[i]
  }

  ghost predicate HistBelow(hist: map<u32, Fields>, sel: u32) {
    forall q <- hist :: q <= sel
  }

  ghost predicate FreshAbove(shadow: Shadow, snapSel: u32) {
    forall q :: snapSel < q < 8 ==> shadow[q] == NO_QUEUE
  }

  /** The guest has selected a queue and holds the echo for it. */
  predicate HasEcho(g: Guest) {
    g.active && !g.mustBump && !g.waiting
  }
}
