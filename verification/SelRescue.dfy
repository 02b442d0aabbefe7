/** What a guest gets that runs the sel-generation handshake and keeps its accesses out of the
    sweeps, with TRISC1 interleaved access by access: every queue it finished is captured, by
    READY or by rescue, once it holds the next echo. */
module SelRescue {
  import opened Words
  import opened QueueEngine
  import opened QueueSteps
  import opened SweepRefinement

  ghost predicate Written(done: set<nat>, fields: Fields, vals: Fields) {
    forall f :: 0 <= f < 7 && f in done ==> fields[f] == vals[f]
  }

  /** Every finished queue with a nonzero NUM, other than `except`, is in the shadow. */
  ghost predicate Stored(complete: set<u32>, hist: map<u32, Fields>, shadow: Shadow, except: u32) {
    forall q <- complete :: q in hist && q != except && q < 8 && hist[q][0] != 0 ==> shadow[q] == Queue(hist[q], 1)
  }

  /** No finished queue has anything but its own values marked ready. */
  ghost predicate Tidy(complete: set<u32>, hist: map<u32, Fields>, shadow: Shadow) {
    forall q <- complete :: q in hist && q < 8 ==> shadow[q].ready == 0 || shadow[q] == Queue(hist[q], 1)
  }

  ghost predicate RescuedOk(rescued: map<u32, Fields>, complete: set<u32>, hist: map<u32, Fields>, snapSel: u32) {
    forall q <- rescued :: q < snapSel && (q in complete ==> q in hist && rescued[q] == hist[q])
  }

  /** Registers and shadow. While `snapSel != sel` BRISC has not seen the guest's QUEUE_SEL
      write and the visible registers still belong to `snapSel`. */
  ghost predicate QueueInv(d: Dev, g: Guest, rescued: map<u32, Fields>, numQueues: nat) {
    && HistBelow(g.hist, d.sel)
    && d.snapSel <= d.sel
    && FreshAbove(d.shadow, d.snapSel)
    && (d.ready == 0 || d.ready == 1)
    && (g.active <==> d.sel in g.hist)
    && g.complete <= g.hist.Keys
    && (!g.active ==> d.sel == 0 && d.ready == 0 && g.hist == map[] && g.done == {})
    && (g.readied <==> d.sel in g.complete)
    && (g.readied ==> forall f :: 0 <= f < 7 ==> f in g.done)
    && RescuedOk(rescued, g.complete, g.hist, d.snapSel)
    && Tidy(g.complete, g.hist, d.shadow)
    && (d.snapSel < 8 ==>
          && Stored(g.complete, g.hist, d.shadow, d.snapSel)
          && (d.shadow[d.snapSel].ready == 0
              || (d.snapSel in g.complete && d.shadow[d.snapSel] == Queue(g.hist[d.snapSel], 1))))
    && (if d.snapSel == d.sel then
          && (d.sel < 8 ==>
                && (d.ready != 0 ==> g.readied)
                && (0 in g.done || d.fields[0] == 0)
                && (0 < numQueues ==> d.numMax == if d.sel < numQueues then QUEUE_NUM_MAX else 0))
          && (g.active ==> Written(g.done, d.fields, g.hist[d.sel]))
        else
          && g.done == {}
          && (d.snapSel in g.complete ==> d.snapSel in g.hist && d.fields == g.hist[d.snapSel]))
  }

  /** The handshake: an unanswered bump differs from BRISC's last echo, and the guest is
      past the handshake only if BRISC has swept since the QUEUE_SEL write. */
  ghost predicate GenInv(d: Dev, g: Guest) {
    && !(g.mustBump && g.waiting)
    && (g.waiting && d.gen == g.wrote ==> d.gen != d.snapGen)
    && (!(g.waiting && d.gen == g.wrote) ==> d.gen == d.snapGen)
    && (g.waiting && d.gen != g.wrote ==> d.snapSel == d.sel)
    && (!g.waiting && !g.mustBump ==> d.snapSel == d.sel)
    && (g.mustBump || g.waiting ==> g.active && g.done == {})
  }

  /** At the top of a sweep. */
  ghost predicate TopInv(p: Policy, s: Sys) {
    s.pc.RdSel? && QueueInv(s.d, s.g, s.rescued, p.numQueues) && GenInv(s.d, s.g)
  }

  predicate BeforeReady(pc: Pc) {
    InSel(pc) || pc.RdReady?
  }

  /** BRISC has only loaded QUEUE_SEL: the registers are as at the top of the sweep. */
  ghost predicate AtTop(p: Policy, s: Sys) {
    s == BriscMicro(p, s.(pc := RdSel)) && TopInv(p, s.(pc := RdSel))
  }

  /** Inside a sweep: were BRISC left alone it would end well, and until it loads QUEUE_READY
      that register is 0 or everything is as at the top, so a clear by TRISC1 does no harm. */
  ghost predicate MidInv(p: Policy, s: Sys) {
    && TopInv(p, Finish(p, s))
    && (BeforeReady(s.pc) ==> s.d.ready == 0 || AtTop(p, s))
  }

  /** What the echo gives, at every program point. */
  ghost predicate EchoInv(p: Policy, s: Sys) {
    HasEcho(s.g) && s.d.sel < 8 ==>
      && s.d.snapSel == s.d.sel && !InSel(s.pc) && HistBelow(s.g.hist, s.d.sel)
      && (InCapture(s.pc) && !s.pc.ClearReady? ==> s.pc.l == s.d.sel)
      && (!s.g.readied ==> s.d.ready == 0)
      && (0 !in s.g.done ==> s.d.fields[0] == 0)
      && (0 < p.numQueues ==> s.d.numMax == if s.d.sel < p.numQueues then QUEUE_NUM_MAX else 0)
      && Stored(s.g.complete, s.g.hist, s.d.shadow, s.d.sel)
  }

  /** Every rescue of a finished queue stored that queue's own seven values. */
  ghost predicate RescuesOk(s: Sys) {
    forall q <- s.rescued :: q in s.g.complete ==> q in s.g.hist && s.rescued[q] == s.g.hist[q]
  }

  /** Rescues so far stored the right values, and the one in progress will. */
  ghost predicate RescueInv(s: Sys) {
    var q := s.d.snapSel;
    && RescuesOk(s)
    && (s.pc.SelClear? || s.pc.SelShadow? || s.pc.RescueRead? ==>
          q in s.g.complete ==> q in s.g.hist && s.d.fields == s.g.hist[q])
    && (s.pc.RescueRead? ==> s.pc.caps == s.d.fields[..|s.pc.caps|])
    && (s.pc.RescueStore? ==> q in s.g.complete ==> q in s.g.hist && s.pc.all == s.g.hist[q])
  }

  ghost predicate Inv(p: Policy, s: Sys) {
    (if s.pc.RdSel? then TopInv(p, s) else MidInv(p, s)) && EchoInv(p, s) && RescueInv(s)
  }

  // ---- a sweep as one step ----

  lemma OnSelKeeps(s: Sys, n: nat)
    requires QueueInv(s.d, s.g, s.rescued, n) && s.d.sel != s.d.snapSel
    ensures QueueInv(OnSel(s.d, n), s.g, RescuedAfter(s), n)
  {
  }

  lemma OnReadyKeeps(d: Dev, g: Guest, rescued: map<u32, Fields>, n: nat)
    requires QueueInv(d, g, rescued, n) && d.sel == d.snapSel
    ensures QueueInv(OnReady(d), g, rescued, n)
  {
    if d.ready != 0 && d.sel < 8 {
      assert d.fields == g.hist[d.sel];
    }
  }

  lemma TailKeeps(d: Dev, g: Guest, rescued: map<u32, Fields>, n: nat)
    requires QueueInv(d, g, rescued, n)
    ensures QueueInv(OnGen(OnNotify(d)), g, rescued, n)
  {
  }

  lemma SweepKeeps(p: Policy, s: Sys)
    requires TopInv(p, s)
    ensures TopInv(p, Finish(p, BriscMicro(p, s)))
  {
    var n := p.numQueues;
    UninterruptedIsSweep(p, s);
    var d1 := OnSel(s.d, n);
    if s.d.sel != s.d.snapSel {
      OnSelKeeps(s, n);
    }
    OnReadyKeeps(d1, s.g, RescuedAfter(s), n);
    TailKeeps(OnReady(d1), s.g, RescuedAfter(s), n);
  }

  // ---- BRISC, one access at a time ----

  /** Skipping the SEL handler of a queue out of range leaves a state as at the top. */
  lemma SkipKeepsTop(p: Policy, s: Sys)
    requires s.pc.SelSnap? && AtTop(p, s)
    ensures AtTop(p, BriscMicro(p, s))
  {
    var t := s.(pc := RdSel);
    OnSelKeeps(t, p.numQueues);
    assert BriscMicro(p, s).(pc := RdSel).d == OnSel(t.d, p.numQueues);
  }

  lemma BriscKeepsReady(p: Policy, s: Sys)
    requires BeforeReady(s.pc) && (s.d.ready == 0 || AtTop(p, s))
    ensures var r := BriscMicro(p, s);
      BeforeReady(r.pc) ==> r.d.ready == 0 || AtTop(p, r)
  {
    if s.pc.SelSnap? && s.d.ready != 0 {
      SkipKeepsTop(p, s);
    }
  }

  lemma BriscKeepsMid(p: Policy, s: Sys)
    requires if s.pc.RdSel? then TopInv(p, s) else MidInv(p, s)
    ensures var r := BriscMicro(p, s); if r.pc.RdSel? then TopInv(p, r) else MidInv(p, r)
  {
    var r := BriscMicro(p, s);
    if s.pc.RdSel? {
      SweepKeeps(p, s);
      assert r.(pc := RdSel) == s;
    } else {
      Unfold(p, s, r);
      if BeforeReady(s.pc) {
        BriscKeepsReady(p, s);
      } else {
        NeverBack(p, s);
      }
    }
  }

  lemma NeverBack(p: Policy, s: Sys)
    requires !s.pc.RdSel? && !BeforeReady(s.pc)
    ensures !BeforeReady(BriscMicro(p, s).pc)
  {
  }

  lemma BriscKeepsEcho(p: Policy, s: Sys)
    requires EchoInv(p, s)
    ensures EchoInv(p, BriscMicro(p, s))
  {
    if InSel(s.pc) {
      SelKeepsEcho(p, s);
    } else if InCapture(s.pc) {
      CaptureKeepsEcho(p, s);
    } else if !s.pc.RdSel? {
      TailKeepsEcho(p, s);
    }
  }

  lemma SelKeepsEcho(p: Policy, s: Sys)
    requires EchoInv(p, s) && InSel(s.pc)
    ensures EchoInv(p, SelMicro(p, s))
  {
  }

  lemma TailKeepsEcho(p: Policy, s: Sys)
    requires EchoInv(p, s) && !s.pc.RdSel? && !InSel(s.pc) && !InCapture(s.pc)
    ensures EchoInv(p, TailMicro(s))
  {
    TailFrame(s);
  }

  lemma TailFrame(s: Sys)
    requires !s.pc.RdSel? && !InSel(s.pc) && !InCapture(s.pc)
    ensures var d, r := s.d, TailMicro(s);
      && r.d == d.(notify := r.d.notify, dirty := r.d.dirty, gen := r.d.gen, snapGen := r.d.snapGen)
      && r.g == s.g && !InSel(r.pc) && !InCapture(r.pc)
  {
  }

  lemma BriscKeepsRescue(p: Policy, s: Sys)
    requires RescueInv(s) && (s.pc.RdSel? ==> TopInv(p, s))
    ensures RescueInv(BriscMicro(p, s))
  {
    if InSel(s.pc) {
      SelKeepsRescue(p, s);
    }
  }

  lemma SelKeepsRescue(p: Policy, s: Sys)
    requires RescueInv(s) && InSel(s.pc)
    ensures RescueInv(SelMicro(p, s))
  {
  }

  lemma CaptureKeepsEcho(p: Policy, s: Sys)
    requires EchoInv(p, s) && InCapture(s.pc)
    ensures EchoInv(p, CaptureMicro(s))
  {
  }

  // ---- TRISC1 inside a sweep ----

  function Wiped(s: Sys, t: Trisc1, last: u32): Sys {
    s.(d := s.d.(ready := 0), t := t, lastQsel := last)
  }

  lemma WipeKeepsTop(p: Policy, s: Sys, t: Trisc1, last: u32)
    requires TopInv(p, s)
    ensures TopInv(p, Wiped(s, t, last)) && TopInv(p, s.(t := t, lastQsel := last))
  {
  }

  /** TRISC1's own state means nothing to BRISC. */
  lemma {:induction false} FinishIgnoresTrisc1(p: Policy, s: Sys, t: Trisc1, last: u32)
    ensures Finish(p, s.(t := t, lastQsel := last)) == Finish(p, s).(t := t, lastQsel := last)
    decreases Rank(s.pc)
  {
    if s.pc.RdSel? {
    } else {
      MicroDescends(p, s);
      FinishIgnoresTrisc1(p, BriscMicro(p, s), t, last);
      MicroIgnoresTrisc1(p, s, t, last);
    }
  }

  lemma MicroIgnoresTrisc1(p: Policy, s: Sys, t: Trisc1, last: u32)
    ensures BriscMicro(p, s.(t := t, lastQsel := last)) == BriscMicro(p, s).(t := t, lastQsel := last)
  {
    if InSel(s.pc) {
      SelIgnoresTrisc1(p, s, t, last);
    } else if InCapture(s.pc) {
      CaptureIgnoresTrisc1(s, t, last);
    }
  }

  lemma SelIgnoresTrisc1(p: Policy, s: Sys, t: Trisc1, last: u32)
    requires InSel(s.pc)
    ensures SelMicro(p, s.(t := t, lastQsel := last)) == SelMicro(p, s).(t := t, lastQsel := last)
  {
  }

  lemma CaptureIgnoresTrisc1(s: Sys, t: Trisc1, last: u32)
    requires InCapture(s.pc)
    ensures CaptureMicro(s.(t := t, lastQsel := last)) == CaptureMicro(s).(t := t, lastQsel := last)
  {
  }

  /** Once QUEUE_READY has been loaded, clearing it changes at most its final value. */
  lemma {:induction false} FinishIgnoresReady(p: Policy, s: Sys)
    requires !s.pc.RdSel? && !BeforeReady(s.pc)
    ensures var r := Finish(p, s.(d := s.d.(ready := 0)));
      r == Finish(p, s).(d := Finish(p, s).d.(ready := 0))
    decreases Rank(s.pc)
  {
    var n := BriscMicro(p, s);
    var w := s.(d := s.d.(ready := 0));
    MicroDescends(p, s);
    MicroIgnoresReady(p, s);
    Unfold(p, s, n);
    Unfold(p, w, BriscMicro(p, w));
    NeverBack(p, s);
    if n.pc.RdSel? {
    } else {
      FinishIgnoresReady(p, n);
      FinishIgnoresReady(p, BriscMicro(p, w));
    }
  }

  lemma MicroIgnoresReady(p: Policy, s: Sys)
    requires !s.pc.RdSel? && !BeforeReady(s.pc)
    ensures var r := BriscMicro(p, s.(d := s.d.(ready := 0)));
      r.(d := r.d.(ready := 0)) == BriscMicro(p, s).(d := BriscMicro(p, s).d.(ready := 0)) && r.d.ready == 0
  {
    if InCapture(s.pc) {
      CaptureIgnoresReady(s);
    }
  }

  lemma CaptureIgnoresReady(s: Sys)
    requires InCapture(s.pc) && !s.pc.RdReady?
    ensures CaptureMicro(s.(d := s.d.(ready := 0))) == CaptureMicro(s).(d := CaptureMicro(s).d.(ready := 0))
  {
  }

  lemma WipeKeepsMid(p: Policy, s: Sys, t: Trisc1, last: u32)
    requires !s.pc.RdSel? && MidInv(p, s)
    ensures MidInv(p, Wiped(s, t, last))
  {
    var w := s.(d := s.d.(ready := 0));
    FinishIgnoresTrisc1(p, w, t, last);
    if !BeforeReady(s.pc) {
      FinishIgnoresReady(p, s);
    } else if s.d.ready == 0 {
      assert w == s;
    } else {
      var top := s.(pc := RdSel);
      WipeKeepsTop(p, top, s.t, s.lastQsel);
      SweepKeeps(p, Wiped(top, s.t, s.lastQsel));
      assert BriscMicro(p, Wiped(top, s.t, s.lastQsel)) == w;
    }
    WipeKeepsTop(p, Finish(p, w), t, last);
  }

  lemma WatchKeepsMid(p: Policy, s: Sys, t: Trisc1)
    requires !s.pc.RdSel? && MidInv(p, s)
    ensures MidInv(p, s.(t := t))
  {
    FinishIgnoresTrisc1(p, s, t, s.lastQsel);
    WipeKeepsTop(p, Finish(p, s), t, s.lastQsel);
    if BeforeReady(s.pc) && s.d.ready != 0 {
      WipeKeepsTop(p, s.(pc := RdSel), t, s.lastQsel);
      MicroIgnoresTrisc1(p, s.(pc := RdSel), t, s.lastQsel);
    }
  }

  lemma Trisc1Keeps(p: Policy, s: Sys)
    requires Inv(p, s)
    ensures Inv(p, Trisc1Micro(s))
  {
    match s.t
    case Watch =>
      if !s.pc.RdSel? {
        WatchKeepsMid(p, s, Clear(s.d.sel));
      }
    case Clear(q) =>
      if !s.pc.RdSel? {
        WipeKeepsMid(p, s, Watch, q);
      }
  }

  // ---- the guest, between sweeps ----

  lemma SelectKeeps(p: Policy, s: Sys, a: Action)
    requires p.echo && TopInv(p, s) && a.Select?
    ensures TopInv(p, GuestStep(p, s, a))
  {
    if s.g.readied && s.d.snapSel == s.d.sel {
      assert s.d.fields == s.g.hist[s.d.sel];
    }
  }

  lemma GuestKeeps(p: Policy, s: Sys, a: Action)
    requires p.echo && TopInv(p, s) && !a.Select?
    ensures TopInv(p, GuestStep(p, s, a))
  {
  }

  lemma TopGivesEcho(p: Policy, s: Sys)
    requires TopInv(p, s)
    ensures EchoInv(p, s) && RescueInv(s)
  {
  }

  lemma StepKeeps(p: Policy, s: Sys, a: Action)
    requires p.echo && p.apart && Inv(p, s)
    ensures Inv(p, Step(p, s, a))
  {
    match a
    case Brisc =>
      BriscKeepsMid(p, s);
      BriscKeepsEcho(p, s);
      BriscKeepsRescue(p, s);
    case Trisc1Step => Trisc1Keeps(p, s);
    case _ =>
      if s.pc.RdSel? {
        if a.Select? {
          SelectKeeps(p, s, a);
        } else {
          GuestKeeps(p, s, a);
        }
        TopGivesEcho(p, GuestStep(p, s, a));
      }
  }

  lemma {:induction false} RunInv(p: Policy, acts: seq<Action>)
    requires p.echo && p.apart
    ensures Inv(p, Run(p, acts))
  {
    if acts == [] {
    } else {
      RunInv(p, acts[..|acts| - 1]);
      StepKeeps(p, Run(p, acts[..|acts| - 1]), acts[|acts| - 1]);
    }
  }

  lemma EchoRun(p: Policy, acts: seq<Action>)
    requires p.echo && p.apart
    ensures EchoInv(p, Run(p, acts))
  {
    RunInv(p, acts);
  }

  lemma RescueRun(p: Policy, acts: seq<Action>)
    requires p.echo && p.apart
    ensures RescueInv(Run(p, acts))
  {
    RunInv(p, acts);
  }

  /** The echo means the QUEUE_SEL write was handled: QUEUE_READY reads 0 until the guest sets
      it, QUEUE_NUM_MAX tells whether the queue exists and QUEUE_NUM starts at 0. */
  lemma EchoMeansHandled(p: Policy, acts: seq<Action>)
    requires p.echo && p.apart && 0 < p.numQueues
    ensures var s := Run(p, acts);
      HasEcho(s.g) && s.d.sel < 8 ==>
        && s.d.snapSel == s.d.sel
        && (!s.g.readied ==> s.d.ready == 0)
        && s.d.numMax == (if s.d.sel < p.numQueues then QUEUE_NUM_MAX else 0)
        && (0 !in s.g.done ==> s.d.fields[0] == 0)
  {
    EchoRun(p, acts);
  }

  /** Rescue completeness: with the echo for the present queue in hand, the shadow holds all
      seven values and READY = 1 of every queue finished before, although TRISC1 may have
      wiped the visible QUEUE_READY of any of them at any moment. */
  lemma EarlierQueuesAreStored(p: Policy, acts: seq<Action>, q: u32)
    requires p.echo && p.apart
    ensures var s := Run(p, acts);
      HasEcho(s.g) && s.d.sel < 8 && q in s.g.complete && q != s.d.sel && q in s.g.hist && s.g.hist[q][0] != 0 ==>
        q < 8 && s.d.shadow[q] == Queue(s.g.hist[q], 1)
  {
    EchoRun(p, acts);
  }
}
