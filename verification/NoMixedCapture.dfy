/** No interleaving of guest, BRISC and TRISC1 makes a READY capture mix two queues. */
module NoMixedCapture {
  import opened Words
  import opened QueueEngine
  import opened QueueSteps

  /** `f` carries the six address halves the guest wrote; NUM is the guest's or still 0. */
  ghost predicate Faithful(f: Fields, vals: Fields) {
    (forall i :: 1 <= i < 7 ==> f[i] == vals[i]) && (f[0] == vals[0] || f[0] == 0)
  }

  // Quantified facts, each over just the parts of the state it reads.

  ghost predicate HalvesWritten(done: set<nat>, fields: Fields, vals: Fields) {
    forall f :: 1 <= f < 7 && f in done ==> fields[f] == vals[f]
  }

  ghost predicate CapturedOk(captured: set<u32>, hist: map<u32, Fields>, shadow: Shadow, snapSel: u32) {
    forall q <- captured ::
      q <= snapSel && q < 8 && q in hist && shadow[q].ready != 0 && Faithful(shadow[q].fields, hist[q])
  }

  ghost predicate AbortedKept(aborted: map<u32, Fields>, shadow: Shadow) {
    forall q <- aborted :: q < 8 && shadow[q].fields == aborted[q]
  }

  ghost predicate AbortedBelow(aborted: map<u32, Fields>, bound: u32) {
    forall q <- aborted :: q < bound
  }

  /** Every aborted queue is marked ready in the shadow, except the one whose READY
      store is still to come. */
  ghost predicate AbortedReady(aborted: map<u32, Fields>, shadow: Shadow, pending: int) {
    forall q <- aborted :: q == pending || (q < 8 && shadow[q].ready != 0)
  }

  ghost predicate GuestInv(s: Sys) {
    var d, g := s.d, s.g;
    && HistBelow(g.hist, d.sel)
    && (g.readied ==> AllDone(g.done))
    && if g.active then d.sel in g.hist && HalvesWritten(g.done, d.fields, g.hist[d.sel])
       else d.sel == 0 && d.ready == 0 && g.done == {} && g.hist == map[]
  }

  /** BRISC has cleared QUEUE_READY since QUEUE_SEL took its present value. */
  ghost predicate Cleared(s: Sys) {
    s.d.snapSel == s.d.sel || (InSel(s.pc) && !s.pc.SelClear? && s.pc.l == s.d.sel)
  }

  ghost predicate SettledInv(s: Sys) {
    var d, g := s.d, s.g;
    d.sel < 8 ==>
      && (Cleared(s) && d.ready != 0 ==> g.readied)
      && (d.snapSel == d.sel || (s.pc.SelSnap? && s.pc.l == d.sel) ==>
            d.fields[0] == 0 || (0 in g.done && d.sel in g.hist && d.fields[0] == g.hist[d.sel][0]))
  }

  ghost predicate PcInv(s: Sys) {
    var d := s.d;
    && d.snapSel <= d.sel
    && FreshAbove(d.shadow, d.snapSel)
    && (InSel(s.pc) ==> d.snapSel < s.pc.l <= d.sel && (s.pc.l < 8 || s.pc.SelSnap?))
    && (s.pc.RescueRead? || s.pc.RescueStore? ==> d.snapSel < 8 && d.shadow[d.snapSel].ready == 0)
    && (s.pc.SelNum? ==> s.pc.num == 0)
    && (InCapture(s.pc) && !s.pc.ClearReady? ==> s.pc.l == d.snapSel)
    && (s.pc.CaptureRead? || s.pc.CaptureStore? || s.pc.CaptureReady? ==> s.pc.l < 8 && s.pc.r != 0 && s.g.active)
  }

  ghost predicate CaptureInv(s: Sys) {
    var d, g := s.d, s.g;
    match s.pc
    case CaptureRead(l, r, caps) =>
      d.sel == l ==> g.readied && caps == d.fields[..|caps|]
    case CaptureStore(l, r, all, k) =>
      k <= 7 && l in g.hist && l < 8 && Faithful(all, g.hist[l]) && Landed(d.shadow[l].fields, all, k)
    case CaptureReady(l, r, passed) =>
      if passed then l in g.hist && l < 8 && Faithful(d.shadow[l].fields, g.hist[l]) else l in s.aborted
    case _ => true
  }

  ghost predicate HistoryInv(s: Sys) {
    var d := s.d;
    && CapturedOk(s.captured, s.g.hist, d.shadow, d.snapSel)
    && AbortedKept(s.aborted, d.shadow)
    && AbortedBelow(s.aborted, d.sel)
    && AbortedReady(s.aborted, d.shadow, if s.pc.CaptureReady? && !s.pc.passed then s.pc.l else -1)
    && (s.pc.RdReady? || s.pc.CaptureRead? || s.pc.CaptureStore? || (s.pc.CaptureReady? && s.pc.passed)
        ==> AbortedBelow(s.aborted, s.pc.l))
  }

  ghost predicate Storing(pc: Pc) {
    || pc.RescueStore? || pc.SelNumMax? || pc.SelNum? || pc.SelSnap?
    || pc.CaptureStore? || pc.CaptureReady?
  }

  /** The queue BRISC last settled on has an untouched shadow until BRISC captures it. */
  ghost predicate UntouchedInv(s: Sys) {
    var q := s.d.snapSel;
    && (q < 8 && q !in s.captured && q !in s.aborted && !Storing(s.pc) ==> s.d.shadow[q] == NO_QUEUE)
    && (forall a <- s.aborted :: a in s.captured || s.aborted[a] == NO_FIELDS)
  }

  ghost predicate RegsInv(s: Sys) {
    GuestInv(s) && SettledInv(s) && PcInv(s)
  }

  ghost predicate ShadowInv(s: Sys) {
    CaptureInv(s) && HistoryInv(s) && UntouchedInv(s)
  }

  ghost predicate Inv(s: Sys) {
    RegsInv(s) && ShadowInv(s)
  }

  lemma SelReadKeepsRegs(p: Policy, s: Sys)
    requires Inv(s) && (s.pc.SelShadow? || s.pc.RescueRead?)
    ensures RegsInv(SelMicro(p, s))
  {
  }

  lemma SelReadKeepsShadow(p: Policy, s: Sys)
    requires Inv(s) && (s.pc.SelShadow? || s.pc.RescueRead?)
    ensures ShadowInv(SelMicro(p, s))
  {
  }

  lemma RescueStoreKeepsRegs(p: Policy, s: Sys)
    requires Inv(s) && (s.pc.RescueStore?)
    ensures RegsInv(SelMicro(p, s))
  {
  }

  lemma RescueStoreKeepsShadow(p: Policy, s: Sys)
    requires Inv(s) && (s.pc.RescueStore?)
    ensures ShadowInv(SelMicro(p, s))
  {
  }

  lemma SelStoreKeepsRegs(p: Policy, s: Sys)
    requires Inv(s) && (s.pc.SelClear? || s.pc.SelNumMax? || s.pc.SelNum?)
    ensures RegsInv(SelMicro(p, s))
  {
  }

  lemma SelStoreKeepsShadow(p: Policy, s: Sys)
    requires Inv(s) && (s.pc.SelClear? || s.pc.SelNumMax? || s.pc.SelNum?)
    ensures ShadowInv(SelMicro(p, s))
  {
  }

  lemma SelSnapKeeps(p: Policy, s: Sys)
    requires Inv(s) && (s.pc.SelSnap?)
    ensures Inv(SelMicro(p, s))
  {
  }

  lemma CaptureReadKeepsRegs(s: Sys)
    requires Inv(s) && (s.pc.RdReady? || s.pc.CaptureRead?)
    ensures RegsInv(CaptureMicro(s))
  {
  }

  lemma CaptureReadKeepsShadow(s: Sys)
    requires Inv(s) && (s.pc.RdReady? || s.pc.CaptureRead?)
    ensures ShadowInv(CaptureMicro(s))
  {
  }

  lemma CaptureStoreKeepsRegs(s: Sys)
    requires Inv(s) && (s.pc.CaptureStore?)
    ensures RegsInv(CaptureMicro(s))
  {
  }

  lemma CaptureStoreKeepsShadow(s: Sys)
    requires Inv(s) && s.pc.CaptureStore?
    ensures ShadowInv(CaptureMicro(s))
  {
  }

  lemma CaptureReadyKeepsRegs(s: Sys)
    requires Inv(s) && (s.pc.CaptureReady? || s.pc.ClearReady?)
    ensures RegsInv(CaptureMicro(s))
  {
  }

  lemma CaptureReadyKeepsShadow(s: Sys)
    requires Inv(s) && (s.pc.CaptureReady? || s.pc.ClearReady?)
    ensures ShadowInv(CaptureMicro(s))
  {
  }

  lemma NotifyKeepsRegs(s: Sys)
    requires Inv(s) && (s.pc.RdNotify? || s.pc.SetDirty? || s.pc.ClearNotify?)
    ensures RegsInv(TailMicro(s))
  {
  }

  lemma NotifyKeepsShadow(s: Sys)
    requires Inv(s) && (s.pc.RdNotify? || s.pc.SetDirty? || s.pc.ClearNotify?)
    ensures ShadowInv(TailMicro(s))
  {
  }

  lemma GenKeepsRegs(s: Sys)
    requires Inv(s) && (s.pc.RdGen? || s.pc.StoreGen? || s.pc.SnapGen?)
    ensures RegsInv(TailMicro(s))
  {
  }

  lemma GenKeepsShadow(s: Sys)
    requires Inv(s) && (s.pc.RdGen? || s.pc.StoreGen? || s.pc.SnapGen?)
    ensures ShadowInv(TailMicro(s))
  {
  }

  lemma SelKeeps(p: Policy, s: Sys)
    requires Inv(s) && InSel(s.pc)
    ensures Inv(SelMicro(p, s))
  {
    if s.pc.SelShadow? || s.pc.RescueRead? {
      SelReadKeepsRegs(p, s); SelReadKeepsShadow(p, s);
    } else if s.pc.RescueStore? {
      RescueStoreKeepsRegs(p, s); RescueStoreKeepsShadow(p, s);
    } else if s.pc.SelSnap? {
      SelSnapKeeps(p, s);
    } else {
      SelStoreKeepsRegs(p, s); SelStoreKeepsShadow(p, s);
    }
  }

  lemma CaptureKeeps(s: Sys)
    requires Inv(s) && InCapture(s.pc)
    ensures Inv(CaptureMicro(s))
  {
    if s.pc.RdReady? || s.pc.CaptureRead? {
      CaptureReadKeepsRegs(s); CaptureReadKeepsShadow(s);
    } else if s.pc.CaptureStore? {
      CaptureStoreKeepsRegs(s); CaptureStoreKeepsShadow(s);
    } else {
      CaptureReadyKeepsRegs(s); CaptureReadyKeepsShadow(s);
    }
  }

  lemma TailKeeps(s: Sys)
    requires Inv(s) && !s.pc.RdSel? && !InSel(s.pc) && !InCapture(s.pc)
    ensures Inv(TailMicro(s))
  {
    if s.pc.RdGen? || s.pc.StoreGen? || s.pc.SnapGen? {
      GenKeepsRegs(s); GenKeepsShadow(s);
    } else {
      NotifyKeepsRegs(s); NotifyKeepsShadow(s);
    }
  }

  lemma BriscKeeps(p: Policy, s: Sys)
    requires Inv(s)
    ensures Inv(BriscMicro(p, s))
  {
    if InSel(s.pc) {
      SelKeeps(p, s);
    } else if InCapture(s.pc) {
      CaptureKeeps(s);
    } else if !s.pc.RdSel? {
      TailKeeps(s);
    }
  }

  lemma Trisc1KeepsRegs(s: Sys)
    requires Inv(s)
    ensures RegsInv(Trisc1Micro(s))
  {
  }

  lemma Trisc1KeepsShadow(s: Sys)
    requires Inv(s)
    ensures ShadowInv(Trisc1Micro(s))
  {
  }

  lemma SelectKeeps(p: Policy, s: Sys, a: Action)
    requires Inv(s) && a.Select?
    ensures Inv(GuestStep(p, s, a))
  {
  }

  lemma GuestKeepsRegs(p: Policy, s: Sys, a: Action)
    requires Inv(s) && !a.Select?
    ensures RegsInv(GuestStep(p, s, a))
  {
  }

  lemma GuestKeepsShadow(p: Policy, s: Sys, a: Action)
    requires Inv(s) && !a.Select?
    ensures ShadowInv(GuestStep(p, s, a))
  {
  }

  lemma StepKeeps(p: Policy, s: Sys, a: Action)
    requires Inv(s)
    ensures Inv(Step(p, s, a))
  {
    match a
    case Brisc => BriscKeeps(p, s);
    case Trisc1Step => Trisc1KeepsRegs(s); Trisc1KeepsShadow(s);
    case Select(_, _) => SelectKeeps(p, s, a);
    case _ => GuestKeepsRegs(p, s, a); GuestKeepsShadow(p, s, a);
  }

  lemma {:induction false} RunInv(p: Policy, acts: seq<Action>)
    ensures Inv(Run(p, acts))
  {
    if acts == [] {
    } else {
      RunInv(p, acts[..|acts| - 1]);
      StepKeeps(p, Run(p, acts[..|acts| - 1]), acts[|acts| - 1]);
    }
  }

  /** In every run, a queue whose READY capture passed the QUEUE_SEL re-check holds exactly
      the six address halves the guest wrote for it, and a NUM that is the guest's or 0. */
  lemma CaptureIsNotMixed(p: Policy, acts: seq<Action>, q: u32)
    ensures var s := Run(p, acts);
      q in s.captured ==>
        && q < 8 && q in s.g.hist && s.d.shadow[q].ready != 0
        && (forall i :: 1 <= i < 7 ==> s.d.shadow[q].fields[i] == s.g.hist[q][i])
        && (s.d.shadow[q].fields[0] == s.g.hist[q][0] || s.d.shadow[q].fields[0] == 0)
  {
    RunInv(p, acts);
  }

  lemma MicroKeepsAbort(p: Policy, s: Sys, q: u32)
    requires Inv(s) && q in s.aborted && q !in s.captured
    ensures var r := BriscMicro(p, s);
      q in r.aborted && q !in r.captured
  {
  }

  lemma StepKeepsAbort(p: Policy, s: Sys, a: Action, q: u32)
    requires Inv(s) && q in s.aborted && q !in s.captured
    ensures var r := Step(p, s, a);
      q in r.aborted && q !in r.captured
  {
    if a.Brisc? {
      MicroKeepsAbort(p, s, q);
    }
  }

  lemma {:induction false} AbortStays(p: Policy, acts: seq<Action>, more: seq<Action>, q: u32)
    requires q in Run(p, acts).aborted && q !in Run(p, acts).captured
    ensures q in Run(p, acts + more).aborted && q !in Run(p, acts + more).captured
    decreases |more|
  {
    if more == [] {
      assert acts + more == acts;
    } else {
      var init, a := more[..|more| - 1], more[|more| - 1];
      AbortStays(p, acts, init, q);
      RunInv(p, acts + init);
      Do(p, acts + init, a);
      assert acts + init + [a] == acts + more;
      StepKeepsAbort(p, Run(p, acts + init), a, q);
    }
  }

  lemma AbortedIsZero(s: Sys, q: u32)
    requires Inv(s) && q in s.aborted && q !in s.captured
    ensures q < 8 && s.d.shadow[q].fields == NO_FIELDS
  {
  }

  /** An aborted capture is never repaired: whatever happens next in the session, the queue's
      shadow keeps all seven fields 0, because its READY store shuts the rescue path out. */
  lemma AbortIsFinal(p: Policy, acts: seq<Action>, more: seq<Action>, q: u32)
    requires q in Run(p, acts).aborted && q !in Run(p, acts).captured
    ensures var s := Run(p, acts + more);
      q in s.aborted && q !in s.captured && q < 8 && s.d.shadow[q].fields == NO_FIELDS
  {
    AbortStays(p, acts, more, q);
    RunInv(p, acts + more);
    AbortedIsZero(Run(p, acts + more), q);
  }
}
