/** The queue a guest has just finished, with the handshake and its accesses out of the sweeps:
    until a later QUEUE_SEL write rescues it, its capture depends on TRISC1 alone. */
module LastQueue {
  import opened Words
  import opened QueueEngine
  import opened QueueSteps
  import opened SweepRefinement
  import opened Schedules
  import SelRescue

  /** The guest may write QUEUE_READY for the selected queue: echo in hand, all fields written,
      BRISC between sweeps. */
  predicate CanFinish(s: Sys) {
    s.pc.RdSel? && HasTurn(s.g) && AllDone(s.g.done) && s.d.sel < 8 && s.d.sel in s.g.hist
  }

  ghost predicate SameQueue(more: seq<Action>) {
    forall k :: 0 <= k < |more| ==> !more[k].Select?
  }

  /** BRISC ends a sweep during `more`. */
  predicate Swept(p: Policy, acts: seq<Action>, more: seq<Action>) {
    exists k :: 0 <= k < |more| && EndsAt(p, acts, more, k)
  }

  predicate Captured(s: Sys, q: u32, vals: Fields) {
    q < 8 && s.d.shadow[q] == Queue(vals, 1)
  }

  /** Where BRISC stands with the finished queue. */
  predicate OnItsWay(s: Sys, q: u32, vals: Fields)
    requires q < 8
  {
    match s.pc
    case RdSel => s.d.ready == 1 || (s.d.ready == 0 && Captured(s, q, vals))
    case RdReady(l) => l == q && (s.d.ready == 1 || (s.d.ready == 0 && Captured(s, q, vals)))
    case CaptureRead(l, r, caps) => l == q && r == 1 && caps == vals[..|caps|]
    case CaptureStore(l, r, all, k) => l == q && r == 1 && all == vals && k <= 7 && Landed(s.d.shadow[q].fields, vals, k)
    case CaptureReady(l, r, passed) => l == q && r == 1 && Landed(s.d.shadow[q].fields, vals, 7)
    case ClearReady => Captured(s, q, vals)
    case _ => !InSel(s.pc) && s.d.ready == 0 && Captured(s, q, vals)
  }

  /** The selected queue is finished and nothing but BRISC will touch its registers. */
  predicate Finishing(s: Sys, q: u32, vals: Fields) {
    && s.d.sel == q && s.d.snapSel == q && q < 8 && s.d.fields == vals
    && s.g.readied && HasEcho(s.g) && CaughtUp(s)
    && OnItsWay(s, q, vals)
  }

  /** The dirty byte is clear or the queue is in the shadow. */
  predicate Ordered(s: Sys, q: u32, vals: Fields) {
    q !in s.d.dirty || Captured(s, q, vals)
  }

  lemma CaptureFinishes(s: Sys, q: u32, vals: Fields)
    requires Finishing(s, q, vals) && InCapture(s.pc)
    ensures Finishing(CaptureMicro(s), q, vals)
    ensures Captured(s, q, vals) ==> Captured(CaptureMicro(s), q, vals)
  {
    match s.pc
    case CaptureStore(_, _, _, k) =>
      if k < 7 {
        StoreLands(s.d.shadow, q, vals, k);
      }
    case CaptureReady(_, _, _) => assert s.d.shadow[q].fields == vals;
    case _ =>
  }

  lemma StoreLands(sh: Shadow, q: u32, vals: Fields, k: nat)
    requires q < 8 && k < 7 && Landed(sh[q].fields, vals, k)
    ensures Landed(SetField(sh, q, k, vals[k])[q].fields, vals, k + 1)
    ensures sh[q] == Queue(vals, 1) ==> SetField(sh, q, k, vals[k])[q] == Queue(vals, 1)
  {
    if sh[q] == Queue(vals, 1) {
      assert vals[k := vals[k]] == vals;
    }
  }

  lemma TailFinishes(s: Sys, q: u32, vals: Fields)
    requires Finishing(s, q, vals) && !s.pc.RdSel? && !InCapture(s.pc)
    ensures Finishing(TailMicro(s), q, vals) && Captured(TailMicro(s), q, vals)
  {
  }

  /** A sweep that ends has captured; a capture is kept, and comes before the dirty byte. */
  lemma BriscFinishes(p: Policy, s: Sys, q: u32, vals: Fields)
    requires Finishing(s, q, vals)
    ensures var r := BriscMicro(p, s);
      && Finishing(r, q, vals)
      && (r.pc.RdSel? || Captured(s, q, vals) ==> Captured(r, q, vals))
      && (Ordered(s, q, vals) ==> Ordered(r, q, vals))
  {
    if s.pc.RdSel? {
    } else if InCapture(s.pc) {
      CaptureFinishes(s, q, vals);
    } else {
      TailFinishes(s, q, vals);
    }
  }

  lemma StepFinishes(p: Policy, s: Sys, a: Action, q: u32, vals: Fields)
    requires p.apart && Finishing(s, q, vals) && !a.Select?
    ensures var r := Step(p, s, a);
      && Finishing(r, q, vals)
      && (Captured(s, q, vals) || (a.Brisc? && r.pc.RdSel?) ==> Captured(r, q, vals))
      && (Ordered(s, q, vals) ==> Ordered(r, q, vals))
  {
    if a.Brisc? {
      BriscFinishes(p, s, q, vals);
    }
  }

  /** Writing QUEUE_READY with TRISC1 caught up. */
  lemma Begins(p: Policy, acts: seq<Action>)
    requires p.echo && p.apart && CanFinish(Run(p, acts)) && CaughtUp(Run(p, acts))
    ensures var s := Run(p, acts);
      Finishing(Step(p, s, WriteReady), s.d.sel, s.g.hist[s.d.sel])
  {
    SelRescue.RunInv(p, acts);
    FieldsWritten(p, Run(p, acts));
  }

  lemma FieldsWritten(p: Policy, s: Sys)
    requires SelRescue.TopInv(p, s) && HasEcho(s.g) && AllDone(s.g.done) && s.d.sel in s.g.hist
    ensures s.d.fields == s.g.hist[s.d.sel] && s.d.snapSel == s.d.sel
  {
    assert SelRescue.Written(s.g.done, s.d.fields, s.g.hist[s.d.sel]);
  }

  lemma {:induction false} Continues(p: Policy, acts: seq<Action>, more: seq<Action>, q: u32, vals: Fields)
    requires p.apart && Finishing(Run(p, acts), q, vals) && SameQueue(more)
    ensures Finishing(Run(p, acts + more), q, vals)
    ensures Swept(p, acts, more) ==> Captured(Run(p, acts + more), q, vals)
    ensures Ordered(Run(p, acts), q, vals) ==> Ordered(Run(p, acts + more), q, vals)
    decreases |more|
  {
    if more == [] {
      assert acts + more == acts;
    } else {
      var init, a := more[..|more| - 1], more[|more| - 1];
      Continues(p, acts, init, q, vals);
      assert acts + more == acts + init + [a];
      Do(p, acts + init, a);
      StepFinishes(p, Run(p, acts + init), a, q, vals);
      if Swept(p, acts, more) {
        var k :| 0 <= k < |more| && EndsAt(p, acts, more, k);
        if k < |init| {
          assert init[..k + 1] == more[..k + 1];
          assert EndsAt(p, acts, init, k);
        } else {
          assert more[..k + 1] == more;
        }
      }
    }
  }

  /** The order of the READY and NOTIFY handlers does what it is for: with TRISC1 caught up, the
      daemon never finds the dirty byte set before the queue is in the shadow. */
  lemma CaptureBeforeDirty(p: Policy, acts: seq<Action>, more: seq<Action>)
    requires p.echo && p.apart && SameQueue(more)
    requires CanFinish(Run(p, acts)) && CaughtUp(Run(p, acts)) && Run(p, acts).d.sel !in Run(p, acts).d.dirty
    ensures var s, t := Run(p, acts), Run(p, acts + [WriteReady] + more);
      s.d.sel in t.d.dirty ==> Captured(t, s.d.sel, s.g.hist[s.d.sel])
  {
    Begins(p, acts);
    Do(p, acts, WriteReady);
    Continues(p, acts + [WriteReady], more, Run(p, acts).d.sel, Run(p, acts).g.hist[Run(p, acts).d.sel]);
  }

  // ---- a TRISC1 that is late ----

  /** TRISC1 goes on until it has caught up, and leaves QUEUE_READY clear. */
  lemma CatchesUp(p: Policy, acts: seq<Action>) returns (tail: seq<Action>)
    requires !CaughtUp(Run(p, acts))
    ensures var s := Run(p, acts); var t := Run(p, acts + tail);
      t == s.(d := s.d.(ready := 0), t := Watch, lastQsel := t.lastQsel) && (s.t.Watch? ==> CaughtUp(t))
    ensures SameQueue(tail)
  {
    Do(p, acts, Trisc1Step);
    tail := [Trisc1Step];
    if Run(p, acts).t.Watch? {
      Do(p, acts + [Trisc1Step], Trisc1Step);
      tail := [Trisc1Step, Trisc1Step];
      assert acts + tail == acts + [Trisc1Step] + [Trisc1Step];
    }
  }

  /** A sweep that finds QUEUE_READY clear captures nothing. */
  lemma Missed(p: Policy, s: Sys)
    requires s.pc.RdSel? && s.d.sel == s.d.snapSel && s.d.ready == 0
    ensures Finish(p, BriscMicro(p, s)).d.shadow == s.d.shadow
  {
    UninterruptedIsSweep(p, s);
  }

  /** TRISC1 clears the QUEUE_READY it was late for, and the sweep finds nothing. */
  lemma LateClear(p: Policy, acts: seq<Action>) returns (more: seq<Action>)
    requires p.echo && p.apart && CanFinish(Run(p, acts)) && !CaughtUp(Run(p, acts))
    ensures SameQueue(more) && Swept(p, acts + [WriteReady], more)
    ensures Run(p, acts + [WriteReady] + more).d.shadow[Run(p, acts).d.sel].ready == 0
  {
    var s, a := Run(p, acts), acts + [WriteReady];
    SelRescue.RunInv(p, acts);
    FieldsWritten(p, s);
    Unready(p, s);
    Do(p, acts, WriteReady);
    var late := CatchesUp(p, a);
    var sweep := OneSweep(p, a + late);
    Missed(p, Run(p, a + late));
    more := late + sweep;
    assert a + late + sweep == a + more;
    assert more[..|more| - 1 + 1] == more;
    assert EndsAt(p, a, more, |more| - 1) by {
      FinishEnds(p, BriscMicro(p, Run(p, a + late)));
    }
  }

  lemma {:induction false} FinishEnds(p: Policy, s: Sys)
    ensures Finish(p, s).pc.RdSel?
    decreases Rank(s.pc)
  {
    if s.pc.RdSel? {
    } else {
      MicroDescends(p, s);
      FinishEnds(p, BriscMicro(p, s));
    }
  }

  lemma Unready(p: Policy, s: Sys)
    requires SelRescue.TopInv(p, s) && CanFinish(s)
    ensures s.d.snapSel == s.d.sel && s.d.shadow[s.d.sel].ready == 0
  {
  }

  /** Every continuation of writing QUEUE_READY in which BRISC ends a sweep has the queue in the
      shadow. */
  ghost predicate SurelyCaptured(p: Policy, acts: seq<Action>) {
    var s := Run(p, acts);
    s.d.sel in s.g.hist && forall more: seq<Action> :: SameQueue(more) && Swept(p, acts + [WriteReady], more) ==>
      Captured(Run(p, acts + [WriteReady] + more), s.d.sel, s.g.hist[s.d.sel])
  }

  /** A finished queue is captured by the next sweep, however the cores interleave, exactly when
      TRISC1 had caught up with its QUEUE_SEL before the guest wrote QUEUE_READY. */
  lemma CapturedIffCaughtUp(p: Policy, acts: seq<Action>)
    requires p.echo && p.apart && CanFinish(Run(p, acts))
    ensures SurelyCaptured(p, acts) <==> CaughtUp(Run(p, acts))
  {
    var s := Run(p, acts);
    if CaughtUp(s) {
      forall more: seq<Action> | SameQueue(more) && Swept(p, acts + [WriteReady], more)
        ensures Captured(Run(p, acts + [WriteReady] + more), s.d.sel, s.g.hist[s.d.sel])
      {
        Begins(p, acts);
        Do(p, acts, WriteReady);
        Continues(p, acts + [WriteReady], more, s.d.sel, s.g.hist[s.d.sel]);
      }
    } else {
      var more := LateClear(p, acts);
      assert !Captured(Run(p, acts + [WriteReady] + more), s.d.sel, s.g.hist[s.d.sel]);
    }
  }
}
