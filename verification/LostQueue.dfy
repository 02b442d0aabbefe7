/** When a queue the guest has finished can no longer reach the shadow. */
module LostQueue {
  import opened Words
  import opened QueueEngine
  import opened QueueSteps
  import opened SweepRefinement
  import opened Schedules
  import opened LastQueue
  import NoMixedCapture
  import RescueLimits
  import SelRescue

  /** A queue the guest has set up in full, with a nonzero NUM. */
  predicate Finished(s: Sys, q: u32) {
    q < 8 && q in s.g.complete && q in s.g.hist && s.g.hist[q][0] != 0
  }

  /** In no continuation does the shadow hold the queue's values and READY. */
  ghost predicate Lost(p: Policy, acts: seq<Action>, q: u32) {
    Finished(Run(p, acts), q)
    && forall more: seq<Action> :: !Captured(Run(p, acts + more), q, Run(p, acts).g.hist[q])
  }

  ghost predicate NoneLost(p: Policy) {
    forall acts: seq<Action>, q: u32 :: !Lost(p, acts, q)
  }

  /** The run ends with the last step of a sweep. */
  predicate EndsSweep(p: Policy, acts: seq<Action>) {
    acts != [] && acts[|acts| - 1].Brisc? && Run(p, acts).pc.RdSel?
  }

  /** At the end of every sweep of every run every finished queue is in the shadow. */
  ghost predicate SweepsCapture(p: Policy) {
    forall acts: seq<Action>, q: u32 :: EndsSweep(p, acts) && Finished(Run(p, acts), q) ==>
      Captured(Run(p, acts), q, Run(p, acts).g.hist[q])
  }

  // ---- queues beyond help ----

  /** QUEUE_SEL has left the range the firmware rescues from, or this is the last queue of that
      range with its QUEUE_READY gone; and BRISC is not at work on it. */
  predicate Dead(s: Sys, q: u32) {
    && q < 8 && s.d.shadow[q].ready == 0 && s.g.active
    && (s.d.sel >= 8 || (q == 7 && s.d.sel == 7 && s.d.snapSel == 7 && s.g.readied && s.d.ready == 0))
    && match s.pc
       case RdSel => true
       case SelSnap(l) => l >= 8 && s.d.sel >= 8
       case RdReady(l) => l >= 8 || s.d.ready == 0
       case _ => !InSel(s.pc) && (InCapture(s.pc) ==> s.pc.ClearReady?)
  }

  lemma DeadStep(p: Policy, s: Sys, a: Action, q: u32)
    requires p.apart && Dead(s, q)
    ensures Dead(Step(p, s, a), q)
  {
    if a.Brisc? && !s.pc.RdSel? && !InSel(s.pc) && !InCapture(s.pc) {
      DeadTail(s, q);
    }
  }

  lemma DeadTail(s: Sys, q: u32)
    requires Dead(s, q) && !s.pc.RdSel? && !InSel(s.pc) && !InCapture(s.pc)
    ensures Dead(TailMicro(s), q)
  {
  }

  lemma {:induction false} DeadStays(p: Policy, acts: seq<Action>, more: seq<Action>, q: u32)
    requires p.apart && Dead(Run(p, acts), q)
    ensures Dead(Run(p, acts + more), q)
    decreases |more|
  {
    if more == [] {
      assert acts + more == acts;
    } else {
      var init, a := more[..|more| - 1], more[|more| - 1];
      DeadStays(p, acts, init, q);
      assert acts + more == acts + init + [a];
      Do(p, acts + init, a);
      DeadStep(p, Run(p, acts + init), a, q);
    }
  }

  lemma DeadIsLost(p: Policy, acts: seq<Action>, q: u32)
    requires p.apart && Dead(Run(p, acts), q) && Finished(Run(p, acts), q)
    ensures Lost(p, acts, q)
  {
    forall more: seq<Action> ensures !Captured(Run(p, acts + more), q, Run(p, acts).g.hist[q]) {
      DeadStays(p, acts, more, q);
    }
  }

  // ---- queues that can be saved ----

  /** One sweep stores the queue: by capture if its QUEUE_READY is still there, by rescue if the
      guest has moved on within range. */
  lemma SweepSaves(p: Policy, s: Sys, q: u32)
    requires SelRescue.TopInv(p, s) && Finished(s, q) && s.d.snapSel == q && s.d.sel < 8
    requires s.d.sel == q ==> s.d.ready == 1
    ensures Captured(Finish(p, BriscMicro(p, s)), q, s.g.hist[q])
  {
    UninterruptedIsSweep(p, s);
    if s.d.sel == q {
      FieldsOf(p, s);
    }
  }

  lemma FieldsOf(p: Policy, s: Sys)
    requires SelRescue.TopInv(p, s) && s.d.sel == s.d.snapSel && s.g.readied
    ensures s.d.sel in s.g.hist && s.d.fields == s.g.hist[s.d.sel]
  {
    assert SelRescue.Written(s.g.done, s.d.fields, s.g.hist[s.d.sel]);
  }

  /** Between sweeps an unsaved finished queue is the one BRISC last settled on. */
  lemma Unsaved(p: Policy, s: Sys, q: u32)
    requires SelRescue.TopInv(p, s) && Finished(s, q) && s.d.sel < 8 && !Captured(s, q, s.g.hist[q])
    ensures s.d.snapSel == q
    ensures s.d.sel == q ==> s.g.readied && !s.g.mustBump && (s.d.ready == 0 || s.d.ready == 1)
  {
  }

  lemma Saved(p: Policy, acts: seq<Action>, q: u32) returns (more: seq<Action>)
    requires p.echo && p.apart && Finished(Run(p, acts), q)
    requires Run(p, acts).pc.RdSel? && !OutOfReach(Run(p, acts), q)
    ensures Captured(Run(p, acts + more), q, Run(p, acts).g.hist[q])
  {
    var s := Run(p, acts);
    SelRescue.RunInv(p, acts);
    if Captured(s, q, s.g.hist[q]) {
      more := [];
      assert acts + more == acts;
    } else {
      Unsaved(p, s, q);
      if s.d.sel == q && s.d.ready == 0 {
        more := SelectNext(p, acts, q);
      } else {
        SweepSaves(p, s, q);
        more := OneSweep(p, acts);
      }
    }
  }

  /** A queue whose QUEUE_READY is gone is rescued through the next QUEUE_SEL write. */
  lemma SelectNext(p: Policy, acts: seq<Action>, q: u32) returns (more: seq<Action>)
    requires p.echo && p.apart && SelRescue.TopInv(p, Run(p, acts)) && Finished(Run(p, acts), q) && q < 7
    requires Run(p, acts).d.sel == Run(p, acts).d.snapSel == q && Run(p, acts).g.readied
    ensures Captured(Run(p, acts + more), q, Run(p, acts).g.hist[q])
  {
    var a := Select(7, NO_FIELDS);
    Do(p, acts, a);
    HeldNever(p, Run(p, acts));
    SelRescue.RunInv(p, acts + [a]);
    if Captured(Run(p, acts + [a]), q, Run(p, acts).g.hist[q]) {
      more := [a];
    } else {
      SweepSaves(p, Run(p, acts + [a]), q);
      var sweep := OneSweep(p, acts + [a]);
      more := [a] + sweep;
      assert acts + [a] + sweep == acts + more;
    }
  }

  lemma HeldNever(p: Policy, s: Sys)
    requires SelRescue.TopInv(p, s) && s.g.readied
    ensures s.g.active && !s.g.mustBump && !s.g.waiting
  {
    assert 0 in s.g.done;
  }

  // ---- inside a sweep ----

  predicate Capturing(pc: Pc) {
    pc.CaptureRead? || pc.CaptureStore? || pc.CaptureReady?
  }

  /** How far the sweep in progress has come with QUEUE_READY, with the guest out of the sweeps. */
  ghost predicate SweepInv(s: Sys) {
    && (InSel(s.pc) ==> s.pc.l == s.d.sel && (s.pc.l < 8 || s.pc.SelSnap?))
    && (s.pc.RdReady? ==> s.pc.l == s.d.sel)
    && (Capturing(s.pc) ==> s.pc.l == s.d.sel < 8 && s.pc.r != 0)
    && (s.pc.ClearReady? && s.d.sel < 8 ==> s.d.shadow[s.d.sel].ready != 0)
    && (!s.pc.RdSel? && !InSel(s.pc) && !InCapture(s.pc) ==> s.d.ready == 0)
  }

  lemma CaptureKeepsSweep(s: Sys)
    requires SweepInv(s) && InCapture(s.pc)
    ensures SweepInv(CaptureMicro(s))
  {
  }

  lemma SelKeepsSweep(p: Policy, s: Sys)
    requires SweepInv(s) && InSel(s.pc)
    ensures SweepInv(SelMicro(p, s))
  {
  }

  lemma BriscKeepsSweep(p: Policy, s: Sys)
    requires SweepInv(s)
    ensures SweepInv(BriscMicro(p, s))
  {
    if InSel(s.pc) {
      SelKeepsSweep(p, s);
    } else if InCapture(s.pc) {
      CaptureKeepsSweep(s);
    } else if !s.pc.RdSel? {
      SelRescue.TailFrame(s);
    }
  }

  lemma {:induction false} SweepRun(p: Policy, acts: seq<Action>)
    requires p.apart
    ensures SweepInv(Run(p, acts))
  {
    if acts == [] {
    } else {
      SweepRun(p, acts[..|acts| - 1]);
      if acts[|acts| - 1].Brisc? {
        BriscKeepsSweep(p, Run(p, acts[..|acts| - 1]));
      }
    }
  }

  /** The rest of the sweep stores nothing in the shadow. */
  predicate Storeless(s: Sys) {
    match s.pc
    case RdSel => true
    case SelSnap(l) => l >= 8
    case RdReady(l) => l >= 8 || s.d.ready == 0
    case _ => !InSel(s.pc) && !Capturing(s.pc)
  }

  lemma {:induction false} NoMoreStores(p: Policy, s: Sys)
    requires Storeless(s)
    ensures Finish(p, s).d.shadow == s.d.shadow
    decreases Rank(s.pc)
  {
    if s.pc.RdSel? {
    } else {
      MicroDescends(p, s);
      StorelessStep(p, s);
      if !BriscMicro(p, s).pc.RdSel? {
        NoMoreStores(p, BriscMicro(p, s));
      }
    }
  }

  lemma StorelessStep(p: Policy, s: Sys)
    requires Storeless(s) && !s.pc.RdSel?
    ensures Storeless(BriscMicro(p, s)) && BriscMicro(p, s).d.shadow == s.d.shadow
  {
    if !InSel(s.pc) && !InCapture(s.pc) {
      SelRescue.TailFrame(s);
    }
  }

  /** A capture under way marks its queue ready. */
  lemma {:induction false} CaptureEnds(p: Policy, s: Sys)
    requires SweepInv(s) && (Capturing(s.pc) || (s.pc.RdReady? && s.d.sel < 8 && s.d.ready != 0))
    ensures s.d.sel < 8 && Finish(p, s).d.shadow[s.d.sel].ready != 0
    decreases Rank(s.pc)
  {
    var n := BriscMicro(p, s);
    MicroDescends(p, s);
    BriscKeepsSweep(p, s);
    MicroKeepsGuest(p, s);
    Unfold(p, s, n);
    if s.pc.CaptureReady? {
      NoMoreStores(p, n);
    } else {
      CaptureEnds(p, n);
    }
  }

  /** The end of the sweep, BRISC running on alone. */
  lemma AtEnd(p: Policy, acts: seq<Action>) returns (tail: seq<Action>)
    requires p.echo && p.apart
    ensures var s, t := Run(p, acts), Run(p, acts + tail);
      t == Finish(p, s) && SelRescue.TopInv(p, t) && t.g == s.g && t.d.sel == s.d.sel
  {
    tail := RunToEnd(p, acts);
    FinishEnds(p, Run(p, acts));
    FinishKeepsGuest(p, Run(p, acts));
    SelRescue.RunInv(p, acts + tail);
  }

  /** What a finished queue's shadow holds at the end of a sweep, if it is marked ready. */
  lemma TidyAt(p: Policy, s: Sys, q: u32)
    requires SelRescue.TopInv(p, s) && Finished(s, q) && s.d.shadow[q].ready != 0
    ensures Captured(s, q, s.g.hist[q])
  {
  }

  /** The condition of `LostIff`. */
  predicate OutOfReach(s: Sys, q: u32) {
    s.d.sel >= 8 || (q == 7 && s.d.ready == 0 && !Capturing(s.pc))
  }

  /** The last queue of the range, seen from inside a sweep. */
  lemma LastQueueMid(p: Policy, s: Sys, t: Sys)
    requires SelRescue.Inv(p, s) && SelRescue.TopInv(p, t) && t.g == s.g && t.d.sel == s.d.sel < 8 && Finished(s, 7)
    ensures s.d.sel == 7 && s.g.readied && s.g.active
    ensures s.d.snapSel == 7 && !InSel(s.pc)
  {
    assert 7 in t.g.hist;
    HeldNever(p, t);
  }

  lemma OutOfReachIsDead(p: Policy, s: Sys, t: Sys, q: u32)
    requires SelRescue.Inv(p, s) && SweepInv(s) && t == Finish(p, s) && SelRescue.TopInv(p, t)
    requires t.g == s.g && t.d.sel == s.d.sel && Finished(s, q) && OutOfReach(s, q) && !Captured(s, q, s.g.hist[q])
    ensures Dead(s, q)
  {
    if s.d.sel < 8 {
      LastQueueMid(p, s, t);
    }
    NoMoreStores(p, s);
    if s.d.shadow[q].ready != 0 {
      TidyAt(p, t, q);
      assert false;
    }
    assert s.g.active;
  }

  /** Within reach, the end of the sweep has the queue in the shadow or leaves it within reach. */
  lemma StaysInReach(p: Policy, s: Sys, t: Sys, q: u32)
    requires SelRescue.Inv(p, s) && SweepInv(s) && t == Finish(p, s) && SelRescue.TopInv(p, t)
    requires t.g == s.g && t.d.sel == s.d.sel && Finished(s, q) && !OutOfReach(s, q)
    ensures Captured(t, q, t.g.hist[q]) || !OutOfReach(t, q)
  {
    if q == 7 && !s.pc.RdSel? {
      LastQueueMid(p, s, t);
      if s.pc.ClearReady? {
        NoMoreStores(p, s);
      } else {
        CaptureEnds(p, s);
      }
      TidyAt(p, t, 7);
    }
  }

  lemma SavedFromEnd(p: Policy, acts: seq<Action>, q: u32) returns (more: seq<Action>)
    requires p.echo && p.apart && Finished(Run(p, acts), q) && Run(p, acts).pc.RdSel?
    requires Captured(Run(p, acts), q, Run(p, acts).g.hist[q]) || !OutOfReach(Run(p, acts), q)
    ensures Captured(Run(p, acts + more), q, Run(p, acts).g.hist[q])
  {
    if Captured(Run(p, acts), q, Run(p, acts).g.hist[q]) {
      more := [];
      assert acts + more == acts;
    } else {
      more := Saved(p, acts, q);
    }
  }

  lemma InReachIsSaved(p: Policy, acts: seq<Action>, q: u32) returns (more: seq<Action>)
    requires p.echo && p.apart && Finished(Run(p, acts), q) && !OutOfReach(Run(p, acts), q)
    ensures Captured(Run(p, acts + more), q, Run(p, acts).g.hist[q])
  {
    var tail := AtEnd(p, acts);
    var t := acts + tail;
    SelRescue.RunInv(p, acts);
    SweepRun(p, acts);
    StaysInReach(p, Run(p, acts), Run(p, t), q);
    var rest := SavedFromEnd(p, t, q);
    more := tail + rest;
    assert acts + more == t + rest;
  }

  /** With the handshake and the guest out of the sweeps, at any moment: a finished queue is lost
      exactly when it is not in the shadow and either QUEUE_SEL has left the range or it is the
      last queue of the range, its QUEUE_READY gone and no capture of it under way. */
  lemma LostIff(p: Policy, acts: seq<Action>, q: u32)
    requires p.echo && p.apart && Finished(Run(p, acts), q)
    ensures var s := Run(p, acts);
      Lost(p, acts, q) <==> s.d.shadow[q] != Queue(s.g.hist[q], 1) && OutOfReach(s, q)
  {
    var s := Run(p, acts);
    if s.d.shadow[q] == Queue(s.g.hist[q], 1) {
      assert acts + [] == acts;
    } else if OutOfReach(s, q) {
      var tail := AtEnd(p, acts);
      SelRescue.RunInv(p, acts);
      SweepRun(p, acts);
      OutOfReachIsDead(p, s, Run(p, acts + tail), q);
      DeadIsLost(p, acts, q);
    } else {
      var more := InReachIsSaved(p, acts, q);
    }
  }

  // ---- with all four conditions nothing is lost ----

  /** The finished current queue is on its way to the shadow. */
  ghost predicate PromptInv(s: Sys) {
    s.d.sel < 8 && (s.g.readied ==> s.d.sel in s.g.hist && Finishing(s, s.d.sel, s.g.hist[s.d.sel]))
  }

  lemma {:induction false} PromptRun(p: Policy, acts: seq<Action>)
    requires p.echo && p.apart && p.prompt && p.inRange
    ensures PromptInv(Run(p, acts))
  {
    if acts == [] {
    } else {
      var prev, a := acts[..|acts| - 1], acts[|acts| - 1];
      var s := Run(p, prev);
      PromptRun(p, prev);
      if s.g.readied && !a.Select? {
        StepFinishes(p, s, a, s.d.sel, s.g.hist[s.d.sel]);
        HistStays(p, s, a);
      } else if a.WriteReady? && Step(p, s, a).g.readied {
        SelectedIsKnown(p, prev);
        Begins(p, prev);
      }
    }
  }

  lemma HistStays(p: Policy, s: Sys, a: Action)
    requires !a.Select?
    ensures Step(p, s, a).g.hist == s.g.hist && Step(p, s, a).d.sel == s.d.sel
  {
    if a.Brisc? {
      MicroKeepsGuest(p, s);
    }
  }

  lemma SelectedIsKnown(p: Policy, acts: seq<Action>)
    ensures Run(p, acts).g.active ==> Run(p, acts).d.sel in Run(p, acts).g.hist
  {
    NoMixedCapture.RunInv(p, acts);
  }

  /** Past the QUEUE_SEL handler BRISC has settled on the present QUEUE_SEL. */
  predicate Settled(s: Sys) {
    s.pc.RdSel? || InSel(s.pc) || s.d.snapSel == s.d.sel
  }

  lemma BriscSettles(p: Policy, s: Sys)
    requires SweepInv(s) && Settled(s)
    ensures Settled(BriscMicro(p, s))
  {
    if !s.pc.RdSel? && !InSel(s.pc) && !InCapture(s.pc) {
      SelRescue.TailFrame(s);
    }
  }

  lemma {:induction false} SettledRun(p: Policy, acts: seq<Action>)
    requires p.apart
    ensures Settled(Run(p, acts))
  {
    if acts == [] {
    } else {
      var prev := acts[..|acts| - 1];
      SettledRun(p, prev);
      if acts[|acts| - 1].Brisc? {
        SweepRun(p, prev);
        BriscSettles(p, Run(p, prev));
      }
    }
  }

  /** The step that ends a sweep changes neither the guest nor either QUEUE_SEL. */
  lemma LastStep(p: Policy, s: Sys)
    requires BriscMicro(p, s).pc.RdSel?
    ensures var t := BriscMicro(p, s);
      !s.pc.RdSel? && !InSel(s.pc) && t.g == s.g && t.d.sel == s.d.sel && t.d.snapSel == s.d.snapSel
  {
    MicroKeepsGuest(p, s);
  }

  /** The step that ends a sweep leaves a finished queue in the shadow. */
  lemma EndCaptures(p: Policy, s: Sys, q: u32)
    requires var t := BriscMicro(p, s);
      t.pc.RdSel? && SelRescue.TopInv(p, t) && PromptInv(s) && Settled(s) && Finished(t, q)
    ensures Captured(BriscMicro(p, s), q, BriscMicro(p, s).g.hist[q])
  {
    var t := BriscMicro(p, s);
    LastStep(p, s);
    if !Captured(t, q, t.g.hist[q]) {
      Unsaved(p, t, q);
      BriscFinishes(p, s, q, s.g.hist[q]);
    }
  }

  /** With all four conditions, at the end of every sweep of every run, every finished queue is in
      the shadow. */
  lemma SweepEndCaptures(p: Policy, acts: seq<Action>, q: u32)
    requires p.echo && p.apart && p.prompt && p.inRange && EndsSweep(p, acts) && Finished(Run(p, acts), q)
    ensures Captured(Run(p, acts), q, Run(p, acts).g.hist[q])
  {
    var prev := acts[..|acts| - 1];
    SelRescue.RunInv(p, acts);
    PromptRun(p, prev);
    SettledRun(p, prev);
    EndCaptures(p, Run(p, prev), q);
  }

  /** BRISC alone, to the end of a sweep. */
  lemma ToSweepEnd(p: Policy, acts: seq<Action>) returns (more: seq<Action>)
    ensures EndsSweep(p, acts + more) && Run(p, acts + more).g == Run(p, acts).g
  {
    more := OneSweep(p, acts);
    var s := Run(p, acts);
    FinishEnds(p, BriscMicro(p, s));
    MicroKeepsGuest(p, s);
    FinishKeepsGuest(p, BriscMicro(p, s));
    assert (acts + more)[|acts + more| - 1] == more[|more| - 1];
  }

  lemma NothingLost(p: Policy, acts: seq<Action>, q: u32)
    requires p.echo && p.apart && p.prompt && p.inRange
    ensures !Lost(p, acts, q)
  {
    if Finished(Run(p, acts), q) {
      var more := ToSweepEnd(p, acts);
      SweepEndCaptures(p, acts + more, q);
    }
  }

  lemma {:induction false} FinishKeepsGuest(p: Policy, s: Sys)
    ensures Finish(p, s).g == s.g && Finish(p, s).d.sel == s.d.sel
    decreases Rank(s.pc)
  {
    if s.pc.RdSel? {
    } else {
      MicroDescends(p, s);
      MicroKeepsGuest(p, s);
      FinishKeepsGuest(p, BriscMicro(p, s));
    }
  }

  lemma MicroKeepsGuest(p: Policy, s: Sys)
    ensures BriscMicro(p, s).g == s.g && BriscMicro(p, s).d.sel == s.d.sel
  {
  }

  // ---- and each of them is needed ----

  /** A guest access inside the capture aborts it. */
  lemma LostToAbort(p: Policy) returns (acts: seq<Action>)
    requires !p.apart
    ensures Lost(p, acts, 0)
  {
    acts := RescueLimits.AbortHappens(p);
    forall more: seq<Action> ensures !Captured(Run(p, acts + more), 0, Run(p, acts).g.hist[0]) {
      NoMixedCapture.AbortIsFinal(p, acts, more, 0);
    }
  }

  /** A guest without the handshake writes QUEUE_READY before BRISC has seen its QUEUE_SEL; the
      sweep that sees it clears QUEUE_READY. */
  lemma LostToHaste(p: Policy) returns (acts: seq<Action>)
    requires p.apart && !p.echo
    ensures Lost(p, acts, 7)
  {
    acts := SelectFirst(p, 7, FIRST);
    var late := CatchesUp(p, acts);
    acts := acts + late;
    acts := WriteAndReady(p, acts, FIRST);
    Hasty(p, Run(p, acts));
    var sweep := OneSweep(p, acts);
    acts := acts + sweep;
    DeadIsLost(p, acts, 7);
  }

  lemma Hasty(p: Policy, s: Sys)
    requires s.pc.RdSel? && s.d.sel == 7 && s.d.snapSel == 0 && s.g.active && s.g.readied && s.d.shadow == Reset().shadow
    ensures var t := Finish(p, BriscMicro(p, s)); Dead(t, 7) && t.g == s.g
  {
    UninterruptedIsSweep(p, s);
  }

  /** A TRISC1 late for the last queue's QUEUE_SEL clears the QUEUE_READY the guest has written. */
  lemma LostToLateClear(p: Policy) returns (acts: seq<Action>)
    requires p.echo && p.apart && !p.prompt
    ensures Lost(p, acts, 7)
  {
    acts := SelectFirst(p, 7, FIRST);
    acts := WriteAndReady(p, acts, FIRST);
    var late := CatchesUp(p, acts);
    acts := acts + late;
    DeadIsLost(p, acts, 7);
  }

  /** A QUEUE_SEL write out of range before the sweep leaves nothing to rescue the queue. */
  lemma LostToRange(p: Policy) returns (acts: seq<Action>)
    requires p.echo && p.apart && !p.inRange
    ensures Lost(p, acts, 0)
  {
    acts := SelectFirst(p, 0, FIRST);
    acts := WriteAndReady(p, acts, FIRST);
    OutOfRange(p, Run(p, acts));
    Do(p, acts, Select(8, SECOND));
    acts := acts + [Select(8, SECOND)];
    DeadIsLost(p, acts, 0);
  }

  lemma OutOfRange(p: Policy, s: Sys)
    requires !p.inRange && s.pc.RdSel? && HasEcho(s.g) && s.d.sel == 0 && s.d.shadow[0].ready == 0 && Finished(s, 0)
    ensures Dead(Step(p, s, Select(8, SECOND)), 0) && Finished(Step(p, s, Select(8, SECOND)), 0)
  {
  }

  /** A lost queue is still missing at the end of the next sweep. */
  lemma LostIsMissed(p: Policy, acts: seq<Action>, q: u32)
    requires Lost(p, acts, q)
    ensures !SweepsCapture(p)
  {
    var more := ToSweepEnd(p, acts);
    assert !Captured(Run(p, acts + more), q, Run(p, acts).g.hist[q]);
  }

  /** Some queue is lost unless all four conditions hold. */
  lemma LostSomewhere(p: Policy) returns (acts: seq<Action>, q: u32)
    requires !(p.echo && p.apart && p.prompt && p.inRange)
    ensures Lost(p, acts, q)
  {
    if !p.apart {
      acts := LostToAbort(p);
      q := 0;
    } else if !p.echo {
      acts := LostToHaste(p);
      q := 7;
    } else if !p.prompt {
      acts := LostToLateClear(p);
      q := 7;
    } else {
      acts := LostToRange(p);
      q := 0;
    }
  }

  /** Every sweep of every run ends with every finished queue in the shadow exactly when the guest
      waits for the echo, keeps out of the sweeps, writes QUEUE_READY only after TRISC1 has caught
      up, and selects no queue out of range; and if one of the four fails, some queue is lost for
      good. */
  lemma NoneLostIff(p: Policy)
    ensures SweepsCapture(p) <==> p.echo && p.apart && p.prompt && p.inRange
    ensures NoneLost(p) <==> p.echo && p.apart && p.prompt && p.inRange
  {
    if p.echo && p.apart && p.prompt && p.inRange {
      forall acts: seq<Action>, q: u32 | EndsSweep(p, acts) && Finished(Run(p, acts), q)
        ensures Captured(Run(p, acts), q, Run(p, acts).g.hist[q])
      {
        SweepEndCaptures(p, acts, q);
      }
      forall acts: seq<Action>, q: u32 ensures !Lost(p, acts, q) {
        NothingLost(p, acts, q);
      }
    } else {
      var acts, q := LostSomewhere(p);
      LostIsMissed(p, acts, q);
    }
  }
}
