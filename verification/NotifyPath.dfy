/** From a QUEUE_NOTIFY write to the dirty byte, under every interleaving; and how the firmware that
    `QueueSteps` runs access by access appears in the other two views of that path. */
module NotifyPath {
  import opened Words
  import opened QueueEngine
  import opened QueueSteps
  import DirtyScan
  import Wakeup

  // ---- what is marked was notified ----

  ghost predicate Notified(acts: seq<Action>, q: u32) {
    exists k :: 0 <= k < |acts| && acts[k] == Notify(q)
  }

  ghost predicate NotedInv(s: Sys, acts: seq<Action>) {
    && (forall q :: q in s.d.dirty ==> q < 8 && Notified(acts, q))
    && (s.d.notify != NO_NOTIFY ==> Notified(acts, s.d.notify))
    && (s.pc.SetDirty? ==> Notified(acts, s.pc.q))
  }

  lemma NotifiedMore(acts: seq<Action>, a: Action, q: u32)
    ensures Notified(acts, q) || a == Notify(q) ==> Notified(acts + [a], q)
  {
    if Notified(acts, q) {
      var k :| 0 <= k < |acts| && acts[k] == Notify(q);
      assert (acts + [a])[k] == Notify(q);
    } else if a == Notify(q) {
      assert (acts + [a])[|acts|] == Notify(q);
    }
  }

  /** Before its notify part a sweep leaves QUEUE_NOTIFY and the dirty bytes alone. */
  lemma SelLeavesNotes(p: Policy, s: Sys)
    requires InSel(s.pc)
    ensures var t := SelMicro(p, s); t.d.dirty == s.d.dirty && t.d.notify == s.d.notify && BeforeNotify(t.pc)
  {
  }

  lemma CaptureLeavesNotes(s: Sys)
    requires InCapture(s.pc)
    ensures var t := CaptureMicro(s);
      t.d.dirty == s.d.dirty && t.d.notify == s.d.notify && (BeforeNotify(t.pc) || t.pc.RdNotify?)
  {
  }

  predicate BeforeNotify(pc: Pc) {
    pc.RdSel? || InSel(pc) || InCapture(pc)
  }

  /** What each action can do to QUEUE_NOTIFY and the dirty bytes. */
  predicate Notes(s: Sys, a: Action, t: Sys) {
    && t.d.dirty == (if a.Brisc? && s.pc.SetDirty? && s.pc.q < 8 then s.d.dirty + {s.pc.q} else s.d.dirty)
    && (t.d.notify != s.d.notify ==> t.d.notify == NO_NOTIFY || a == Notify(t.d.notify))
    && (t.pc.SetDirty? ==> t.pc == s.pc || t.pc.q == s.d.notify != NO_NOTIFY)
    && (!a.Brisc? ==> t.pc == s.pc)
  }

  lemma TailNotes(s: Sys)
    requires !BeforeNotify(s.pc)
    ensures Notes(s, Brisc, TailMicro(s))
  {
  }

  lemma GuestNotes(p: Policy, s: Sys, a: Action)
    requires !a.Brisc?
    ensures Notes(s, a, Step(p, s, a))
  {
  }

  lemma StepNotes(p: Policy, s: Sys, a: Action)
    ensures Notes(s, a, Step(p, s, a))
  {
    if !a.Brisc? {
      GuestNotes(p, s, a);
    } else if s.pc.RdSel? {
    } else if InSel(s.pc) {
      SelLeavesNotes(p, s);
    } else if InCapture(s.pc) {
      CaptureLeavesNotes(s);
    } else {
      TailNotes(s);
    }
  }

  /** Every dirty byte is that of a queue below 8 for which the guest wrote QUEUE_NOTIFY. */
  lemma {:induction false} DirtyWasNotified(p: Policy, acts: seq<Action>)
    ensures NotedInv(Run(p, acts), acts)
  {
    if acts == [] {
    } else {
      var prev, a := acts[..|acts| - 1], acts[|acts| - 1];
      DirtyWasNotified(p, prev);
      StepNotes(p, Run(p, prev), a);
      assert acts == prev + [a];
      forall q: u32 ensures Notified(prev, q) || a == Notify(q) ==> Notified(acts, q) {
        NotifiedMore(prev, a, q);
      }
    }
  }

  // ---- what BRISC has loaded is marked ----

  function Briscs(more: seq<Action>): nat {
    if more == [] then 0 else Briscs(more[..|more| - 1]) + if more[|more| - 1].Brisc? then 1 else 0
  }

  /** `n` steps of BRISC after it loaded the notify `q`. */
  predicate Marking(s: Sys, q: u32, n: nat) {
    && (n == 0 ==> s.pc == SetDirty(q))
    && (n == 1 ==> s.pc == ClearNotify)
    && (n == 2 ==> s.pc == RdGen)
    && (n >= 1 && q < 8 ==> q in s.d.dirty)
  }

  lemma MarkingStep(p: Policy, s: Sys, a: Action, q: u32, n: nat)
    requires Marking(s, q, n)
    ensures Marking(Step(p, s, a), q, if a.Brisc? then n + 1 else n)
  {
    StepNotes(p, s, a);
    if a.Brisc? && n < 2 {
      assert BriscMicro(p, s) == TailMicro(s);
    }
  }

  /** Once BRISC has loaded a notify, its next step marks the queue and stands before the sentinel
      store, and the mark is never taken away again on this side: in every interleaving. */
  lemma {:induction false} LoadedIsMarked(p: Policy, acts: seq<Action>, more: seq<Action>)
    requires Run(p, acts).pc.RdNotify? && Run(p, acts).d.notify != NO_NOTIFY
    ensures Marking(Run(p, acts + [Brisc] + more), Run(p, acts).d.notify, Briscs(more))
    decreases |more|
  {
    var q := Run(p, acts).d.notify;
    if more == [] {
      Do(p, acts, Brisc);
      assert acts + [Brisc] + more == acts + [Brisc];
    } else {
      var init, a := more[..|more| - 1], more[|more| - 1];
      LoadedIsMarked(p, acts, init);
      assert acts + [Brisc] + more == acts + [Brisc] + init + [a];
      Do(p, acts + [Brisc] + init, a);
      MarkingStep(p, Run(p, acts + [Brisc] + init), a, q, Briscs(init));
    }
  }

  // ---- the same step on the bytes of L1 ----

  predicate ByteSet(l1: seq<u8>, slot: nat, q: nat) {
    var at := DirtyScan.CTRL_BASE + DirtyScan.OFF_DIRTY + slot * 8 + q;
    at < |l1| && l1[at] != 0
  }

  /** The queues of a slot whose dirty byte is set. */
  function DirtyQueues(l1: seq<u8>, slot: nat): set<nat> {
    set q: nat | q < 8 && ByteSet(l1, slot, q)
  }

  /** `handle_queue_notify` on the bytes of L1 does to the slot's dirty queues what the sweep does to
      its set, and nothing to another slot's. */
  lemma BytesFollowSweep(a: seq<u8>, b: seq<u8>, slot: nat, q: nat, other: nat)
    requires slot < DirtyScan.NUM_SLOTS && other < DirtyScan.NUM_SLOTS
    requires DirtyScan.NotifiedOf(a, b, DirtyScan.Pair(slot, q))
    ensures DirtyQueues(b, other) == DirtyQueues(a, other) + if other == slot && q < 8 then {q} else {}
  {
    forall r: nat | r < 8
      ensures ByteSet(b, other, r) <==> ByteSet(a, other, r) || (other == slot && r == q)
    {
      assert DirtyScan.InTable(DirtyScan.Pair(other, r));
      assert DirtyScan.DirtyAddr(DirtyScan.Pair(other, r)) == DirtyScan.CTRL_BASE + DirtyScan.OFF_DIRTY + other * 8 + r;
    }
  }

  // ---- the same steps in the notify path end to end ----

  function NoteOf(notify: u32, q: u32): Wakeup.Note {
    if notify == NO_NOTIFY then Wakeup.Sentinel else if notify == q then Wakeup.Mine else Wakeup.Other
  }

  function BriscOf(pc: Pc, q: u32): Wakeup.Brisc {
    if pc.SetDirty? then Wakeup.Setting(pc.q == q) else if pc.ClearNotify? then Wakeup.Clearing else Wakeup.Polling
  }

  /** `w` shows what this side of queue `q` looks like in `s`. */
  predicate Shows(w: Wakeup.State, s: Sys, q: u32) {
    w.note == NoteOf(s.d.notify, q) && w.brisc == BriscOf(s.pc, q) && w.dirty == (q in s.d.dirty)
  }

  predicate AtNotify(pc: Pc) {
    pc.RdNotify? || pc.SetDirty? || pc.ClearNotify?
  }

  lemma TailIsWakeups(s: Sys, w: Wakeup.State, q: u32)
    requires q < 8 && Shows(w, s, q) && !BeforeNotify(s.pc)
    ensures Shows(if AtNotify(s.pc) then Wakeup.BriscStep(w) else w, TailMicro(s), q)
  {
  }

  /** BRISC's accesses to QUEUE_NOTIFY and the dirty byte are the steps of BRISC in `Wakeup`, and its
      other accesses are invisible there. */
  lemma BriscIsWakeups(p: Policy, s: Sys, w: Wakeup.State, q: u32)
    requires q < 8 && Shows(w, s, q)
    ensures Shows(if AtNotify(s.pc) then Wakeup.BriscStep(w) else w, BriscMicro(p, s), q)
  {
    if s.pc.RdSel? {
    } else if InSel(s.pc) {
      SelLeavesNotes(p, s);
    } else if InCapture(s.pc) {
      CaptureLeavesNotes(s);
    } else {
      TailIsWakeups(s, w, q);
    }
  }

  /** The guest's write of QUEUE_NOTIFY is its notify there. */
  lemma GuestIsWakeups(p: Policy, wp: Wakeup.Policy, s: Sys, w: Wakeup.State, q: u32, x: u32)
    requires q < 8 && Shows(w, s, q) && x != NO_NOTIFY && !wp.polite
    ensures Shows(Wakeup.GuestStep(wp, w, Wakeup.Notify(x == q)), GuestStep(p, s, Notify(x)), q)
  {
  }
}
