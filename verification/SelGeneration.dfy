/** The sel-generation handshake under every interleaving. */
module SelGeneration {
  import opened Words
  import opened QueueSteps

  /** The guest waits and still reads the value it wrote. */
  predicate Owed(s: Sys) {
    s.g.waiting && s.d.gen == s.g.wrote
  }

  /** The generation runs one ahead of BRISC's last echo exactly while an answer is owed. */
  ghost predicate Inv(s: Sys) {
    && !(s.g.mustBump && s.g.waiting)
    && (s.pc.StoreGen? ==> Owed(s) && s.pc.next == WrapAdd(s.d.gen, 1))
    && (!s.pc.StoreGen? ==>
          var base := if s.pc.SnapGen? then s.pc.next else s.d.snapGen;
          s.d.gen == if Owed(s) then WrapAdd(base, 1) else base)
  }

  /** Outside the generation part BRISC touches neither the generation nor its snapshot. */
  lemma GenOnlyAtStore(p: Policy, s: Sys)
    ensures var r := BriscMicro(p, s);
      && r.g == s.g
      && r.d.gen == (if s.pc.StoreGen? then s.pc.next else s.d.gen)
      && r.d.snapGen == (if s.pc.SnapGen? then s.pc.next else s.d.snapGen)
      && (r.pc.StoreGen? ==> s.pc.RdGen? && s.d.gen != s.d.snapGen && r.pc.next == WrapAdd(s.d.gen, 1))
      && (r.pc.SnapGen? ==> s.pc.StoreGen? && r.pc.next == s.pc.next)
      && (r.pc.RdSel? ==> s.pc.SnapGen? || (s.pc.RdGen? && s.d.gen == s.d.snapGen))
  {
    if InSel(s.pc) {
    } else if InCapture(s.pc) {
    } else {
    }
  }

  lemma BriscKeeps(p: Policy, s: Sys)
    requires Inv(s)
    ensures Inv(BriscMicro(p, s))
  {
    GenOnlyAtStore(p, s);
    assert s.pc.StoreGen? ==> BriscMicro(p, s).pc.SnapGen?;
  }

  lemma GuestKeeps(p: Policy, s: Sys, a: Action)
    requires Inv(s)
    ensures Inv(GuestStep(p, s, a))
  {
  }

  lemma {:induction false} RunInv(p: Policy, acts: seq<Action>)
    ensures Inv(Run(p, acts))
  {
    if acts == [] {
    } else {
      var s, a := Run(p, acts[..|acts| - 1]), acts[|acts| - 1];
      RunInv(p, acts[..|acts| - 1]);
      if a.Brisc? {
        BriscKeeps(p, s);
      } else if !a.Trisc1Step? {
        GuestKeeps(p, s, a);
      }
    }
  }

  /** BRISC changes the generation only to answer an outstanding bump, by the bumped value
      plus one modulo 2^32, which the guest can tell from what it wrote; then nothing is owed. */
  lemma EchoAnswersOneBump(p: Policy, acts: seq<Action>)
    ensures var s := Run(p, acts);
      var r := Step(p, s, Brisc);
      r.d.gen != s.d.gen ==>
        Owed(s) && r.d.gen == WrapAdd(s.g.wrote, 1) && r.d.gen != s.g.wrote && !Owed(r)
  {
    RunInv(p, acts);
    GenOnlyAtStore(p, Run(p, acts));
  }

  /** Nothing but a bump makes an answer owed. */
  lemma OnlyBumpOwes(p: Policy, acts: seq<Action>, a: Action)
    requires !Owed(Run(p, acts)) && !a.Bump?
    ensures !Owed(Step(p, Run(p, acts), a))
  {
    RunInv(p, acts);
    if a.Brisc? {
      GenOnlyAtStore(p, Run(p, acts));
    }
  }

  ghost predicate NoBump(more: seq<Action>) {
    forall k :: 0 <= k < |more| ==> !more[k].Bump?
  }

  predicate Still(s: Sys, gen: u32) {
    !Owed(s) && s.d.gen == gen
  }

  lemma QuietStep(p: Policy, acts: seq<Action>, a: Action, gen: u32)
    requires Still(Run(p, acts), gen) && !a.Bump?
    ensures Still(Run(p, acts + [a]), gen)
  {
    Do(p, acts, a);
    OnlyBumpOwes(p, acts, a);
    if a.Brisc? {
      EchoAnswersOneBump(p, acts);
    } else {
      GuestKeepsGen(p, Run(p, acts), a);
    }
  }

  lemma {:induction false} QuietUpTo(p: Policy, acts: seq<Action>, more: seq<Action>, k: nat, gen: u32)
    requires k <= |more| && Still(Run(p, acts), gen) && NoBump(more)
    ensures Still(Run(p, acts + more[..k]), gen)
    decreases k
  {
    if k == 0 {
      assert acts + more[..0] == acts;
    } else {
      QuietUpTo(p, acts, more, k - 1, gen);
      Snoc(acts, more, k - 1);
      QuietStep(p, acts + more[..k - 1], more[k - 1], gen);
    }
  }

  /** Once nothing is owed the generation stands still, whatever anybody does, until the next bump. */
  lemma NoEchoUntilBump(p: Policy, acts: seq<Action>, more: seq<Action>)
    requires !Owed(Run(p, acts)) && NoBump(more)
    ensures !Owed(Run(p, acts + more)) && Run(p, acts + more).d.gen == Run(p, acts).d.gen
  {
    QuietUpTo(p, acts, more, |more|, Run(p, acts).d.gen);
    assert more[..|more|] == more;
  }

  lemma GuestKeepsGen(p: Policy, s: Sys, a: Action)
    requires !a.Bump? && !a.Brisc?
    ensures Step(p, s, a).d.gen == s.d.gen
  {
  }

  // ---- every bump is answered ----

  /** An answer is owed from the i-th action of `more` on. */
  ghost predicate OwedFrom(p: Policy, acts: seq<Action>, more: seq<Action>, i: nat) {
    forall k :: i <= k <= |more| ==> Owed(Run(p, acts + more[..k]))
  }

  lemma {:induction false} NoSnapWhileOwed(p: Policy, acts: seq<Action>, more: seq<Action>, i: nat, k: nat)
    requires i <= k <= |more| && OwedFrom(p, acts, more, i) && Run(p, acts + more[..i]).pc.RdSel?
    ensures !Run(p, acts + more[..k]).pc.SnapGen?
    decreases k - i
  {
    if k == i {
    } else {
      NoSnapWhileOwed(p, acts, more, i, k - 1);
      StillRunningAt(p, acts, more, k - 1);
    }
  }

  lemma OneMore(p: Policy, acts: seq<Action>, more: seq<Action>, k: nat)
    requires k < |more|
    ensures Run(p, acts + more[..k + 1]) == Step(p, Run(p, acts + more[..k]), more[k])
  {
    Snoc(acts, more, k);
    Do(p, acts + more[..k], more[k]);
  }

  lemma Snoc(acts: seq<Action>, more: seq<Action>, k: nat)
    requires k < |more|
    ensures acts + more[..k] + [more[k]] == acts + more[..k + 1]
  {
  }

  /** A sweep begun while an answer is owed cannot end before it is given. */
  lemma NoEndWhileOwed(p: Policy, acts: seq<Action>, more: seq<Action>, i: nat, k: nat)
    requires i <= k < |more| && OwedFrom(p, acts, more, i) && Run(p, acts + more[..i]).pc.RdSel?
    ensures !EndsAt(p, acts, more, k)
  {
    NoSnapWhileOwed(p, acts, more, i, k);
    StillRunningAt(p, acts, more, k);
  }

  lemma StillRunningAt(p: Policy, acts: seq<Action>, more: seq<Action>, k: nat)
    requires k < |more| && Owed(Run(p, acts + more[..k])) && Owed(Run(p, acts + more[..k + 1]))
    requires !Run(p, acts + more[..k]).pc.SnapGen?
    ensures !Run(p, acts + more[..k + 1]).pc.SnapGen? && !EndsAt(p, acts, more, k)
  {
    OneMore(p, acts, more, k);
    StillRunning(p, acts + more[..k], more[k]);
  }

  lemma StillRunning(p: Policy, acts: seq<Action>, a: Action)
    requires Owed(Run(p, acts)) && Owed(Step(p, Run(p, acts), a)) && !Run(p, acts).pc.SnapGen?
    ensures var r := Step(p, Run(p, acts), a);
      !r.pc.SnapGen? && (a.Brisc? ==> !r.pc.RdSel?)
  {
    RunInv(p, acts);
    StillRunningStep(p, Run(p, acts), a);
  }

  lemma StillRunningStep(p: Policy, s: Sys, a: Action)
    requires Inv(s) && Owed(s) && Owed(Step(p, s, a)) && !s.pc.SnapGen?
    ensures var r := Step(p, s, a); !r.pc.SnapGen? && (a.Brisc? ==> !r.pc.RdSel?)
  {
    if a.Brisc? {
      GenOnlyAtStore(p, s);
    } else {
      OthersKeepPc(p, s, a);
    }
  }

  lemma OthersKeepPc(p: Policy, s: Sys, a: Action)
    requires !a.Brisc?
    ensures Step(p, s, a).pc == s.pc
  {
  }

  /** However the others interleave: an owed answer is given before BRISC has ended a second
      sweep (the one in progress may have passed the generation already). */
  lemma BumpIsAnswered(p: Policy, acts: seq<Action>, more: seq<Action>, i: nat, j: nat) returns (k: nat)
    requires i < j < |more| && EndsAt(p, acts, more, i) && EndsAt(p, acts, more, j)
    ensures k <= |more| && !Owed(Run(p, acts + more[..k]))
  {
    if OwedFrom(p, acts, more, i + 1) {
      NoEndWhileOwed(p, acts, more, i + 1, j);
      assert false;
    } else {
      k :| i + 1 <= k <= |more| && !Owed(Run(p, acts + more[..k]));
    }
  }
}
