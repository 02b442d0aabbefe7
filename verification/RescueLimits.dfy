/** Where the rescue path stops being safe, shown by runs, and the exact condition. */
module RescueLimits {
  import opened Words
  import opened QueueEngine
  import opened QueueSteps
  import opened SweepRefinement
  import opened Schedules
  import SelRescue

  ghost predicate RescueSound(p: Policy) {
    forall acts :: SelRescue.RescuesOk(Run(p, acts))
  }

  /** A stock guest: it selects queue 1 and writes its NUM before any sweep, so the rescue of
      queue 0 stores queue 1's NUM. */
  lemma StockGuestIsMixed(p: Policy) returns (r: seq<Action>)
    requires !p.echo
    ensures !SelRescue.RescuesOk(Run(p, r))
  {
    r := SelectFirst(p, 0, FIRST);
    r := WriteAndReady(p, r, FIRST);
    Do(p, r, Select(1, SECOND));
    r := r + [Select(1, SECOND)];
    r := WriteFields(p, r, SECOND, 1);
    var s := Run(p, r);
    assert s.d.fields[0] == 2;
    UninterruptedIsSweep(p, s);
    var tail := OneSweep(p, r);
    r := r + tail;
    assert Run(p, r).rescued[0] == s.d.fields;
  }

  /** BRISC has read QUEUE_SEL = 0 and QUEUE_READY = 0 of a queue 0 that is about to be ready. */
  predicate Passed(s: Sys) {
    && s.pc == RdNotify && HasTurn(s.g) && s.g.done == Below(7) && s.g.hist == map[0 := FIRST] && s.g.complete == {}
    && s.d == Reset().(gen := s.d.gen, snapGen := s.d.gen, numMax := s.d.numMax, fields := FIRST) && s.d.gen <= 2
    && s.t == Watch && s.lastQsel == 0
  }

  lemma PastReady(p: Policy) returns (r: seq<Action>)
    requires !p.apart
    ensures Passed(Run(p, r))
  {
    r := SelectFirst(p, 0, FIRST);
    var s := Run(p, r);
    r := WriteFields(p, r, FIRST, 7);
    assert FIRST[..7] + s.d.fields[7..] == FIRST;
    TwoLoads(p, r);
    r := r + [Brisc] + [Brisc];
  }

  /** The guest has finished queue 0, selected queue 1 and bumped the generation since. */
  predicate Overtaken(s: Sys) {
    && s.pc == RdNotify && s.g.active && !s.g.mustBump && s.g.waiting && !s.g.readied && s.g.done == {}
    && s.g.hist == map[0 := FIRST, 1 := SECOND] && s.g.complete == {0} && s.g.wrote == s.d.gen
    && s.d == Reset().(sel := 1, ready := 1, fields := FIRST, numMax := s.d.numMax, gen := s.d.gen, snapGen := s.d.snapGen)
    && s.d.gen == s.d.snapGen + 1 <= 3
  }

  lemma GuestOvertakes(p: Policy) returns (r: seq<Action>)
    requires p.echo && !p.apart
    ensures Overtaken(Run(p, r))
  {
    r := PastReady(p);
    OvertakenFrom(Run(p, r));
    r := ReadyNow(p, r);
    r := SelectAndBump(p, r);
  }

  /** The guest selects queue 1 and bumps. */
  function Bumped(s: Sys): Sys {
    var n := WrapAdd(s.d.gen, 1);
    s.(d := s.d.(sel := 1, gen := n),
       g := s.g.(done := {}, readied := false, waiting := true, wrote := n, hist := s.g.hist[1 := SECOND]))
  }

  lemma OvertakenFrom(s: Sys)
    requires Passed(s)
    ensures Overtaken(Bumped(Readied(s, s.d.fields)))
  {
    assert map[0 := FIRST][1 := SECOND] == map[0 := FIRST, 1 := SECOND];
  }

  lemma SelectAndBump(p: Policy, acts: seq<Action>) returns (r: seq<Action>)
    requires p.echo && !p.apart && HasEcho(Run(p, acts).g) && Run(p, acts).d.sel == 0
    ensures Run(p, r) == Bumped(Run(p, acts))
  {
    Do(p, acts, Select(1, SECOND));
    Do(p, acts + [Select(1, SECOND)], Bump);
    r := acts + [Select(1, SECOND)] + [Bump];
  }

  /** A guest that waits for the echo, against a BRISC it can interleave with: the sweep that
      echoes read QUEUE_SEL before the guest's write, so the echo comes too early. */
  lemma EarlyEchoIsMixed(p: Policy) returns (r: seq<Action>)
    requires p.echo && !p.apart
    ensures !SelRescue.RescuesOk(Run(p, r))
  {
    r := GuestOvertakes(p);
    EchoesEarly(p, Run(p, r));
    var tail := RunToEnd(p, r);
    r := TooEarly(p, r + tail);
  }

  /** An echo for queue 1 that BRISC gave without seeing QUEUE_SEL = 1. */
  predicate Misled(s: Sys) {
    && s.pc.RdSel? && s.d.sel == 1 && s.d.snapSel == 0 && s.d.fields == FIRST && s.d.shadow[0].ready == 0
    && s.g.active && !s.g.mustBump && s.g.waiting && s.d.gen != s.g.wrote && !s.g.readied && s.g.done == {}
    && s.g.hist == map[0 := FIRST, 1 := SECOND] && 0 in s.g.complete
  }

  lemma EchoesEarly(p: Policy, s: Sys)
    requires Overtaken(s)
    ensures Misled(Finish(p, s))
  {
    TailPart(p, s);
  }

  lemma TooEarly(p: Policy, acts: seq<Action>) returns (r: seq<Action>)
    requires Misled(Run(p, acts))
    ensures !SelRescue.RescuesOk(Run(p, r))
  {
    Do(p, acts, PollGen);
    r := acts + [PollGen];
    r := WriteFields(p, r, SECOND, 1);
    var s := Run(p, r);
    assert s.d.fields[0] == 2;
    UninterruptedIsSweep(p, s);
    var tail := OneSweep(p, r);
    r := r + tail;
    assert Run(p, r).rescued[0] == s.d.fields;
  }

  /** Exactly when rescues are sound: the guest waits for the echo and keeps out of the sweeps.
      TRISC1 may do what it likes. */
  lemma RescueSoundIff(p: Policy)
    ensures RescueSound(p) <==> p.echo && p.apart
  {
    if p.echo && p.apart {
      forall acts
        ensures SelRescue.RescuesOk(Run(p, acts))
      {
        SelRescue.RescueRun(p, acts);
      }
    } else {
      var r: seq<Action>;
      if p.echo {
        r := EarlyEchoIsMixed(p);
      } else {
        r := StockGuestIsMixed(p);
      }
      assert !SelRescue.RescuesOk(Run(p, r));
    }
  }

  // ---- aborted captures ----

  lemma {:induction false} ReadToAbort(p: Policy, acts: seq<Action>) returns (r: seq<Action>)
    requires Run(p, acts).pc.CaptureRead? && Run(p, acts).pc.l < 8
    requires Run(p, acts).d.sel != Run(p, acts).pc.l
    ensures Run(p, acts).pc.l in Run(p, r).aborted && Run(p, r).captured == Run(p, acts).captured
    ensures Run(p, r).g == Run(p, acts).g
    decreases 7 - |Run(p, acts).pc.caps|
  {
    Do(p, acts, Brisc);
    r := acts + [Brisc];
    if |Run(p, acts).pc.caps| == 7 {
    } else {
      r := ReadToAbort(p, r);
    }
  }

  /** A guest access inside a sweep can abort the capture of a queue the guest finished. */
  lemma AbortHappens(p: Policy) returns (r: seq<Action>)
    requires !p.apart
    ensures var s := Run(p, r);
      0 in s.aborted && 0 !in s.captured && 0 in s.g.complete && 0 in s.g.hist && s.g.hist[0] == FIRST
  {
    r := MidCapture(p);
    var s := Run(p, r);
    Do(p, r, Select(1, SECOND));
    r := r + [Select(1, SECOND)];
    SelectMoves(p, s);
    r := ReadToAbort(p, r);
  }

  /** BRISC is about to read the registers of a queue 0 the guest has just finished. */
  predicate Capturing(s: Sys) {
    && s.pc == CaptureRead(0, 1, []) && s.d.sel == 0 && HasEcho(s.g) && s.captured == {}
    && s.g.complete == {0} && s.g.hist == map[0 := FIRST]
  }

  lemma MidCapture(p: Policy) returns (r: seq<Action>)
    ensures Capturing(Run(p, r))
  {
    r := SelectFirst(p, 0, FIRST);
    r := WriteAndReady(p, r, FIRST);
    TwoLoads(p, r);
    r := r + [Brisc] + [Brisc];
  }

  lemma SelectMoves(p: Policy, s: Sys)
    requires !p.apart && Capturing(s)
    ensures var t := Step(p, s, Select(1, SECOND));
      && t.d.sel == 1 && t.pc == s.pc && t.captured == {}
      && 0 in t.g.complete && 0 in t.g.hist && t.g.hist[0] == FIRST
  {
  }

  /** With the guest out of the sweeps, QUEUE_SEL does not move during one. */
  ghost predicate Still(s: Sys) {
    && s.aborted == map[]
    && (InSel(s.pc) || (InCapture(s.pc) && !s.pc.ClearReady?) ==> s.pc.l == s.d.sel)
  }

  lemma BriscKeepsStill(p: Policy, s: Sys)
    requires Still(s)
    ensures Still(BriscMicro(p, s))
  {
  }

  lemma {:induction false} ApartNeverAborts(p: Policy, acts: seq<Action>)
    requires p.apart
    ensures Still(Run(p, acts))
  {
    if acts == [] {
    } else {
      ApartNeverAborts(p, acts[..|acts| - 1]);
      if acts[|acts| - 1].Brisc? {
        BriscKeepsStill(p, Run(p, acts[..|acts| - 1]));
      }
    }
  }

  /** A finished queue's capture can be aborted, for good, exactly when guest accesses can fall
      inside a sweep. */
  lemma AbortIff(p: Policy)
    ensures (exists acts, q :: q in Run(p, acts).aborted && q !in Run(p, acts).captured && q in Run(p, acts).g.complete)
       <==> !p.apart
  {
    if p.apart {
      forall acts, q: u32
        ensures q !in Run(p, acts).aborted
      {
        ApartNeverAborts(p, acts);
      }
    } else {
      var r := AbortHappens(p);
      assert 0 in Run(p, r).aborted;
    }
  }
}
