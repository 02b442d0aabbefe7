/** Building blocks for runs: whole sweeps, and a guest that sets one queue up. */
module Schedules {
  import opened Words
  import opened QueueEngine
  import opened QueueSteps
  import opened SweepRefinement

  const FIRST: Fields := [1, 10, 11, 12, 13, 14, 15]
  const SECOND: Fields := [2, 20, 21, 22, 23, 24, 25]

  ghost predicate AllBrisc(acts: seq<Action>) {
    forall k :: 0 <= k < |acts| ==> acts[k].Brisc?
  }

  /** BRISC takes steps by itself until the current sweep ends. */
  lemma {:induction false} RunToEnd(p: Policy, acts: seq<Action>) returns (tail: seq<Action>)
    ensures Run(p, acts + tail) == Finish(p, Run(p, acts)) && AllBrisc(tail)
    decreases Rank(Run(p, acts).pc)
  {
    var s := Run(p, acts);
    if s.pc.RdSel? {
      tail := [];
      assert acts + tail == acts;
    } else {
      Do(p, acts, Brisc);
      MicroDescends(p, s);
      var rest := RunToEnd(p, acts + [Brisc]);
      tail := [Brisc] + rest;
      assert acts + [Brisc] + rest == acts + tail;
    }
  }

  /** The sweep in progress to its end, or a whole one. */
  lemma OneSweep(p: Policy, acts: seq<Action>) returns (tail: seq<Action>)
    ensures Run(p, acts + tail) == Finish(p, BriscMicro(p, Run(p, acts)))
    ensures AllBrisc(tail) && tail != []
  {
    Do(p, acts, Brisc);
    var rest := RunToEnd(p, acts + [Brisc]);
    tail := [Brisc] + rest;
    assert acts + [Brisc] + rest == acts + tail;
  }

  /** BRISC loads an unchanged QUEUE_SEL and then QUEUE_READY. */
  lemma TwoLoads(p: Policy, acts: seq<Action>)
    requires var s := Run(p, acts); s.pc.RdSel? && s.d.sel == s.d.snapSel && s.d.sel < 8
    ensures var s := Run(p, acts);
      Run(p, acts + [Brisc] + [Brisc])
      == s.(pc := if s.d.ready == 0 then RdNotify else CaptureRead(s.d.sel, s.d.ready, []))
  {
    Do(p, acts, Brisc);
    Do(p, acts + [Brisc], Brisc);
  }

  /** The guest can make an access now. */
  predicate Free(p: Policy, s: Sys) {
    p.apart ==> s.pc.RdSel?
  }

  predicate HasTurn(g: Guest) {
    HasEcho(g) && !g.readied
  }

  /** The guest has written the first `k` setup registers of its queue. */
  function Wrote(s: Sys, vals: Fields, k: nat): Sys
    requires k <= 7
  {
    s.(d := s.d.(fields := vals[..k] + s.d.fields[k..]), g := s.g.(done := Below(k)))
  }

  lemma {:induction false} WriteFields(p: Policy, acts: seq<Action>, vals: Fields, k: nat) returns (r: seq<Action>)
    requires k <= 7
    requires var s := Run(p, acts);
      Free(p, s) && HasTurn(s.g) && s.g.done == {} && s.d.sel in s.g.hist && s.g.hist[s.d.sel] == vals
    ensures Run(p, r) == Wrote(Run(p, acts), vals, k)
    decreases k
  {
    var s := Run(p, acts);
    if k == 0 {
      r := acts;
      assert vals[..0] + s.d.fields[0..] == s.d.fields;
    } else {
      r := WriteFields(p, acts, vals, k - 1);
      Do(p, r, WriteField(k - 1));
      r := r + [WriteField(k - 1)];
      WroteOne(p, s, vals, k);
    }
  }

  lemma WroteOne(p: Policy, s: Sys, vals: Fields, k: nat)
    requires 0 < k <= 7 && Free(p, s) && HasTurn(s.g) && s.d.sel in s.g.hist && s.g.hist[s.d.sel] == vals
    ensures Step(p, Wrote(s, vals, k - 1), WriteField(k - 1)) == Wrote(s, vals, k)
  {
    FieldLands(s.d.fields, vals, k);
    assert Below(k - 1) + {k - 1} == Below(k);
  }

  lemma FieldLands(fields: Fields, vals: Fields, k: nat)
    requires 0 < k <= 7
    ensures (vals[..k - 1] + fields[k - 1..])[k - 1 := vals[k - 1]] == vals[..k] + fields[k..]
  {
  }

  /** The guest has written all seven registers and QUEUE_READY. */
  function Readied(s: Sys, vals: Fields): Sys {
    s.(d := s.d.(fields := vals, ready := 1),
       g := s.g.(done := Below(7), readied := true, complete := s.g.complete + {s.d.sel}))
  }

  lemma ReadyNow(p: Policy, acts: seq<Action>) returns (r: seq<Action>)
    requires var s := Run(p, acts);
      Free(p, s) && HasTurn(s.g) && s.g.done == Below(7) && (p.prompt ==> CaughtUp(s))
    ensures Run(p, r) == Readied(Run(p, acts), Run(p, acts).d.fields)
  {
    Do(p, acts, WriteReady);
    r := acts + [WriteReady];
  }

  lemma WriteAndReady(p: Policy, acts: seq<Action>, vals: Fields) returns (r: seq<Action>)
    requires var s := Run(p, acts);
      && Free(p, s) && HasTurn(s.g) && s.g.done == {} && s.d.sel in s.g.hist && s.g.hist[s.d.sel] == vals
      && (p.prompt ==> CaughtUp(s))
    ensures Run(p, r) == Readied(Run(p, acts), vals)
  {
    r := WriteFields(p, acts, vals, 7);
    AllWrote(Run(p, acts), vals);
    r := ReadyNow(p, r);
  }

  lemma AllWrote(s: Sys, vals: Fields)
    ensures var w := Wrote(s, vals, 7); w.d.fields == vals && Readied(w, vals) == Readied(s, vals)
  {
    assert vals[..7] + s.d.fields[7..] == vals;
  }

  /** Nothing has happened but that the guest selected queue `q` and, if it runs the handshake,
      got its echo; BRISC stands at the top of a sweep. */
  predicate Fresh(p: Policy, s: Sys, q: u32, vals: Fields) {
    && s.pc.RdSel? && HasTurn(s.g) && s.g.done == {} && s.g.hist == map[q := vals] && s.g.complete == {}
    && s.d == Reset().(sel := q, snapSel := if p.echo then q else 0, numMax := s.d.numMax,
                       gen := s.d.gen, snapGen := s.d.gen)
    && s.d.gen <= 2 && s.t == Watch && s.lastQsel == 0
    && s.rescued == map[] && s.captured == {} && s.aborted == map[]
  }

  lemma SelectFirst(p: Policy, q: u32, vals: Fields) returns (r: seq<Action>)
    requires q < 8
    ensures Fresh(p, Run(p, r), q, vals)
  {
    var a := Select(q, vals);
    Do(p, [], a);
    r := [a];
    assert [] + [a] == r;
    if p.echo {
      r := FirstEcho(p, r, q);
    }
  }

  /** The first bump, the sweep that answers it, and the poll that sees the answer. */
  lemma FirstEcho(p: Policy, acts: seq<Action>, q: u32) returns (r: seq<Action>)
    requires q < 8 && Run(p, acts).d == Reset().(sel := q) && Run(p, acts).pc.RdSel? && Run(p, acts).g.mustBump
    ensures var s, t := Run(p, acts), Run(p, r);
      && t.d == s.d.(snapSel := q, numMax := t.d.numMax, gen := 2, snapGen := 2)
      && t == s.(d := t.d, g := t.g) && t.g == s.g.(mustBump := false, waiting := false, wrote := 1)
  {
    Do(p, acts, Bump);
    r := acts + [Bump];
    FirstSweep(p, Run(p, r), q);
    var tail := OneSweep(p, r);
    r := r + tail;
    Do(p, r, PollGen);
    r := r + [PollGen];
  }

  /** A sweep that finds a first QUEUE_SEL and its bump. */
  lemma FirstSweep(p: Policy, s: Sys, q: u32)
    requires q < 8 && s.pc.RdSel? && s.d == Reset().(sel := q, gen := 1)
    ensures var t := Finish(p, BriscMicro(p, s));
      t == s.(d := s.d.(snapSel := q, numMax := t.d.numMax, gen := 2, snapGen := 2))
  {
    UninterruptedIsSweep(p, s);
    assert NO_FIELDS[0 := 0] == NO_FIELDS;
  }
}
