/** Run without interruption, the load-and-store steps of BRISC amount to one `Sweep`. */
module SweepRefinement {
  import opened Words
  import opened QueueEngine
  import opened QueueSteps

  lemma Unfold(p: Policy, s: Sys, n: Sys)
    requires !s.pc.RdSel? && n == BriscMicro(p, s)
    ensures Finish(p, s) == Finish(p, n)
  {
  }

  lemma RescueReads(p: Policy, s: Sys)
    requires s.pc.RescueRead? && s.pc.caps == s.d.fields[..|s.pc.caps|]
    ensures Finish(p, s) == Finish(p, s.(pc := RescueRead(s.pc.l, s.d.fields)))
    decreases 7 - |s.pc.caps|
  {
    if |s.pc.caps| < 7 {
      RescueReads(p, BriscMicro(p, s));
    } else {
      assert s.pc.caps == s.d.fields;
    }
  }

  lemma CaptureReads(p: Policy, s: Sys)
    requires s.pc.CaptureRead? && s.pc.caps == s.d.fields[..|s.pc.caps|]
    ensures Finish(p, s) == Finish(p, s.(pc := CaptureRead(s.pc.l, s.pc.r, s.d.fields)))
    decreases 7 - |s.pc.caps|
  {
    if |s.pc.caps| < 7 {
      CaptureReads(p, BriscMicro(p, s));
    } else {
      assert s.pc.caps == s.d.fields;
    }
  }

  function WithFields(sh: Shadow, q: u32, f: Fields): Shadow
    requires q < 8
  {
    sh[q := sh[q].(fields := f)]
  }

  lemma RescueStores(p: Policy, s: Sys)
    requires s.pc.RescueStore? && s.d.snapSel < 8 && s.pc.k <= 7
    requires s.d.shadow[s.d.snapSel].fields[..s.pc.k] == s.pc.all[..s.pc.k]
    ensures Finish(p, s) == Finish(p, s.(d := s.d.(shadow := WithFields(s.d.shadow, s.d.snapSel, s.pc.all)),
                                         pc := RescueStore(s.pc.l, s.pc.all, 7)))
    decreases 7 - s.pc.k
  {
    var q := s.d.snapSel;
    if s.pc.k < 7 {
      var n := BriscMicro(p, s);
      RescueStores(p, n);
      assert WithFields(n.d.shadow, q, s.pc.all) == WithFields(s.d.shadow, q, s.pc.all);
    } else {
      assert s.d.shadow[q].fields == s.pc.all;
      assert WithFields(s.d.shadow, q, s.pc.all) == s.d.shadow;
    }
  }

  lemma CaptureStores(p: Policy, s: Sys)
    requires s.pc.CaptureStore? && s.pc.l < 8 && s.pc.k <= 7
    requires s.d.shadow[s.pc.l].fields[..s.pc.k] == s.pc.all[..s.pc.k]
    ensures Finish(p, s) == Finish(p, s.(d := s.d.(shadow := WithFields(s.d.shadow, s.pc.l, s.pc.all)),
                                         pc := CaptureStore(s.pc.l, s.pc.r, s.pc.all, 7)))
    decreases 7 - s.pc.k
  {
    var q := s.pc.l;
    if s.pc.k < 7 {
      var n := BriscMicro(p, s);
      CaptureStores(p, n);
      assert WithFields(n.d.shadow, q, s.pc.all) == WithFields(s.d.shadow, q, s.pc.all);
    } else {
      assert s.d.shadow[q].fields == s.pc.all;
      assert WithFields(s.d.shadow, q, s.pc.all) == s.d.shadow;
    }
  }

  /** Whether the sweep that starts in `d` takes the rescue path. */
  predicate Rescues(d: Dev) {
    d.sel != d.snapSel && d.sel < 8 && d.snapSel < 8 && d.shadow[d.snapSel].ready == 0 && d.fields[0] != 0
  }

  function RescuedAfter(s: Sys): map<u32, Fields> {
    if Rescues(s.d) then s.rescued[s.d.snapSel := s.d.fields] else s.rescued
  }

  lemma RescuePart(p: Policy, s: Sys)
    requires s.pc.SelShadow? && s.pc.l == s.d.sel < 8 && s.d.sel != s.d.snapSel
    ensures var sh: Shadow := if Rescues(s.d) then s.d.shadow[s.d.snapSel := Queue(s.d.fields, 1)] else s.d.shadow;
      Finish(p, s) == Finish(p, s.(d := s.d.(shadow := sh), pc := SelNumMax(s.pc.l), rescued := RescuedAfter(s)))
  {
    var d := s.d;
    if d.snapSel < 8 && d.shadow[d.snapSel].ready == 0 {
      var s1 := BriscMicro(p, s);
      RescueReads(p, s1);
      var s2 := s1.(pc := RescueRead(s.pc.l, d.fields));
      if d.fields[0] != 0 {
        var s3 := BriscMicro(p, s2);
        RescueStores(p, s3);
        var s4 := s3.(d := d.(shadow := WithFields(d.shadow, d.snapSel, d.fields)), pc := RescueStore(s.pc.l, d.fields, 7));
        assert BriscMicro(p, s4).d.shadow == d.shadow[d.snapSel := Queue(d.fields, 1)];
      }
    }
  }

  lemma SelPart(p: Policy, s: Sys)
    requires s.pc.RdSel?
    ensures Finish(p, BriscMicro(p, s))
         == Finish(p, s.(d := OnSel(s.d, p.numQueues), pc := RdReady(s.d.sel), rescued := RescuedAfter(s)))
  {
    var d := s.d;
    var s1 := BriscMicro(p, s);
    if d.sel == d.snapSel {
    } else if d.sel >= 8 {
      assert BriscMicro(p, s1) == s.(d := OnSel(d, p.numQueues), pc := RdReady(d.sel), rescued := RescuedAfter(s));
    } else {
      var s2 := BriscMicro(p, s1);
      RescuePart(p, s2);
      var sh: Shadow := if Rescues(d) then d.shadow[d.snapSel := Queue(d.fields, 1)] else d.shadow;
      var s3 := s2.(d := s2.d.(shadow := sh), pc := SelNumMax(d.sel), rescued := RescuedAfter(s));
      var s4 := BriscMicro(p, s3);
      var s5 := BriscMicro(p, s4);
      var s6 := BriscMicro(p, s5);
      Unfold(p, s1, s2); Unfold(p, s3, s4); Unfold(p, s4, s5); Unfold(p, s5, s6);
      assert s6.d == OnSel(d, p.numQueues);
    }
  }

  function CapturedAfter(s: Sys): set<u32> {
    if s.d.ready != 0 && s.d.sel < 8 then s.captured + {s.d.sel} else s.captured
  }

  lemma CaptureEnd(p: Policy, s: Sys)
    requires s.pc.CaptureStore? && s.pc.k == 7 && s.pc.l < 8
    ensures Finish(p, s)
         == Finish(p, s.(d := s.d.(shadow := SetReady(s.d.shadow, s.pc.l, s.pc.r), ready := 0),
                         pc := RdNotify, captured := s.captured + {s.pc.l}))
  {
    var s1 := BriscMicro(p, s);
    var s2 := BriscMicro(p, s1);
    Unfold(p, s, s1); Unfold(p, s1, s2); Unfold(p, s2, BriscMicro(p, s2));
  }

  lemma CapturePart(p: Policy, s: Sys)
    requires s.pc == CaptureRead(s.d.sel, s.d.ready, []) && s.d.sel < 8 && s.d.ready != 0
    ensures Finish(p, s) == Finish(p, s.(d := OnReady(s.d), pc := RdNotify, captured := s.captured + {s.d.sel}))
  {
    var d := s.d;
    CaptureReads(p, s);
    var s1 := s.(pc := CaptureRead(d.sel, d.ready, d.fields));
    var s2 := s.(pc := CaptureStore(d.sel, d.ready, d.fields, 0));
    Unfold(p, s1, s2);
    CaptureStores(p, s2);
    var sh := WithFields(d.shadow, d.sel, d.fields);
    CaptureEnd(p, s.(d := d.(shadow := sh), pc := CaptureStore(d.sel, d.ready, d.fields, 7)));
    assert SetReady(sh, d.sel, d.ready) == OnReady(d).shadow;
  }

  lemma ReadyPart(p: Policy, s: Sys)
    requires s.pc == RdReady(s.d.sel)
    ensures Finish(p, s) == Finish(p, s.(d := OnReady(s.d), pc := RdNotify, captured := CapturedAfter(s)))
  {
    var s1 := BriscMicro(p, s);
    Unfold(p, s, s1);
    if s.d.ready != 0 {
      if s.d.sel < 8 {
        CapturePart(p, s1);
      } else {
        Unfold(p, s1, BriscMicro(p, s1));
      }
    }
  }

  lemma GenPart(p: Policy, s: Sys)
    requires s.pc == RdGen
    ensures Finish(p, s) == s.(d := OnGen(s.d), pc := RdSel)
  {
    var s1 := BriscMicro(p, s);
    Unfold(p, s, s1);
    if s.d.gen != s.d.snapGen {
      var s2 := BriscMicro(p, s1);
      Unfold(p, s1, s2); Unfold(p, s2, BriscMicro(p, s2));
    }
  }

  lemma NotifyPart(p: Policy, s: Sys)
    requires s.pc == RdNotify
    ensures Finish(p, s) == Finish(p, s.(d := OnNotify(s.d), pc := RdGen))
  {
    var s1 := BriscMicro(p, s);
    Unfold(p, s, s1);
    if s.d.notify != NO_NOTIFY {
      var s2 := BriscMicro(p, s1);
      Unfold(p, s1, s2); Unfold(p, s2, BriscMicro(p, s2));
    }
  }

  lemma TailPart(p: Policy, s: Sys)
    requires s.pc == RdNotify
    ensures Finish(p, s) == s.(d := OnGen(OnNotify(s.d)), pc := RdSel)
  {
    NotifyPart(p, s);
    GenPart(p, s.(d := OnNotify(s.d), pc := RdGen));
  }

  /** The refinement: from the top of the loop, BRISC's steps with nothing in between
      change the slot exactly as `Sweep` says and touch nothing else of the machine. */
  lemma UninterruptedIsSweep(p: Policy, s: Sys)
    requires s.pc.RdSel?
    ensures Finish(p, BriscMicro(p, s))
         == s.(d := Sweep(s.d, p.numQueues), rescued := RescuedAfter(s),
               captured := CapturedAfter(s.(d := OnSel(s.d, p.numQueues))))
  {
    SelPart(p, s);
    var s1 := s.(d := OnSel(s.d, p.numQueues), pc := RdReady(s.d.sel), rescued := RescuedAfter(s));
    ReadyPart(p, s1);
    TailPart(p, s1.(d := OnReady(s1.d), pc := RdNotify, captured := CapturedAfter(s1)));
  }
}
