/** One virtio-mmio slot: the visible register file, BRISC's shadow of it, and one
    uninterrupted call of `poll_one_device` on them. */
module QueueEngine {
  import opened Words

  const QUEUE_NUM_MAX: u32 := 256
  const NO_NOTIFY: u32 := 0xFFFF_FFFF

  /** The seven SEL-multiplexed setup registers: NUM, then the low and high halves
      of the descriptor, driver and device areas. */
  type Fields = f: seq<u32> | |f| == 7 witness [0, 0, 0, 0, 0, 0, 0]
  const NO_FIELDS: Fields := [0, 0, 0, 0, 0, 0, 0]

  datatype Queue = Queue(fields: Fields, ready: u32)
  const NO_QUEUE: Queue := Queue(NO_FIELDS, 0)

  type Shadow = s: seq<Queue> | |s| == 8 ghost witness seq(8, _ => NO_QUEUE)

  /** The words of L1 that belong to one slot. `dirty` holds the queues whose
      dirty byte is set. */
  datatype Dev = Dev(
    sel: u32, ready: u32, fields: Fields, numMax: u32, notify: u32, gen: u32,
    shadow: Shadow, snapSel: u32, snapGen: u32, dirty: set<u32>)

  /** What `init_device` leaves behind. */
  function Reset(): Dev {
    Dev(0, 0, NO_FIELDS, QUEUE_NUM_MAX, NO_NOTIFY, 0, seq(8, _ => NO_QUEUE), 0, 0, {})
  }

  function SetField(sh: Shadow, q: u32, k: nat, v: u32): Shadow {
    if q < 8 && k < 7 then sh[q := sh[q].(fields := sh[q].fields[k := v])] else sh
  }

  function SetReady(sh: Shadow, q: u32, r: u32): Shadow {
    if q < 8 then sh[q := sh[q].(ready := r)] else sh
  }

  /** `handle_queue_sel_change(prev, sel)`. */
  function SelChange(d: Dev, prev: u32, sel: u32, numQueues: nat): Dev {
    if sel >= 8 then d
    else
      var rescue := prev < 8 && d.shadow[prev].ready == 0 && d.sel == sel && d.fields[0] != 0;
      var sh: Shadow := if rescue then d.shadow[prev := Queue(d.fields, 1)] else d.shadow;
      d.(ready := 0, shadow := sh,
         numMax := if sel < numQueues then QUEUE_NUM_MAX else 0,
         fields := d.fields[0 := sh[sel].fields[0]])
  }

  /** `handle_queue_ready_change(sel, ready)`. */
  function ReadyChange(d: Dev, sel: u32, ready: u32): Dev {
    if sel >= 8 then d
    else if ready == 0 then d.(shadow := d.shadow[sel := NO_QUEUE])
    else
      var f := if d.sel == sel then d.fields else d.shadow[sel].fields;
      d.(shadow := d.shadow[sel := Queue(f, ready)])
  }

  function OnSel(d: Dev, numQueues: nat): Dev {
    if d.sel == d.snapSel then d
    else SelChange(d, d.snapSel, d.sel, numQueues).(snapSel := d.sel)
  }

  function OnReady(d: Dev): Dev {
    if d.ready == 0 then d else ReadyChange(d, d.sel, d.ready).(ready := 0)
  }

  function OnNotify(d: Dev): Dev {
    if d.notify == NO_NOTIFY then d
    else d.(notify := NO_NOTIFY, dirty := if d.notify < 8 then d.dirty + {d.notify} else d.dirty)
  }

  function OnGen(d: Dev): Dev {
    if d.gen == d.snapGen then d
    else d.(gen := WrapAdd(d.gen, 1), snapGen := WrapAdd(d.gen, 1))
  }

  /** One uninterrupted `poll_one_device`. */
  function Sweep(d: Dev, numQueues: nat): Dev {
    OnGen(OnNotify(OnReady(OnSel(d, numQueues))))
  }

  /** The SEL handler on a queue in range: QUEUE_READY reads 0, QUEUE_NUM is what the selected
      queue's shadow holds, a queue not yet stored is stored with READY 1 if QUEUE_SEL stands still
      and its NUM is nonzero, and no other queue's shadow changes. */
  lemma SelChangeLeaves(d: Dev, prev: u32, sel: u32, numQueues: nat, q: u32)
    requires prev != sel && q < 8
    ensures var r := SelChange(d, prev, sel, numQueues);
      && (sel >= 8 ==> r == d)
      && (sel < 8 ==> r.ready == 0 && r.fields[0] == d.shadow[sel].fields[0] && r.fields[1..] == d.fields[1..]
                      && (sel < numQueues ==> r.numMax == QUEUE_NUM_MAX) && (sel >= numQueues ==> r.numMax == 0))
      && (r.shadow[q] != d.shadow[q] ==>
            q == prev && d.shadow[q].ready == 0 && d.sel == sel && d.fields[0] != 0 && r.shadow[q] == Queue(d.fields, 1))
      && (sel < 8 && q == prev && d.shadow[q].ready == 0 && d.sel == sel && d.fields[0] != 0 ==>
            r.shadow[q] == Queue(d.fields, 1))
  {
  }

  /** The READY handler: a nonzero READY stores the seven registers and READY unless QUEUE_SEL has
      moved, then READY alone; 0 clears the queue; no other queue's shadow changes. */
  lemma ReadyChangeLeaves(d: Dev, sel: u32, ready: u32, q: u32)
    requires q < 8
    ensures var r := ReadyChange(d, sel, ready);
      && r == d.(shadow := r.shadow) && (q != sel ==> r.shadow[q] == d.shadow[q])
      && (q == sel ==> r.shadow[q].ready == ready)
      && (q == sel && ready == 0 ==> r.shadow[q].fields == NO_FIELDS)
      && (q == sel == d.sel && ready != 0 ==> r.shadow[q].fields == d.fields)
      && (q == sel != d.sel && ready != 0 ==> r.shadow[q].fields == d.shadow[q].fields)
  {
  }

  /** What a sweep leaves: a settled queue with QUEUE_READY set is stored; a notify below 8 marks its queue dirty and no
      mark is taken away; QUEUE_NOTIFY and QUEUE_READY are clear; a newly selected queue shows the
      NUM its shadow holds; an open bump of the generation is answered. */
  lemma SweepLeaves(d: Dev, numQueues: nat)
    ensures var r := Sweep(d, numQueues);
      && r.dirty == (if d.notify < 8 then d.dirty + {d.notify} else d.dirty)
      && r.notify == NO_NOTIFY && r.ready == 0 && r.snapSel == r.sel == d.sel
      && r.gen == r.snapGen == (if d.gen == d.snapGen then d.gen else WrapAdd(d.gen, 1))
      && (d.sel < 8 && d.sel != d.snapSel ==> r.fields == d.fields[0 := d.shadow[d.sel].fields[0]])
      && (d.sel == d.snapSel < 8 && d.ready != 0 ==> r.shadow == d.shadow[d.sel := Queue(d.fields, d.ready)])
      && (d.sel == d.snapSel && d.ready == 0 ==> r.shadow == d.shadow)
  {
  }

  /** The register file as the firmware updates it in place. */
  class RegisterFile {
    var sel: u32
    var ready: u32
    var fields: Fields
    var numMax: u32
    var notify: u32
    var gen: u32
    var shadow: Shadow
    var snapSel: u32
    var snapGen: u32
    var dirty: set<u32>
    const numQueues: nat

    constructor (numQueues: nat)
      ensures View() == Reset() && this.numQueues == numQueues
    {
      sel, ready, fields, numMax, notify, gen := 0, 0, NO_FIELDS, QUEUE_NUM_MAX, NO_NOTIFY, 0;
      shadow := seq(8, _ => NO_QUEUE);
      snapSel, snapGen, dirty := 0, 0, {};
      this.numQueues := numQueues;
    }

    ghost function View(): Dev
      reads this
    {
      Dev(sel, ready, fields, numMax, notify, gen, shadow, snapSel, snapGen, dirty)
    }

    method Snapshot() returns (cap: Fields)
      ensures cap == fields
    {
      var c: seq<u32> := [];
      while |c| < 7
        invariant |c| <= 7 && c == fields[..|c|]
      {
        c := c + [fields[|c|]];
      }
      cap := c;
    }

    method Commit(q: u32, cap: Fields)
      requires q < 8
      modifies this`shadow
      ensures shadow == old(shadow)[q := old(shadow)[q].(fields := cap)]
    {
      var f := 0;
      while f < 7
        invariant 0 <= f <= 7
        invariant shadow[q].fields[..f] == cap[..f]
        invariant shadow == old(shadow)[q := old(shadow)[q].(fields := shadow[q].fields)]
      {
        shadow := SetField(shadow, q, f, cap[f]);
        f := f + 1;
      }
      assert shadow[q].fields == shadow[q].fields[..7] == cap[..7] == cap;
    }

    method HandleQueueSelChange(oldSel: u32, newSel: u32)
      modifies this
      ensures View() == SelChange(old(View()), oldSel, newSel, numQueues)
    {
      if newSel >= 8 {
        return;
      }
      ready := 0;
      if oldSel < 8 && shadow[oldSel].ready == 0 {
        var cap := Snapshot();
        if sel == newSel && cap[0] != 0 {
          Commit(oldSel, cap);
          shadow := SetReady(shadow, oldSel, 1);
        }
      }
      numMax := if newSel < numQueues then QUEUE_NUM_MAX else 0;
      fields := fields[0 := shadow[newSel].fields[0]];
    }

    method HandleQueueReadyChange(atSel: u32, newReady: u32)
      modifies this
      ensures View() == ReadyChange(old(View()), atSel, newReady)
    {
      if atSel >= 8 {
        return;
      }
      if newReady != 0 {
        var cap := Snapshot();
        if sel == atSel {
          Commit(atSel, cap);
        }
      }
      shadow := SetReady(shadow, atSel, newReady);
      if newReady == 0 {
        Commit(atSel, NO_FIELDS);
      }
    }

    method PollOneDevice()
      modifies this
      ensures View() == Sweep(old(View()), numQueues)
      ensures dirty == if old(notify) < 8 then old(dirty) + {old(notify)} else old(dirty)
    {
      SweepLeaves(View(), numQueues);
      var s := sel;
      if s != snapSel {
        HandleQueueSelChange(snapSel, s);
        snapSel := s;
      }
      if ready != 0 {
        HandleQueueReadyChange(s, ready);
        ready := 0;
      }
      if notify != NO_NOTIFY {
        if notify < 8 {
          dirty := dirty + {notify};
        }
        notify := NO_NOTIFY;
      }
      if gen != snapGen {
        var next := WrapAdd(gen, 1);
        gen := next;
        snapGen := next;
      }
    }
  }
}
