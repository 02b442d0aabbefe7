/** The control page's DIRTY and PROCESSED tables and the daemon's first-pass scan. */
module DirtyScan {
  import opened Words

  const CTRL_BASE := 0x5000
  const CTRL_SIZE := 0x1000
  const OFF_DIRTY := 0x100
  const OFF_PROCESSED := 0x200
  const OFF_END := 0x400
  const MAX_QUEUES := 8
  const NUM_SLOTS := 32

  datatype Pair = Pair(slot: nat, queue: nat)

  predicate InTable(p: Pair) {
    p.slot < NUM_SLOTS && p.queue < MAX_QUEUES
  }

  /** `dirty_byte_addr`. */
  function DirtyAddr(p: Pair): nat {
    CTRL_BASE + OFF_DIRTY + p.slot * MAX_QUEUES + p.queue
  }

  /** `processed_cursor_addr`. */
  function CursorAddr(p: Pair): nat {
    CTRL_BASE + OFF_PROCESSED + p.slot * MAX_QUEUES * 2 + p.queue * 2
  }

  predicate InDirty(a: int) {
    CTRL_BASE + OFF_DIRTY <= a < CTRL_BASE + OFF_PROCESSED
  }

  /** The pair a DIRTY byte belongs to. */
  function PairAt(a: int): Pair
    requires InDirty(a)
  {
    var o := a - (CTRL_BASE + OFF_DIRTY);
    Pair(o / MAX_QUEUES, o % MAX_QUEUES)
  }

  /** The DIRTY table is in bijection with the pairs. */
  lemma DirtyAddrBijective(p: Pair, a: int)
    ensures InTable(p) ==> InDirty(DirtyAddr(p)) && PairAt(DirtyAddr(p)) == p
    ensures InDirty(a) ==> InTable(PairAt(a)) && DirtyAddr(PairAt(a)) == a
  {
    if InTable(p) {
      var o := DirtyAddr(p) - (CTRL_BASE + OFF_DIRTY);
      assert o == 8 * p.slot + p.queue;
    }
    if InDirty(a) {
      var o := a - (CTRL_BASE + OFF_DIRTY);
      assert o == 8 * (o / 8) + o % 8;
    }
  }

  /** Cursors of different pairs do not overlap each other, the DIRTY table or the page's end, and they
      lie in the order of the DIRTY bytes. */
  lemma CursorsDisjoint(p: Pair, r: Pair)
    requires InTable(p) && InTable(r)
    ensures CTRL_BASE + OFF_PROCESSED <= CursorAddr(p) && CursorAddr(p) + 2 <= CTRL_BASE + OFF_END
    ensures OFF_END <= CTRL_SIZE
    ensures p != r ==> CursorAddr(p) + 2 <= CursorAddr(r) || CursorAddr(r) + 2 <= CursorAddr(p)
    ensures DirtyAddr(r) + 1 <= CursorAddr(p)
    ensures CursorAddr(p) == CTRL_BASE + OFF_PROCESSED + 2 * (DirtyAddr(p) - CTRL_BASE - OFF_DIRTY)
  {
    if p.slot < r.slot {
      assert p.slot * 8 + 8 <= r.slot * 8;
    } else if r.slot < p.slot {
      assert r.slot * 8 + 8 <= p.slot * 8;
    }
  }

  // ---- what the scan visits ----

  /** A registered slot with its queue count. */
  datatype Slot = Slot(slot: nat, queues: nat)

  function Count(s: Slot): nat {
    if s.queues < MAX_QUEUES then s.queues else MAX_QUEUES
  }

  function Row(slot: nat, n: nat): seq<Pair> {
    seq(n, q requires 0 <= q < n => Pair(slot, q))
  }

  /** All registered pairs, slot-major; those of slots in the table are in the table. */
  function Registered(slots: seq<Slot>): (ps: seq<Pair>)
    ensures (forall k :: 0 <= k < |slots| ==> slots[k].slot < NUM_SLOTS) ==> forall p :: p in ps ==> InTable(p)
  {
    if slots == [] then [] else
      Registered(slots[..|slots| - 1]) + Row(slots[|slots| - 1].slot, Count(slots[|slots| - 1]))
  }

  function DirtyIn(l1: seq<u8>, ps: seq<Pair>): seq<Pair>
    requires |l1| >= CTRL_BASE + CTRL_SIZE && forall p :: p in ps ==> InTable(p)
  {
    if ps == [] then [] else
      var p := ps[|ps| - 1];
      DirtyAddrBijective(p, 0);
      DirtyIn(l1, ps[..|ps| - 1]) + if l1[DirtyAddr(p)] != 0 then [p] else []
  }

  /** `b` is `a` with the DIRTY bytes of `ps` zero and every other byte the same. */
  ghost predicate ClearedOf(a: seq<u8>, b: seq<u8>, ps: seq<Pair>) {
    |a| == |b| && forall i :: 0 <= i < |a| ==> b[i] == if InDirty(i) && PairAt(i) in ps then 0 else a[i]
  }

  /** `b` is `a` after a notify of `p`: `p` is dirty if the table has it, every other pair is as it
      was, and so is every byte outside the table. */
  ghost predicate NotifiedOf(a: seq<u8>, b: seq<u8>, p: Pair) {
    && |a| == |b| >= CTRL_BASE + CTRL_SIZE
    && (forall r: Pair :: InTable(r) ==>
          0 <= DirtyAddr(r) < |a| && b[DirtyAddr(r)] == if r == p then 1 else a[DirtyAddr(r)])
    && (forall i :: 0 <= i < |a| && !InDirty(i) ==> b[i] == a[i])
  }

  ghost predicate Wellformed(slots: seq<Slot>) {
    && (forall k :: 0 <= k < |slots| ==> slots[k].slot < NUM_SLOTS)
    && (forall j, k :: 0 <= j < k < |slots| ==> slots[j].slot != slots[k].slot)
  }

  lemma InRow(slot: nat, n: nat, p: Pair)
    ensures p in Row(slot, n) <==> p.slot == slot && p.queue < n
  {
    if p.slot == slot && p.queue < n {
      assert Row(slot, n)[p.queue] == p;
    }
  }

  lemma {:induction false} RegisteredPairs(slots: seq<Slot>, p: Pair)
    ensures p in Registered(slots) <==>
      exists k :: 0 <= k < |slots| && slots[k].slot == p.slot && p.queue < slots[k].queues && p.queue < MAX_QUEUES
  {
    if slots == [] {
    } else {
      var n := |slots| - 1;
      RegisteredPairs(slots[..n], p);
      InRow(slots[n].slot, Count(slots[n]), p);
      if p in Registered(slots[..n]) {
        var k :| 0 <= k < n && slots[..n][k].slot == p.slot && p.queue < slots[..n][k].queues && p.queue < MAX_QUEUES;
        assert slots[k].slot == p.slot && p.queue < slots[k].queues;
      }
      forall k | 0 <= k < |slots| && slots[k].slot == p.slot && p.queue < slots[k].queues && p.queue < MAX_QUEUES
        ensures p in Registered(slots)
      {
        if k < n {
          assert slots[..n][k] == slots[k];
        }
      }
    }
  }

  /** The hits are exactly the dirty pairs among `ps`. */
  lemma {:induction false} DirtyInExact(l1: seq<u8>, ps: seq<Pair>, p: Pair)
    requires |l1| >= CTRL_BASE + CTRL_SIZE && (forall r :: r in ps ==> InTable(r)) && InTable(p)
    ensures DirtyAddr(p) < |l1|
    ensures p in DirtyIn(l1, ps) <==> p in ps && l1[DirtyAddr(p)] != 0
  {
    DirtyAddrBijective(p, 0);
    if ps == [] {
    } else {
      DirtyInExact(l1, ps[..|ps| - 1], p);
      assert ps == ps[..|ps| - 1] + [ps[|ps| - 1]];
    }
  }

  /** Each extra pair adds its byte to the cleared set and, when dirty, itself to the hits. */
  lemma ClearOne(a: seq<u8>, b: seq<u8>, ps: seq<Pair>, p: Pair)
    requires |a| >= CTRL_BASE + CTRL_SIZE && ClearedOf(a, b, ps) && InTable(p) && p !in ps
    requires forall r :: r in ps ==> InTable(r)
    ensures DirtyAddr(p) < |b| && b[DirtyAddr(p)] == a[DirtyAddr(p)]
    ensures ClearedOf(a, b[DirtyAddr(p) := 0], ps + [p])
    ensures DirtyIn(a, ps + [p]) == DirtyIn(a, ps) + if a[DirtyAddr(p)] != 0 then [p] else []
  {
    DirtyAddrBijective(p, 0);
    var c := b[DirtyAddr(p) := 0];
    forall i | 0 <= i < |a| ensures c[i] == if InDirty(i) && PairAt(i) in ps + [p] then 0 else a[i] {
      DirtyAddrBijective(p, i);
    }
    assert (ps + [p])[..|ps|] == ps;
  }

  /** A pair of a later row, or a later queue of the same row, has not been visited. */
  lemma NotYetVisited(slots: seq<Slot>, k: nat, q: nat)
    requires Wellformed(slots) && k < |slots|
    ensures Pair(slots[k].slot, q) !in Registered(slots[..k]) + Row(slots[k].slot, q)
  {
    RegisteredPairs(slots[..k], Pair(slots[k].slot, q));
  }

  /** What has been visited after the first `q` queues of slot `k`. */
  ghost function Visited(slots: seq<Slot>, k: nat, q: nat): seq<Pair>
    requires k < |slots|
  {
    Registered(slots[..k]) + Row(slots[k].slot, q)
  }

  lemma VisitedStep(slots: seq<Slot>, k: nat, q: nat)
    requires Wellformed(slots) && k < |slots| && q < Count(slots[k])
    ensures Visited(slots, k, q + 1) == Visited(slots, k, q) + [Pair(slots[k].slot, q)]
    ensures Pair(slots[k].slot, q) !in Visited(slots, k, q)
    ensures forall r :: r in Visited(slots, k, q + 1) ==> InTable(r)
  {
    NotYetVisited(slots, k, q);
    assert Row(slots[k].slot, q + 1) == Row(slots[k].slot, q) + [Pair(slots[k].slot, q)];
  }

  lemma RowDone(slots: seq<Slot>, k: nat)
    requires k < |slots|
    ensures Visited(slots, k, 0) == Registered(slots[..k])
    ensures Visited(slots, k, Count(slots[k])) == Registered(slots[..k + 1])
  {
    assert slots[..k + 1][..k] == slots[..k];
  }

  class ControlPage {
    const l1: array<u8>

    constructor (l1: array<u8>)
      ensures this.l1 == l1
    {
      this.l1 := l1;
    }

    ghost predicate Scanned(before: seq<u8>, hits: seq<Pair>, ps: seq<Pair>)
      reads l1
    {
      && |before| >= CTRL_BASE + CTRL_SIZE && (forall r :: r in ps ==> InTable(r))
      && ClearedOf(before, l1[..], ps) && hits == DirtyIn(before, ps)
    }

    /** `handle_queue_notify`: of all pairs exactly the notified one becomes dirty, an index of 8 or
        more marks nothing, and no byte outside the DIRTY table changes. */
    method HandleQueueNotify(slot: nat, q: nat)
      requires slot < NUM_SLOTS && l1.Length >= CTRL_BASE + CTRL_SIZE
      modifies l1
      ensures NotifiedOf(old(l1[..]), l1[..], Pair(slot, q))
    {
      DirtyAddrBijective(Pair(slot, q), 0);
      if q < MAX_QUEUES {
        l1[CTRL_BASE + OFF_DIRTY + slot * MAX_QUEUES + q] := 1;
      }
      forall p: Pair | InTable(p) && p != Pair(slot, q)
        ensures 0 <= DirtyAddr(p) < l1.Length && l1[DirtyAddr(p)] == old(l1[DirtyAddr(p)])
      {
        DirtyAddrBijective(p, 0);
      }
    }

    /** Read one byte, clear it if set, and record the hit. */
    method ScanOne(p: Pair, hits: seq<Pair>, ghost before: seq<u8>, ghost ps: seq<Pair>) returns (r: seq<Pair>)
      requires Scanned(before, hits, ps) && InTable(p) && p !in ps
      modifies l1
      ensures Scanned(before, r, ps + [p])
    {
      ClearOne(before, l1[..], ps, p);
      r := hits;
      if l1[DirtyAddr(p)] != 0 {
        l1[DirtyAddr(p)] := 0;
        r := r + [p];
      }
      assert l1[..] == old(l1[..])[DirtyAddr(p) := 0];
    }

    /** `collect_dirty_pairs`: the hits are the dirty registered pairs in slot-major order;
        afterwards every registered pair is clean and every other byte of L1 is as it was. */
    method CollectDirtyPairs(slots: seq<Slot>) returns (hits: seq<Pair>)
      requires Wellformed(slots) && l1.Length >= CTRL_BASE + CTRL_SIZE
      modifies l1
      ensures Scanned(old(l1[..]), hits, Registered(slots))
    {
      hits := [];
      ghost var before := l1[..];
      for k := 0 to |slots|
        invariant Scanned(before, hits, Registered(slots[..k]))
      {
        RowDone(slots, k);
        for q := 0 to Count(slots[k])
          invariant Scanned(before, hits, Visited(slots, k, q))
        {
          VisitedStep(slots, k, q);
          hits := ScanOne(Pair(slots[k].slot, q), hits, before, Visited(slots, k, q));
        }
      }
      assert slots[..|slots|] == slots;
    }
  }

  /** The scan in terms of slots: a pair is hit exactly when its slot is registered with more
      queues than its index, the index is below the table width, and its byte was set. */
  lemma HitsExact(l1: seq<u8>, slots: seq<Slot>, p: Pair)
    requires |l1| >= CTRL_BASE + CTRL_SIZE && Wellformed(slots) && InTable(p)
    ensures DirtyAddr(p) < |l1|
    ensures p in DirtyIn(l1, Registered(slots)) <==>
      l1[DirtyAddr(p)] != 0 && p.queue < 8
      && exists k :: 0 <= k < |slots| && slots[k].slot == p.slot && p.queue < slots[k].queues
  {
    DirtyInExact(l1, Registered(slots), p);
    RegisteredPairs(slots, p);
  }

  /** `p` comes before `r` in slot-major order: an earlier slot, or an earlier queue of the same slot. */
  ghost predicate Precedes(slots: seq<Slot>, p: Pair, r: Pair) {
    exists j, k :: 0 <= j <= k < |slots| && slots[j].slot == p.slot && slots[k].slot == r.slot
                   && (j == k ==> p.queue < r.queue)
  }

  ghost predicate InOrder(slots: seq<Slot>, ps: seq<Pair>) {
    forall i, j :: 0 <= i < j < |ps| ==> Precedes(slots, ps[i], ps[j])
  }

  lemma PrecedesMore(slots: seq<Slot>, p: Pair, r: Pair)
    requires slots != [] && Precedes(slots[..|slots| - 1], p, r)
    ensures Precedes(slots, p, r)
  {
    var s := slots[..|slots| - 1];
    var j, k :| 0 <= j <= k < |s| && s[j].slot == p.slot && s[k].slot == r.slot && (j == k ==> p.queue < r.queue);
    assert slots[j].slot == p.slot && slots[k].slot == r.slot;
  }

  lemma LastRowFollows(slots: seq<Slot>, p: Pair, q: nat)
    requires slots != [] && p in Registered(slots[..|slots| - 1])
    ensures Precedes(slots, p, Pair(slots[|slots| - 1].slot, q))
  {
    var s := slots[..|slots| - 1];
    RegisteredPairs(s, p);
    var k :| 0 <= k < |s| && s[k].slot == p.slot && p.queue < s[k].queues && p.queue < MAX_QUEUES;
    assert slots[k].slot == p.slot;
  }

  /** The pairs are visited in slot-major order. */
  lemma {:induction false} RegisteredInOrder(slots: seq<Slot>)
    ensures InOrder(slots, Registered(slots))
  {
    if slots == [] {
    } else {
      var n := |slots| - 1;
      var below, row := Registered(slots[..n]), Row(slots[n].slot, Count(slots[n]));
      RegisteredInOrder(slots[..n]);
      forall i, j | 0 <= i < j < |below + row| ensures Precedes(slots, (below + row)[i], (below + row)[j]) {
        if j < |below| {
          PrecedesMore(slots, below[i], below[j]);
        } else if i < |below| {
          LastRowFollows(slots, below[i], j - |below|);
        } else {
          assert slots[n].slot == row[i - |below|].slot;
        }
      }
    }
  }

  lemma {:induction false} DirtyAreVisited(l1: seq<u8>, ps: seq<Pair>, i: nat)
    requires |l1| >= CTRL_BASE + CTRL_SIZE && (forall p :: p in ps ==> InTable(p)) && i < |DirtyIn(l1, ps)|
    ensures DirtyIn(l1, ps)[i] in ps
  {
    if ps == [] {
    } else if i < |DirtyIn(l1, ps[..|ps| - 1])| {
      DirtyAreVisited(l1, ps[..|ps| - 1], i);
    }
  }

  lemma {:induction false} DirtyInOrder(l1: seq<u8>, slots: seq<Slot>, ps: seq<Pair>)
    requires |l1| >= CTRL_BASE + CTRL_SIZE && (forall p :: p in ps ==> InTable(p)) && InOrder(slots, ps)
    ensures InOrder(slots, DirtyIn(l1, ps))
  {
    if ps == [] {
    } else {
      var init := ps[..|ps| - 1];
      var hits := DirtyIn(l1, init);
      DirtyInOrder(l1, slots, init);
      forall i | 0 <= i < |hits| ensures Precedes(slots, hits[i], ps[|ps| - 1]) {
        DirtyAreVisited(l1, init, i);
        var k :| 0 <= k < |init| && init[k] == hits[i];
        assert ps[k] == hits[i];
      }
    }
  }

  /** The hits come slot by slot in the order of the slots, and queue by queue within a slot. */
  lemma HitsInOrder(l1: seq<u8>, slots: seq<Slot>)
    requires |l1| >= CTRL_BASE + CTRL_SIZE && Wellformed(slots)
    ensures InOrder(slots, DirtyIn(l1, Registered(slots)))
  {
    RegisteredInOrder(slots);
    DirtyInOrder(l1, slots, Registered(slots));
  }

  /** No scan touches a byte of a pair that is not registered, nor any PROCESSED cursor. */
  lemma OthersUntouched(a: seq<u8>, b: seq<u8>, slots: seq<Slot>, p: Pair)
    requires |a| >= CTRL_BASE + CTRL_SIZE && ClearedOf(a, b, Registered(slots)) && InTable(p)
    ensures CursorAddr(p) + 1 < |b| && DirtyAddr(p) < |b|
    ensures b[CursorAddr(p)] == a[CursorAddr(p)] && b[CursorAddr(p) + 1] == a[CursorAddr(p) + 1]
    ensures p !in Registered(slots) ==> b[DirtyAddr(p)] == a[DirtyAddr(p)]
  {
    CursorsDisjoint(p, p);
    DirtyAddrBijective(p, 0);
  }

  /** The next scan reports what it would have reported anyway and the notified pair if it is
      registered, and every PROCESSED cursor is as it was. */
  lemma NotifyIsScanned(a: seq<u8>, b: seq<u8>, slots: seq<Slot>, p: Pair, r: Pair)
    requires NotifiedOf(a, b, p) && Wellformed(slots) && InTable(r)
    ensures r in DirtyIn(b, Registered(slots)) <==>
      r in DirtyIn(a, Registered(slots)) || (r == p && r in Registered(slots))
    ensures CursorAddr(r) + 1 < |b|
    ensures b[CursorAddr(r)] == a[CursorAddr(r)] && b[CursorAddr(r) + 1] == a[CursorAddr(r) + 1]
  {
    DirtyInExact(a, Registered(slots), r);
    DirtyInExact(b, Registered(slots), r);
    CursorsDisjoint(r, r);
  }
}
