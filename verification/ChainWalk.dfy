/** `process_one_chain_for_queue`: walking one descriptor chain of a guest-controlled table. */
module ChainWalk {
  import opened Words

  datatype Desc = Desc(addr: u64, len: u32, next: u16, more: bool)

  /** The guest memory window `[start, end)` and the queue's descriptor table. */
  datatype Table = Table(start: u64, end: u64, descs: seq<Desc>) {
    ghost predicate Valid() {
      1 <= |descs| <= 65535 && start <= end
    }
  }

  /** Which device callback gets a buffer: the request header, its data, or the last buffer. */
  datatype Kind = Start | Data | Complete

  /** A buffer handed to the device, as an offset into the guest window. */
  datatype Buffer = Buffer(kind: Kind, off: int, len: nat)

  datatype UsedElem = UsedElem(id: u32, len: u32)

  // ---- chains ----

  function At(t: Table, i: u16): Desc
    requires t.Valid()
  {
    t.descs[i % |t.descs|]
  }

  predicate InRange(t: Table, d: Desc) {
    t.start <= d.addr < t.end && d.addr as int + d.len as int <= t.end
  }

  predicate InMemory(t: Table, a: int) {
    t.start <= a < t.end
  }

  /** The address check accepts exactly the buffers that begin in guest memory and lie in it byte by
      byte. */
  lemma InRangeExact(t: Table, d: Desc)
    ensures InRange(t, d) <==>
      InMemory(t, d.addr) && forall a :: d.addr <= a < d.addr + d.len ==> InMemory(t, a)
  {
    if d.len > 0 && InMemory(t, d.addr) && d.addr + d.len > t.end {
      assert !InMemory(t, d.addr + d.len - 1);
    }
  }

  /** The index of the k-th descriptor of the chain. */
  function Hop(t: Table, first: u16, k: nat): u16
    requires t.Valid()
  {
    if k == 0 then first else At(t, Hop(t, first, k - 1)).next
  }

  function Nth(t: Table, first: u16, k: nat): Desc
    requires t.Valid()
  {
    At(t, Hop(t, first, k))
  }

  /** The first `n` descriptors lie in memory and each links on. */
  ghost predicate LinksOn(t: Table, first: u16, n: nat)
    requires t.Valid()
  {
    forall k: nat :: k < n ==> InRange(t, Nth(t, first, k)) && Nth(t, first, k).more
  }

  /** The chain's last descriptor is its n-th. No bound on `n` is assumed. */
  ghost predicate EndsAt(t: Table, first: u16, n: nat)
    requires t.Valid()
  {
    LinksOn(t, first, n) && InRange(t, Nth(t, first, n)) && !Nth(t, first, n).more
  }

  ghost predicate WellFormed(t: Table, first: u16)
    requires t.Valid()
  {
    exists n: nat :: EndsAt(t, first, n)
  }

  // ---- the step limit refuses no chain that ends ----

  lemma SubsetSize(a: set<nat>, b: set<nat>)
    requires a <= b
    ensures |a| <= |b|
  {
    assert b == a + (b - a);
  }

  /** The table slot of the k-th descriptor. */
  function Slot(t: Table, first: u16, k: nat): nat
    requires t.Valid()
  {
    Hop(t, first, k) % |t.descs|
  }

  /** The table slots of the first `n` descriptors. */
  ghost function Seen(t: Table, first: u16, n: nat): (s: set<nat>)
    requires t.Valid()
    ensures forall x :: x in s ==> 0 <= x < |t.descs|
  {
    if n == 0 then {} else Seen(t, first, n - 1) + {Slot(t, first, n - 1)}
  }

  lemma {:induction false} SeenWhere(t: Table, first: u16, n: nat, x: nat) returns (k: nat)
    requires t.Valid() && x in Seen(t, first, n)
    ensures k < n && Slot(t, first, k) == x
  {
    if x == Slot(t, first, n - 1) {
      k := n - 1;
    } else {
      k := SeenWhere(t, first, n - 1, x);
    }
  }

  /** A slot visited twice makes the chain periodic from there on. */
  lemma {:induction false} Periodic(t: Table, first: u16, a: nat, b: nat, j: nat)
    requires t.Valid() && Slot(t, first, a) == Slot(t, first, b)
    ensures Nth(t, first, a + j) == Nth(t, first, b + j)
  {
    if j == 0 {
    } else {
      Periodic(t, first, a, b, j - 1);
    }
  }

  /** A chain that ends visits no slot twice. */
  lemma NoRepeat(t: Table, first: u16, n: nat, a: nat, b: nat)
    requires t.Valid() && EndsAt(t, first, n) && a < b <= n
    ensures Slot(t, first, a) != Slot(t, first, b)
  {
    if Slot(t, first, a) == Slot(t, first, b) {
      Periodic(t, first, a, b, n - b);
    }
  }

  lemma {:induction false} SeenGrows(t: Table, first: u16, n: nat, m: nat)
    requires t.Valid() && EndsAt(t, first, n) && m <= n + 1
    ensures |Seen(t, first, m)| == m
  {
    if m == 0 {
    } else {
      SeenGrows(t, first, n, m - 1);
      var x := Slot(t, first, m - 1);
      if x in Seen(t, first, m - 1) {
        var k := SeenWhere(t, first, m - 1, x);
        NoRepeat(t, first, n, k, m - 1);
        assert false;
      }
    }
  }

  /** A chain that ends has at most as many descriptors as the table. */
  lemma EndsWithinTable(t: Table, first: u16, n: nat)
    requires t.Valid() && EndsAt(t, first, n)
    ensures n < |t.descs|
  {
    SeenGrows(t, first, n, n + 1);
    SubsetSize(Seen(t, first, n + 1), Below(|t.descs|));
  }

  lemma TooLong(t: Table, first: u16, steps: nat)
    requires t.Valid() && LinksOn(t, first, steps) && steps >= |t.descs|
    ensures !WellFormed(t, first)
  {
    forall n: nat ensures !EndsAt(t, first, n) {
      if EndsAt(t, first, n) {
        EndsWithinTable(t, first, n);
      }
    }
  }

  lemma OutOfRange(t: Table, first: u16, steps: nat)
    requires t.Valid() && LinksOn(t, first, steps) && !InRange(t, Nth(t, first, steps))
    ensures !WellFormed(t, first)
  {
    forall n: nat ensures !EndsAt(t, first, n) {
      assert n == steps || n < steps || n > steps;
    }
  }

  // ---- totals ----

  function Length(t: Table, first: u16, n: nat): nat
    requires t.Valid()
  {
    if n == 0 then 0 else Length(t, first, n - 1) + Nth(t, first, n - 1).len
  }

  function BufferOf(t: Table, d: Desc, kind: Kind): Buffer {
    Buffer(kind, d.addr as int - t.start as int, d.len)
  }

  /** The buffers of the first `n` descriptors, in chain order: header callbacks until `header`
      bytes have gone by, data callbacks after. */
  function Buffers(t: Table, first: u16, header: nat, n: nat): seq<Buffer>
    requires t.Valid()
  {
    if n == 0 then [] else
      Buffers(t, first, header, n - 1)
      + [BufferOf(t, Nth(t, first, n - 1), if Length(t, first, n - 1) < header then Start else Data)]
  }

  /** A whole chain of `n + 1` descriptors. */
  function Chain(t: Table, first: u16, header: nat, n: nat): seq<Buffer>
    requires t.Valid()
  {
    Buffers(t, first, header, n) + [BufferOf(t, Nth(t, first, n), Complete)]
  }

  ghost predicate Inside(t: Table, bs: seq<Buffer>) {
    forall b :: b in bs ==> 0 <= b.off && b.off + b.len <= t.end - t.start
  }

  lemma {:induction false} BuffersInside(t: Table, first: u16, header: nat, n: nat)
    requires t.Valid() && LinksOn(t, first, n)
    ensures |Buffers(t, first, header, n)| == n && Inside(t, Buffers(t, first, header, n))
  {
    if n == 0 {
    } else {
      BuffersInside(t, first, header, n - 1);
      assert InRange(t, Nth(t, first, n - 1));
    }
  }

  /** The k-th buffer in terms of the table: the walk starts at `first` and follows the next fields;
      each buffer is its descriptor's, as an offset from the start of guest memory; it goes to the
      header callback exactly while fewer than `header` bytes have gone by. */
  lemma {:induction false} BuffersExact(t: Table, first: u16, header: nat, n: nat, k: nat)
    requires t.Valid() && k < n
    ensures |Buffers(t, first, header, n)| == n
    ensures Hop(t, first, 0) == first && Hop(t, first, k + 1) == t.descs[Hop(t, first, k) % |t.descs|].next
    ensures Length(t, first, 0) == 0
    ensures Length(t, first, k + 1) == Length(t, first, k) + t.descs[Hop(t, first, k) % |t.descs|].len
    ensures var b, d := Buffers(t, first, header, n)[k], t.descs[Hop(t, first, k) % |t.descs|];
      && t.start + b.off == d.addr && b.len == d.len
      && (b.kind.Start? <==> Length(t, first, k) < header) && (b.kind.Data? <==> Length(t, first, k) >= header)
  {
    if k == n - 1 {
      BuffersLength(t, first, header, n - 1);
    } else {
      BuffersExact(t, first, header, n - 1, k);
    }
  }

  lemma {:induction false} BuffersLength(t: Table, first: u16, header: nat, n: nat)
    requires t.Valid()
    ensures |Buffers(t, first, header, n)| == n
  {
    if n == 0 {
    } else {
      BuffersLength(t, first, header, n - 1);
    }
  }

  /** The last buffer goes to the completion callback. */
  lemma ChainExact(t: Table, first: u16, header: nat, n: nat)
    requires t.Valid()
    ensures |Chain(t, first, header, n)| == n + 1 && Chain(t, first, header, n)[..n] == Buffers(t, first, header, n)
    ensures var b, d := Chain(t, first, header, n)[n], t.descs[Hop(t, first, n) % |t.descs|];
      b.kind.Complete? && t.start + b.off == d.addr && b.len == d.len
  {
    BuffersLength(t, first, header, n);
  }

  lemma ChainInside(t: Table, first: u16, header: nat, n: nat)
    requires t.Valid() && EndsAt(t, first, n)
    ensures |Chain(t, first, header, n)| == n + 1 && Inside(t, Chain(t, first, header, n))
  {
    BuffersInside(t, first, header, n);
  }

  // ---- the queue ----

  /** A drain of `q` takes `used` good chains and stops at the end or at a bad one. */
  ghost predicate Taken(q: seq<bool>, used: nat) {
    used <= |q| && forall k :: 0 <= k < used ==> q[k]
  }

  /** What is left: the bad chain has been taken too. */
  ghost function After(q: seq<bool>, used: nat): seq<bool> {
    if used < |q| then q[used + 1..] else []
  }

  lemma DropOne(q: seq<bool>, n: nat)
    requires n <= |q|
    ensures q[n..] == [] <==> n == |q|
    ensures n < |q| ==> q[n..][0] == q[n] && q[n..][1..] == q[n + 1..]
  {
  }

  /** A drain that stops after `used` good chains empties the ring exactly when all but the
      last are good. */
  lemma Emptied(q: seq<bool>, used: nat)
    requires Taken(q, used) && (used < |q| ==> !q[used])
    ensures After(q, used) == [] <==> forall k :: 0 <= k < |q| - 1 ==> q[k]
  {
  }

  /** A 16-bit index after `n` increments. */
  function Advanced(u: u16, n: nat): u16 {
    if n == 0 then u else (Advanced(u, n - 1) as int + 1) % 65536
  }

  lemma IncrementWraps(x: nat)
    ensures (x % 65536 + 1) % 65536 == (x + 1) % 65536
  {
  }

  lemma {:induction false} AdvancedIsSum(u: u16, n: nat)
    ensures Advanced(u, n) as int == (u as int + n) % 65536
  {
    if n == 0 {
    } else {
      AdvancedIsSum(u, n - 1);
      IncrementWraps(u as int + (n - 1));
    }
  }

  /** How many 16-bit steps lead from `at` to `avail`. */
  function Ahead(avail: u16, at: u16): nat {
    if at <= avail then avail as int - at as int else 65536 + avail as int - at as int
  }

  /** From cursor `at` to the published index, in 16-bit steps: is each chain well formed? */
  ghost function Waiting(t: Table, ring: seq<u16>, avail: u16, at: u16): seq<bool>
    requires t.Valid() && |ring| == |t.descs|
    decreases Ahead(avail, at)
  {
    if at == avail then [] else
      [WellFormed(t, ring[at % |t.descs|])] + Waiting(t, ring, avail, (at as int + 1) % 65536)
  }

  class Queue {
    const t: Table
    var availIdx: u16
    var availRing: seq<u16>
    var usedIdx: u16
    var usedRing: seq<UsedElem>
    var processed: u16

    ghost predicate Valid()
      reads this
    {
      t.Valid() && |availRing| == |t.descs| && |usedRing| == |t.descs|
    }

    constructor (t: Table, availIdx: u16, availRing: seq<u16>, usedIdx: u16, usedRing: seq<UsedElem>, processed: u16)
      requires t.Valid() && |availRing| == |t.descs| && |usedRing| == |t.descs|
      ensures Valid()
    {
      this.t, this.availIdx, this.availRing := t, availIdx, availRing;
      this.usedIdx, this.usedRing, this.processed := usedIdx, usedRing, processed;
    }

    /** The head of the chain to process next. */
    function Head(): u16
      requires Valid()
      reads this
    {
      availRing[processed as int % |t.descs|]
    }

    /** The walk: `ok` exactly for a chain that ends in range; every buffer given to the device
        lies inside guest memory; the table is at most walked once. `actual` is what the device
        reports for the last buffer. */
    method Walk(first: u16, header: nat, actual: nat)
      returns (ok: bool, written: nat, ghost last: nat, bufs: seq<Buffer>)
      requires t.Valid()
      ensures ok <==> WellFormed(t, first)
      ensures ok ==> EndsAt(t, first, last) && written == Length(t, first, last) + actual
      ensures Inside(t, bufs) && |bufs| <= |t.descs|
      ensures bufs == if ok then Chain(t, first, header, last) else Buffers(t, first, header, last)
    {
      var i, steps := first, 0;
      written, bufs, ok, last := 0, [], true, 0;
      while true
        invariant 0 <= steps <= |t.descs|
        invariant i == Hop(t, first, steps) && LinksOn(t, first, steps)
        invariant written == Length(t, first, steps) && bufs == Buffers(t, first, header, steps)
        decreases |t.descs| - steps
      {
        last := steps;
        BuffersInside(t, first, header, steps);
        if steps >= |t.descs| {
          TooLong(t, first, steps);
          return false, written, last, bufs;
        }
        var d := At(t, i);
        if !InRange(t, d) {
          OutOfRange(t, first, steps);
          return false, written, last, bufs;
        }
        if d.more {
          bufs := bufs + [BufferOf(t, d, if written < header then Start else Data)];
          written := written + d.len;
          i := d.next;
          steps := steps + 1;
        } else {
          bufs := bufs + [BufferOf(t, d, Complete)];
          written := written + actual;
          assert EndsAt(t, first, steps);
          ChainInside(t, first, header, steps);
          return true, written, last, bufs;
        }
      }
    }

    /** One call: nothing happens when the ring is empty or the device has no data; otherwise
        the cursor moves by one and, exactly when the chain is well formed, one used entry
        naming its head is added. */
    method ProcessOneChain(hasData: bool, header: nat, actual: nat) returns (posted: bool, ghost last: nat)
      requires Valid()
      modifies this
      ensures Valid() && availIdx == old(availIdx) && availRing == old(availRing)
      ensures posted <==> old(processed) != availIdx && hasData && WellFormed(t, old(Head()))
      ensures processed as int ==
        if old(processed) != availIdx && hasData then (old(processed) as int + 1) % 65536 else old(processed) as int
      ensures !posted ==> usedIdx == old(usedIdx) && usedRing == old(usedRing)
      ensures old(Head()) == old(availRing)[old(processed) as int % |t.descs|]
      ensures posted ==>
        && usedIdx as int == (old(usedIdx) as int + 1) % 65536
        && EndsAt(t, old(Head()), last)
        && usedRing == old(usedRing)[old(usedIdx) as int % |t.descs| :=
             UsedElem(old(Head()), (Length(t, old(Head()), last) + actual) % 0x1_0000_0000)]
    {
      if processed == availIdx || !hasData {
        return false, 0;
      }
      var first := Head();
      var ok, written, bufs;
      ok, written, last, bufs := Walk(first, header, actual);
      if ok {
        var e := UsedElem(first, written % 0x1_0000_0000);
        usedRing := usedRing[usedIdx as int % |t.descs| := e];
        usedIdx := (usedIdx as int + 1) % 65536;
      }
      processed := (processed as int + 1) % 65536;
      posted := ok;
    }

    /** For each waiting chain, whether it is well formed. */
    ghost function Quality(): seq<bool>
      requires Valid()
      reads this
    {
      Waiting(t, availRing, availIdx, processed)
    }

    /** `process_one_chain_for_queue` for a device with data, as the drain loop sees it. */
    method TakeOne(header: nat, actual: nat) returns (posted: bool)
      requires Valid()
      modifies this
      ensures Valid() && availIdx == old(availIdx) && availRing == old(availRing)
      ensures var q := old(Quality());
        if q == [] then !posted && Quality() == [] && usedIdx == old(usedIdx)
        else
          && posted == q[0] && Quality() == q[1..]
          && processed as int == (old(processed) as int + 1) % 65536
          && usedIdx == Advanced(old(usedIdx), if posted then 1 else 0)
    {
      ghost var last;
      posted, last := ProcessOneChain(true, header, actual);
    }

    /** The drain loop: `used` well-formed chains and then, unless the ring is empty, one malformed
        one. */
    method TakeAll(header: nat, actual: nat -> nat) returns (used: nat)
      requires Valid()
      modifies this
      ensures Valid() && availIdx == old(availIdx) && availRing == old(availRing)
      ensures Taken(old(Quality()), used) && (used < |old(Quality())| ==> !old(Quality())[used])
      ensures Quality() == After(old(Quality()), used)
      ensures usedIdx == Advanced(old(usedIdx), used)
    {
      used := 0;
      ghost var q := Quality();
      while true
        invariant Valid() && availIdx == old(availIdx) && availRing == old(availRing)
        invariant Taken(q, used) && Quality() == q[used..]
        invariant usedIdx == Advanced(old(usedIdx), used)
        decreases |q| - used
      {
        DropOne(q, used);
        var one := TakeOne(header, actual(used));
        if !one {
          break;
        }
        used := used + 1;
      }
    }

    /** The drain loop of `dispatch_chain`, taking `used` well-formed chains and then, unless the
        ring is empty, one malformed chain: it empties the ring exactly when every waiting chain
        but the last is well formed, and reports whether it posted any. */
    method Drain(header: nat, actual: nat -> nat) returns (posted: bool, used: nat)
      requires Valid()
      modifies this
      ensures Valid() && availIdx == old(availIdx) && availRing == old(availRing)
      ensures Quality() == [] <==> forall k :: 0 <= k < |old(Quality())| - 1 ==> old(Quality())[k]
      ensures Taken(old(Quality()), used) && (used < |old(Quality())| ==> !old(Quality())[used])
      ensures Quality() == After(old(Quality()), used)
      ensures usedIdx as int == (old(usedIdx) as int + used) % 65536
      ensures posted <==> used > 0
    {
      ghost var q := Quality();
      used := TakeAll(header, actual);
      posted := used > 0;
      Emptied(q, used);
      AdvancedIsSum(old(usedIdx), used);
    }
  }
}
