/** The byte ring from TRISC0 to the daemon: single producer, single consumer, free-running
    32-bit counters, every load and store a step. */
module UartFeed {
  import opened Words
  import opened Rings

  const CHUNK: nat := 256

  /** `clamp_consumer_to_ring`. */
  function Clamp(producer: u32, consumer: u32, entries: nat): u32 {
    if WrapSub(producer, consumer) > entries then WrapSub(producer, entries) else consumer
  }

  /** The clamped cursor is as far behind the producer as before, but at most the ring's size. */
  lemma ClampExact(producer: u32, consumer: u32, entries: nat)
    requires entries < TWO32
    ensures var c := Clamp(producer, consumer, entries);
      WrapSub(producer, c) == Min(WrapSub(producer, consumer), entries)
  {
  }

  /** TRISC0 inside `trisc0_uart_feed_push`; `p` is the producer count it read. */
  datatype Producer =
    | Idle
    | RdConsumer(b: int, p: u32)
    | StoreCell(b: int, p: u32)
    | StoreSeq(b: int, p: u32)
    | RdDrops(b: int)
    | StoreDrops(b: int, d: u32)

  /** The daemon inside one drain pass; `snap` is the number of bytes accepted when it read
      the producer count. */
  datatype Consumer =
    | Top
    | Chunk(producer: u32, local: u32, snap: nat)
    | Copy(producer: u32, local: u32, snap: nat, take: nat, buf: seq<int>)

  datatype Outcome = Kept(b: int) | Lost(b: int)

  /** `published` counts the bytes the daemon has acknowledged; `outcomes` lists what became
      of every byte handed to the push. */
  datatype Feed = Feed(
    ring: seq<int>, prod: u32, cons: u32, drops: u32, kept: u32,
    tp: Producer, dp: Consumer,
    accepted: seq<int>, out: seq<int>, published: nat, outcomes: seq<Outcome>)

  datatype Action = Push(b: int) | Trisc0 | Host

  function Slot(x: u32, k: nat): nat {
    And(x, Pow2(k) - 1)
  }

  function Init(k: nat): Feed {
    Feed(seq(Pow2(k), _ => 0), 0, 0, 0, 0, Idle, Top, [], [], 0, [])
  }

  function Trisc0Step(k: nat, s: Feed): Feed {
    match s.tp
    case Idle => s
    case RdConsumer(b, p) =>
      s.(tp := if WrapSub(p, s.cons) >= Pow2(k) then RdDrops(b) else StoreCell(b, p))
    case StoreCell(b, p) =>
      if Slot(p, k) < |s.ring| then s.(ring := s.ring[Slot(p, k) := b], tp := StoreSeq(b, p)) else s
    case StoreSeq(b, p) =>
      s.(prod := WrapAdd(p, 1), tp := Idle, accepted := s.accepted + [b], outcomes := s.outcomes + [Kept(b)])
    case RdDrops(b) =>
      s.(tp := StoreDrops(b, s.drops))
    case StoreDrops(b, d) =>
      s.(drops := WrapAdd(d, 1), tp := Idle, outcomes := s.outcomes + [Lost(b)])
  }

  function HostStep(k: nat, s: Feed): Feed {
    match s.dp
    case Top =>
      if s.prod == s.kept then s
      else s.(dp := Chunk(s.prod, Clamp(s.prod, s.kept, Pow2(k)), |s.accepted|))
    case Chunk(producer, local, snap) =>
      if local == producer then s.(cons := local, kept := local, dp := Top, published := |s.out|)
      else s.(dp := Copy(producer, local, snap, Min(WrapSub(producer, local), CHUNK), []))
    case Copy(producer, local, snap, take, buf) =>
      if |buf| < take then
        var i := Slot(WrapAdd(local, |buf|), k);
        if i < |s.ring| then s.(dp := Copy(producer, local, snap, take, buf + [s.ring[i] % 256])) else s
      else
        s.(out := s.out + buf, dp := Chunk(producer, WrapAdd(local, take), snap))
  }

  function Step(k: nat, s: Feed, a: Action): Feed {
    match a
    case Push(b) => if s.tp.Idle? && 0 <= b < 256 then s.(tp := RdConsumer(b, s.prod)) else s
    case Trisc0 => Trisc0Step(k, s)
    case Host => HostStep(k, s)
  }

  function Run(k: nat, acts: seq<Action>): Feed {
    if acts == [] then Init(k) else Step(k, Run(k, acts[..|acts| - 1]), acts[|acts| - 1])
  }

  // ---- the invariant ----

  ghost predicate Unread(ring: seq<int>, accepted: seq<int>, from: nat)
    requires |ring| > 0
  {
    forall j :: from <= j < |accepted| ==> ring[Index(j, |ring|)] == accepted[j]
  }

  ghost predicate Bytes(bs: seq<int>) {
    forall i :: 0 <= i < |bs| ==> 0 <= bs[i] < 256
  }

  ghost predicate CountsInv(k: nat, s: Feed) {
    var n := Pow2(k);
    && |s.ring| == n
    && s.published <= |s.out| <= |s.accepted| <= s.published + n
    && s.prod == Low32(|s.accepted|)
    && s.cons == s.kept == Low32(s.published)
    && Bytes(s.accepted)
    && s.out == s.accepted[..|s.out|]
    && Unread(s.ring, s.accepted, s.published)
  }

  ghost predicate ProducerInv(k: nat, s: Feed) {
    match s.tp
    case Idle => true
    case RdConsumer(b, p) => p == s.prod && 0 <= b < 256
    case StoreCell(b, p) => p == s.prod && 0 <= b < 256 && |s.accepted| < s.published + Pow2(k)
    case StoreSeq(b, p) =>
      && p == s.prod && 0 <= b < 256 && |s.accepted| < s.published + Pow2(k)
      && |s.ring| == Pow2(k) && s.ring[Index(|s.accepted|, |s.ring|)] == b
    case RdDrops(b) => true
    case StoreDrops(b, d) => d == s.drops
  }

  ghost predicate ConsumerInv(s: Feed) {
    match s.dp
    case Top => |s.out| == s.published
    case Chunk(producer, local, snap) =>
      |s.out| <= snap <= |s.accepted| && producer == Low32(snap) && local == Low32(|s.out|)
    case Copy(producer, local, snap, take, buf) =>
      && |s.out| <= snap <= |s.accepted| && producer == Low32(snap) && local == Low32(|s.out|)
      && |buf| <= take && 0 < take && |s.out| + take <= snap
      && buf == s.accepted[|s.out|..|s.out| + |buf|]
  }

  ghost predicate Inv(k: nat, s: Feed) {
    CountsInv(k, s) && ProducerInv(k, s) && ConsumerInv(s)
  }

  lemma PushSlot(k: nat, s: Feed)
    requires k <= 31 && CountsInv(k, s)
    ensures Slot(s.prod, k) == Index(|s.accepted|, Pow2(k))
  {
    WrapIndex(|s.accepted|, k);
  }

  lemma StoreMisses(k: nat, s: Feed, j: nat)
    requires k <= 31 && Inv(k, s) && s.tp.StoreCell? && s.published <= j < |s.accepted|
    ensures Slot(s.tp.p, k) != Index(j, Pow2(k))
  {
    PushSlot(k, s);
    SlotsDiffer(j, |s.accepted|, Pow2(k));
  }

  lemma StoreCellKeeps(k: nat, s: Feed)
    requires k <= 31 && Inv(k, s) && s.tp.StoreCell?
    ensures Inv(k, Trisc0Step(k, s))
  {
    PushSlot(k, s);
    forall j | s.published <= j < |s.accepted|
      ensures Slot(s.tp.p, k) != Index(j, Pow2(k))
    {
      StoreMisses(k, s, j);
    }
  }

  /** A byte already in its cell joins the unread ones. */
  lemma UnreadMore(ring: seq<int>, accepted: seq<int>, from: nat, b: int)
    requires |ring| > 0 && Unread(ring, accepted, from) && ring[Index(|accepted|, |ring|)] == b
    ensures Unread(ring, accepted + [b], from)
  {
  }

  lemma StoreSeqKeepsCounts(k: nat, s: Feed)
    requires k <= 31 && Inv(k, s) && s.tp.StoreSeq?
    ensures CountsInv(k, Trisc0Step(k, s))
  {
    var r := Trisc0Step(k, s);
    WrapPlus(|s.accepted|, 1);
    UnreadMore(s.ring, s.accepted, s.published, s.tp.b);
    assert r.accepted[..|s.out|] == s.accepted[..|s.out|];
  }

  lemma StoreSeqKeepsConsumer(k: nat, s: Feed)
    requires Inv(k, s) && s.tp.StoreSeq?
    ensures ConsumerInv(Trisc0Step(k, s))
  {
    var r := Trisc0Step(k, s);
    if s.dp.Copy? {
      assert r.accepted[|s.out|..|s.out| + |s.dp.buf|] == s.accepted[|s.out|..|s.out| + |s.dp.buf|];
    }
  }

  lemma StoreSeqKeeps(k: nat, s: Feed)
    requires k <= 31 && Inv(k, s) && s.tp.StoreSeq?
    ensures Inv(k, Trisc0Step(k, s))
  {
    StoreSeqKeepsCounts(k, s);
    StoreSeqKeepsConsumer(k, s);
  }

  lemma Trisc0Keeps(k: nat, s: Feed)
    requires k <= 31 && Inv(k, s)
    ensures Inv(k, Trisc0Step(k, s))
  {
    match s.tp
    case RdConsumer(b, p) =>
      RingBound(k);
      WrapDistance(|s.accepted|, s.published);
    case StoreCell(b, p) => StoreCellKeeps(k, s);
    case StoreSeq(b, p) => StoreSeqKeeps(k, s);
    case _ =>
  }

  lemma ClampKeeps(k: nat, s: Feed)
    requires k <= 31 && Inv(k, s) && s.dp.Top?
    ensures Clamp(s.prod, s.kept, Pow2(k)) == s.kept
  {
    RingBound(k);
    WrapDistance(|s.accepted|, s.published);
  }

  lemma CopyReadsNext(k: nat, s: Feed)
    requires k <= 31 && Inv(k, s) && s.dp.Copy? && |s.dp.buf| < s.dp.take
    ensures var j := |s.out| + |s.dp.buf|;
      var i := Slot(WrapAdd(s.dp.local, |s.dp.buf|), k);
      i < |s.ring| && s.ring[i] % 256 == s.accepted[j]
  {
    SlotOf(|s.out|, |s.dp.buf|, k);
    UnreadAt(s.ring, s.accepted, s.published, |s.out| + |s.dp.buf|);
  }

  lemma ChunkKeeps(k: nat, s: Feed)
    requires k <= 31 && Inv(k, s) && s.dp.Chunk?
    ensures Inv(k, HostStep(k, s))
  {
    RingBound(k);
    WrapDistance(s.dp.snap, |s.out|);
  }

  lemma CopyKeeps(k: nat, s: Feed)
    requires k <= 31 && Inv(k, s) && s.dp.Copy? && |s.dp.buf| < s.dp.take
    ensures Inv(k, HostStep(k, s))
  {
    CopyReadsNext(k, s);
  }

  lemma DeliverKeeps(k: nat, s: Feed)
    requires k <= 31 && Inv(k, s) && s.dp.Copy? && |s.dp.buf| >= s.dp.take
    ensures Inv(k, HostStep(k, s))
  {
    var take := s.dp.take;
    assert s.accepted[..|s.out|] + s.dp.buf == s.accepted[..|s.out| + take];
    WrapPlus(|s.out|, take);
  }

  lemma HostKeeps(k: nat, s: Feed)
    requires k <= 31 && Inv(k, s)
    ensures Inv(k, HostStep(k, s))
  {
    match s.dp
    case Top => ClampKeeps(k, s);
    case Chunk(_, _, _) => ChunkKeeps(k, s);
    case Copy(_, _, _, take, buf) =>
      if |buf| < take {
        CopyKeeps(k, s);
      } else {
        DeliverKeeps(k, s);
      }
  }

  lemma {:induction false} RunInv(k: nat, acts: seq<Action>)
    requires k <= 31
    ensures Inv(k, Run(k, acts))
  {
    if acts == [] {
    } else {
      var s, a := Run(k, acts[..|acts| - 1]), acts[|acts| - 1];
      RunInv(k, acts[..|acts| - 1]);
      match a
      case Push(b) =>
      case Trisc0 => Trisc0Keeps(k, s);
      case Host => HostKeeps(k, s);
    }
  }

  /** In no run is the cell the producer is about to store one whose byte is still to be read. */
  lemma StoreHitsNoUnreadCell(k: nat, acts: seq<Action>, j: nat)
    requires k <= 31
    requires var s := Run(k, acts); s.tp.StoreCell? && s.published <= j < |s.accepted|
    ensures Slot(Run(k, acts).tp.p, k) != Index(j, Pow2(k))
  {
    RunInv(k, acts);
    StoreMisses(k, Run(k, acts), j);
  }

  /** In no run does the daemon's clamp move its cursor. */
  lemma ClampIsIdentity(k: nat, acts: seq<Action>)
    requires k <= 31 && Run(k, acts).dp.Top?
    ensures var s := Run(k, acts); Clamp(s.prod, s.kept, Pow2(k)) == s.kept
  {
    RunInv(k, acts);
    ClampKeeps(k, Run(k, acts));
  }

  // ---- the daemon drains ----

  /** The bytes the hub has not got yet. */
  function Behind(s: Feed): int {
    |s.accepted| - |s.out|
  }

  /** Where the daemon stands in its pass, falling as long as it hands nothing to the hub. */
  function Stage(s: Feed): int {
    match s.dp
    case Chunk(producer, local, _) => if local == producer then CHUNK + 4 else CHUNK + 2
    case Top => CHUNK + 3
    case Copy(_, _, _, take, buf) => take - |buf|
  }

  /** The hub has every accepted byte and the producer can see that. */
  predicate Drained(s: Feed) {
    s.dp.Top? && s.out == s.accepted && s.cons == s.prod
  }

  /** What the daemon's steps leave alone. */
  predicate SameProducer(s: Feed, t: Feed) {
    t.accepted == s.accepted && t.tp == s.tp && t.prod == s.prod && t.outcomes == s.outcomes && t.drops == s.drops
  }

  lemma HostLeavesProducer(k: nat, s: Feed)
    ensures SameProducer(s, HostStep(k, s))
  {
  }

  lemma TopProgress(k: nat, s: Feed)
    requires k <= 31 && Inv(k, s) && s.dp.Top?
    ensures Drained(s) || (HostStep(k, s).dp.Chunk? && Behind(HostStep(k, s)) == Behind(s) && Stage(HostStep(k, s)) < Stage(s))
  {
    RingBound(k);
    WrapDistance(|s.accepted|, s.published);
    ClampKeeps(k, s);
  }

  lemma ChunkProgress(k: nat, s: Feed)
    requires k <= 31 && Inv(k, s) && s.dp.Chunk?
    ensures var t := HostStep(k, s);
      Behind(t) == Behind(s) && Stage(t) < Stage(s) && 0 <= Stage(t)
  {
    RingBound(k);
    WrapDistance(s.dp.snap, |s.out|);
  }

  lemma CopyProgress(k: nat, s: Feed)
    requires k <= 31 && Inv(k, s) && s.dp.Copy?
    ensures var t := HostStep(k, s);
      Behind(t) < Behind(s) || (Behind(t) == Behind(s) && Stage(t) < Stage(s) && 0 <= Stage(t))
  {
    if |s.dp.buf| < s.dp.take {
      CopyReadsNext(k, s);
    }
  }

  lemma HostProgress(k: nat, s: Feed)
    requires k <= 31 && Inv(k, s)
    ensures var t := HostStep(k, s);
      && 0 <= Behind(s) && 0 <= Behind(t) && 0 <= Stage(s) && 0 <= Stage(t)
      && (Drained(s) || Behind(t) < Behind(s) || (Behind(t) == Behind(s) && Stage(t) < Stage(s)))
  {
    HostKeeps(k, s);
    match s.dp
    case Top => TopProgress(k, s);
    case Chunk(_, _, _) => ChunkProgress(k, s);
    case Copy(_, _, _, _, _) => CopyProgress(k, s);
  }

  /** `n` steps of the daemon. */
  function HostSteps(k: nat, s: Feed, n: nat): Feed
    decreases n
  {
    if n == 0 then s else HostSteps(k, HostStep(k, s), n - 1)
  }

  /** By itself the daemon hands every accepted byte to the hub and comes to rest. */
  lemma {:induction false} HostDrains(k: nat, s: Feed) returns (n: nat)
    requires k <= 31 && Inv(k, s)
    ensures Drained(HostSteps(k, s, n)) && SameProducer(s, HostSteps(k, s, n))
    decreases Behind(s), Stage(s)
  {
    if Drained(s) {
      n := 0;
    } else {
      HostProgress(k, s);
      HostKeeps(k, s);
      HostLeavesProducer(k, s);
      n := HostDrains(k, HostStep(k, s));
      n := n + 1;
    }
  }

  function Hosts(n: nat): seq<Action> {
    seq(n, _ => Host)
  }

  lemma {:induction false} RunHosts(k: nat, acts: seq<Action>, n: nat)
    ensures Run(k, acts + Hosts(n)) == HostSteps(k, Run(k, acts), n)
    decreases n
  {
    if n == 0 {
      assert acts + Hosts(0) == acts;
    } else {
      assert (acts + [Host])[..|acts|] == acts;
      RunHosts(k, acts + [Host], n - 1);
      assert acts + [Host] + Hosts(n - 1) == acts + Hosts(n);
    }
  }

  /** From every reachable state, steps of the daemon alone bring every accepted byte to the hub and
      the consumer counter to the producer's. */
  lemma EveryByteCanBeDelivered(k: nat, acts: seq<Action>) returns (n: nat)
    requires k <= 31
    ensures var s, t := Run(k, acts), Run(k, acts + Hosts(n));
      t.dp.Top? && t.out == t.accepted == s.accepted && t.cons == t.prod == s.prod
  {
    RunInv(k, acts);
    n := HostDrains(k, Run(k, acts));
    RunHosts(k, acts, n);
  }

  // ---- a push ends ----

  /** Steps left in the push. */
  function PushLeft(tp: Producer): nat {
    match tp
    case Idle => 0
    case RdConsumer(_, _) => 3
    case StoreCell(_, _) => 2
    case StoreSeq(_, _) => 1
    case RdDrops(_) => 2
    case StoreDrops(_, _) => 1
  }

  /** Every step of a push brings it nearer its end; its last step records the byte as kept or lost. */
  lemma PushProgress(k: nat, s: Feed)
    requires k <= 31 && Inv(k, s) && !s.tp.Idle?
    ensures var t := Trisc0Step(k, s);
      && PushLeft(t.tp) < PushLeft(s.tp)
      && (!t.tp.Idle? ==> t.tp.b == s.tp.b && t.outcomes == s.outcomes)
      && (t.tp.Idle? ==> t.outcomes == s.outcomes + [Kept(s.tp.b)] || t.outcomes == s.outcomes + [Lost(s.tp.b)])
  {
    if s.tp.StoreCell? {
      PushSlot(k, s);
    }
  }

  // ---- what the ring is for ----

  /** The bytes accepted and not yet given to the console hub. */
  function Contents(s: Feed): seq<int>
    requires |s.out| <= |s.accepted|
  {
    s.accepted[|s.out|..]
  }

  datatype Event = Silent | Enqueue(b: int) | Dequeue(bs: seq<int>)

  /** A bounded first-in first-out queue, the specification of the ring. */
  ghost predicate FifoStep(q: seq<int>, e: Event, r: seq<int>, capacity: nat) {
    match e
    case Silent => r == q
    case Enqueue(b) => |q| < capacity && r == q + [b]
    case Dequeue(bs) => q == bs + r
  }

  /** What a step is to the queue: the producer's sequence store enqueues, handing the
      buffer to the hub dequeues, every other load and store is silent. */
  function EventOf(s: Feed, a: Action): Event {
    if a.Trisc0? && s.tp.StoreSeq? then Enqueue(s.tp.b)
    else if a.Host? && s.dp.Copy? && |s.dp.buf| >= s.dp.take then Dequeue(s.dp.buf)
    else Silent
  }

  lemma EnqueueStep(k: nat, s: Feed)
    requires Inv(k, s) && s.tp.StoreSeq?
    ensures var r := Trisc0Step(k, s);
      |r.out| <= |r.accepted| && FifoStep(Contents(s), Enqueue(s.tp.b), Contents(r), Pow2(k)) && r.out == s.out
  {
  }

  lemma DequeueStep(k: nat, s: Feed)
    requires Inv(k, s) && s.dp.Copy? && |s.dp.buf| >= s.dp.take
    ensures var r := HostStep(k, s);
      |r.out| <= |r.accepted| && FifoStep(Contents(s), Dequeue(s.dp.buf), Contents(r), Pow2(k)) && r.out == s.out + s.dp.buf
  {
  }

  lemma SilentStep(k: nat, s: Feed, a: Action)
    requires EventOf(s, a).Silent?
    ensures Step(k, s, a).accepted == s.accepted && Step(k, s, a).out == s.out
  {
  }

  /** Every step of every interleaving is a step of the queue, across any number of counter
      wraps, and the hub receives exactly what leaves the queue, in order. */
  lemma FeedRefinesFifo(k: nat, acts: seq<Action>, a: Action)
    requires k <= 31
    ensures var s, r := Run(k, acts), Run(k, acts + [a]);
      && |s.out| <= |s.accepted| && |r.out| <= |r.accepted|
      && FifoStep(Contents(s), EventOf(s, a), Contents(r), Pow2(k))
      && s.out == s.accepted[..|s.out|]
      && r.out == s.out + (if EventOf(s, a).Dequeue? then EventOf(s, a).bs else [])
  {
    RunInv(k, acts);
    assert (acts + [a])[..|acts + [a]| - 1] == acts;
    var s := Run(k, acts);
    match EventOf(s, a)
    case Enqueue(_) => EnqueueStep(k, s);
    case Dequeue(_) => DequeueStep(k, s);
    case Silent => SilentStep(k, s, a);
  }

  /** A byte is dropped only if the ring was full of unacknowledged bytes when TRISC0 looked. */
  lemma DropOnlyWhenFull(k: nat, acts: seq<Action>)
    requires k <= 31
    ensures var s := Run(k, acts);
      s.tp.RdConsumer? ==> (Trisc0Step(k, s).tp.RdDrops? <==> |s.accepted| - s.published == Pow2(k))
  {
    RunInv(k, acts);
    RingBound(k);
    var s := Run(k, acts);
    WrapDistance(|s.accepted|, s.published);
  }

  function KeptBytes(os: seq<Outcome>): seq<int> {
    if os == [] then []
    else
      var o := os[|os| - 1];
      KeptBytes(os[..|os| - 1]) + (if o.Kept? then [o.b] else [])
  }

  function LostCount(os: seq<Outcome>): nat {
    if os == [] then 0 else LostCount(os[..|os| - 1]) + (if os[|os| - 1].Lost? then 1 else 0)
  }

  ghost predicate Accounted(s: Feed) {
    KeptBytes(s.outcomes) == s.accepted && s.drops == Low32(LostCount(s.outcomes))
  }

  lemma OutcomeKeeps(k: nat, s: Feed)
    requires Inv(k, s) && Accounted(s)
    ensures Accounted(Trisc0Step(k, s))
  {
    match s.tp
    case StoreSeq(b, _) => OutcomeSnoc(s.outcomes, Kept(b));
    case StoreDrops(b, _) =>
      OutcomeSnoc(s.outcomes, Lost(b));
      WrapPlus(LostCount(s.outcomes), 1);
    case _ =>
  }

  lemma OutcomeSnoc(os: seq<Outcome>, o: Outcome)
    ensures KeptBytes(os + [o]) == KeptBytes(os) + (if o.Kept? then [o.b] else [])
    ensures LostCount(os + [o]) == LostCount(os) + (if o.Lost? then 1 else 0)
  {
    assert (os + [o])[..|os|] == os;
  }

  /** Conservation: every pushed byte is either accepted, in order, or counted as dropped. */
  lemma {:induction false} PushesAreAccountedFor(k: nat, acts: seq<Action>)
    requires k <= 31
    ensures Accounted(Run(k, acts))
  {
    if acts == [] {
    } else {
      PushesAreAccountedFor(k, acts[..|acts| - 1]);
      RunInv(k, acts[..|acts| - 1]);
      if acts[|acts| - 1].Trisc0? {
        OutcomeKeeps(k, Run(k, acts[..|acts| - 1]));
      }
    }
  }

  // ---- the two sides as the programs write them ----

  /** One L2CPU's ring in L1 and the daemon's cursor; `accepted` and `done` count bytes
      since boot. */
  class FeedRing {
    const k: nat
    const cells: array<int>
    var producer: u32
    var consumer: u32
    var drops: u32
    var kept: u32
    ghost var accepted: seq<int>
    ghost var done: nat

    ghost predicate Valid()
      reads this, cells
    {
      && k <= 31 && cells.Length == Pow2(k)
      && done <= |accepted| <= done + Pow2(k)
      && producer == Low32(|accepted|) && consumer == kept == Low32(done)
      && Bytes(accepted) && Unread(cells[..], accepted, done)
    }

    ghost function Pending(): seq<int>
      reads this
      requires done <= |accepted|
    {
      accepted[done..]
    }

    constructor (k: nat)
      requires k <= 31
      ensures Valid() && Pending() == [] && drops == 0 && this.k == k && fresh(cells)
    {
      this.k := k;
      cells := new int[Pow2(k)](_ => 0);
      producer, consumer, drops, kept := 0, 0, 0, 0;
      accepted, done := [], 0;
    }

    method Push(b: int)
      requires Valid() && 0 <= b < 256
      modifies this, cells
      ensures Valid()
      ensures if |old(Pending())| < Pow2(k)
              then Pending() == old(Pending()) + [b] && drops == old(drops)
              else Pending() == old(Pending()) && drops == WrapAdd(old(drops), 1)
      ensures kept == old(kept)
    {
      RingBound(k);
      WrapDistance(|accepted|, done);
      if WrapSub(producer, consumer) >= Pow2(k) {
        drops := WrapAdd(drops, 1);
        return;
      }
      WrapIndex(|accepted|, k);
      StoreLands(cells[..], accepted, done, b);
      cells[Slot(producer, k)] := b;
      assert cells[..] == old(cells[..])[Index(|accepted|, Pow2(k)) := b];
      WrapPlus(|accepted|, 1);
      producer := WrapAdd(producer, 1);
      accepted := accepted + [b];
    }

    method Drain() returns (bytes: seq<int>)
      requires Valid()
      modifies this
      ensures Valid() && bytes == old(Pending()) && Pending() == []
      ensures accepted == old(accepted) && drops == old(drops) && producer == old(producer)
    {
      RingBound(k);
      WrapDistance(|accepted|, done);
      if producer == kept {
        return [];
      }
      bytes := Collect(Clamp(producer, kept, Pow2(k)));
      done := |accepted|;
      consumer := producer;
      kept := producer;
    }

    /** The chunk loop of a drain pass. */
    method Collect(start: u32) returns (bytes: seq<int>)
      requires Valid() && start == Low32(done)
      ensures bytes == Pending()
    {
      bytes := [];
      var local := start;
      RingBound(k);
      WrapDistance(|accepted|, done);
      while local != producer
        invariant done + |bytes| <= |accepted| && local == Low32(done + |bytes|)
        invariant bytes == accepted[done..done + |bytes|]
        decreases |accepted| - |bytes|
      {
        var take, buf := NextChunk(local, done + |bytes|);
        Joined(accepted, done, done + |bytes|, take);
        WrapPlus(done + |bytes|, take);
        bytes := bytes + buf;
        local := WrapAdd(local, take);
      }
      WrapDistance(|accepted|, done + |bytes|);
    }

    method NextChunk(local: u32, ghost at: nat) returns (take: nat, buf: seq<int>)
      requires Valid() && done <= at < |accepted| && local == Low32(at)
      ensures 0 < take && at + take <= |accepted| && buf == accepted[at..at + take]
    {
      RingBound(k);
      WrapDistance(|accepted|, at);
      take := Min(WrapSub(producer, local), CHUNK);
      buf := CopyOut(local, take, at);
    }

    method CopyOut(local: u32, take: nat, ghost at: nat) returns (buf: seq<int>)
      requires Valid() && local == Low32(at) && done <= at && at + take <= |accepted|
      ensures buf == accepted[at..at + take]
    {
      buf := [];
      while |buf| < take
        invariant |buf| <= take && buf == accepted[at..at + |buf|]
      {
        SlotOf(at, |buf|, k);
        UnreadAt(cells[..], accepted, done, at + |buf|);
        buf := buf + [cells[Slot(WrapAdd(local, |buf|), k)] % 256];
      }
    }
  }

  lemma Joined(s: seq<int>, a: nat, b: nat, n: nat)
    requires a <= b && b + n <= |s|
    ensures s[a..b] + s[b..b + n] == s[a..b + n]
  {
  }

  lemma UnreadAt(ring: seq<int>, accepted: seq<int>, from: nat, j: nat)
    requires |ring| > 0 && Unread(ring, accepted, from) && Bytes(accepted) && from <= j < |accepted|
    ensures ring[Index(j, |ring|)] % 256 == accepted[j]
  {
  }

  lemma SlotOf(at: nat, n: nat, k: nat)
    requires k <= 31
    ensures Slot(WrapAdd(Low32(at), n), k) == Index(at + n, Pow2(k))
  {
    WrapPlus(at, n);
    WrapIndex(at + n, k);
  }

  /** Storing the next byte in its cell disturbs no unread one. */
  lemma StoreLands(ring: seq<int>, accepted: seq<int>, from: nat, b: int)
    requires |ring| > 0 && from <= |accepted| < from + |ring| && Unread(ring, accepted, from)
    ensures Unread(ring[Index(|accepted|, |ring|) := b], accepted + [b], from)
  {
    var r := ring[Index(|accepted|, |ring|) := b];
    forall j | from <= j < |accepted| ensures r[Index(j, |r|)] == accepted[j] {
      SlotsDiffer(j, |accepted|, |ring|);
    }
  }
}
