/** The 16550 transmit path end to end: a guest driver writes THR through a shared cell, TRISC0 polls
    it and pushes into the feed ring, the daemon drains the ring. Every load and store is a step. */
module UartTx {
  import Words
  import opened UartFeed

  const SENTINEL: int := 0xFFFF_FFFF
  const LSR_READY: int := 0x60
  const HOLD_SWEEPS: nat := 20

  /** TRISC0 inside `trisc0_uart_poll_one`; `v` is the cell value it loaded. While it is `Pushing`
      the feed ring's own program point tells how far. */
  datatype Pc =
    | Poll
    | LoadCell
    | DropLsr(v: int)
    | LoadLcr(v: int)
    | TakeDivisor(v: int)
    | TakeByte(v: int)
    | StartPush(v: int)
    | Pushing
    | SetLsr

  /** Polls since the guest's last THR write: none begun, one begun, one begun and ended. */
  datatype Since = NoPoll | InPoll | Polled

  /** `mayWrite`: the driver last read LSR ready and has not written since. `isData`: the last THR
      write was made with DLAB clear. `sent`: the data bytes written so far. */
  datatype Tx = Tx(
    cell: int, lsr: int, dlab: bool, hold: nat, pc: Pc,
    mayWrite: bool, since: Since, isData: bool, sent: seq<int>, feed: Feed)

  /** `polled`: a whole TRISC0 poll falls between a THR write and the guest's next register access.
      `drained`: the guest sets DLAB only after it read LSR ready. */
  datatype Policy = Policy(polled: bool, drained: bool)

  datatype Action = ReadLsr | WriteThr(b: int) | SetDlab(on: bool) | Core | Daemon

  function Init(k: nat): Tx {
    Tx(SENTINEL, LSR_READY, false, 0, Poll, false, Polled, false, [], UartFeed.Init(k))
  }

  /** The poll ends. */
  function Ended(s: Tx): Tx {
    s.(pc := Poll, since := if s.since == InPoll then Polled else s.since)
  }

  function PollStep(k: nat, s: Tx): Tx {
    match s.pc
    case Poll =>
      var t := s.(since := if s.since == NoPoll then InPoll else s.since);
      if s.hold > 1 then Ended(t.(hold := s.hold - 1))
      else if s.hold == 1 then t.(hold := 0, pc := SetLsr)
      else t.(pc := LoadCell)
    case LoadCell => if s.cell == SENTINEL then Ended(s) else s.(pc := DropLsr(s.cell))
    case DropLsr(v) => s.(lsr := 0, pc := LoadLcr(v))
    case LoadLcr(v) => s.(pc := if s.dlab then TakeDivisor(v) else TakeByte(v))
    case TakeDivisor(v) => s.(cell := SENTINEL, pc := SetLsr)
    case TakeByte(v) => s.(cell := SENTINEL, pc := StartPush(v % 256))
    case StartPush(b) => s.(feed := UartFeed.Step(k, s.feed, Push(b)), pc := Pushing)
    case Pushing =>
      if s.feed.tp.Idle? then Ended(s.(hold := HOLD_SWEEPS)) else s.(feed := Trisc0Step(k, s.feed))
    case SetLsr => Ended(s.(lsr := LSR_READY))
  }

  function GuestStep(p: Policy, s: Tx, a: Action): Tx {
    if p.polled && s.since != Polled then s
    else
      match a
      case ReadLsr => s.(mayWrite := s.lsr == LSR_READY)
      case WriteThr(b) =>
        if !(0 <= b < 256) || !(s.dlab || s.mayWrite) then s
        else s.(cell := b, mayWrite := false, since := NoPoll, isData := !s.dlab,
                sent := if s.dlab then s.sent else s.sent + [b])
      case SetDlab(on) => if on && p.drained && !s.mayWrite then s else s.(dlab := on)
      case _ => s
  }

  function Step(k: nat, p: Policy, s: Tx, a: Action): Tx {
    match a
    case Core => PollStep(k, s)
    case Daemon => s.(feed := HostStep(k, s.feed))
    case _ => GuestStep(p, s, a)
  }

  function Run(k: nat, p: Policy, acts: seq<Action>): Tx {
    if acts == [] then Init(k) else Step(k, p, Run(k, p, acts[..|acts| - 1]), acts[|acts| - 1])
  }

  lemma Do(k: nat, p: Policy, acts: seq<Action>, a: Action)
    ensures Run(k, p, acts + [a]) == Step(k, p, Run(k, p, acts), a)
  {
    assert (acts + [a])[..|acts + [a]| - 1] == acts;
  }

  // ---- the ring inside is the ring of UartFeed ----

  /** What a step is to the ring. */
  function FeedEvent(s: Tx, a: Action): seq<UartFeed.Action> {
    match a
    case Daemon => [UartFeed.Host]
    case Core =>
      if s.pc.StartPush? then [Push(s.pc.v)]
      else if s.pc.Pushing? && !s.feed.tp.Idle? then [UartFeed.Trisc0] else []
    case _ => []
  }

  function FeedActs(k: nat, p: Policy, acts: seq<Action>): seq<UartFeed.Action> {
    if acts == [] then []
    else FeedActs(k, p, acts[..|acts| - 1]) + FeedEvent(Run(k, p, acts[..|acts| - 1]), acts[|acts| - 1])
  }

  lemma {:induction false} FeedProjects(k: nat, p: Policy, acts: seq<Action>)
    ensures Run(k, p, acts).feed == UartFeed.Run(k, FeedActs(k, p, acts))
  {
    if acts == [] {
    } else {
      var prev := acts[..|acts| - 1];
      FeedProjects(k, p, prev);
      FeedStep(k, p, Run(k, p, prev), acts[|acts| - 1]);
      FeedSnoc(k, FeedActs(k, p, prev), FeedEvent(Run(k, p, prev), acts[|acts| - 1]));
    }
  }

  function FeedAfter(k: nat, f: Feed, e: seq<UartFeed.Action>): Feed {
    if e == [] then f else UartFeed.Step(k, f, e[0])
  }

  lemma FeedStep(k: nat, p: Policy, s: Tx, a: Action)
    ensures |FeedEvent(s, a)| <= 1 && Step(k, p, s, a).feed == FeedAfter(k, s.feed, FeedEvent(s, a))
  {
    if a.Core? && s.pc.Pushing? {
      assert UartFeed.Step(k, s.feed, UartFeed.Trisc0) == Trisc0Step(k, s.feed);
    }
  }

  lemma FeedSnoc(k: nat, acts: seq<UartFeed.Action>, e: seq<UartFeed.Action>)
    requires |e| <= 1
    ensures UartFeed.Run(k, acts + e) == FeedAfter(k, UartFeed.Run(k, acts), e)
  {
    if e == [] {
      assert acts + e == acts;
    } else {
      assert (acts + e)[..|acts|] == acts;
    }
  }

  // ---- the line status register ----

  /** LSR follows the poll, whatever the guest does. */
  predicate LsrInv(s: Tx) {
    match s.pc
    case Poll => s.lsr == LSR_READY <==> s.hold == 0
    case LoadCell => s.lsr == LSR_READY && s.hold == 0
    case DropLsr(_) => s.lsr == LSR_READY && s.hold == 0
    case _ => s.lsr == 0 && s.hold == 0
  }

  lemma LsrStep(k: nat, p: Policy, s: Tx, a: Action)
    requires LsrInv(s) && (s.lsr == 0 || s.lsr == LSR_READY)
    ensures var t := Step(k, p, s, a); LsrInv(t) && (t.lsr == 0 || t.lsr == LSR_READY)
  {
  }

  lemma {:induction false} LsrRun(k: nat, p: Policy, acts: seq<Action>)
    ensures var s := Run(k, p, acts); LsrInv(s) && (s.lsr == 0 || s.lsr == LSR_READY)
  {
    if acts == [] {
    } else {
      LsrRun(k, p, acts[..|acts| - 1]);
      LsrStep(k, p, Run(k, p, acts[..|acts| - 1]), acts[|acts| - 1]);
    }
  }

  /** With no assumption on the guest, between polls LSR reads ready exactly when no hold is running. */
  lemma ReadyIffNoHold(k: nat, p: Policy, acts: seq<Action>)
    requires Run(k, p, acts).pc.Poll?
    ensures Run(k, p, acts).lsr == LSR_READY <==> Run(k, p, acts).hold == 0
  {
    LsrRun(k, p, acts);
  }

  function Polls(more: seq<Action>): nat {
    if more == [] then 0 else Polls(more[..|more| - 1]) + if more[|more| - 1].Core? then 1 else 0
  }

  predicate Holding(s: Tx, hold: nat) {
    s.lsr == 0 && s.hold == hold && if hold == 0 then s.pc.SetLsr? else s.pc.Poll?
  }

  predicate Released(s: Tx) {
    s.lsr == LSR_READY && s.hold == 0 && s.pc.Poll?
  }

  lemma HoldStep(k: nat, p: Policy, s: Tx, a: Action, hold: nat)
    requires Holding(s, hold)
    ensures !a.Core? ==> Holding(Step(k, p, s, a), hold)
    ensures a.Core? && hold > 0 ==> Holding(Step(k, p, s, a), hold - 1)
    ensures a.Core? && hold == 0 ==> Released(Step(k, p, s, a))
  {
  }

  /** A hold takes exactly `hold` steps of TRISC0, whatever guest and daemon do meanwhile, and the
      step after them sets LSR ready. */
  lemma {:induction false} HoldExpires(k: nat, p: Policy, acts: seq<Action>, more: seq<Action>, hold: nat)
    requires Holding(Run(k, p, acts), hold) && Polls(more) <= hold + 1
    ensures Polls(more) <= hold ==> Holding(Run(k, p, acts + more), hold - Polls(more))
    ensures Polls(more) == hold + 1 ==> Released(Run(k, p, acts + more))
    decreases |more|
  {
    if more == [] {
      assert acts + more == acts;
    } else {
      var init, a := more[..|more| - 1], more[|more| - 1];
      HoldExpires(k, p, acts, init, hold);
      assert acts + more == acts + init + [a];
      Do(k, p, acts + init, a);
      if Polls(init) <= hold {
        HoldStep(k, p, Run(k, p, acts + init), a, hold - Polls(init));
      }
    }
  }

  /** Backpressure from end to end: once a push is done LSR reads 0 for exactly HOLD_SWEEPS further
      polls, and ready after the last of them, whatever guest and daemon do meanwhile. */
  lemma Backpressure(k: nat, p: Policy, acts: seq<Action>, more: seq<Action>)
    requires Run(k, p, acts).pc.Pushing? && Run(k, p, acts).feed.tp.Idle? && Polls(more) <= HOLD_SWEEPS + 1
    ensures var t := Run(k, p, acts + [Core] + more);
      && (Polls(more) <= HOLD_SWEEPS ==> Holding(t, HOLD_SWEEPS - Polls(more)))
      && (Polls(more) == HOLD_SWEEPS + 1 ==> Released(t))
  {
    LsrRun(k, p, acts);
    Do(k, p, acts, Core);
    HoldExpires(k, p, acts + [Core], more, HOLD_SWEEPS);
  }

  // ---- the stream ----

  /** The bytes that were pushed or dropped, in order. */
  function Bytes(os: seq<Outcome>): (bs: seq<int>)
    ensures |bs| == |os|
  {
    if os == [] then [] else Bytes(os[..|os| - 1]) + [os[|os| - 1].b]
  }

  lemma BytesSnoc(os: seq<Outcome>, o: Outcome)
    ensures Bytes(os + [o]) == Bytes(os) + [o.b]
  {
    assert (os + [o])[..|os|] == os;
  }

  /** The byte the push has in hand. */
  function InHand(tp: Producer): seq<int> {
    if tp.Idle? then [] else [tp.b]
  }

  /** The data bytes on their way: in the push, or in the cell. */
  function InFlight(s: Tx): seq<int> {
    (if s.pc.StartPush? then [s.pc.v] else InHand(s.feed.tp))
    + if s.cell != SENTINEL && s.isData then [s.cell] else []
  }

  /** Every data byte written has been pushed or dropped, in order, or is in flight, and nothing
      else was pushed. */
  ghost predicate StreamOk(s: Tx) {
    s.sent == Bytes(s.feed.outcomes) + InFlight(s)
  }

  ghost predicate Conserved(k: nat, p: Policy) {
    forall acts :: StreamOk(Run(k, p, acts))
  }

  /** The cell holds a byte only until a poll has taken it, and the guest keeps away until then. */
  predicate CellInv(s: Tx) {
    && (s.cell != SENTINEL ==>
          && 0 <= s.cell < 256 && s.isData == !s.dlab && s.since != Polled && s.hold == 0
          && !s.pc.StartPush? && !s.pc.Pushing? && !s.pc.SetLsr?)
    && (s.pc.DropLsr? || s.pc.LoadLcr? || s.pc.TakeDivisor? || s.pc.TakeByte? ==> s.cell == s.pc.v != SENTINEL)
    && (s.pc.TakeDivisor? ==> s.dlab) && (s.pc.TakeByte? ==> !s.dlab)
    && (s.pc.StartPush? || s.pc.Pushing? ==> s.since != Polled && !s.dlab)
    && (s.pc.StartPush? ==> 0 <= s.pc.v < 256)
    && (s.pc.Pushing? || s.feed.tp.Idle?)
  }

  predicate BetweenBytes(pc: Pc) {
    pc.Poll? || pc.LoadCell?
  }

  /** A driver that may write, or has DLAB set, finds the transmitter idle. */
  predicate TurnInv(s: Tx) {
    && (s.mayWrite || s.dlab ==> s.hold == 0)
    && (s.mayWrite ==> s.cell == SENTINEL && BetweenBytes(s.pc))
    && (s.since == Polled ==> s.cell == SENTINEL && (BetweenBytes(s.pc) || (s.pc.SetLsr? && !s.dlab)))
  }

  ghost predicate Inv(s: Tx) {
    LsrInv(s) && (s.lsr == 0 || s.lsr == LSR_READY) && CellInv(s) && TurnInv(s) && StreamOk(s)
  }

  lemma PollKeepsTurn(k: nat, s: Tx)
    requires Inv(s) && !s.pc.Pushing? && !s.pc.StartPush?
    ensures CellInv(PollStep(k, s)) && TurnInv(PollStep(k, s))
  {
  }

  lemma PollKeepsStream(k: nat, s: Tx)
    requires Inv(s) && !s.pc.Pushing? && !s.pc.StartPush?
    ensures StreamOk(PollStep(k, s))
  {
    PollKeepsFlight(k, s);
  }

  /** Up to the push a poll moves the byte from the cell into its hand, or a divisor out of it. */
  lemma PollKeepsFlight(k: nat, s: Tx)
    requires CellInv(s) && !s.pc.Pushing? && !s.pc.StartPush?
    ensures var t := PollStep(k, s); InFlight(t) == InFlight(s) && t.feed == s.feed && t.sent == s.sent
  {
  }

  lemma StartKeeps(k: nat, s: Tx)
    requires Inv(s) && s.pc.StartPush?
    ensures CellInv(PollStep(k, s)) && TurnInv(PollStep(k, s)) && StreamOk(PollStep(k, s))
  {
  }

  /** What the push does to the byte it has in hand. */
  lemma PushStep(k: nat, f: Feed)
    requires !f.tp.Idle?
    ensures var g := Trisc0Step(k, f);
      Bytes(g.outcomes) + InHand(g.tp) == Bytes(f.outcomes) + InHand(f.tp)
  {
    BytesSnoc(f.outcomes, Kept(f.tp.b));
    BytesSnoc(f.outcomes, Lost(f.tp.b));
  }

  lemma PushKeeps(k: nat, s: Tx)
    requires Inv(s) && s.pc.Pushing?
    ensures CellInv(PollStep(k, s)) && TurnInv(PollStep(k, s)) && StreamOk(PollStep(k, s))
  {
    if !s.feed.tp.Idle? {
      PushStep(k, s.feed);
    }
  }

  lemma HostKeepsProducer(k: nat, f: Feed)
    ensures HostStep(k, f).tp == f.tp && HostStep(k, f).outcomes == f.outcomes
  {
  }

  lemma GuestKeeps(p: Policy, s: Tx, a: Action)
    requires p.polled && p.drained && Inv(s)
    ensures CellInv(GuestStep(p, s, a)) && TurnInv(GuestStep(p, s, a)) && StreamOk(GuestStep(p, s, a))
  {
  }

  lemma StepKeeps(k: nat, p: Policy, s: Tx, a: Action)
    requires p.polled && p.drained && Inv(s)
    ensures Inv(Step(k, p, s, a))
  {
    LsrStep(k, p, s, a);
    match a
    case Core =>
      if s.pc.StartPush? {
        StartKeeps(k, s);
      } else if s.pc.Pushing? {
        PushKeeps(k, s);
      } else {
        PollKeepsTurn(k, s);
        PollKeepsStream(k, s);
      }
    case Daemon => HostKeepsProducer(k, s.feed);
    case _ => GuestKeeps(p, s, a);
  }

  lemma {:induction false} RunInv(k: nat, p: Policy, acts: seq<Action>)
    requires p.polled && p.drained
    ensures Inv(Run(k, p, acts))
  {
    if acts == [] {
    } else {
      RunInv(k, p, acts[..|acts| - 1]);
      StepKeeps(k, p, Run(k, p, acts[..|acts| - 1]), acts[|acts| - 1]);
    }
  }

  /** End to end, for a guest that keeps the two conditions: what it wrote is what was pushed or
      dropped and what is in flight, in order; the pushed bytes are the ring's accepted bytes; the
      dropped ones are the drop counter, modulo 2^32; and the hub has a prefix of the accepted. */
  lemma GuestStreamIsDelivered(k: nat, p: Policy, acts: seq<Action>)
    requires k <= 31 && p.polled && p.drained
    ensures var s := Run(k, p, acts);
      && s.sent == Bytes(s.feed.outcomes) + InFlight(s)
      && KeptBytes(s.feed.outcomes) == s.feed.accepted
      && s.feed.drops == Words.Low32(LostCount(s.feed.outcomes))
      && s.feed.out <= s.feed.accepted
  {
    RunInv(k, p, acts);
    FeedProjects(k, p, acts);
    PushesAreAccountedFor(k, FeedActs(k, p, acts));
    UartFeed.RunInv(k, FeedActs(k, p, acts));
  }

  // ---- and it gets there ----

  function Daemons(n: nat): seq<Action> {
    seq(n, _ => Daemon)
  }

  lemma {:induction false} RunDaemons(k: nat, p: Policy, acts: seq<Action>, n: nat)
    ensures var s := Run(k, p, acts); Run(k, p, acts + Daemons(n)) == s.(feed := HostSteps(k, s.feed, n))
    decreases n
  {
    if n == 0 {
      assert acts + Daemons(0) == acts;
    } else {
      Do(k, p, acts, Daemon);
      RunDaemons(k, p, acts + [Daemon], n - 1);
      assert acts + [Daemon] + Daemons(n - 1) == acts + Daemons(n);
    }
  }

  /** For any guest, from every reachable state, the daemon alone brings every byte that was pushed and
      not dropped to the hub. */
  lemma KeptBytesCanBeDelivered(k: nat, p: Policy, acts: seq<Action>) returns (n: nat)
    requires k <= 31
    ensures var s, t := Run(k, p, acts), Run(k, p, acts + Daemons(n));
      t.feed.out == KeptBytes(s.feed.outcomes) && t == s.(feed := t.feed) && t.feed.outcomes == s.feed.outcomes
  {
    var s := Run(k, p, acts);
    FeedProjects(k, p, acts);
    UartFeed.RunInv(k, FeedActs(k, p, acts));
    PushesAreAccountedFor(k, FeedActs(k, p, acts));
    n := HostDrains(k, s.feed);
    RunDaemons(k, p, acts, n);
  }

  /** Only a push under way holds a byte. */
  predicate IdleInv(s: Tx) {
    s.pc.Pushing? || s.feed.tp.Idle?
  }

  lemma IdleStep(k: nat, p: Policy, s: Tx, a: Action)
    requires IdleInv(s)
    ensures IdleInv(Step(k, p, s, a))
  {
    if a.Daemon? {
      HostKeepsProducer(k, s.feed);
    }
  }

  lemma {:induction false} IdleRun(k: nat, p: Policy, acts: seq<Action>)
    ensures IdleInv(Run(k, p, acts))
  {
    if acts == [] {
    } else {
      IdleRun(k, p, acts[..|acts| - 1]);
      IdleStep(k, p, Run(k, p, acts[..|acts| - 1]), acts[|acts| - 1]);
    }
  }

  /** Bound on the steps until TRISC0 is between polls with nothing to send and nothing held. */
  function PollsLeft(s: Tx): nat {
    var full := if s.cell == SENTINEL then 0 else 60;
    match s.pc
    case Poll => if s.hold == 0 then full else s.hold + 1 + full
    case LoadCell => if s.cell == SENTINEL then 1 else 59
    case DropLsr(_) => 58
    case LoadLcr(_) => 57
    case TakeDivisor(_) => 56
    case TakeByte(_) => 56
    case StartPush(_) => 40 + full
    case Pushing => 30 + PushLeft(s.feed.tp) + full
    case SetLsr => 1 + full
  }

  predicate AtRest(s: Tx) {
    s.pc.Poll? && s.hold == 0 && s.cell == SENTINEL
  }

  lemma PollProgress(k: nat, s: Tx)
    requires k <= 31 && UartFeed.Inv(k, s.feed) && IdleInv(s) && LsrInv(s) && !AtRest(s)
    ensures PollsLeft(PollStep(k, s)) < PollsLeft(s) && PollStep(k, s).sent == s.sent
  {
    if s.pc.Pushing? && !s.feed.tp.Idle? {
      PushProgress(k, s.feed);
    }
  }

  lemma ProgressAt(k: nat, p: Policy, acts: seq<Action>)
    requires k <= 31 && !AtRest(Run(k, p, acts))
    ensures var s := Run(k, p, acts); PollsLeft(PollStep(k, s)) < PollsLeft(s) && PollStep(k, s).sent == s.sent
  {
    FeedProjects(k, p, acts);
    UartFeed.RunInv(k, FeedActs(k, p, acts));
    IdleRun(k, p, acts);
    LsrRun(k, p, acts);
    PollProgress(k, Run(k, p, acts));
  }

  /** By itself TRISC0 takes what is in the cell, pushes it and lets its hold run out. */
  lemma {:induction false} CoreRests(k: nat, p: Policy, acts: seq<Action>) returns (more: seq<Action>)
    requires k <= 31
    ensures AtRest(Run(k, p, acts + more)) && Run(k, p, acts + more).sent == Run(k, p, acts).sent
    ensures forall i :: 0 <= i < |more| ==> more[i].Core?
    decreases PollsLeft(Run(k, p, acts))
  {
    var s := Run(k, p, acts);
    if AtRest(s) {
      more := [];
      assert acts + more == acts;
    } else {
      ProgressAt(k, p, acts);
      Do(k, p, acts, Core);
      var rest := CoreRests(k, p, acts + [Core]);
      more := [Core] + rest;
      assert acts + [Core] + rest == acts + more;
    }
  }

  /** For a guest that keeps the two conditions, from every reachable state TRISC0 and the daemon alone
      bring the whole stream through: every data byte written is kept or dropped, in order, LSR reads
      ready, and the hub has every byte that was kept. */
  lemma WholeStreamCanBeDelivered(k: nat, p: Policy, acts: seq<Action>) returns (more: seq<Action>)
    requires k <= 31 && p.polled && p.drained
    ensures var s, t := Run(k, p, acts), Run(k, p, acts + more);
      && t.sent == s.sent == Bytes(t.feed.outcomes) && t.feed.out == KeptBytes(t.feed.outcomes)
      && t.cell == SENTINEL && t.lsr == LSR_READY
    ensures forall i :: 0 <= i < |more| ==> more[i].Core? || more[i].Daemon?
  {
    var cores := CoreRests(k, p, acts);
    RunInv(k, p, acts + cores);
    var n := DeliveredFromRest(k, p, acts + cores);
    more := cores + Daemons(n);
    assert acts + cores + Daemons(n) == acts + more;
  }

  lemma DeliveredFromRest(k: nat, p: Policy, acts: seq<Action>) returns (n: nat)
    requires k <= 31 && Inv(Run(k, p, acts)) && AtRest(Run(k, p, acts))
    ensures var s, t := Run(k, p, acts), Run(k, p, acts + Daemons(n));
      && t.sent == s.sent == Bytes(t.feed.outcomes) && t.feed.out == KeptBytes(t.feed.outcomes)
      && t.cell == SENTINEL && t.lsr == LSR_READY
  {
    n := KeptBytesCanBeDelivered(k, p, acts);
    RestIsEmpty(Run(k, p, acts));
  }

  lemma RestIsEmpty(s: Tx)
    requires Inv(s) && AtRest(s)
    ensures s.sent == Bytes(s.feed.outcomes) && s.lsr == LSR_READY
  {
    assert InFlight(s) == [];
  }

  // ---- each condition is needed ----

  lemma DoTwo(k: nat, p: Policy, acts: seq<Action>, a: Action, b: Action) returns (r: seq<Action>)
    ensures Run(k, p, r) == Step(k, p, Step(k, p, Run(k, p, acts), a), b)
  {
    Do(k, p, acts, a);
    Do(k, p, acts + [a], b);
    r := acts + [a] + [b];
  }

  /** The driver reads LSR ready and writes a data byte. */
  lemma WriteByte(k: nat, p: Policy, acts: seq<Action>, b: int) returns (r: seq<Action>)
    requires 0 <= b < 256
    requires var s := Run(k, p, acts); s.lsr == LSR_READY && !s.dlab && (p.polled ==> s.since == Polled)
    ensures var s := Run(k, p, acts);
      Run(k, p, r) == s.(cell := b, mayWrite := false, since := NoPoll, isData := true, sent := s.sent + [b])
  {
    r := DoTwo(k, p, acts, ReadLsr, WriteThr(b));
  }

  /** Without a poll in between, the second byte overwrites the first. */
  lemma OverwrittenByte(k: nat, p: Policy) returns (r: seq<Action>)
    requires !p.polled
    ensures !StreamOk(Run(k, p, r))
  {
    r := WriteByte(k, p, [], 65);
    r := WriteByte(k, p, r, 66);
  }

  /** TRISC0 finds a byte in the cell. */
  lemma Noticed(k: nat, s: Tx)
    requires s.pc.Poll? && s.hold == 0 && 0 <= s.cell < 256
    ensures PollStep(k, PollStep(k, s)) ==
      s.(pc := DropLsr(s.cell), since := if s.since == NoPoll then InPoll else s.since)
  {
  }

  /** It drops LSR, finds DLAB clear and takes the byte. */
  lemma Classified(k: nat, s: Tx)
    requires s.pc.DropLsr? && 0 <= s.pc.v < 256 && !s.dlab
    ensures PollStep(k, PollStep(k, PollStep(k, s))) == s.(cell := SENTINEL, lsr := 0, pc := StartPush(s.pc.v))
  {
  }

  /** TRISC0 polls a byte in the cell up to its push. */
  lemma Taken(k: nat, p: Policy, acts: seq<Action>) returns (r: seq<Action>)
    requires var s := Run(k, p, acts); s.pc.Poll? && s.hold == 0 && 0 <= s.cell < 256 && !s.dlab
    ensures var s := Run(k, p, acts);
      Run(k, p, r) == s.(cell := SENTINEL, lsr := 0, pc := StartPush(s.cell),
                         since := if s.since == NoPoll then InPoll else s.since)
  {
    var s := Run(k, p, acts);
    Noticed(k, s);
    Classified(k, PollStep(k, PollStep(k, s)));
    r := DoTwo(k, p, acts, Core, Core);
    r := DoTwo(k, p, r, Core, Core);
    Do(k, p, r, Core);
    r := r + [Core];
  }

  /** The first push into an empty ring. */
  lemma PushedFirst(k: nat, p: Policy, acts: seq<Action>) returns (r: seq<Action>)
    requires k <= 31
    requires var s := Run(k, p, acts);
      s.feed == UartFeed.Init(k) && s.pc == StartPush(65) && s.since == InPoll && s.lsr == 0
    ensures var s, t := Run(k, p, acts), Run(k, p, r);
      && t == s.(pc := Poll, hold := HOLD_SWEEPS, since := Polled, feed := t.feed)
      && t.feed.tp.Idle? && t.feed.outcomes == [Kept(65)]
  {
    FirstPush(k);
    r := DoTwo(k, p, acts, Core, Core);
    r := DoTwo(k, p, r, Core, Core);
    Do(k, p, r, Core);
    r := r + [Core];
  }

  lemma FirstPush(k: nat)
    requires k <= 31
    ensures var f := UartFeed.Step(k, UartFeed.Init(k), Push(65));
      var g := Trisc0Step(k, Trisc0Step(k, Trisc0Step(k, f)));
      && f.tp.RdConsumer? && Trisc0Step(k, f).tp.StoreCell? && Trisc0Step(k, Trisc0Step(k, f)).tp.StoreSeq?
      && g.tp.Idle? && g.outcomes == [Kept(65)]
  {
    SlotOfZero(k);
    assert [] + [Kept(65)] == [Kept(65)];
  }

  lemma SlotOfZero(k: nat)
    ensures Slot(0, k) == 0
  {
  }

  /** TRISC0 polls the hold down. */
  lemma {:induction false} PollDown(k: nat, p: Policy, acts: seq<Action>) returns (r: seq<Action>)
    requires Run(k, p, acts).pc.Poll? && Run(k, p, acts).since == Polled && Run(k, p, acts).hold > 0
    ensures var s := Run(k, p, acts); Run(k, p, r) == s.(hold := 0, lsr := LSR_READY)
    decreases Run(k, p, acts).hold
  {
    if Run(k, p, acts).hold == 1 {
      r := DoTwo(k, p, acts, Core, Core);
    } else {
      Do(k, p, acts, Core);
      r := PollDown(k, p, acts + [Core]);
    }
  }

  /** The driver sets DLAB during the hold and writes a divisor byte, which the next poll leaves. */
  lemma DivisorInHold(k: nat, p: Policy, acts: seq<Action>) returns (r: seq<Action>)
    requires p.polled && !p.drained
    requires var s := Run(k, p, acts);
      s.pc.Poll? && s.since == Polled && s.hold == HOLD_SWEEPS && s.cell == SENTINEL && !s.dlab
    ensures var s := Run(k, p, acts);
      Run(k, p, r) == s.(hold := 0, lsr := LSR_READY, cell := 12, isData := false, mayWrite := false)
  {
    r := DoTwo(k, p, acts, SetDlab(true), WriteThr(12));
    r := DoTwo(k, p, r, Core, SetDlab(false));
    r := PollDown(k, p, r);
  }

  /** A divisor written while THRE is held outlives DLAB and goes out as a data byte. */
  lemma LeakedDivisor(k: nat, p: Policy) returns (r: seq<Action>)
    requires k <= 31 && p.polled && !p.drained
    ensures !StreamOk(Run(k, p, r))
  {
    r := WriteByte(k, p, [], 65);
    r := Taken(k, p, r);
    r := PushedFirst(k, p, r);
    r := DivisorInHold(k, p, r);
    r := Taken(k, p, r);
    assert Bytes([Kept(65)]) == [65];
  }

  /** The guest's byte stream is conserved in every run exactly when a whole poll follows each THR
      write and DLAB is set only after a ready LSR. */
  lemma ConservedIff(k: nat, p: Policy)
    requires k <= 31
    ensures Conserved(k, p) <==> p.polled && p.drained
  {
    if p.polled && p.drained {
      forall acts
        ensures StreamOk(Run(k, p, acts))
      {
        RunInv(k, p, acts);
      }
    } else {
      var r: seq<Action>;
      if p.polled {
        r := LeakedDivisor(k, p);
      } else {
        r := OverwrittenByte(k, p);
      }
      assert !StreamOk(Run(k, p, r));
    }
  }
}
