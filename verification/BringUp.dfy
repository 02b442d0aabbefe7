/** `bring_up`, the firmware's start-up and `adopt_running`: stats magic, version stamp and the
    hello handshake, interleaved one L1 access at a time, from any leftover L1 contents. */
module BringUp {
  import opened Words

  /** The firmware's and the daemon's build constants. */
  datatype Config = Config(fwVersion: u32, fwProtocol: u32, buildId: u32, protocol: u32) {
    /** Both sides were built with the same protocol version, which fits a byte and is not 0. */
    predicate Matched() {
      fwProtocol == protocol && 1 <= protocol < 256 && fwVersion != 0
    }
  }

  /** The L1 words involved; a magic word is true when it holds its magic value. */
  datatype L1 = L1(magic: bool, version: u32, hello: bool, ack: bool, ackProtocol: u32, ackVersion: u32)

  /** BRISC's next store or test, in program order. */
  datatype Brisc =
    | ZeroVersion | ZeroMagic | PutVersion | PutMagic
    | ZeroHello | ZeroAckProtocol | ZeroAckVersion | ZeroAck
    | AwaitHello | PutAckProtocol | PutAckVersion | PutAck
    | Steady

  datatype Daemon =
    | AwaitMagic | Stamp | PutHello | AwaitAck
    | ReadProtocol | ReadVersion(p: u32) | Check(p: u32, v: u32)
    | Up(p: u32, v: u32) | Failed

  datatype State = State(l1: L1, brisc: Brisc, daemon: Daemon)

  datatype Action = StepBrisc | StepDaemon | Timeout

  function Order(b: Brisc): nat {
    match b
    case ZeroVersion => 0 case ZeroMagic => 1 case PutVersion => 2 case PutMagic => 3
    case ZeroHello => 4 case ZeroAckProtocol => 5 case ZeroAckVersion => 6 case ZeroAck => 7
    case AwaitHello => 8 case PutAckProtocol => 9 case PutAckVersion => 10 case PutAck => 11
    case Steady => 12
  }

  /** `(FW_BUILD_ID << 8) | PROTOCOL_VERSION` on a 32-bit word: the shift drops the top eight bits
      of the build id. */
  function Stamped(c: Config): u32 {
    c.buildId % 0x100_0000 * 256 + c.protocol % 256
  }

  function BriscStep(c: Config, s: State): State {
    match s.brisc
    case ZeroVersion => s.(l1 := s.l1.(version := 0), brisc := ZeroMagic)
    case ZeroMagic => s.(l1 := s.l1.(magic := false), brisc := PutVersion)
    case PutVersion => s.(l1 := s.l1.(version := c.fwVersion), brisc := PutMagic)
    case PutMagic => s.(l1 := s.l1.(magic := true), brisc := ZeroHello)
    case ZeroHello => s.(l1 := s.l1.(hello := false), brisc := ZeroAckProtocol)
    case ZeroAckProtocol => s.(l1 := s.l1.(ackProtocol := 0), brisc := ZeroAckVersion)
    case ZeroAckVersion => s.(l1 := s.l1.(ackVersion := 0), brisc := ZeroAck)
    case ZeroAck => s.(l1 := s.l1.(ack := false), brisc := AwaitHello)
    case AwaitHello => if s.l1.hello then s.(brisc := PutAckProtocol) else s
    case PutAckProtocol => s.(l1 := s.l1.(ackProtocol := c.fwProtocol), brisc := PutAckVersion)
    case PutAckVersion => s.(l1 := s.l1.(ackVersion := c.fwVersion), brisc := PutAck)
    case PutAck => s.(l1 := s.l1.(ack := true), brisc := Steady)
    case Steady => s
  }

  function DaemonStep(c: Config, s: State): State {
    match s.daemon
    case AwaitMagic => if s.l1.magic then s.(daemon := Stamp) else s
    case Stamp => s.(l1 := s.l1.(version := Stamped(c)), daemon := PutHello)
    case PutHello => s.(l1 := s.l1.(hello := true), daemon := AwaitAck)
    case AwaitAck => if s.l1.ack then s.(daemon := ReadProtocol) else s
    case ReadProtocol => s.(daemon := ReadVersion(s.l1.ackProtocol))
    case ReadVersion(p) => s.(daemon := Check(p, s.l1.ackVersion))
    case Check(p, v) => s.(daemon := if p == c.protocol then Up(p, v) else Failed)
    case Up(_, _) => s
    case Failed => s
  }

  function Step(c: Config, s: State, a: Action): State {
    match a
    case StepBrisc => BriscStep(c, s)
    case StepDaemon => DaemonStep(c, s)
    case Timeout => if s.daemon == AwaitMagic || s.daemon == AwaitAck then s.(daemon := Failed) else s
  }

  function Run(c: Config, l1: L1, acts: seq<Action>): State {
    if acts == [] then State(l1, ZeroVersion, AwaitMagic)
    else Step(c, Run(c, l1, acts[..|acts| - 1]), acts[|acts| - 1])
  }

  lemma Do(c: Config, l1: L1, acts: seq<Action>, a: Action)
    ensures Run(c, l1, acts + [a]) == Step(c, Run(c, l1, acts), a)
  {
    var all := acts + [a];
    assert all[..|all| - 1] == acts;
  }

  predicate Stamping(d: Daemon) {
    d == AwaitMagic || d == Stamp || d == Failed
  }

  predicate Reading(d: Daemon) {
    d.ReadProtocol? || d.ReadVersion? || d.Check? || d.Up?
  }

  // ---- the stamp ----

  /** Without a leftover magic the daemon stamps only after the firmware's own version store. */
  predicate StampInv(c: Config, s: State) {
    && (s.l1.magic ==> Order(s.brisc) > Order(PutMagic))
    && (s.daemon != AwaitMagic && s.daemon != Failed ==> Order(s.brisc) > Order(PutMagic))
    && (Order(s.brisc) > Order(PutMagic) ==> s.l1.magic)
    && (!Stamping(s.daemon) ==> s.l1.version == Stamped(c))
  }

  lemma {:induction false} StampRun(c: Config, l1: L1, acts: seq<Action>)
    requires !l1.magic
    ensures StampInv(c, Run(c, l1, acts))
  {
    if acts == [] {
    } else {
      StampRun(c, l1, acts[..|acts| - 1]);
    }
  }

  /** From the stamp on, in every interleaving, the version word stays the daemon's. */
  lemma StampStays(c: Config, l1: L1, acts: seq<Action>)
    requires !l1.magic && !Stamping(Run(c, l1, acts).daemon)
    ensures Run(c, l1, acts).l1.version == Stamped(c) && Run(c, l1, acts).l1.magic
  {
    StampRun(c, l1, acts);
  }

  // ---- the ack ----

  predicate FwAck(c: Config, s: State) {
    s.l1.ackProtocol == c.fwProtocol && s.l1.ackVersion == c.fwVersion
  }

  /** Without a leftover ack the magic appears only after the two version words. */
  predicate AckInv(c: Config, s: State) {
    && (s.l1.ack ==> s.brisc == Steady)
    && (s.brisc == Steady ==> s.l1.ack && FwAck(c, s))
    && (Order(s.brisc) > Order(PutAckProtocol) ==> s.l1.ackProtocol == c.fwProtocol)
    && (Order(s.brisc) > Order(PutAckVersion) ==> s.l1.ackVersion == c.fwVersion)
    && (Reading(s.daemon) ==> s.brisc == Steady)
    && (s.daemon.ReadVersion? ==> s.daemon.p == c.fwProtocol)
    && (s.daemon.Check? || s.daemon.Up? ==> s.daemon.p == c.fwProtocol && s.daemon.v == c.fwVersion)
    && (s.daemon.Up? ==> s.daemon.p == c.protocol)
  }

  lemma AckStep(c: Config, s: State, a: Action)
    requires AckInv(c, s)
    ensures AckInv(c, Step(c, s, a))
  {
  }

  lemma {:induction false} AckRun(c: Config, l1: L1, acts: seq<Action>)
    requires !l1.ack
    ensures AckInv(c, Run(c, l1, acts))
  {
    if acts == [] {
    } else {
      AckRun(c, l1, acts[..|acts| - 1]);
      AckStep(c, Run(c, l1, acts[..|acts| - 1]), acts[|acts| - 1]);
    }
  }

  /** A successful `bring_up` has read the firmware's own constants, and they are compatible. */
  lemma AckIsFirmwares(c: Config, l1: L1, acts: seq<Action>)
    requires !l1.ack && Run(c, l1, acts).daemon.Up?
    ensures Run(c, l1, acts).daemon == Up(c.fwProtocol, c.fwVersion) && c.fwProtocol == c.protocol
  {
    AckRun(c, l1, acts);
  }

  // ---- leftovers ----

  lemma Two(c: Config, l1: L1, acts: seq<Action>, a: Action) returns (more: seq<Action>)
    ensures Run(c, l1, more) == Step(c, Step(c, Run(c, l1, acts), a), a)
  {
    Do(c, l1, acts, a);
    Do(c, l1, acts + [a], a);
    more := acts + [a] + [a];
  }

  lemma Four(c: Config, l1: L1, acts: seq<Action>, a: Action) returns (more: seq<Action>)
    ensures Run(c, l1, more) == Step(c, Step(c, Step(c, Step(c, Run(c, l1, acts), a), a), a), a)
  {
    more := Two(c, l1, acts, a);
    more := Two(c, l1, more, a);
  }

  /** The firmware wipes both pages; the daemon stays where it is. */
  lemma Wiped(c: Config, l1: L1, acts: seq<Action>) returns (more: seq<Action>)
    requires Run(c, l1, acts).brisc == ZeroVersion
    ensures var s := Run(c, l1, acts);
      Run(c, l1, more) == s.(l1 := L1(true, c.fwVersion, false, false, 0, 0), brisc := AwaitHello)
  {
    more := Four(c, l1, acts, StepBrisc);
    more := Four(c, l1, more, StepBrisc);
  }

  lemma Acked(c: Config, l1: L1, acts: seq<Action>) returns (more: seq<Action>)
    requires var s := Run(c, l1, acts); s.l1.hello && s.brisc == AwaitHello
    ensures var s := Run(c, l1, acts);
      Run(c, l1, more) == s.(l1 := L1(s.l1.magic, s.l1.version, true, true, c.fwProtocol, c.fwVersion), brisc := Steady)
  {
    more := Four(c, l1, acts, StepBrisc);
  }

  /** With both magics in place the daemon stamps, says hello and takes the ack magic. */
  lemma Greets(c: Config, l1: L1, acts: seq<Action>) returns (more: seq<Action>)
    requires var s := Run(c, l1, acts); s.daemon == AwaitMagic && s.l1.magic && s.l1.ack
    ensures var s, t := Run(c, l1, acts), Run(c, l1, more);
      && t.daemon == ReadProtocol && t.brisc == s.brisc
      && t.l1 == s.l1.(version := Stamped(c), hello := true)
  {
    more := Four(c, l1, acts, StepDaemon);
  }

  /** From the daemon's hello store on, with the firmware waiting, both finish. */
  lemma Finishes(c: Config, l1: L1, acts: seq<Action>) returns (more: seq<Action>)
    requires c.fwProtocol == c.protocol
    requires var s := Run(c, l1, acts); s.daemon == PutHello && s.brisc == AwaitHello
    ensures var s, t := Run(c, l1, acts), Run(c, l1, more);
      t.daemon == Up(c.fwProtocol, c.fwVersion) && t.l1.version == s.l1.version
  {
    Do(c, l1, acts, StepDaemon);
    more := Acked(c, l1, acts + [StepDaemon]);
    more := Four(c, l1, more, StepDaemon);
  }

  /** A leftover stats magic lets the daemon stamp before the firmware starts; the firmware then
      overwrites the stamp and `bring_up` still succeeds. */
  lemma StampLost(c: Config, l1: L1) returns (acts: seq<Action>)
    requires l1.magic && c.fwProtocol == c.protocol
    ensures Run(c, l1, acts).daemon.Up? && Run(c, l1, acts).l1.version == c.fwVersion
  {
    acts := Two(c, l1, [], StepDaemon);
    acts := Wiped(c, l1, acts);
    acts := Finishes(c, l1, acts);
  }

  /** Leftovers of a whole earlier session let `bring_up` succeed before the firmware starts; its
      first store then zeroes the stamp. */
  lemma StampWiped(c: Config, l1: L1) returns (acts: seq<Action>)
    requires l1.magic && l1.ack && l1.ackProtocol == c.protocol
    ensures Run(c, l1, acts).daemon.Up? && Run(c, l1, acts).l1.version == 0
  {
    acts := Greets(c, l1, []);
    acts := Two(c, l1, acts, StepDaemon);
    Do(c, l1, acts, StepDaemon);
    Do(c, l1, acts + [StepDaemon], StepBrisc);
    acts := acts + [StepDaemon] + [StepBrisc];
  }

  /** With the same word on both sides it does not matter whose store came last. */
  predicate SameInv(c: Config, l1: L1, s: State) {
    && (Order(s.brisc) > Order(PutVersion) ==> s.l1.version == Stamped(c))
    && (Order(s.brisc) <= Order(ZeroAckProtocol) ==>
          && s.l1.ackProtocol == l1.ackProtocol
          && (s.daemon.ReadVersion? || s.daemon.Check? || s.daemon.Up? ==> s.daemon.p == l1.ackProtocol))
    && (!l1.ack && Order(s.brisc) <= Order(ZeroAck) ==> !s.l1.ack && !Reading(s.daemon))
    && (s.daemon.Up? ==> s.daemon.p == c.protocol)
  }

  lemma SameStep(c: Config, l1: L1, s: State, a: Action)
    requires c.fwVersion == Stamped(c) && SameInv(c, l1, s)
    ensures SameInv(c, l1, Step(c, s, a))
  {
    if a.StepBrisc? {
      SameBrisc(c, l1, s);
    }
  }

  lemma SameBrisc(c: Config, l1: L1, s: State)
    requires c.fwVersion == Stamped(c) && SameInv(c, l1, s)
    ensures SameInv(c, l1, BriscStep(c, s))
  {
  }

  lemma {:induction false} SameRun(c: Config, l1: L1, acts: seq<Action>)
    requires c.fwVersion == Stamped(c)
    ensures SameInv(c, l1, Run(c, l1, acts))
  {
    if acts == [] {
    } else {
      SameRun(c, l1, acts[..|acts| - 1]);
      SameStep(c, l1, Run(c, l1, acts[..|acts| - 1]), acts[|acts| - 1]);
    }
  }

  ghost predicate StampKept(c: Config, l1: L1) {
    forall acts: seq<Action> :: Run(c, l1, acts).daemon.Up? ==> Run(c, l1, acts).l1.version == Stamped(c)
  }

  /** A full set of leftovers: `bring_up` can finish on them alone. */
  predicate Leftover(c: Config, l1: L1) {
    l1.magic && l1.ack && l1.ackProtocol == c.protocol
  }

  /** The stamp survives every successful `bring_up` exactly when no stats magic was left over, or
      the firmware carries the same word and no acceptable ack was left over with it. */
  lemma StampKeptIff(c: Config, l1: L1)
    requires c.Matched()
    ensures StampKept(c, l1) <==> !l1.magic || (c.fwVersion == Stamped(c) && !Leftover(c, l1))
  {
    if !l1.magic {
      forall acts: seq<Action> | Run(c, l1, acts).daemon.Up? ensures Run(c, l1, acts).l1.version == Stamped(c) {
        StampStays(c, l1, acts);
      }
    } else if Leftover(c, l1) {
      var acts := StampWiped(c, l1);
      assert Run(c, l1, acts).l1.version != Stamped(c);
    } else if c.fwVersion == Stamped(c) {
      forall acts: seq<Action> | Run(c, l1, acts).daemon.Up? ensures Run(c, l1, acts).l1.version == Stamped(c) {
        SameRun(c, l1, acts);
      }
    } else {
      var acts := StampLost(c, l1);
      assert Run(c, l1, acts).l1.version != Stamped(c);
    }
  }

  /** The firmware wipes the ack, finds the hello and writes the first word of its answer. */
  lemma HalfAcked(c: Config, l1: L1, acts: seq<Action>) returns (more: seq<Action>)
    requires var s := Run(c, l1, acts); s.brisc == ZeroAckProtocol && s.l1.hello
    ensures var s, t := Run(c, l1, acts), Run(c, l1, more);
      t.daemon == s.daemon && t.l1.ackProtocol == c.fwProtocol && t.l1.ackVersion == 0
  {
    more := Four(c, l1, acts, StepBrisc);
    Do(c, l1, more, StepBrisc);
    more := more + [StepBrisc];
  }

  /** A leftover ack magic: the daemon takes it before the wipe reaches it, then reads a protocol
      word the firmware has just written and a version word it has not. */
  lemma AckTorn(c: Config, l1: L1) returns (acts: seq<Action>)
    requires l1.ack && c.fwProtocol == c.protocol
    ensures Run(c, l1, acts).daemon == Up(c.fwProtocol, 0)
  {
    acts := Four(c, l1, [], StepBrisc);
    Do(c, l1, acts, StepBrisc);
    acts := Greets(c, l1, acts + [StepBrisc]);
    acts := HalfAcked(c, l1, acts);
    acts := Two(c, l1, acts, StepDaemon);
    Do(c, l1, acts, StepDaemon);
    acts := acts + [StepDaemon];
  }

  ghost predicate AckAuthentic(c: Config, l1: L1) {
    forall acts: seq<Action> :: Run(c, l1, acts).daemon.Up? ==> Run(c, l1, acts).daemon == Up(c.fwProtocol, c.fwVersion)
  }

  /** A successful `bring_up` always reports the firmware's constants exactly when no ack magic
      was left over. */
  lemma AckAuthenticIff(c: Config, l1: L1)
    requires c.Matched()
    ensures AckAuthentic(c, l1) <==> !l1.ack
  {
    if !l1.ack {
      forall acts: seq<Action> | Run(c, l1, acts).daemon.Up?
        ensures Run(c, l1, acts).daemon == Up(c.fwProtocol, c.fwVersion)
      {
        AckIsFirmwares(c, l1, acts);
      }
    } else {
      var acts := AckTorn(c, l1);
      assert Run(c, l1, acts).daemon != Up(c.fwProtocol, c.fwVersion);
    }
  }

  // ---- time-outs ----

  lemma {:induction false} FailedStays(c: Config, l1: L1, acts: seq<Action>, more: seq<Action>)
    requires Run(c, l1, acts).daemon == Failed
    ensures Run(c, l1, acts + more).daemon == Failed
    decreases |more|
  {
    if more == [] {
      assert acts + more == acts;
    } else {
      var init, a := more[..|more| - 1], more[|more| - 1];
      FailedStays(c, l1, acts, init);
      assert acts + more == acts + init + [a];
      Do(c, l1, acts + init, a);
    }
  }

  /** A time-out strikes only while the daemon waits for a magic word; it ends `bring_up` for good. */
  lemma TimeoutIsFinal(c: Config, l1: L1, acts: seq<Action>, more: seq<Action>)
    ensures var s := Run(c, l1, acts);
      if s.daemon == AwaitMagic || s.daemon == AwaitAck then Run(c, l1, acts + [Timeout] + more).daemon == Failed
      else Run(c, l1, acts + [Timeout]) == s
  {
    Do(c, l1, acts, Timeout);
    if Run(c, l1, acts + [Timeout]).daemon == Failed {
      FailedStays(c, l1, acts + [Timeout], more);
    }
  }

  // ---- when bring-up can still succeed ----

  predicate Early(d: Daemon) {
    d == AwaitMagic || d == Stamp || d == PutHello
  }

  /** The firmware will answer: it has seen the hello, or the hello is past the wipe. */
  predicate WillAck(s: State) {
    Order(s.brisc) > Order(AwaitHello) || (s.l1.hello && Order(s.brisc) > Order(ZeroHello))
  }

  /** What is left of the handshake can still come out right. */
  predicate Hopeful(c: Config, s: State) {
    match s.daemon
    case AwaitAck => WillAck(s) || (s.l1.ack && s.l1.ackProtocol == c.protocol)
    case ReadProtocol => WillAck(s) || s.l1.ackProtocol == c.protocol
    case ReadVersion(p) => p == c.protocol
    case Check(p, _) => p == c.protocol
    case Failed => false
    case _ => true
  }

  /** How the two programs' progress shows in L1, whatever was left over. */
  predicate ProgressInv(c: Config, s: State) {
    && (Order(s.brisc) > Order(PutMagic) ==> s.l1.magic)
    && (Order(s.brisc) > Order(PutAckProtocol) ==> s.l1.ackProtocol == c.fwProtocol)
    && (s.brisc == Steady ==> s.l1.ack)
    && (Early(s.daemon) ==> Order(s.brisc) <= Order(AwaitHello) && (Order(s.brisc) > Order(ZeroHello) ==> !s.l1.hello))
  }

  lemma ProgressStep(c: Config, s: State, a: Action)
    requires ProgressInv(c, s)
    ensures ProgressInv(c, Step(c, s, a))
  {
  }

  lemma {:induction false} ProgressRun(c: Config, l1: L1, acts: seq<Action>)
    ensures ProgressInv(c, Run(c, l1, acts))
  {
    if acts == [] {
    } else {
      ProgressRun(c, l1, acts[..|acts| - 1]);
      ProgressStep(c, Run(c, l1, acts[..|acts| - 1]), acts[|acts| - 1]);
    }
  }

  lemma HopelessStep(c: Config, s: State, a: Action)
    requires c.Matched() && ProgressInv(c, s) && !Hopeful(c, s)
    ensures !Hopeful(c, Step(c, s, a)) && !Step(c, s, a).daemon.Up?
  {
  }

  lemma {:induction false} Hopeless(c: Config, l1: L1, acts: seq<Action>, tail: seq<Action>)
    requires c.Matched() && !Hopeful(c, Run(c, l1, acts))
    ensures !Hopeful(c, Run(c, l1, acts + tail))
    decreases |tail|
  {
    if tail == [] {
      assert acts + tail == acts;
    } else {
      var shorter, a := tail[..|tail| - 1], tail[|tail| - 1];
      Hopeless(c, l1, acts, shorter);
      ProgressRun(c, l1, acts + shorter);
      HopelessStep(c, Run(c, l1, acts + shorter), a);
      Do(c, l1, acts + shorter, a);
      assert acts + tail == acts + shorter + [a];
    }
  }

  function Left(s: State): nat {
    12 - Order(s.brisc) + match s.daemon
    case AwaitMagic => 7 case Stamp => 6 case PutHello => 5 case AwaitAck => 4
    case ReadProtocol => 3 case ReadVersion(_) => 2 case Check(_, _) => 1
    case Up(_, _) => 0 case Failed => 0
  }

  /** Whose step leads on: the firmware's wipe before the hello, its answer before the ack is read. */
  function Turn(s: State): Action {
    if Early(s.daemon) then if Order(s.brisc) < Order(AwaitHello) then StepBrisc else StepDaemon
    else if (s.daemon == AwaitAck || s.daemon == ReadProtocol) && WillAck(s) && s.brisc != Steady then StepBrisc
    else StepDaemon
  }

  lemma TurnHelps(c: Config, s: State)
    requires c.Matched() && ProgressInv(c, s) && Hopeful(c, s) && !s.daemon.Up?
    ensures var t := Step(c, s, Turn(s)); Left(t) < Left(s) && Hopeful(c, t)
  {
  }

  lemma {:induction false} Succeeds(c: Config, l1: L1, acts: seq<Action>) returns (tail: seq<Action>)
    requires c.Matched() && Hopeful(c, Run(c, l1, acts))
    ensures Run(c, l1, acts + tail).daemon.Up?
    decreases Left(Run(c, l1, acts))
  {
    var s := Run(c, l1, acts);
    if s.daemon.Up? {
      tail := [];
      assert acts + tail == acts;
    } else {
      ProgressRun(c, l1, acts);
      TurnHelps(c, s);
      Do(c, l1, acts, Turn(s));
      tail := Succeeds(c, l1, acts + [Turn(s)]);
      tail := [Turn(s)] + tail;
      assert acts + [Turn(s)] + tail[1..] == acts + tail;
    }
  }

  /** For any leftover contents, from any reachable state: `bring_up` can still succeed exactly while
      the hello has not been stored, or the firmware will answer it, or an acceptable leftover ack is
      still to be read. */
  lemma CanSucceedIff(c: Config, l1: L1, acts: seq<Action>)
    requires c.Matched()
    ensures (exists tail: seq<Action> :: Run(c, l1, acts + tail).daemon.Up?) <==> Hopeful(c, Run(c, l1, acts))
  {
    if Hopeful(c, Run(c, l1, acts)) {
      var tail := Succeeds(c, l1, acts);
    } else {
      forall tail: seq<Action> ensures !Run(c, l1, acts + tail).daemon.Up? {
        Hopeless(c, l1, acts, tail);
      }
    }
  }

  /** The stats magic is stored before the wipe, so from clean pages the hello can come too early. */
  lemma HelloCanBeLost(c: Config, l1: L1) returns (acts: seq<Action>)
    requires !l1.magic && !l1.ack
    ensures Run(c, l1, acts).daemon == AwaitAck && !Hopeful(c, Run(c, l1, acts))
  {
    acts := Four(c, l1, [], StepBrisc);
    acts := Hailed(c, l1, acts);
  }

  /** The daemon sees the stats magic, stamps and says hello. */
  lemma Hailed(c: Config, l1: L1, acts: seq<Action>) returns (more: seq<Action>)
    requires var s := Run(c, l1, acts); s.daemon == AwaitMagic && s.l1.magic
    ensures var s := Run(c, l1, acts);
      Run(c, l1, more) == s.(daemon := AwaitAck, l1 := s.l1.(version := Stamped(c), hello := true))
  {
    more := Two(c, l1, acts, StepDaemon);
    Do(c, l1, more, StepDaemon);
    more := more + [StepDaemon];
  }

  // ---- adoption ----

  /** The version checks of `adopt_running` for a daemon with constants `d`. */
  predicate Adopts(d: Config, l1: L1) {
    l1.magic && l1.version % 256 == d.protocol && l1.version / 256 % 0x100_0000 == d.buildId % 0x100_0000
  }

  lemma StampParts(c: Config)
    requires c.protocol < 256
    ensures Stamped(c) % 256 == c.protocol && Stamped(c) / 256 == c.buildId % 0x100_0000
  {
  }

  /** After a `bring_up` from clean stats, a daemon adopts exactly when its protocol and the low
      24 bits of its build id are those of the daemon that stamped. */
  lemma AdoptIff(c: Config, l1: L1, acts: seq<Action>, d: Config)
    requires !l1.magic && c.protocol < 256 && Run(c, l1, acts).daemon.Up?
    ensures Adopts(d, Run(c, l1, acts).l1) <==>
      d.protocol == c.protocol && d.buildId % 0x100_0000 == c.buildId % 0x100_0000
  {
    StampStays(c, l1, acts);
    StampParts(c);
  }
}
