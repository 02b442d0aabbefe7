/** One (slot, queue): guest publishes chains and writes QUEUE_NOTIFY, BRISC turns the write
    into a dirty byte, the daemon scans, clears and drains. Every load and store is a step. */
module Wakeup {
  /** The visible QUEUE_NOTIFY word: the sentinel, this queue, or another queue of the slot. */
  datatype Note = Sentinel | Mine | Other

  datatype Brisc = Polling | Setting(mine: bool) | Clearing

  /** The daemon's pass over this queue: the dirty byte, the dispatch it asks for, and for an
      RX-polled queue a second dispatch (`rx`) without a dirty byte. `took`: this dispatch has
      consumed a chain. */
  datatype Daemon = Idle | AtRead | AtClear | Hit | AtAvail(rx: bool, took: bool) | AtChain(rx: bool)

  /** `polite`: the guest writes QUEUE_NOTIFY only after reading the sentinel back.
      `valid`: every chain it publishes is well formed.
      `supplied`: the device always has data for the queue.
      `rx`: the queue is queue 0 of a net or console slot, dispatched in every pass.
      `num` is the ring size. */
  datatype Policy = Policy(polite: bool, valid: bool, supplied: bool, rx: bool, num: nat)

  /** `chains[k]` says whether the k-th published chain is well formed. `told` and `owed` are
      the publish counts at the guest's last notify and at BRISC's last dirty store. `found`: the
      last RX dispatch consumed something, or a chain was published since it ended. */
  datatype State = State(
    chains: seq<bool>, told: nat, note: Note,
    brisc: Brisc, dirty: bool, owed: nat, sets: nat,
    daemon: Daemon, processed: nat, setsAtDispatch: nat, found: bool)

  datatype Action = Publish(ok: bool) | Notify(mine: bool) | StepBrisc | StepDaemon(data: bool)

  function Low16(x: int): int {
    x % 65536
  }

  function GuestStep(p: Policy, s: State, a: Action): State
    requires a.Publish? || a.Notify?
  {
    match a
    case Publish(ok) =>
      // the driver owns at most `num` entries, so the ring never laps the consumer
      if |s.chains| - s.processed < p.num && (ok || !p.valid) then s.(chains := s.chains + [ok], found := true) else s
    case Notify(mine) =>
      if p.polite && s.note != Sentinel then s
      else if mine then s.(note := Mine, told := |s.chains|)
      else s.(note := Other)
  }

  function BriscStep(s: State): State {
    match s.brisc
    case Polling => if s.note == Sentinel then s else s.(brisc := Setting(s.note == Mine))
    case Setting(mine) =>
      var t := s.(brisc := Clearing);
      if mine then t.(dirty := true, owed := |s.chains|, sets := s.sets + 1) else t
    case Clearing => s.(note := Sentinel, brisc := Polling)
  }

  /** A dispatch ends: the dirty part of the pass goes on to the RX part, if there is one. */
  function EndDispatch(p: Policy, s: State, rx: bool, took: bool): State {
    if rx then s.(daemon := Idle, found := took)
    else if p.rx then s.(daemon := AtAvail(true, false))
    else s.(daemon := Idle)
  }

  /** Scan, clear, and the drain loop; `process_one_chain_for_queue` stops the loop when the
      ring is empty, the device has no data, or the chain it consumed was malformed. */
  function DaemonStep(p: Policy, s: State, data: bool): State {
    match s.daemon
    case Idle => s.(daemon := AtRead)
    case AtRead => if s.dirty then s.(daemon := AtClear) else EndDispatch(p, s, false, false)
    case AtClear => s.(daemon := Hit, dirty := false)
    case Hit => s.(daemon := AtAvail(false, false), setsAtDispatch := s.sets)
    case AtAvail(rx, took) =>
      if Low16(s.processed) == Low16(|s.chains|) || !(data || p.supplied) then EndDispatch(p, s, rx, took)
      else s.(daemon := AtChain(rx))
    case AtChain(rx) =>
      var t := s.(processed := s.processed + 1);
      if s.processed < |s.chains| && s.chains[s.processed] then t.(daemon := AtAvail(rx, true))
      else EndDispatch(p, t, rx, true)
  }

  function Step(p: Policy, s: State, a: Action): State {
    match a
    case Publish(_) => GuestStep(p, s, a)
    case Notify(_) => GuestStep(p, s, a)
    case StepBrisc => BriscStep(s)
    case StepDaemon(data) => DaemonStep(p, s, data)
  }

  function Init(): State {
    State([], 0, Sentinel, Polling, false, 0, 0, Idle, 0, 0, false)
  }

  function Run(p: Policy, acts: seq<Action>): State {
    if acts == [] then Init() else Step(p, Run(p, acts[..|acts| - 1]), acts[|acts| - 1])
  }

  /** The ring size the dispatcher accepts: nonzero and at most u16::MAX. */
  predicate Usable(p: Policy) {
    1 <= p.num <= 65535
  }

  // ---- invariants ----

  ghost predicate Counts(p: Policy, s: State) {
    && s.processed <= |s.chains| <= s.processed + p.num
    && s.told <= |s.chains| && s.owed <= |s.chains|
    && (s.daemon.AtChain? ==> s.processed < |s.chains|)
  }

  /** The pair's byte is set, or the daemon is between reading it and dispatching, or a
      dispatch began after the last set. */
  predicate Pending(s: State) {
    s.dirty || s.daemon == AtClear || s.daemon == Hit
  }

  predicate Covered(s: State) {
    Pending(s) || s.setsAtDispatch == s.sets
  }

  predicate AtRest(s: State) {
    !s.dirty && (s.daemon == Idle || s.daemon == AtRead)
  }

  ghost predicate AllValid(s: State) {
    forall k :: 0 <= k < |s.chains| ==> s.chains[k]
  }

  /** Nothing can stop a drain early: the device has data, and chains are well formed or
      there is never a second one behind the one being consumed. */
  predicate Unobstructed(p: Policy) {
    p.supplied && (p.valid || p.num == 1)
  }

  /** The dispatch for the last dirty byte is over. */
  predicate Dispatched(s: State) {
    !s.dirty && (s.daemon == Idle || s.daemon == AtRead || ((s.daemon.AtAvail? || s.daemon.AtChain?) && s.daemon.rx))
  }

  /** An unobstructed drain ends only with the ring empty. */
  ghost predicate Served(p: Policy, s: State) {
    && (p.valid ==> AllValid(s))
    && (Unobstructed(p) && Dispatched(s) ==> s.owed <= s.processed)
  }

  /** An RX dispatch with a supplied device that found nothing found the ring empty. */
  predicate RxServed(p: Policy, s: State) {
    && (p.supplied && p.rx && !s.found ==> s.processed == |s.chains|)
    && ((s.daemon.AtAvail? || s.daemon.AtChain?) && s.daemon.rx ==> p.rx)
  }

  /** A polite guest's notify is waiting for BRISC or already covered by a dirty store. */
  predicate Relayed(p: Policy, s: State) {
    p.polite ==>
      && (s.brisc.Setting? ==> s.note == if s.brisc.mine then Mine else Other)
      && (s.brisc.Clearing? ==> s.note != Sentinel)
      && (s.told <= s.owed || (s.note == Mine && s.brisc == Polling) || s.brisc == Setting(true))
  }

  ghost predicate Inv(p: Policy, s: State) {
    Counts(p, s) && Covered(s) && Served(p, s) && RxServed(p, s) && Relayed(p, s)
  }

  /** The 16-bit comparison of the counters is exact. */
  lemma Low16Exact(p: Policy, s: State)
    requires Usable(p) && Counts(p, s)
    ensures Low16(s.processed) == Low16(|s.chains|) <==> s.processed == |s.chains|
  {
    var d := |s.chains| - s.processed;
    if Low16(s.processed) == Low16(|s.chains|) {
      assert |s.chains| - s.processed == 65536 * (|s.chains| / 65536 - s.processed / 65536);
    }
  }

  lemma GuestInv(p: Policy, s: State, a: Action)
    requires Inv(p, s) && (a.Publish? || a.Notify?)
    ensures Inv(p, GuestStep(p, s, a))
  {
  }

  lemma BriscInv(p: Policy, s: State)
    requires Inv(p, s)
    ensures Inv(p, BriscStep(s))
  {
  }

  lemma DaemonCounts(p: Policy, s: State, data: bool)
    requires Usable(p) && Counts(p, s)
    ensures Counts(p, DaemonStep(p, s, data))
  {
    if s.daemon.AtAvail? {
      Low16Exact(p, s);
    }
  }

  lemma DaemonCovered(p: Policy, s: State, data: bool)
    requires Covered(s) && Relayed(p, s)
    ensures Covered(DaemonStep(p, s, data)) && Relayed(p, DaemonStep(p, s, data))
  {
  }

  lemma DaemonServed(p: Policy, s: State, data: bool)
    requires Usable(p) && Inv(p, s)
    ensures Served(p, DaemonStep(p, s, data))
  {
    Low16Exact(p, s);
  }

  lemma DaemonRxServed(p: Policy, s: State, data: bool)
    requires Usable(p) && Inv(p, s)
    ensures RxServed(p, DaemonStep(p, s, data))
  {
    Low16Exact(p, s);
  }

  lemma DaemonInv(p: Policy, s: State, data: bool)
    requires Usable(p) && Inv(p, s)
    ensures Inv(p, DaemonStep(p, s, data))
  {
    DaemonCounts(p, s, data);
    DaemonCovered(p, s, data);
    DaemonServed(p, s, data);
    DaemonRxServed(p, s, data);
  }

  lemma StepInv(p: Policy, s: State, a: Action)
    requires Usable(p) && Inv(p, s)
    ensures Inv(p, Step(p, s, a))
  {
    match a
    case Publish(_) => GuestInv(p, s, a);
    case Notify(_) => GuestInv(p, s, a);
    case StepBrisc => BriscInv(p, s);
    case StepDaemon(data) => DaemonInv(p, s, data);
  }

  lemma {:induction false} RunInv(p: Policy, acts: seq<Action>)
    requires Usable(p)
    ensures Inv(p, Run(p, acts))
  {
    if acts == [] {
    } else {
      RunInv(p, acts[..|acts| - 1]);
      StepInv(p, Run(p, acts[..|acts| - 1]), acts[|acts| - 1]);
    }
  }

  // ---- past BRISC ----

  /** After BRISC sets the byte it is still set, or the pair is between its read and its
      dispatch, or a dispatch began after that set: for any guest and any chains. */
  lemma NoLostWakeup(p: Policy, acts: seq<Action>)
    requires Usable(p)
    ensures Covered(Run(p, acts))
  {
    RunInv(p, acts);
  }

  /** Hence with the byte clear and the daemon between passes, every chain published before
      the last set has been consumed. */
  lemma SetIsServed(p: Policy, acts: seq<Action>)
    requires Usable(p) && Unobstructed(p) && AtRest(Run(p, acts))
    ensures Run(p, acts).owed <= Run(p, acts).processed
  {
    RunInv(p, acts);
  }

  // ---- end to end ----

  /** Nothing left to do for anybody but the guest. */
  predicate Quiet(p: Policy, s: State) {
    AtRest(s) && s.note == Sentinel && s.brisc == Polling && (p.rx ==> !s.found)
  }

  ghost predicate EveryNotifyServed(p: Policy) {
    forall acts: seq<Action> :: Quiet(p, Run(p, acts)) ==> Run(p, acts).told <= Run(p, acts).processed
  }

  lemma Do(p: Policy, acts: seq<Action>, a: Action)
    ensures Run(p, acts + [a]) == Step(p, Run(p, acts), a)
  {
    var all := acts + [a];
    assert all[..|all| - 1] == acts;
  }

  /** The daemon has nothing more to do. */
  predicate Rests(p: Policy, s: State) {
    AtRest(s) && (p.rx ==> !s.found)
  }

  /** Where the daemon stands in its pass, falling as long as it consumes nothing. */
  function Stage(s: State): nat {
    var again := if s.dirty then 20 else 0;
    match s.daemon
    case Idle => if s.dirty then 10 else 4
    case AtRead => if s.dirty then 9 else 3
    case AtClear => 8
    case Hit => 7 + again
    case AtAvail(rx, took) => (if !rx then 6 else if took then 5 else 2) + again
    case AtChain(_) => 1 + again
  }

  lemma StageDrops(p: Policy, s: State)
    requires Usable(p) && Counts(p, s) && !Rests(p, s)
    ensures var t := DaemonStep(p, s, true);
      && t.chains == s.chains && s.processed <= t.processed <= |t.chains|
      && (t.processed == s.processed ==> Stage(t) < Stage(s) || Rests(p, t))
  {
    Low16Exact(p, s);
  }

  /** Left to themselves, the daemon's passes come to rest. */
  lemma {:induction false} DaemonRests(p: Policy, acts: seq<Action>) returns (more: seq<Action>)
    requires Usable(p) && Run(p, acts).processed <= |Run(p, acts).chains|
    ensures var s, t := Run(p, acts), Run(p, more);
      Rests(p, t) && t.told == s.told && t.note == s.note && t.brisc == s.brisc
    decreases |Run(p, acts).chains| - Run(p, acts).processed, Stage(Run(p, acts))
  {
    var s := Run(p, acts);
    if Rests(p, s) {
      more := acts;
    } else {
      RunInv(p, acts);
      StageDrops(p, s);
      Do(p, acts, StepDaemon(true));
      if Rests(p, Run(p, acts + [StepDaemon(true)])) {
        more := acts + [StepDaemon(true)];
      } else {
        more := DaemonRests(p, acts + [StepDaemon(true)]);
      }
      DaemonKeepsNote(p, s);
    }
  }

  lemma DaemonKeepsNote(p: Policy, s: State)
    ensures var t := DaemonStep(p, s, true); t.told == s.told && t.note == s.note && t.brisc == s.brisc
  {
  }

  lemma {:induction false} BriscRests(p: Policy, acts: seq<Action>, n: nat) returns (more: seq<Action>)
    requires n == match Run(p, acts).brisc case Polling => 3 case Setting(_) => 2 case Clearing => 1
    ensures var s, t := Run(p, acts), Run(p, more);
      t.note == Sentinel && t.brisc == Polling && t.told == s.told
    decreases n
  {
    var s := Run(p, acts);
    if s.note == Sentinel && s.brisc == Polling {
      more := acts;
    } else {
      Do(p, acts, StepBrisc);
      if s.brisc == Clearing {
        more := acts + [StepBrisc];
      } else {
        more := BriscRests(p, acts + [StepBrisc], n - 1);
      }
    }
  }

  /** From any reachable state BRISC and the daemon alone reach quiet, so a notify that is
      served in quiet states is served. */
  lemma QuietIsReachable(p: Policy, acts: seq<Action>) returns (more: seq<Action>)
    requires Usable(p)
    ensures Quiet(p, Run(p, more)) && Run(p, more).told == Run(p, acts).told
  {
    var s := Run(p, acts);
    more := BriscRests(p, acts, match s.brisc case Polling => 3 case Setting(_) => 2 case Clearing => 1);
    RunInv(p, more);
    more := DaemonRests(p, more);
  }

  /** Every chain notified by a polite guest is consumed by the time things are quiet; on an
      RX-polled queue every chain at all. */
  lemma NotifyIsServed(p: Policy, acts: seq<Action>)
    requires Usable(p) && Quiet(p, Run(p, acts))
    requires (p.polite && Unobstructed(p)) || (p.rx && p.supplied)
    ensures Run(p, acts).told <= Run(p, acts).processed
  {
    RunInv(p, acts);
  }

  // ---- each hypothesis is needed ----

  lemma Do4(p: Policy, acts: seq<Action>, a: Action, b: Action, c: Action, d: Action) returns (more: seq<Action>)
    ensures Run(p, more) == Step(p, Step(p, Step(p, Step(p, Run(p, acts), a), b), c), d)
  {
    Do(p, acts, a);
    Do(p, acts + [a], b);
    Do(p, acts + [a] + [b], c);
    Do(p, acts + [a] + [b] + [c], d);
    more := acts + [a] + [b] + [c] + [d];
  }

  /** One notified batch reaches the daemon's drain. */
  lemma Delivered(p: Policy, acts: seq<Action>, cs: seq<bool>) returns (more: seq<Action>)
    requires Run(p, acts) == Init().(chains := cs, found := true)
    ensures Run(p, more) == State(cs, |cs|, Sentinel, Polling, false, |cs|, 1, AtAvail(false, false), 0, 1, true)
  {
    more := Do4(p, acts, Notify(true), StepBrisc, StepBrisc, StepBrisc);
    more := Do4(p, more, StepDaemon(true), StepDaemon(true), StepDaemon(true), StepDaemon(true));
  }

  /** On a queue that is not RX-polled a malformed chain ends the drain and strands what was
      notified behind it. */
  lemma MalformedStrands(p: Policy) returns (acts: seq<Action>)
    requires Usable(p) && p.num >= 2 && !p.valid && !p.rx
    ensures Quiet(p, Run(p, acts)) && Run(p, acts).told == 2 && Run(p, acts).processed <= 1
  {
    Do(p, [], Publish(false));
    Do(p, [] + [Publish(false)], Publish(false));
    acts := Delivered(p, [] + [Publish(false)] + [Publish(false)], [false, false]);
    Do(p, acts, StepDaemon(true));
    Do(p, acts + [StepDaemon(true)], StepDaemon(true));
    acts := acts + [StepDaemon(true)] + [StepDaemon(true)];
  }

  lemma NoDataStrands(p: Policy) returns (acts: seq<Action>)
    requires Usable(p) && !p.supplied
    ensures Quiet(p, Run(p, acts)) && Run(p, acts).told == 1 && Run(p, acts).processed == 0
  {
    Do(p, [], Publish(true));
    acts := Delivered(p, [] + [Publish(true)], [true]);
    Do(p, acts, StepDaemon(false));
    acts := acts + [StepDaemon(false)];
    if p.rx {
      Do(p, acts, StepDaemon(false));
      acts := acts + [StepDaemon(false)];
    }
  }

  /** A notify for another queue overwrites this one before BRISC reads it. */
  lemma OverwrittenNotify(p: Policy) returns (acts: seq<Action>)
    requires Usable(p) && !p.polite && !p.rx
    ensures Quiet(p, Run(p, acts)) && Run(p, acts).told == 1 && Run(p, acts).processed == 0
  {
    acts := Do4(p, [], Publish(true), Notify(true), Notify(false), StepBrisc);
    Do(p, acts, StepBrisc);
    Do(p, acts + [StepBrisc], StepBrisc);
    acts := acts + [StepBrisc] + [StepBrisc];
  }

  /** The daemon finds the byte BRISC has just set. */
  lemma ScansOne(p: Policy, acts: seq<Action>) returns (more: seq<Action>)
    requires Run(p, acts) == State([true], 1, Mine, Clearing, true, 1, 1, Idle, 0, 0, true)
    ensures Run(p, more) == State([true], 1, Mine, Clearing, false, 1, 1, AtAvail(false, false), 0, 1, true)
  {
    more := Do4(p, acts, StepDaemon(true), StepDaemon(true), StepDaemon(true), StepDaemon(true));
  }

  /** It drains the one chain there is. */
  lemma DrainsOne(p: Policy, s: State)
    requires !p.rx && s == State([true], 1, Mine, Clearing, false, 1, 1, AtAvail(false, false), 0, 1, true)
    ensures DaemonStep(p, DaemonStep(p, DaemonStep(p, s, true), true), true) == s.(daemon := Idle, processed := 1)
  {
    assert Low16(0) == 0 && Low16(1) == 1;
  }

  /** The guest notifies this queue a second time while BRISC is past its load; BRISC's sentinel
      store overwrites the second notify. No other queue is involved. */
  lemma NotifyUnderSentinel(p: Policy) returns (acts: seq<Action>)
    requires Usable(p) && !p.polite && !p.rx
    ensures Quiet(p, Run(p, acts)) && Run(p, acts).told == 2 && Run(p, acts).processed == 1
    ensures Run(p, acts).chains == [true, true]
  {
    acts := Do4(p, [], Publish(true), Notify(true), StepBrisc, StepBrisc);
    acts := ScansOne(p, acts);
    DrainsOne(p, Run(p, acts));
    acts := Do4(p, acts, StepDaemon(true), StepDaemon(true), StepDaemon(true), Publish(true));
    Do(p, acts, Notify(true));
    Do(p, acts + [Notify(true)], StepBrisc);
    acts := acts + [Notify(true)] + [StepBrisc];
  }

  /** Every notify is served exactly when the device always has data and either the queue is
      RX-polled, or the guest waits for the sentinel and chains are well formed (or the ring holds a
      single entry). */
  lemma ServedIff(p: Policy)
    requires Usable(p)
    ensures EveryNotifyServed(p) <==> p.supplied && (p.rx || (p.polite && (p.valid || p.num == 1)))
  {
    if p.supplied && (p.rx || (p.polite && Unobstructed(p))) {
      forall acts: seq<Action> | Quiet(p, Run(p, acts)) ensures Run(p, acts).told <= Run(p, acts).processed {
        NotifyIsServed(p, acts);
      }
    } else {
      var acts;
      if !p.supplied {
        acts := NoDataStrands(p);
      } else if !p.polite {
        acts := NotifyUnderSentinel(p);
      } else {
        acts := MalformedStrands(p);
      }
      assert Run(p, acts).told > Run(p, acts).processed;
    }
  }
}
