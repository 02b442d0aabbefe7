/** The reset-release sequence under `seq_lock`: any number of callers of `reset_x280` and
    `idle_pll`, interleaved one register access at a time. */
module ResetSequence {
  import opened Bits
  import opened Clock
  import opened Rings
  import opened Words

  const LOW: Dividers := FrequencySolution(200).value
  const HIGH: Dividers := FrequencySolution(1750).value

  /** L2CPU_RESET and its masks, as the set of bits that are 1; OR is union. */
  type BitSet = set<nat>

  datatype Op = IdlePll | Release(mask: BitSet)

  /** Where a caller stands. `goal` is the solution it steps to; after reaching LOW a Release
      goes on to L2CPU_RESET, after HIGH it is done. */
  datatype Caller =
    | Out
    | Wanting(op: Op)
    | AtCntl5(op: Op, goal: Dividers)
    | AtCntl1(op: Op, goal: Dividers, post: Postdivs)
    | Stepping(op: Op, goal: Dividers, mine: Dividers)
    | ReadReset(mask: BitSet)
    | WriteReset(mask: BitSet, before: BitSet)
    | Readback(mask: BitSet)
    | Leaving(op: Op)

  /** `locked` is the code as written; without it the lock is taken by everyone who asks. */
  datatype Config = Config(locked: bool, pll: Dividers, reset: BitSet)

  /** `written` gathers the masks of the L2CPU_RESET writes made so far. */
  datatype State = State(pll: Dividers, reset: BitSet, holder: Option<nat>, callers: map<nat, Caller>, written: BitSet)

  datatype Action = Call(i: nat, op: Op) | Go(i: nat) | Fail(i: nat)

  function At(s: State, i: nat): Caller {
    if i in s.callers then s.callers[i] else Out
  }

  /** One write of `set_frequency`: the whole word of the register whose divider moved. */
  function PllWrite(pll: Dividers, mine: Dividers, n: Dividers): Dividers {
    if n.post != mine.post then pll.(post := n.post) else pll.(fbdiv := n.fbdiv)
  }

  datatype Lock = Keep | Take | Drop

  /** What one caller's step leaves: registers, its own position, and what it does to the lock. */
  datatype Effect = Effect(pll: Dividers, reset: BitSet, written: BitSet, lock: Lock, c: Caller)

  function Stepped(e: Effect): Effect
    requires e.c.Stepping?
  {
    var k := e.c;
    if k.mine != k.goal then
      var n := Next(k.mine, k.goal);
      e.(c := k.(mine := n), pll := PllWrite(e.pll, k.mine, n))
    else if k.op.Release? && k.goal == LOW then e.(c := ReadReset(k.op.mask))
    else e.(c := Leaving(k.op))
  }

  /** The next step of a caller; `busy` when it would have to wait for the lock. */
  function Advance(busy: bool, e: Effect): Effect {
    match e.c
    case Out => e
    case Wanting(op) => if busy then e else e.(c := AtCntl5(op, LOW), lock := Take)
    case AtCntl5(op, goal) => e.(c := AtCntl1(op, goal, e.pll.post))
    case AtCntl1(op, goal, post) => e.(c := Stepping(op, goal, Dividers(e.pll.fbdiv, post)))
    case Stepping(_, _, _) => Stepped(e)
    case ReadReset(mask) => e.(c := WriteReset(mask, e.reset))
    case WriteReset(mask, before) =>
      e.(c := Readback(mask), reset := before + mask, written := e.written + mask)
    case Readback(mask) => e.(c := AtCntl5(Release(mask), HIGH))
    case Leaving(_) => e.(c := Out, lock := Drop)
  }

  /** The three L2CPU_RESET accesses can fail; the error returns at once and drops the lock. */
  function Failed(e: Effect): Effect {
    if AtReset(e.c) then e.(c := Out, lock := Drop) else e
  }

  function View(s: State, i: nat): Effect {
    Effect(s.pll, s.reset, s.written, Keep, At(s, i))
  }

  function Apply(s: State, i: nat, e: Effect): State {
    var holder := match e.lock case Keep => s.holder case Take => Some(i) case Drop => None;
    State(e.pll, e.reset, holder, s.callers[i := e.c], e.written)
  }

  function After(locked: bool, s: State, a: Action): Effect {
    match a
    case Call(i, op) => if At(s, i).Out? then View(s, i).(c := Wanting(op)) else View(s, i)
    case Go(i) => Advance(locked && s.holder.Some?, View(s, i))
    case Fail(i) => Failed(View(s, i))
  }

  function Step(locked: bool, s: State, a: Action): State {
    Apply(s, a.i, After(locked, s, a))
  }

  function Run(c: Config, acts: seq<Action>): State {
    if acts == [] then State(c.pll, c.reset, None, map[], {})
    else Step(c.locked, Run(c, acts[..|acts| - 1]), acts[|acts| - 1])
  }

  lemma Do(c: Config, acts: seq<Action>, a: Action)
    ensures Run(c, acts + [a]) == Step(c.locked, Run(c, acts), a)
  {
    var all := acts + [a];
    assert all[..|all| - 1] == acts;
  }

  // ---- mutual exclusion, and what the holder knows ----

  predicate Inside(c: Caller) {
    !c.Out? && !c.Wanting?
  }

  predicate AtReset(c: Caller) {
    c.ReadReset? || c.WriteReset? || c.Readback?
  }

  predicate Settled(pll: Dividers, pll0: Dividers) {
    pll == pll0 || pll == LOW || pll == HIGH
  }

  /** The call a caller is in. */
  function OpOf(c: Caller): Op
    requires !c.Out?
  {
    if AtReset(c) then Release(c.mask) else c.op
  }

  /** What a call that succeeds leaves behind: an idle PLL at its 200 MHz solution, or the released
      bits in L2CPU_RESET and the PLL at its 1750 MHz solution. */
  predicate Done(op: Op, pll: Dividers, reset: BitSet) {
    match op
    case IdlePll => pll == LOW
    case Release(mask) => pll == HIGH && mask <= reset
  }

  /** A caller steps up only for a release whose bits are written. */
  predicate GoalOk(op: Op, goal: Dividers, reset: BitSet) {
    goal == LOW || (goal == HIGH && op.Release? && op.mask <= reset)
  }

  /** The holder's local copies agree with the registers. */
  predicate Coherent(c: Caller, pll: Dividers, reset: BitSet) {
    match c
    case AtCntl5(op, goal) => GoalOk(op, goal, reset)
    case AtCntl1(op, goal, post) => post == pll.post && GoalOk(op, goal, reset)
    case Stepping(op, goal, mine) => mine == pll && GoalOk(op, goal, reset)
    case ReadReset(_) => pll == LOW
    case WriteReset(_, before) => pll == LOW && before == reset
    case Readback(mask) => pll == LOW && mask <= reset
    case Leaving(op) => Done(op, pll, reset)
    case _ => true
  }

  /** Only the holder is inside, and there is a holder only while it is inside. */
  ghost predicate Excluded(s: State) {
    && (forall i: nat :: Inside(At(s, i)) ==> s.holder == Some(i))
    && (s.holder.Some? ==> Inside(At(s, s.holder.value)))
  }

  ghost predicate Inv(c: Config, s: State) {
    && Excluded(s)
    && (forall i: nat :: Coherent(At(s, i), s.pll, s.reset))
    && (s.holder.None? ==> Settled(s.pll, c.pll))
    && s.reset == c.reset + s.written
  }

  lemma PllWriteIsNext(mine: Dividers, goal: Dividers)
    ensures PllWrite(mine, mine, Next(mine, goal)) == Next(mine, goal)
  {
  }

  /** A caller inside keeps its copies coherent and loses no bit; it stays in its call and leaves it
      only when the call is done. */
  lemma AdvanceInside(reset0: BitSet, e: Effect)
    requires Inside(e.c) && Coherent(e.c, e.pll, e.reset) && e.reset == reset0 + e.written && e.lock == Keep
    ensures var n := Advance(true, e);
      && Coherent(n.c, n.pll, n.reset) && n.reset == reset0 + n.written
      && ((n.lock == Keep && Inside(n.c) && OpOf(n.c) == OpOf(e.c))
          || (n.lock == Drop && n.c == Out && Done(OpOf(e.c), n.pll, n.reset)))
  {
    if e.c.Stepping? {
      PllWriteIsNext(e.c.mine, e.c.goal);
    }
  }

  /** Either the holder moves, staying inside or dropping the lock with the PLL at a solution,
      or somebody outside moves and touches no register. */
  ghost predicate Legal(c: Config, s: State, i: nat, e: Effect) {
    && Coherent(e.c, e.pll, e.reset) && e.reset == c.reset + e.written
    && (if Inside(At(s, i)) then
          (e.lock == Keep && Inside(e.c)) || (e.lock == Drop && e.c == Out && Settled(e.pll, c.pll))
        else
          && e.pll == s.pll && e.reset == s.reset
          && ((e.lock == Keep && !Inside(e.c)) || (e.lock == Take && s.holder.None? && Inside(e.c))))
  }

  lemma ApplyInv(c: Config, s: State, i: nat, e: Effect)
    requires Inv(c, s) && Legal(c, s, i, e)
    ensures Inv(c, Apply(s, i, e))
  {
    var t := Apply(s, i, e);
    assert At(t, i) == e.c;
    assert forall j: nat :: j != i ==> At(t, j) == At(s, j);
    if Inside(At(s, i)) {
      assert s.holder == Some(i);
      forall j: nat | j != i ensures !Inside(At(s, j)) && Coherent(At(t, j), t.pll, t.reset) {
      }
    }
  }

  lemma StepInv(c: Config, s: State, a: Action)
    requires c.locked && Inv(c, s)
    ensures Inv(c, Step(true, s, a))
  {
    var e := View(s, a.i);
    assert Coherent(e.c, e.pll, e.reset);
    if Inside(e.c) {
      AdvanceInside(c.reset, e);
    }
    ApplyInv(c, s, a.i, After(true, s, a));
  }

  lemma {:induction false} RunInv(c: Config, acts: seq<Action>)
    requires c.locked
    ensures Inv(c, Run(c, acts))
  {
    if acts == [] {
    } else {
      RunInv(c, acts[..|acts| - 1]);
      StepInv(c, Run(c, acts[..|acts| - 1]), acts[|acts| - 1]);
    }
  }

  // ---- the promises ----

  /** At every read, write and readback of L2CPU_RESET the PLL is at its 200 MHz solution. */
  lemma ResetOnlyAt200(c: Config, acts: seq<Action>, i: nat)
    requires c.locked && AtReset(At(Run(c, acts), i))
    ensures Run(c, acts).pll == LOW && Run(c, acts).holder == Some(i)
  {
    RunInv(c, acts);
    assert Coherent(At(Run(c, acts), i), Run(c, acts).pll, Run(c, acts).reset);
  }

  /** With nobody inside, the PLL rests where it started or at one of the two solutions. */
  lemma RestsAtASolution(c: Config, acts: seq<Action>)
    requires c.locked && forall i: nat :: !Inside(At(Run(c, acts), i))
    ensures Settled(Run(c, acts).pll, c.pll)
  {
    RunInv(c, acts);
  }

  // ---- where a call ends ----

  /** A step of another caller, or a call made while one is under way, changes nothing in a call. */
  lemma StepKeepsOp(c: Config, s: State, a: Action, i: nat)
    requires c.locked && Inv(c, s) && !At(s, i).Out?
    ensures var t := Step(true, s, a);
      && (!At(t, i).Out? ==> OpOf(At(t, i)) == OpOf(At(s, i)))
      && (At(t, i).Out? ==> a == Fail(i) || (a == Go(i) && Done(OpOf(At(s, i)), t.pll, t.reset)))
  {
    var e := View(s, a.i);
    assert Coherent(e.c, e.pll, e.reset);
    if Inside(e.c) {
      AdvanceInside(c.reset, e);
    }
    if a.i != i {
      assert At(Step(true, s, a), i) == At(s, i);
    }
  }

  /** The call of `i` is still under way after each action of `more`. */
  ghost predicate UnderWay(c: Config, acts: seq<Action>, more: seq<Action>, i: nat) {
    forall k :: 0 <= k <= |more| ==> !At(Run(c, acts + more[..k]), i).Out?
  }

  lemma UnderWayPrefix(c: Config, acts: seq<Action>, more: seq<Action>, i: nat)
    requires UnderWay(c, acts, more, i)
    ensures !At(Run(c, acts), i).Out? && !At(Run(c, acts + more), i).Out?
    ensures more == [] ==> acts + more == acts
    ensures more != [] ==> UnderWay(c, acts, more[..|more| - 1], i)
  {
    assert acts + more[..|more|] == acts + more && acts + more[..0] == acts;
    if more != [] {
      var init := more[..|more| - 1];
      assert forall k :: 0 <= k <= |init| ==> init[..k] == more[..k];
    }
  }

  lemma {:induction false} SameCall(c: Config, acts: seq<Action>, more: seq<Action>, i: nat)
    requires c.locked && UnderWay(c, acts, more, i)
    ensures !At(Run(c, acts), i).Out? && !At(Run(c, acts + more), i).Out?
    ensures OpOf(At(Run(c, acts + more), i)) == OpOf(At(Run(c, acts), i))
    decreases |more|
  {
    UnderWayPrefix(c, acts, more, i);
    if more == [] {
    } else {
      var init, a := more[..|more| - 1], more[|more| - 1];
      SameCall(c, acts, init, i);
      assert acts + more == acts + init + [a];
      Do(c, acts + init, a);
      RunInv(c, acts + init);
      StepKeepsOp(c, Run(c, acts + init), a, i);
    }
  }

  /** In every run: a call that ends ends by a failed L2CPU_RESET access, or its PLL is where it should
      be and, for a release, its bits are in L2CPU_RESET. */
  lemma CallEndsDone(c: Config, acts: seq<Action>, op: Op, more: seq<Action>, a: Action, i: nat)
    requires c.locked && At(Run(c, acts), i) == Wanting(op) && UnderWay(c, acts, more, i)
    requires At(Run(c, acts + more + [a]), i).Out? && a != Fail(i)
    ensures Done(op, Run(c, acts + more + [a]).pll, Run(c, acts + more + [a]).reset)
  {
    SameCall(c, acts, more, i);
    Do(c, acts + more, a);
    RunInv(c, acts + more);
    StepKeepsOp(c, Run(c, acts + more), a, i);
  }

  /** A failed access to L2CPU_RESET ends the call at once, frees the lock and leaves both registers as
      they were, the PLL at its 200 MHz solution; nothing else can fail. */
  lemma FailureFreesLock(c: Config, acts: seq<Action>, i: nat)
    requires c.locked
    ensures var s, t := Run(c, acts), Run(c, acts + [Fail(i)]);
      && t.pll == s.pll && t.reset == s.reset && t.written == s.written
      && (AtReset(At(s, i)) ==> At(t, i).Out? && t.holder.None? && t.pll == LOW)
      && (!AtReset(At(s, i)) ==> At(t, i) == At(s, i) && t.holder == s.holder)
  {
    RunInv(c, acts);
    Do(c, acts, Fail(i));
    assert Coherent(At(Run(c, acts), i), Run(c, acts).pll, Run(c, acts).reset);
  }

  /** Upper bound on the steps left in a call. */
  function StepsLeft(c: Caller, pll: Dividers): nat {
    match c
    case AtCntl5(op, goal) => 3 + Distance(pll, goal) + AfterGoal(op, goal)
    case AtCntl1(op, goal, _) => 2 + Distance(pll, goal) + AfterGoal(op, goal)
    case Stepping(op, goal, mine) => 1 + Distance(mine, goal) + AfterGoal(op, goal)
    case ReadReset(_) => Distance(LOW, HIGH) + 8
    case WriteReset(_, _) => Distance(LOW, HIGH) + 7
    case Readback(_) => Distance(LOW, HIGH) + 6
    case Leaving(_) => 1
    case _ => 0
  }

  function AfterGoal(op: Op, goal: Dividers): nat {
    if op.Release? && goal == LOW then Distance(LOW, HIGH) + 8 else 1
  }

  lemma StepsDescend(e: Effect)
    requires Inside(e.c) && Coherent(e.c, e.pll, e.reset)
    ensures var n := Advance(true, e); StepsLeft(n.c, n.pll) < StepsLeft(e.c, e.pll)
  {
    if e.c.Stepping? && e.c.mine != e.c.goal {
      NextApproaches(e.c.mine, e.c.goal);
    }
  }

  ghost predicate OnlyGoes(more: seq<Action>, i: nat) {
    forall k :: 0 <= k < |more| ==> more[k] == Go(i)
  }

  /** From every reachable state the holder alone, by its own steps, ends its call with everything
      done and the lock free. */
  lemma {:induction false} HolderFinishes(c: Config, acts: seq<Action>, i: nat) returns (more: seq<Action>)
    requires c.locked && Inside(At(Run(c, acts), i))
    ensures OnlyGoes(more, i)
    ensures var s, t := Run(c, acts), Run(c, acts + more);
      At(t, i).Out? && t.holder.None? && Done(OpOf(At(s, i)), t.pll, t.reset)
    decreases StepsLeft(At(Run(c, acts), i), Run(c, acts).pll)
  {
    var s := Run(c, acts);
    RunInv(c, acts);
    RunInv(c, acts + [Go(i)]);
    Do(c, acts, Go(i));
    assert Coherent(At(s, i), s.pll, s.reset);
    AdvanceInside(c.reset, View(s, i));
    StepsDescend(View(s, i));
    if At(Run(c, acts + [Go(i)]), i).Out? {
      more := [Go(i)];
    } else {
      var rest := HolderFinishes(c, acts + [Go(i)], i);
      more := [Go(i)] + rest;
      assert acts + [Go(i)] + rest == acts + more;
    }
  }

  /** Hence no call waits in vain: from every reachable state some run of steps alone lets caller `i`
      end its call done. */
  lemma CallCanEnd(c: Config, acts: seq<Action>, i: nat) returns (more: seq<Action>)
    requires c.locked && !At(Run(c, acts), i).Out?
    ensures forall k :: 0 <= k < |more| ==> more[k].Go?
    ensures var s, t := Run(c, acts), Run(c, acts + more);
      At(t, i).Out? && Done(OpOf(At(s, i)), t.pll, t.reset)
  {
    var s := Run(c, acts);
    RunInv(c, acts);
    if Inside(At(s, i)) {
      more := HolderFinishes(c, acts, i);
    } else {
      var free := LockComesFree(c, acts, i);
      Do(c, acts + free, Go(i));
      var mine := HolderFinishes(c, acts + free + [Go(i)], i);
      more := free + [Go(i)] + mine;
      assert acts + free + [Go(i)] + mine == acts + more;
    }
  }

  /** The holder, if there is one, ends its call while `i` waits. */
  lemma LockComesFree(c: Config, acts: seq<Action>, i: nat) returns (more: seq<Action>)
    requires c.locked && At(Run(c, acts), i).Wanting?
    ensures forall k :: 0 <= k < |more| ==> more[k].Go?
    ensures var t := Run(c, acts + more); t.holder.None? && At(t, i) == At(Run(c, acts), i)
  {
    RunInv(c, acts);
    if Run(c, acts).holder.None? {
      more := [];
      assert acts + more == acts;
    } else {
      var j := Run(c, acts).holder.value;
      more := HolderFinishes(c, acts, j);
      OthersStay(c, acts, more, j, i);
    }
  }

  lemma {:induction false} OthersStay(c: Config, acts: seq<Action>, more: seq<Action>, j: nat, i: nat)
    requires OnlyGoes(more, j) && i != j
    ensures At(Run(c, acts + more), i) == At(Run(c, acts), i)
    decreases |more|
  {
    if more == [] {
      assert acts + more == acts;
    } else {
      var init := more[..|more| - 1];
      OthersStay(c, acts, init, j, i);
      assert acts + more == acts + init + [Go(j)];
      Do(c, acts + init, Go(j));
    }
  }

  // ---- what the registers do meanwhile ----

  /** `n` is `pll` or one stepping write on from it. */
  predicate OneWrite(pll: Dividers, n: Dividers) {
    n == pll || (pll != LOW && n == Next(pll, LOW)) || (pll != HIGH && n == Next(pll, HIGH))
  }

  lemma SteppedWrites(e: Effect)
    requires e.c.Stepping? && Coherent(e.c, e.pll, e.reset)
    ensures OneWrite(e.pll, Stepped(e).pll)
  {
    PllWriteIsNext(e.c.mine, e.c.goal);
  }

  /** A step leaves the PLL alone or makes one stepping write from where the registers are. */
  lemma PllMoves(c: Config, s: State, a: Action)
    requires Inv(c, s)
    ensures OneWrite(s.pll, Step(true, s, a).pll)
  {
    var e := View(s, a.i);
    assert Coherent(e.c, e.pll, e.reset);
    if e.c.Stepping? {
      SteppedWrites(e);
    }
  }

  /** Between any two successive states the registers differ in at most one divider, by one. */
  lemma RegistersMoveByOne(c: Config, acts: seq<Action>, a: Action)
    requires c.locked
    ensures var s := Run(c, acts); s.pll == Step(true, s, a).pll || OneDividerByOne(s.pll, Step(true, s, a).pll)
  {
    var s := Run(c, acts);
    RunInv(c, acts);
    PllMoves(c, s, a);
    if s.pll != Step(true, s, a).pll {
      var goal := if s.pll != LOW && Step(true, s, a).pll == Next(s.pll, LOW) then LOW else HIGH;
      NextMovesOne(s.pll, goal);
    }
  }

  /** Whatever the callers and their order, no output's ratio ever exceeds the highest of the
      initial one and the two solutions'. */
  lemma {:induction false} NeverOverclocked(c: Config, acts: seq<Action>, o: nat, D: nat -> real, bound: real)
    requires c.locked && o < 4 && DivisorMap(D)
    requires Ratio(c.pll, o, D) <= bound && Ratio(LOW, o, D) <= bound && Ratio(HIGH, o, D) <= bound
    ensures Ratio(Run(c, acts).pll, o, D) <= bound
  {
    if acts == [] {
    } else {
      var prev, a := acts[..|acts| - 1], acts[|acts| - 1];
      NeverOverclocked(c, prev, o, D, bound);
      RunInv(c, prev);
      var s := Run(c, prev);
      PllMoves(c, s, a);
      if s.pll != Step(true, s, a).pll {
        var goal := if s.pll != LOW && Step(true, s, a).pll == Next(s.pll, LOW) then LOW else HIGH;
        NextDoesNotOvershoot(s.pll, goal, o, D, bound);
      }
    }
  }

  /** No release is lost: L2CPU_RESET always holds every bit written to it. */
  lemma ReleasesAreKept(c: Config, acts: seq<Action>)
    requires c.locked
    ensures Run(c, acts).reset == c.reset + Run(c, acts).written
  {
    RunInv(c, acts);
  }

  // ---- without the lock ----

  /** From the 200 MHz solution, caller `i` alone reaches its L2CPU_RESET read. */
  lemma Reach(c: Config, acts: seq<Action>, i: nat, mask: BitSet) returns (more: seq<Action>)
    requires !c.locked && Run(c, acts).pll == LOW && At(Run(c, acts), i).Out?
    ensures var s, t := Run(c, acts), Run(c, more);
      && t.pll == s.pll && t.reset == s.reset && t.written == s.written
      && At(t, i) == ReadReset(mask) && forall j: nat :: j != i ==> At(t, j) == At(s, j)
  {
    more := acts + [Call(i, Release(mask))];
    Do(c, acts, Call(i, Release(mask)));
    more := Gone(c, more, i, AtCntl5(Release(mask), LOW));
    more := Gone(c, more, i, AtCntl1(Release(mask), LOW, LOW.post));
    more := Gone(c, more, i, Stepping(Release(mask), LOW, LOW));
    more := Gone(c, more, i, ReadReset(mask));
  }

  /** A step of `i` that leaves the registers alone. */
  lemma Gone(c: Config, acts: seq<Action>, i: nat, k: Caller) returns (more: seq<Action>)
    requires !c.locked
    requires var s := Run(c, acts); var e := Advance(false, View(s, i));
      e.c == k && e.pll == s.pll && e.reset == s.reset && e.written == s.written
    ensures var s, t := Run(c, acts), Run(c, more);
      && t.pll == s.pll && t.reset == s.reset && t.written == s.written
      && At(t, i) == k && forall j: nat :: j != i ==> At(t, j) == At(s, j)
  {
    more := acts + [Go(i)];
    Do(c, acts, Go(i));
  }

  /** Two callers read L2CPU_RESET before either writes: the first release is lost. */
  lemma LostRelease() returns (c: Config, acts: seq<Action>)
    ensures !c.locked && Run(c, acts).reset != c.reset + Run(c, acts).written
  {
    c := Config(false, LOW, {});
    acts := Reach(c, [], 0, {4});
    acts := Reach(c, acts, 1, {5});
    acts := Gone(c, acts, 0, WriteReset({4}, {}));
    acts := Gone(c, acts, 1, WriteReset({5}, {}));
    Do(c, acts, Go(0));
    Do(c, acts + [Go(0)], Go(1));
    acts := acts + [Go(0)] + [Go(1)];
  }

  ghost predicate Keeps(c: Config) {
    forall acts: seq<Action> :: Run(c, acts).reset == c.reset + Run(c, acts).written
  }

  /** Releases are kept from every initial state in every run exactly when the lock is held. */
  lemma KeptIffLocked(locked: bool)
    ensures (forall pll: Dividers, reset: BitSet :: Keeps(Config(locked, pll, reset))) <==> locked
  {
    if locked {
      forall pll: Dividers, reset: BitSet ensures Keeps(Config(locked, pll, reset)) {
        forall acts: seq<Action>
          ensures Run(Config(locked, pll, reset), acts).reset == reset + Run(Config(locked, pll, reset), acts).written
        {
          ReleasesAreKept(Config(locked, pll, reset), acts);
        }
      }
    } else {
      var c, acts := LostRelease();
      assert !Keeps(c) && c == Config(locked, c.pll, c.reset);
    }
  }

  // ---- the read-modify-write itself ----

  /** The bit `1u32 << (i + 4)` sets; without overflow checks the shift amount wraps at 32. */
  function BitOf(i: nat): nat {
    (i + 4) % 32
  }

  /** The fold over the indices. */
  function MaskOf(indices: seq<nat>): nat {
    if indices == [] then 0 else Or(MaskOf(indices[..|indices| - 1]), Pow2(BitOf(indices[|indices| - 1])))
  }

  /** The mask as the set the state machine works with. */
  function Released(indices: seq<nat>): set<nat> {
    set k | 0 <= k < |indices| :: BitOf(indices[k])
  }

  lemma {:induction false} MaskFits(indices: seq<nat>)
    ensures MaskOf(indices) < TWO32
  {
    Pow2Of32();
    if indices == [] {
    } else {
      MaskFits(indices[..|indices| - 1]);
      Pow2Below(BitOf(indices[|indices| - 1]), 32);
      OrFits(MaskOf(indices[..|indices| - 1]), Pow2(BitOf(indices[|indices| - 1])), 32);
    }
  }

  /** A bit of the mask is 1 exactly when some index selects it. */
  lemma {:induction false} MaskBits(indices: seq<nat>)
    ensures Ones(MaskOf(indices)) == Released(indices)
  {
    if indices == [] {
      forall b: nat ensures b !in Ones(0) {
        BitOfZero(b);
      }
    } else {
      var n := |indices| - 1;
      var rest, last := indices[..n], BitOf(indices[n]);
      MaskBits(rest);
      OnesOfOr(MaskOf(rest), Pow2(last));
      assert Ones(Pow2(last)) == {last} by {
        forall b: nat ensures b in Ones(Pow2(last)) <==> b == last {
          BitOfPow2(last, b);
        }
      }
      ReleasedSnoc(rest, indices[n]);
      assert indices == rest + [indices[n]];
    }
  }

  lemma ReleasedSnoc(rest: seq<nat>, i: nat)
    ensures Released(rest + [i]) == Released(rest) + {BitOf(i)}
  {
    var all := rest + [i];
    assert BitOf(all[|rest|]) in Released(all);
    assert forall k :: 0 <= k < |rest| ==> BitOf(rest[k]) == BitOf(all[k]);
  }

  /** L2CPU_RESET; `panics` when overflow checks are on and an index shifts past the word. */
  class ResetRegister {
    var value: u32
    const checked: bool

    constructor (value: u32, checked: bool)
      ensures this.value == value && this.checked == checked
    {
      this.value, this.checked := value, checked;
    }

    /** `apply_release_bits`: the step the state machine takes. The 1 bits of the register become
        those it had and those the indices select, nothing else; with overflow checks an index of 28
        or more panics after the read and before the write. */
    method ApplyReleaseBits(indices: seq<nat>) returns (panics: bool, before: u32, mask: u32, after: u32)
      modifies this
      ensures panics <==> checked && exists k :: 0 <= k < |indices| && indices[k] >= 28
      ensures before == old(value)
      ensures panics ==> value == old(value)
      ensures !panics ==>
        value == after && Ones(mask) == Released(indices) && Ones(after) == Ones(before) + Ones(mask)
      ensures !panics ==> forall b :: b in Ones(mask) <==> exists k :: 0 <= k < |indices| && (indices[k] + 4) % 32 == b
    {
      before, mask, after := value, 0, value;
      panics := false;
      for k := 0 to |indices|
        invariant !checked || forall j :: 0 <= j < k ==> indices[j] < 28
        invariant value == before
        invariant mask == MaskOf(indices[..k])
      {
        if checked && indices[k] >= 28 {
          return true, before, mask, after;
        }
        MaskFits(indices[..k + 1]);
        assert indices[..k + 1][..k] == indices[..k];
        mask := Or(mask, Pow2(BitOf(indices[k])));
      }
      assert indices[..|indices|] == indices;
      MaskBits(indices);
      OnesOfOr(before, mask);
      Pow2Of32();
      OrFits(before, mask, 32);
      after := Or(before, mask);
      value := after;
    }
  }
}
