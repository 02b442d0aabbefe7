/** PLL4: register encoding and the glitch-free divider stepping of `set_frequency`. */
module Clock {
  import opened Words

  type Postdivs = p: seq<u8> | |p| == 4 witness [0, 0, 0, 0]

  datatype Dividers = Dividers(fbdiv: u16, post: Postdivs)
  datatype Option<T> = None | Some(value: T)

  /** `frequency_solution`; an unsupported frequency panics in the source. */
  function FrequencySolution(mhz: nat): Option<Dividers> {
    if mhz == 200 then Some(Dividers(128, [15, 15, 15, 15]))
    else if mhz == 1750 then Some(Dividers(140, [1, 1, 1, 1]))
    else if mhz == 15 then Some(Dividers(120, [99, 99, 99, 99]))
    else None
  }

  /** The divisor a post-divider code selects in this PLL. */
  function Divisor(post: nat): nat {
    if post <= 16 then post + 1 else 2 * (post + 1)
  }

  /** Each solution gives its frequency on all four outputs: 25 MHz times fbdiv, divided by the
      divisor the post-divider selects; every other frequency is refused. */
  lemma SolutionFrequency(mhz: nat, o: nat)
    requires o < 4
    ensures FrequencySolution(mhz).Some? <==> mhz == 200 || mhz == 1750 || mhz == 15
    ensures FrequencySolution(mhz).Some? ==>
      var d := FrequencySolution(mhz).value; 25 * d.fbdiv == mhz * Divisor(d.post[o])
  {
  }

  // ---- CNTL1 and CNTL5 ----

  function Fbdiv(cntl1: u32): u16 {
    cntl1 / 65536
  }

  /** Replace the fbdiv half of CNTL1, keeping the refdiv and postdiv bytes. */
  function WithFbdiv(cntl1: u32, fbdiv: u16): u32 {
    cntl1 % 65536 + 65536 * fbdiv
  }

  function DecodePost(cntl5: u32): Postdivs {
    ToLe(cntl5, 4)
  }

  function EncodePost(p: Postdivs): u32 {
    FromLe(p)
  }

  lemma FbdivRoundTrip(v: u32, f: u16)
    ensures Fbdiv(WithFbdiv(v, f)) == f && WithFbdiv(v, f) % 65536 == v % 65536
    ensures WithFbdiv(v, Fbdiv(v)) == v
  {
  }

  function Decode(cntl1: u32, cntl5: u32): Dividers {
    Dividers(Fbdiv(cntl1), DecodePost(cntl5))
  }

  // ---- one step of the stepping order ----

  /** The first output from `i` on whose entry in `a` is below that in `b`, or 4. */
  function FirstBelow(a: Postdivs, b: Postdivs, i: nat): (r: nat)
    requires i <= 4
    ensures i <= r <= 4
    ensures forall j :: i <= j < r ==> a[j] >= b[j]
    ensures r < 4 ==> a[r] < b[r]
    decreases 4 - i
  {
    if i == 4 || a[i] < b[i] then i else FirstBelow(a, b, i + 1)
  }

  /** The write `set_frequency` makes next: raise post-dividers, then move fbdiv, then lower
      post-dividers. */
  function Next(c: Dividers, t: Dividers): Dividers {
    var up, down := FirstBelow(c.post, t.post, 0), FirstBelow(t.post, c.post, 0);
    if up < 4 then c.(post := c.post[up := c.post[up] + 1])
    else if c.fbdiv < t.fbdiv then c.(fbdiv := c.fbdiv + 1)
    else if c.fbdiv > t.fbdiv then c.(fbdiv := c.fbdiv - 1)
    else if down < 4 then c.(post := c.post[down := c.post[down] - 1])
    else c
  }

  function Gap(x: int, y: int): nat {
    if x <= y then y - x else x - y
  }

  function Distance(c: Dividers, t: Dividers): nat {
    Gap(c.fbdiv, t.fbdiv) + Gap(c.post[0], t.post[0]) + Gap(c.post[1], t.post[1])
    + Gap(c.post[2], t.post[2]) + Gap(c.post[3], t.post[3])
  }

  /** Exactly one divider moves, by exactly one. */
  ghost predicate OneDividerByOne(c: Dividers, n: Dividers) {
    Distance(c, n) == 1
  }

  /** Moving one post-divider towards its target is one unit of distance. */
  lemma PostApproaches(c: Dividers, t: Dividers, i: nat, v: u8)
    requires i < 4 && Gap(v, t.post[i]) == Gap(c.post[i], t.post[i]) - 1
    ensures Distance(c.(post := c.post[i := v]), t) == Distance(c, t) - 1
  {
    if i == 0 {
    } else if i == 1 {
    } else if i == 2 {
    } else {
    }
  }

  lemma NextApproaches(c: Dividers, t: Dividers)
    requires c != t
    ensures Distance(Next(c, t), t) == Distance(c, t) - 1
  {
    var up, down := FirstBelow(c.post, t.post, 0), FirstBelow(t.post, c.post, 0);
    if up < 4 {
      PostApproaches(c, t, up, c.post[up] + 1);
    } else if down < 4 {
      PostApproaches(c, t, down, c.post[down] - 1);
    } else {
      assert c.post == t.post;
    }
  }

  lemma NextMovesOne(c: Dividers, t: Dividers)
    requires c != t
    ensures OneDividerByOne(c, Next(c, t))
  {
    if FirstBelow(c.post, t.post, 0) == 4 && FirstBelow(t.post, c.post, 0) == 4 {
      assert c.post == t.post;
    }
  }

  lemma ZeroDistance(c: Dividers, t: Dividers)
    ensures Distance(c, t) == 0 <==> c == t
  {
    if Distance(c, t) == 0 {
      assert c.post == t.post;
    }
  }

  /** All writes from `c` to `t`. */
  function Path(c: Dividers, t: Dividers): (p: seq<Dividers>)
    ensures |p| == Distance(c, t)
    decreases Distance(c, t)
  {
    ZeroDistance(c, t);
    if c == t then [] else NextApproaches(c, t); [Next(c, t)] + Path(Next(c, t), t)
  }

  // ---- no overshoot ----

  /** Any positive non-decreasing map from a post-divider code to the divisor it selects. */
  ghost predicate DivisorMap(D: nat -> real) {
    (forall x :: D(x) > 0.0) && (forall x, y :: x <= y ==> D(x) <= D(y))
  }

  ghost function Ratio(d: Dividers, i: nat, D: nat -> real): real
    requires i < 4 && DivisorMap(D)
  {
    d.fbdiv as real / D(d.post[i])
  }

  /** The PLL's own divisors are such a map. */
  lemma DivisorsAreMap()
    ensures DivisorMap((p: nat) => Divisor(p) as real)
  {
  }

  lemma QuotientMonotone(a: real, b: real, c: real, d: real)
    requires 0.0 <= a <= c && 0.0 < d <= b
    ensures a / b <= c / d
  {
    var x, y := a / b, c / d;
    assert x * b == a && y * d == c;
    assert y >= 0.0;
    assert y * b >= y * d;
  }

  /** One write never lifts an output above the higher of where it is and where it goes. */
  lemma NextDoesNotOvershoot(c: Dividers, t: Dividers, i: nat, D: nat -> real, bound: real)
    requires i < 4 && DivisorMap(D)
    requires Ratio(c, i, D) <= bound && Ratio(t, i, D) <= bound
    ensures Ratio(Next(c, t), i, D) <= bound
  {
    var n := Next(c, t);
    if n.fbdiv <= c.fbdiv && n.post[i] >= c.post[i] {
      QuotientMonotone(n.fbdiv as real, D(n.post[i]), c.fbdiv as real, D(c.post[i]));
    } else {
      assert n.fbdiv <= t.fbdiv && n.post[i] >= t.post[i];
      QuotientMonotone(n.fbdiv as real, D(n.post[i]), t.fbdiv as real, D(t.post[i]));
    }
  }

  /** Over the whole sequence: at every write each output's ratio stays at or below the
      larger of its start and target ratios. */
  lemma {:induction false} PathDoesNotOvershoot(c: Dividers, t: Dividers, k: nat, i: nat, D: nat -> real, bound: real)
    requires i < 4 && DivisorMap(D) && k < |Path(c, t)|
    requires Ratio(c, i, D) <= bound && Ratio(t, i, D) <= bound
    ensures Ratio(Path(c, t)[k], i, D) <= bound
    decreases k
  {
    NextDoesNotOvershoot(c, t, i, D, bound);
    NextApproaches(c, t);
    if k == 0 {
    } else {
      PathDoesNotOvershoot(Next(c, t), t, k - 1, i, D, bound);
    }
  }

  lemma {:induction false} PathStepsByOne(c: Dividers, t: Dividers, k: nat)
    requires k < |Path(c, t)|
    ensures OneDividerByOne(if k == 0 then c else Path(c, t)[k - 1], Path(c, t)[k])
    decreases k
  {
    ZeroDistance(c, t);
    NextMovesOne(c, t);
    if k == 0 {
    } else {
      NextApproaches(c, t);
      PathStepsByOne(Next(c, t), t, k - 1);
    }
  }

  lemma {:induction false} PathEndsAtTarget(c: Dividers, t: Dividers)
    requires c != t
    ensures Path(c, t) != [] && Path(c, t)[|Path(c, t)| - 1] == t
    decreases Distance(c, t)
  {
    NextApproaches(c, t);
    if Next(c, t) == t {
    } else {
      PathEndsAtTarget(Next(c, t), t);
    }
  }

  // ---- the routine ----

  /** A register write: the dividers it leaves and the low half of CNTL1. */
  datatype Write = Write(d: Dividers, low: int)

  function Trail(w: seq<Write>): seq<Dividers> {
    seq(|w|, k requires 0 <= k < |w| => w[k].d)
  }

  /** The writes `w` have gone from `start` to `now` along the path to `t`, with the refdiv
      and postdiv bytes of CNTL1 as they were. */
  ghost predicate Follows(w: seq<Write>, now: Dividers, start: Dividers, t: Dividers, low: int) {
    && (forall k :: 0 <= k < |w| ==> w[k].low == low)
    && Path(start, t) == Trail(w) + Path(now, t)
  }

  lemma PathStep(c: Dividers, t: Dividers)
    requires c != t
    ensures Path(c, t) == [Next(c, t)] + Path(Next(c, t), t)
  {
  }

  lemma TrailStep(w: seq<Write>, n: Write, rest: seq<Dividers>)
    ensures Trail(w) + ([n.d] + rest) == Trail(w + [n]) + rest
  {
    assert Trail(w + [n]) == Trail(w) + [n.d];
  }

  lemma FollowsNext(w: seq<Write>, now: Dividers, start: Dividers, t: Dividers, n: Write)
    requires Follows(w, now, start, t, n.low) && now != t && n.d == Next(now, t)
    ensures Follows(w + [n], n.d, start, t, n.low)
  {
    PathStep(now, t);
    TrailStep(w, n, Path(n.d, t));
  }

  ghost predicate AtLeast(a: Postdivs, b: Postdivs, n: nat)
    requires n <= 4
  {
    forall j :: 0 <= j < n ==> a[j] >= b[j]
  }

  lemma NextUp(c: Dividers, t: Dividers, i: nat)
    requires i < 4 && c.post[i] < t.post[i] && AtLeast(c.post, t.post, i)
    ensures c != t && Next(c, t) == c.(post := c.post[i := c.post[i] + 1])
    ensures AtLeast(c.post[i := c.post[i] + 1], t.post, i)
  {
  }

  lemma NextDown(c: Dividers, t: Dividers, i: nat)
    requires i < 4 && c.post[i] > t.post[i] && c.fbdiv == t.fbdiv
    requires AtLeast(c.post, t.post, 4)
    requires AtLeast(t.post, c.post, i)
    ensures c != t && Next(c, t) == c.(post := c.post[i := c.post[i] - 1])
    ensures AtLeast(c.post[i := c.post[i] - 1], t.post, 4) && AtLeast(t.post, c.post[i := c.post[i] - 1], i)
  {
  }

  /** PLL4's two registers; `log` records the writes. */
  class Pll {
    var cntl1: u32
    var cntl5: u32
    ghost var log: seq<Write>

    constructor (cntl1: u32, cntl5: u32)
      ensures this.cntl1 == cntl1 && this.cntl5 == cntl5 && log == []
    {
      this.cntl1, this.cntl5, log := cntl1, cntl5, [];
    }

    ghost function Now(): Dividers
      reads this
    {
      Decode(cntl1, cntl5)
    }

    ghost function Low(): int
      reads this
    {
      cntl1 % 65536
    }

    method WritePost(post: Postdivs)
      modifies this
      ensures Now() == old(Now()).(post := post) && Low() == old(Low())
      ensures log == old(log) + [Write(Now(), Low())]
    {
      LeRoundTrip(post);
      cntl5 := EncodePost(post);
      log := log + [Write(Now(), Low())];
    }

    method WriteFbdiv(current: u32)
      requires current % 65536 == Low()
      modifies this
      ensures Now() == old(Now()).(fbdiv := Fbdiv(current)) && Low() == old(Low())
      ensures log == old(log) + [Write(Now(), Low())]
    {
      cntl1 := current;
      log := log + [Write(Now(), Low())];
    }

    /** Since the log was `base`, the writes follow the path from `start` to `t`. */
    ghost predicate OnPath(base: seq<Write>, start: Dividers, t: Dividers, low: int)
      reads this
    {
      base <= log && Low() == low && Follows(log[|base|..], Now(), start, t, low)
    }

    method StepPost(post: Postdivs, t: Dividers, ghost base: seq<Write>, ghost start: Dividers, ghost low: int)
      requires OnPath(base, start, t, low) && Now() != t && Next(Now(), t) == Now().(post := post)
      modifies this
      ensures OnPath(base, start, t, low) && Now() == old(Now()).(post := post)
    {
      WritePost(post);
      FollowsNext(old(log)[|base|..], old(Now()), start, t, Write(Now(), low));
      assert log[|base|..] == old(log)[|base|..] + [Write(Now(), low)];
    }

    /** The inner loop of step 1; `was` is the local copy of CNTL5. */
    method RaiseOne(was: Postdivs, t: Dividers, i: nat, ghost base: seq<Write>, ghost start: Dividers, ghost low: int)
      returns (post: Postdivs)
      requires i < 4 && was == Now().post && OnPath(base, start, t, low)
      requires AtLeast(was, t.post, i)
      modifies this
      ensures post == Now().post && Now().fbdiv == old(Now()).fbdiv && OnPath(base, start, t, low)
      ensures AtLeast(post, t.post, i + 1)
    {
      post := was;
      while post[i] < t.post[i]
        invariant post == Now().post && Now().fbdiv == old(Now()).fbdiv && OnPath(base, start, t, low)
        invariant AtLeast(post, t.post, i)
        decreases Gap(t.post[i], post[i])
      {
        post := RaiseStep(post, t, i, base, start, low);
      }
    }

    method RaiseStep(was: Postdivs, t: Dividers, i: nat, ghost base: seq<Write>, ghost start: Dividers, ghost low: int)
      returns (post: Postdivs)
      requires i < 4 && was == Now().post && OnPath(base, start, t, low)
      requires was[i] < t.post[i] && AtLeast(was, t.post, i)
      modifies this
      ensures post == was[i := was[i] + 1] && Now() == old(Now()).(post := post) && OnPath(base, start, t, low)
      ensures AtLeast(post, t.post, i)
    {
      NextUp(Now(), t, i);
      post := was[i := was[i] + 1];
      StepPost(post, t, base, start, low);
    }

    /** Step 2; `was` is the local copy of CNTL1. */
    method StepFbdiv(was: u32, t: Dividers, ghost base: seq<Write>, ghost start: Dividers, ghost low: int)
      requires Fbdiv(was) == Now().fbdiv && was % 65536 == low && OnPath(base, start, t, low)
      requires AtLeast(Now().post, t.post, 4)
      modifies this
      ensures OnPath(base, start, t, low)
      ensures Now() == old(Now()).(fbdiv := t.fbdiv)
    {
      var current := was;
      while Fbdiv(current) != t.fbdiv
        invariant Fbdiv(current) == Now().fbdiv && current % 65536 == low
        invariant Now().post == old(Now()).post && OnPath(base, start, t, low)
        decreases Gap(Fbdiv(current), t.fbdiv)
      {
        current := FbdivStep(current, t, base, start, low);
      }
    }

    method FbdivStep(was: u32, t: Dividers, ghost base: seq<Write>, ghost start: Dividers, ghost low: int)
      returns (current: u32)
      requires Fbdiv(was) == Now().fbdiv && was % 65536 == low && OnPath(base, start, t, low)
      requires AtLeast(Now().post, t.post, 4) && Fbdiv(was) != t.fbdiv
      modifies this
      ensures OnPath(base, start, t, low) && current % 65536 == low
      ensures Now() == old(Now()).(fbdiv := Fbdiv(current))
      ensures Gap(Fbdiv(current), t.fbdiv) < Gap(Fbdiv(was), t.fbdiv)
    {
      var fbdiv := if t.fbdiv > Fbdiv(was) then Fbdiv(was) + 1 else Fbdiv(was) - 1;
      FbdivRoundTrip(was, fbdiv);
      current := WithFbdiv(was, fbdiv);
      WriteFbdiv(current);
      FollowsNext(old(log)[|base|..], old(Now()), start, t, Write(Now(), low));
      assert log[|base|..] == old(log)[|base|..] + [Write(Now(), low)];
    }

    /** The inner loop of step 3. */
    method LowerOne(was: Postdivs, t: Dividers, i: nat, ghost base: seq<Write>, ghost start: Dividers, ghost low: int)
      returns (post: Postdivs)
      requires i < 4 && was == Now().post && OnPath(base, start, t, low) && Now().fbdiv == t.fbdiv
      requires AtLeast(was, t.post, 4) && AtLeast(t.post, was, i)
      modifies this
      ensures post == Now().post && OnPath(base, start, t, low) && Now().fbdiv == t.fbdiv
      ensures AtLeast(post, t.post, 4) && AtLeast(t.post, post, i + 1)
    {
      post := was;
      while post[i] > t.post[i]
        invariant post == Now().post && Now().fbdiv == t.fbdiv && OnPath(base, start, t, low)
        invariant AtLeast(post, t.post, 4) && AtLeast(t.post, post, i)
        decreases Gap(t.post[i], post[i])
      {
        post := LowerStep(post, t, i, base, start, low);
      }
    }

    method LowerStep(was: Postdivs, t: Dividers, i: nat, ghost base: seq<Write>, ghost start: Dividers, ghost low: int)
      returns (post: Postdivs)
      requires i < 4 && was == Now().post && OnPath(base, start, t, low) && Now().fbdiv == t.fbdiv
      requires was[i] > t.post[i] && AtLeast(was, t.post, 4) && AtLeast(t.post, was, i)
      modifies this
      ensures post == Now().post == was[i := was[i] - 1] && OnPath(base, start, t, low) && Now().fbdiv == t.fbdiv
      ensures AtLeast(post, t.post, 4) && AtLeast(t.post, post, i)
    {
      NextDown(Now(), t, i);
      post := was[i := was[i] - 1];
      StepPost(post, t, base, start, low);
    }

    method StepTo(t: Dividers)
      modifies this
      ensures Now() == t && OnPath(old(log), old(Now()), t, old(Low()))
    {
      ghost var base, start, low := log, Now(), Low();
      assert Trail([]) + Path(start, t) == Path(start, t);
      var post := DecodePost(cntl5);
      var current := cntl1;
      for i := 0 to 4
        invariant post == Now().post && Fbdiv(current) == Now().fbdiv && OnPath(base, start, t, low)
        invariant AtLeast(post, t.post, i)
      {
        post := RaiseOne(post, t, i, base, start, low);
      }
      StepFbdiv(current, t, base, start, low);
      for i := 0 to 4
        invariant post == Now().post && OnPath(base, start, t, low) && Now().fbdiv == t.fbdiv
        invariant AtLeast(post, t.post, 4) && AtLeast(t.post, post, i)
      {
        post := LowerOne(post, t, i, base, start, low);
      }
      assert Now().post == t.post;
    }

    /** `set_frequency`: the writes are exactly the path to the solution, none touches the
        refdiv and postdiv bytes, and an unsupported frequency writes nothing. */
    method SetFrequency(mhz: nat) returns (ok: bool)
      modifies this
      ensures ok <==> FrequencySolution(mhz).Some?
      ensures !ok ==> unchanged(this)
      ensures ok ==>
        var t := FrequencySolution(mhz).value;
        && Now() == t && Low() == old(Low()) && old(log) <= log
        && Trail(log[|old(log)|..]) == Path(old(Now()), t)
        && forall k :: |old(log)| <= k < |log| ==> log[k].low == old(Low())
    {
      match FrequencySolution(mhz)
      case None => ok := false;
      case Some(t) =>
        ok := true;
        StepTo(t);
        ghost var w := log[|old(log)|..];
        assert Trail(w) == Trail(w) + Path(t, t);
        assert forall k :: |old(log)| <= k < |log| ==> log[k] == w[k - |old(log)|];
    }
  }
}
