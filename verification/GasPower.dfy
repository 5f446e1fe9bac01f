/**
 Gas power of validators (eventcheck/gaspowercheck/gas_power_check.go): what an event may
 use grows with time in proportion to stake, and is carried over from event to event.
 */
module GasPower {
  import opened Totals
  import opened Words

  const SECOND: nat := 1_000_000_000
  const MAX_INT64: nat := 0x7FFF_FFFF_FFFF_FFFF

  datatype Config = Config(
    allocPerSec: uint64,
    maxAllocPeriod: uint64,
    minEnsuredAlloc: uint64,
    startupAllocPeriod: uint64,
    minStartupGas: uint64)

  /** An event, as far as gas power is concerned; times are nanoseconds, `left` is by configuration. */
  datatype Event = Event(epoch: nat, creator: nat, hasParent: bool, time: uint64, used: uint64, left: seq<uint64>)

  /** The last event of the validator in the epoch before, if there was one, and its refund. */
  datatype ValidatorState = ValidatorState(existed: bool, left: seq<uint64>, time: uint64, refund: uint64)

  /** Stakes by validator. */
  datatype Context = Context(epoch: nat, epochStart: uint64, stakes: seq<nat>, states: seq<ValidatorState>, configs: seq<Config>) {
    predicate Valid() {
      && |stakes| == |states| && Sum(stakes) <= MAX_UINT32
      && forall s | s in states :: |s.left| == |configs|
    }
  }

  // ---------- the share of a validator ----------

  datatype Rates = Rates(perSec: uint64, maxGasPower: uint64, startup: uint64)

  function AtLeast(x: uint64, floor: uint64): (r: uint64)
    ensures r >= floor && r >= x
  {
    if x < floor then floor else x
  }

  function PerSec(stake: nat, total: nat, allocPerSec: uint64): (r: uint64)
    requires stake <= total
    ensures r <= allocPerSec
  {
    if stake == 0 then 0 else
      Portion(allocPerSec, stake, total);
      allocPerSec * stake / total
  }

  lemma Portion(a: nat, stake: nat, total: nat)
    requires 0 < stake <= total
    ensures a * stake / total <= a
  {
    assert a * stake <= a * total;
    DivUpper(a * stake, a, total);
  }

  lemma Monotone(a: nat, b: nat, d: nat)
    requires a <= b
    ensures a * d <= b * d
  {
  }

  lemma DivUpper(x: nat, q: nat, d: nat)
    requires d > 0 && x <= q * d
    ensures x / d <= q
  {
    Floor(x, d);
    if x / d > q { Monotone(q + 1, x / d, d); }
  }

  function CalcValidatorGasPowerPerSec(stake: nat, total: nat, c: Config): (r: Rates)
    requires stake <= total
    ensures r.perSec <= c.allocPerSec
    ensures stake > 0 ==> r.maxGasPower >= c.minEnsuredAlloc && r.startup >= c.minStartupGas
  {
    if stake == 0 then Rates(0, 0, 0) else
      var perSec := PerSec(stake, total, c.allocPerSec);
      Rates(
        perSec,
        AtLeast(Wrap64(perSec * (c.maxAllocPeriod / SECOND)), c.minEnsuredAlloc),
        AtLeast(Wrap64(perSec * (c.startupAllocPeriod / SECOND)), c.minStartupGas))
  }

  /** What the validators get per second, one by one. */
  function Shares(stakes: seq<nat>, total: nat, alloc: uint64): (r: seq<nat>)
    requires forall i | 0 <= i < |stakes| :: stakes[i] <= total
    ensures |r| == |stakes|
  {
    seq(|stakes|, i requires 0 <= i < |stakes| => PerSec(stakes[i], total, alloc))
  }

  lemma {:induction false} SharesBound(stakes: seq<nat>, total: nat, alloc: uint64)
    requires total > 0 && forall i | 0 <= i < |stakes| :: stakes[i] <= total
    ensures Sum(Shares(stakes, total, alloc)) * total <= alloc * Sum(stakes)
    ensures alloc * Sum(stakes) <= Sum(Shares(stakes, total, alloc)) * total + |stakes| * (total - 1)
  {
    if stakes != [] {
      var last := |stakes| - 1;
      var front := stakes[..last];
      SharesBound(front, total, alloc);
      assert Shares(stakes, total, alloc)[..last] == Shares(front, total, alloc);
      ShareStep(Sum(Shares(front, total, alloc)), Sum(front), stakes[last], total, alloc, last);
    }
  }

  lemma ShareStep(shares: nat, sum: nat, stake: nat, total: nat, alloc: uint64, n: nat)
    requires 0 < total && stake <= total
    requires shares * total <= alloc * sum && alloc * sum <= shares * total + n * (total - 1)
    ensures (shares + PerSec(stake, total, alloc)) * total <= alloc * (sum + stake)
    ensures alloc * (sum + stake) <= (shares + PerSec(stake, total, alloc)) * total + (n + 1) * (total - 1)
  {
    var p := PerSec(stake, total, alloc);
    assert p * total <= alloc * stake <= p * total + (total - 1) by {
      if stake > 0 { Floor(alloc * stake, total); }
    }
  }

  lemma Floor(x: nat, d: nat)
    requires d > 0
    ensures x / d * d <= x <= x / d * d + (d - 1)
  {
  }

  /** The shares of all validators never exceed the allocation, and rounding loses less than one unit each. */
  lemma SharesFit(stakes: seq<nat>, alloc: uint64)
    requires Sum(stakes) > 0
    ensures (forall i | 0 <= i < |stakes| :: stakes[i] <= Sum(stakes))
    ensures Sum(Shares(stakes, Sum(stakes), alloc)) <= alloc < Sum(Shares(stakes, Sum(stakes), alloc)) + |stakes|
  {
    var total := Sum(stakes);
    forall i | 0 <= i < |stakes|
      ensures stakes[i] <= total
    {
      AtMostSum(stakes, i);
    }
    SharesBound(stakes, total, alloc);
    Cancel(Sum(Shares(stakes, total, alloc)), alloc, total, |stakes|);
  }

  lemma Cancel(shares: nat, alloc: nat, total: nat, n: nat)
    requires total > 0 && n > 0 && shares * total <= alloc * total <= shares * total + n * (total - 1)
    ensures shares <= alloc < shares + n
  {
    if shares > alloc { Monotone(alloc + 1, shares, total); }
    if alloc >= shares + n { Monotone(shares + n, alloc, total); }
  }

  // ---------- the power of one event ----------

  function Allocated(time: uint64, prevTime: uint64, perSec: uint64): nat {
    if prevTime > time then 0 else (time - prevTime) * perSec / SECOND
  }

  function CalcValidatorGasPower(hasParent: bool, time: uint64, prevTime: uint64, prevLeft: uint64, r: Rates): (power: uint64)
    ensures power <= r.maxGasPower
    ensures hasParent ==> power <= prevLeft + Allocated(time, prevTime, r.perSec)
  {
    var left := if !hasParent && prevLeft < r.startup then r.startup else prevLeft;
    var from := if prevTime > time then time else prevTime;
    assert (time - from) * r.perSec / SECOND == Allocated(time, prevTime, r.perSec);
    var power := Wrap64(Wrap64((time - from) * r.perSec / SECOND) + left);
    if power > r.maxGasPower then r.maxGasPower else power
  }

  /** Unless the sum does not fit a word, the power is what was left plus what time allocates, up to the maximum. */
  lemma PowerIsSum(hasParent: bool, time: uint64, prevTime: uint64, prevLeft: uint64, r: Rates)
    ensures var sum := Allocated(time, prevTime, r.perSec) + if hasParent then prevLeft else AtLeast(prevLeft, r.startup);
      sum <= MAX_UINT64 ==>
        CalcValidatorGasPower(hasParent, time, prevTime, prevLeft, r) == if sum > r.maxGasPower then r.maxGasPower else sum
  {
    hide Wrap64;
    if prevTime > time {
      assert (time - time) * r.perSec / SECOND == 0;
    }
  }

  function GasPowerOf(e: Event, parent: Event, ctx: Context, i: nat): uint64
    requires ctx.Valid() && e.creator < |ctx.stakes| && i < |ctx.configs| && (e.hasParent ==> i < |parent.left|)
  {
    AtMostSum(ctx.stakes, e.creator);
    var r := CalcValidatorGasPowerPerSec(ctx.stakes[e.creator], Sum(ctx.stakes), ctx.configs[i]);
    if e.hasParent then CalcValidatorGasPower(true, e.time, parent.time, parent.left[i], r)
    else
      var s := ctx.states[e.creator];
      assert s in ctx.states;
      var prevLeft := Wrap64((if s.existed then s.left[i] else 0) + s.refund);
      CalcValidatorGasPower(false, e.time, if s.existed then s.time else ctx.epochStart, prevLeft, r)
  }

  ghost predicate Accounts(e: Event, parent: Event, ctx: Context, i: nat)
    requires ctx.Valid() && e.creator < |ctx.stakes| && i < |ctx.configs| == |e.left| && (e.hasParent ==> i < |parent.left|)
  {
    Wrap64(e.left[i] + e.used) == GasPowerOf(e, parent, ctx, i)
  }

  datatype Check = Pass | NotRelevant | WrongGasPowerLeft

  /** Accepted exactly when of this epoch and accounting for its power in every configuration. */
  method Validate(e: Event, parent: Event, ctx: Context) returns (c: Check)
    requires ctx.Valid() && e.creator < |ctx.stakes|
    requires |e.left| == |ctx.configs| && (e.hasParent ==> |parent.left| == |ctx.configs|)
    ensures c == NotRelevant <==> e.epoch != ctx.epoch
    ensures c == Pass <==> e.epoch == ctx.epoch && forall i: nat | i < |ctx.configs| :: Accounts(e, parent, ctx, i)
  {
    hide GasPowerOf;
    if ctx.epoch != e.epoch {
      return NotRelevant;
    }
    var powers: seq<uint64> := [];
    for i := 0 to |ctx.configs|
      invariant |powers| == i && forall k: nat | k < i :: powers[k] == GasPowerOf(e, parent, ctx, k)
    {
      powers := powers + [GasPowerOf(e, parent, ctx, i)];
    }
    for i := 0 to |ctx.configs|
      invariant forall k: nat | k < i :: Accounts(e, parent, ctx, k)
    {
      if Wrap64(e.left[i] + e.used) != powers[i] {
        assert !Accounts(e, parent, ctx, i);
        return WrongGasPowerLeft;
      }
    }
    return Pass;
  }

  // ---------- what an accepted event has, in the terms of its data ----------

  /** The share of a validator with stake, when its products fit a word. */
  lemma RatesAre(stake: nat, total: nat, c: Config)
    requires 0 < stake <= total
    ensures var perSec := c.allocPerSec * stake / total;
      var r := CalcValidatorGasPowerPerSec(stake, total, c);
      && r.perSec == perSec
      && (perSec * (c.maxAllocPeriod / SECOND) <= MAX_UINT64 ==>
            r.maxGasPower == if perSec * (c.maxAllocPeriod / SECOND) < c.minEnsuredAlloc then c.minEnsuredAlloc
                             else perSec * (c.maxAllocPeriod / SECOND))
      && (perSec * (c.startupAllocPeriod / SECOND) <= MAX_UINT64 ==>
            r.startup == if perSec * (c.startupAllocPeriod / SECOND) < c.minStartupGas then c.minStartupGas
                         else perSec * (c.startupAllocPeriod / SECOND))
  {
  }

  /** A first event: what the validator had left in the epoch before and its refund, at least the startup amount. */
  lemma FirstPower(e: Event, parent: Event, ctx: Context, i: nat, r: Rates)
    requires ctx.Valid() && e.creator < |ctx.stakes| && !e.hasParent && i < |ctx.configs| == |e.left| && SmallEnough(e)
    requires ctx.stakes[e.creator] <= Sum(ctx.stakes)
    requires r == CalcValidatorGasPowerPerSec(ctx.stakes[e.creator], Sum(ctx.stakes), ctx.configs[i])
    requires Accounts(e, parent, ctx, i)
    ensures ctx.states[e.creator] in ctx.states
    ensures var s := ctx.states[e.creator];
      var carried := s.refund + if s.existed then s.left[i] else 0;
      var since := if s.existed then s.time else ctx.epochStart;
      var elapsed := if since > e.time then 0 else e.time - since;
      var power := (if carried < r.startup then r.startup else carried) + elapsed * r.perSec / SECOND;
      carried <= MAX_UINT64 && power <= MAX_UINT64 ==> e.left[i] + e.used == if power > r.maxGasPower then r.maxGasPower else power
  {
    hide CalcValidatorGasPowerPerSec, CalcValidatorGasPower, Wrap64;
    var s := ctx.states[e.creator];
    assert s in ctx.states && e.left[i] in e.left;
    var carried := s.refund + if s.existed then s.left[i] else 0;
    if carried <= MAX_UINT64 {
      PowerIsSum(false, e.time, if s.existed then s.time else ctx.epochStart, carried, r);
    }
  }

  /** Any other: what its self-parent had left. */
  lemma NextPower(e: Event, parent: Event, ctx: Context, i: nat, r: Rates)
    requires ctx.Valid() && e.creator < |ctx.stakes| && e.hasParent && i < |ctx.configs| == |e.left| == |parent.left| && SmallEnough(e)
    requires ctx.stakes[e.creator] <= Sum(ctx.stakes)
    requires r == CalcValidatorGasPowerPerSec(ctx.stakes[e.creator], Sum(ctx.stakes), ctx.configs[i])
    requires Accounts(e, parent, ctx, i)
    ensures var elapsed := if parent.time > e.time then 0 else e.time - parent.time;
      var power := parent.left[i] + elapsed * r.perSec / SECOND;
      power <= MAX_UINT64 ==> e.left[i] + e.used == if power > r.maxGasPower then r.maxGasPower else power
  {
    hide CalcValidatorGasPowerPerSec, CalcValidatorGasPower, Wrap64;
    assert e.left[i] in e.left;
    PowerIsSum(true, e.time, parent.time, parent.left[i], r);
  }

  // ---------- whole chains ----------

  /** The size check of basiccheck, which keeps the sum above from wrapping around. */
  predicate SmallEnough(e: Event) {
    e.used < MAX_INT64 - 1 && forall l | l in e.left :: l < MAX_INT64 - 1
  }

  /** Events of one validator, each with the one before as self-parent, all accepted. */
  ghost predicate Chain(events: seq<Event>, ctx: Context) {
    && ctx.Valid() && |events| > 0 && events[0].creator < |ctx.stakes|
    && (forall k: nat | k < |events| ::
      events[k].creator == events[0].creator && |events[k].left| == |ctx.configs| && SmallEnough(events[k]))
    && (forall k: nat | 0 < k < |events| :: Linked(events[k - 1], events[k], ctx))
  }

  ghost predicate Linked(parent: Event, e: Event, ctx: Context)
    requires ctx.Valid()
  {
    && e.epoch == ctx.epoch && e.hasParent && e.creator < |ctx.stakes| && |e.left| == |parent.left| == |ctx.configs|
    && forall i: nat | i < |ctx.configs| :: Accounts(e, parent, ctx, i)
  }

  function TotalUsed(events: seq<Event>): nat {
    if events == [] then 0 else TotalUsed(events[..|events| - 1]) + events[|events| - 1].used
  }

  /** How much the time goes up along the chain; going down does not count. */
  function Ascent(events: seq<Event>): nat {
    if |events| <= 1 then 0 else
      var last := |events| - 1;
      Ascent(events[..last]) + if events[last].time > events[last - 1].time then events[last].time - events[last - 1].time else 0
  }

  function RateOf(events: seq<Event>, ctx: Context, i: nat): uint64
    requires ctx.Valid() && |events| > 0 && events[0].creator < |ctx.stakes| && i < |ctx.configs|
  {
    AtMostSum(ctx.stakes, events[0].creator);
    PerSec(ctx.stakes[events[0].creator], Sum(ctx.stakes), ctx.configs[i].allocPerSec)
  }

  lemma FloorSum(a: nat, b: nat, perSec: nat)
    ensures a * perSec / SECOND + b * perSec / SECOND <= (a + b) * perSec / SECOND
  {
    assert (a + b) * perSec == a * perSec + b * perSec;
  }

  /**
   Whatever the times are: all that a chain used, and what it has left, was available to
   the first event or allocated while time went up.
   */
  lemma {:induction false} ChainBound(events: seq<Event>, ctx: Context, i: nat)
    requires Chain(events, ctx) && i < |ctx.configs|
    ensures TotalUsed(events) + events[|events| - 1].left[i]
      <= events[0].left[i] + events[0].used + Ascent(events) * RateOf(events, ctx, i) / SECOND
    decreases |events|
  {
    var last := |events| - 1;
    var e, rate := events[last], RateOf(events, ctx, i);
    var front := events[..last];
    if last == 0 {
      assert TotalUsed(front) == 0;
    } else {
      var parent := events[last - 1];
      ChainFront(events, ctx);
      ChainBound(front, ctx, i);
      assert front[last - 1] == parent && RateOf(front, ctx, i) == rate;
      StepBound(events, ctx, i);
      FloorSum(Ascent(front), if e.time > parent.time then e.time - parent.time else 0, rate);
    }
  }

  // ---------- across epochs ----------

  function Rise(from: uint64, to: uint64): nat {
    if to > from then to - from else 0
  }

  /** The events of one validator in one epoch. */
  datatype Stretch = Stretch(ctx: Context, events: seq<Event>)

  /** A chain whose first event has no self-parent and is accepted. */
  ghost predicate Whole(t: Stretch) {
    && Chain(t.events, t.ctx)
    && var first := t.events[0];
      && !first.hasParent && first.epoch == t.ctx.epoch
      && forall i: nat | i < |t.ctx.configs| :: Accounts(first, first, t.ctx, i)
  }

  /** The next epoch starts from the last event of the one before, or without one. */
  ghost predicate Resumes(t: Stretch, u: Stretch)
    requires Whole(t) && Whole(u)
  {
    var s, last := u.ctx.states[u.events[0].creator], t.events[|t.events| - 1];
    && |t.ctx.configs| == |u.ctx.configs|
    && (s.existed ==> s.left == last.left && s.time == last.time)
  }

  ghost predicate Career(ts: seq<Stretch>) {
    && ts != [] && (forall k | 0 <= k < |ts| :: Whole(ts[k]))
    && forall k: nat | 0 < k < |ts| :: Resumes(ts[k - 1], ts[k])
  }

  function Earned(nanos: nat, perSec: nat): nat {
    nanos * perSec / SECOND
  }

  /** What an epoch may add: the refund, the startup amount, and what time allocates before and during it. */
  ghost function Income(t: Stretch, i: nat): nat
    requires Whole(t) && i < |t.ctx.configs|
  {
    var first := t.events[0];
    var s, rate := t.ctx.states[first.creator], RateOf(t.events, t.ctx, i);
    s.refund + StartupOf(t.ctx, first.creator, i)
      + Earned(Rise(if s.existed then s.time else t.ctx.epochStart, first.time), rate) + Earned(Ascent(t.events), rate)
  }

  function StartupOf(ctx: Context, creator: nat, i: nat): nat
    requires ctx.Valid() && creator < |ctx.stakes| && i < |ctx.configs|
  {
    AtMostSum(ctx.stakes, creator);
    CalcValidatorGasPowerPerSec(ctx.stakes[creator], Sum(ctx.stakes), ctx.configs[i]).startup
  }

  /** The first event of an epoch has at most what was left before, plus refund, startup and allocation. */
  lemma FirstBound(t: Stretch, i: nat)
    requires Whole(t) && i < |t.ctx.configs|
    ensures var first := t.events[0];
      var s := t.ctx.states[first.creator];
      && s in t.ctx.states
      && first.left[i] + first.used + Earned(Ascent(t.events), RateOf(t.events, t.ctx, i)) <=
         (if s.existed then s.left[i] else 0) + Income(t, i)
  {
    var first := t.events[0];
    var s := t.ctx.states[first.creator];
    assert s in t.ctx.states && first.left[i] in first.left;
    assert Accounts(first, first, t.ctx, i);
    assert Wrap64(first.left[i] + first.used) == first.left[i] + first.used;
  }

  function UsedIn(ts: seq<Stretch>): nat {
    if ts == [] then 0 else UsedIn(ts[..|ts| - 1]) + TotalUsed(ts[|ts| - 1].events)
  }

  ghost function IncomeIn(ts: seq<Stretch>, i: nat): nat
    requires forall t | t in ts :: Whole(t) && i < |t.ctx.configs|
  {
    if ts == [] then 0 else
      assert ts[|ts| - 1] in ts && Whole(ts[|ts| - 1]);
      IncomeIn(ts[..|ts| - 1], i) + Income(ts[|ts| - 1], i)
  }

  /**
   Over any number of epochs a validator uses, and has left, at most what it had left before the
   first of them and what the epochs add.
   */
  lemma {:induction false} CareerBound(ts: seq<Stretch>, i: nat)
    requires Career(ts) && i < |ts[0].ctx.configs| && forall t | t in ts :: i < |t.ctx.configs|
    ensures var first, last := ts[0], ts[|ts| - 1];
      var s := first.ctx.states[first.events[0].creator];
      && s in first.ctx.states && |last.events| > 0 && |last.events[|last.events| - 1].left| > i
      && UsedIn(ts) + last.events[|last.events| - 1].left[i] <= (if s.existed then s.left[i] else 0) + IncomeIn(ts, i)
    decreases |ts|
  {
    hide Chain, Income, Ascent, RateOf, Accounts;
    var n := |ts| - 1;
    var t := ts[n];
    WholeBound(t, i);
    if n == 0 {
      assert ts[..n] == [];
      assert UsedIn(ts) == TotalUsed(t.events) && IncomeIn(ts, i) == Income(t, i);
    } else {
      var front := ts[..n];
      assert forall k | 0 <= k < n :: front[k] == ts[k];
      CareerBound(front, i);
      assert Resumes(ts[n - 1], ts[n]);
    }
  }

  lemma WholeBound(t: Stretch, i: nat)
    requires Whole(t) && i < |t.ctx.configs|
    ensures |t.events| > 0 && t.events[0].creator < |t.ctx.states|
    ensures var last := t.events[|t.events| - 1];
      var s := t.ctx.states[t.events[0].creator];
      && s in t.ctx.states && |last.left| == |t.ctx.configs|
      && TotalUsed(t.events) + last.left[i] <= (if s.existed then s.left[i] else 0) + Income(t, i)
  {
    hide Accounts, Ascent, RateOf, TotalUsed;
    ChainBound(t.events, t.ctx, i);
    FirstBound(t, i);
  }

  lemma ChainFront(events: seq<Event>, ctx: Context)
    requires Chain(events, ctx) && |events| > 1
    ensures Chain(events[..|events| - 1], ctx)
  {
    hide Accounts;
  }

  lemma StepBound(events: seq<Event>, ctx: Context, i: nat)
    requires Chain(events, ctx) && |events| > 1 && i < |ctx.configs|
    ensures var last := |events| - 1;
      events[last].left[i] + events[last].used
        <= events[last - 1].left[i] + Allocated(events[last].time, events[last - 1].time, RateOf(events, ctx, i))
  {
    var last := |events| - 1;
    var e, parent := events[last], events[last - 1];
    assert Linked(parent, e, ctx);
    assert Accounts(e, parent, ctx, i);
    assert e.left[i] in e.left;
    assert Wrap64(e.left[i] + e.used) == e.left[i] + e.used;
  }

  /** With times that never go down: at most the first event's power plus the rate times the elapsed time. */
  lemma ElapsedBound(events: seq<Event>, ctx: Context, i: nat)
    requires Chain(events, ctx) && i < |ctx.configs|
    requires forall k: nat | 0 < k < |events| :: events[k - 1].time <= events[k].time
    ensures var last := |events| - 1;
      && events[0].time <= events[last].time
      && TotalUsed(events) + events[last].left[i]
         <= events[0].left[i] + events[0].used + (events[last].time - events[0].time) * RateOf(events, ctx, i) / SECOND
  {
    hide Linked, TotalUsed, Ascent, PerSec;
    ChainBound(events, ctx, i);
    AscentIsElapsed(events);
  }

  lemma {:induction false} AscentIsElapsed(events: seq<Event>)
    requires |events| > 0 && forall k: nat | 0 < k < |events| :: events[k - 1].time <= events[k].time
    ensures events[0].time <= events[|events| - 1].time && Ascent(events) == events[|events| - 1].time - events[0].time
    decreases |events|
  {
    if |events| > 1 { AscentIsElapsed(events[..|events| - 1]); }
  }

  // ---------- the bounds are exact ----------

  function Times(events: seq<Event>): (t: seq<uint64>)
    ensures |t| == |events|
  {
    seq(|events|, k requires 0 <= k < |events| => events[k].time)
  }

  ghost predicate NeverDown(times: seq<uint64>) {
    forall k: nat | 0 < k < |times| :: times[k - 1] <= times[k]
  }

  /** At most the first event's power plus the rate times the elapsed time, which may be negative. */
  ghost predicate ElapsedHolds(events: seq<Event>, ctx: Context, i: nat)
    requires Chain(events, ctx) && i < |ctx.configs|
  {
    var first, last := events[0], events[|events| - 1];
    TotalUsed(events) + last.left[i] <= first.left[i] + first.used + (last.time - first.time) * RateOf(events, ctx, i) / SECOND
  }

  /** What the times allocate at one unit per nanosecond never exceeds what an event may use. */
  ghost predicate Spendable(times: seq<uint64>) {
    forall k: nat | 0 < k < |times| :: Rise(times[k - 1], times[k]) < MAX_INT64 - 1
  }

  /** One validator, one unit of gas power per nanosecond and no maximum to speak of. */
  const SPENDER := Context(0, 0, [1], [ValidatorState(false, [0], 0, 0)], [Config(SECOND, SECOND, MAX_UINT64, 0, 0)])

  function Spend(times: seq<uint64>, k: nat): Event
    requires k < |times|
  {
    Event(0, 0, k > 0, times[k], if k > 0 then Rise(times[k - 1], times[k]) else 0, [0])
  }

  /** Events at the given times that each use all that has been allocated since the last. */
  function Spending(times: seq<uint64>): (events: seq<Event>)
    ensures |events| == |times| && forall k: nat | k < |times| :: events[k] == Spend(times, k)
  {
    seq(|times|, k requires 0 <= k < |times| => Spend(times, k))
  }

  lemma SpenderRates()
    ensures SPENDER.Valid() && Sum(SPENDER.stakes) == 1
    ensures CalcValidatorGasPowerPerSec(1, 1, SPENDER.configs[0]) == Rates(SECOND, MAX_UINT64, 0)
  {
    assert Sum([1]) == 1 by { assert [1][..0] == []; }
  }

  lemma SpendIsLinked(times: seq<uint64>, k: nat)
    requires 0 < k < |times| && Spendable(times)
    ensures SPENDER.Valid() && Linked(Spend(times, k - 1), Spend(times, k), SPENDER)
  {
    hide CalcValidatorGasPowerPerSec, CalcValidatorGasPower, Sum;
    SpenderRates();
    var e, parent := Spend(times, k), Spend(times, k - 1);
    PowerIsSum(true, e.time, parent.time, 0, Rates(SECOND, MAX_UINT64, 0));
    assert Allocated(e.time, parent.time, SECOND) == Rise(parent.time, e.time);
    assert Accounts(e, parent, SPENDER, 0);
  }

  lemma SpendingIsChain(times: seq<uint64>)
    requires |times| > 0 && Spendable(times)
    ensures Chain(Spending(times), SPENDER) && RateOf(Spending(times), SPENDER, 0) == SECOND
  {
    hide CalcValidatorGasPower, CalcValidatorGasPowerPerSec, Linked;
    SpenderRates();
    forall k: nat | 0 < k < |times|
      ensures Linked(Spending(times)[k - 1], Spending(times)[k], SPENDER)
    {
      SpendIsLinked(times, k);
    }
  }

  lemma {:induction false} SpendingUsesAscent(times: seq<uint64>)
    requires |times| > 0
    ensures TotalUsed(Spending(times)) == Ascent(Spending(times))
    decreases |times|
  {
    var events := Spending(times);
    var last := |times| - 1;
    if last == 0 {
      assert events[..0] == [];
    } else {
      SpendingUsesAscent(times[..last]);
      assert events[..last] == Spending(times[..last]);
    }
  }

  /** The bound by ascents is tight, whatever the times are. */
  lemma ChainBoundIsTight(times: seq<uint64>)
    requires |times| > 0 && Spendable(times)
    ensures var events := Spending(times);
      && Chain(events, SPENDER) && Times(events) == times
      && TotalUsed(events) + events[|events| - 1].left[0]
         == events[0].left[0] + events[0].used + Ascent(events) * RateOf(events, SPENDER, 0) / SECOND
  {
    SpendingIsChain(times);
    SpendingUsesAscent(times);
  }

  lemma {:induction false} AscentAtLeastElapsed(events: seq<Event>)
    requires |events| > 0
    ensures Ascent(events) >= events[|events| - 1].time - events[0].time
    ensures !NeverDown(Times(events)) ==> Ascent(events) > events[|events| - 1].time - events[0].time
    decreases |events|
  {
    var last := |events| - 1;
    if last > 0 {
      var front := events[..last];
      AscentAtLeastElapsed(front);
      assert forall k: nat | k < last :: Times(front)[k] == Times(events)[k];
      if !NeverDown(Times(events)) && events[last - 1].time <= events[last].time {
        var k: nat :| 0 < k < |events| && Times(events)[k - 1] > Times(events)[k];
        assert Times(front)[k - 1] > Times(front)[k];
      }
    }
  }

  /** Over given times the elapsed time bounds every chain if and only if the times never go down. */
  lemma ElapsedBoundsIffNeverDown(times: seq<uint64>)
    requires |times| > 0 && Spendable(times)
    ensures NeverDown(times) <==>
      forall events: seq<Event>, ctx: Context, i: nat ::
        Chain(events, ctx) && i < |ctx.configs| && Times(events) == times ==> ElapsedHolds(events, ctx, i)
  {
    hide Chain, Ascent, TotalUsed;
    if NeverDown(times) {
      forall events: seq<Event>, ctx: Context, i: nat | Chain(events, ctx) && i < |ctx.configs| && Times(events) == times
        ensures ElapsedHolds(events, ctx, i)
      {
        UpIsBounded(events, ctx, i);
      }
    } else {
      DownIsNotBounded(times);
    }
  }

  lemma UpIsBounded(events: seq<Event>, ctx: Context, i: nat)
    requires Chain(events, ctx) && i < |ctx.configs| && NeverDown(Times(events))
    ensures ElapsedHolds(events, ctx, i)
  {
    hide Linked, Ascent, TotalUsed, PerSec;
    forall k: nat | 0 < k < |events|
      ensures events[k - 1].time <= events[k].time
    {
      assert Times(events)[k - 1] <= Times(events)[k];
    }
    ElapsedBound(events, ctx, i);
  }

  lemma DownIsNotBounded(times: seq<uint64>)
    requires |times| > 0 && !NeverDown(times) && Spendable(times)
    ensures var events := Spending(times);
      Chain(events, SPENDER) && Times(events) == times && !ElapsedHolds(events, SPENDER, 0)
  {
    hide Linked, PerSec;
    ChainBoundIsTight(times);
    SpendingIsChain(times);
    AscentAtLeastElapsed(Spending(times));
    WholeUnits(Ascent(Spending(times)));
    WholeUnits(Spending(times)[|times| - 1].time - Spending(times)[0].time);
  }

  lemma WholeUnits(x: int)
    ensures x * SECOND / SECOND == x
  {
  }

  /**
   Beyond that, going down need not show: after a jump of the whole range no event can use more
   than the elapsed time allocates anyway, at any rate.
   */
  lemma LongJumpIsBounded(events: seq<Event>, ctx: Context, i: nat)
    requires Chain(events, ctx) && i < |ctx.configs| && Times(events) == [0, 1, 0, MAX_UINT64]
    ensures !NeverDown(Times(events)) && ElapsedHolds(events, ctx, i)
  {
    hide Linked, PerSec;
    var times := Times(events);
    assert times[1] > times[2];
    assert events[0].time == times[0] && events[1].time == times[1] && events[2].time == times[2] && events[3].time == times[3];
    var front, rate := events[..3], RateOf(events, ctx, i);
    ChainFront(events, ctx);
    ChainBound(front, ctx, i);
    assert |events| == 4 && events[..|events| - 1] == front && front[..|front| - 1] == front[..2] && front[..2][..1] == front[..1];
    assert Ascent(front[..2]) == Ascent(front[..1]) + 1;
    assert Ascent(front) == Ascent(front[..2]);
    assert TotalUsed(events) == TotalUsed(front) + events[3].used;
    StepBound(events, ctx, i);
    assert events[3].left[i] in events[3].left;
    LongJump(rate);
  }

  lemma LongJump(rate: nat)
    ensures if rate < SECOND then rate / SECOND == 0 else MAX_UINT64 * rate / SECOND >= MAX_UINT64 - 1 + rate / SECOND
  {
    var q := rate / SECOND;
    if rate >= SECOND {
      assert rate == q * SECOND + rate % SECOND;
      assert MAX_UINT64 * rate >= MAX_UINT64 * q * SECOND;
      assert MAX_UINT64 * q >= MAX_UINT64 - 1 + q;
    }
  }
}
