/**
 The parallel log search (topicsdb/search_parallel.go): one scanner per
 (position, variant) walks its slice of the index, the barrier keeps the scanners
 on the same block, and a shared table counts how many scanners met each record.

 The goroutines are a step relation.  A step is one critical section, or one
 stretch of code that only touches data of its own scanner; `UnlockedReadsAreStable`
 justifies reading minBlock and goNext outside the lock.
 */
module ParallelSearch {
  import opened Words
  import B = Barrier

  type Hash = nat

  /** Log record identity; the key layout orders it by block number first. */
  datatype Id = Id(block: uint64, tx: Hash, index: uint64)

  datatype Record = Record(id: Id, topicsCount: nat)

  /** What the ordered iterator of one (position, variant) yields. */
  datatype Scan = Scan(pos: nat, recs: seq<Record>)

  datatype Query = Query(scans: seq<Scan>, need: nat, blockEnd: uint64)

  datatype Pc =
    | Scanning              // about to fetch the next record
    | Arriving              // saw a block above minBlock, about to take the lock
    | Waiting(prev: uint64) // gave its old token back, waits on the channel of its block
    | Matching(prev: uint64)// passed the barrier, about to update the shared table
    | Finishing             // left the loop, about to call FinishThread
    | Done

  /** k counts the records consumed; at is the block the scanner's token is on. */
  datatype Thread = Thread(k: nat, at: uint64, pc: Pc)

  datatype State = State(
    bar: B.State,
    threads: seq<Thread>,
    found: map<uint64, map<Id, nat>>,
    reported: seq<Id>)

  predicate InRange(q: Query, r: Record) {
    q.blockEnd == 0 || r.id.block <= q.blockEnd
  }

  /** A record the aggregator counts. */
  predicate Relevant(q: Query, r: Record) {
    InRange(q, r) && r.topicsCount >= q.need
  }

  ghost predicate ValidQuery(q: Query) {
    && (forall i | 0 <= i < |q.scans| :: Sorted(q.scans[i].recs) && DistinctIds(q.scans[i].recs))
    && (forall i, j, a, b | 0 <= i < |q.scans| && 0 <= j < |q.scans|
          && 0 <= a < |q.scans[i].recs| && 0 <= b < |q.scans[j].recs|
          && q.scans[i].pos == q.scans[j].pos && q.scans[i].recs[a].id == q.scans[j].recs[b].id :: i == j)
  }

  ghost predicate Sorted(rs: seq<Record>) {
    forall j, k | 0 <= j < k < |rs| :: rs[j].id.block <= rs[k].id.block
  }

  ghost predicate DistinctIds(rs: seq<Record>) {
    forall j, k | 0 <= j < k < |rs| :: rs[j].id != rs[k].id
  }

  function Positions(q: Query): set<nat> {
    set i | 0 <= i < |q.scans| :: q.scans[i].pos
  }

  // ---------- initial state: the StartThread loop ----------

  function Started(scans: seq<Scan>): B.State {
    if scans == [] then B.EMPTY
    else B.StartThread(Started(scans[..|scans| - 1]), scans[|scans| - 1].pos)
  }

  function Init(q: Query): State {
    State(Started(q.scans), seq(|q.scans|, i => Thread(0, 0, Scanning)), map[], [])
  }

  // ---------- one step of one scanner ----------

  ghost predicate Enabled(q: Query, s: State, i: nat)
    requires |s.threads| == |q.scans|
  {
    && i < |s.threads|
    && var t := s.threads[i];
    && match t.pc
       case Scanning => true
       case Arriving => t.k < |q.scans[i].recs| && B.CanDequeue(s.bar)
       case Waiting(_) => t.k < |q.scans[i].recs| && t.at in s.bar.blocks && s.bar.blocks[t.at].closed
       case Matching(_) => t.k < |q.scans[i].recs|
       case Finishing => B.CanDequeue(s.bar) && q.scans[i].pos in s.bar.positions
       case Done => false
  }

  function AfterFetch(q: Query, bar: B.State, recs: seq<Record>, t: Thread): Thread {
    if t.k >= |recs| then t.(pc := Finishing)
    else
      var r := recs[t.k];
      if !InRange(q, r) then t.(pc := Finishing)
      else if r.topicsCount < q.need then t.(k := t.k + 1)
      else if !bar.goNext then t.(pc := Finishing)
      else if r.id.block > bar.minBlock then t.(pc := Arriving)
      else t.(pc := Matching(0))
  }

  function Lookup(found: map<uint64, map<Id, nat>>, id: Id): nat {
    if id.block in found && id in found[id.block] then found[id.block][id] else 0
  }

  function Bump(found: map<uint64, map<Id, nat>>, prev: uint64, id: Id): map<uint64, map<Id, nat>> {
    var kept := if prev > 0 then found - {prev} else found;
    var row := if id.block in kept then kept[id.block] else map[];
    kept[id.block := row[id := Lookup(kept, id) + 1]]
  }

  ghost function Step(q: Query, s: State, i: nat): (s': State)
    requires |s.threads| == |q.scans| && Enabled(q, s, i)
    ensures |s'.threads| == |s.threads|
  {
    var t := s.threads[i];
    var recs := q.scans[i].recs;
    match t.pc
    case Scanning => s.(threads := s.threads[i := AfterFetch(q, s.bar, recs, t)])
    case Arriving =>
      var n := recs[t.k].id.block;
      s.(bar := B.Advance(s.bar, n), threads := s.threads[i := t.(at := n, pc := Waiting(s.bar.minBlock))])
    case Waiting(prev) =>
      s.(threads := s.threads[i := t.(pc := if s.bar.goNext then Matching(prev) else Finishing)])
    case Matching(prev) =>
      var id := recs[t.k].id;
      var found := Bump(s.found, prev, id);
      s.(threads := s.threads[i := t.(k := t.k + 1, pc := Scanning)],
         found := found,
         reported := if Lookup(found, id) == |s.bar.positions| then s.reported + [id] else s.reported)
    case Finishing =>
      s.(bar := B.FinishThread(s.bar, q.scans[i].pos), threads := s.threads[i := t.(pc := Done)])
  }

  ghost predicate Next(q: Query, s: State, s': State) {
    |s.threads| == |q.scans| && exists i: nat :: Enabled(q, s, i) && s' == Step(q, s, i)
  }

  ghost predicate IsRun(q: Query, run: seq<State>) {
    && |run| > 0 && run[0] == Init(q)
    && forall n | 0 <= n < |run| - 1 :: Next(q, run[n], run[n + 1])
  }

  // ---------- invariant: tokens ----------

  predicate Running(t: Thread) {
    !t.pc.Waiting? && !t.pc.Done?
  }

  predicate Holds(t: Thread, b: uint64) {
    !t.pc.Done? && t.at == b
  }

  /** How many live scanners have their token on block b. */
  function Held(ts: seq<Thread>, b: uint64): nat {
    if ts == [] then 0
    else Held(ts[..|ts| - 1], b) + if Holds(ts[|ts| - 1], b) then 1 else 0
  }

  predicate LiveOn(sc: Scan, t: Thread, p: nat) {
    !t.pc.Done? && sc.pos == p
  }

  /** How many live scanners work on position p. */
  function LiveAt(scans: seq<Scan>, ts: seq<Thread>, p: nat): nat
    requires |ts| == |scans|
  {
    if ts == [] then 0
    else LiveAt(scans[..|ts| - 1], ts[..|ts| - 1], p) + if LiveOn(scans[|ts| - 1], ts[|ts| - 1], p) then 1 else 0
  }

  ghost predicate Tokens(bar: B.State, ts: seq<Thread>) {
    && (forall b: uint64 :: b in bar.blocks <==> Held(ts, b) > 0)
    && (forall b | b in bar.blocks :: bar.blocks[b].count == Held(ts, b))
    && (forall b | b in bar.blocks :: bar.minBlock <= b && (b != bar.minBlock ==> !bar.blocks[b].closed))
    && (bar.blocks.Keys != {} ==> bar.minBlock in bar.blocks)
  }

  ghost predicate OnBlock(bar: B.State, t: Thread) {
    && (Running(t) ==> t.at == bar.minBlock)
    && (t.pc.Waiting? && t.at == bar.minBlock ==> t.at in bar.blocks && bar.blocks[t.at].closed)
  }

  ghost predicate PositionCounts(q: Query, bar: B.State, ts: seq<Thread>)
    requires |ts| == |q.scans|
  {
    && bar.positions.Keys == Positions(q)
    && forall p | p in bar.positions :: bar.positions[p] == LiveAt(q.scans, ts, p)
  }

  ghost predicate BarrierInv(q: Query, s: State) {
    && |s.threads| == |q.scans|
    && Tokens(s.bar, s.threads)
    && PositionCounts(q, s.bar, s.threads)
    && forall i | 0 <= i < |s.threads| :: OnBlock(s.bar, s.threads[i])
  }

  // ---------- invariant: what each scanner has consumed ----------

  ghost predicate ThreadInv(q: Query, bar: B.State, recs: seq<Record>, t: Thread) {
    && t.k <= |recs|
    && (forall j | t.k <= j < |recs| :: t.at <= recs[j].id.block)
    && (forall j | 0 <= j < t.k && Relevant(q, recs[j]) :: recs[j].id.block <= bar.minBlock)
    && (t.pc.Arriving? || t.pc.Waiting? || t.pc.Matching? ==> t.k < |recs| && Relevant(q, recs[t.k]))
    && (t.pc.Arriving? ==> recs[t.k].id.block > bar.minBlock)
    && (t.pc.Waiting? ==> recs[t.k].id.block == t.at && t.pc.prev < t.at)
    && (t.pc.Matching? ==> recs[t.k].id.block == t.at && (t.pc.prev < t.at || t.pc.prev == 0))
    && (bar.goNext && (t.pc.Finishing? || t.pc.Done?) ==> Exhausted(q, recs, t.k))
  }

  /** Nothing the aggregator would count is left. */
  ghost predicate Exhausted(q: Query, recs: seq<Record>, k: nat) {
    forall j | k <= j < |recs| :: !Relevant(q, recs[j])
  }

  ghost predicate ScanInv(q: Query, s: State) {
    && |s.threads| == |q.scans|
    && forall i | 0 <= i < |s.threads| :: ThreadInv(q, s.bar, q.scans[i].recs, s.threads[i])
  }

  // ---------- invariant: the shared table and the reports ----------

  ghost predicate Met(q: Query, recs: seq<Record>, k: nat, id: Id) {
    exists j :: 0 <= j < k && j < |recs| && recs[j].id == id && Relevant(q, recs[j])
  }

  /** The scanners that have met the record. */
  ghost function Hits(q: Query, ts: seq<Thread>, id: Id): set<nat>
    requires |ts| == |q.scans|
  {
    set i: nat | i < |ts| && Met(q, q.scans[i].recs, ts[i].k, id)
  }

  /** On the current block the table holds exactly the number of scanners that met each record. */
  ghost predicate CountsExact(q: Query, s: State)
    requires |s.threads| == |q.scans|
  {
    && (forall b | b in s.found :: b <= s.bar.minBlock)
    && (forall id: Id | id.block == s.bar.minBlock :: Lookup(s.found, id) == |Hits(q, s.threads, id)|)
  }

  ghost predicate Complete(q: Query, s: State, id: Id)
    requires |s.threads| == |q.scans|
  {
    |Hits(q, s.threads, id)| == |s.bar.positions| && Hits(q, s.threads, id) != {}
  }

  /** Reported once each, in non-decreasing block order, and never past the current block. */
  ghost predicate Ordered(reported: seq<Id>, last: uint64) {
    && (forall i, j | 0 <= i < j < |reported| :: reported[i] != reported[j] && reported[i].block <= reported[j].block)
    && (forall i | 0 <= i < |reported| :: reported[i].block <= last)
  }

  ghost predicate TableInv(q: Query, s: State) {
    && |s.threads| == |q.scans|
    && CountsExact(q, s)
    && (forall id: Id :: id in s.reported <==> Complete(q, s, id))
    && Ordered(s.reported, s.bar.minBlock)
  }

  // ---------- invariant: giving up early loses nothing ----------

  ghost predicate Carries(q: Query, i: nat, id: Id)
    requires i < |q.scans|
  {
    Met(q, q.scans[i].recs, |q.scans[i].recs|, id)
  }

  /** Every position has a scanner that carries the record. */
  ghost predicate Wanted(q: Query, id: Id) {
    forall p | p in Positions(q) :: exists i :: 0 <= i < |q.scans| && q.scans[i].pos == p && Carries(q, i, id)
  }

  ghost predicate StopInv(q: Query, s: State) {
    && |s.threads| == |q.scans|
    && (!s.bar.goNext ==> forall id: Id, i | Wanted(q, id) && 0 <= i < |q.scans| && Carries(q, i, id) ::
          Met(q, q.scans[i].recs, s.threads[i].k, id))
  }

  ghost predicate Inv(q: Query, s: State) {
    BarrierInv(q, s) && ScanInv(q, s) && TableInv(q, s) && StopInv(q, s)
  }

  // ---------- counting ----------

  lemma {:induction false} HeldUpdate(ts: seq<Thread>, i: nat, t: Thread, b: uint64)
    requires i < |ts|
    ensures Held(ts[i := t], b) + (if Holds(ts[i], b) then 1 else 0) == Held(ts, b) + if Holds(t, b) then 1 else 0
  {
    var n := |ts| - 1;
    if i < n {
      HeldUpdate(ts[..n], i, t, b);
      assert ts[i := t][..n] == ts[..n][i := t];
    } else {
      assert ts[i := t][..n] == ts[..n];
    }
  }

  lemma {:induction false} HeldHas(ts: seq<Thread>, i: nat, b: uint64)
    requires i < |ts| && Holds(ts[i], b)
    ensures Held(ts, b) > 0
  {
    if i < |ts| - 1 { HeldHas(ts[..|ts| - 1], i, b); }
  }

  lemma {:induction false} LiveUpdate(scans: seq<Scan>, ts: seq<Thread>, i: nat, t: Thread, p: nat)
    requires |ts| == |scans| && i < |ts|
    ensures LiveAt(scans, ts[i := t], p) + (if LiveOn(scans[i], ts[i], p) then 1 else 0)
         == LiveAt(scans, ts, p) + if LiveOn(scans[i], t, p) then 1 else 0
  {
    var n := |ts| - 1;
    if i < n {
      LiveUpdate(scans[..n], ts[..n], i, t, p);
      assert ts[i := t][..n] == ts[..n][i := t];
    } else {
      assert ts[i := t][..n] == ts[..n];
    }
  }

  lemma {:induction false} LiveHas(scans: seq<Scan>, ts: seq<Thread>, i: nat, p: nat)
    requires |ts| == |scans| && i < |ts| && LiveOn(scans[i], ts[i], p)
    ensures LiveAt(scans, ts, p) > 0
  {
    if i < |ts| - 1 { LiveHas(scans[..|ts| - 1], ts[..|ts| - 1], i, p); }
  }

  // ---------- the barrier keeps its tokens ----------

  /** The tokens of ts, plus one on minBlock that is about to be given back. */
  ghost predicate Owing(bar: B.State, ts: seq<Thread>) {
    && bar.minBlock in bar.blocks
    && (forall b: uint64 | b != bar.minBlock :: b in bar.blocks <==> Held(ts, b) > 0)
    && (forall b | b in bar.blocks && b != bar.minBlock :: bar.blocks[b].count == Held(ts, b))
    && bar.blocks[bar.minBlock].count == Held(ts, bar.minBlock) + 1
    && (forall b | b in bar.blocks :: bar.minBlock <= b && (b != bar.minBlock ==> !bar.blocks[b].closed))
  }

  ghost predicate AllPositionsLive(bar: B.State) {
    forall p | p in bar.positions :: bar.positions[p] >= 1
  }

  /** minBlock and goNext move only when the last token leaves minBlock. */
  ghost predicate Settled(bar: B.State, bar': B.State, stays: bool) {
    if stays then
      && bar'.minBlock == bar.minBlock && bar'.goNext == bar.goNext
      && bar.minBlock in bar.blocks && bar.minBlock in bar'.blocks
      && bar'.blocks[bar.minBlock].closed == bar.blocks[bar.minBlock].closed
    else
      && bar'.goNext == (bar.goNext && AllPositionsLive(bar))
      && bar.minBlock <= bar'.minBlock
      && (bar'.blocks.Keys != {} ==>
            bar'.minBlock in bar'.blocks && bar.minBlock < bar'.minBlock && bar'.blocks[bar'.minBlock].closed)
  }

  lemma DequeueSettles(bar: B.State, ts: seq<Thread>)
    requires Owing(bar, ts)
    ensures B.CanDequeue(bar)
    ensures Tokens(B.DequeueBlock(bar), ts)
    ensures B.DequeueBlock(bar).positions == bar.positions
    ensures Settled(bar, B.DequeueBlock(bar), Held(ts, bar.minBlock) > 0)
  {
  }

  lemma ArriveOwes(bar: B.State, ts: seq<Thread>, i: nat, t: Thread)
    requires Tokens(bar, ts) && i < |ts| && Holds(ts[i], bar.minBlock)
    requires Holds(t, t.at) && t.at > bar.minBlock
    ensures Owing(B.EnqueueBlock(bar, t.at), ts[i := t])
  {
    HeldHas(ts, i, bar.minBlock);
    forall b: uint64
      ensures Held(ts[i := t], b) ==
        Held(ts, b) - (if b == bar.minBlock then 1 else 0) + if b == t.at then 1 else 0
    {
      HeldUpdate(ts, i, t, b);
    }
  }

  lemma FinishOwes(bar: B.State, ts: seq<Thread>, i: nat, t: Thread, positions: map<nat, int>)
    requires Tokens(bar, ts) && i < |ts| && Holds(ts[i], bar.minBlock) && t.pc.Done?
    ensures Owing(bar.(positions := positions), ts[i := t])
  {
    HeldHas(ts, i, bar.minBlock);
    forall b: uint64
      ensures Held(ts[i := t], b) == Held(ts, b) - if b == bar.minBlock then 1 else 0
    {
      HeldUpdate(ts, i, t, b);
    }
  }

  lemma PositionsAfter(q: Query, s: State, i: nat)
    requires BarrierInv(q, s) && Enabled(q, s, i)
    ensures PositionCounts(q, Step(q, s, i).bar, Step(q, s, i).threads)
  {
    hide Tokens, OnBlock, LiveAt, Held;
    var s' := Step(q, s, i);
    forall p | p in s.bar.positions
      ensures s'.bar.positions[p] == LiveAt(q.scans, s'.threads, p)
    {
      LiveUpdate(q.scans, s.threads, i, s'.threads[i], p);
    }
  }

  ghost predicate SamePlace(t: Thread, t': Thread) {
    t'.at == t.at && (t.pc.Done? <==> t'.pc.Done?)
  }

  lemma TokensUnmoved(ts: seq<Thread>, i: nat, t: Thread, b: uint64)
    requires i < |ts| && SamePlace(ts[i], t)
    ensures Held(ts[i := t], b) == Held(ts, b)
  {
    HeldUpdate(ts, i, t, b);
  }

  /** What a step of scanner i did to the barrier. */
  ghost predicate Moved(s: State, s': State) {
    && s.bar.minBlock <= s'.bar.minBlock
    && (s'.bar.goNext ==> s.bar.goNext)
    && (Held(s'.threads, s.bar.minBlock) > 0 ==>
          s'.bar.minBlock == s.bar.minBlock && s'.bar.goNext == s.bar.goNext)
    && (s.bar.goNext && !s'.bar.goNext ==>
          Held(s'.threads, s.bar.minBlock) == 0 && !AllPositionsLive(s'.bar))
  }

  lemma OthersOnBlock(bar: B.State, bar': B.State, ts: seq<Thread>, j: nat)
    requires j < |ts| && OnBlock(bar, ts[j])
    requires Tokens(bar', ts)
    requires Settled(bar, bar', Held(ts, bar.minBlock) > 0)
    ensures OnBlock(bar', ts[j])
  {
    if !ts[j].pc.Done? { HeldHas(ts, j, ts[j].at); }
  }

  lemma ArriveStep(q: Query, s: State, i: nat)
    requires BarrierInv(q, s) && Enabled(q, s, i) && s.threads[i].pc.Arriving?
    requires q.scans[i].recs[s.threads[i].k].id.block > s.bar.minBlock
    ensures var s' := Step(q, s, i);
      && Tokens(s'.bar, s'.threads) && s'.bar.positions == s.bar.positions
      && forall j | 0 <= j < |s'.threads| :: OnBlock(s'.bar, s'.threads[j])
    ensures Moved(s, Step(q, s, i))
  {
    var s' := Step(q, s, i);
    var t' := s'.threads[i];
    var mid := B.EnqueueBlock(s.bar, t'.at);
    assert OnBlock(s.bar, s.threads[i]);
    ArriveOwes(s.bar, s.threads, i, t');
    Settle(s, mid, s', i);
  }

  lemma FinishStep(q: Query, s: State, i: nat)
    requires BarrierInv(q, s) && Enabled(q, s, i) && s.threads[i].pc.Finishing?
    ensures var s' := Step(q, s, i);
      && Tokens(s'.bar, s'.threads)
      && forall j | 0 <= j < |s'.threads| :: OnBlock(s'.bar, s'.threads[j])
    ensures Moved(s, Step(q, s, i))
  {
    var s' := Step(q, s, i);
    var p := q.scans[i].pos;
    var mid := s.bar.(positions := s.bar.positions[p := s.bar.positions[p] - 1]);
    assert OnBlock(s.bar, s.threads[i]);
    FinishOwes(s.bar, s.threads, i, s'.threads[i], mid.positions);
    Settle(s, mid, s', i);
  }

  lemma Settle(s: State, mid: B.State, s': State, i: nat)
    requires Owing(mid, s'.threads) && s'.bar == B.DequeueBlock(mid)
    requires mid.minBlock == s.bar.minBlock && mid.goNext == s.bar.goNext
    requires forall b | b in s.bar.blocks :: b in mid.blocks && mid.blocks[b].closed == s.bar.blocks[b].closed
    requires forall j | 0 <= j < |s.threads| :: OnBlock(s.bar, s.threads[j])
    requires i < |s.threads| == |s'.threads| && s'.threads == s.threads[i := s'.threads[i]]
    requires s'.threads[i].pc.Done? || (s'.threads[i].pc.Waiting? && s'.threads[i].at != s.bar.minBlock)
    ensures Tokens(s'.bar, s'.threads)
    ensures s'.bar.positions == mid.positions
    ensures forall j | 0 <= j < |s'.threads| :: OnBlock(s'.bar, s'.threads[j])
    ensures Moved(s, s')
  {
    DequeueSettles(mid, s'.threads);
    forall j | 0 <= j < |s'.threads|
      ensures OnBlock(s'.bar, s'.threads[j])
    {
      assert OnBlock(s.bar, s.threads[j]);
      OthersOnBlock(mid, s'.bar, s'.threads, j);
    }
  }

  lemma BarrierStepStays(q: Query, s: State, i: nat)
    requires BarrierInv(q, s) && Enabled(q, s, i)
    requires !s.threads[i].pc.Arriving? && !s.threads[i].pc.Finishing?
    ensures BarrierInv(q, Step(q, s, i)) && Step(q, s, i).bar == s.bar
  {
    var s' := Step(q, s, i);
    assert OnBlock(s.bar, s.threads[i]);
    PositionsAfter(q, s, i);
    forall b: uint64
      ensures Held(s'.threads, b) == Held(s.threads, b)
    {
      TokensUnmoved(s.threads, i, s'.threads[i], b);
    }
  }

  lemma BarrierStep(q: Query, s: State, i: nat)
    requires BarrierInv(q, s) && ScanInv(q, s) && Enabled(q, s, i)
    ensures BarrierInv(q, Step(q, s, i)) && Moved(s, Step(q, s, i))
    ensures Step(q, s, i).bar.positions.Keys == s.bar.positions.Keys
  {
    if s.threads[i].pc.Arriving? || s.threads[i].pc.Finishing? {
      assert ThreadInv(q, s.bar, q.scans[i].recs, s.threads[i]);
      PositionsAfter(q, s, i);
      if s.threads[i].pc.Arriving? { ArriveStep(q, s, i); } else { FinishStep(q, s, i); }
    } else {
      BarrierStepStays(q, s, i);
    }
  }

  /** While a scanner is running, no other scanner's step changes minBlock or goNext. */
  lemma UnlockedReadsAreStable(q: Query, s: State, i: nat, j: nat)
    requires Inv(q, s) && i < |s.threads| && Running(s.threads[i])
    requires j != i && Enabled(q, s, j)
    ensures s.threads[i].at == s.bar.minBlock
    ensures Step(q, s, j).bar.minBlock == s.bar.minBlock
    ensures Step(q, s, j).bar.goNext == s.bar.goNext
  {
    BarrierStep(q, s, j);
    assert OnBlock(s.bar, s.threads[i]);
    HeldHas(Step(q, s, j).threads, i, s.bar.minBlock);
  }

  // ---------- the scanners keep their place ----------

  lemma OtherThreadInv(q: Query, s: State, s': State, recs: seq<Record>, t: Thread)
    requires ThreadInv(q, s.bar, recs, t) && Moved(s, s')
    requires Running(t) ==> s'.bar.minBlock == s.bar.minBlock
    ensures ThreadInv(q, s'.bar, recs, t)
  {
  }

  lemma FetchInv(q: Query, bar: B.State, recs: seq<Record>, t: Thread)
    requires ThreadInv(q, bar, recs, t) && OnBlock(bar, t) && t.pc.Scanning? && Sorted(recs)
    ensures ThreadInv(q, bar, recs, AfterFetch(q, bar, recs, t))
  {
  }

  lemma ArriveInv(q: Query, s: State, s': State, recs: seq<Record>, t: Thread)
    requires ThreadInv(q, s.bar, recs, t) && t.pc.Arriving? && Sorted(recs) && Moved(s, s')
    ensures ThreadInv(q, s'.bar, recs, t.(at := recs[t.k].id.block, pc := Waiting(s.bar.minBlock)))
  {
  }

  lemma MatchInv(q: Query, bar: B.State, recs: seq<Record>, t: Thread)
    requires ThreadInv(q, bar, recs, t) && OnBlock(bar, t) && t.pc.Matching?
    ensures ThreadInv(q, bar, recs, t.(k := t.k + 1, pc := Scanning))
  {
  }

  lemma OwnThreadInv(q: Query, s: State, i: nat)
    requires BarrierInv(q, s) && ScanInv(q, s) && Enabled(q, s, i) && Sorted(q.scans[i].recs)
    requires Moved(s, Step(q, s, i))
    ensures ThreadInv(q, Step(q, s, i).bar, q.scans[i].recs, Step(q, s, i).threads[i])
  {
    var t, recs := s.threads[i], q.scans[i].recs;
    assert ThreadInv(q, s.bar, recs, t) && OnBlock(s.bar, t);
    match t.pc
    case Scanning => FetchInv(q, s.bar, recs, t);
    case Arriving => ArriveInv(q, s, Step(q, s, i), recs, t);
    case Waiting(_) =>
    case Matching(_) => MatchInv(q, s.bar, recs, t);
    case Finishing =>
  }

  lemma ScanStep(q: Query, s: State, i: nat)
    requires ValidQuery(q) && BarrierInv(q, s) && ScanInv(q, s) && Enabled(q, s, i)
    ensures ScanInv(q, Step(q, s, i))
  {
    var s' := Step(q, s, i);
    BarrierStep(q, s, i);
    forall j | 0 <= j < |s'.threads|
      ensures ThreadInv(q, s'.bar, q.scans[j].recs, s'.threads[j])
    {
      if j == i {
        OwnThreadInv(q, s, i);
      } else {
        assert OnBlock(s.bar, s.threads[j]) && ThreadInv(q, s.bar, q.scans[j].recs, s.threads[j]);
        if Running(s.threads[j]) { HeldHas(s'.threads, j, s.bar.minBlock); }
        OtherThreadInv(q, s, s', q.scans[j].recs, s.threads[j]);
      }
    }
  }

  // ---------- the shared table counts the scanners ----------

  lemma MetGrows(q: Query, recs: seq<Record>, k: nat, id: Id)
    requires k < |recs|
    ensures Met(q, recs, k + 1, id) <==> Met(q, recs, k, id) || (recs[k].id == id && Relevant(q, recs[k]))
  {
  }

  lemma HitsSame(q: Query, s: State, i: nat, id: Id)
    requires ScanInv(q, s) && Enabled(q, s, i)
    requires s.threads[i].pc.Matching? ==> id != q.scans[i].recs[s.threads[i].k].id
    ensures Hits(q, Step(q, s, i).threads, id) == Hits(q, s.threads, id)
  {
    var s' := Step(q, s, i);
    assert ThreadInv(q, s.bar, q.scans[i].recs, s.threads[i]);
    if s'.threads[i].k != s.threads[i].k {
      MetGrows(q, q.scans[i].recs, s.threads[i].k, id);
    }
  }

  lemma HitsGain(q: Query, s: State, i: nat)
    requires ValidQuery(q) && ScanInv(q, s) && Enabled(q, s, i) && s.threads[i].pc.Matching?
    ensures var id := q.scans[i].recs[s.threads[i].k].id;
      && i !in Hits(q, s.threads, id)
      && Hits(q, Step(q, s, i).threads, id) == Hits(q, s.threads, id) + {i}
  {
    var recs, k := q.scans[i].recs, s.threads[i].k;
    assert ThreadInv(q, s.bar, recs, s.threads[i]);
    assert DistinctIds(recs);
    MetGrows(q, recs, k, recs[k].id);
  }

  lemma {:induction false} InjectiveImage(scans: seq<Scan>, ks: set<nat>, ps: set<nat>)
    requires forall i | i in ks :: i < |scans|
    requires forall i, j | i in ks && j in ks && scans[i].pos == scans[j].pos :: i == j
    requires ps == set i | i in ks :: scans[i].pos
    ensures |ks| == |ps|
    decreases |ks|
  {
    if |ks| == 0 {
    } else {
      var i :| i in ks;
      var rest := set j | j in ks - {i} :: scans[j].pos;
      assert ps == rest + {scans[i].pos};
      InjectiveImage(scans, ks - {i}, rest);
    }
  }

  ghost function HitPositions(q: Query, ts: seq<Thread>, id: Id): set<nat>
    requires |ts| == |q.scans|
  {
    set i | i in Hits(q, ts, id) :: q.scans[i].pos
  }

  /** Each position contributes at most one hit, so counting hits counts positions. */
  lemma HitsCountPositions(q: Query, ts: seq<Thread>, id: Id)
    requires ValidQuery(q) && |ts| == |q.scans|
    ensures |Hits(q, ts, id)| == |HitPositions(q, ts, id)|
    ensures HitPositions(q, ts, id) <= Positions(q)
    ensures |Hits(q, ts, id)| <= |Positions(q)|
    ensures |Hits(q, ts, id)| == |Positions(q)| <==> HitPositions(q, ts, id) == Positions(q)
  {
    InjectiveImage(q.scans, Hits(q, ts, id), HitPositions(q, ts, id));
    SubsetSize(HitPositions(q, ts, id), Positions(q));
  }

  lemma SubsetSize(a: set<nat>, b: set<nat>)
    requires a <= b
    ensures |a| <= |b|
    ensures |a| == |b| <==> a == b
  {
    assert b == a + (b - a);
  }

  lemma NoHitsAbove(q: Query, s: State, id: Id)
    requires ScanInv(q, s) && id.block > s.bar.minBlock
    ensures Hits(q, s.threads, id) == {}
  {
    forall i: nat | i < |s.threads|
      ensures !Met(q, q.scans[i].recs, s.threads[i].k, id)
    {
      assert ThreadInv(q, s.bar, q.scans[i].recs, s.threads[i]);
    }
  }

  /** A step that leaves the table alone: minBlock may have moved up to a block without hits. */
  lemma TableQuietStep(q: Query, s: State, i: nat)
    requires BarrierInv(q, s) && ScanInv(q, s) && TableInv(q, s) && Enabled(q, s, i)
    requires !s.threads[i].pc.Matching?
    ensures TableInv(q, Step(q, s, i))
  {
    var s' := Step(q, s, i);
    BarrierStep(q, s, i);
    forall id: Id
      ensures Hits(q, s'.threads, id) == Hits(q, s.threads, id)
    {
      HitsSame(q, s, i, id);
    }
    SameKeysSameSize(s.bar.positions, s'.bar.positions);
    forall id: Id | id.block == s'.bar.minBlock
      ensures Lookup(s'.found, id) == |Hits(q, s'.threads, id)|
    {
      if s'.bar.minBlock > s.bar.minBlock { NoHitsAbove(q, s, id); }
    }
  }

  lemma SameKeysSameSize(a: map<nat, int>, b: map<nat, int>)
    requires a.Keys == b.Keys
    ensures |a| == |b|
  {
    assert |a| == |a.Keys| && |b| == |b.Keys|;
  }

  lemma BumpCounts(found: map<uint64, map<Id, nat>>, prev: uint64, id: Id, other: Id)
    requires prev < id.block || prev == 0
    requires other.block == id.block
    ensures Lookup(Bump(found, prev, id), other) == Lookup(found, other) + if other == id then 1 else 0
  {
  }

  lemma MatchCounts(q: Query, s: State, i: nat)
    requires ValidQuery(q) && BarrierInv(q, s) && ScanInv(q, s) && CountsExact(q, s) && Enabled(q, s, i)
    requires s.threads[i].pc.Matching?
    ensures CountsExact(q, Step(q, s, i))
    ensures q.scans[i].recs[s.threads[i].k].id.block == s.bar.minBlock
  {
    var s' := Step(q, s, i);
    var t := s.threads[i];
    var id := q.scans[i].recs[t.k].id;
    assert ThreadInv(q, s.bar, q.scans[i].recs, t) && OnBlock(s.bar, t);
    hide Hits, Lookup;
    forall other: Id | other.block == s.bar.minBlock
      ensures Lookup(s'.found, other) == |Hits(q, s'.threads, other)|
    {
      BumpCounts(s.found, t.pc.prev, id, other);
      HitsAfter(q, s, i, other);
    }
  }

  lemma HitsAfter(q: Query, s: State, i: nat, other: Id)
    requires ValidQuery(q) && ScanInv(q, s) && Enabled(q, s, i) && s.threads[i].pc.Matching?
    ensures |Hits(q, Step(q, s, i).threads, other)| ==
      |Hits(q, s.threads, other)| + if other == q.scans[i].recs[s.threads[i].k].id then 1 else 0
  {
    var id := q.scans[i].recs[s.threads[i].k].id;
    HitsGain(q, s, i);
    if other != id { HitsSame(q, s, i, other); }
    hide Hits, Step;
  }

  lemma MatchCompletes(q: Query, s: State, i: nat)
    requires ValidQuery(q) && BarrierInv(q, s) && ScanInv(q, s) && Enabled(q, s, i)
    requires s.threads[i].pc.Matching?
    ensures var id := q.scans[i].recs[s.threads[i].k].id;
      && !Complete(q, s, id)
      && (Complete(q, Step(q, s, i), id) <==> |Hits(q, Step(q, s, i).threads, id)| == |s.bar.positions|)
  {
    hide ValidQuery, ScanInv, Tokens, OnBlock;
    HitsGain(q, s, i);
    HitsCountPositions(q, Step(q, s, i).threads, q.scans[i].recs[s.threads[i].k].id);
    assert |s.bar.positions| == |s.bar.positions.Keys|;
  }

  lemma MatchReports(q: Query, s: State, i: nat, other: Id)
    requires ScanInv(q, s) && Enabled(q, s, i)
    requires s.threads[i].pc.Matching? && CountsExact(q, Step(q, s, i))
    requires other in s.reported <==> Complete(q, s, other)
    requires var id := q.scans[i].recs[s.threads[i].k].id;
      && id.block == s.bar.minBlock && !Complete(q, s, id)
      && (Complete(q, Step(q, s, i), id) <==> |Hits(q, Step(q, s, i).threads, id)| == |s.bar.positions|)
    ensures other in Step(q, s, i).reported <==> Complete(q, Step(q, s, i), other)
  {
    var id := q.scans[i].recs[s.threads[i].k].id;
    if other == id {
      assert Lookup(Step(q, s, i).found, id) == |Hits(q, Step(q, s, i).threads, id)|;
    } else {
      HitsSame(q, s, i, other);
    }
  }

  lemma TableMatchStep(q: Query, s: State, i: nat)
    requires ValidQuery(q) && BarrierInv(q, s) && ScanInv(q, s) && TableInv(q, s) && Enabled(q, s, i)
    requires s.threads[i].pc.Matching?
    ensures TableInv(q, Step(q, s, i))
  {
    hide ValidQuery, BarrierInv, ScanInv, Complete, CountsExact;
    MatchCounts(q, s, i);
    MatchCompletes(q, s, i);
    forall other: Id
      ensures other in Step(q, s, i).reported <==> Complete(q, Step(q, s, i), other)
    {
      MatchReports(q, s, i, other);
    }
  }

  // ---------- giving up early ----------

  lemma MetMonotone(q: Query, recs: seq<Record>, k: nat, k': nat, id: Id)
    requires k <= k' && Met(q, recs, k, id)
    ensures Met(q, recs, k', id)
  {
    var j :| 0 <= j < k && j < |recs| && recs[j].id == id && Relevant(q, recs[j]);
    assert 0 <= j < k' && j < |recs| && recs[j].id == id && Relevant(q, recs[j]);
  }

  /** A scanner with no token at or below block b has consumed all that is relevant up to b. */
  lemma ConsumedUpTo(q: Query, bar: B.State, recs: seq<Record>, t: Thread, b: uint64, id: Id)
    requires ThreadInv(q, bar, recs, t)
    requires if t.pc.Done? then Exhausted(q, recs, t.k) else t.at > b
    requires id.block <= b && Met(q, recs, |recs|, id)
    ensures Met(q, recs, t.k, id)
  {
    var j :| 0 <= j < |recs| && recs[j].id == id && Relevant(q, recs[j]);
    assert 0 <= j < t.k;
  }

  lemma {:induction false} NoneLive(scans: seq<Scan>, ts: seq<Thread>, p: nat, i: nat)
    requires |ts| == |scans| && i < |ts| && scans[i].pos == p && LiveAt(scans, ts, p) == 0
    ensures ts[i].pc.Done?
  {
    if !ts[i].pc.Done? { LiveHas(scans, ts, i, p); }
  }

  /** goNext is dropped only when no record is wanted beyond the block just left ... */
  lemma StopBound(q: Query, s: State, i: nat, p: nat, id: Id)
    requires BarrierInv(q, s) && ScanInv(q, s) && Enabled(q, s, i) && s.bar.goNext
    requires p in Positions(q) && LiveAt(q.scans, Step(q, s, i).threads, p) == 0
    requires Wanted(q, id)
    ensures id.block <= s.bar.minBlock
  {
    var w :| 0 <= w < |q.scans| && q.scans[w].pos == p && Carries(q, w, id);
    NoneLive(q.scans, Step(q, s, i).threads, p, w);
    DoneIsExhausted(q, s, i, w);
    var recs := q.scans[w].recs;
    assert ThreadInv(q, s.bar, recs, s.threads[w]);
    var a :| 0 <= a < |recs| && recs[a].id == id && Relevant(q, recs[a]);
  }

  /** ... and by then every scanner has passed that block. */
  lemma StopConsumed(q: Query, s: State, i: nat, id: Id, j: nat)
    requires BarrierInv(q, s) && ScanInv(q, s) && Enabled(q, s, i) && s.bar.goNext
    requires var s' := Step(q, s, i);
      Tokens(s'.bar, s'.threads) && ScanInv(q, s') && Moved(s, s') && Held(s'.threads, s.bar.minBlock) == 0
    requires id.block <= s.bar.minBlock && j < |q.scans| && Carries(q, j, id)
    ensures Met(q, q.scans[j].recs, Step(q, s, i).threads[j].k, id)
  {
    var s' := Step(q, s, i);
    var t := s'.threads[j];
    assert ThreadInv(q, s'.bar, q.scans[j].recs, t);
    if t.pc.Done? {
      DoneIsExhausted(q, s, i, j);
    } else {
      HeldHas(s'.threads, j, t.at);
    }
    ConsumedUpTo(q, s'.bar, q.scans[j].recs, t, s.bar.minBlock, id);
  }

  lemma DoneIsExhausted(q: Query, s: State, i: nat, w: nat)
    requires BarrierInv(q, s) && ScanInv(q, s) && Enabled(q, s, i) && s.bar.goNext
    requires w < |s.threads| && Step(q, s, i).threads[w].pc.Done?
    ensures Exhausted(q, q.scans[w].recs, Step(q, s, i).threads[w].k)
    ensures Step(q, s, i).threads[w].k == s.threads[w].k
  {
    hide BarrierInv;
    assert ThreadInv(q, s.bar, q.scans[w].recs, s.threads[w]);
  }

  ghost function DeadPosition(q: Query, s: State): (p: nat)
    requires |s.threads| == |q.scans| && PositionCounts(q, s.bar, s.threads) && !AllPositionsLive(s.bar)
    ensures p in Positions(q) && LiveAt(q.scans, s.threads, p) == 0
  {
    var p :| p in s.bar.positions && s.bar.positions[p] < 1;
    p
  }

  lemma StopInvAt(q: Query, s: State, i: nat, id: Id, j: nat)
    requires BarrierInv(q, s) && ScanInv(q, s) && StopInv(q, s) && Enabled(q, s, i)
    requires BarrierInv(q, Step(q, s, i)) && ScanInv(q, Step(q, s, i)) && Moved(s, Step(q, s, i))
    requires !Step(q, s, i).bar.goNext && Wanted(q, id) && j < |q.scans| && Carries(q, j, id)
    ensures Met(q, q.scans[j].recs, Step(q, s, i).threads[j].k, id)
  {
    hide Wanted, Carries, ThreadInv, Tokens, OnBlock;
    var s' := Step(q, s, i);
    if s.bar.goNext {
      StopBound(q, s, i, DeadPosition(q, s'), id);
      StopConsumed(q, s, i, id, j);
    } else {
      MetMonotone(q, q.scans[j].recs, s.threads[j].k, s'.threads[j].k, id);
    }
  }

  lemma StopInvStep(q: Query, s: State, i: nat)
    requires BarrierInv(q, s) && ScanInv(q, s) && StopInv(q, s) && Enabled(q, s, i)
    requires BarrierInv(q, Step(q, s, i)) && ScanInv(q, Step(q, s, i)) && Moved(s, Step(q, s, i))
    ensures StopInv(q, Step(q, s, i))
  {
    if !Step(q, s, i).bar.goNext {
      forall id: Id, j | Wanted(q, id) && 0 <= j < |q.scans| && Carries(q, j, id)
        ensures Met(q, q.scans[j].recs, Step(q, s, i).threads[j].k, id)
      {
        StopInvAt(q, s, i, id, j);
      }
    }
  }

  lemma StepKeepsInv(q: Query, s: State, i: nat)
    requires ValidQuery(q) && Inv(q, s) && Enabled(q, s, i)
    ensures Inv(q, Step(q, s, i))
  {
    hide ValidQuery, BarrierInv, ScanInv, TableInv, StopInv, Step;
    BarrierStep(q, s, i);
    ScanStep(q, s, i);
    StopInvStep(q, s, i);
    if s.threads[i].pc.Matching? { TableMatchStep(q, s, i); } else { TableQuietStep(q, s, i); }
  }

  // ---------- every run ----------

  function Fresh(n: nat): seq<Thread> {
    seq(n, i => Thread(0, 0, Scanning))
  }

  lemma {:induction false} FreshHeld(n: nat, b: uint64)
    ensures Held(Fresh(n), b) == if b == 0 then n else 0
  {
    if n > 0 {
      assert Fresh(n)[..n - 1] == Fresh(n - 1);
      FreshHeld(n - 1, b);
    }
  }

  lemma {:induction false} StartedBarrier(scans: seq<Scan>)
    ensures var bar := Started(scans);
      && bar.goNext && bar.minBlock == 0
      && bar.blocks == (if scans == [] then map[] else map[0 := B.BlockCounter(false, |scans|)])
      && bar.positions.Keys == Positions(Query(scans, 0, 0))
      && forall p | p in bar.positions :: bar.positions[p] == LiveAt(scans, Fresh(|scans|), p)
    ensures forall p: nat | p !in Started(scans).positions :: LiveAt(scans, Fresh(|scans|), p) == 0
  {
    if scans != [] {
      var n := |scans| - 1;
      StartedBarrier(scans[..n]);
      assert Fresh(|scans|)[..n] == Fresh(n);
      assert Positions(Query(scans, 0, 0)) == Positions(Query(scans[..n], 0, 0)) + {scans[n].pos};
    }
  }

  lemma InitTokens(q: Query)
    ensures BarrierInv(q, Init(q))
  {
    var s := Init(q);
    StartedBarrier(q.scans);
    assert s.threads == Fresh(|q.scans|);
    assert Positions(Query(q.scans, 0, 0)) == Positions(q);
    forall b: uint64
      ensures Held(s.threads, b) == if b == 0 then |q.scans| else 0
    {
      FreshHeld(|q.scans|, b);
    }
  }

  lemma InitInv(q: Query)
    ensures Inv(q, Init(q))
  {
    hide BarrierInv;
    InitTokens(q);
    StartedBarrier(q.scans);
    forall id: Id
      ensures Hits(q, Init(q).threads, id) == {}
    {
    }
  }

  lemma {:induction false} RunKeepsInv(q: Query, run: seq<State>, n: nat)
    requires ValidQuery(q) && IsRun(q, run) && n < |run|
    ensures Inv(q, run[n])
  {
    hide Inv, ValidQuery, Enabled, Step;
    if n == 0 {
      InitInv(q);
    } else {
      RunKeepsInv(q, run, n - 1);
      assert Next(q, run[n - 1], run[n]);
      var i: nat :| Enabled(q, run[n - 1], i) && run[n] == Step(q, run[n - 1], i);
      StepKeepsInv(q, run[n - 1], i);
    }
  }

  // ---------- every run ends ----------

  function Rank(sc: Scan, t: Thread): nat {
    var left := if t.k <= |sc.recs| then |sc.recs| - t.k else 0;
    match t.pc
    case Scanning => 4 * left + 3
    case Arriving => 4 * left + 2
    case Waiting(_) => 4 * left + 1
    case Matching(_) => 4 * left
    case Finishing => 1
    case Done => 0
  }

  function Measure(scans: seq<Scan>, ts: seq<Thread>): nat
    requires |scans| == |ts|
  {
    if ts == [] then 0 else Rank(scans[0], ts[0]) + Measure(scans[1..], ts[1..])
  }

  lemma {:induction false} MeasureUpdate(scans: seq<Scan>, ts: seq<Thread>, i: nat, t: Thread)
    requires |scans| == |ts| && i < |ts|
    ensures Measure(scans, ts[i := t]) == Measure(scans, ts) - Rank(scans[i], ts[i]) + Rank(scans[i], t)
  {
    if i > 0 {
      MeasureUpdate(scans[1..], ts[1..], i - 1, t);
      assert ts[i := t][1..] == ts[1..][i - 1 := t];
    }
  }

  lemma StepDecreases(q: Query, s: State, i: nat)
    requires Inv(q, s) && Enabled(q, s, i)
    ensures Measure(q.scans, Step(q, s, i).threads) < Measure(q.scans, s.threads)
  {
    hide BarrierInv, TableInv, StopInv, Measure;
    var t, t' := s.threads[i], Step(q, s, i).threads[i];
    assert ThreadInv(q, s.bar, q.scans[i].recs, t);
    assert Rank(q.scans[i], t') < Rank(q.scans[i], t);
    MeasureUpdate(q.scans, s.threads, i, t');
  }

  /** No run is longer than the work its scanners have. */
  lemma {:induction false} RunsAreBounded(q: Query, run: seq<State>, n: nat)
    requires ValidQuery(q) && IsRun(q, run) && n < |run|
    ensures |run[n].threads| == |q.scans|
    ensures n + Measure(q.scans, run[n].threads) <= Measure(q.scans, Init(q).threads)
  {
    hide Inv, ValidQuery, Measure, Enabled, Step;
    RunKeepsInv(q, run, n);
    if n > 0 {
      RunsAreBounded(q, run, n - 1);
      RunKeepsInv(q, run, n - 1);
      assert Next(q, run[n - 1], run[n]);
      var i: nat :| Enabled(q, run[n - 1], i) && run[n] == Step(q, run[n - 1], i);
      StepDecreases(q, run[n - 1], i);
    }
  }

  // ---------- no deadlock ----------

  lemma {:induction false} HeldBy(ts: seq<Thread>, b: uint64) returns (i: nat)
    requires Held(ts, b) > 0
    ensures i < |ts| && Holds(ts[i], b)
  {
    var n := |ts| - 1;
    if Holds(ts[n], b) { i := n; } else { i := HeldBy(ts[..n], b); }
  }

  lemma RunningCanStep(q: Query, s: State, i: nat)
    requires Inv(q, s) && i < |s.threads| && Running(s.threads[i])
    ensures Enabled(q, s, i)
  {
    assert OnBlock(s.bar, s.threads[i]) && ThreadInv(q, s.bar, q.scans[i].recs, s.threads[i]);
    HeldHas(s.threads, i, s.bar.minBlock);
    assert q.scans[i].pos in Positions(q);
  }

  /** As long as a scanner is left, some scanner can step: nobody waits forever, no nil counter, no double close. */
  lemma SomeoneCanStep(q: Query, s: State, live: nat) returns (i: nat)
    requires Inv(q, s) && live < |s.threads| && !s.threads[live].pc.Done?
    ensures Enabled(q, s, i)
  {
    HeldHas(s.threads, live, s.threads[live].at);
    assert s.threads[live].at in s.bar.blocks;
    i := HeldBy(s.threads, s.bar.minBlock);
    assert OnBlock(s.bar, s.threads[i]) && ThreadInv(q, s.bar, q.scans[i].recs, s.threads[i]);
    if Running(s.threads[i]) { RunningCanStep(q, s, i); }
  }

  // ---------- what has been reported when the scanners are through ----------

  ghost predicate AllThrough(s: State) {
    forall i | 0 <= i < |s.threads| :: s.threads[i].pc.Finishing? || s.threads[i].pc.Done?
  }

  lemma CarriedIsMet(q: Query, s: State, id: Id, i: nat)
    requires Inv(q, s) && AllThrough(s) && Wanted(q, id) && i < |q.scans| && Carries(q, i, id)
    ensures i in Hits(q, s.threads, id)
  {
    var recs := q.scans[i].recs;
    if s.bar.goNext {
      assert ThreadInv(q, s.bar, recs, s.threads[i]);
      var j :| 0 <= j < |recs| && recs[j].id == id && Relevant(q, recs[j]);
      assert 0 <= j < s.threads[i].k;
    }
  }

  lemma WantedHitsAll(q: Query, s: State, id: Id)
    requires Inv(q, s) && AllThrough(s) && Wanted(q, id)
    ensures HitPositions(q, s.threads, id) >= Positions(q)
  {
    forall p | p in Positions(q)
      ensures p in HitPositions(q, s.threads, id)
    {
      var i :| 0 <= i < |q.scans| && q.scans[i].pos == p && Carries(q, i, id);
      CarriedIsMet(q, s, id, i);
    }
  }

  lemma HitsAllWanted(q: Query, s: State, id: Id)
    requires |s.threads| == |q.scans| && HitPositions(q, s.threads, id) == Positions(q)
    ensures Wanted(q, id)
  {
    forall p | p in Positions(q)
      ensures exists i :: 0 <= i < |q.scans| && q.scans[i].pos == p && Carries(q, i, id)
    {
      var i: nat :| i in Hits(q, s.threads, id) && q.scans[i].pos == p;
      var j :| 0 <= j < s.threads[i].k && j < |q.scans[i].recs|
            && q.scans[i].recs[j].id == id && Relevant(q, q.scans[i].recs[j]);
      assert Carries(q, i, id);
    }
  }

  /** Once every scanner has left its loop, exactly the wanted records have been reported. */
  lemma ReportedIsWanted(q: Query, s: State, id: Id)
    requires ValidQuery(q) && q.scans != [] && Inv(q, s) && AllThrough(s)
    ensures id in s.reported <==> Wanted(q, id)
  {
    hide ValidQuery, Tokens, ThreadInv, Wanted, AllThrough, CountsExact, Ordered;
    HitsCountPositions(q, s.threads, id);
    assert |s.bar.positions| == |s.bar.positions.Keys|;
    assert q.scans[0].pos in Positions(q);
    if Wanted(q, id) { WantedHitsAll(q, s, id); }
    if Complete(q, s, id) { HitsAllWanted(q, s, id); }
  }
}
