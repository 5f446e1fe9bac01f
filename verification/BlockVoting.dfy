/**
 LLR voting on block records (gossip/c_llr_callbacks.go).  A vote is tallied under the epoch of
 the block, but its position, its weight and the quorum are those of the epoch of the event
 that carries it, which may be a later one, and the bitmap of voters has room for the group of
 the first of them (gossip/store_llr_block.go).
 */
module BlockVoting {
  import BasicCheck
  import opened EpochVoting
  import opened Totals
  import opened VoteWeights
  import opened Words

  const MAX_BLOCKS_PER_EPOCH := BasicCheck.MAX_LIABLE_EPOCHS - 128

  /** The validators of each epoch and its first block, which is zero for an unknown epoch. */
  datatype History = History(groups: nat -> Group, starts: nat -> nat) {
    ghost predicate Valid() {
      forall e: nat :: groups(e).Valid()
    }

    /** The block may belong to the epoch: a bound from the start of the epoch is all that is checked. */
    predicate Possible(block: nat, epoch: nat) {
      epoch > 0 && starts(epoch) != 0 && starts(epoch) <= block < starts(epoch) + MAX_BLOCKS_PER_EPOCH
    }
  }

  /** A vote: what for, by whom, and the epoch of the event. */
  datatype Cast = Cast(id: VoteId, creator: nat, home: nat)

  /** What processing itself makes sure of. */
  ghost predicate Counts(c: Cast, h: History) {
    h.groups(c.home).Valid() && c.creator in h.groups(c.home).index
  }

  ghost predicate Admissible(log: seq<Cast>, h: History) {
    forall c | c in log :: Counts(c, h)
  }

  /** Votes of the validator, tallied under the first epoch, may come in events of the second. */
  ghost predicate Voter(h: History, epoch: nat, home: nat, v: nat) {
    epoch <= home && v in h.groups(epoch).index && v in h.groups(home).index
  }

  /** What the checks before processing let through. */
  ghost predicate Castable(c: Cast, h: History) {
    Counts(c, h) && h.Possible(c.id.block, c.id.epoch) && Voter(h, c.id.epoch, c.home, c.creator)
  }

  ghost predicate AllCastable(log: seq<Cast>, h: History) {
    Admissible(log, h) && forall c | c in log :: Castable(c, h)
  }

  function Position(c: Cast, h: History): nat
    requires Counts(c, h)
  {
    h.groups(c.home).index[c.creator]
  }

  function Weight(c: Cast, h: History): (w: uint32)
    requires Counts(c, h)
  {
    AtMostSum(h.groups(c.home).weights, Position(c, h));
    h.groups(c.home).weights[Position(c, h)]
  }

  // ---------- what a log of votes amounts to ----------

  function CountedCast(t: Tally, c: Cast, h: History): Tally
    requires Counts(c, h)
  {
    Counted(t, Position(c, h), |h.groups(c.home).weights|, Weight(c, h))
  }

  ghost function TallyOf(log: seq<Cast>, h: History, id: VoteId): Tally
    requires Admissible(log, h)
  {
    if log == [] then NOBODY else
      var c := log[|log| - 1];
      var t := TallyOf(log[..|log| - 1], h, id);
      if c.id == id then CountedCast(t, c, h) else t
  }

  /** Every voter had a bit in the bitmap. */
  ghost predicate Fits(log: seq<Cast>, h: History)
    requires Admissible(log, h)
  {
    log == [] ||
      var c, rest := log[|log| - 1], log[..|log| - 1];
      Fits(rest, h) && !Overflows(TallyOf(rest, h, c.id), Position(c, h))
  }

  /** The vote reaches the quorum of the group it came from. */
  ghost predicate Reaches(log: seq<Cast>, h: History, c: Cast)
    requires Admissible(log, h)
  {
    TallyOf(log, h, c.id).weight >= h.groups(c.home).Quorum()
  }

  /** The first hash of a block to reach a quorum is its result for good. */
  ghost function ResultsOf(log: seq<Cast>, h: History): map<nat, nat>
    requires Admissible(log, h)
  {
    if log == [] then map[] else
      var c := log[|log| - 1];
      var before := ResultsOf(log[..|log| - 1], h);
      if c.id.block !in before && Reaches(log, h, c) then before[c.id.block := c.id.hash] else before
  }

  lemma OneMoreCast(log: seq<Cast>, h: History, c: Cast)
    requires Admissible(log, h) && Counts(c, h)
    ensures Admissible(log + [c], h)
    ensures forall id: VoteId | id != c.id :: TallyOf(log + [c], h, id) == TallyOf(log, h, id)
    ensures TallyOf(log + [c], h, c.id) == CountedCast(TallyOf(log, h, c.id), c, h)
    ensures Fits(log + [c], h) <==> Fits(log, h) && !Overflows(TallyOf(log, h, c.id), Position(c, h))
    ensures ResultsOf(log + [c], h) ==
      var before := ResultsOf(log, h);
      if c.id.block !in before && Reaches(log + [c], h, c) then before[c.id.block := c.id.hash] else before
  {
    assert (log + [c])[..|log|] == log;
  }

  lemma {:induction false} FitsPrefix(log: seq<Cast>, more: seq<Cast>, h: History)
    requires Admissible(log + more, h) && Fits(log + more, h)
    ensures Admissible(log, h) && Fits(log, h)
  {
    assert forall c | c in log :: c in log + more;
    if more == [] {
      assert log + more == log;
    } else {
      var last := |more| - 1;
      assert (log + more)[..|log + more| - 1] == log + more[..last];
      assert forall c | c in log + more[..last] :: c in log + more;
      FitsPrefix(log, more[..last], h);
    }
  }

  lemma {:induction false} ResultsStay(log: seq<Cast>, more: seq<Cast>, h: History)
    requires Admissible(log + more, h)
    ensures Admissible(log, h)
    ensures forall n | n in ResultsOf(log, h) ::
      n in ResultsOf(log + more, h) && ResultsOf(log + more, h)[n] == ResultsOf(log, h)[n]
  {
    assert forall c | c in log :: c in log + more;
    if more == [] {
      assert log + more == log;
    } else {
      var last := |more| - 1;
      assert (log + more)[..|log + more| - 1] == log + more[..last];
      assert forall c | c in log + more[..last] :: c in log + more;
      ResultsStay(log, more[..last], h);
    }
  }

  // ---------- room in the bitmap ----------

  ghost predicate AlwaysFits(h: History) {
    forall log: seq<Cast> | AllCastable(log, h) :: Fits(log, h)
  }

  /** Whoever votes first, the bitmap has room for everyone else who may vote, in any epoch. */
  ghost predicate Roomy(h: History) {
    forall k: nat, e: nat, f: nat, u: nat, v: nat |
      k > 0 && h.starts(k) != 0 && Voter(h, k, e, u) && Voter(h, k, f, v) ::
      h.groups(f).index[v] < RoomFor(|h.groups(e).weights|)
  }

  /** The room is that of the group of one of the voters. */
  lemma {:induction false} RoomIsOfVoter(log: seq<Cast>, h: History, id: VoteId) returns (c: Cast)
    requires Admissible(log, h) && TallyOf(log, h, id).room > 0
    ensures c in log && c.id == id && TallyOf(log, h, id).room == RoomFor(|h.groups(c.home).weights|)
  {
    var last, rest := log[|log| - 1], log[..|log| - 1];
    if TallyOf(rest, h, id).room > 0 {
      c := RoomIsOfVoter(rest, h, id);
    } else {
      c := last;
    }
  }

  lemma {:induction false} RoomyFits(log: seq<Cast>, h: History)
    requires AllCastable(log, h) && Roomy(h)
    ensures Fits(log, h)
  {
    if log != [] {
      var c, rest := log[|log| - 1], log[..|log| - 1];
      RoomyFits(rest, h);
      if TallyOf(rest, h, c.id).room > 0 {
        var d := RoomIsOfVoter(rest, h, c.id);
        assert Castable(d, h) && Castable(c, h);
      }
    }
  }

  /** No vote ever indexes past the stored bitmap exactly if the groups leave room. */
  lemma AlwaysFitsIffRoomy(h: History)
    requires h.Valid()
    ensures AlwaysFits(h) <==> Roomy(h)
  {
    if Roomy(h) {
      forall log: seq<Cast> | AllCastable(log, h)
        ensures Fits(log, h)
      {
        RoomyFits(log, h);
      }
    } else {
      var k: nat, e: nat, f: nat, u: nat, v: nat :|
        k > 0 && h.starts(k) != 0 && Voter(h, k, e, u) && Voter(h, k, f, v) &&
        h.groups(f).index[v] >= RoomFor(|h.groups(e).weights|);
      TooTight(h, k, e, f, u, v);
    }
  }

  lemma TooTight(h: History, k: nat, e: nat, f: nat, u: nat, v: nat)
    requires h.Valid() && k > 0 && h.starts(k) != 0 && Voter(h, k, e, u) && Voter(h, k, f, v)
    requires h.groups(f).index[v] >= RoomFor(|h.groups(e).weights|)
    ensures !AlwaysFits(h)
  {
    var id := VoteId(h.starts(k), k, 0);
    var one, two := Cast(id, u, e), Cast(id, v, f);
    hide RoomFor, ResultsOf, TallyOf;
    TwoCasts(h, one, two);
    assert AllCastable([one, two], h);
  }

  /** Two votes for the same hash. */
  lemma TwoCasts(h: History, one: Cast, two: Cast)
    requires Counts(one, h) && Counts(two, h) && one.id == two.id
    ensures Admissible([one, two], h) && (Castable(one, h) && Castable(two, h) ==> AllCastable([one, two], h))
    ensures Fits([one, two], h) <==> Position(two, h) < RoomFor(|h.groups(one.home).weights|)
    ensures var t := Tally(Weight(one, h), {Position(one, h)}, RoomFor(|h.groups(one.home).weights|));
      && TallyOf([one], h, one.id) == t && TallyOf([one, two], h, one.id) == CountedCast(t, two, h)
      && ResultsOf([one, two], h) ==
           if t.weight >= h.groups(one.home).Quorum() || CountedCast(t, two, h).weight >= h.groups(two.home).Quorum()
           then map[one.id.block := one.id.hash] else map[]
  {
    assert Admissible([], h);
    OneMoreCast([], h, one);
    OneMoreCast([one], h, two);
    assert [] + [one] == [one] && [one] + [two] == [one, two];
  }

  // ---------- a block whose votes all come from the group of its epoch ----------

  /** Whatever event carried a vote for the block, its group was that of the block's epoch. */
  ghost predicate OneGroup(log: seq<Cast>, h: History, block: nat) {
    forall c | c in log && c.id.block == block :: h.groups(c.home) == h.groups(c.id.epoch)
  }

  ghost predicate Honest(log: seq<Cast>, block: nat, truth: nat, faulty: set<nat>) {
    forall c | c in log && c.id.block == block && c.creator !in faulty :: c.id.hash == truth
  }

  ghost function PositionsOf(g: Group, validators: set<nat>): set<nat> {
    set v | v in validators && v in g.index :: g.index[v]
  }

  ghost predicate Minority(g: Group, faulty: set<nat>) {
    WeightOf(g.weights, PositionsOf(g, faulty)) <= g.Total() / 3
  }

  ghost function Backers(log: seq<Cast>, id: VoteId): set<nat> {
    set c | c in log && c.id == id :: c.creator
  }

  /** The weight is that of the distinct backers, and all of the group have a bit. */
  ghost predicate Weighs(t: Tally, g: Group, backers: set<nat>) {
    && t.voters == PositionsOf(g, backers) && t.weight == WeightOf(g.weights, t.voters)
    && (t.room == 0 || t.room == RoomFor(|g.weights|))
  }

  lemma BackersStep(log: seq<Cast>, c: Cast, id: VoteId)
    ensures Backers(log + [c], id) == Backers(log, id) + if c.id == id then {c.creator} else {}
  {
  }

  /** Then the tally is the weight of the distinct validators that voted. */
  lemma {:induction false} TallyIsWeight(log: seq<Cast>, h: History, id: VoteId)
    requires Admissible(log, h) && OneGroup(log, h, id.block) && h.groups(id.epoch).Valid()
    ensures Weighs(TallyOf(log, h, id), h.groups(id.epoch), Backers(log, id))
  {
    var g := h.groups(id.epoch);
    if log == [] {
      NobodyWeighsNothing(g.weights);
    } else {
      var c, rest := log[|log| - 1], log[..|log| - 1];
      assert log == rest + [c];
      TallyIsWeight(rest, h, id);
      BackersStep(rest, c, id);
      if c.id == id { CountedWeighs(TallyOf(rest, h, id), g, Backers(rest, id), c.creator); }
    }
  }

  lemma CountedWeighs(t: Tally, g: Group, backers: set<nat>, v: nat)
    requires g.Valid() && v in g.index && Weighs(t, g, backers)
    ensures g.weights[g.index[v]] <= MAX_UINT32
    ensures Weighs(Counted(t, g.index[v], |g.weights|, g.weights[g.index[v]]), g, backers + {v})
  {
    var i := g.index[v];
    AtMostSum(g.weights, i);
    assert PositionsOf(g, backers + {v}) == PositionsOf(g, backers) + {i};
    if i !in t.voters {
      OneMore(g.weights, t.voters, i);
      NoMoreThanAll(g.weights, t.voters + {i});
    } else {
      assert t.voters + {i} == t.voters;
    }
  }

  /** Faulty validators that weigh at most a third in every group cannot decide a block. */
  lemma {:induction false} OnlyTheTruth(log: seq<Cast>, h: History, block: nat, truth: nat, faulty: set<nat>)
    requires Admissible(log, h) && OneGroup(log, h, block) && Honest(log, block, truth, faulty)
    requires h.Valid() && forall e: nat :: Minority(h.groups(e), faulty)
    ensures block in ResultsOf(log, h) ==> ResultsOf(log, h)[block] == truth
  {
    if log != [] {
      var c, rest := log[|log| - 1], log[..|log| - 1];
      OnlyTheTruth(rest, h, block, truth, faulty);
      if c.id.block == block && c.id.hash != truth { FaultyReachNothing(log, h, c, truth, faulty); }
    }
  }

  lemma FaultyReachNothing(log: seq<Cast>, h: History, c: Cast, truth: nat, faulty: set<nat>)
    requires Admissible(log, h) && OneGroup(log, h, c.id.block) && Honest(log, c.id.block, truth, faulty)
    requires c in log && c.id.hash != truth && h.groups(c.id.epoch).Valid() && Minority(h.groups(c.id.epoch), faulty)
    ensures !Reaches(log, h, c)
  {
    var g := h.groups(c.id.epoch);
    TallyIsWeight(log, h, c.id);
    assert Backers(log, c.id) <= faulty;
    assert PositionsOf(g, Backers(log, c.id)) <= PositionsOf(g, faulty);
    FewerWeighLess(g.weights, PositionsOf(g, Backers(log, c.id)), PositionsOf(g, faulty));
  }

  /** A hash backed by more than a third of the weight of an epoch leaves no block undecided. */
  lemma {:induction false} QuorumDecides(log: seq<Cast>, h: History, id: VoteId)
    requires Admissible(log, h) && OneGroup(log, h, id.block) && h.groups(id.epoch).Valid()
    requires WeightOf(h.groups(id.epoch).weights, PositionsOf(h.groups(id.epoch), Backers(log, id))) >= h.groups(id.epoch).Quorum()
    ensures id.block in ResultsOf(log, h)
  {
    var g := h.groups(id.epoch);
    NobodyWeighsNothing(g.weights);
    assert log == [] ==> PositionsOf(g, Backers(log, id)) == {};
    if log != [] {
      var c, rest := log[|log| - 1], log[..|log| - 1];
      assert log == rest + [c];
      if c.id == id {
        TallyIsWeight(log, h, id);
      } else {
        BackersStep(rest, c, id);
        assert Backers(rest, id) + {} == Backers(rest, id);
        QuorumDecides(rest, h, id);
      }
    }
  }

  // ---------- exactly when faulty validators can decide ----------

  /** Positions, each with an epoch in which it is held. */
  type Claims = map<nat, nat>

  /** A faulty validator of epoch k holds the position in epoch e. */
  ghost predicate Holds(h: History, k: nat, faulty: set<nat>, e: nat, p: nat) {
    exists v :: v in faulty && Voter(h, k, e, v) && h.groups(e).index[v] == p
  }

  function WeightAt(h: History, e: nat, p: nat): nat {
    if p < |h.groups(e).weights| then h.groups(e).weights[p] else 0
  }

  ghost function SumOf(h: History, m: Claims): nat {
    if m == map[] then 0 else
      var p :| p in m;
      WeightAt(h, m[p], p) + SumOf(h, m - {p})
  }

  lemma {:induction false} SumWithout(h: History, m: Claims, p: nat)
    requires p in m
    ensures SumOf(h, m) == WeightAt(h, m[p], p) + SumOf(h, m - {p})
    decreases |m|
  {
    var q :| q in m && SumOf(h, m) == WeightAt(h, m[q], q) + SumOf(h, m - {q});
    if q != p {
      Smaller(m, q);
      Smaller(m, p);
      SumWithout(h, m - {q}, p);
      SumWithout(h, m - {p}, q);
      assert m - {q} - {p} == m - {p} - {q};
    }
  }

  lemma Smaller(m: Claims, p: nat)
    requires p in m
    ensures |m - {p}| < |m|
  {
    assert (m - {p}).Keys == m.Keys - {p};
    assert |(m - {p}).Keys| == |m - {p}| && |m.Keys| == |m|;
  }

  /** The positions are held by faulty validators, and fit the bitmap when the one at `first` votes first. */
  ghost predicate Claimable(h: History, k: nat, faulty: set<nat>, m: Claims, first: nat) {
    && first in m
    && forall p | p in m :: Holds(h, k, faulty, m[p], p) && p < RoomFor(|h.groups(m[first]).weights|)
  }

  /** Their weights, summed in 32 bits, make the quorum of an epoch f in which one of the positions is held. */
  ghost predicate Outweighs(h: History, k: nat, faulty: set<nat>, m: Claims, first: nat, last: nat, f: nat) {
    && Claimable(h, k, faulty, m, first)
    && last in m && Holds(h, k, faulty, f, last) && Wrap32(SumOf(h, m)) >= h.groups(f).Quorum()
  }

  ghost predicate CanDecide(h: History, k: nat, faulty: set<nat>) {
    exists m: Claims, first: nat, last: nat, f: nat :: Outweighs(h, k, faulty, m, first, last, f)
  }

  /** Some votes, honest ones for the truth only, lead to another result. */
  ghost predicate WrongReachable(h: History, faulty: set<nat>, block: nat, truth: nat, wrong: nat) {
    exists log: seq<Cast> :: LeadsTo(log, h, faulty, block, truth, wrong)
  }

  ghost predicate LeadsTo(log: seq<Cast>, h: History, faulty: set<nat>, block: nat, truth: nat, wrong: nat) {
    && AllCastable(log, h) && Fits(log, h) && Honest(log, block, truth, faulty)
    && block in ResultsOf(log, h) && ResultsOf(log, h)[block] == wrong
  }

  /**
   A block can be decided wrongly exactly if, in some epoch the block may be claimed for, faulty
   validators can claim positions across epochs that outweigh a quorum.
   */
  lemma WrongReachableIff(h: History, faulty: set<nat>, block: nat, truth: nat, wrong: nat)
    requires h.Valid() && truth != wrong
    ensures WrongReachable(h, faulty, block, truth, wrong) <==> exists k: nat :: h.Possible(block, k) && CanDecide(h, k, faulty)
  {
    if WrongReachable(h, faulty, block, truth, wrong) {
      var log: seq<Cast> :| LeadsTo(log, h, faulty, block, truth, wrong);
      var k := WrongNeeds(log, h, faulty, block, truth, wrong);
    }
    if k: nat :| h.Possible(block, k) && CanDecide(h, k, faulty) {
      var m: Claims, first: nat, last: nat, f: nat :| Outweighs(h, k, faulty, m, first, last, f);
      var log := ClaimedWrong(h, k, faulty, block, wrong, m, first, last, f);
      assert LeadsTo(log, h, faulty, block, truth, wrong);
    }
  }

  lemma WrapTwice(a: nat, b: nat)
    ensures Wrap32(Wrap32(a) + b) == Wrap32(a + b)
  {
  }

  /** Only faulty validators vote for the hash. */
  ghost predicate FaultyOnly(log: seq<Cast>, id: VoteId, faulty: set<nat>) {
    forall c | c in log && c.id == id :: c.creator in faulty
  }

  /** The tally of such a hash is a sum of claims. */
  ghost predicate IsClaim(t: Tally, h: History, k: nat, faulty: set<nat>, m: Claims, first: nat) {
    && t.voters == m.Keys && t.weight == Wrap32(SumOf(h, m))
    && if m == map[] then t.room == 0 else Claimable(h, k, faulty, m, first) && t.room == RoomFor(|h.groups(m[first]).weights|)
  }

  lemma {:induction false} ClaimsOf(log: seq<Cast>, h: History, id: VoteId, faulty: set<nat>) returns (m: Claims, first: nat)
    requires AllCastable(log, h) && Fits(log, h) && FaultyOnly(log, id, faulty)
    ensures IsClaim(TallyOf(log, h, id), h, id.epoch, faulty, m, first)
  {
    if log == [] {
      m, first := map[], 0;
    } else {
      var c, rest := log[|log| - 1], log[..|log| - 1];
      m, first := ClaimsOf(rest, h, id, faulty);
      if c.id == id && Position(c, h) !in m {
        m, first := OneMoreClaim(TallyOf(rest, h, id), h, faulty, m, first, c);
      }
    }
  }

  lemma OneMoreClaim(t: Tally, h: History, faulty: set<nat>, m: Claims, first: nat, c: Cast) returns (m': Claims, first': nat)
    requires IsClaim(t, h, c.id.epoch, faulty, m, first) && Castable(c, h) && c.creator in faulty
    requires Position(c, h) !in m && !Overflows(t, Position(c, h))
    ensures IsClaim(CountedCast(t, c, h), h, c.id.epoch, faulty, m', first')
  {
    hide SumOf, Wrap32, RoomFor, Voter;
    var p := Position(c, h);
    m' := m[p := c.home];
    first' := if m == map[] then p else first;
    SumWith(h, m, p, c.home);
    WrapTwice(SumOf(h, m), Weight(c, h));
    CasterHolds(c, h, faulty);
    assert p < RoomFor(|h.groups(m'[first']).weights|);
  }

  lemma SumWith(h: History, m: Claims, p: nat, e: nat)
    requires p !in m
    ensures SumOf(h, m[p := e]) == SumOf(h, m) + WeightAt(h, e, p)
  {
    SumWithout(h, m[p := e], p);
    assert m[p := e] - {p} == m;
  }

  lemma CasterHolds(c: Cast, h: History, faulty: set<nat>)
    requires Castable(c, h) && c.creator in faulty
    ensures Holds(h, c.id.epoch, faulty, c.home, Position(c, h)) && WeightAt(h, c.home, Position(c, h)) == Weight(c, h)
  {
  }

  lemma {:induction false} WrongNeeds(log: seq<Cast>, h: History, faulty: set<nat>, block: nat, truth: nat, wrong: nat) returns (k: nat)
    requires LeadsTo(log, h, faulty, block, truth, wrong) && truth != wrong
    ensures h.Possible(block, k) && CanDecide(h, k, faulty)
  {
    var c, rest := log[|log| - 1], log[..|log| - 1];
    if block in ResultsOf(rest, h) {
      k := WrongNeeds(rest, h, faulty, block, truth, wrong);
    } else {
      assert c in log;
      k := c.id.epoch;
      DeciderOutweighs(log, h, faulty);
    }
  }

  lemma DeciderOutweighs(log: seq<Cast>, h: History, faulty: set<nat>)
    requires log != [] && AllCastable(log, h) && Fits(log, h)
    requires var c := log[|log| - 1]; FaultyOnly(log, c.id, faulty) && Reaches(log, h, c)
    ensures CanDecide(h, log[|log| - 1].id.epoch, faulty)
  {
    hide SumOf, Wrap32, Claimable, Holds, Castable;
    var c := log[|log| - 1];
    var m, first := ClaimsOf(log, h, c.id, faulty);
    assert c in log;
    LastIsIn(log, h);
    CasterHolds(c, h, faulty);
    assert Outweighs(h, c.id.epoch, faulty, m, first, Position(c, h), c.home);
  }

  lemma LastIsIn(log: seq<Cast>, h: History)
    requires log != [] && Admissible(log, h) && Fits(log, h)
    ensures var c := log[|log| - 1]; Counts(c, h) && Position(c, h) in TallyOf(log, h, c.id).voters
  {
  }

  /** Casts that make the claims, the one at `first` first. */
  ghost predicate Enlisted(log: seq<Cast>, h: History, id: VoteId, faulty: set<nat>, m: Claims, first: nat)
    requires first in m
  {
    && AllCastable(log, h) && Fits(log, h) && AllFor(log, id, faulty)
    && TallyOf(log, h, id) == Tally(Wrap32(SumOf(h, m)), m.Keys, RoomFor(|h.groups(m[first]).weights|))
  }

  lemma EnlistOne(log: seq<Cast>, h: History, id: VoteId, faulty: set<nat>, m: Claims, first: nat, p: nat, e: nat) returns (c: Cast)
    requires h.Valid() && h.Possible(id.block, id.epoch) && first in m && Enlisted(log, h, id, faulty, m, first)
    requires p !in m && Holds(h, id.epoch, faulty, e, p) && p < RoomFor(|h.groups(m[first]).weights|)
    ensures Enlisted(log + [c], h, id, faulty, m[p := e], first)
  {
    hide TallyOf, Fits, Holds, Wrap32, RoomFor, Position, Weight, SumOf;
    c := Claim(h, id, faulty, e, p);
    SumWith(h, m, p, e);
    WrapTwice(SumOf(h, m), Weight(c, h));
    OneMoreCast(log, h, c);
    assert m[p := e].Keys == m.Keys + {p};
  }

  lemma EnlistFirst(h: History, id: VoteId, faulty: set<nat>, first: nat, e: nat) returns (c: Cast)
    requires h.Valid() && h.Possible(id.block, id.epoch) && Holds(h, id.epoch, faulty, e, first)
    ensures Enlisted([c], h, id, faulty, map[first := e], first)
  {
    hide TallyOf, Fits, Holds, RoomFor, Position, Weight, SumOf;
    c := Claim(h, id, faulty, e, first);
    NothingClaimed(h);
    SumWith(h, map[], first, e);
    assert Admissible([], h);
    OneMoreCast([], h, c);
    NothingCast(h, id);
    assert [] + [c] == [c] && map[first := e].Keys == {first} && map[][first := e] == map[first := e];
  }

  lemma NothingClaimed(h: History)
    ensures SumOf(h, map[]) == 0
  {
  }

  lemma NothingCast(h: History, id: VoteId)
    ensures TallyOf([], h, id) == NOBODY && Fits([], h)
  {
  }

  lemma {:induction false} Enlist(h: History, id: VoteId, faulty: set<nat>, m: Claims, first: nat) returns (log: seq<Cast>)
    requires h.Valid() && h.Possible(id.block, id.epoch) && Claimable(h, id.epoch, faulty, m, first)
    ensures Enlisted(log, h, id, faulty, m, first)
    decreases |m|
  {
    hide Enlisted, Holds, RoomFor;
    if p :| p in m && p != first {
      Smaller(m, p);
      log := Enlist(h, id, faulty, m - {p}, first);
      assert (m - {p})[p := m[p]] == m;
      var c := EnlistOne(log, h, id, faulty, m - {p}, first, p, m[p]);
      log := log + [c];
    } else {
      assert m == map[first := m[first]];
      var c := EnlistFirst(h, id, faulty, first, m[first]);
      log := [c];
    }
  }

  ghost predicate AllFor(log: seq<Cast>, id: VoteId, faulty: set<nat>) {
    forall c | c in log :: c.id == id && c.creator in faulty
  }

  lemma Claim(h: History, id: VoteId, faulty: set<nat>, e: nat, p: nat) returns (c: Cast)
    requires h.Valid() && h.Possible(id.block, id.epoch) && Holds(h, id.epoch, faulty, e, p)
    ensures c.id == id && c.home == e && c.creator in faulty && Castable(c, h)
    ensures Position(c, h) == p && Weight(c, h) == WeightAt(h, e, p)
  {
    var v :| v in faulty && Voter(h, id.epoch, e, v) && h.groups(e).index[v] == p;
    c := Cast(id, v, e);
  }

  lemma {:induction false} OnlyResult(log: seq<Cast>, h: History, id: VoteId, faulty: set<nat>)
    requires Admissible(log, h) && AllFor(log, id, faulty)
    ensures ResultsOf(log, h) == map[] || ResultsOf(log, h) == map[id.block := id.hash]
  {
    if log != [] {
      var c, rest := log[|log| - 1], log[..|log| - 1];
      OnlyResult(rest, h, id, faulty);
      assert c in log;
    }
  }

  lemma ClaimedWrong(h: History, k: nat, faulty: set<nat>, block: nat, wrong: nat, m: Claims, first: nat, last: nat, f: nat)
    returns (log: seq<Cast>)
    requires h.Valid() && h.Possible(block, k) && Outweighs(h, k, faulty, m, first, last, f)
    ensures AllCastable(log, h) && Fits(log, h) && AllFor(log, VoteId(block, k, wrong), faulty)
    ensures ResultsOf(log, h) == map[block := wrong]
  {
    var id := VoteId(block, k, wrong);
    log := Enlist(h, id, faulty, m, first);
    var c := Claim(h, id, faulty, f, last);
    OneMoreCast(log, h, c);
    log := log + [c];
    assert block in ResultsOf(log, h);
    OnlyResult(log, h, id, faulty);
  }

  /** With the same group in all epochs from k on, a third is not enough. */
  lemma SteadyIsSafe(h: History, k: nat, faulty: set<nat>)
    requires h.Valid() && Minority(h.groups(k), faulty) && forall e: nat | e >= k :: h.groups(e) == h.groups(k)
    ensures !CanDecide(h, k, faulty)
  {
    var g := h.groups(k);
    forall m: Claims, first: nat, last: nat, f: nat | Claimable(h, k, faulty, m, first) && Holds(h, k, faulty, f, last)
      ensures !Outweighs(h, k, faulty, m, first, last, f)
    {
      forall p | p in m
        ensures p in PositionsOf(g, faulty) && p < |g.weights| && WeightAt(h, m[p], p) == g.weights[p]
      {
        HeldThere(h, k, faulty, m[p], p);
      }
      SumIsWeight(h, g.weights, m);
      FewerWeighLess(g.weights, m.Keys, PositionsOf(g, faulty));
    }
  }

  lemma HeldThere(h: History, k: nat, faulty: set<nat>, e: nat, p: nat)
    requires h.Valid() && Holds(h, k, faulty, e, p) && forall f: nat | f >= k :: h.groups(f) == h.groups(k)
    ensures p in PositionsOf(h.groups(k), faulty)
    ensures p < |h.groups(k).weights| && WeightAt(h, e, p) == h.groups(k).weights[p]
  {
  }

  lemma {:induction false} SumIsWeight(h: History, w: seq<nat>, m: Claims)
    requires forall p | p in m :: p < |w| && WeightAt(h, m[p], p) == w[p]
    ensures SumOf(h, m) == WeightOf(w, m.Keys)
    decreases |m|
  {
    if m == map[] {
      NobodyWeighsNothing(w);
    } else {
      var p :| p in m;
      Smaller(m, p);
      hide SumOf, WeightOf;
      SumIsWeight(h, w, m - {p});
      SumWithout(h, m, p);
      OneMore(w, (m - {p}).Keys, p);
      assert (m - {p}).Keys + {p} == m.Keys;
    }
  }

  // ---------- when validators move between epochs ----------

  /** How often a validator was counted for a hash. */
  ghost function TimesCounted(log: seq<Cast>, h: History, id: VoteId, v: nat): nat
    requires Admissible(log, h)
  {
    if log == [] then 0 else
      var c, rest := log[|log| - 1], log[..|log| - 1];
      TimesCounted(rest, h, id, v) +
      if c.id == id && c.creator == v && Position(c, h) !in TallyOf(rest, h, id).voters then 1 else 0
  }

  ghost predicate NobodyTwice(h: History) {
    forall log: seq<Cast>, id: VoteId, v: nat | AllCastable(log, h) && Fits(log, h) :: TimesCounted(log, h, id, v) <= 1
  }

  /** A validator whose votes may come in a later epoch has its position there too. */
  ghost predicate KeepPlaces(h: History) {
    forall k: nat, f: nat, v: nat | k > 0 && h.starts(k) != 0 && Voter(h, k, f, v) :: h.groups(k).index[v] == h.groups(f).index[v]
  }

  ghost predicate HasCounted(log: seq<Cast>, h: History, id: VoteId, v: nat)
    requires Admissible(log, h)
  {
    exists c :: c in log && c.id == id && c.creator == v && Position(c, h) in TallyOf(log, h, id).voters
  }

  lemma {:induction false} CountedOnce(log: seq<Cast>, h: History, id: VoteId, v: nat)
    requires AllCastable(log, h) && Fits(log, h) && KeepPlaces(h)
    ensures TimesCounted(log, h, id, v) <= 1
    ensures TimesCounted(log, h, id, v) == 1 ==> HasCounted(log, h, id, v)
  {
    if log != [] {
      var c, rest := log[|log| - 1], log[..|log| - 1];
      CountedOnce(rest, h, id, v);
      assert c in log && Castable(c, h);
      if TimesCounted(rest, h, id, v) == 1 {
        var d :| d in rest && d.id == id && d.creator == v && Position(d, h) in TallyOf(rest, h, id).voters;
        assert d in log && Castable(d, h);
      }
    }
  }

  /** A validator is counted at most once for a hash, whatever the votes, exactly if no validator moves. */
  lemma NobodyTwiceIffKeepPlaces(h: History)
    requires h.Valid()
    ensures NobodyTwice(h) <==> KeepPlaces(h)
  {
    if KeepPlaces(h) {
      forall log: seq<Cast>, id: VoteId, v: nat | AllCastable(log, h) && Fits(log, h)
        ensures TimesCounted(log, h, id, v) <= 1
      {
        CountedOnce(log, h, id, v);
      }
    } else {
      var k: nat, f: nat, v: nat :| k > 0 && h.starts(k) != 0 && Voter(h, k, f, v) && h.groups(k).index[v] != h.groups(f).index[v];
      var id := VoteId(h.starts(k), k, 0);
      var one, two := Cast(id, v, k), Cast(id, v, f);
      if Position(one, h) < Position(two, h) { one, two := two, one; }
      MovedIsCountedTwice(h, one, two);
    }
  }

  /** The higher position first: then the lower one has a bit as well. */
  lemma MovedIsCountedTwice(h: History, one: Cast, two: Cast)
    requires Castable(one, h) && Castable(two, h) && one.id == two.id && one.creator == two.creator
    requires Position(one, h) > Position(two, h)
    ensures AllCastable([one, two], h) && Fits([one, two], h) && TimesCounted([one, two], h, one.id, one.creator) == 2
  {
    TwoCasts(h, one, two);
    assert [one, two][..1] == [one] && [one][..0] == [];
    assert TimesCounted([one], h, one.id, one.creator) == 1;
  }

  /** How far a validator gets on its own that changed its position: if it has a bit, what the two weights decide. */
  lemma MovedDecidesIff(h: History, e: nat, f: nat, v: nat, id: VoteId)
    requires h.groups(e).Valid() && h.groups(f).Valid()
    requires v in h.groups(e).index && v in h.groups(f).index && h.groups(e).index[v] != h.groups(f).index[v]
    ensures var log := [Cast(id, v, e), Cast(id, v, f)];
      && Admissible(log, h)
      && (Fits(log, h) <==> h.groups(f).index[v] < RoomFor(|h.groups(e).weights|))
      && (Fits(log, h) ==>
            var one, two := Weight(log[0], h), Weight(log[1], h);
            (id.block in ResultsOf(log, h) <==> one >= h.groups(e).Quorum() || Wrap32(one + two) >= h.groups(f).Quorum()))
  {
    TwoCasts(h, Cast(id, v, e), Cast(id, v, f));
  }

  // ---------- cases ----------

  /** As many validators in every epoch, all of the same weight. */
  function Equals(index: map<nat, nat>, n: nat, weight: nat): Group {
    Group(index, seq(n, i => weight))
  }

  lemma {:induction false} EqualWeights(n: nat, weight: nat)
    ensures var w := seq(n, i => weight); Sum(w) == n * weight && forall p | 0 <= p < n :: WeightOf(w, {p}) == weight
  {
    var w := seq(n, i => weight);
    NobodyWeighsNothing(w);
    forall p | 0 <= p < n
      ensures WeightOf(w, {p}) == weight
    {
      OneMore(w, {}, p);
      assert {} + {p} == {p};
    }
    if n > 0 {
      EqualWeights(n - 1, weight);
      assert w[..n - 1] == seq(n - 1, i => weight);
    }
  }

  /** Three validators of equal weight; in the second epoch two of them have changed places. */
  function Swapping(e: nat): Group {
    Equals(if e < 2 then map[0 := 0, 1 := 1, 2 := 2] else map[0 := 1, 1 := 0, 2 := 2], 3, 1)
  }

  /** Three validators that keep their places but all become lighter. */
  function Lightening(e: nat): Group {
    Equals(map[0 := 0, 1 := 1, 2 := 2], 3, if e < 2 then 100 else 90)
  }

  /** Validator 0 votes in the first epoch and in the second. */
  function Twice(hash: nat): seq<Cast> {
    [Cast(VoteId(1, 1, hash), 0, 1), Cast(VoteId(1, 1, hash), 0, 2)]
  }

  lemma ThirdIsFair(g: Group, index: map<nat, nat>, weight: nat)
    requires g == Equals(index, 3, weight) && 0 in index && weight <= 1000 && forall v | v in index :: index[v] < 3
    ensures g.Valid() && Minority(g, {0}) && g.Quorum() == weight + 1
  {
    EqualWeights(3, weight);
    assert PositionsOf(g, {0}) == {index[0]};
  }

  /** A third of the weight in every epoch decides a block wrongly, counted at two positions. */
  lemma ThirdDecidesAlone(truth: nat, wrong: nat)
    requires truth != wrong
    ensures var h := History(Swapping, e => e);
      (forall e: nat :: Minority(Swapping(e), {0})) && LeadsTo(Twice(wrong), h, {0}, 1, truth, wrong)
  {
    hide Sum, WeightOf, PositionsOf, ResultsOf, TallyOf, Fits;
    forall e: nat
      ensures Swapping(e).Valid() && Minority(Swapping(e), {0}) && Swapping(e).Quorum() == 2
    {
      ThirdIsFair(Swapping(e), Swapping(e).index, 1);
    }
    TwoCasts(History(Swapping, e => e), Twice(wrong)[0], Twice(wrong)[1]);
  }

  /** And with no validator moved: what it weighed when it voted is held against a lighter quorum. */
  lemma LighterQuorumDecides(truth: nat, wrong: nat)
    requires truth != wrong
    ensures var h := History(Lightening, e => e);
      && (forall e: nat :: Minority(Lightening(e), {0})) && KeepPlaces(h)
      && LeadsTo(Twice(wrong), h, {0}, 1, truth, wrong)
  {
    hide Sum, WeightOf, PositionsOf, ResultsOf, TallyOf, Fits;
    forall e: nat
      ensures Lightening(e).Valid() && Minority(Lightening(e), {0}) && Lightening(e).Quorum() == if e < 2 then 101 else 91
    {
      ThirdIsFair(Lightening(e), Lightening(e).index, if e < 2 then 100 else 90);
    }
    TwoCasts(History(Lightening, e => e), Twice(wrong)[0], Twice(wrong)[1]);
  }

  /** Eight validators, then nine: the newcomer comes first and everyone moves up. */
  function Growing(e: nat): Group {
    if e < 2 then Equals(map[0 := 0, 1 := 1, 2 := 2, 3 := 3, 4 := 4, 5 := 5, 6 := 6, 7 := 7], 8, 100)
    else Equals(map[0 := 1, 1 := 2, 2 := 3, 3 := 4, 4 := 5, 5 := 6, 6 := 7, 7 := 8, 8 := 0], 9, 1)
  }

  /** The last of the eight has no bit when it votes again. */
  lemma PastTheBitmap(hash: nat)
    ensures var h := History(Growing, e => e);
      var id := VoteId(1, 1, hash);
      var log := [Cast(id, 7, 1), Cast(id, 7, 2)];
      AllCastable(log, h) && Fits(log[..1], h) && !Fits(log, h)
  {
    hide ResultsOf, TallyOf, Sum, WeightOf, Group.Quorum;
    EqualWeights(8, 100);
    EqualWeights(9, 1);
    var id := VoteId(1, 1, hash);
    var h, one, two := History(Growing, e => e), Cast(id, 7, 1), Cast(id, 7, 2);
    TwoCasts(h, one, two);
    assert [one, two][..1] == [one];
    OneFits(h, one);
  }

  lemma OneFits(h: History, c: Cast)
    requires Counts(c, h)
    ensures Admissible([c], h) && Fits([c], h)
  {
  }
}
