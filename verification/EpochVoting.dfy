/**
 LLR voting on epoch records (gossip/c_llr_callbacks.go, gossip/store_llr_epoch.go): a
 hash wins an epoch when the validators that voted for it weigh more than a third.
 */
module EpochVoting {
  import opened Totals
  import opened Words
  import opened VoteWeights
  import LowestIndex

  // ---------- validator groups ----------

  /** Validator ids, their positions in the group and the weights by position. */
  datatype Group = Group(index: map<nat, nat>, weights: seq<nat>) {
    ghost predicate Valid() {
      (forall vid | vid in index :: index[vid] < |weights|) && Total() <= MAX_UINT32
    }

    function Total(): nat {
      Sum(weights)
    }

    function Quorum(): nat {
      Total() / 3 + 1
    }
  }

  /** The weight of the validators in the set. */
  ghost function WeightOf(weights: seq<nat>, s: set<nat>): nat {
    if weights == [] then 0 else
      var last := |weights| - 1;
      WeightOf(weights[..last], s) + if last in s then weights[last] else 0
  }

  lemma {:induction false} NoMoreThanAll(weights: seq<nat>, s: set<nat>)
    ensures WeightOf(weights, s) <= Sum(weights)
  {
    if weights != [] { NoMoreThanAll(weights[..|weights| - 1], s); }
  }

  lemma {:induction false} OneMore(weights: seq<nat>, s: set<nat>, i: nat)
    requires i < |weights| && i !in s
    ensures WeightOf(weights, s + {i}) == WeightOf(weights, s) + weights[i]
  {
    var last := |weights| - 1;
    if i < last {
      OneMore(weights[..last], s, i);
    } else {
      Irrelevant(weights[..last], s, i);
    }
  }

  lemma {:induction false} Irrelevant(weights: seq<nat>, s: set<nat>, i: nat)
    requires i >= |weights|
    ensures WeightOf(weights, s + {i}) == WeightOf(weights, s)
  {
    if weights != [] { Irrelevant(weights[..|weights| - 1], s, i); }
  }

  lemma {:induction false} FewerWeighLess(weights: seq<nat>, s: set<nat>, t: set<nat>)
    requires s <= t
    ensures WeightOf(weights, s) <= WeightOf(weights, t)
  {
    if weights != [] { FewerWeighLess(weights[..|weights| - 1], s, t); }
  }

  lemma {:induction false} NobodyWeighsNothing(weights: seq<nat>)
    ensures WeightOf(weights, {}) == 0
  {
    if weights != [] { NobodyWeighsNothing(weights[..|weights| - 1]); }
  }

  // ---------- what the votes received add up to ----------

  /** A vote that passed the checks: epoch, hash and position of the voter. */
  datatype Ballot = Ballot(epoch: nat, hash: nat, voter: nat)

  ghost function Voters(log: seq<Ballot>, epoch: nat, hash: nat): set<nat> {
    set b | b in log && b.epoch == epoch && b.hash == hash :: b.voter
  }

  /** The weight stored for a hash is the weight of its distinct voters, counted once each. */
  ghost predicate Tallies(t: Tally, log: seq<Ballot>, g: Group, epoch: nat, hash: nat) {
    && t.voters == Voters(log, epoch, hash) && t.weight == WeightOf(g.weights, t.voters)
    && t.room == if t.voters == {} then 0 else RoomFor(|g.weights|)
  }

  lemma TallyStep(t: Tally, log: seq<Ballot>, g: Group, b: Ballot)
    requires g.Valid() && Tallies(t, log, g, b.epoch, b.hash) && b.voter < |g.weights|
    ensures g.weights[b.voter] <= MAX_UINT32 && !Overflows(t, b.voter)
    ensures Tallies(Counted(t, b.voter, |g.weights|, g.weights[b.voter]), log + [b], g, b.epoch, b.hash)
  {
    VotersStep(log, b, b.epoch, b.hash);
    AtMostSum(g.weights, b.voter);
    if b.voter !in t.voters {
      OneMore(g.weights, t.voters, b.voter);
      NoMoreThanAll(g.weights, t.voters + {b.voter});
    } else {
      assert t.voters + {b.voter} == t.voters;
    }
  }

  lemma VotersStep(log: seq<Ballot>, b: Ballot, epoch: nat, hash: nat)
    ensures Voters(log + [b], epoch, hash) ==
      Voters(log, epoch, hash) + if b.epoch == epoch && b.hash == hash then {b.voter} else {}
  {
  }

  // ---------- agreement ----------

  ghost predicate Wins(log: seq<Ballot>, g: Group, epoch: nat, hash: nat) {
    WeightOf(g.weights, Voters(log, epoch, hash)) >= g.Quorum()
  }

  /** Honest validators vote for the true hash only. */
  ghost predicate HonestVotes(log: seq<Ballot>, epoch: nat, truth: nat, faulty: set<nat>) {
    forall b | b in log && b.epoch == epoch && b.voter !in faulty :: b.hash == truth
  }

  /** With at most a third of the weight faulty, no other hash can win. */
  lemma OnlyTheTruthWins(log: seq<Ballot>, g: Group, epoch: nat, truth: nat, faulty: set<nat>, hash: nat)
    requires HonestVotes(log, epoch, truth, faulty) && WeightOf(g.weights, faulty) <= g.Total() / 3
    requires Wins(log, g, epoch, hash)
    ensures hash == truth
  {
    if hash != truth {
      FewerWeighLess(g.weights, Voters(log, epoch, hash), faulty);
    }
  }

  function BallotsFor(epoch: nat, hash: nat, voters: seq<nat>): (log: seq<Ballot>)
    ensures |log| == |voters| && forall i | 0 <= i < |log| :: log[i] == Ballot(epoch, hash, voters[i])
  {
    seq(|voters|, i requires 0 <= i < |voters| => Ballot(epoch, hash, voters[i]))
  }

  ghost function VoterSet(voters: seq<nat>): set<nat> {
    set i | i in voters
  }

  /** The bound is exact: faulty validators weighing more than a third win any hash on their own. */
  lemma FaultyWinAlone(g: Group, epoch: nat, truth: nat, wrong: nat, voters: seq<nat>)
    requires WeightOf(g.weights, VoterSet(voters)) > g.Total() / 3
    ensures var log := BallotsFor(epoch, wrong, voters);
      HonestVotes(log, epoch, truth, VoterSet(voters)) && Wins(log, g, epoch, wrong)
  {
    var log := BallotsFor(epoch, wrong, voters);
    assert Voters(log, epoch, wrong) == VoterSet(voters) by {
      forall i | i in voters
        ensures i in Voters(log, epoch, wrong)
      {
        var k :| 0 <= k < |voters| && voters[k] == i;
        assert log[k] in log;
      }
    }
  }

  /** An epoch has a result exactly when some hash has won, and the result is one that has. */
  ghost predicate Decided(results: map<nat, nat>, log: seq<Ballot>, electors: nat -> Group) {
    && (forall e | e in results :: Wins(log, electors(e), e, results[e]))
    && (forall e: nat, h: nat | Wins(log, electors(e), e, h) :: e in results)
  }

  lemma WinsStep(log: seq<Ballot>, g: Group, epoch: nat, hash: nat, b: Ballot)
    ensures Wins(log, g, epoch, hash) ==> Wins(log + [b], g, epoch, hash)
    ensures Wins(log + [b], g, epoch, hash) && !(epoch == b.epoch && hash == b.hash) ==> Wins(log, g, epoch, hash)
  {
    VotersStep(log, b, epoch, hash);
    assert Voters(log, epoch, hash) + {} == Voters(log, epoch, hash);
    FewerWeighLess(g.weights, Voters(log, epoch, hash), Voters(log + [b], epoch, hash));
  }

  lemma DecidedStep(results: map<nat, nat>, log: seq<Ballot>, electors: nat -> Group, b: Ballot)
    requires Decided(results, log, electors)
    ensures var won := Wins(log + [b], electors(b.epoch), b.epoch, b.hash);
      Decided(if won && b.epoch !in results then results[b.epoch := b.hash] else results, log + [b], electors)
  {
    hide Wins;
    forall e: nat, h: nat
      ensures Wins(log, electors(e), e, h) ==> Wins(log + [b], electors(e), e, h)
      ensures Wins(log + [b], electors(e), e, h) && !(e == b.epoch && h == b.hash) ==> Wins(log, electors(e), e, h)
    {
      WinsStep(log, electors(e), e, h, b);
    }
  }

  // ---------- the node ----------

  datatype EpochVote = EpochVote(epoch: nat, hash: nat, creator: nat, locator: nat)

  /** Panicked: an index was out of range. */
  datatype Outcome = Done | Skipped | AlreadyProcessed | UnknownEpoch | ValidatorNotExist | Panicked

  function Id(epoch: nat, hash: nat): VoteId {
    VoteId(0, epoch, hash)
  }

  datatype Arrival = NewVote(ev: EpochVote) | NewEpoch(epoch: nat)

  /** The last vote of the creator is the higher of the old and the new one, and the others stay. */
  ghost predicate LastKept(before: map<nat, nat>, after: map<nat, nat>, creator: nat, vote: nat) {
    && after.Keys == before.Keys + {creator} && (forall v | v in before && v != creator :: after[v] == before[v])
    && after[creator] >= vote && (creator in before ==> after[creator] >= before[creator])
    && (after[creator] == vote || (creator in before && after[creator] == before[creator]))
  }

  ghost predicate NeverDown(before: map<nat, nat>, after: map<nat, nat>) {
    forall v | v in before :: v in after && after[v] >= before[v]
  }

  lemma KeptIsUp(start: map<nat, nat>, before: map<nat, nat>, after: map<nat, nat>, creator: nat, vote: nat)
    requires NeverDown(start, before) && LastKept(before, after, creator, vote)
    ensures NeverDown(start, after)
  {
  }

  lemma UpToNow(known: set<nat>, last: map<nat, nat>, arrivals: seq<Arrival>)
    ensures KnownAfter(known, arrivals, 0) == known && NeverDown(last, last)
  {
  }

  ghost predicate Casts(ev: EpochVote, electors: nat -> Group) {
    ev.epoch > 0 && ev.creator in electors(ev.epoch).index
  }

  /** The vote, seen as a ballot of the group that decides. */
  ghost function BallotOf(ev: EpochVote, electors: nat -> Group): Ballot
    requires Casts(ev, electors)
  {
    Ballot(ev.epoch, ev.hash, electors(ev.epoch).index[ev.creator])
  }

  /** Every vote stored has been counted. */
  ghost predicate AllCounted(stored: map<(nat, nat), EpochVote>, electors: nat -> Group, log: seq<Ballot>) {
    forall key | key in stored ::
      (stored[key].epoch, stored[key].locator) == key && Casts(stored[key], electors) && BallotOf(stored[key], electors) in log
  }

  lemma CountedStep(stored: map<(nat, nat), EpochVote>, electors: nat -> Group, log: seq<Ballot>, ev: EpochVote)
    requires AllCounted(stored, electors, log) && Casts(ev, electors)
    ensures AllCounted(stored, electors, log + [BallotOf(ev, electors)])
    ensures AllCounted(stored[(ev.epoch, ev.locator) := ev], electors, log + [BallotOf(ev, electors)])
  {
  }

  /** The epochs known when the first n have arrived. */
  ghost function KnownAfter(known: set<nat>, arrivals: seq<Arrival>, n: nat): set<nat>
    requires n <= |arrivals|
  {
    known + set i: nat | i < n && arrivals[i].NewEpoch? :: arrivals[i].epoch
  }

  /** The i-th arrival is a vote of an existing validator, and its epoch is known by then. */
  ghost predicate Countable(known: set<nat>, electors: nat -> Group, arrivals: seq<Arrival>, i: nat) {
    && i < |arrivals| && arrivals[i].NewVote? && Casts(arrivals[i].ev, electors)
    && arrivals[i].ev.epoch - 1 in KnownAfter(known, arrivals, i)
  }

  /** A locator stands for one vote, as it contains a hash of it. */
  ghost predicate Identified(arrivals: seq<Arrival>) {
    forall i, j | 0 <= i < |arrivals| && 0 <= j < |arrivals| && arrivals[i].NewVote? && arrivals[j].NewVote? ::
      arrivals[i].ev.locator == arrivals[j].ev.locator ==> arrivals[i].ev == arrivals[j].ev
  }

  class Node {
    /** The validators that decide on an epoch: the group of the epoch before. */
    const electors: nat -> Group
    const weights: VoteStore
    const first: nat
    /** The epochs whose state is in the history. */
    var known: set<nat>
    var results: map<nat, nat>
    var lowestToDecide: nat
    var stored: map<(nat, nat), EpochVote>
    var lastVotes: map<nat, nat>
    /** The votes counted so far. */
    ghost var log: seq<Ballot>

    ghost predicate ValidSetup()
      reads weights
    {
      weights.Valid() && forall e: nat :: electors(e).Valid()
    }

    ghost predicate ValidLog()
      reads this`log, weights
    {
      forall e: nat, h: nat :: Tallies(weights.Votes(Id(e, h)), log, electors(e), e, h)
    }

    ghost predicate Valid()
      reads this`log, this`results, this`lowestToDecide, this`stored, weights
    {
      && ValidSetup() && ValidLog() && Decided(results, log, electors) && AllCounted(stored, electors, log)
      && LowestIndex.LeastMissing(results.Keys, first, lowestToDecide)
    }

    constructor (electors: nat -> Group, weights: VoteStore, first: nat)
      requires weights.Valid() && forall id: VoteId :: weights.Votes(id) == NOBODY
      requires forall e: nat :: electors(e).Valid()
      ensures Valid() && log == [] && results == map[] && stored == map[] && known == {}
      ensures this.electors == electors && this.weights == weights
    {
      this.electors, this.weights, this.first := electors, weights, first;
      known, results, lowestToDecide, stored, lastVotes, log := {}, map[], first, map[], map[], [];
      new;
      forall e: nat, h: nat
        ensures Tallies(weights.Votes(Id(e, h)), log, electors(e), e, h) && !Wins(log, electors(e), e, h)
      {
        NobodyWeighsNothing(electors(e).weights);
        assert Voters(log, e, h) == {};
      }
    }

    /** The stored weight becomes the weight of the distinct voters received so far; the bitmap always has room. */
    method CountVote(b: Ballot, loadEvicts: set<VoteId>, saveEvicts: set<VoteId>) returns (newWeight: uint32)
      requires ValidSetup() && ValidLog() && b.voter < |electors(b.epoch).weights|
      modifies this`log, weights
      ensures ValidSetup() && ValidLog() && log == old(log) + [b]
      ensures newWeight == WeightOf(electors(b.epoch).weights, Voters(log, b.epoch, b.hash))
    {
      hide Tallies, Counted, Group.Valid;
      var g := electors(b.epoch);
      ghost var before := weights.Votes(Id(b.epoch, b.hash));
      TallyStep(before, log, g, b);
      var weight := weights.AddVoteWeight(Id(b.epoch, b.hash), b.voter, |g.weights|, g.weights[b.voter], loadEvicts, saveEvicts);
      newWeight := weight.value;
      log := log + [b];
      forall e: nat, h: nat
        ensures Tallies(weights.Votes(Id(e, h)), log, electors(e), e, h)
      {
        if Id(e, h) != Id(b.epoch, b.hash) {
          assert weights.Votes(Id(e, h)) == old(weights.Votes(Id(e, h)));
          assert Tallies(old(weights.Votes(Id(e, h))), old(log), electors(e), e, h);
          TallyOther(old(weights.Votes(Id(e, h))), old(log), electors(e), e, h, b);
        }
      }
      TallyWeight(weights.Votes(Id(b.epoch, b.hash)), log, g, b.epoch, b.hash);
    }

    static lemma TallyOther(t: Tally, log: seq<Ballot>, g: Group, epoch: nat, hash: nat, b: Ballot)
      requires Tallies(t, log, g, epoch, hash) && Id(epoch, hash) != Id(b.epoch, b.hash)
      ensures Tallies(t, log + [b], g, epoch, hash)
    {
      VotersStep(log, b, epoch, hash);
    }

    static lemma TallyWeight(t: Tally, log: seq<Ballot>, g: Group, epoch: nat, hash: nat)
      requires Tallies(t, log, g, epoch, hash)
      ensures t.weight == WeightOf(g.weights, Voters(log, epoch, hash))
    {
    }

    /** One counted vote: a result appears as soon as a hash has won, and stays. */
    method ProcessRawEpochVote(b: Ballot, loadEvicts: set<VoteId>, saveEvicts: set<VoteId>)
      requires Valid() && b.voter < |electors(b.epoch).weights|
      modifies this`log, this`results, this`lowestToDecide, weights
      ensures Valid() && log == old(log) + [b]
      ensures forall e | e in old(results) :: e in results && results[e] == old(results)[e]
    {
      hide ValidLog, ValidSetup, Decided, Voters, WeightOf;
      DecidedStep(results, log, electors, b);
      var newWeight := CountVote(b, loadEvicts, saveEvicts);
      var g := electors(b.epoch);
      if newWeight >= g.Quorum() {
        if b.epoch !in results {
          ghost var decided := results.Keys;
          results := results[b.epoch := b.hash];
          assert results.Keys == decided + {b.epoch};
          ghost var marker := lowestToDecide;
          lowestToDecide := LowestIndex.Actualize(lowestToDecide, b.epoch, results.Keys);
          LowestIndex.DecidingKeepsMarker(decided, first, marker, b.epoch, lowestToDecide);
        }
      }
    }

    /** A vote from the network: counted, or refused with the state unchanged. */
    method ProcessEpochVote(ev: EpochVote, loadEvicts: set<VoteId>, saveEvicts: set<VoteId>) returns (r: Outcome)
      requires Valid()
      modifies this, weights
      ensures Valid()
      ensures known == old(known) && r != Panicked
      ensures r == Skipped <==> ev.epoch == 0
      ensures r == AlreadyProcessed <==> ev.epoch > 0 && (ev.epoch, ev.locator) in old(stored)
      ensures r == UnknownEpoch <==> ev.epoch > 0 && (ev.epoch, ev.locator) !in old(stored) && ev.epoch - 1 !in known
      ensures r == ValidatorNotExist <==>
        ev.epoch > 0 && (ev.epoch, ev.locator) !in old(stored) && ev.epoch - 1 in known && ev.creator !in electors(ev.epoch).index
      ensures r == Done ==>
        && Casts(ev, electors) && log == old(log) + [BallotOf(ev, electors)] && stored == old(stored)[(ev.epoch, ev.locator) := ev]
        && LastKept(old(lastVotes), lastVotes, ev.creator, ev.epoch)
      ensures r != Done ==>
        && log == old(log) && results == old(results) && lowestToDecide == old(lowestToDecide)
        && stored == old(stored) && lastVotes == old(lastVotes)
      ensures forall e | e in old(results) :: e in results && results[e] == old(results)[e]
    {
      hide Decided, ValidLog, AllCounted, LowestIndex.LeastMissing;
      if ev.epoch == 0 {
        return Skipped;
      }
      if (ev.epoch, ev.locator) in stored {
        return AlreadyProcessed;
      }
      if ev.epoch - 1 !in known {
        return UnknownEpoch;
      }
      var g := electors(ev.epoch);
      if ev.creator !in g.index {
        return ValidatorNotExist;
      }
      assert g.Valid();
      CountedStep(stored, electors, log, ev);
      ProcessRawEpochVote(Ballot(ev.epoch, ev.hash, g.index[ev.creator]), loadEvicts, saveEvicts);
      stored := stored[(ev.epoch, ev.locator) := ev];
      if ev.creator !in lastVotes || ev.epoch > lastVotes[ev.creator] {
        lastVotes := lastVotes[ev.creator := ev.epoch];
      }
      return Done;
    }

    /** The state of an epoch has been recorded, so votes of its validators can be counted. */
    method LearnEpoch(epoch: nat)
      requires Valid()
      modifies this`known
      ensures Valid() && known == old(known) + {epoch}
    {
      known := known + {epoch};
    }

    /**
     A whole history, in the order things arrive, with any evictions.  Every vote that can be
     counted is stored, and so counted, and nothing else is.
     */
    method Receive(arrivals: seq<Arrival>, evicts: nat -> set<VoteId>)
      requires Valid()
      modifies this, weights
      ensures Valid() && known == KnownAfter(old(known), arrivals, |arrivals|)
      ensures forall i: nat | Countable(old(known), electors, arrivals, i) :: (arrivals[i].ev.epoch, arrivals[i].ev.locator) in stored
      ensures Gained(old(stored), stored, arrivals) && OnlyFrom(old(log), log, arrivals, electors)
      ensures forall e | e in old(results) :: e in results && results[e] == old(results)[e]
      ensures NeverDown(old(lastVotes), lastVotes)
    {
      hide Decided, ValidLog, ValidSetup, AllCounted, LowestIndex.LeastMissing, LastKept, NeverDown, KnownAfter, Gained, OnlyFrom,
        CaughtUp, Countable;
      CaughtUpStart(known, electors, arrivals, stored, log);
      UpToNow(known, lastVotes, arrivals);
      for n := 0 to |arrivals|
        invariant Valid() && known == KnownAfter(old(known), arrivals, n)
        invariant CaughtUp(old(known), electors, arrivals, n, stored)
        invariant Gained(old(stored), stored, arrivals) && OnlyFrom(old(log), log, arrivals, electors)
        invariant forall e | e in old(results) :: e in results && results[e] == old(results)[e]
        invariant NeverDown(old(lastVotes), lastVotes)
      {
        assert arrivals[n] in arrivals;
        KnownStep(old(known), arrivals, n);
        match arrivals[n]
        case NewVote(ev) =>
          ghost var last, kept, before := lastVotes, stored, log;
          var r := ProcessEpochVote(ev, evicts(2 * n), evicts(2 * n + 1));
          if r == Done {
            KeptIsUp(old(lastVotes), last, lastVotes, ev.creator, ev.epoch);
            GainedStep(old(stored), kept, arrivals, ev);
            OnlyFromStep(old(log), before, arrivals, electors, ev);
          }
          CaughtVote(old(known), electors, arrivals, n, kept, stored, known);
        case NewEpoch(epoch) =>
          LearnEpoch(epoch);
          CaughtEpoch(old(known), electors, arrivals, n, stored);
      }
      AllCaughtUp(old(known), electors, arrivals, stored);
    }
  }

  /** The first n arrivals have been dealt with. */
  ghost predicate CaughtUp(known: set<nat>, electors: nat -> Group, arrivals: seq<Arrival>, n: nat, stored: map<(nat, nat), EpochVote>) {
    forall i: nat | i < n && Countable(known, electors, arrivals, i) :: (arrivals[i].ev.epoch, arrivals[i].ev.locator) in stored
  }

  lemma CaughtUpStart(known: set<nat>, electors: nat -> Group, arrivals: seq<Arrival>, stored: map<(nat, nat), EpochVote>, log: seq<Ballot>)
    ensures CaughtUp(known, electors, arrivals, 0, stored) && Gained(stored, stored, arrivals) && OnlyFrom(log, log, arrivals, electors)
  {
  }

  lemma CaughtVote(known0: set<nat>, electors: nat -> Group, arrivals: seq<Arrival>, n: nat,
                   before: map<(nat, nat), EpochVote>, stored: map<(nat, nat), EpochVote>, known: set<nat>)
    requires n < |arrivals| && CaughtUp(known0, electors, arrivals, n, before) && known == KnownAfter(known0, arrivals, n)
    requires arrivals[n].NewVote? && forall key | key in before :: key in stored
    requires var ev := arrivals[n].ev; Casts(ev, electors) && ev.epoch - 1 in known ==> (ev.epoch, ev.locator) in stored
    ensures CaughtUp(known0, electors, arrivals, n + 1, stored)
  {
    hide KnownAfter;
  }

  lemma CaughtEpoch(known0: set<nat>, electors: nat -> Group, arrivals: seq<Arrival>, n: nat, stored: map<(nat, nat), EpochVote>)
    requires n < |arrivals| && CaughtUp(known0, electors, arrivals, n, stored) && arrivals[n].NewEpoch?
    ensures CaughtUp(known0, electors, arrivals, n + 1, stored)
  {
    hide KnownAfter;
  }

  lemma AllCaughtUp(known: set<nat>, electors: nat -> Group, arrivals: seq<Arrival>, stored: map<(nat, nat), EpochVote>)
    requires CaughtUp(known, electors, arrivals, |arrivals|, stored)
    ensures forall i: nat | Countable(known, electors, arrivals, i) :: (arrivals[i].ev.epoch, arrivals[i].ev.locator) in stored
  {
    hide KnownAfter;
  }

  lemma GainedStep(before: map<(nat, nat), EpochVote>, stored: map<(nat, nat), EpochVote>, arrivals: seq<Arrival>, ev: EpochVote)
    requires Gained(before, stored, arrivals) && NewVote(ev) in arrivals && (ev.epoch, ev.locator) !in stored
    ensures Gained(before, stored[(ev.epoch, ev.locator) := ev], arrivals)
  {
  }

  lemma OnlyFromStep(start: seq<Ballot>, log: seq<Ballot>, arrivals: seq<Arrival>, electors: nat -> Group, ev: EpochVote)
    requires OnlyFrom(start, log, arrivals, electors) && NewVote(ev) in arrivals && Casts(ev, electors)
    ensures OnlyFrom(start, log + [BallotOf(ev, electors)], arrivals, electors)
  {
  }

  lemma KnownStep(known: set<nat>, arrivals: seq<Arrival>, n: nat)
    requires n < |arrivals|
    ensures KnownAfter(known, arrivals, n + 1) ==
      KnownAfter(known, arrivals, n) + if arrivals[n].NewEpoch? then {arrivals[n].epoch} else {}
  {
  }

  /** Stored votes stay, and new ones are among the arrivals. */
  ghost predicate Gained(before: map<(nat, nat), EpochVote>, after: map<(nat, nat), EpochVote>, arrivals: seq<Arrival>) {
    && (forall key | key in before :: key in after && after[key] == before[key])
    && (forall key | key in after && key !in before :: NewVote(after[key]) in arrivals)
  }

  ghost predicate OnlyFrom(before: seq<Ballot>, after: seq<Ballot>, arrivals: seq<Arrival>, electors: nat -> Group) {
    forall b | b in after :: b in before || exists ev :: NewVote(ev) in arrivals && Casts(ev, electors) && b == BallotOf(ev, electors)
  }

  /**
   Agreement: two nodes that count votes of the same groups, in any order and with any
   repetition, decide only the true hash of an epoch.
   */
  lemma Agreement(a: Node, b: Node, epoch: nat, truth: nat, faulty: set<nat>)
    requires a.Valid() && b.Valid() && a.electors(epoch) == b.electors(epoch)
    requires WeightOf(a.electors(epoch).weights, faulty) <= a.electors(epoch).Total() / 3
    requires HonestVotes(a.log, epoch, truth, faulty) && HonestVotes(b.log, epoch, truth, faulty)
    ensures epoch in a.results ==> a.results[epoch] == truth
    ensures epoch in b.results ==> b.results[epoch] == truth
  {
    var g := a.electors(epoch);
    if epoch in a.results {
      OnlyTheTruthWins(a.log, g, epoch, truth, faulty, a.results[epoch]);
    }
    if epoch in b.results {
      OnlyTheTruthWins(b.log, g, epoch, truth, faulty, b.results[epoch]);
    }
  }

  /** Once the honest voters counted weigh more than a third, the node has decided, on the truth. */
  lemma HonestQuorumDecides(n: Node, epoch: nat, truth: nat, faulty: set<nat>, honest: set<nat>)
    requires n.Valid() && honest <= Voters(n.log, epoch, truth)
    requires WeightOf(n.electors(epoch).weights, honest) > n.electors(epoch).Total() / 3
    requires WeightOf(n.electors(epoch).weights, faulty) <= n.electors(epoch).Total() / 3
    requires HonestVotes(n.log, epoch, truth, faulty)
    ensures epoch in n.results && n.results[epoch] == truth
  {
    var g := n.electors(epoch);
    FewerWeighLess(g.weights, honest, Voters(n.log, epoch, truth));
    assert Wins(n.log, g, epoch, truth);
    OnlyTheTruthWins(n.log, g, epoch, truth, faulty, n.results[epoch]);
  }

  // ---------- what the votes received lead to ----------

  /** The validator at that position has its vote for the hash among the arrivals, and it can be counted. */
  ghost predicate Arrived(electors: nat -> Group, arrivals: seq<Arrival>, epoch: nat, hash: nat, voter: nat) {
    exists i: nat :: Countable({}, electors, arrivals, i) && BallotOf(arrivals[i].ev, electors) == Ballot(epoch, hash, voter)
  }

  ghost predicate HonestArrivals(electors: nat -> Group, arrivals: seq<Arrival>, epoch: nat, truth: nat, faulty: set<nat>) {
    forall ev | NewVote(ev) in arrivals && ev.epoch == epoch && Casts(ev, electors) && BallotOf(ev, electors).voter !in faulty ::
      ev.hash == truth
  }

  /**
   A node that starts empty and receives, in any order and among anything else, votes of
   honest validators that weigh more than a third, has decided on the truth.
   */
  method ReceivedQuorumDecides(n: Node, arrivals: seq<Arrival>, evicts: nat -> set<VoteId>,
                               ghost epoch: nat, ghost truth: nat, ghost faulty: set<nat>, ghost honest: set<nat>)
    requires n.Valid() && n.log == [] && n.stored == map[] && n.known == {} && Identified(arrivals)
    requires WeightOf(n.electors(epoch).weights, faulty) <= n.electors(epoch).Total() / 3
    requires HonestArrivals(n.electors, arrivals, epoch, truth, faulty)
    requires forall voter | voter in honest :: Arrived(n.electors, arrivals, epoch, truth, voter)
    modifies n, n.weights
    ensures n.Valid() && (epoch in n.results ==> n.results[epoch] == truth)
    ensures WeightOf(n.electors(epoch).weights, honest) > n.electors(epoch).Total() / 3 ==> epoch in n.results
  {
    n.Receive(arrivals, evicts);
    assert HonestVotes(n.log, epoch, truth, faulty);
    forall voter | voter in honest
      ensures voter in Voters(n.log, epoch, truth)
    {
      var i: nat :| Countable({}, n.electors, arrivals, i) && BallotOf(arrivals[i].ev, n.electors) == Ballot(epoch, truth, voter);
      StoredIsIt(n, arrivals, i);
    }
    if epoch in n.results {
      OnlyTheTruthWins(n.log, n.electors(epoch), epoch, truth, faulty, n.results[epoch]);
    }
    if WeightOf(n.electors(epoch).weights, honest) > n.electors(epoch).Total() / 3 {
      HonestQuorumDecides(n, epoch, truth, faulty, honest);
    }
  }

  lemma StoredIsIt(n: Node, arrivals: seq<Arrival>, i: nat)
    requires n.Valid() && Identified(arrivals) && Gained(map[], n.stored, arrivals)
    requires i < |arrivals| && arrivals[i].NewVote? && (arrivals[i].ev.epoch, arrivals[i].ev.locator) in n.stored
    ensures Casts(arrivals[i].ev, n.electors) && BallotOf(arrivals[i].ev, n.electors) in n.log
  {
    var v := n.stored[(arrivals[i].ev.epoch, arrivals[i].ev.locator)];
    var j: nat :| j < |arrivals| && arrivals[j] == NewVote(v);
    assert arrivals[j].ev.locator == arrivals[i].ev.locator;
  }

  // ---------- two voters ----------

  /** Four validators of weight one: two of them make a quorum, one does not. */
  const FOUR := Group(map[1 := 0, 2 := 1, 3 := 2, 4 := 3], [1, 1, 1, 1])

  lemma TwoOfFour()
    ensures FOUR.Valid() && FOUR.Quorum() == 2 && WeightOf(FOUR.weights, {0}) == 1 && WeightOf(FOUR.weights, {0, 1}) == 2
  {
    var w := FOUR.weights;
    assert w[..3] == [1, 1, 1] && [1, 1, 1][..2] == [1, 1] && [1, 1][..1] == [1] && [1][..0] == [];
    NobodyWeighsNothing(w);
    OneMore(w, {}, 0);
    OneMore(w, {0}, 1);
    assert {} + {0} == {0} && {0} + {1} == {0, 1};
  }

  method NodeOfFour() returns (n: Node)
    ensures fresh(n) && fresh(n.weights) && n.Valid() && n.electors(5) == FOUR
    ensures n.log == [] && n.stored == map[] && n.known == {4}
  {
    TwoOfFour();
    var weights := new VoteStore();
    n := new Node((e: nat) => FOUR, weights, 1);
    n.LearnEpoch(4);
  }

  /** The votes of two validators, in different events, decide an epoch that neither decides alone. */
  method TwoVotersDecide(hash: nat) returns (n: Node, alone: bool)
    ensures !alone && 5 in n.results && n.results[5] == hash
  {
    hide Node.Valid, Voters, WeightOf, LastKept;
    n := NodeOfFour();
    TwoOfFour();
    var r := n.ProcessEpochVote(EpochVote(5, hash, 1, 11), {}, {});
    Unanimous(n, hash, {0});
    alone := 5 in n.results;
    r := n.ProcessEpochVote(EpochVote(5, hash, 2, 22), {}, {});
    Unanimous(n, hash, {0, 1});
  }

  lemma Unanimous(n: Node, hash: nat, voters: set<nat>)
    requires n.Valid() && n.electors(5) == FOUR && WeightOf(FOUR.weights, voters) > 0
    requires forall b | b in n.log :: b.epoch == 5 && b.hash == hash && b.voter in voters
    requires forall v | v in voters :: Ballot(5, hash, v) in n.log
    ensures 5 in n.results <==> WeightOf(FOUR.weights, voters) >= 2
    ensures 5 in n.results ==> n.results[5] == hash
  {
    TwoOfFour();
    NobodyWeighsNothing(FOUR.weights);
    assert Voters(n.log, 5, hash) == voters;
    assert Wins(n.log, n.electors(5), 5, hash) <==> WeightOf(FOUR.weights, voters) >= 2;
    if 5 in n.results {
      assert Wins(n.log, n.electors(5), 5, n.results[5]);
      OneHash(n.log, hash, n.results[5]);
    }
  }

  lemma OneHash(log: seq<Ballot>, hash: nat, won: nat)
    requires (forall b | b in log :: b.hash == hash) && Wins(log, FOUR, 5, won)
    ensures won == hash
  {
    if won != hash {
      assert Voters(log, 5, won) == {};
      NobodyWeighsNothing(FOUR.weights);
    }
  }
}
