/** A node that receives batches of block votes (gossip/c_llr_callbacks.go). */
module BlockNode {
  import opened BlockVoting
  import E = EpochVoting
  import LowestIndex
  import opened Totals
  import opened VoteWeights
  import opened Words

  /** A batch of votes for consecutive blocks of one epoch, with the locator of its event. */
  datatype BlockVotes = BlockVotes(start: nat, epoch: nat, votes: seq<nat>, creator: nat, home: nat, locator: nat) {
    function LastBlock(): int {
      start + |votes| - 1
    }

    function CastAt(i: nat): Cast
      requires i < |votes|
    {
      Cast(VoteId(start + i, epoch, votes[i]), creator, home)
    }

    function Casts(n: nat): (log: seq<Cast>)
      requires n <= |votes|
      ensures |log| == n && forall i | 0 <= i < n :: log[i] == CastAt(i)
    {
      seq(n, i requires 0 <= i < n => CastAt(i))
    }

    /** What identifies a stored batch. */
    function Key(): (nat, int, nat) {
      (epoch, LastBlock(), locator)
    }

    ghost predicate CountsIn(h: History) {
      votes != [] && creator in h.groups(home).index
    }

    /** What the checks before processing let through. */
    ghost predicate Checked(h: History) {
      && epoch <= home && creator in h.groups(epoch).index
      && forall block: nat | start <= block < start + |votes| :: h.Possible(block, epoch)
    }
  }

  type Stored = map<(nat, int, nat), BlockVotes>

  datatype News = NewVotes(bvs: BlockVotes) | NewGroup(epoch: nat)

  /** Every batch stored has been counted. */
  ghost predicate BatchesCounted(stored: Stored, h: History, log: seq<Cast>) {
    forall key | key in stored :: stored[key].Key() == key && stored[key].CountsIn(h) && InLog(stored[key], log)
  }

  ghost predicate InLog(bvs: BlockVotes, log: seq<Cast>) {
    forall i | 0 <= i < |bvs.votes| :: bvs.CastAt(i) in log
  }

  lemma BatchCounted(stored: Stored, h: History, log: seq<Cast>, bvs: BlockVotes)
    requires BatchesCounted(stored, h, log) && bvs.CountsIn(h)
    ensures BatchesCounted(stored[bvs.Key() := bvs], h, log + bvs.Casts(|bvs.votes|))
  {
    var more := bvs.Casts(|bvs.votes|);
    assert InLog(bvs, log + more) by {
      forall i | 0 <= i < |bvs.votes|
        ensures bvs.CastAt(i) in log + more
      {
        assert more[i] in more;
      }
    }
    forall key | key in stored
      ensures InLog(stored[key], log + more)
    {
      assert InLog(stored[key], log);
    }
  }

  lemma StillCounted(stored: Stored, h: History, log: seq<Cast>, more: seq<Cast>)
    requires BatchesCounted(stored, h, log)
    ensures BatchesCounted(stored, h, log + more)
  {
    forall key | key in stored
      ensures InLog(stored[key], log + more)
    {
      assert InLog(stored[key], log);
    }
  }

  /** Some vote had no bit. */
  ghost predicate Breaks(log: seq<Cast>, h: History) {
    Admissible(log, h) && !Fits(log, h)
  }

  class Node {
    const history: History
    const weights: VoteStore
    const first: nat
    /** The epochs whose state is in the history. */
    var known: set<nat>
    var results: map<nat, nat>
    var lowestToDecide: nat
    var stored: Stored
    var lastVotes: map<nat, nat>
    /** The votes counted so far. */
    ghost var log: seq<Cast>

    ghost predicate ValidLog()
      reads this`log, weights
    {
      && history.Valid() && weights.Valid() && Admissible(log, history) && Fits(log, history)
      && forall id: VoteId :: weights.Votes(id) == TallyOf(log, history, id)
    }

    ghost predicate ValidResults()
      reads this`log, this`results, this`lowestToDecide
    {
      && Admissible(log, history) && results == ResultsOf(log, history)
      && LowestIndex.LeastMissing(results.Keys, first, lowestToDecide)
    }

    ghost predicate Valid()
      reads this, weights
    {
      ValidLog() && ValidResults() && BatchesCounted(stored, history, log)
    }

    constructor (history: History, weights: VoteStore, first: nat)
      requires history.Valid() && weights.Valid() && forall id: VoteId :: weights.Votes(id) == NOBODY
      ensures Valid() && log == [] && results == map[] && stored == map[] && known == {}
      ensures this.history == history && this.weights == weights
    {
      this.history, this.weights, this.first := history, weights, first;
      known, results, lowestToDecide, stored, lastVotes, log := {}, map[], first, map[], map[], [];
    }

    /** One vote: tallied, and a result as soon as a hash reaches the quorum; false if it has no bit. */
    method ProcessBlockVote(c: Cast, loadEvicts: set<VoteId>, saveEvicts: set<VoteId>) returns (ok: bool)
      requires ValidLog() && ValidResults() && c.creator in history.groups(c.home).index
      modifies this`results, this`lowestToDecide, this`log, weights
      ensures ValidLog() && ValidResults() && log == if ok then old(log) + [c] else old(log)
      ensures Admissible(old(log) + [c], history) && (ok <==> Fits(old(log) + [c], history))
    {
      OneMoreCast(log, history, c);
      var g := history.groups(c.home);
      var i := g.index[c.creator];
      AtMostSum(g.weights, i);
      var weight := weights.AddVoteWeight(c.id, i, |g.weights|, g.weights[i], loadEvicts, saveEvicts);
      ok := weight.Some?;
      if ok {
        log := log + [c];
        if weight.value >= g.Quorum() && c.id.block !in results {
          Decide(c.id.block, c.id.hash);
        }
      }
    }

    method Decide(block: nat, hash: nat)
      requires LowestIndex.LeastMissing(results.Keys, first, lowestToDecide)
      modifies this`results, this`lowestToDecide
      ensures results == old(results)[block := hash] && LowestIndex.LeastMissing(results.Keys, first, lowestToDecide)
    {
      ghost var decided, marker := results.Keys, lowestToDecide;
      results := results[block := hash];
      assert results.Keys == decided + {block};
      lowestToDecide := LowestIndex.Actualize(lowestToDecide, block, results.Keys);
      LowestIndex.DecidingKeepsMarker(decided, first, marker, block, lowestToDecide);
    }

    /** The votes of a batch in order, up to one that has no bit. */
    method CountBatch(bvs: BlockVotes, evicts: nat -> set<VoteId>) returns (ok: bool, ghost n: nat)
      requires ValidLog() && ValidResults() && bvs.CountsIn(history)
      modifies this`results, this`lowestToDecide, this`log, weights
      ensures ValidLog() && ValidResults() && n <= |bvs.votes| && log == old(log) + bvs.Casts(n)
      ensures if ok then n == |bvs.votes| else n < |bvs.votes| && Breaks(old(log) + bvs.Casts(n + 1), history)
    {
      hide ValidLog, ValidResults, Fits, Admissible;
      n := 0;
      var b, i := bvs.start, 0;
      while i < |bvs.votes|
        invariant n == i <= |bvs.votes| && b == bvs.start + i
        invariant ValidLog() && ValidResults() && log == old(log) + bvs.Casts(n)
      {
        assert bvs.Casts(i + 1) == bvs.Casts(i) + [bvs.CastAt(i)];
        assert old(log) + bvs.Casts(i + 1) == log + [bvs.CastAt(i)];
        ok := ProcessBlockVote(Cast(VoteId(b, bvs.epoch, bvs.votes[i]), bvs.creator, bvs.home), evicts(2 * i), evicts(2 * i + 1));
        if !ok {
          return;
        }
        b, i, n := b + 1, i + 1, n + 1;
      }
      ok := true;
    }

    /**
     A batch from the network: every vote counted in order, or refused with the state unchanged;
     it panics exactly at the first vote that has no bit in its bitmap.
     */
    method ProcessBlockVotes(bvs: BlockVotes, evicts: nat -> set<VoteId>) returns (r: E.Outcome, ghost n: nat)
      requires Valid()
      modifies this`results, this`lowestToDecide, this`log, this`stored, this`lastVotes, weights
      ensures Valid() && n <= |bvs.votes| && log == old(log) + bvs.Casts(n)
      ensures r == E.Skipped <==> bvs.votes == []
      ensures r == E.AlreadyProcessed <==> bvs.votes != [] && (bvs.epoch, bvs.start + |bvs.votes| - 1, bvs.locator) in old(stored)
      ensures r == E.UnknownEpoch <==>
        bvs.votes != [] && (bvs.epoch, bvs.start + |bvs.votes| - 1, bvs.locator) !in old(stored) && bvs.home !in known
      ensures r == E.ValidatorNotExist <==>
        && bvs.votes != [] && (bvs.epoch, bvs.start + |bvs.votes| - 1, bvs.locator) !in old(stored) && bvs.home in known
        && bvs.creator !in history.groups(bvs.home).index
      ensures r == E.Done || r == E.Panicked ==> bvs.CountsIn(history)
      ensures r == E.Panicked ==> n < |bvs.votes| && Breaks(old(log) + bvs.Casts(n + 1), history)
      ensures r == E.Done ==>
        && n == |bvs.votes| && stored == old(stored)[(bvs.epoch, bvs.start + |bvs.votes| - 1, bvs.locator) := bvs]
        && (bvs.start + |bvs.votes| > 1 ==> E.LastKept(old(lastVotes), lastVotes, bvs.creator, bvs.start + |bvs.votes| - 1))
        && (bvs.start + |bvs.votes| == 1 ==> lastVotes == old(lastVotes))
      ensures r != E.Done ==> stored == old(stored) && lastVotes == old(lastVotes)
      ensures r != E.Done && r != E.Panicked ==> n == 0 && results == old(results) && lowestToDecide == old(lowestToDecide)
    {
      hide ValidLog, ValidResults, Fits, BatchesCounted, Admissible;
      n := 0;
      if bvs.votes == [] {
        return E.Skipped, 0;
      }
      if bvs.Key() in stored {
        return E.AlreadyProcessed, 0;
      }
      if bvs.home !in known {
        return E.UnknownEpoch, 0;
      }
      if bvs.creator !in history.groups(bvs.home).index {
        return E.ValidatorNotExist, 0;
      }
      var ok;
      ok, n := CountBatch(bvs, evicts);
      if !ok {
        StillCounted(stored, history, old(log), bvs.Casts(n));
        return E.Panicked, n;
      }
      BatchCounted(stored, history, old(log), bvs);
      stored := stored[bvs.Key() := bvs];
      if bvs.LastBlock() > if bvs.creator in lastVotes then lastVotes[bvs.creator] else 0 {
        lastVotes := lastVotes[bvs.creator := bvs.LastBlock()];
      }
      return E.Done, n;
    }

    /** What holds after the first k pieces of news, in terms of the node before them. */
    ghost predicate Midway(log0: seq<Cast>, stored0: Stored, last0: map<nat, nat>, known0: set<nat>, news: seq<News>, k: nat)
      requires history.Valid() && k <= |news|
      reads this
    {
      && log0 <= log && known == KnownAfter(known0, news, k) && CaughtUp(known0, history, news, k, stored)
      && Gained(stored0, stored, news) && OnlyFrom(log0, log, news) && E.NeverDown(last0, lastVotes)
      && (AllChecked(news, history) && AllCastable(log0, history) ==> AllCastable(log, history))
    }

    method ReceiveVotes(news: seq<News>, k: nat, evict: nat -> set<VoteId>, ghost log0: seq<Cast>, ghost stored0: Stored,
                        ghost last0: map<nat, nat>, ghost known0: set<nat>) returns (ok: bool)
      requires Valid() && k < |news| && news[k].NewVotes? && Midway(log0, stored0, last0, known0, news, k)
      modifies this`results, this`lowestToDecide, this`log, this`stored, this`lastVotes, weights
      ensures Valid() && log0 <= log && Admissible(log, history) && results == ResultsOf(log, history)
      ensures Gained(stored0, stored, news) && OnlyFrom(log0, log, news) && E.NeverDown(last0, lastVotes)
      ensures ok ==> Midway(log0, stored0, last0, known0, news, k + 1)
      ensures !ok ==> Stuck(log, news, history) && !(Roomy(history) && AllChecked(news, history) && AllCastable(log0, history))
    {
      hide Fits, ResultsOf, ValidLog, ValidResults, BatchesCounted, Roomy, AllCastable, AllChecked, Gained, OnlyFrom, KnownAfter,
        Breaks, Admissible, CaughtUp, Countable, Stuck, E.LastKept, E.NeverDown;
      var bvs := news[k].bvs;
      assert news[k] in news;
      KnownStep(known0, news, k);
      Basics();
      ghost var before, kept, last := log, stored, lastVotes;
      var r, n := ProcessBlockVotes(bvs, evict);
      Basics();
      OnlyFromStep(log0, before, news, bvs, n);
      NoSurprise(before, history, news, bvs, r, n);
      GainedStep(stored0, kept, news, bvs);
      if r == E.Done && bvs.start + |bvs.votes| > 1 {
        E.KeptIsUp(last0, last, lastVotes, bvs.creator, bvs.start + |bvs.votes| - 1);
      }
      if r == E.Panicked {
        IsStuck(before, history, news, bvs, n);
        return false;
      }
      CaughtBatch(known0, history, news, k, kept, stored, known);
      ok := true;
    }

    /**
     A whole history, in the order things arrive, up to a panic.  Every batch that can be counted
     is stored, and so counted, and nothing else is; there is no panic if the groups leave room.
     */
    method Receive(news: seq<News>, evicts: nat -> nat -> set<VoteId>) returns (ok: bool)
      requires Valid()
      modifies this, weights
      ensures Valid() && old(log) <= log
      ensures ok ==> forall i: nat | Countable(old(known), history, news, i) :: news[i].bvs.Key() in stored
      ensures Gained(old(stored), stored, news) && OnlyFrom(old(log), log, news)
      ensures forall n | n in old(results) :: n in results && results[n] == old(results)[n]
      ensures E.NeverDown(old(lastVotes), lastVotes)
      ensures !ok ==> Stuck(log, news, history)
      ensures Roomy(history) && AllChecked(news, history) && AllCastable(old(log), history) ==> ok
    {
      hide Fits, ResultsOf, ValidLog, ValidResults, BatchesCounted, Roomy, AllCastable, AllChecked, Gained, OnlyFrom, KnownAfter,
        Breaks, Admissible, CaughtUp, Countable, Stuck, E.LastKept, E.NeverDown;
      Basics();
      Starts(known, stored, log, news, history, lastVotes);
      for k := 0 to |news|
        invariant Valid() && Midway(old(log), old(stored), old(lastVotes), old(known), news, k)
      {
        match news[k]
        case NewVotes(bvs) =>
          var r := ReceiveVotes(news, k, evicts(k), old(log), old(stored), old(lastVotes), old(known));
          if !r {
            SameResults(old(log), log, history);
            return false;
          }
        case NewGroup(epoch) =>
          KnownStep(old(known), news, k);
          known := known + {epoch};
          CaughtGroup(old(known), history, news, k, stored);
      }
      Basics();
      AllCaughtUp(old(known), history, news, stored);
      SameResults(old(log), log, history);
      ok := true;
    }

    lemma Basics()
      requires Valid()
      ensures history.Valid() && Admissible(log, history) && results == ResultsOf(log, history)
    {
    }
  }

  lemma Starts(known: set<nat>, stored: Stored, log: seq<Cast>, news: seq<News>, h: History, last: map<nat, nat>)
    ensures E.NeverDown(last, last)
    ensures CaughtUp(known, h, news, 0, stored)
    ensures KnownAfter(known, news, 0) == known && Gained(stored, stored, news) && OnlyFrom(log, log, news)
  {
  }

  lemma SameResults(before: seq<Cast>, after: seq<Cast>, h: History)
    requires Admissible(after, h) && before <= after
    ensures Admissible(before, h)
    ensures forall n | n in ResultsOf(before, h) :: n in ResultsOf(after, h) && ResultsOf(after, h)[n] == ResultsOf(before, h)[n]
  {
    assert after == before + after[|before|..];
    ResultsStay(before, after[|before|..], h);
  }

  /** Checked batches leave the log castable, and do not panic if the groups leave room. */
  lemma NoSurprise(log: seq<Cast>, h: History, news: seq<News>, bvs: BlockVotes, r: E.Outcome, n: nat)
    requires h.Valid() && NewVotes(bvs) in news && n <= |bvs.votes| && (n > 0 || r == E.Panicked ==> bvs.CountsIn(h))
    requires r == E.Panicked ==> n < |bvs.votes| && Breaks(log + bvs.Casts(n + 1), h)
    ensures AllChecked(news, h) && AllCastable(log, h) ==> AllCastable(log + bvs.Casts(n), h) && (Roomy(h) ==> r != E.Panicked)
  {
    hide Fits, Roomy;
    if AllChecked(news, h) && AllCastable(log, h) {
      assert bvs.Checked(h);
      if r == E.Panicked {
        BatchCastable(log, h, bvs, n + 1);
        if Roomy(h) { RoomyFits(log + bvs.Casts(n + 1), h); }
      }
      BatchCastable(log, h, bvs, n);
    }
  }

  ghost function KnownAfter(known: set<nat>, news: seq<News>, n: nat): set<nat>
    requires n <= |news|
  {
    known + set i: nat | i < n && news[i].NewGroup? :: news[i].epoch
  }

  lemma KnownStep(known: set<nat>, news: seq<News>, n: nat)
    requires n < |news|
    ensures KnownAfter(known, news, n + 1) == KnownAfter(known, news, n) + if news[n].NewGroup? then {news[n].epoch} else {}
  {
  }

  /** The i-th arrival is a batch of an existing validator, and the epoch of its event is known by then. */
  ghost predicate Countable(known: set<nat>, h: History, news: seq<News>, i: nat) {
    && i < |news| && news[i].NewVotes? && news[i].bvs.CountsIn(h) && news[i].bvs.home in KnownAfter(known, news, i)
  }

  /** The first k arrivals have been dealt with. */
  ghost predicate CaughtUp(known: set<nat>, h: History, news: seq<News>, k: nat, stored: Stored) {
    forall i: nat | i < k && Countable(known, h, news, i) :: news[i].bvs.Key() in stored
  }

  lemma CaughtBatch(known0: set<nat>, h: History, news: seq<News>, k: nat, before: Stored, stored: Stored, known: set<nat>)
    requires k < |news| && CaughtUp(known0, h, news, k, before) && known == KnownAfter(known0, news, k)
    requires news[k].NewVotes? && (forall key | key in before :: key in stored)
    requires news[k].bvs.CountsIn(h) && news[k].bvs.home in known ==> news[k].bvs.Key() in stored
    ensures CaughtUp(known0, h, news, k + 1, stored)
  {
    hide KnownAfter;
  }

  lemma CaughtGroup(known0: set<nat>, h: History, news: seq<News>, k: nat, stored: Stored)
    requires k < |news| && CaughtUp(known0, h, news, k, stored) && news[k].NewGroup?
    ensures CaughtUp(known0, h, news, k + 1, stored)
  {
    hide KnownAfter;
  }

  lemma AllCaughtUp(known: set<nat>, h: History, news: seq<News>, stored: Stored)
    requires CaughtUp(known, h, news, |news|, stored)
    ensures forall i: nat | Countable(known, h, news, i) :: news[i].bvs.Key() in stored
  {
    hide KnownAfter;
  }

  ghost predicate AllChecked(news: seq<News>, h: History) {
    forall bvs | NewVotes(bvs) in news :: bvs.Checked(h)
  }

  /** Stored batches stay, and new ones are among the arrivals. */
  ghost predicate Gained(before: Stored, after: Stored, news: seq<News>) {
    && (forall key | key in before :: key in after && after[key] == before[key])
    && (forall key | key in after && key !in before :: NewVotes(after[key]) in news)
  }

  lemma GainedStep(before: Stored, stored: Stored, news: seq<News>, bvs: BlockVotes)
    requires Gained(before, stored, news) && NewVotes(bvs) in news
    ensures bvs.Key() !in stored ==> Gained(before, stored[bvs.Key() := bvs], news)
  {
  }

  ghost predicate CastBy(bvs: BlockVotes, c: Cast) {
    exists i :: 0 <= i < |bvs.votes| && c == bvs.CastAt(i)
  }

  ghost predicate OnlyFrom(before: seq<Cast>, after: seq<Cast>, news: seq<News>) {
    forall c | c in after :: c in before || exists bvs :: NewVotes(bvs) in news && CastBy(bvs, c)
  }

  lemma OnlyFromStep(start: seq<Cast>, log: seq<Cast>, news: seq<News>, bvs: BlockVotes, n: nat)
    requires OnlyFrom(start, log, news) && NewVotes(bvs) in news && n <= |bvs.votes|
    ensures OnlyFrom(start, log + bvs.Casts(n), news)
  {
    forall c | c in bvs.Casts(n)
      ensures CastBy(bvs, c)
    {
    }
  }

  /** A vote among the news comes next and has no bit. */
  ghost predicate Stuck(log: seq<Cast>, news: seq<News>, h: History) {
    exists bvs, i: nat :: NewVotes(bvs) in news && i < |bvs.votes| && Breaks(log + [bvs.CastAt(i)], h)
  }

  lemma IsStuck(log: seq<Cast>, h: History, news: seq<News>, bvs: BlockVotes, n: nat)
    requires NewVotes(bvs) in news && n < |bvs.votes| && Breaks(log + bvs.Casts(n + 1), h)
    ensures Stuck(log + bvs.Casts(n), news, h)
  {
    assert log + bvs.Casts(n + 1) == log + bvs.Casts(n) + [bvs.CastAt(n)];
  }

  lemma BatchCastable(log: seq<Cast>, h: History, bvs: BlockVotes, n: nat)
    requires h.Valid() && bvs.Checked(h) && AllCastable(log, h) && n <= |bvs.votes| && (n > 0 ==> bvs.CountsIn(h))
    ensures AllCastable(log + bvs.Casts(n), h)
  {
    forall c | c in bvs.Casts(n)
      ensures Castable(c, h)
    {
    }
  }

  // ---------- agreement ----------

  /** Nodes that received votes in any order decide only the true record of a block. */
  lemma BlockAgreement(a: Node, b: Node, block: nat, truth: nat, faulty: set<nat>)
    requires a.Valid() && b.Valid() && a.history == b.history && forall e: nat :: Minority(a.history.groups(e), faulty)
    requires OneGroup(a.log, a.history, block) && Honest(a.log, block, truth, faulty)
    requires OneGroup(b.log, b.history, block) && Honest(b.log, block, truth, faulty)
    ensures block in a.results ==> a.results[block] == truth
    ensures block in b.results ==> b.results[block] == truth
  {
    OnlyTheTruth(a.log, a.history, block, truth, faulty);
    OnlyTheTruth(b.log, b.history, block, truth, faulty);
  }

  /** So they do whenever faulty validators cannot outweigh a quorum across epochs, which is exactly when no votes lead astray. */
  lemma BlockAgreementIfSafe(a: Node, b: Node, block: nat, truth: nat, faulty: set<nat>)
    requires a.Valid() && b.Valid() && a.history == b.history
    requires forall k: nat | a.history.Possible(block, k) :: !CanDecide(a.history, k, faulty)
    requires AllCastable(a.log, a.history) && Honest(a.log, block, truth, faulty)
    requires AllCastable(b.log, b.history) && Honest(b.log, block, truth, faulty)
    ensures block in a.results ==> a.results[block] == truth
    ensures block in b.results ==> b.results[block] == truth
  {
    SafeResult(a, block, truth, faulty);
    SafeResult(b, block, truth, faulty);
  }

  lemma SafeResult(a: Node, block: nat, truth: nat, faulty: set<nat>)
    requires a.Valid() && forall k: nat | a.history.Possible(block, k) :: !CanDecide(a.history, k, faulty)
    requires AllCastable(a.log, a.history) && Honest(a.log, block, truth, faulty)
    ensures block in a.results ==> a.results[block] == truth
  {
    hide CanDecide, Honest, AllCastable;
    if block in a.results && a.results[block] != truth {
      assert LeadsTo(a.log, a.history, faulty, block, truth, a.results[block]);
      WrongReachableIff(a.history, faulty, block, truth, a.results[block]);
    }
  }

  // ---------- what the votes received lead to ----------

  /** A locator stands for one batch, as it contains a hash of it. */
  ghost predicate Identified(news: seq<News>) {
    forall i, j | 0 <= i < |news| && 0 <= j < |news| && news[i].NewVotes? && news[j].NewVotes? ::
      news[i].bvs.locator == news[j].bvs.locator ==> news[i].bvs == news[j].bvs
  }

  /** A batch of the validator with the vote is among the news, and it can be counted. */
  ghost predicate Arrived(h: History, news: seq<News>, id: VoteId, v: nat) {
    exists i: nat :: Countable({}, h, news, i) && news[i].bvs.creator == v && VotesFor(news[i].bvs, id)
  }

  ghost predicate VotesFor(bvs: BlockVotes, id: VoteId) {
    bvs.epoch == id.epoch && bvs.start <= id.block < bvs.start + |bvs.votes| && bvs.votes[id.block - bvs.start] == id.hash
  }

  /** The vote of the batch on the block, if it has one, comes from the group of the block's epoch. */
  ghost predicate OneGroupNews(h: History, news: seq<News>, block: nat) {
    forall bvs | NewVotes(bvs) in news && bvs.start <= block < bvs.start + |bvs.votes| :: h.groups(bvs.home) == h.groups(bvs.epoch)
  }

  ghost predicate HonestNews(news: seq<News>, block: nat, truth: nat, faulty: set<nat>) {
    forall bvs | NewVotes(bvs) in news && bvs.start <= block < bvs.start + |bvs.votes| && bvs.creator !in faulty ::
      bvs.votes[block - bvs.start] == truth
  }

  /**
   A node that starts empty and receives, in any order and among anything else, the votes of
   honest validators that weigh more than a third, has decided on the truth.
   */
  method ReceivedQuorumDecides(n: Node, news: seq<News>, evicts: nat -> nat -> set<VoteId>, ghost id: VoteId, ghost faulty: set<nat>,
                               ghost honest: set<nat>) returns (ok: bool)
    requires n.Valid() && n.log == [] && n.stored == map[] && n.known == {} && Identified(news)
    requires OneGroupNews(n.history, news, id.block) && HonestNews(news, id.block, id.hash, faulty)
    requires forall e: nat :: Minority(n.history.groups(e), faulty)
    requires forall v | v in honest :: Arrived(n.history, news, id, v)
    modifies n, n.weights
    ensures n.Valid() && (Roomy(n.history) && AllChecked(news, n.history) ==> ok)
    ensures id.block in n.results ==> n.results[id.block] == id.hash
    ensures var g := n.history.groups(id.epoch);
      ok && E.WeightOf(g.weights, PositionsOf(g, honest)) > g.Total() / 3 ==> id.block in n.results
  {
    hide Fits, TallyOf, ResultsOf, LowestIndex.LeastMissing, Roomy, Minority, AllCastable;
    NothingCastable(n.history);
    ok := n.Receive(news, evicts);
    FromNews(n.log, n.history, news, id, faulty);
    OnlyTheTruth(n.log, n.history, id.block, id.hash, faulty);
    if ok {
      forall v | v in honest
        ensures v in Backers(n.log, id)
      {
        var i: nat :| Countable({}, n.history, news, i) && news[i].bvs.creator == v && VotesFor(news[i].bvs, id);
        StoredIsIt(n, news, i, id);
      }
      BackedDecides(n.log, n.history, id, honest);
    }
  }

  lemma NothingCastable(h: History)
    ensures AllCastable([], h)
  {
  }

  lemma FromNews(log: seq<Cast>, h: History, news: seq<News>, id: VoteId, faulty: set<nat>)
    requires OnlyFrom([], log, news) && OneGroupNews(h, news, id.block) && HonestNews(news, id.block, id.hash, faulty)
    ensures OneGroup(log, h, id.block) && Honest(log, id.block, id.hash, faulty)
  {
    forall c | c in log && c.id.block == id.block
      ensures h.groups(c.home) == h.groups(c.id.epoch) && (c.creator !in faulty ==> c.id.hash == id.hash)
    {
      var bvs :| NewVotes(bvs) in news && CastBy(bvs, c);
    }
  }

  lemma StoredIsIt(n: Node, news: seq<News>, i: nat, id: VoteId)
    requires n.Valid() && Identified(news) && Gained(map[], n.stored, news)
    requires i < |news| && news[i].NewVotes? && news[i].bvs.Key() in n.stored && VotesFor(news[i].bvs, id)
    ensures news[i].bvs.creator in Backers(n.log, id)
  {
    hide Node.ValidLog, Node.ValidResults;
    var bvs := news[i].bvs;
    var j: nat :| j < |news| && news[j] == NewVotes(n.stored[bvs.Key()]);
    assert news[j].bvs.locator == bvs.locator;
    assert InLog(bvs, n.log);
    assert bvs.CastAt(id.block - bvs.start) in n.log;
  }

  lemma BackedDecides(log: seq<Cast>, h: History, id: VoteId, honest: set<nat>)
    requires h.Valid() && Admissible(log, h) && OneGroup(log, h, id.block) && honest <= Backers(log, id)
    ensures var g := h.groups(id.epoch);
      E.WeightOf(g.weights, PositionsOf(g, honest)) > g.Total() / 3 ==> id.block in ResultsOf(log, h)
  {
    var g := h.groups(id.epoch);
    assert PositionsOf(g, honest) <= PositionsOf(g, Backers(log, id));
    E.FewerWeighLess(g.weights, PositionsOf(g, honest), PositionsOf(g, Backers(log, id)));
    if E.WeightOf(g.weights, PositionsOf(g, honest)) > g.Total() / 3 { QuorumDecides(log, h, id); }
  }
}
