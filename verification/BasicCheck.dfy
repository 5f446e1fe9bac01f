/**
 The checks of LLR votes and misbehaviour proofs that need nothing but the event
 (eventcheck/basiccheck/basic_check.go), beside a plain statement of what a proof proves.
 */
module BasicCheck {
  import opened Common

  const MAX_BLOCK_VOTES_PER_EVENT := 64
  const MAX_LIABLE_EPOCHS := 32768
  const MAX_INT32 := 0x7FFF_FFFF
  const MAX_INT64 := 0x7FFF_FFFF_FFFF_FFFF
  const ZERO_HASH := 0

  datatype Locator = Locator(netForkId: nat, epoch: nat, sequence: nat, lamport: nat, creator: nat, payload: nat)

  datatype BlockVotes = BlockVotes(start: nat, epoch: nat, votes: seq<nat>) {
    predicate Covers(block: nat) {
      start <= block < start + |votes|
    }
  }

  datatype EpochVote = EpochVote(epoch: nat, vote: nat)

  datatype SignedBlockVotes = SignedBlockVotes(locator: Locator, val: BlockVotes)
  datatype SignedEpochVote = SignedEpochVote(locator: Locator, val: EpochVote)

  datatype EventsDoublesign = EventsDoublesign(a: Locator, b: Locator)
  datatype BlockVoteDoublesign = BlockVoteDoublesign(block: nat, a: SignedBlockVotes, b: SignedBlockVotes)
  datatype WrongBlockVote = WrongBlockVote(block: nat, pals: seq<SignedBlockVotes>, wrongEpoch: bool)
  datatype EpochVoteDoublesign = EpochVoteDoublesign(a: SignedEpochVote, b: SignedEpochVote)
  datatype WrongEpochVote = WrongEpochVote(pals: seq<SignedEpochVote>)

  datatype MisbehaviourProof = MisbehaviourProof(
    events: Option<EventsDoublesign>,
    blockVotes: Option<BlockVoteDoublesign>,
    wrongBlock: Option<WrongBlockVote>,
    epochVotes: Option<EpochVoteDoublesign>,
    wrongEpoch: Option<WrongEpochVote>)

  datatype Error =
    | WrongNetForkID | HugeValue | FutureBVsEpoch | FutureEVEpoch | MalformedBVs | MalformedEV | TooManyBVs
    | EmptyBVs | EmptyEV | WrongCreatorMP | NoCrimeInMP | MPTooLate | WrongMP | MalformedMP

  datatype Check = Pass | Fail(error: Error)

  // ---------- what is acceptable, and what is a crime ----------

  ghost predicate GoodLocator(l: Locator) {
    l.netForkId == 0 && l.sequence < MAX_INT32 - 1 && l.epoch < MAX_INT32 - 1 && l.lamport < MAX_INT32 - 1
  }

  /** Signed block votes that can be held against their creator. */
  ghost predicate GoodBVs(s: SignedBlockVotes) {
    && GoodLocator(s.locator)
    && 0 < s.val.epoch <= s.locator.epoch
    && 0 < s.val.start < MAX_INT64 / 2
    && 0 < |s.val.votes| <= MAX_BLOCK_VOTES_PER_EVENT
  }

  ghost predicate GoodEV(s: SignedEpochVote) {
    GoodLocator(s.locator) && 0 < s.val.epoch <= s.locator.epoch && s.val.vote != ZERO_HASH
  }

  ghost predicate Liable(msgEpoch: nat, epoch: nat) {
    msgEpoch <= epoch + MAX_LIABLE_EPOCHS
  }

  /** Two events of one validator with the same sequence number. */
  ghost predicate ForkedEvents(msgEpoch: nat, p: EventsDoublesign) {
    && GoodLocator(p.a) && GoodLocator(p.b) && p.a != p.b && Liable(msgEpoch, p.a.epoch)
    && p.a.creator == p.b.creator && p.a.epoch == p.b.epoch && p.a.sequence == p.b.sequence
  }

  function VoteFor(v: BlockVotes, block: nat): nat
    requires v.Covers(block)
  {
    v.votes[block - v.start]
  }

  /** Two different votes of one validator on the same block. */
  ghost predicate ForkedBlockVotes(msgEpoch: nat, p: BlockVoteDoublesign) {
    && GoodBVs(p.a) && GoodBVs(p.b) && p.a.locator.creator == p.b.locator.creator
    && p.a.val.Covers(p.block) && p.b.val.Covers(p.block)
    && (VoteFor(p.a.val, p.block) != VoteFor(p.b.val, p.block) || p.a.val.epoch != p.b.val.epoch)
    && Liable(msgEpoch, p.a.val.epoch) && Liable(msgEpoch, p.b.val.epoch)
  }

  /** Two different votes of one validator on the same epoch. */
  ghost predicate ForkedEpochVotes(msgEpoch: nat, p: EpochVoteDoublesign) {
    && GoodEV(p.a) && GoodEV(p.b) && p.a.locator.creator == p.b.locator.creator
    && p.a.val.epoch == p.b.val.epoch && p.a.val.vote != p.b.val.vote && Liable(msgEpoch, p.a.val.epoch)
  }

  /** Different validators that cast the same vote on a block, or voted under the same epoch. */
  ghost predicate Accomplices(msgEpoch: nat, p: WrongBlockVote) {
    && (forall i | 0 <= i < |p.pals| :: GoodBVs(p.pals[i]) && p.pals[i].val.Covers(p.block) && Liable(msgEpoch, p.pals[i].val.epoch))
    && (forall i, j | 0 <= i < j < |p.pals| :: p.pals[i].locator.creator != p.pals[j].locator.creator)
    && (forall i, j | 0 <= i < j < |p.pals| ::
      if p.wrongEpoch then p.pals[i].val.epoch == p.pals[j].val.epoch
      else VoteFor(p.pals[i].val, p.block) == VoteFor(p.pals[j].val, p.block))
  }

  ghost predicate EpochAccomplices(msgEpoch: nat, p: WrongEpochVote) {
    && (forall i | 0 <= i < |p.pals| :: GoodEV(p.pals[i]) && Liable(msgEpoch, p.pals[i].val.epoch))
    && (forall i, j | 0 <= i < j < |p.pals| :: p.pals[i].locator.creator != p.pals[j].locator.creator)
    && (forall i, j | 0 <= i < j < |p.pals| :: p.pals[i].val == p.pals[j].val)
  }

  function Count<T>(o: Option<T>): nat {
    if o.Some? then 1 else 0
  }

  function Accusations(mp: MisbehaviourProof): nat {
    Count(mp.events) + Count(mp.blockVotes) + Count(mp.wrongBlock) + Count(mp.epochVotes) + Count(mp.wrongEpoch)
  }

  /** The proof makes one accusation, and it holds. */
  ghost predicate Punishable(msgEpoch: nat, mp: MisbehaviourProof) {
    Accusations(mp) == 1 && AllHold(msgEpoch, mp)
  }

  ghost predicate AllHold(msgEpoch: nat, mp: MisbehaviourProof) {
    && (mp.events.Some? ==> ForkedEvents(msgEpoch, mp.events.value))
    && (mp.blockVotes.Some? ==> ForkedBlockVotes(msgEpoch, mp.blockVotes.value))
    && (mp.wrongBlock.Some? ==> Accomplices(msgEpoch, mp.wrongBlock.value))
    && (mp.epochVotes.Some? ==> ForkedEpochVotes(msgEpoch, mp.epochVotes.value))
    && (mp.wrongEpoch.Some? ==> EpochAccomplices(msgEpoch, mp.wrongEpoch.value))
  }

  // ---------- the checks ----------

  function ValidateEventLocator(l: Locator): (c: Check)
    ensures c.Pass? <==> GoodLocator(l)
  {
    if l.netForkId != 0 then Fail(WrongNetForkID)
    else if l.sequence >= MAX_INT32 - 1 || l.epoch >= MAX_INT32 - 1 || l.lamport >= MAX_INT32 - 1 then Fail(HugeValue)
    else Pass
  }

  /** No votes at all, or some in a group of one epoch that has begun. */
  function ValidateVotes(eventEpoch: nat, v: BlockVotes, greedy: bool): (c: Check)
    ensures c.Pass? <==>
      || (!greedy && v.start == 0 && v.epoch == 0 && v.votes == [])
      || (&& 0 < v.epoch <= eventEpoch && v.epoch < MAX_INT32 - 1 && 0 < v.start < MAX_INT64 / 2
          && 0 < |v.votes| <= MAX_BLOCK_VOTES_PER_EVENT)
  {
    if v.epoch > eventEpoch then Fail(FutureBVsEpoch)
    else if v.start >= MAX_INT64 / 2 then Fail(HugeValue)
    else if v.epoch >= MAX_INT32 - 1 then Fail(HugeValue)
    else if |v.votes| > MAX_BLOCK_VOTES_PER_EVENT then Fail(TooManyBVs)
    else if (v.start == 0) != (|v.votes| == 0) || (v.start == 0) != (v.epoch == 0) then Fail(MalformedBVs)
    else if greedy && v.epoch == 0 then Fail(EmptyBVs)
    else Pass
  }

  function ValidateVote(eventEpoch: nat, v: EpochVote, greedy: bool): (c: Check)
    ensures c.Pass? <==>
      || (!greedy && v.epoch == 0 && v.vote == ZERO_HASH)
      || (0 < v.epoch <= eventEpoch && v.epoch < MAX_INT32 - 1 && v.vote != ZERO_HASH)
  {
    if v.epoch > eventEpoch then Fail(FutureEVEpoch)
    else if (v.epoch == 0) != (v.vote == ZERO_HASH) then Fail(MalformedEV)
    else if v.epoch >= MAX_INT32 - 1 then Fail(HugeValue)
    else if greedy && v.epoch == 0 then Fail(EmptyEV)
    else Pass
  }

  function ValidateBVs(s: SignedBlockVotes): (c: Check)
    ensures c.Pass? <==> GoodBVs(s)
  {
    var c := ValidateEventLocator(s.locator);
    if c.Fail? then c else ValidateVotes(s.locator.epoch, s.val, true)
  }

  function ValidateEV(s: SignedEpochVote): (c: Check)
    ensures c.Pass? <==> GoodEV(s)
  {
    var c := ValidateEventLocator(s.locator);
    if c.Fail? then c else ValidateVote(s.locator.epoch, s.val, true)
  }

  method CheckEvents(msgEpoch: nat, p: EventsDoublesign) returns (c: Check)
    ensures c.Pass? <==> ForkedEvents(msgEpoch, p)
    ensures c != Fail(MalformedMP)
  {
    c := ValidateEventLocator(p.a);
    if c.Fail? { return c; }
    c := ValidateEventLocator(p.b);
    if c.Fail? { return c; }
    if p.a.creator != p.b.creator { return Fail(WrongCreatorMP); }
    if p.a.epoch != p.b.epoch { return Fail(NoCrimeInMP); }
    if p.a.sequence != p.b.sequence { return Fail(NoCrimeInMP); }
    if p.a == p.b { return Fail(NoCrimeInMP); }
    if msgEpoch > p.a.epoch + MAX_LIABLE_EPOCHS { return Fail(MPTooLate); }
    return Pass;
  }

  method CheckBlockVotes(msgEpoch: nat, p: BlockVoteDoublesign) returns (c: Check)
    ensures c.Pass? <==> ForkedBlockVotes(msgEpoch, p)
    ensures c != Fail(MalformedMP)
  {
    c := ValidateBVs(p.a);
    if c.Fail? { return c; }
    c := ValidateBVs(p.b);
    if c.Fail? { return c; }
    if p.a.locator.creator != p.b.locator.creator { return Fail(WrongCreatorMP); }
    if p.block < p.a.val.start || p.block >= p.a.val.start + |p.a.val.votes| { return Fail(WrongMP); }
    if p.block < p.b.val.start || p.block >= p.b.val.start + |p.b.val.votes| { return Fail(WrongMP); }
    if p.a.val.votes[p.block - p.a.val.start] == p.b.val.votes[p.block - p.b.val.start] && p.a.val.epoch == p.b.val.epoch {
      return Fail(NoCrimeInMP);
    }
    if msgEpoch > p.a.val.epoch + MAX_LIABLE_EPOCHS || msgEpoch > p.b.val.epoch + MAX_LIABLE_EPOCHS { return Fail(MPTooLate); }
    return Pass;
  }

  method CheckWrongBlock(msgEpoch: nat, p: WrongBlockVote) returns (c: Check)
    ensures c.Pass? <==> Accomplices(msgEpoch, p)
    ensures c != Fail(MalformedMP)
  {
    for i := 0 to |p.pals|
      invariant Accomplices(msgEpoch, WrongBlockVote(p.block, p.pals[..i], p.wrongEpoch))
    {
      var pal := p.pals[i];
      c := ValidateBVs(pal);
      if c.Fail? { return c; }
      if pal.val.start > p.block || p.block >= pal.val.start + |pal.val.votes| { return Fail(WrongMP); }
      if msgEpoch > pal.val.epoch + MAX_LIABLE_EPOCHS { return Fail(MPTooLate); }
      if i > 0 {
        assert p.pals[..i][i - 1] == p.pals[i - 1];
        if p.wrongEpoch {
          if pal.val.epoch != p.pals[i - 1].val.epoch { return Fail(NoCrimeInMP); }
        } else {
          var prev := p.pals[i - 1].val;
          if prev.votes[p.block - prev.start] != pal.val.votes[p.block - pal.val.start] { return Fail(NoCrimeInMP); }
        }
      }
      for k := 0 to i
        invariant forall j | 0 <= j < k :: p.pals[j].locator.creator != pal.locator.creator
      {
        if p.pals[k].locator.creator == pal.locator.creator { return Fail(WrongCreatorMP); }
      }
      OneMorePal(msgEpoch, p, i);
    }
    assert p.pals[..|p.pals|] == p.pals;
    return Pass;
  }

  lemma OneMorePal(msgEpoch: nat, p: WrongBlockVote, i: nat)
    requires i < |p.pals| && Accomplices(msgEpoch, WrongBlockVote(p.block, p.pals[..i], p.wrongEpoch))
    requires GoodBVs(p.pals[i]) && p.pals[i].val.Covers(p.block) && Liable(msgEpoch, p.pals[i].val.epoch)
    requires forall j | 0 <= j < i :: p.pals[j].locator.creator != p.pals[i].locator.creator
    requires i > 0 ==> p.pals[i - 1].val.Covers(p.block)
    requires i > 0 ==>
      if p.wrongEpoch then p.pals[i].val.epoch == p.pals[i - 1].val.epoch
      else VoteFor(p.pals[i - 1].val, p.block) == VoteFor(p.pals[i].val, p.block)
    ensures Accomplices(msgEpoch, WrongBlockVote(p.block, p.pals[..i + 1], p.wrongEpoch))
  {
    var front, more := p.pals[..i], p.pals[..i + 1];
    assert forall k | 0 <= k < i :: more[k] == front[k];
    assert i > 0 ==> front[i - 1] == p.pals[i - 1];
  }

  method CheckEpochVotes(msgEpoch: nat, p: EpochVoteDoublesign) returns (c: Check)
    ensures c.Pass? <==> ForkedEpochVotes(msgEpoch, p)
    ensures c != Fail(MalformedMP)
  {
    c := ValidateEV(p.a);
    if c.Fail? { return c; }
    c := ValidateEV(p.b);
    if c.Fail? { return c; }
    if p.a.locator.creator != p.b.locator.creator { return Fail(WrongCreatorMP); }
    if p.a.val.epoch != p.b.val.epoch { return Fail(NoCrimeInMP); }
    if p.a.val.vote == p.b.val.vote { return Fail(NoCrimeInMP); }
    if msgEpoch > p.a.val.epoch + MAX_LIABLE_EPOCHS { return Fail(MPTooLate); }
    return Pass;
  }

  method CheckWrongEpoch(msgEpoch: nat, p: WrongEpochVote) returns (c: Check)
    ensures c.Pass? <==> EpochAccomplices(msgEpoch, p)
    ensures c != Fail(MalformedMP)
  {
    for i := 0 to |p.pals|
      invariant EpochAccomplices(msgEpoch, WrongEpochVote(p.pals[..i]))
    {
      var pal := p.pals[i];
      c := ValidateEV(pal);
      if c.Fail? { return c; }
      if msgEpoch > pal.val.epoch + MAX_LIABLE_EPOCHS { return Fail(MPTooLate); }
      if i > 0 && p.pals[i - 1].val != pal.val { return Fail(NoCrimeInMP); }
      for k := 0 to i
        invariant forall j | 0 <= j < k :: p.pals[j].locator.creator != pal.locator.creator
      {
        if p.pals[k].locator.creator == pal.locator.creator { return Fail(WrongCreatorMP); }
      }
      OneMoreEpochPal(msgEpoch, p, i);
    }
    assert p.pals[..|p.pals|] == p.pals;
    return Pass;
  }

  lemma OneMoreEpochPal(msgEpoch: nat, p: WrongEpochVote, i: nat)
    requires i < |p.pals| && EpochAccomplices(msgEpoch, WrongEpochVote(p.pals[..i]))
    requires GoodEV(p.pals[i]) && Liable(msgEpoch, p.pals[i].val.epoch)
    requires forall j | 0 <= j < i :: p.pals[j].locator.creator != p.pals[i].locator.creator
    requires i > 0 ==> p.pals[i].val == p.pals[i - 1].val
    ensures EpochAccomplices(msgEpoch, WrongEpochVote(p.pals[..i + 1]))
  {
    var front, more := p.pals[..i], p.pals[..i + 1];
    assert forall k | 0 <= k < i :: more[k] == front[k];
    assert i > 0 ==> front[i - 1] == p.pals[i - 1];
  }

  /** A proof is accepted exactly when it makes one accusation that holds. */
  method ValidateMP(msgEpoch: nat, mp: MisbehaviourProof) returns (c: Check)
    ensures c.Pass? <==> Punishable(msgEpoch, mp)
    ensures c == Fail(MalformedMP) <==> AllHold(msgEpoch, mp) && Accusations(mp) != 1
  {
    hide ForkedEvents, ForkedBlockVotes, ForkedEpochVotes, Accomplices, EpochAccomplices;
    var count := 0;
    if mp.events.Some? {
      count := count + 1;
      c := CheckEvents(msgEpoch, mp.events.value);
      if c.Fail? { return c; }
    }
    if mp.blockVotes.Some? {
      count := count + 1;
      c := CheckBlockVotes(msgEpoch, mp.blockVotes.value);
      if c.Fail? { return c; }
    }
    if mp.wrongBlock.Some? {
      count := count + 1;
      c := CheckWrongBlock(msgEpoch, mp.wrongBlock.value);
      if c.Fail? { return c; }
    }
    if mp.epochVotes.Some? {
      count := count + 1;
      c := CheckEpochVotes(msgEpoch, mp.epochVotes.value);
      if c.Fail? { return c; }
    }
    if mp.wrongEpoch.Some? {
      count := count + 1;
      c := CheckWrongEpoch(msgEpoch, mp.wrongEpoch.value);
      if c.Fail? { return c; }
    }
    if count != 1 {
      return Fail(MalformedMP);
    }
    return Pass;
  }
}
