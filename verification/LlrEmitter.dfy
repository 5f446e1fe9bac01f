/**
 Votes of an honest validator (gossip/emitter/emitter_llr.go, gossip/emitter/emitter.go):
 whatever it learns, it never signs two votes that could be held against it, as long as for
 each kind of vote its file or its database is kept; and exactly then.
 */
module LlrEmitter {
  import opened BasicCheck
  import opened Common

  /** What the node knows at one moment: its own records may change between two moments. */
  datatype World = World(
    lowestBlock: nat,
    blockHash: map<nat, nat>,
    blockEpoch: nat -> nat,
    lowestEpoch: nat,
    epochHash: map<nat, nat>)

  const NO_BLOCK_VOTES := BlockVotes(0, 0, [])
  const NO_EPOCH_VOTE := EpochVote(0, ZERO_HASH)

  function LastBlock(v: BlockVotes): int {
    v.start + |v.votes| - 1
  }

  /** The last vote remembered, if any, lies below. */
  predicate Before(last: Option<nat>, n: nat) {
    last.Some? ==> last.value < n
  }

  /** The least number from the marker on that lies above both memories. */
  function Above(lowest: nat, db: Option<nat>, file: Option<nat>): (n: nat)
    ensures n >= lowest && Before(db, n) && Before(file, n)
    ensures n > lowest ==> db == Some(n - 1) || file == Some(n - 1)
  {
    var n := if db.Some? && lowest < db.value + 1 then db.value + 1 else lowest;
    if file.Some? && n < file.value + 1 then file.value + 1 else n
  }

  /** The first block not known, with no change of epoch before it. */
  ghost predicate BreaksOff(w: World, start: nat, b: nat) {
    b !in w.blockHash && forall k | start <= k < b :: k in w.blockHash && w.blockEpoch(k) == w.blockEpoch(start)
  }

  /**
   From the starting block on, the known blocks of one epoch: as many as allowed, or up to
   the end of the epoch; nothing at all exactly if skipped, or if a block is missing before
   the epoch ends, or if the first block has no epoch.
   */
  ghost predicate IsBatch(w: World, skip: bool, start: nat, v: BlockVotes) {
    if |v.votes| == 0 then
      && v == NO_BLOCK_VOTES
      && (skip || (start in w.blockHash && w.blockEpoch(start) == 0)
          || exists b :: start <= b < start + MAX_BLOCK_VOTES_PER_EVENT && BreaksOff(w, start, b))
    else
      && !skip && v.start == start && v.epoch > 0 && |v.votes| <= MAX_BLOCK_VOTES_PER_EVENT
      && (forall b | v.Covers(b) :: b in w.blockHash && VoteFor(v, b) == w.blockHash[b] && w.blockEpoch(b) == v.epoch)
      && (|v.votes| == MAX_BLOCK_VOTES_PER_EVENT
          || (start + |v.votes| in w.blockHash && w.blockEpoch(start + |v.votes|) != v.epoch))
  }

  /** Every vote is the node's own record of its block, all of one epoch. */
  ghost predicate Recorded(w: World, v: BlockVotes) {
    forall i | 0 <= i < |v.votes| ::
      v.start + i in w.blockHash && v.votes[i] == w.blockHash[v.start + i] && w.blockEpoch(v.start + i) == v.epoch
  }

  lemma BatchRecorded(w: World, skip: bool, start: nat, v: BlockVotes)
    requires IsBatch(w, skip, start, v)
    ensures Recorded(w, v)
  {
    forall i | 0 <= i < |v.votes|
      ensures v.start + i in w.blockHash && v.votes[i] == w.blockHash[v.start + i] && w.blockEpoch(v.start + i) == v.epoch
    {
      assert v.Covers(v.start + i);
    }
  }

  /** The later of what is remembered and a new vote. */
  function Later(last: Option<nat>, n: nat): Option<nat> {
    if last.Some? && n <= last.value then last else Some(n)
  }

  /** How far an emission gets before the process dies, if it does. */
  datatype Progress = Rejected | Processed | Remembered | Broadcast

  datatype Action =
    | Emit(world: World, epoch: nat, skipBlocks: bool, skipEpoch: bool, reach: Progress)
    | Restart(restoreBlock: Option<nat> -> Option<nat>, restoreEpoch: Option<nat> -> Option<nat>)

  // ---------- what has been sent, and what is remembered of it ----------

  /** Each vote starts above the last block of the one before. */
  ghost predicate Increasing(sent: seq<BlockVotes>) {
    forall i, j | 0 <= i < j < |sent| :: LastBlock(sent[i]) < sent[j].start
  }

  ghost predicate EpochsIncrease(sent: seq<EpochVote>) {
    forall i, j | 0 <= i < j < |sent| :: sent[i].epoch < sent[j].epoch
  }

  /** Votes that pass the checks every event has to pass. */
  ghost predicate SoundBlocks(v: BlockVotes) {
    && 0 < v.start < MAX_INT64 / 2 && 0 < |v.votes| <= MAX_BLOCK_VOTES_PER_EVENT && 0 < v.epoch < MAX_INT32 - 1
  }

  ghost predicate SoundEpoch(v: EpochVote) {
    0 < v.epoch < MAX_INT32 - 1 && v.vote != ZERO_HASH
  }

  /** The memory that counts: the file if there is one, otherwise the database. */
  ghost function Memory(useFile: bool, db: Option<nat>, file: Option<nat>): Option<nat> {
    if useFile then file else db
  }

  ghost predicate BlocksKept(useFile: bool, db: Option<nat>, file: Option<nat>, sent: seq<BlockVotes>) {
    && Increasing(sent) && (!useFile ==> file.None?)
    && forall v | v in sent :: SoundBlocks(v) && !Before(Memory(useFile, db, file), LastBlock(v))
  }

  ghost predicate EpochsKept(useFile: bool, db: Option<nat>, file: Option<nat>, sent: seq<EpochVote>) {
    && EpochsIncrease(sent) && (!useFile ==> file.None?)
    && forall v | v in sent :: SoundEpoch(v) && !Before(Memory(useFile, db, file), v.epoch)
  }

  /** A database that has not lost votes of this validator. */
  predicate NotLower(before: Option<nat>, after: Option<nat>) {
    before.Some? ==> after.Some? && before.value <= after.value
  }

  /** The database after a vote with last index `last` got so far. */
  function DbAfter(db: Option<nat>, voted: bool, last: nat, reach: Progress): Option<nat> {
    if reach != Rejected && voted then Later(db, last) else db
  }

  function FileAfter(useFile: bool, file: Option<nat>, voted: bool, last: nat, reach: Progress): Option<nat> {
    if (reach == Remembered || reach == Broadcast) && useFile && voted then Some(last) else file
  }

  lemma BlocksStillKept(useFile: bool, db: Option<nat>, file: Option<nat>, sent: seq<BlockVotes>, v: BlockVotes, reach: Progress)
    requires BlocksKept(useFile, db, file, sent)
    requires |v.votes| > 0 ==> SoundBlocks(v) && Before(db, v.start) && Before(file, v.start)
    ensures var voted, last := |v.votes| > 0, if |v.votes| > 0 then LastBlock(v) else 0;
      BlocksKept(useFile, DbAfter(db, voted, last, reach), FileAfter(useFile, file, voted, last, reach),
                 sent + if reach == Broadcast && voted then [v] else [])
  {
    forall i | 0 <= i < |sent| && |v.votes| > 0
      ensures LastBlock(sent[i]) < v.start
    {
      assert sent[i] in sent;
    }
  }

  lemma EpochsStillKept(useFile: bool, db: Option<nat>, file: Option<nat>, sent: seq<EpochVote>, v: EpochVote, reach: Progress)
    requires EpochsKept(useFile, db, file, sent)
    requires v.epoch > 0 ==> SoundEpoch(v) && Before(db, v.epoch) && Before(file, v.epoch)
    ensures EpochsKept(useFile, DbAfter(db, v.epoch > 0, v.epoch, reach), FileAfter(useFile, file, v.epoch > 0, v.epoch, reach),
                       sent + if reach == Broadcast && v.epoch > 0 then [v] else [])
  {
    forall i | 0 <= i < |sent| && v.epoch > 0
      ensures sent[i].epoch < v.epoch
    {
      assert sent[i] in sent;
    }
  }

  // ---------- the emitter ----------

  class Emitter {
    /** Whether the files with the last votes are configured, each on its own. */
    const blockFile: bool
    const epochFile: bool
    var dbBlock: Option<nat>
    var dbEpoch: Option<nat>
    var fileBlock: Option<nat>
    var fileEpoch: Option<nat>
    ghost var blockVotes: seq<BlockVotes>
    ghost var epochVotes: seq<EpochVote>

    ghost predicate Valid()
      reads this
    {
      && BlocksKept(blockFile, dbBlock, fileBlock, blockVotes)
      && EpochsKept(epochFile, dbEpoch, fileEpoch, epochVotes)
    }

    constructor (blockFile: bool, epochFile: bool)
      ensures Valid() && blockVotes == [] && epochVotes == []
      ensures this.blockFile == blockFile && this.epochFile == epochFile
      ensures dbBlock == None && dbEpoch == None && fileBlock == None && fileEpoch == None
    {
      this.blockFile, this.epochFile := blockFile, epochFile;
      dbBlock, dbEpoch, fileBlock, fileEpoch := None, None, None, None;
      blockVotes, epochVotes := [], [];
    }

    /**
     The longest batch, above everything remembered, of known blocks of one epoch; kept
     back unless it is full or the epoch has ended.
     */
    method AddBlockVotes(w: World, skip: bool) returns (v: BlockVotes)
      ensures IsBatch(w, skip, Above(w.lowestBlock, dbBlock, fileBlock), v)
    {
      if skip {
        return NO_BLOCK_VOTES;
      }
      var start := w.lowestBlock;
      if dbBlock.Some? && start < dbBlock.value + 1 {
        start := dbBlock.value + 1;
      }
      if fileBlock.Some? && start < fileBlock.value + 1 {
        start := fileBlock.value + 1;
      }
      var records: seq<nat> := [];
      var epochEnd := false;
      var epoch := 0;
      var b := start;
      while |records| < MAX_BLOCK_VOTES_PER_EVENT
        invariant |records| <= MAX_BLOCK_VOTES_PER_EVENT && b == start + |records| && !epochEnd
        invariant |records| > 0 ==> epoch > 0
        invariant |records| == 0 ==> epoch == 0
        invariant forall k | start <= k < b :: k in w.blockHash && records[k - start] == w.blockHash[k] && w.blockEpoch(k) == epoch
        decreases MAX_BLOCK_VOTES_PER_EVENT - |records|
      {
        if b !in w.blockHash {
          assert BreaksOff(w, start, b);
          break;
        }
        var blockEpoch := w.blockEpoch(b);
        if epoch == 0 {
          epoch := blockEpoch;
        }
        if epoch != blockEpoch || blockEpoch == 0 {
          epochEnd := true;
          break;
        }
        records := records + [w.blockHash[b]];
        b := b + 1;
      }
      var waitUntilLongerBatch := !epochEnd && |records| < MAX_BLOCK_VOTES_PER_EVENT;
      if |records| == 0 || waitUntilLongerBatch {
        return NO_BLOCK_VOTES;
      }
      return BlockVotes(start, epoch, records);
    }

    method AddEpochVote(w: World, skip: bool) returns (v: EpochVote)
      ensures var target := Above(w.lowestEpoch, dbEpoch, fileEpoch);
        if !skip && target in w.epochHash then v.epoch == target && v.vote == w.epochHash[target] else v == EpochVote(0, ZERO_HASH)
    {
      if skip {
        return NO_EPOCH_VOTE;
      }
      var target := w.lowestEpoch;
      if dbEpoch.Some? && target < dbEpoch.value + 1 {
        target := dbEpoch.value + 1;
      }
      if fileEpoch.Some? && target < fileEpoch.value + 1 {
        target := fileEpoch.value + 1;
      }
      if target !in w.epochHash {
        return NO_EPOCH_VOTE;
      }
      return EpochVote(target, w.epochHash[target]);
    }

    /** Processing the own event records its votes in the database. */
    method Process(bv: BlockVotes, ev: EpochVote)
      modifies this`dbBlock, this`dbEpoch
      ensures dbBlock == if |bv.votes| > 0 then Later(old(dbBlock), LastBlock(bv)) else old(dbBlock)
      ensures dbEpoch == if ev.epoch > 0 then Later(old(dbEpoch), ev.epoch) else old(dbEpoch)
    {
      if |bv.votes| > 0 && (dbBlock.None? || bv.start + |bv.votes| - 1 > dbBlock.value) {
        dbBlock := Some(bv.start + |bv.votes| - 1);
      }
      if ev.epoch > 0 && (dbEpoch.None? || ev.epoch > dbEpoch.value) {
        dbEpoch := Some(ev.epoch);
      }
    }

    /**
     An event with votes: checked, processed, remembered in the files, then sent out; it may
     die at any point between.  Whatever it was before, the memory then is what the stage
     reached says; and what was sent stays increasing and remembered.
     */
    method EmitEvent(w: World, epoch: nat, skipBlocks: bool, skipEpoch: bool, reach: Progress)
      returns (bv: BlockVotes, ev: EpochVote, reached: Progress)
      modifies this
      ensures old(Valid()) ==> Valid()
      ensures IsBatch(w, skipBlocks, old(Above(w.lowestBlock, dbBlock, fileBlock)), bv)
      ensures var target := old(Above(w.lowestEpoch, dbEpoch, fileEpoch));
        if !skipEpoch && target in w.epochHash then ev == EpochVote(target, w.epochHash[target]) else ev == EpochVote(0, ZERO_HASH)
      ensures reached == if ValidateVotes(epoch, bv, false).Pass? && ValidateVote(epoch, ev, false).Pass? then reach else Rejected
      ensures dbBlock == (if reached != Rejected && |bv.votes| > 0 && Before(old(dbBlock), bv.start + |bv.votes| - 1)
                          then Some(bv.start + |bv.votes| - 1) else old(dbBlock))
      ensures dbEpoch == if reached != Rejected && ev.epoch > 0 && Before(old(dbEpoch), ev.epoch) then Some(ev.epoch) else old(dbEpoch)
      ensures fileBlock == (if reached in {Remembered, Broadcast} && blockFile && |bv.votes| > 0
                            then Some(bv.start + |bv.votes| - 1) else old(fileBlock))
      ensures fileEpoch == if reached in {Remembered, Broadcast} && epochFile && ev.epoch > 0 then Some(ev.epoch) else old(fileEpoch)
      ensures blockVotes == old(blockVotes) + if reached == Broadcast && |bv.votes| > 0 then [bv] else []
      ensures epochVotes == old(epochVotes) + if reached == Broadcast && ev.epoch > 0 then [ev] else []
    {
      hide IsBatch, BlocksKept, EpochsKept;
      bv := AddBlockVotes(w, skipBlocks);
      ev := AddEpochVote(w, skipEpoch);
      BatchStart(w, skipBlocks, Above(w.lowestBlock, dbBlock, fileBlock), bv);
      reached := reach;
      if ValidateVotes(epoch, bv, false).Fail? || ValidateVote(epoch, ev, false).Fail? {
        reached := Rejected;
      }
      if old(Valid()) {
        BlocksStillKept(blockFile, dbBlock, fileBlock, blockVotes, if reached == Rejected then NO_BLOCK_VOTES else bv, reached);
        EpochsStillKept(epochFile, dbEpoch, fileEpoch, epochVotes, if reached == Rejected then NO_EPOCH_VOTE else ev, reached);
      }
      assert blockVotes + [] == blockVotes && epochVotes + [] == epochVotes;
      if reached == Rejected {
        return;
      }
      Process(bv, ev);
      if reached == Processed {
        return;
      }
      if epochFile && ev.epoch != 0 {
        fileEpoch := Some(ev.epoch);
      }
      if blockFile && |bv.votes| != 0 {
        fileBlock := Some(bv.start + |bv.votes| - 1);
      }
      if reached == Remembered {
        return;
      }
      if ev.epoch != 0 {
        epochVotes := epochVotes + [ev];
      }
      if |bv.votes| != 0 {
        blockVotes := blockVotes + [bv];
      }
    }

    /** A restart with whatever database is there: safe for a kind of vote that has its file or lost nothing. */
    method Restart(db: Option<nat>, epochDb: Option<nat>)
      modifies this`dbBlock, this`dbEpoch
      ensures dbBlock == db && dbEpoch == epochDb
      ensures old(Valid()) && (blockFile || NotLower(old(dbBlock), db)) && (epochFile || NotLower(old(dbEpoch), epochDb)) ==> Valid()
    {
      dbBlock, dbEpoch := db, epochDb;
    }

    /**
     Over any run of emissions, crashes and restarts, with either file or none, the votes sent
     stay increasing, provided that no restart loses votes of a kind that has no file.
     */
    method Run(actions: seq<Action>)
      requires Valid()
      requires !blockFile ==> forall act | act in actions && act.Restart? :: forall x: Option<nat> :: NotLower(x, act.restoreBlock(x))
      requires !epochFile ==> forall act | act in actions && act.Restart? :: forall x: Option<nat> :: NotLower(x, act.restoreEpoch(x))
      modifies this
      ensures Valid()
      ensures forall v | v in epochVotes && v !in old(epochVotes) ::
        exists act :: act in actions && act.Emit? && v.epoch in act.world.epochHash && v.vote == act.world.epochHash[v.epoch]
      ensures forall v | v in blockVotes && v !in old(blockVotes) :: exists act :: act in actions && act.Emit? && Recorded(act.world, v)
    {
      hide BlocksKept, EpochsKept, IsBatch, Recorded, Above;
      for i := 0 to |actions|
        invariant Valid()
        invariant forall v | v in epochVotes && v !in old(epochVotes) ::
          exists act :: act in actions && act.Emit? && v.epoch in act.world.epochHash && v.vote == act.world.epochHash[v.epoch]
        invariant forall v | v in blockVotes && v !in old(blockVotes) :: exists act :: act in actions && act.Emit? && Recorded(act.world, v)
      {
        assert actions[i] in actions;
        match actions[i]
        case Emit(w, epoch, skipBlocks, skipEpoch, reach) =>
          ghost var start := Above(w.lowestBlock, dbBlock, fileBlock);
          var bv, _, _ := EmitEvent(w, epoch, skipBlocks, skipEpoch, reach);
          BatchRecorded(w, skipBlocks, start, bv);
        case Restart(restoreBlock, restoreEpoch) => Restart(restoreBlock(dbBlock), restoreEpoch(dbEpoch));
      }
    }
  }

  lemma BatchStart(w: World, skip: bool, start: nat, v: BlockVotes)
    requires IsBatch(w, skip, start, v)
    ensures |v.votes| > 0 ==> v.start == start && v.epoch > 0
  {
  }

  // ---------- innocence ----------

  /** No two block votes that an emitter sent prove a doublesign. */
  lemma BlockVotesAreInnocent(em: Emitter, msgEpoch: nat, mp: MisbehaviourProof)
    requires em.Valid() && mp.blockVotes.Some?
    requires mp.blockVotes.value.a.val in em.blockVotes && mp.blockVotes.value.b.val in em.blockVotes
    ensures !Punishable(msgEpoch, mp)
  {
    var p := mp.blockVotes.value;
    var i :| 0 <= i < |em.blockVotes| && em.blockVotes[i] == p.a.val;
    var j :| 0 <= j < |em.blockVotes| && em.blockVotes[j] == p.b.val;
    assert i == j || !(p.a.val.Covers(p.block) && p.b.val.Covers(p.block));
  }

  /** No two epoch votes that an emitter sent prove a doublesign. */
  lemma EpochVotesAreInnocent(em: Emitter, msgEpoch: nat, mp: MisbehaviourProof)
    requires em.Valid() && mp.epochVotes.Some?
    requires mp.epochVotes.value.a.val in em.epochVotes && mp.epochVotes.value.b.val in em.epochVotes
    ensures !Punishable(msgEpoch, mp)
  {
    var p := mp.epochVotes.value;
    var i :| 0 <= i < |em.epochVotes| && em.epochVotes[i] == p.a.val;
    var j :| 0 <= j < |em.epochVotes| && em.epochVotes[j] == p.b.val;
    assert i == j || p.a.val.epoch != p.b.val.epoch;
  }

  // ---------- the memory is needed ----------

  /** Signed in some events, the two votes are an accepted proof against their creator. */
  ghost predicate ConvictsEpoch(u: EpochVote, v: EpochVote) {
    exists msgEpoch: nat, la: Locator, lb: Locator ::
      ForkedEpochVotes(msgEpoch, EpochVoteDoublesign(SignedEpochVote(la, u), SignedEpochVote(lb, v)))
  }

  ghost predicate ConvictsBlocks(u: BlockVotes, v: BlockVotes) {
    exists msgEpoch: nat, block: nat, la: Locator, lb: Locator ::
      ForkedBlockVotes(msgEpoch, BlockVoteDoublesign(block, SignedBlockVotes(la, u), SignedBlockVotes(lb, v)))
  }

  lemma ConvictsEpochIff(u: EpochVote, v: EpochVote)
    requires SoundEpoch(u)
    ensures ConvictsEpoch(u, v) <==> SoundEpoch(v) && u.epoch == v.epoch && u.vote != v.vote
  {
    if SoundEpoch(v) && u.epoch == v.epoch && u.vote != v.vote {
      var l := Locator(0, u.epoch, 1, 1, 0, 0);
      assert ForkedEpochVotes(u.epoch, EpochVoteDoublesign(SignedEpochVote(l, u), SignedEpochVote(l, v)));
    }
  }

  /** A vote on a block that convicts beside an earlier one. */
  lemma ConvictsBlocksWith(u: BlockVotes, v: BlockVotes, block: nat)
    requires SoundBlocks(u) && SoundBlocks(v) && u.Covers(block) && v.Covers(block) && u.epoch == v.epoch
    requires VoteFor(u, block) != VoteFor(v, block)
    ensures ConvictsBlocks(u, v)
  {
    var l := Locator(0, u.epoch, 1, 1, 0, 0);
    assert ForkedBlockVotes(u.epoch, BlockVoteDoublesign(block, SignedBlockVotes(l, u), SignedBlockVotes(l, v)));
  }

  lemma ConvictsBlocksMeet(u: BlockVotes, v: BlockVotes)
    requires ConvictsBlocks(u, v)
    ensures v.start < MAX_INT64 / 2 && exists block :: u.Covers(block) && v.Covers(block)
  {
    var msgEpoch: nat, block: nat, la, lb :|
      ForkedBlockVotes(msgEpoch, BlockVoteDoublesign(block, SignedBlockVotes(la, u), SignedBlockVotes(lb, v)));
    assert u.Covers(block) && v.Covers(block);
  }

  /** With the epoch database at d and no file, some state of the world leads to a vote that convicts. */
  ghost predicate EpochLedAstray(sent: seq<EpochVote>, d: Option<nat>) {
    exists w: World, u: EpochVote, target: nat ::
      && u in sent && target == Above(w.lowestEpoch, d, None) && target in w.epochHash
      && ConvictsEpoch(u, EpochVote(target, w.epochHash[target]))
  }

  /** Exactly when the database is below the last vote sent. */
  lemma EpochLedAstrayIff(useFile: bool, db: Option<nat>, file: Option<nat>, sent: seq<EpochVote>, d: Option<nat>)
    requires EpochsKept(useFile, db, file, sent) && sent != []
    ensures EpochLedAstray(sent, d) <==> Before(d, sent[|sent| - 1].epoch)
  {
    var last := sent[|sent| - 1];
    assert last in sent;
    if Before(d, last.epoch) {
      var w := Rewritten(last);
      var target := Above(w.lowestEpoch, d, None);
      ConvictsEpochIff(last, EpochVote(target, w.epochHash[target]));
      assert last in sent && ConvictsEpoch(last, EpochVote(target, w.epochHash[target]));
    }
    if EpochLedAstray(sent, d) {
      var w: World, u, target: nat :|
        && u in sent && target == Above(w.lowestEpoch, d, None) && target in w.epochHash
        && ConvictsEpoch(u, EpochVote(target, w.epochHash[target]));
      ConvictsEpochIff(u, EpochVote(target, w.epochHash[target]));
      var i :| 0 <= i < |sent| && sent[i] == u;
      assert u.epoch <= last.epoch;
    }
  }

  function Other(hash: nat): nat {
    if hash == 1 then 2 else 1
  }

  /** The world in which the record of the epoch voted on has changed. */
  function Rewritten(v: EpochVote): World {
    World(0, map[], (b: nat) => 0, v.epoch, map[v.epoch := Other(v.vote)])
  }

  /** The last block voted on that a later vote can start with. */
  ghost function LastContestable(v: BlockVotes): int {
    if LastBlock(v) < MAX_INT64 / 2 then LastBlock(v) else MAX_INT64 / 2 - 1
  }

  ghost predicate BlocksLedAstray(sent: seq<BlockVotes>, d: Option<nat>) {
    exists w: World, u: BlockVotes, v: BlockVotes ::
      u in sent && IsBatch(w, false, Above(w.lowestBlock, d, None), v) && ConvictsBlocks(u, v)
  }

  function AllAlike(block: nat, n: nat, hash: nat): (m: map<nat, nat>)
    ensures forall b: nat :: b in m <==> block <= b < block + n
    ensures forall b | b in m :: m[b] == hash
  {
    if n == 0 then map[] else AllAlike(block, n - 1, hash)[block + n - 1 := hash]
  }

  /** The world in which the records from a block on have changed, within the same epoch. */
  function RewrittenFrom(block: nat, epoch: nat, hash: nat): World {
    World(block, AllAlike(block, MAX_BLOCK_VOTES_PER_EVENT, Other(hash)), (b: nat) => epoch, 0, map[])
  }

  lemma RewrittenBatch(block: nat, epoch: nat, hash: nat, d: Option<nat>) returns (v: BlockVotes)
    requires Before(d, block) && epoch > 0
    ensures var w := RewrittenFrom(block, epoch, hash);
      Above(w.lowestBlock, d, None) == block && IsBatch(w, false, block, v)
    ensures v == BlockVotes(block, epoch, seq(MAX_BLOCK_VOTES_PER_EVENT, i => Other(hash)))
  {
    v := BlockVotes(block, epoch, seq(MAX_BLOCK_VOTES_PER_EVENT, i => Other(hash)));
  }

  /** Exactly when the database is below the last block voted on. */
  lemma BlocksLedAstrayIff(useFile: bool, db: Option<nat>, file: Option<nat>, sent: seq<BlockVotes>, d: Option<nat>)
    requires BlocksKept(useFile, db, file, sent) && sent != []
    ensures BlocksLedAstray(sent, d) <==> Before(d, LastContestable(sent[|sent| - 1]))
  {
    if Before(d, LastContestable(sent[|sent| - 1])) {
      BlocksAstray(useFile, db, file, sent, d);
    }
    if BlocksLedAstray(sent, d) {
      BlocksBehind(useFile, db, file, sent, d);
    }
  }

  lemma BlocksAstray(useFile: bool, db: Option<nat>, file: Option<nat>, sent: seq<BlockVotes>, d: Option<nat>)
    requires BlocksKept(useFile, db, file, sent) && sent != [] && Before(d, LastContestable(sent[|sent| - 1]))
    ensures BlocksLedAstray(sent, d)
  {
    hide IsBatch;
    var last := sent[|sent| - 1];
    assert last in sent;
    var block := LastContestable(last);
    var v := RewrittenBatch(block, last.epoch, VoteFor(last, block), d);
    ConvictsBlocksWith(last, v, block);
    assert IsBatch(RewrittenFrom(block, last.epoch, VoteFor(last, block)), false, Above(block, d, None), v);
  }

  lemma BlocksBehind(useFile: bool, db: Option<nat>, file: Option<nat>, sent: seq<BlockVotes>, d: Option<nat>)
    requires BlocksKept(useFile, db, file, sent) && sent != [] && BlocksLedAstray(sent, d)
    ensures Before(d, LastContestable(sent[|sent| - 1]))
  {
    hide IsBatch, ConvictsBlocks;
    var w: World, u, v :| u in sent && IsBatch(w, false, Above(w.lowestBlock, d, None), v) && ConvictsBlocks(u, v);
    ConvictsBlocksMeet(u, v);
    BatchStart(w, false, Above(w.lowestBlock, d, None), v);
    var i :| 0 <= i < |sent| && sent[i] == u;
    assert LastBlock(u) <= LastBlock(sent[|sent| - 1]);
  }

  /**
   The emitter itself, restarted without the epoch file and with a database below its last
   vote: its next event carries a vote that convicts it.
   */
  method ForgetfulEpoch(em: Emitter, last: EpochVote, d: Option<nat>) returns (ev: EpochVote)
    requires em.Valid() && !em.epochFile && em.epochVotes != [] && last == em.epochVotes[|em.epochVotes| - 1]
    requires Before(d, last.epoch)
    modifies em
    ensures last in em.epochVotes && ev in em.epochVotes && ConvictsEpoch(last, ev)
  {
    hide IsBatch;
    assert last in em.epochVotes;
    em.Restart(em.dbBlock, d);
    var bv, reached;
    bv, ev, reached := em.EmitEvent(Rewritten(last), last.epoch, true, false, Broadcast);
    SkippedIsEmpty(Rewritten(last), bv);
    ConvictsEpochIff(last, ev);
  }

  lemma SkippedIsEmpty(w: World, v: BlockVotes)
    ensures forall start: nat :: IsBatch(w, true, start, v) ==> v == NO_BLOCK_VOTES
  {
  }

  /** The same for block votes, without the block file. */
  method ForgetfulBlocks(em: Emitter, last: BlockVotes, d: Option<nat>) returns (bv: BlockVotes)
    requires em.Valid() && !em.blockFile && em.blockVotes != [] && last == em.blockVotes[|em.blockVotes| - 1]
    requires Before(d, LastContestable(last))
    modifies em
    ensures last in em.blockVotes && bv in em.blockVotes && ConvictsBlocks(last, bv)
  {
    hide IsBatch;
    assert last in em.blockVotes;
    em.Restart(d, em.dbEpoch);
    var block := if LastBlock(last) < MAX_INT64 / 2 then LastBlock(last) else MAX_INT64 / 2 - 1;
    var hash := VoteFor(last, block);
    var ev, reached;
    ghost var v := RewrittenBatch(block, last.epoch, hash, d);
    bv, ev, reached := em.EmitEvent(RewrittenFrom(block, last.epoch, hash), last.epoch, false, true, Broadcast);
    OnlyBatch(RewrittenFrom(block, last.epoch, hash), block, v, bv);
    ConvictsBlocksWith(last, bv, block);
  }

  /** The world and the starting block leave only one batch. */
  lemma OnlyBatch(w: World, start: nat, u: BlockVotes, v: BlockVotes)
    requires IsBatch(w, false, start, u) && IsBatch(w, false, start, v)
    ensures u == v
  {
    if |u.votes| == 0 {
      NoBatch(w, start, v);
    } else if |v.votes| == 0 {
      NoBatch(w, start, u);
    } else {
      assert u.Covers(start) && v.Covers(start);
      SameLength(w, start, u, v);
      SameLength(w, start, v, u);
      forall k | 0 <= k < |u.votes|
        ensures u.votes[k] == v.votes[k]
      {
        assert u.Covers(start + k) && v.Covers(start + k);
        assert VoteFor(u, start + k) == VoteFor(v, start + k);
      }
    }
  }

  lemma SameLength(w: World, start: nat, u: BlockVotes, v: BlockVotes)
    requires IsBatch(w, false, start, u) && IsBatch(w, false, start, v) && |u.votes| > 0 && |v.votes| > 0
    ensures |u.votes| >= |v.votes|
  {
    assert u.Covers(start) && v.Covers(start);
    if |u.votes| < |v.votes| {
      assert v.Covers(start + |u.votes|);
    }
  }

  lemma NoBatch(w: World, start: nat, v: BlockVotes)
    requires IsBatch(w, false, start, NO_BLOCK_VOTES) && IsBatch(w, false, start, v)
    ensures |v.votes| == 0
  {
    assert |v.votes| > 0 ==> v.Covers(start);
  }
}
