/**
 The write-back cache of LLR vote weights (gossip/store_llr_block.go).  Cache and table
 together hold, for every vote, its weight and who cast it.
 */
module VoteWeights {
  import opened Common
  import opened Words
  import Bitmap

  datatype VoteId = VoteId(block: nat, epoch: nat, hash: nat)

  /** What one vote has gathered so far, and the room of its bitmap: none before the first voter. */
  datatype Tally = Tally(weight: uint32, voters: set<nat>, room: nat)

  const NOBODY := Tally(0, {}, 0)

  /** The room of a bitmap made for that many validators. */
  function RoomFor(validators: nat): (room: nat)
    ensures validators <= room < validators + 8
  {
    Bitmap.Room(Bitmap.New(validators))
  }

  /** The bitmap has been made for another group, and the validator has no bit in it: indexing it panics. */
  predicate Overflows(t: Tally, validator: nat) {
    0 < t.room <= validator
  }

  /** A validator counts once; the first one to vote decides the room. */
  function Counted(t: Tally, validator: nat, validators: nat, diff: uint32): Tally {
    if validator in t.voters || Overflows(t, validator) then t
    else Tally(Wrap32(t.weight + diff), t.voters + {validator}, if t.room == 0 then RoomFor(validators) else t.room)
  }

  // ---------- table values ----------

  type Byte = x: int | 0 <= x < 0x100

  function Uint32ToBytes(x: uint32): (b: seq<Byte>)
    ensures |b| == 4
  {
    [x / 0x100_0000, x / 0x1_0000 % 0x100, x / 0x100 % 0x100, x % 0x100]
  }

  function BytesToUint32(b: seq<Byte>): uint32
    requires |b| == 4
  {
    var b0: int, b1: int, b2: int, b3: int := b[0], b[1], b[2], b[3];
    b0 * 0x100_0000 + b1 * 0x1_0000 + b2 * 0x100 + b3
  }

  lemma Digits(x: nat)
    ensures x / 0x100_0000 * 0x100_0000 + x / 0x1_0000 % 0x100 * 0x1_0000 + x / 0x100 % 0x100 * 0x100 + x % 0x100 == x
  {
    var q1 := x / 0x100;
    var q2 := q1 / 0x100;
    assert q2 == x / 0x1_0000;
    assert q2 / 0x100 == x / 0x100_0000;
    assert x == q1 * 0x100 + x % 0x100;
    assert q1 == q2 * 0x100 + q1 % 0x100;
    assert q2 == q2 / 0x100 * 0x100 + q2 % 0x100;
  }

  lemma Uint32RoundTrip(x: uint32)
    ensures BytesToUint32(Uint32ToBytes(x)) == x
  {
    Digits(x);
  }

  /** A table value: the weight in four bytes, then the voters. */
  datatype Row = Row(head: seq<Byte>, votes: Bitmap.Set)

  function Encode(weight: uint32, votes: Bitmap.Set): Row {
    Row(Uint32ToBytes(weight), votes)
  }

  ghost function Tallied(weight: uint32, votes: Bitmap.Set): Tally {
    Tally(weight, Bitmap.Members(votes), Bitmap.Room(votes))
  }

  ghost function Decoded(row: Row): Tally {
    if |row.head| != 4 then NOBODY else Tallied(BytesToUint32(row.head), row.votes)
  }

  lemma DecodesEncoded(weight: uint32, votes: Bitmap.Set)
    ensures Decoded(Encode(weight, votes)) == Tallied(weight, votes)
  {
    hide BytesToUint32, Uint32ToBytes;
    Uint32RoundTrip(weight);
  }

  // ---------- the store ----------

  datatype Entry = Entry(weight: uint32, votes: Bitmap.Set, mutated: bool) {
    ghost function Value(): Tally {
      Tallied(weight, votes)
    }
  }

  datatype Op =
    | Vote(id: VoteId, validator: nat, validators: nat, diff: uint32, loadEvicts: set<VoteId>, saveEvicts: set<VoteId>)
    | Flush

  function Applied(op: Op, id: VoteId, t: Tally): Tally {
    match op
    case Vote(voted, validator, validators, diff, _, _) => if voted == id then Counted(t, validator, validators, diff) else t
    case Flush => t
  }

  /** What the operations mean for one vote: flushes and evictions mean nothing. */
  ghost function Apply(ops: seq<Op>, id: VoteId, t: Tally): Tally {
    if ops == [] then t else Applied(ops[|ops| - 1], id, Apply(ops[..|ops| - 1], id, t))
  }

  class VoteStore {
    var cache: map<VoteId, Entry>
    var table: map<VoteId, Row>

    ghost function Stored(id: VoteId): Tally
      reads this
    {
      if id in table then Decoded(table[id]) else NOBODY
    }

    /** The map that cache and table stand for. */
    ghost function Votes(id: VoteId): Tally
      reads this
    {
      if id in cache then cache[id].Value() else Stored(id)
    }

    ghost predicate Valid()
      reads this
    {
      && (forall id | id in table :: |table[id].head| == 4 && table[id].votes != [])
      && (forall id | id in cache :: cache[id].votes != [])
      && (forall id | id in cache && !cache[id].mutated :: cache[id].Value() == Stored(id))
    }

    constructor ()
      ensures Valid() && forall id: VoteId :: Votes(id) == NOBODY
    {
      cache, table := map[], map[];
    }

    method Write(id: VoteId, weight: uint32, votes: Bitmap.Set)
      modifies this`table
      ensures table == old(table)[id := Encode(weight, votes)]
      ensures Stored(id) == Tallied(weight, votes) && forall other | other != id :: Stored(other) == old(Stored(other))
    {
      table := table[id := Encode(weight, votes)];
      DecodesEncoded(weight, votes);
    }

    /** The cache lets go of an entry; a mutated one is written to the table first. */
    method Evict(id: VoteId)
      requires Valid()
      modifies this
      ensures Valid() && cache == old(cache) - {id}
      ensures forall other: VoteId :: Votes(other) == old(Votes(other))
    {
      if id in cache && cache[id].mutated {
        Write(id, cache[id].weight, cache[id].votes);
      }
      cache := cache - {id};
    }

    /** A new entry, after which the cache may let go of any entries. */
    method CacheAdd(id: VoteId, e: Entry, evicts: set<VoteId>)
      requires Valid() && e.votes != [] && (!e.mutated ==> e.Value() == Stored(id))
      modifies this
      ensures Valid()
      ensures Votes(id) == e.Value() && forall other | other != id :: Votes(other) == old(Votes(other))
    {
      cache := cache[id := e];
      var todo := evicts;
      while todo != {}
        invariant Valid()
        invariant Votes(id) == e.Value() && forall other | other != id :: Votes(other) == old(Votes(other))
        decreases |todo|
      {
        var victim :| victim in todo;
        todo := todo - {victim};
        Evict(victim);
      }
    }

    method GetVoteWeight(id: VoteId, evicts: set<VoteId>) returns (weight: uint32, votes: Option<Bitmap.Set>)
      requires Valid()
      modifies this
      ensures Valid() && forall other: VoteId :: Votes(other) == old(Votes(other))
      ensures votes.None? ==> weight == 0 && Votes(id) == NOBODY
      ensures votes.Some? ==> Votes(id) == Tallied(weight, votes.value) && votes.value != []
    {
      if id in cache {
        return cache[id].weight, Some(cache[id].votes);
      }
      if id !in table {
        return 0, None;
      }
      weight := BytesToUint32(table[id].head);
      votes := Some(table[id].votes);
      CacheAdd(id, Entry(weight, votes.value, false), evicts);
    }

    /** One vote: counted once per validator, whatever the cache does; None if it has no bit. */
    method AddVoteWeight(id: VoteId, validator: nat, validators: nat, diff: uint32, loadEvicts: set<VoteId>, saveEvicts: set<VoteId>)
      returns (weight: Option<uint32>)
      requires Valid() && validator < validators
      modifies this
      ensures Valid()
      ensures Votes(id) == Counted(old(Votes(id)), validator, validators, diff)
      ensures weight == if Overflows(old(Votes(id)), validator) then None else Some(Votes(id).weight)
      ensures forall other | other != id :: Votes(other) == old(Votes(other))
    {
      hide Decoded, Bitmap.Has, Bitmap.WithBit;
      var gathered, votes := GetVoteWeight(id, loadEvicts);
      if votes.Some? && validator >= Bitmap.Room(votes.value) {
        return None;
      }
      if votes.Some? && Bitmap.Has(votes.value, validator) {
        return Some(gathered);
      }
      var bits := if votes.Some? then votes.value else Bitmap.New(validators);
      bits := Bitmap.Put(bits, validator);
      gathered := Wrap32(gathered + diff);
      CacheAdd(id, Entry(gathered, bits, true), saveEvicts);
      return Some(gathered);
    }

    method Clean(id: VoteId)
      requires Valid() && id in cache
      modifies this
      ensures Valid() && cache == old(cache)[id := old(cache)[id].(mutated := false)]
      ensures forall other: VoteId :: Votes(other) == old(Votes(other))
    {
      Write(id, cache[id].weight, cache[id].votes);
      cache := cache[id := cache[id].(mutated := false)];
    }

    /** After a flush the table alone holds every vote. */
    method FlushMutated()
      requires Valid()
      modifies this
      ensures Valid() && cache.Keys == old(cache).Keys
      ensures forall id: VoteId :: Votes(id) == old(Votes(id)) && Stored(id) == Votes(id)
    {
      hide Decoded, Encode;
      var todo := cache.Keys;
      while todo != {}
        invariant Valid() && cache.Keys == old(cache).Keys && todo <= cache.Keys
        invariant forall id: VoteId :: Votes(id) == old(Votes(id))
        invariant forall id | id in cache && id !in todo :: !cache[id].mutated
        decreases |todo|
      {
        var id :| id in todo;
        todo := todo - {id};
        if cache[id].mutated {
          Clean(id);
        }
      }
      forall id: VoteId
        ensures Stored(id) == Votes(id)
      {
      }
    }

    /** A restart after a flush: the cache is gone, no vote is. */
    method Reopen()
      requires Valid()
      modifies this
      ensures Valid() && cache == map[] && forall id: VoteId :: Votes(id) == old(Votes(id))
    {
      FlushMutated();
      cache := map[];
    }

    method Do(op: Op) returns (ok: bool)
      requires Valid() && (op.Vote? ==> op.validator < op.validators)
      modifies this
      ensures Valid() && forall id: VoteId :: Votes(id) == Applied(op, id, old(Votes(id)))
      ensures ok <==> op.Flush? || !Overflows(old(Votes(op.id)), op.validator)
    {
      hide Counted, Overflows, Decoded;
      match op
      case Vote(id, validator, validators, diff, loadEvicts, saveEvicts) =>
        var weight := AddVoteWeight(id, validator, validators, diff, loadEvicts, saveEvicts);
        ok := weight.Some?;
      case Flush =>
        FlushMutated();
        ok := true;
    }

    /** Any run of votes and flushes, with any evictions, refines the plain map, up to a vote without a bit. */
    method Run(ops: seq<Op>) returns (n: nat)
      requires Valid()
      requires forall op | op in ops && op.Vote? :: op.validator < op.validators
      modifies this
      ensures Valid() && n <= |ops| && forall id: VoteId :: Votes(id) == Apply(ops[..n], id, old(Votes(id)))
      ensures n < |ops| ==> ops[n].Vote? && Overflows(Votes(ops[n].id), ops[n].validator)
      ensures forall k | 0 <= k < n && ops[k].Vote? ::
        !Overflows(Apply(ops[..k], ops[k].id, old(Votes(ops[k].id))), ops[k].validator)
    {
      hide Applied, Overflows, Decoded;
      n := 0;
      while n < |ops|
        invariant n <= |ops| && Valid() && forall id: VoteId :: Votes(id) == Apply(ops[..n], id, old(Votes(id)))
        invariant forall k | 0 <= k < n && ops[k].Vote? ::
          !Overflows(Apply(ops[..k], ops[k].id, old(Votes(ops[k].id))), ops[k].validator)
      {
        assert ops[n] in ops;
        assert ops[..n + 1][..n] == ops[..n];
        OverflowChangesNothing(ops[n]);
        var ok := Do(ops[n]);
        if !ok {
          return;
        }
        n := n + 1;
      }
    }

    lemma OverflowChangesNothing(op: Op)
      ensures op.Vote? && Overflows(Votes(op.id), op.validator) ==> forall id: VoteId :: Applied(op, id, Votes(id)) == Votes(id)
    {
    }
  }
}
