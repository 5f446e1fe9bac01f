/**
 The block barrier of the parallel log search (topicsdb/sync.go).

 Every scanner holds one token on one block.  `State` is the data guarded by the
 mutex; the functions say what each critical section does to it, and class
 `Synchronizator` is the in-place code, proved to do exactly that.
 */
module Barrier {
  import opened Words

  /** `closed` says whether the wait channel of the block has been closed. */
  datatype BlockCounter = BlockCounter(closed: bool, count: int)

  datatype State = State(
    positions: map<nat, int>,
    goNext: bool,
    minBlock: uint64,
    blocks: map<uint64, BlockCounter>)

  const EMPTY := State(map[], true, 0, map[])

  ghost predicate IsLeast(m: uint64, keys: set<uint64>) {
    m in keys && forall b | b in keys :: m <= b
  }

  ghost function Least(keys: set<uint64>): (m: uint64)
    requires keys != {}
    ensures IsLeast(m, keys)
  {
    var x :| x in keys;
    var rest := keys - {x};
    assert keys == rest + {x};
    if rest == {} then x else
      var y := Least(rest);
      if x < y then x else y
  }

  lemma LeastIsUnique(m: uint64, keys: set<uint64>)
    requires IsLeast(m, keys)
    ensures m == Least(keys)
  {
  }

  /** Closing a channel twice panics, and so does following a missing counter. */
  ghost predicate CanDequeue(s: State) {
    && s.minBlock in s.blocks
    && forall b | b in s.blocks :: b != s.minBlock ==> !s.blocks[b].closed
  }

  function EnqueueBlock(s: State, n: uint64): State {
    if n in s.blocks
    then s.(blocks := s.blocks[n := s.blocks[n].(count := s.blocks[n].count + 1)])
    else s.(blocks := s.blocks[n := BlockCounter(false, 1)])
  }

  ghost function DequeueBlock(s: State): State
    requires CanDequeue(s)
  {
    var counter := s.blocks[s.minBlock].(count := s.blocks[s.minBlock].count - 1);
    if counter.count >= 1 then s.(blocks := s.blocks[s.minBlock := counter])
    else
      var left := s.(
        goNext := s.goNext && forall p | p in s.positions :: s.positions[p] >= 1,
        blocks := s.blocks - {s.minBlock});
      if left.blocks.Keys == {} then left
      else
        var m := Least(left.blocks.Keys);
        left.(minBlock := m, blocks := left.blocks[m := left.blocks[m].(closed := true)])
  }

  function StartThread(s: State, pos: nat): State {
    EnqueueBlock(s, s.minBlock).(
      positions := s.positions[pos := if pos in s.positions then s.positions[pos] + 1 else 1])
  }

  ghost function FinishThread(s: State, pos: nat): State
    requires CanDequeue(s) && pos in s.positions
  {
    DequeueBlock(s.(positions := s.positions[pos := s.positions[pos] - 1]))
  }

  /** The critical section of GoNext: take a token on n, give back the one on minBlock. */
  ghost function Advance(s: State, n: uint64): State
    requires CanDequeue(s)
  {
    DequeueBlock(EnqueueBlock(s, n))
  }

  class Synchronizator {
    var positions: map<nat, int>
    var goNext: bool
    var minBlock: uint64
    var blocks: map<uint64, BlockCounter>

    ghost function View(): State
      reads this
    {
      State(positions, goNext, minBlock, blocks)
    }

    constructor ()
      ensures View() == EMPTY
    {
      positions, goNext, minBlock, blocks := map[], true, 0, map[];
    }

    method Enqueue(n: uint64)
      modifies this
      ensures View() == EnqueueBlock(old(View()), n)
    {
      if n in blocks {
        blocks := blocks[n := blocks[n].(count := blocks[n].count + 1)];
      } else {
        blocks := blocks[n := BlockCounter(false, 1)];
      }
    }

    method AllPositionsLive() returns (all: bool)
      ensures all <==> forall p | p in positions :: positions[p] >= 1
    {
      var todo := positions.Keys;
      while todo != {}
        invariant todo <= positions.Keys
        invariant forall p | p in positions && p !in todo :: positions[p] >= 1
        decreases |todo|
      {
        var p :| p in todo;
        if positions[p] < 1 {
          return false;
        }
        todo := todo - {p};
      }
      return true;
    }

    method FindMinBlock() returns (m: uint64)
      requires blocks.Keys != {}
      ensures IsLeast(m, blocks.Keys)
    {
      m := MAX_UINT64;
      var todo := blocks.Keys;
      while todo != {}
        invariant todo <= blocks.Keys
        invariant forall b | b in blocks && b !in todo :: m <= b
        invariant m in blocks || (m == MAX_UINT64 && todo == blocks.Keys)
        invariant m == MAX_UINT64 ==> forall b | b in blocks && b !in todo :: b == m
        decreases |todo|
      {
        var b :| b in todo;
        if m > b {
          m := b;
        }
        todo := todo - {b};
      }
    }

    method Dequeue()
      requires CanDequeue(View())
      modifies this
      ensures View() == DequeueBlock(old(View()))
    {
      var counter := blocks[minBlock].(count := blocks[minBlock].count - 1);
      blocks := blocks[minBlock := counter];
      if counter.count < 1 {
        var live := AllPositionsLive();
        if !live {
          goNext := false;
        }
        blocks := blocks - {minBlock};
        assert blocks == old(blocks) - {minBlock};
        if blocks.Keys == {} {
          return;
        }
        minBlock := FindMinBlock();
        LeastIsUnique(minBlock, blocks.Keys);
        blocks := blocks[minBlock := blocks[minBlock].(closed := true)];
      }
    }

    method Start(pos: nat)
      modifies this
      ensures View() == StartThread(old(View()), pos)
    {
      Enqueue(minBlock);
      positions := positions[pos := if pos in positions then positions[pos] + 1 else 1];
    }

    method Finish(pos: nat)
      requires CanDequeue(View()) && pos in positions
      modifies this
      ensures View() == FinishThread(old(View()), pos)
    {
      positions := positions[pos := positions[pos] - 1];
      Dequeue();
    }

    /** The part of GoNext between Lock and Unlock, entered when n > minBlock. */
    method GoNext(n: uint64) returns (prev: uint64)
      requires CanDequeue(View())
      requires n > minBlock
      modifies this
      ensures prev == old(minBlock)
      ensures View() == Advance(old(View()), n)
    {
      prev := minBlock;
      Enqueue(n);
      Dequeue();
    }
  }
}
