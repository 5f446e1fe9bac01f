/**
 The transaction pool (evmcore/tx_pool.go): every operation keeps the lookup set equal
 to the disjoint union of the lists, and the pending nonces gap-free from the state nonce.
 */
module TxPool {
  import opened Common
  import opened NonceList
  import opened TxLookup
  import opened PoolBook
  import opened PoolReorg
  import FairShare
  import opened QueueOrder

  datatype Config = Config(
    priceBump: nat, accountSlots: nat, globalSlots: nat, accountQueue: nat, globalQueue: nat)

  datatype AddError =
    AlreadyKnown | GasLimit | InvalidTx | NonceTooLow | InsufficientFunds | Underpriced | Overflow | ReplaceUnderpriced

  datatype AddResult = Added(replaced: bool) | Rejected(error: AddError)

  datatype Check = Pass | Fail(error: AddError)

  /** What the price heaps answer when the pool is full. */
  datatype Pricing = Pricing(underpriced: bool, drop: seq<Tx>, success: bool)

  datatype Head = SameHead | NewHead(chain: Chain)

  datatype Op =
    | AddTx(tx: Tx, local: bool, sound: bool, pricing: Pricing)
    | RemoveTx(tx: Tx)
    | Reorg(head: Head, dirty: set<Addr>, beats: map<Addr, nat>)

  class TxPool {
    const config: Config
    var pending: map<Addr, Txs>
    var queue: map<Addr, Txs>
    var all: Lookup
    var nonces: map<Addr, nat>
    var chain: Chain
    var localAccounts: set<Addr>

    ghost function View(): Book
      reads this
    {
      Book(pending, queue, all, nonces)
    }

    function Nonce(a: Addr): nat
      reads this
    {
      Virtual(nonces, chain.nonce, a)
    }

    constructor (config: Config, chain: Chain, localAccounts: set<Addr>)
      ensures this.config == config && this.chain == chain && this.localAccounts == localAccounts
      ensures View() == EMPTY_BOOK && Consistent(View()) && Chained(View(), chain.nonce)
    {
      this.config, this.chain, this.localAccounts := config, chain, localAccounts;
      pending, queue, all, nonces := map[], map[], TxLookup.EMPTY, map[];
    }

    // ---------- moving transactions between the lists ----------

    /** enqueueTx for a new transaction (addAll). */
    method EnqueueNew(tx: Tx, local: bool) returns (r: AddResult)
      requires Consistent(View()) && tx !in all.All() && tx.nonce !in ListOf(pending, tx.from)
      modifies this`queue, this`all
      ensures Consistent(View())
      ensures r.Added? <==> Admits(ListOf(old(queue), tx.from), tx, config.priceBump)
      ensures r.Added? ==>
        && r.replaced == (tx.nonce in ListOf(old(queue), tx.from))
        && queue == Put(old(queue), tx.from, ListOf(old(queue), tx.from)[tx.nonce := tx])
        && all == Admitted(old(all), ListOf(old(queue), tx.from), tx, local)
      ensures r.Rejected? ==> r.error == ReplaceUnderpriced && queue == old(queue) && all == old(all)
    {
      var list := ListOf(queue, tx.from);
      if !Admits(list, tx, config.priceBump) {
        return Rejected(ReplaceUnderpriced);
      }
      ghost var before := View();
      if tx.nonce in list {
        all := all.Remove(list[tx.nonce]);
      }
      queue := Put(queue, tx.from, list[tx.nonce := tx]);
      all := all.Add(tx, local);
      PutSame(pending, tx.from);
      NewInQueue(before, tx, local);
      AdmittedAll(before.all, list, tx, local);
      r := Added(tx.nonce in list);
    }

    /** enqueueTx for a transaction that is already known (not addAll): it is never refused. */
    method Enqueue(tx: Tx, ghost limbo: Txs)
      requires ConsistentBut(View(), tx.from, limbo) && In(limbo, tx)
      modifies this`queue
      ensures ConsistentBut(View(), tx.from, limbo - {tx.nonce})
      ensures queue == Put(old(queue), tx.from, ListOf(old(queue), tx.from)[tx.nonce := tx])
    {
      ghost var before := View();
      Requeued(before, tx.from, limbo, tx.nonce);
      var list := ListOf(queue, tx.from);
      if Admits(list, tx, config.priceBump) {
        queue := Put(queue, tx.from, list[tx.nonce := tx]);
      }
      PutSame(pending, tx.from);
    }

    method EnqueueEach(a: Addr, txs: Txs)
      requires ConsistentBut(View(), a, txs)
      modifies this`queue
      ensures Consistent(View())
      ensures ListOf(queue, a) == ListOf(old(queue), a) + txs
      ensures forall c | c != a :: ListOf(queue, c) == ListOf(old(queue), c)
    {
      hide Consistent, ConsistentBut, Owned, Put, ListOf;
      var todo := txs;
      while todo.Keys != {}
        invariant Within(todo, txs)
        invariant ConsistentBut(View(), a, todo)
        invariant ListOf(queue, a) == ListOf(old(queue), a) + (txs - todo.Keys)
        invariant forall c | c != a :: ListOf(queue, c) == ListOf(old(queue), c)
        decreases |todo.Keys|
      {
        var n :| n in todo;
        MovedOne(ListOf(old(queue), a), txs, todo, n);
        LimboHolds(View(), a, todo, n);
        Enqueue(todo[n], todo);
        todo := todo - {n};
      }
      assert todo == map[];
      assert txs - todo.Keys == txs;
      NoLimbo(View(), a);
    }

    /** promoteTx: it is never refused, because the queue and pending nonces are apart. */
    method PromoteTx(tx: Tx, ghost limbo: Txs)
      requires ConsistentBut(View(), tx.from, limbo) && In(limbo, tx)
      modifies this`pending, this`nonces
      ensures ConsistentBut(View(), tx.from, limbo - {tx.nonce})
      ensures pending == Put(old(pending), tx.from, ListOf(old(pending), tx.from)[tx.nonce := tx])
      ensures nonces == old(nonces)[tx.from := tx.nonce + 1]
    {
      ghost var before := View();
      Promoted(before, tx.from, limbo, tx.nonce);
      var list := ListOf(pending, tx.from);
      if Admits(list, tx, config.priceBump) {
        pending := Put(pending, tx.from, list[tx.nonce := tx]);
        nonces := nonces[tx.from := tx.nonce + 1];
      }
      PutSame(queue, tx.from);
    }

    /** The pool forgets transactions that have already left their lists. */
    method Forget(txs: set<Tx>)
      requires all.Valid()
      modifies this`all
      ensures all.Valid() && all.All() == old(all.All()) - txs
    {
      var todo := txs;
      while todo != {}
        invariant todo <= txs
        invariant all.Valid() && all.All() == old(all.All()) - (txs - todo)
        decreases |todo|
      {
        var tx :| tx in todo;
        all := all.Remove(tx);
        todo := todo - {tx};
      }
    }

    // ---------- removeTx ----------

    /**
     Removes one transaction.  If it was pending, the later pending transactions of the
     account are queued again and the virtual nonce falls back to its nonce.
     */
    method RemoveTx(tx: Tx)
      requires Consistent(View())
      modifies this`pending, this`queue, this`all, this`nonces
      ensures Consistent(View())
      ensures all == old(all).Remove(tx)
      ensures OthersSame(old(View()), View(), chain, tx.from)
      ensures tx !in old(all.All()) ==> View() == old(View())
      ensures In(ListOf(old(pending), tx.from), tx) ==>
        && ListOf(pending, tx.from) == Below(ListOf(old(pending), tx.from), tx.nonce)
        && ListOf(queue, tx.from) == ListOf(old(queue), tx.from) + From(ListOf(old(pending), tx.from), tx.nonce + 1)
        && nonces == SetIfLower(old(nonces), chain.nonce, tx.from, tx.nonce)
      ensures In(ListOf(old(queue), tx.from), tx) ==>
        && pending == old(pending) && nonces == old(nonces)
        && ListOf(queue, tx.from) == ListOf(old(queue), tx.from) - {tx.nonce}
      ensures Chained(old(View()), chain.nonce) ==> Chained(View(), chain.nonce)
    {
      if tx !in all.locals && tx !in all.remotes {
        return;
      }
      ghost var before := View();
      assert Listed(before, tx);
      assert ListOf(pending, tx.from).Keys !! ListOf(queue, tx.from).Keys;
      all := all.Remove(tx);
      var list := ListOf(pending, tx.from);
      if tx.nonce in list {
        RemovedFromPending(before, tx);
        PutSame(queue, tx.from);
        pending := Put(pending, tx.from, Below(list, tx.nonce));
        EnqueueEach(tx.from, From(list, tx.nonce + 1));
        nonces := SetIfLower(nonces, chain.nonce, tx.from, tx.nonce);
      } else {
        RemovedFromQueue(before, tx);
        PutSame(pending, tx.from);
        queue := Put(queue, tx.from, ListOf(queue, tx.from) - {tx.nonce});
      }
      if Chained(before, chain.nonce) { RemovalKeepsChained(before, tx); }
    }

    lemma RemovalKeepsChained(before: Book, tx: Tx)
      requires Chained(before, chain.nonce) && OthersSame(before, View(), chain, tx.from)
      requires
        || (&& tx.nonce in ListOf(before.pending, tx.from)
            && ListOf(pending, tx.from) == Below(ListOf(before.pending, tx.from), tx.nonce)
            && ListOf(queue, tx.from) == ListOf(before.queue, tx.from) + From(ListOf(before.pending, tx.from), tx.nonce + 1)
            && nonces == SetIfLower(before.nonces, chain.nonce, tx.from, tx.nonce))
        || (&& pending == before.pending && nonces == before.nonces
            && ListOf(queue, tx.from) == ListOf(before.queue, tx.from) - {tx.nonce})
      ensures Chained(View(), chain.nonce)
    {
      var a := tx.from;
      var p, q := ListOf(before.pending, a), ListOf(before.queue, a);
      assert ChainedAt(p, q, chain.nonce(a), Virtual(before.nonces, chain.nonce, a));
      if ListOf(queue, a) == q + From(p, tx.nonce + 1) && tx.nonce in p {
        ChainedAfterRemoval(p, q, chain.nonce(a), Virtual(before.nonces, chain.nonce, a), tx.nonce);
      }
      ChainedElsewhere(before, View(), chain.nonce, a);
    }

    // ---------- add ----------

    method Drop(tx: Tx)
      requires Consistent(View()) && Chained(View(), chain.nonce)
      modifies this`pending, this`queue, this`all, this`nonces
      ensures Consistent(View()) && Chained(View(), chain.nonce)
      ensures all == old(all).Remove(tx) && (tx !in old(all.All()) ==> View() == old(View()))
    {
      RemoveTx(tx);
    }

    method RemoveEach(txs: seq<Tx>)
      requires Consistent(View()) && Chained(View(), chain.nonce)
      modifies this`pending, this`queue, this`all, this`nonces
      ensures Consistent(View()) && Chained(View(), chain.nonce)
      ensures all == Evicted(old(all), txs)
      ensures (forall t | t in txs :: t !in old(all.All())) ==> View() == old(View())
    {
      hide Consistent, Chained;
      var i := 0;
      while i < |txs|
        invariant 0 <= i <= |txs|
        invariant Consistent(View()) && Chained(View(), chain.nonce)
        invariant all == Evicted(old(all), txs[..i])
        invariant (forall t | t in txs :: t !in old(all.All())) ==> View() == old(View())
      {
        assert txs[i] in txs;
        assert txs[..i + 1][..i] == txs[..i];
        Drop(txs[i]);
        i := i + 1;
      }
      assert txs[..|txs|] == txs;
    }

    /** The checks of validateTx that look at the pool and the chain; `sound` stands for the others. */
    method ValidateTx(tx: Tx, sound: bool) returns (c: Check)
      ensures c.Pass? <==> Passes(tx, sound)
      ensures c.Fail? ==> c.error in {GasLimit, InvalidTx, NonceTooLow, InsufficientFunds}
    {
      if chain.maxGas < tx.gas {
        return Fail(GasLimit);
      }
      if !sound {
        return Fail(InvalidTx);
      }
      if chain.nonce(tx.from) > tx.nonce {
        return Fail(NonceTooLow);
      }
      if chain.balance(tx.from) < tx.cost {
        return Fail(InsufficientFunds);
      }
      return Pass;
    }

    method ReplacePending(tx: Tx, local: bool)
      requires Consistent(View()) && Chained(View(), chain.nonce)
      requires tx !in all.All() && tx.nonce in ListOf(pending, tx.from)
      modifies this`pending, this`all
      ensures Consistent(View()) && Chained(View(), chain.nonce)
      ensures pending == Put(old(pending), tx.from, ListOf(old(pending), tx.from)[tx.nonce := tx])
      ensures all == Admitted(old(all), ListOf(old(pending), tx.from), tx, local)
    {
      hide Consistent, Chained, ListsOk;
      ghost var before := View();
      ReplacedKeepsChained(before, tx, local, chain.nonce);
      var list := ListOf(pending, tx.from);
      all := all.Remove(list[tx.nonce]);
      pending := Put(pending, tx.from, list[tx.nonce := tx]);
      all := all.Add(tx, local);
      PutSame(queue, tx.from);
    }

    /** The sender becomes local, and its remote transactions with it. */
    method MarkLocal(a: Addr)
      requires Consistent(View())
      modifies this`all, this`localAccounts
      ensures Consistent(View()) && all == old(all).RemoteToLocals(localAccounts)
      ensures old(Chained(View(), chain.nonce)) ==> Chained(View(), chain.nonce)
      ensures localAccounts == old(localAccounts) + {a} && forall t | t in all.remotes :: t.from !in localAccounts
    {
      localAccounts := localAccounts + {a};
      SameTransactions(View(), all.RemoteToLocals(localAccounts));
      all := all.RemoteToLocals(localAccounts);
    }

    method InsertQueued(tx: Tx, isLocal: bool) returns (r: AddResult)
      requires Consistent(View()) && Chained(View(), chain.nonce)
      requires tx !in all.All() && Nonce(tx.from) <= tx.nonce
      modifies this`queue, this`all
      ensures Consistent(View()) && Chained(View(), chain.nonce)
      ensures r.Added? <==> Admits(ListOf(old(queue), tx.from), tx, config.priceBump)
      ensures r.Rejected? ==> r.error == ReplaceUnderpriced && View() == old(View())
      ensures r.Added? ==>
        && queue == Put(old(queue), tx.from, ListOf(old(queue), tx.from)[tx.nonce := tx])
        && all == Admitted(old(all), ListOf(old(queue), tx.from), tx, isLocal)
    {
      ghost var before := View();
      assert ChainedAt(ListOf(pending, tx.from), ListOf(queue, tx.from), chain.nonce(tx.from), Nonce(tx.from));
      r := EnqueueNew(tx, isLocal);
      ChainedElsewhere(before, View(), chain.nonce, tx.from);
    }

    /** The second half of add, after room has been made: refused exactly by a transaction in its place that it does not outbid. */
    method Insert(tx: Tx, local: bool, isLocal: bool) returns (r: AddResult)
      requires Consistent(View()) && Chained(View(), chain.nonce)
      requires tx !in all.All() && chain.nonce(tx.from) <= tx.nonce && (isLocal <==> local || tx.from in localAccounts)
      modifies this`pending, this`queue, this`all, this`localAccounts
      ensures Consistent(View()) && Chained(View(), chain.nonce)
      ensures r.Added? <==> !old(Blocked(all.All(), tx, config.priceBump))
      ensures r.Rejected? ==> r.error == ReplaceUnderpriced && View() == old(View())
      ensures r.Added? ==>
        && In(Home(View(), chain.nonce, tx), tx)
        && Enters(old(all), all, tx, isLocal, old(localAccounts), localAccounts)
      ensures localAccounts == old(localAccounts) + if r.Added? && local && tx.nonce >= Nonce(tx.from) then {tx.from} else {}
    {
      hide Consistent, Chained, Blocked, SameSlot;
      HomeHolds(View(), chain.nonce, tx, config.priceBump);
      var list := ListOf(pending, tx.from);
      if tx.nonce in list {
        if !Outbids(tx, list[tx.nonce], config.priceBump) {
          return Rejected(ReplaceUnderpriced);
        }
        ReplacePending(tx, isLocal);
        return Added(true);
      }
      r := InsertQueued(tx, isLocal);
      if r.Added? && local && tx.from !in localAccounts {
        MarkLocal(tx.from);
      }
    }

    /** The pool would not hold the transaction as well. */
    ghost predicate Crowded(tx: Tx)
      reads this
    {
      all.slots + NumSlots(tx) > config.globalSlots + config.globalQueue
    }

    ghost predicate Passes(tx: Tx, sound: bool)
      reads this
    {
      sound && tx.gas <= chain.maxGas && chain.nonce(tx.from) <= tx.nonce && tx.cost <= chain.balance(tx.from)
    }

    ghost predicate Fresh(tx: Tx, sound: bool)
      reads this
    {
      tx !in all.All() && Passes(tx, sound)
    }

    /** Not turned away for lack of room. */
    ghost predicate Affords(tx: Tx, local: bool, pricing: Pricing)
      reads this
    {
      Crowded(tx) ==> Privileged(tx, local) || (!pricing.underpriced && pricing.success)
    }

    /** The lookup set when room has been made. */
    ghost function Room(tx: Tx, pricing: Pricing): Lookup
      reads this
    {
      if Crowded(tx) then Evicted(all, pricing.drop) else all
    }

    ghost predicate Privileged(tx: Tx, local: bool)
      reads this
    {
      local || tx.from in localAccounts
    }

    /**
     Adds a transaction.  A refusal leaves the pool as it was, except that a refused
     replacement does not bring back what was discarded to make room for it: then the pool is
     as it was exactly if there was room, or nothing discarded was in it.
     */
    method Add(tx: Tx, local: bool, sound: bool, pricing: Pricing) returns (r: AddResult)
      requires Consistent(View()) && Chained(View(), chain.nonce)
      modifies this`pending, this`queue, this`all, this`nonces, this`localAccounts
      ensures Consistent(View()) && Chained(View(), chain.nonce)
      ensures r == Rejected(AlreadyKnown) <==> tx in old(all.All())
      ensures r.Rejected? && r.error in {GasLimit, InvalidTx, NonceTooLow, InsufficientFunds} <==>
        tx !in old(all.All()) && !old(Passes(tx, sound))
      ensures r.Rejected? && r.error != ReplaceUnderpriced ==> View() == old(View())
      ensures r.Added? ==>
        && old(Passes(tx, sound)) && In(Home(View(), chain.nonce, tx), tx)
        && Enters(old(Room(tx, pricing)), all, tx, old(Privileged(tx, local)), old(localAccounts), localAccounts)
      ensures localAccounts == old(localAccounts) + if r.Added? && local && tx.nonce >= Nonce(tx.from) then {tx.from} else {}
      ensures r == Rejected(Underpriced) <==> old(Fresh(tx, sound) && Crowded(tx) && !Privileged(tx, local)) && pricing.underpriced
      ensures r == Rejected(Overflow) <==>
        old(Fresh(tx, sound) && Crowded(tx) && !Privileged(tx, local)) && !pricing.underpriced && !pricing.success
      ensures r == Rejected(ReplaceUnderpriced) <==>
        old(Fresh(tx, sound) && Affords(tx, local, pricing) && Blocked(Room(tx, pricing).All(), tx, config.priceBump))
      ensures r == Rejected(ReplaceUnderpriced) ==>
        && all == old(Room(tx, pricing))
        && (View() == old(View()) <==> !old(Crowded(tx)) || forall t | t in pricing.drop :: t !in old(all.All()))
    {
      hide Consistent, Chained;
      if tx in all.locals || tx in all.remotes {
        return Rejected(AlreadyKnown);
      }
      var isLocal := local || tx.from in localAccounts;
      var check := ValidateTx(tx, sound);
      if check.Fail? {
        return Rejected(check.error);
      }
      if all.slots + NumSlots(tx) > config.globalSlots + config.globalQueue {
        if !isLocal && pricing.underpriced {
          return Rejected(Underpriced);
        }
        if !isLocal && !pricing.success {
          return Rejected(Overflow);
        }
        RemoveEach(pricing.drop);
      }
      r := Insert(tx, local, isLocal);
    }

    // ---------- promoteExecutables ----------

    /** Drops what is stale or unpayable and takes out what is executable. */
    method TakeReady(a: Addr) returns (ready: Txs)
      requires Consistent(View())
      modifies this`queue, this`all
      ensures ConsistentBut(View(), a, ready)
      ensures var fit := Executable(ListOf(old(queue), a), chain.nonce(a), chain.balance(a), chain.maxGas);
        && ready == Ready(fit, Nonce(a))
        && queue == Put(old(queue), a, fit - ready.Keys)
    {
      hide Consistent, ConsistentBut, Ready, ListsOk, Owned, Below, From, Unpayable, Payable, In;
      ghost var before := View();
      ghost var stale := Stale(ListOf(queue, a), chain.nonce(a), chain.balance(a), chain.maxGas);
      QueueOwned(a);
      StaleIsGone(ListOf(queue, a), a, chain.nonce(a), chain.balance(a), chain.maxGas);
      var list := ListOf(queue, a);
      var forwards := Below(list, chain.nonce(a));
      list := From(list, chain.nonce(a));
      Forget(forwards.Values);
      var drops := Unpayable(list, chain.balance(a), chain.maxGas);
      list := Payable(list, chain.balance(a), chain.maxGas);
      Forget(drops.Values);
      assert all.All() == before.all.All() - stale;
      ready := Ready(list, Nonce(a));
      ReadyWithin(list, Nonce(a));
      ExecutableWithin(ListOf(before.queue, a), chain.nonce(a), chain.balance(a), chain.maxGas);
      queue := Put(queue, a, list - ready.Keys);
      PutSame(pending, a);
      PoolBook.TakeReady(before, a, list, ready, stale, all);
    }

    lemma QueueOwned(a: Addr)
      requires Consistent(View())
      ensures Owned(ListOf(queue, a), a) && Owned(ListOf(pending, a), a)
      ensures ListsOk(pending) && ListsOk(queue) && all.Valid()
    {
    }

    method PromoteReady(a: Addr, ready: Txs)
      requires ConsistentBut(View(), a, ready)
      requires ready.Keys != {} ==> Interval(ready, Min(ready.Keys), Max(ready.Keys) + 1)
      modifies this`pending, this`nonces
      ensures Consistent(View())
      ensures ListOf(pending, a) == ListOf(old(pending), a) + ready
      ensures forall c | c != a :: ListOf(pending, c) == ListOf(old(pending), c)
      ensures nonces == if ready.Keys == {} then old(nonces) else old(nonces)[a := Max(ready.Keys) + 1]
    {
      hide Consistent, ConsistentBut, From, Below, Interval, ListsOk, In, Put, ListOf;
      if ready.Keys == {} {
        assert ready == map[];
        NoLimbo(View(), a);
        return;
      }
      PromoteRun(a, ready, Min(ready.Keys), Max(ready.Keys) + 1);
    }

    method PromoteNext(a: Addr, ready: Txs, ghost lo: nat, ghost hi: nat, n: nat, ghost base: Txs)
      requires Interval(ready, lo, hi) && lo <= n < hi && ConsistentBut(View(), a, From(ready, n))
      requires ListOf(pending, a) == base + Below(ready, n)
      modifies this`pending, this`nonces
      ensures ConsistentBut(View(), a, From(ready, n + 1)) && ListOf(pending, a) == base + Below(ready, n + 1)
      ensures forall c | c != a :: ListOf(pending, c) == ListOf(old(pending), c)
      ensures nonces == old(nonces)[a := n + 1]
    {
      hide ConsistentBut, From, Below, Interval, Put, ListOf;
      Walk(base, ready, lo, hi, n);
      LimboHolds(View(), a, From(ready, n), n);
      PromoteTx(ready[n], From(ready, n));
    }

    /** The run in nonce order. */
    method PromoteRun(a: Addr, ready: Txs, lo: nat, hi: nat)
      requires ConsistentBut(View(), a, ready) && Interval(ready, lo, hi) && lo < hi
      modifies this`pending, this`nonces
      ensures Consistent(View())
      ensures ListOf(pending, a) == ListOf(old(pending), a) + ready
      ensures forall c | c != a :: ListOf(pending, c) == ListOf(old(pending), c)
      ensures nonces == old(nonces)[a := hi]
    {
      hide Consistent, ConsistentBut, From, Below, Interval, ListsOk, In, Put, ListOf, Owned;
      ghost var base := ListOf(pending, a);
      var n := lo;
      Walk(base, ready, lo, hi, n);
      while n < hi
        invariant lo <= n <= hi
        invariant ConsistentBut(View(), a, From(ready, n))
        invariant ListOf(pending, a) == base + Below(ready, n)
        invariant forall c | c != a :: ListOf(pending, c) == ListOf(old(pending), c)
        invariant nonces == if n == lo then old(nonces) else old(nonces)[a := n]
      {
        PromoteNext(a, ready, lo, hi, n, base);
        n := n + 1;
      }
      Walk(base, ready, lo, hi, n);
      NoLimbo(View(), a);
    }

    static lemma LimboHolds(b: Book, a: Addr, limbo: Txs, n: nat)
      requires ConsistentBut(b, a, limbo) && n in limbo
      ensures limbo[n].nonce == n && limbo[n].from == a
    {
    }

    method CapQueue(a: Addr)
      requires Consistent(View())
      modifies this`queue, this`all
      ensures Consistent(View())
      ensures queue == Put(old(queue), a, Cap(ListOf(old(queue), a), config.accountQueue))
    {
      hide Consistent, Cap, ListsOk;
      ghost var before := View();
      QueueOwned(a);
      var list := ListOf(queue, a);
      var kept := Cap(list, config.accountQueue);
      var caps := list - kept.Keys;
      CapsAre(list, a, config.accountQueue);
      Forget(caps.Values);
      queue := Put(queue, a, kept);
      PutSame(pending, a);
      Shrunk(before, a, caps.Values, all, ListOf(pending, a), kept);
    }

    static lemma CapsAre(list: Txs, a: Addr, k: nat)
      requires Owned(list, a)
      ensures var kept := Cap(list, k);
        Within(kept, list) && forall tx: Tx :: tx in (list - kept.Keys).Values <==> In(list, tx) && tx.nonce !in kept
    {
      hide Cap;
      CapIsPrefix(list, k);
      forall tx: Tx
        ensures tx in (list - Cap(list, k).Keys).Values <==> In(list, tx) && tx.nonce !in Cap(list, k)
      {
        ValuesAreIn(list - Cap(list, k).Keys, a, tx);
      }
    }

    /** One account's turn in promoteExecutables. */
    method PromoteAccount(a: Addr)
      requires Consistent(View())
      modifies this`pending, this`queue, this`all, this`nonces
      ensures Consistent(View())
      ensures Promotes(old(View()), View(), chain, config.accountQueue, a in localAccounts, a)
    {
      hide Consistent, ConsistentBut, Ready, Cap, ListsOk, Executable, Interval, Put, ListOf, Promotes, Virtual;
      ghost var before := View();
      ghost var fit := Executable(ListOf(queue, a), chain.nonce(a), chain.balance(a), chain.maxGas);
      ReadyShape(fit, Nonce(a));
      var ready := TakeReady(a);
      PromoteReady(a, ready);
      if a !in localAccounts {
        CapQueue(a);
      }
      OneTurn(before, View(), chain, config.accountQueue, a in localAccounts, a, fit, ready);
    }

    /** The order in which the accounts are visited does not matter. */
    method PromoteExecutables(accounts: set<Addr>, ghost reset: bool)
      requires Consistent(View())
      requires if reset then accounts == queue.Keys && forall a: Addr :: LooseIn(View(), chain, a)
               else Chained(View(), chain.nonce)
      modifies this`pending, this`queue, this`all, this`nonces
      ensures Consistent(View())
      ensures if reset then forall a: Addr :: MixedIn(View(), chain, a) else Chained(View(), chain.nonce)
      ensures AllPromoted(old(View()), View(), chain, config.accountQueue, localAccounts, accounts)
    {
      hide Consistent, Chained, Promoting, Promotes, Mixed, Loose, AllPromoted;
      var todo := accounts;
      if reset { PromotingStarts(View(), chain); }
      NobodyPromoted(View(), chain, config.accountQueue, localAccounts);
      assert accounts - todo == {};
      while todo != {}
        invariant todo <= accounts && Consistent(View())
        invariant AllPromoted(old(View()), View(), chain, config.accountQueue, localAccounts, accounts - todo)
        invariant if reset then Promoting(View(), chain, todo) else Chained(View(), chain.nonce)
        decreases |todo|
      {
        var a :| a in todo;
        ghost var before := View();
        PromoteAccount(a);
        PromotedStep(old(View()), before, View(), chain, config.accountQueue, localAccounts, accounts - todo, a);
        assert accounts - todo + {a} == accounts - (todo - {a});
        if reset {
          PromotingStep(before, View(), chain, config.accountQueue, a in localAccounts, a, todo);
        } else {
          PromotesChained(before, View(), chain, config.accountQueue, a in localAccounts, a);
        }
        todo := todo - {a};
      }
      if reset { PromotingEnds(View(), chain); }
      assert accounts - todo == accounts;
    }

    // ---------- demoteUnexecutables ----------

    /** Drops what is old or unpayable and takes out what is no longer executable. */
    method TakeBack(a: Addr) returns (back: Txs)
      requires Consistent(View())
      modifies this`pending, this`all
      ensures ConsistentBut(View(), a, back)
      ensures var list := ListOf(old(pending), a);
        && back == DemotedBack(list, chain.nonce(a), chain.balance(a), chain.maxGas)
        && pending == Put(old(pending), a, DemotedPending(list, chain.nonce(a), chain.balance(a), chain.maxGas))
    {
      hide Consistent, ConsistentBut, Kept, Invalidated, ListsOk, In, Owned, Below, From, Unpayable, Put, ListOf;
      ghost var before := View();
      QueueOwned(a);
      var nonce := chain.nonce(a);
      var list := ListOf(pending, a);
      PartsOwned(list, a, nonce, chain.balance(a), chain.maxGas);
      var olds := Below(list, nonce);
      var rest := From(list, nonce);
      Forget(olds.Values);
      var drops := Unpayable(rest, chain.balance(a), chain.maxGas);
      back := Invalidated(rest, true, chain.balance(a), chain.maxGas);
      var kept := Kept(rest, true, chain.balance(a), chain.maxGas);
      Forget(drops.Values);
      if nonce !in kept {
        back := back + kept;
        kept := map[];
      }
      BothAreIn(olds, drops, a);
      assert back == DemotedBack(list, nonce, chain.balance(a), chain.maxGas);
      assert kept == DemotedPending(list, nonce, chain.balance(a), chain.maxGas);
      pending := Put(pending, a, kept);
      PutSame(queue, a);
      TakeDemoted(before, a, nonce, chain.balance(a), chain.maxGas, olds.Values + drops.Values, all);
    }

    /** One account's turn in demoteUnexecutables. */
    method DemoteAccount(a: Addr)
      requires Consistent(View())
      modifies this`pending, this`queue, this`all
      ensures Consistent(View())
      ensures Demotes(old(View()), View(), chain, a)
    {
      hide Consistent, ConsistentBut, DemotedBack, DemotedPending;
      var back := TakeBack(a);
      EnqueueEach(a, back);
    }

    static lemma PartsOwned(list: Txs, a: Addr, nonce: nat, balance: nat, maxGas: nat)
      requires Owned(list, a)
      ensures Owned(Below(list, nonce), a) && Owned(Unpayable(From(list, nonce), balance, maxGas), a)
    {
    }

    static lemma BothAreIn(l: Txs, m: Txs, a: Addr)
      requires Owned(l, a) && Owned(m, a)
      ensures forall tx: Tx :: tx in l.Values + m.Values <==> In(l, tx) || In(m, tx)
    {
      forall tx: Tx
        ensures tx in l.Values + m.Values <==> In(l, tx) || In(m, tx)
      {
        ValuesAreIn(l, a, tx);
        ValuesAreIn(m, a, tx);
      }
    }

    method DemoteUnexecutables()
      requires Consistent(View()) && forall a: Addr :: MixedIn(View(), chain, a)
      modifies this`pending, this`queue, this`all
      ensures Consistent(View()) && Front(View(), chain)
      ensures AllDemoted(old(View()), View(), chain, {})
    {
      hide Consistent, Demoting, Demotes, Mixed, FrontAt, AllDemoted;
      var todo := pending.Keys;
      DemotingStarts(View(), chain);
      NobodyDemoted(View(), chain);
      while todo != {}
        invariant Consistent(View()) && Demoting(View(), chain, todo)
        invariant AllDemoted(old(View()), View(), chain, todo)
        decreases |todo|
      {
        var a :| a in todo;
        ghost var before := View();
        DemoteAccount(a);
        DemotingStep(before, View(), chain, a, todo);
        DemotedStep(old(View()), before, View(), chain, todo, a);
        todo := todo - {a};
      }
      DemotingEnds(View(), chain);
    }

    /** The pool takes over a new chain head; nothing is reinjected. */
    method Reset(head: Chain)
      requires Consistent(View()) && Chained(View(), chain.nonce)
      modifies this`chain, this`nonces
      ensures chain == head && nonces == map[]
      ensures Consistent(View()) && forall a: Addr :: LooseIn(View(), chain, a)
    {
      hide Loose;
      ghost var before, state := View(), chain.nonce;
      chain, nonces := head, map[];
      forall a: Addr
        ensures LooseIn(View(), chain, a)
      {
        assert ChainedAt(ListOf(before.pending, a), ListOf(before.queue, a), state(a), Virtual(before.nonces, state, a));
        ResetLoosens(ListOf(before.pending, a), ListOf(before.queue, a), state(a), Virtual(before.nonces, state, a), chain.nonce(a));
      }
    }

    // ---------- truncatePending ----------

    /** list.Cap(list.Len() - 1) on a pending list, with its effect on the rest of the pool. */
    method CapByOne(a: Addr)
      requires Consistent(View()) && a in pending && |pending[a]| >= 2
      modifies this`pending, this`all, this`nonces
      ensures Consistent(View())
      ensures pending == old(pending)[a := Cap(old(pending)[a], |old(pending)[a]| - 1)]
      ensures Front(old(View()), chain) ==> Front(View(), chain)
    {
      hide Consistent, Front, Cap, SetIfLower;
      ghost var before := View();
      var list := pending[a];
      assert list.Keys != {} by { assert |list.Keys| == |list|; }
      var last := Max(list.Keys);
      CapDropsLast(list);
      all := all.Remove(list[last]);
      nonces := SetIfLower(nonces, chain.nonce, a, last);
      pending := pending[a := list - {last}];
      assert View() == WithoutLast(before, chain, a);
      TruncatedConsistent(before, chain, a);
      if Front(before, chain) { TruncatedFront(before, chain, a); }
    }

    /** One transaction off each offender. */
    method Round(offenders: seq<Addr>, count: nat, ghost lists: map<Addr, Txs>, ghost c: nat) returns (left: nat)
      requires Consistent(View()) && Front(View(), chain)
      requires pending == FairShare.Shape(lists, localAccounts, c) && count == FairShare.Total(pending)
      requires c >= 2
      requires forall i, j | 0 <= i < j < |offenders| :: offenders[i] != offenders[j]
      requires forall a | a in offenders :: a in lists && a !in localAccounts && |lists[a]| >= c
      requires forall a | a in lists && a !in localAccounts && a !in offenders :: |lists[a]| < c
      modifies this`pending, this`all, this`nonces
      ensures Consistent(View()) && Front(View(), chain)
      ensures pending == FairShare.Shape(lists, localAccounts, c - 1) && left == FairShare.Total(pending)
    {
      hide Consistent, Front, Cap, FairShare.Total, FairShare.Halfway, FairShare.Shape;
      left := count;
      ghost var done: set<Addr> := {};
      FairShare.RoundStarts(lists, localAccounts, c);
      for i := 0 to |offenders|
        invariant Consistent(View()) && Front(View(), chain)
        invariant forall a :: a in done <==> a in offenders[..i]
        invariant pending == FairShare.Halfway(lists, localAccounts, c, done) && left == FairShare.Total(pending)
      {
        var a := offenders[i];
        HalfwayHas(lists, c, done, a);
        FairShare.HalfwayStep(lists, localAccounts, c, done, a);
        CapByOne(a);
        left := left - 1;
        done := done + {a};
      }
      FairShare.RoundEnds(lists, localAccounts, c, done);
    }

    lemma HalfwayHas(lists: map<Addr, Txs>, c: nat, done: set<Addr>, a: Addr)
      requires c > 0 && a in lists
      ensures a in FairShare.Halfway(lists, localAccounts, c, done)
    {
    }

    /** Rounds over the accounts `top` until the rest fits or they are down to the floor. */
    method Reduce(top: seq<Addr>, floor: nat, count: nat, ghost lists: map<Addr, Txs>, ghost level: nat)
      returns (left: nat, ghost level': nat)
      requires Consistent(View()) && Front(View(), chain)
      requires pending == FairShare.Shape(lists, localAccounts, level) && count == FairShare.Total(pending)
      requires top != [] && floor >= 1 && FairShare.OnTop(lists, localAccounts, top, floor, level)
      requires FairShare.Tight(lists, localAccounts, config.globalSlots, level)
      modifies this`pending, this`all, this`nonces
      ensures Consistent(View()) && Front(View(), chain)
      ensures pending == FairShare.Shape(lists, localAccounts, level') && left == FairShare.Total(pending)
      ensures floor <= level' <= level && FairShare.Tight(lists, localAccounts, config.globalSlots, level')
      ensures left <= config.globalSlots || level' == floor
    {
      hide Consistent, Front, Cap, FairShare.Total, FairShare.Shape;
      left, level' := count, level;
      var probe := top[|top| - 1];
      FairShare.ShapeLength(lists, localAccounts, level', probe);
      while left > config.globalSlots && |pending[probe]| > floor
        invariant Consistent(View()) && Front(View(), chain)
        invariant floor <= level' <= level
        invariant pending == FairShare.Shape(lists, localAccounts, level') && left == FairShare.Total(pending)
        invariant probe in pending && |pending[probe]| == level'
        invariant FairShare.Tight(lists, localAccounts, config.globalSlots, level')
        decreases level'
      {
        left := Round(top, left, lists, level');
        level' := level' - 1;
        FairShare.ShapeLength(lists, localAccounts, level', probe);
      }
    }

    method CountPending() returns (n: nat)
      ensures n == FairShare.Total(pending)
    {
      n := 0;
      var todo := pending.Keys;
      while todo != {}
        invariant todo <= pending.Keys
        invariant n + FairShare.Sum(pending, todo) == FairShare.Total(pending)
        decreases |todo|
      {
        var a :| a in todo;
        FairShare.SumWithout(pending, todo, a);
        n := n + |pending[a]|;
        todo := todo - {a};
      }
    }

    /**
     Leaves every non-local account with the `level` lowest of its nonces, where the level
     is the one that max-min fairness prescribes; local accounts are untouched.
     */
    method TruncatePending() returns (ghost level: nat)
      requires Consistent(View()) && Front(View(), chain) && config.accountSlots >= 1
      modifies this`pending, this`all, this`nonces
      ensures Consistent(View()) && Front(View(), chain)
      ensures FairShare.IsFair(old(pending), localAccounts, config.accountSlots, config.globalSlots, level)
      ensures pending == FairShare.Shape(old(pending), localAccounts, level)
      ensures FairShare.Total(old(pending)) <= config.globalSlots ==> pending == old(pending)
    {
      hide Consistent, Front, Cap, FairShare.Total, FairShare.Shape, FairShare.Popped, FairShare.OnTop;
      var count := CountPending();
      ghost var lists := pending;
      if count <= config.globalSlots {
        level := count + config.accountSlots;
        FairShare.AllFit(lists, localAccounts, level);
        return;
      }
      var spammers := set a | a in pending && a !in localAccounts && |pending[a]| > config.accountSlots;
      var offenders: seq<Addr> := [];
      level := count + config.accountSlots;
      FairShare.AllFit(lists, localAccounts, level);
      FairShare.PopStarts(lists, localAccounts, config.accountSlots);
      while count > config.globalSlots && spammers != {}
        invariant Consistent(View()) && Front(View(), chain)
        invariant FairShare.Popped(lists, localAccounts, config.accountSlots, spammers, offenders)
        invariant pending == FairShare.Shape(lists, localAccounts, level) && count == FairShare.Total(pending)
        invariant level >= config.accountSlots
        invariant FairShare.Tight(lists, localAccounts, config.globalSlots, level)
        invariant count > config.globalSlots ==>
          if offenders == [] then FairShare.NothingDropped(lists, localAccounts, level)
          else FairShare.OnTop(lists, localAccounts, offenders, level, level)
        decreases |spammers|
      {
        var offender := Pop(spammers, lists, offenders, level);
        FairShare.PopNext(lists, localAccounts, config.accountSlots, spammers, offenders, offender);
        if offenders == [] {
          assert offenders + [offender] == [offender];
          FairShare.FirstLevel(lists, localAccounts, config.accountSlots, spammers - {offender}, offender, level);
          level := |lists[offender]|;
        } else {
          FairShare.NextFloor(lists, localAccounts, config.accountSlots, spammers, offenders, offender, level);
          ghost var at := level;
          count, level := Reduce(offenders, |pending[offender]|, count, lists, level);
          if count > config.globalSlots { FairShare.JoinTop(lists, localAccounts, offenders, offender, at); }
        }
        offenders := offenders + [offender];
        spammers := spammers - {offender};
      }
      if count > config.globalSlots {
        FairShare.LastFloor(lists, localAccounts, config.accountSlots, offenders, level);
        if |offenders| > 0 {
          count, level := Reduce(offenders, config.accountSlots, count, lists, level);
        }
        if count > config.globalSlots { FairShare.Allowed(lists, localAccounts, config.accountSlots, level); }
      }
    }

    /** The priority queue yields an account with the most transactions. */
    method Pop(spammers: set<Addr>, ghost lists: map<Addr, Txs>, ghost offenders: seq<Addr>, ghost level: nat) returns (m: Addr)
      requires spammers != {} && pending == FairShare.Shape(lists, localAccounts, level)
      requires FairShare.Popped(lists, localAccounts, config.accountSlots, spammers, offenders)
      requires if offenders == [] then FairShare.NothingDropped(lists, localAccounts, level)
               else FairShare.OnTop(lists, localAccounts, offenders, level, level)
      ensures m in spammers && m in lists && m in pending && pending[m] == lists[m]
      ensures forall a | a in spammers :: |FairShare.ListOr(lists, a)| <= |FairShare.ListOr(lists, m)|
    {
      hide FairShare.Popped, FairShare.OnTop, FairShare.Shape;
      FairShare.LargestExists(pending, spammers);
      m :| m in spammers && forall a | a in spammers :: |FairShare.ListOr(pending, a)| <= |FairShare.ListOr(pending, m)|;
      forall a | a in spammers
        ensures a in lists && a in pending && pending[a] == lists[a]
      {
        FairShare.Uncut(lists, localAccounts, config.accountSlots, spammers, offenders, level, a);
      }
    }

    // ---------- truncateQueue ----------

    /** removeTx on a queued transaction. */
    method RemoveQueued(a: Addr, n: nat)
      requires Consistent(View()) && Front(View(), chain) && n in ListOf(queue, a)
      modifies this`pending, this`queue, this`all, this`nonces
      ensures Consistent(View()) && Front(View(), chain)
      ensures pending == old(pending) && nonces == old(nonces)
      ensures queue == Put(old(queue), a, ListOf(old(queue), a) - {n})
      ensures FairShare.Total(queue) + 1 == FairShare.Total(old(queue))
    {
      hide Front, FairShare.Total;
      ghost var before := View();
      QueueOwned(a);
      RemoveTx(ListOf(queue, a)[n]);
      QueueOwned(a);
      QueueRemovalKeepsFront(before, View(), chain, a);
      OneFewer(before.queue, queue, a, n);
    }

    /** The k highest queued nonces of the account, from the top. */
    method RemoveHighest(a: Addr, k: nat)
      requires Consistent(View()) && Front(View(), chain) && k <= |ListOf(queue, a)|
      modifies this`pending, this`queue, this`all, this`nonces
      ensures Consistent(View()) && Front(View(), chain)
      ensures pending == old(pending) && nonces == old(nonces)
      ensures ListOf(queue, a) == Cap(ListOf(old(queue), a), |ListOf(old(queue), a)| - k)
      ensures forall c | c != a :: ListOf(queue, c) == ListOf(old(queue), c)
      ensures FairShare.Total(queue) + k == FairShare.Total(old(queue))
    {
      hide Consistent, Front, Cap, FairShare.Total;
      ghost var list := ListOf(queue, a);
      CapAll(list);
      var left := k;
      while left > 0
        invariant 0 <= left <= k
        invariant Consistent(View()) && Front(View(), chain)
        invariant pending == old(pending) && nonces == old(nonces)
        invariant ListOf(queue, a) == Cap(list, |list| - (k - left))
        invariant forall c | c != a :: ListOf(queue, c) == ListOf(old(queue), c)
        invariant FairShare.Total(queue) + (k - left) == FairShare.Total(old(queue))
      {
        var now := ListOf(queue, a);
        CapIsPrefix(list, |list| - (k - left));
        assert now.Keys != {} by { assert |now.Keys| == |now|; }
        CapDropsLast(now);
        FairShare.CapCap(list, |list| - (k - left), |list| - (k - left) - 1);
        RemoveQueued(a, Max(now.Keys));
        left := left - 1;
      }
    }

    static lemma CapAll(l: Txs)
      ensures Cap(l, |l|) == l
      ensures Cap(l, 0) == map[]
    {
      CapIsPrefix(l, 0);
      assert |Cap(l, 0)| == 0;
    }

    method CountQueue() returns (n: nat)
      ensures n == FairShare.Total(queue)
    {
      n := 0;
      var todo := queue.Keys;
      while todo != {}
        invariant todo <= queue.Keys
        invariant n + FairShare.Sum(queue, todo) == FairShare.Total(queue)
        decreases |todo|
      {
        var a :| a in todo;
        FairShare.SumWithout(queue, todo, a);
        n := n + |queue[a]|;
        todo := todo - {a};
      }
    }

    /**
     Brings the queue down to its limit exactly, or until only local accounts are left.
     Accounts go one after the other from the end of `order`, each losing its highest nonces:
     whoever comes later has lost everything before an account loses anything.
     */
    method TruncateQueue(order: seq<Addr>)
      requires Consistent(View()) && Front(View(), chain)
      requires Remotes(order, queue, localAccounts)
      modifies this`pending, this`queue, this`all, this`nonces
      ensures Consistent(View()) && Front(View(), chain)
      ensures pending == old(pending) && nonces == old(nonces)
      ensures FairShare.Total(old(queue)) <= config.globalQueue ==> queue == old(queue)
      ensures FairShare.Total(old(queue)) > config.globalQueue ==>
        && FairShare.Total(queue) >= config.globalQueue
        && (FairShare.Total(queue) == config.globalQueue || forall a | a in queue :: a in localAccounts)
      ensures forall a: Addr :: ListOf(queue, a) == Cap(ListOf(old(queue), a), |ListOf(queue, a)|)
      ensures forall a | a in localAccounts :: ListOf(queue, a) == ListOf(old(queue), a)
      ensures Cut(old(queue), queue, order, 0, Excess(FairShare.Total(old(queue)), config.globalQueue))
    {
      hide Consistent, Front, Cap, FairShare.Total, PoolBook.ListsOk, ListOf, Behind, Cut;
      ghost var lists, overflow := queue, Excess(FairShare.Total(queue), config.globalQueue);
      CutNone(lists, order);
      AllUncut(queue);
      var queued := CountQueue();
      if queued <= config.globalQueue {
        return;
      }
      var drop := queued - config.globalQueue;
      var i := |order|;
      NobodyBehind(lists, order);
      CutNobody(lists, order, overflow);
      while drop > 0 && i > 0
        invariant 0 <= i <= |order| && drop == Excess(overflow, Behind(lists, order, i))
        invariant Consistent(View()) && Front(View(), chain)
        invariant pending == old(pending) && nonces == old(nonces)
        invariant FairShare.Total(queue) == config.globalQueue + drop
        invariant forall a: Addr :: ListOf(queue, a) == Cap(ListOf(lists, a), |ListOf(queue, a)|)
        invariant forall a: Addr | a !in order[i..] :: ListOf(queue, a) == ListOf(lists, a)
        invariant drop > 0 ==> forall a | a in order[i..] :: ListOf(queue, a) == map[]
        invariant Cut(lists, queue, order, i, overflow)
      {
        i := i - 1;
        var a := order[i];
        var size := |ListOf(queue, a)|;
        assert a !in order[i + 1..];
        assert order[i..] == [a] + order[i + 1..];
        var n := if size <= drop then size else drop;
        CapIsPrefix(ListOf(lists, a), size - n);
        CapAll(ListOf(lists, a));
        OneBehind(lists, order, i);
        ghost var before := queue;
        RemoveHighest(a, n);
        forall k: nat | i < k < |order|
          ensures Size(queue, order[k]) == Size(before, order[k])
        {
          assert order[k] != a;
        }
        CutOne(lists, before, queue, order, i, overflow);
        drop := drop - n;
      }
      if drop > 0 { OnlyLocals(lists, order); }
      forall k: nat | k < i
        ensures Size(queue, order[k]) == Size(lists, order[k])
      {
        assert order[k] !in order[i..];
      }
      CutRest(lists, queue, order, i, overflow);
    }

    static lemma AllUncut(lists: map<Addr, Txs>)
      ensures forall a: Addr :: ListOf(lists, a) == Cap(ListOf(lists, a), |ListOf(lists, a)|)
    {
    }

    lemma OnlyLocals(lists: map<Addr, Txs>, order: seq<Addr>)
      requires Consistent(View())
      requires forall a :: a in order <==> a in lists && a !in localAccounts
      requires forall a | a in order :: ListOf(queue, a) == map[]
      requires forall a: Addr | a !in order :: ListOf(queue, a) == ListOf(lists, a)
      ensures forall a | a in queue :: a in localAccounts
    {
      forall a | a in queue
        ensures a in localAccounts
      {
        assert ListOf(queue, a) != map[];
        assert a !in order;
        assert ListOf(queue, a) == ListOf(lists, a);
      }
    }

    // ---------- runReorg ----------

    /** The accounts that may lose queued transactions, the one heard from last at the end. */
    method QueuedRemotes(beats: map<Addr, nat>) returns (order: seq<Addr>)
      ensures Remotes(order, queue, localAccounts) && ByBeat(order, beats)
    {
      order := [];
      var todo: set<Addr> := set a | a in queue && a !in localAccounts;
      while todo != {}
        invariant forall a :: a in order || a in todo <==> a in queue && a !in localAccounts
        invariant forall a | a in order :: a !in todo
        invariant AllDifferent(order) && ByBeat(order, beats)
        decreases |todo|
      {
        var a :| a in todo;
        order := InsertByBeat(order, a, beats);
        todo := todo - {a};
      }
    }

    static method InsertByBeat(order: seq<Addr>, a: Addr, beats: map<Addr, nat>) returns (r: seq<Addr>)
      requires ByBeat(order, beats) && AllDifferent(order) && a !in order
      ensures ByBeat(r, beats) && AllDifferent(r) && forall c :: c in r <==> c in order || c == a
    {
      var k := 0;
      while k < |order| && Beat(beats, order[k]) <= Beat(beats, a)
        invariant 0 <= k <= |order| && forall i | 0 <= i < k :: Beat(beats, order[i]) <= Beat(beats, a)
      {
        k := k + 1;
      }
      r := order[..k] + [a] + order[k..];
      InsertedAccounts(order, a, k);
      InsertedByBeat(order, a, k, beats);
    }

    /**
     truncateQueue with the heartbeats as they are.  Accounts heard from later lose everything
     first; one whose heartbeat no other shares loses something exactly when local accounts
     and those not heard from after it exceed the limit on their own.
     */
    method TruncateByHeartbeat(beats: map<Addr, nat>)
      requires Consistent(View()) && Front(View(), chain)
      modifies this`pending, this`queue, this`all, this`nonces
      ensures Consistent(View()) && Front(View(), chain)
      ensures pending == old(pending) && nonces == old(nonces)
      ensures QueueWithinLimits() && forall a | a in localAccounts :: ListOf(queue, a) == ListOf(old(queue), a)
      ensures FairShare.Total(old(queue)) <= config.globalQueue ==> queue == old(queue)
      ensures forall a: Addr :: ListOf(queue, a) == Cap(ListOf(old(queue), a), |ListOf(queue, a)|)
      ensures forall a, b | a in old(queue) && b in old(queue) && a !in localAccounts && b !in localAccounts ::
        Beat(beats, a) < Beat(beats, b) && Size(queue, a) < Size(old(queue), a) ==> Size(queue, b) == 0
      ensures forall a | a in old(queue) && a !in localAccounts && Alone(old(queue).Keys - localAccounts, beats, a) ::
        Size(queue, a) < Size(old(queue), a) <==>
        FairShare.Sum(old(queue), NotLater(old(queue).Keys, localAccounts, beats, a)) > config.globalQueue
    {
      hide Consistent, Front, Cap, FairShare.Total, Cut, NotLater, ByBeat, Alone, FairShare.Sum, Beat, Size, ListOf;
      var order := QueuedRemotes(beats);
      ghost var lists, overflow := queue, Excess(FairShare.Total(queue), config.globalQueue);
      NonEmpty();
      TruncateQueue(order);
      forall a, b | a in lists && b in lists && a !in localAccounts && b !in localAccounts
        && Beat(beats, a) < Beat(beats, b) && Size(queue, a) < Size(lists, a)
        ensures Size(queue, b) == 0
      {
        LaterLosesFirst(lists, queue, order, beats, overflow, a, b);
      }
      forall a | a in lists && a !in localAccounts && Alone(lists.Keys - localAccounts, beats, a)
        ensures Size(queue, a) < Size(lists, a) <==>
          FairShare.Sum(lists, NotLater(lists.Keys, localAccounts, beats, a)) > config.globalQueue
      {
        LosesIff(lists, queue, order, localAccounts, beats, config.globalQueue, a);
      }
    }

    lemma NonEmpty()
      requires Consistent(View())
      ensures forall a | a in queue :: Size(queue, a) > 0
    {
      forall a | a in queue
        ensures Size(queue, a) > 0
      {
        assert queue[a] != map[];
        assert |queue[a].Keys| == |queue[a]|;
      }
    }

    /** The virtual nonce of every pending account becomes its highest nonce plus one; no list is empty. */
    method RefreshNonces()
      requires Consistent(View()) && Front(View(), chain)
      modifies this`nonces
      ensures Consistent(View()) && Chained(View(), chain.nonce)
    {
      hide Consistent, Front, Chained, Refreshed;
      ghost var before := View();
      QueueOwned(0);
      RefreshStarts(before);
      var todo := pending.Keys;
      while todo != {}
        invariant todo <= pending.Keys
        invariant Refreshed(before, nonces, todo)
        decreases |todo|
      {
        var a :| a in todo;
        assert pending[a].Keys != {} by { assert pending[a] != map[]; }
        RefreshStep(before, nonces, todo, a);
        nonces := nonces[a := Max(pending[a].Keys) + 1];
        todo := todo - {a};
      }
      RefreshedIsChained(before, chain, nonces);
      NoncesAside(before, nonces);
    }

    ghost predicate PendingWithinLimits()
      reads this
    {
      || FairShare.Total(pending) <= config.globalSlots
      || forall a | a in pending && a !in localAccounts :: |pending[a]| <= config.accountSlots
    }

    ghost predicate QueueWithinLimits()
      reads this
    {
      || FairShare.Total(queue) <= config.globalQueue
      || forall a | a in queue :: a in localAccounts
    }

    /** The queue is cut from the accounts heard from last, each losing its highest nonces. */
    ghost predicate CutByBeat(before: map<Addr, Txs>, beats: map<Addr, nat>)
      reads this
    {
      && (forall a: Addr :: ListOf(queue, a) == Cap(ListOf(before, a), |ListOf(queue, a)|))
      && (forall a, b | a in before && b in before && a !in localAccounts && b !in localAccounts ::
            Beat(beats, a) < Beat(beats, b) && Size(queue, a) < Size(before, a) ==> Size(queue, b) == 0)
    }

    method Truncate(beats: map<Addr, nat>) returns (ghost level: nat)
      requires Consistent(View()) && Front(View(), chain) && config.accountSlots >= 1
      modifies this`pending, this`queue, this`all, this`nonces
      ensures Consistent(View()) && Chained(View(), chain.nonce)
      ensures PendingWithinLimits() && QueueWithinLimits()
      ensures FairShare.IsFair(old(pending), localAccounts, config.accountSlots, config.globalSlots, level)
      ensures pending == FairShare.Shape(old(pending), localAccounts, level)
      ensures CutByBeat(old(queue), beats)
      ensures Trimmed(old(View()), View(), localAccounts, config.globalSlots, config.globalQueue)
    {
      hide Consistent, Front, Chained, Cap, FairShare.Total, FairShare.Tight, FairShare.Shape, ListOf, Size, Beat, TrimmedAt;
      ghost var before := View();
      level := TruncatePending();
      TruncateByHeartbeat(beats);
      RefreshNonces();
      forall a: Addr
        ensures TrimmedAt(before, View(), localAccounts, config.globalSlots, config.globalQueue, a)
      {
        TrimmedLists(before, View(), localAccounts, config.globalSlots, config.globalQueue, level, a);
      }
    }

    /** Everything before the truncation: promotion, and with a new head also demotion. */
    method Settle(head: Head, dirty: set<Addr>)
      requires Consistent(View()) && Chained(View(), chain.nonce)
      modifies this`pending, this`queue, this`all, this`nonces, this`chain
      ensures chain == (if head.NewHead? then head.chain else old(chain))
      ensures Consistent(View()) && Front(View(), chain)
      ensures forall t | t in all.All() :: t in old(all.All())
      ensures forall t | t in old(all.All()) && t !in all.All() :: Given(t, chain, config.accountQueue, localAccounts, queue)
      ensures head.SameHead? ==>
        && AllPromoted(old(View()), View(), chain, config.accountQueue, localAccounts, dirty)
        && forall a | a in dirty :: Cleared(View(), chain, config.accountQueue, a in localAccounts, a)
      ensures head.NewHead? ==>
        && (forall t | t in all.All() :: Live(t, chain))
        && forall a: Addr :: LeftIff(old(pending), old(queue), View(), chain, config.accountQueue, a in localAccounts, a)
    {
      if head.NewHead? {
        Restart(head.chain);
      } else {
        PromoteDirty(dirty);
      }
    }

    method PromoteDirty(dirty: set<Addr>)
      requires Consistent(View()) && Chained(View(), chain.nonce)
      modifies this`pending, this`queue, this`all, this`nonces
      ensures Consistent(View()) && Front(View(), chain)
      ensures forall t | t in all.All() :: t in old(all.All())
      ensures forall t | t in old(all.All()) && t !in all.All() :: Given(t, chain, config.accountQueue, localAccounts, queue)
      ensures AllPromoted(old(View()), View(), chain, config.accountQueue, localAccounts, dirty)
      ensures forall a | a in dirty :: Cleared(View(), chain, config.accountQueue, a in localAccounts, a)
    {
      hide Consistent, Front, Chained, AllPromoted, Cleared, Given;
      ghost var before := View();
      PromoteExecutables(dirty, false);
      ChainedIsFront(View(), chain);
      forall t: Tx
        ensures t in all.All() ==> t in before.all.All()
        ensures t in before.all.All() && t !in all.All() ==> Given(t, chain, config.accountQueue, localAccounts, queue)
      {
        PromotionLeaves(before, View(), chain, config.accountQueue, localAccounts, dirty, t);
      }
      forall a | a in dirty
        ensures Cleared(View(), chain, config.accountQueue, a in localAccounts, a)
      {
        PromotionClears(before, View(), chain, config.accountQueue, localAccounts, dirty, a);
      }
    }

    method Restart(head: Chain)
      requires Consistent(View()) && Chained(View(), chain.nonce)
      modifies this`pending, this`queue, this`all, this`nonces, this`chain
      ensures chain == head && Consistent(View()) && Front(View(), chain)
      ensures forall t | t in all.All() :: t in old(all.All()) && Live(t, chain)
      ensures forall t | t in old(all.All()) && t !in all.All() :: Given(t, chain, config.accountQueue, localAccounts, queue)
      ensures forall a: Addr :: LeftIff(old(pending), old(queue), View(), chain, config.accountQueue, a in localAccounts, a)
    {
      hide Consistent, Front, Chained, LooseIn, MixedIn, AllPromoted, AllDemoted, LeftIff, Given, Live;
      Reset(head);
      ghost var start := View();
      PromoteExecutables(queue.Keys, true);
      ghost var mid := View();
      DemoteUnexecutables();
      forall t: Tx
        ensures t in all.All() ==> t in start.all.All() && Live(t, chain)
        ensures t in start.all.All() && t !in all.All() ==> Given(t, chain, config.accountQueue, localAccounts, queue)
      {
        ResetLeaves(start, mid, View(), chain, config.accountQueue, localAccounts, t);
      }
      forall a: Addr
        ensures LeftIff(old(pending), old(queue), View(), chain, config.accountQueue, a in localAccounts, a)
      {
        LeftBehindAt(start, mid, View(), chain, config.accountQueue, localAccounts, a);
      }
    }

    /** Neither part of the book is above its limit. */
    ghost predicate Fits(b: Book) {
      FairShare.Total(b.pending) <= config.globalSlots && FairShare.Total(b.queue) <= config.globalQueue
    }

    /**
     `mid` is the pool before the truncation.  Without a new head the dirty accounts have nothing
     executable left in their queues.  With one, a transaction can be left there that follows a
     front which was pending before; the last clauses say exactly when.
     */
    method RunReorg(head: Head, dirty: set<Addr>, beats: map<Addr, nat>) returns (ghost mid: Book, ghost level: nat)
      requires Consistent(View()) && Chained(View(), chain.nonce) && config.accountSlots >= 1
      modifies this`pending, this`queue, this`all, this`nonces, this`chain
      ensures chain == (if head.NewHead? then head.chain else old(chain))
      ensures Consistent(View()) && Chained(View(), chain.nonce)
      ensures PendingWithinLimits() && QueueWithinLimits()
      ensures FairShare.IsFair(mid.pending, localAccounts, config.accountSlots, config.globalSlots, level)
      ensures pending == FairShare.Shape(mid.pending, localAccounts, level) && CutByBeat(mid.queue, beats)
      ensures head.SameHead? ==> AllPromoted(old(View()), mid, chain, config.accountQueue, localAccounts, dirty)
      ensures forall t | t in all.All() :: t in old(all.All())
      ensures forall t | t in old(all.All()) && t !in all.All() ::
        || t.nonce < chain.nonce(t.from) || t.gas > chain.maxGas || t.cost > chain.balance(t.from)
        || (t.from !in localAccounts && (|ListOf(mid.queue, t.from)| >= config.accountQueue || !Fits(mid)))
      ensures head.SameHead? ==> forall a | a in dirty ::
        && Nonce(a) !in ListOf(queue, a)
        && (a in localAccounts || |ListOf(queue, a)| <= config.accountQueue)
        && forall n | n in ListOf(queue, a) ::
             ListOf(queue, a)[n].gas <= chain.maxGas && ListOf(queue, a)[n].cost <= chain.balance(a)
      ensures head.NewHead? ==> forall t | t in all.All() ::
        t.nonce >= chain.nonce(t.from) && t.gas <= chain.maxGas && t.cost <= chain.balance(t.from)
      ensures head.NewHead? ==> forall a: Addr :: Nonce(a) in ListOf(queue, a) ==>
        LeftBehind(ListOf(old(pending), a), ListOf(old(queue), a), chain.nonce(a), chain.balance(a), chain.maxGas)
      ensures head.NewHead? ==> forall a: Addr ::
        && LeftBehind(ListOf(old(pending), a), ListOf(old(queue), a), chain.nonce(a), chain.balance(a), chain.maxGas)
        && (a in localAccounts || (config.accountQueue >= 1 && Fits(mid)))
        ==> Nonce(a) in ListOf(queue, a)
    {
      hide Consistent, Front, Chained, AllPromoted, Trimmed, LeftBehind, CutByBeat, Given, LeftIff, Virtual;
      hide FairShare.Total, FairShare.IsFair, FairShare.Shape, PendingWithinLimits, QueueWithinLimits, ListOf, Next;
      ghost var before := View();
      Settle(head, dirty);
      mid := View();
      level := Truncate(beats);
      forall t: Tx
        ensures t in all.All() ==> t in before.all.All() && t in mid.all.All()
        ensures t in before.all.All() && t !in all.All() ==>
          Excused(t, mid, chain, config.accountQueue, localAccounts, config.globalSlots, config.globalQueue)
      {
        ReorgLeaves(before.all.All(), mid, View(), chain, config.accountQueue,
          localAccounts, config.globalSlots, config.globalQueue, t);
      }
      if head.SameHead? {
        forall a | a in dirty
          ensures Cleared(View(), chain, config.accountQueue, a in localAccounts, a) && Next(View(), chain, a) == Nonce(a)
        {
          ReorgClears(mid, View(), chain, config.accountQueue, localAccounts, config.globalSlots, config.globalQueue, a);
        }
      } else {
        forall a: Addr
          ensures var p, q := ListOf(before.pending, a), ListOf(before.queue, a);
            var left := LeftBehind(p, q, chain.nonce(a), chain.balance(a), chain.maxGas);
            && (Nonce(a) in ListOf(queue, a) ==> left)
            && (left && (a in localAccounts || (config.accountQueue >= 1 && Fits(mid))) ==> Nonce(a) in ListOf(queue, a))
        {
          ReorgLeft(before.pending, before.queue, mid, View(), chain, config.accountQueue,
            localAccounts, config.globalSlots, config.globalQueue, a);
        }
      }
    }

    /** Whatever the pool goes through, it stays consistent and its nonces stay chained. */
    method Run(ops: seq<Op>)
      requires Consistent(View()) && Chained(View(), chain.nonce) && config.accountSlots >= 1
      modifies this
      ensures Consistent(View()) && Chained(View(), chain.nonce)
    {
      hide Consistent, Chained;
      for i := 0 to |ops|
        invariant Consistent(View()) && Chained(View(), chain.nonce)
      {
        match ops[i]
        case AddTx(tx, local, sound, pricing) => var _ := Add(tx, local, sound, pricing);
        case RemoveTx(tx) => Drop(tx);
        case Reorg(head, dirty, beats) => ghost var _, _ := RunReorg(head, dirty, beats);
      }
    }
  }
}
