/**
 What the pool does where one might expect something else: transactions lost to a refused
 replacement, the recently active losing first, gaps after a reorganisation, and executable
 transactions left in the queue.
 */
module PoolCases {
  import opened Common
  import opened NonceList
  import opened TxLookup
  import opened PoolBook
  import opened PoolReorg
  import opened QueueOrder
  import FairShare
  import P = PricedList
  import PricedPool
  import opened T = TxPool

  // ---------- pools that only hold queued transactions ----------

  /** Nonce one, when the state nonce is zero: executable only after another. */
  function Gapped(from: Addr, price: nat, payload: nat): Tx {
    Tx(from, 1, 0, 0, price, price, 1, payload)
  }

  const FRESH := Chain((a: Addr) => 0, (a: Addr) => 0, 0)
  const NO_PRICING := Pricing(false, [], true)

  ghost predicate Holding(pool: T.TxPool, txs: set<Tx>)
    reads pool
  {
    && Consistent(pool.View()) && Chained(pool.View(), pool.chain.nonce)
    && pool.chain == FRESH && pool.localAccounts == {} && pool.all.All() == txs
  }

  /** Without a transaction at the state nonce nothing is pending. */
  lemma AllQueued(pool: T.TxPool, txs: set<Tx>)
    requires Holding(pool, txs) && forall t | t in txs :: t.nonce == 1
    ensures forall a: Addr :: ListOf(pool.pending, a) == map[]
    ensures forall t: Tx :: t in txs <==> In(ListOf(pool.queue, t.from), t)
  {
    forall a: Addr
      ensures ListOf(pool.pending, a) == map[]
    {
      var p := ListOf(pool.pending, a);
      assert ChainedAt(p, ListOf(pool.queue, a), 0, Virtual(pool.nonces, pool.chain.nonce, a));
      assert 0 in p ==> Listed(pool.View(), p[0]);
    }
    forall t: Tx
      ensures t in txs <==> In(ListOf(pool.queue, t.from), t)
    {
      assert t in pool.all.All() <==> Listed(pool.View(), t);
    }
  }

  lemma NotBlocked(txs: set<Tx>, tx: Tx, priceBump: nat)
    requires forall t | t in txs :: t.from != tx.from
    ensures !Blocked(txs, tx, priceBump) && SameSlot(txs, tx) == {}
  {
  }

  lemma {:induction false} OneSlotEach(txs: set<Tx>)
    requires forall t | t in txs :: t.size == 1
    ensures SumSlots(txs) == |txs|
    decreases |txs|
  {
    if txs != {} {
      var t :| t in txs;
      SumSlotsWithout(txs, t);
      OneSlotEach(txs - {t});
    }
  }

  /** Adds a transaction of a new account to a pool with room for it. */
  method AddQueued(pool: T.TxPool, tx: Tx, ghost txs: set<Tx>)
    requires Holding(pool, txs) && tx == Gapped(tx.from, tx.feeCap, tx.payload)
    requires (forall t | t in txs :: t.from != tx.from && t.size == 1)
    requires |txs| < pool.config.globalSlots + pool.config.globalQueue
    modifies pool
    ensures Holding(pool, txs + {tx})
  {
    hide Consistent, Chained, Enters;
    OneSlotEach(txs);
    SlotsOf(pool.View());
    NotBlocked(txs, tx, pool.config.priceBump);
    assert tx !in txs;
    ghost var before := pool.all;
    var r := pool.Add(tx, false, true, NO_PRICING);
    assert pool.localAccounts == {};
    EntersAll(before, pool.all, tx);
  }

  lemma SlotsOf(b: Book)
    requires Consistent(b)
    ensures b.all.slots == SumSlots(b.all.All())
  {
  }

  lemma EntersAll(all: Lookup, all': Lookup, tx: Tx)
    requires Enters(all, all', tx, false, {}, {}) && SameSlot(all.All(), tx) == {}
    ensures all'.All() == all.All() + {tx}
  {
  }

  /** A pool with two queued transactions of different accounts. */
  method TwoQueued(config: Config, a: Tx, b: Tx) returns (pool: T.TxPool)
    requires config.globalSlots + config.globalQueue >= 2
    requires a == Gapped(a.from, a.feeCap, a.payload) && b == Gapped(b.from, b.feeCap, b.payload) && a.from != b.from
    ensures fresh(pool) && pool.config == config && Holding(pool, {a, b})
  {
    pool := new T.TxPool(config, FRESH, {});
    hide Consistent, Chained;
    AddQueued(pool, a, {});
    assert {} + {a} == {a};
    AddQueued(pool, b, {a});
    assert {a} + {b} == {a, b};
  }

  // ---------- lost to a refused replacement ----------

  /** A pool with its price heaps that holds these transactions, of one slot each. */
  ghost predicate Both(pool: T.TxPool, priced: P.PricedList, locals: set<Tx>, remotes: set<Tx>, slots: nat)
    reads pool, priced
  {
    && PricedPool.Synced(pool, priced) && pool.chain == FRESH && pool.config == Config(10, 1, 1, 1, 1)
    && pool.all.locals == locals && pool.all.remotes == remotes && pool.all.slots == slots
  }

  method AddBoth(pool: T.TxPool, priced: P.PricedList, tx: Tx, ghost locals: set<Tx>, ghost remotes: set<Tx>, ghost slots: nat)
    requires Both(pool, priced, locals, remotes, slots) && slots < 2 && tx == Gapped(tx.from, tx.feeCap, tx.payload)
    requires (forall t | t in locals + remotes :: t.from != tx.from) && forall t | t in remotes :: t.from !in pool.localAccounts
    modifies pool, priced
    ensures var isLocal := tx.from in pool.localAccounts;
      Both(pool, priced, locals + (if isLocal then {tx} else {}), remotes + (if isLocal then {} else {tx}), slots + 1)
    ensures pool.localAccounts == old(pool.localAccounts)
  {
    hide PricedPool.Synced, Blocked, Enters;
    NotBlocked(pool.all.All(), tx, 10);
    ghost var before, accounts := pool.all, pool.localAccounts;
    var r := PricedPool.Add(pool, priced, tx, false, true);
    assert pool.localAccounts == accounts;
    EntersLookup(before, pool.all, tx, tx.from in accounts, accounts, accounts);
  }

  method NoneOfBoth() returns (pool: T.TxPool, priced: P.PricedList)
    ensures fresh(pool) && fresh(priced) && Both(pool, priced, {}, {}, 0) && pool.localAccounts == {1}
  {
    pool := new T.TxPool(Config(10, 1, 1, 1, 1), FRESH, {1});
    priced := new P.PricedList();
    hide Consistent, Chained;
  }

  /** Account 1 is local, and the pool is full with its transaction and one of account 2. */
  method FullOfTwo(held: Tx, other: Tx) returns (pool: T.TxPool, priced: P.PricedList)
    requires held == Gapped(1, held.feeCap, held.payload) && other == Gapped(2, other.feeCap, other.payload)
    ensures fresh(pool) && fresh(priced) && Both(pool, priced, {held}, {other}, 2) && pool.localAccounts == {1}
  {
    hide Both;
    ghost var none: set<Tx> := {};
    pool, priced := NoneOfBoth();
    AddBoth(pool, priced, held, none, none, 0);
    assert none + {held} == {held} && none + none == none;
    AddBoth(pool, priced, other, {held}, none, 1);
    assert {held} + none == {held} && none + {other} == {other};
  }

  /**
   A local account offers to replace its transaction at a price five percent higher, where ten
   are needed.  The only remote transaction makes room, the replacement is refused, and the
   remote one is gone for nothing.
   */
  method LostToRefusal() returns (pool: T.TxPool, priced: P.PricedList, lost: Tx, r: AddResult)
    ensures r == Rejected(ReplaceUnderpriced) && lost == Gapped(2, 5, 0) && pool.all.All() == {Gapped(1, 100, 0)}
    ensures PricedPool.Synced(pool, priced)
  {
    hide PricedPool.Synced, Blocked;
    var held, offer := Gapped(1, 100, 0), Gapped(1, 105, 1);
    lost := Gapped(2, 5, 0);
    pool, priced := FullOfTwo(held, lost);
    StillBlocked(held, offer);
    r := PricedPool.Add(pool, priced, offer, false, true);
  }

  lemma StillBlocked(held: Tx, offer: Tx)
    requires held == Gapped(1, 100, 0) && offer == Gapped(1, 105, 1)
    ensures Blocked({held}, offer, 10)
  {
    assert held in SameSlot({held}, offer) && !Outbids(offer, held, 10);
  }

  /** A transaction of one slot that takes no other's place. */
  lemma EntersLookup(all: Lookup, all': Lookup, tx: Tx, local: bool, before: set<Addr>, accounts: set<Addr>)
    requires Enters(all, all', tx, local, before, accounts) && SameSlot(all.All(), tx) == {} && tx.size == 1
    requires forall t | t in all.remotes :: t.from !in accounts
    requires tx.from in accounts ==> local
    ensures all'.slots == all.slots + 1
    ensures all'.locals == all.locals + (if local then {tx} else {}) && all'.remotes == all.remotes + if local then {} else {tx}
  {
  }

  // ---------- the recently active lose first ----------

  /** Of two queued transactions one has to go: it is that of the account heard from last. */
  method NewestGoes() returns (pool: T.TxPool)
    ensures Gapped(1, 1, 0) in pool.all.All() && Gapped(2, 1, 0) !in pool.all.All()
  {
    var first, second := Gapped(1, 1, 0), Gapped(2, 1, 0);
    pool := TwoQueued(Config(10, 1, 1, 1, 1), first, second);
    hide *;
    CutTwo(pool, first, second);
  }

  method CutTwo(pool: T.TxPool, ghost first: Tx, ghost second: Tx)
    requires Holding(pool, {first, second}) && pool.config == Config(10, 1, 1, 1, 1)
    requires first == Gapped(1, 1, 0) && second == Gapped(2, 1, 0)
    modifies pool
    ensures first in pool.all.All() && second !in pool.all.All()
  {
    hide Consistent, Chained, PoolBook.Front, NotLater, Alone, Holding, Cap, FairShare.Sum, Beat, ListOf, FairShare.Total;
    ghost var lists := pool.queue;
    WhoGoes(pool, first, second);
    pool.TruncateByHeartbeat(BEATS);
    StillThere(pool, lists, first, second);
  }

  const BEATS: map<Addr, nat> := map[1 := 1, 2 := 2]

  lemma WhoGoes(pool: T.TxPool, first: Tx, second: Tx)
    requires Holding(pool, {first, second}) && first == Gapped(1, 1, 0) && second == Gapped(2, 1, 0)
    ensures Consistent(pool.View()) && PoolBook.Front(pool.View(), pool.chain)
    ensures pool.queue == map[1 := map[1 := first], 2 := map[1 := second]] && pool.localAccounts == {}
    ensures forall a: Addr :: ListOf(pool.pending, a) == map[]
    ensures FairShare.Sum(pool.queue, NotLater(pool.queue.Keys, {}, BEATS, 1)) == 1
    ensures FairShare.Sum(pool.queue, NotLater(pool.queue.Keys, {}, BEATS, 2)) == 2
    ensures Alone(pool.queue.Keys - {}, BEATS, 1) && Alone(pool.queue.Keys - {}, BEATS, 2)
  {
    hide Chained, PoolBook.Front, FairShare.Sum, NotLater, Alone, Consistent;
    AllQueued(pool, {first, second});
    ChainedIsFront(pool.View(), pool.chain);
    QueuedLists(pool.View());
    TwoLists(pool.queue, first, second);
    Order(pool.queue);
  }

  lemma QueuedLists(b: Book)
    requires Consistent(b)
    ensures forall a | a in b.queue :: b.queue[a] != map[] && Owned(b.queue[a], a)
  {
  }

  lemma Order(lists: map<Addr, Txs>)
    requires lists.Keys == {1, 2}
    ensures NotLater(lists.Keys, {}, BEATS, 1) == {1} && NotLater(lists.Keys, {}, BEATS, 2) == {1, 2}
    ensures Alone(lists.Keys - {}, BEATS, 1) && Alone(lists.Keys - {}, BEATS, 2)
  {
  }

  lemma TwoLists(lists: map<Addr, Txs>, first: Tx, second: Tx)
    requires first.from == 1 && second.from == 2 && first.nonce == second.nonce == 1
    requires forall t: Tx :: t in {first, second} <==> In(ListOf(lists, t.from), t)
    requires forall a | a in lists :: lists[a] != map[] && Owned(lists[a], a)
    ensures lists == map[1 := map[1 := first], 2 := map[1 := second]]
    ensures FairShare.Sum(lists, {1}) == 1 && FairShare.Sum(lists, {1, 2}) == 2
  {
    forall a | a in lists
      ensures a == 1 || a == 2
    {
      var n :| n in lists[a];
      assert In(ListOf(lists, a), lists[a][n]);
    }
    assert In(ListOf(lists, 1), first) && In(ListOf(lists, 2), second);
    forall n | n in lists[1]
      ensures n == 1
    {
      assert In(ListOf(lists, 1), lists[1][n]);
    }
    forall n | n in lists[2]
      ensures n == 1
    {
      assert In(ListOf(lists, 2), lists[2][n]);
    }
    assert lists[1] == map[1 := first] && lists[2] == map[1 := second];
    FairShare.SumOfNone(lists);
    FairShare.SumWithout(lists, {1}, 1);
    assert {1} - {1} == {};
    FairShare.SumWithout(lists, {1, 2}, 2);
    assert {1, 2} - {2} == {1};
  }

  lemma StillThere(pool: T.TxPool, lists: map<Addr, Txs>, first: Tx, second: Tx)
    requires Consistent(pool.View()) && first.from == 1 && second.from == 2 && first.nonce == second.nonce == 1
    requires lists == map[1 := map[1 := first], 2 := map[1 := second]]
    requires Size(pool.queue, 1) >= Size(lists, 1) && Size(pool.queue, 2) < Size(lists, 2)
    requires ListOf(pool.queue, 1) == NonceList.Cap(ListOf(lists, 1), Size(pool.queue, 1))
    requires forall a: Addr :: ListOf(pool.pending, a) == map[]
    ensures first in pool.all.All() && second !in pool.all.All()
  {
    assert ListOf(pool.queue, 1) == ListOf(lists, 1);
    assert ListOf(pool.queue, 2) == map[];
    assert Listed(pool.View(), first) && !Listed(pool.View(), second);
  }

  // ---------- reinjection ----------

  /** What promotion moves over right after a reset: a run from the state nonce on. */
  ghost function Run(q: Txs, state: nat, balance: nat, maxGas: nat): Txs {
    Ready(Executable(q, state, balance, maxGas), state)
  }

  /**
   Nothing is promoted, nothing pending is left from the state nonce on, the run ends where
   the pending nonces begin, or the first of these cannot be paid any more.
   */
  ghost predicate Joins(p: Txs, q: Txs, state: nat, balance: nat, maxGas: nat) {
    var run, rest := Run(q, state, balance, maxGas), From(p, state);
    || run.Keys == {} || rest.Keys == {}
    || Min(rest.Keys) == Max(run.Keys) + 1 || Over(rest[Min(rest.Keys)], balance, maxGas)
  }

  /** Promotion and demotion of lists as they are after reinjection leave no gap exactly if the two join. */
  lemma GapFreeIffJoins(p: Txs, q: Txs, state: nat, balance: nat, maxGas: nat)
    requires GapFree(p) && p.Keys !! q.Keys
    ensures GapFree(DemotedPending(p + Run(q, state, balance, maxGas), state, balance, maxGas))
      <==> Joins(p, q, state, balance, maxGas)
  {
    hide DemotedPending, Ready, Kept, GapFree;
    var fit := Executable(q, state, balance, maxGas);
    var run, rest := Run(q, state, balance, maxGas), From(p, state);
    var e := ReadyInterval(fit, state);
    if e == state {
      assert run.Keys == {};
      assert p + run == p;
      StaysGapFree(p, state, balance, maxGas);
    } else {
      assert state in run && e - 1 in run.Keys;
      assert Max(run.Keys) == e - 1;
      RunFrom(q, run, state, e, fit);
      PendingBeyond(p, q, state, e);
      FrontGapFree(p, state);
      assert From(p + run, state) == run + rest;
      RunThenRest(p + run, run, rest, state, e, balance, maxGas);
    }
  }

  lemma RunFrom(q: Txs, run: Txs, state: nat, e: nat, fit: Txs)
    requires Interval(run, state, e) && Within(run, fit) && Within(fit, q)
    ensures forall n | state <= n < e :: n in q
  {
    assert forall n | state <= n < e :: n in run;
  }

  lemma FrontGapFree(p: Txs, state: nat)
    requires GapFree(p)
    ensures GapFree(From(p, state))
  {
  }

  lemma StaysGapFree(p: Txs, state: nat, balance: nat, maxGas: nat)
    requires GapFree(p)
    ensures GapFree(DemotedPending(p, state, balance, maxGas))
  {
    var front := From(p, state);
    if state in front {
      var hi := FrontEnd(front, state);
      IntervalStays(p, state, hi, balance, maxGas);
    } else {
      FilterPartitions(front, true, balance, maxGas, state);
    }
  }

  lemma IntervalStays(p: Txs, state: nat, hi: nat, balance: nat, maxGas: nat)
    requires Interval(From(p, state), state, hi)
    ensures GapFree(DemotedPending(p, state, balance, maxGas))
  {
    hide Kept, Invalidated;
    var d := KeptInterval(From(p, state), state, hi, balance, maxGas);
  }

  /** Pending nonces that avoid a run of the queue lie beyond it. */
  lemma PendingBeyond(p: Txs, q: Txs, state: nat, e: nat)
    requires p.Keys !! q.Keys && forall n | state <= n < e :: n in q
    ensures AtLeast(From(p, state), e)
  {
  }

  lemma RunThenRest(p: Txs, run: Txs, rest: Txs, state: nat, e: nat, balance: nat, maxGas: nat)
    requires state < e && Interval(run, state, e) && AllPayable(run, balance, maxGas)
    requires AtLeast(rest, e) && GapFree(rest) && From(p, state) == run + rest
    ensures GapFree(DemotedPending(p, state, balance, maxGas)) <==>
      || rest.Keys == {} || Min(rest.Keys) == e || Over(rest[Min(rest.Keys)], balance, maxGas)
  {
    if rest.Keys == {} {
      assert run + rest == run;
      IntervalStays(p, state, e, balance, maxGas);
    } else if Min(rest.Keys) == e {
      var hi := FrontEnd(rest, e);
      IntervalStays(p, state, hi, balance, maxGas);
    } else {
      KeptOf(run, rest, e, balance, maxGas);
      var kept := Kept(run + rest, true, balance, maxGas);
      assert state in kept;
    }
  }

  /** Filtering keeps the run, and the first pending transaction exactly if it can be paid. */
  lemma KeptOf(run: Txs, rest: Txs, e: nat, balance: nat, maxGas: nat)
    requires AllPayable(run, balance, maxGas) && rest.Keys != {} && AtLeast(rest, e) && forall n | n in run :: n < e
    ensures var kept := Kept(run + rest, true, balance, maxGas);
      && (forall n | n in run :: n in kept) && (e !in rest ==> e !in kept)
      && if Over(rest[Min(rest.Keys)], balance, maxGas) then kept == run else Min(rest.Keys) in kept
  {
    var l, m := run + rest, Min(rest.Keys);
    var removed := Unpayable(l, balance, maxGas);
    assert forall n | n in removed :: n in rest.Keys && n >= m;
    if Over(rest[m], balance, maxGas) {
      assert m in removed.Keys && Min(removed.Keys) == m;
      assert Kept(l, true, balance, maxGas) == run;
    } else {
      assert m !in removed.Keys;
    }
  }

  /** In particular when every nonce between the new and the old state nonce comes back and can be paid. */
  lemma AllBackJoins(p: Txs, q: Txs, state: nat, virt: nat, state': nat, balance: nat, maxGas: nat)
    requires Interval(p, state, virt) && p.Keys !! q.Keys && state' <= state
    requires forall n | state' <= n < state :: n in q && !Over(q[n], balance, maxGas)
    ensures Joins(p, q, state', balance, maxGas)
  {
    var run := Run(q, state', balance, maxGas);
    if run.Keys != {} && p.Keys != {} {
      var fit := Executable(q, state', balance, maxGas);
      var e := EndOfRun(fit, state');
      assert state' in fit && Min(fit.Keys) == state' by { assert state in p; }
      assert Interval(run, state', e);
      assert e == state by {
        assert e < state ==> e in fit;
        assert state in p && state !in fit;
      }
      assert e - 1 in run.Keys && state in p.Keys;
      assert Min(p.Keys) == state && Max(run.Keys) == e - 1 && From(p, state') == p;
    }
  }

  /** addTxsLocked right after a reset, one transaction: the nonces pending do not change. */
  method Reinject(pool: T.TxPool, tx: Tx, sound: bool) returns (r: AddResult)
    requires Consistent(pool.View())
    modifies pool
    ensures Consistent(pool.View()) && pool.chain == old(pool.chain) && pool.nonces == old(pool.nonces)
    ensures ListOf(pool.pending, tx.from).Keys == ListOf(old(pool.pending), tx.from).Keys
    ensures OthersSame(old(pool.View()), pool.View(), pool.chain, tx.from)
    ensures r.Added? <==> (
        && tx !in old(pool.all.All()) && old(pool.Passes(tx, sound))
        && Admits(ListOf(old(pool.pending), tx.from), tx, pool.config.priceBump)
        && Admits(ListOf(old(pool.queue), tx.from), tx, pool.config.priceBump))
    ensures r.Added? ==> tx in pool.all.All()
    ensures r.Rejected? ==> pool.View() == old(pool.View())
    ensures tx.nonce !in ListOf(old(pool.pending), tx.from) && r.Added? ==>
      pool.pending == old(pool.pending) && ListOf(pool.queue, tx.from) == ListOf(old(pool.queue), tx.from)[tx.nonce := tx]
  {
    hide Consistent;
    ghost var b := pool.View();
    ApartAt(b, tx.from);
    if tx in pool.all.locals || tx in pool.all.remotes {
      return Rejected(AlreadyKnown);
    }
    var check := pool.ValidateTx(tx, sound);
    if check.Fail? {
      return Rejected(check.error);
    }
    var p := ListOf(pool.pending, tx.from);
    if tx.nonce in p {
      if !Outbids(tx, p[tx.nonce], pool.config.priceBump) {
        return Rejected(ReplaceUnderpriced);
      }
      NewInPending(b, tx, false);
      QueueStays(b, tx.from);
      pool.pending, pool.all := Put(pool.pending, tx.from, p[tx.nonce := tx]), Admitted(pool.all, p, tx, false);
      return Added(true);
    }
    r := pool.EnqueueNew(tx, false);
  }

  lemma QueueStays(b: Book, a: Addr)
    requires Consistent(b)
    ensures Put(b.queue, a, ListOf(b.queue, a)) == b.queue
  {
  }

  /** Promotion and demotion of one account, right after a reset and reinjection. */
  method Settle(pool: T.TxPool, a: Addr)
    requires Consistent(pool.View()) && a !in pool.nonces && GapFree(ListOf(pool.pending, a))
    modifies pool
    ensures Consistent(pool.View()) && pool.chain == old(pool.chain)
    ensures GapFree(ListOf(pool.pending, a)) <==>
      old(Joins(ListOf(pool.pending, a), ListOf(pool.queue, a), pool.chain.nonce(a), pool.chain.balance(a), pool.chain.maxGas))
    ensures OthersSame(old(pool.View()), pool.View(), pool.chain, a)
  {
    hide Consistent, GapFree, Joins, DemotedPending, DemotedBack, Executable, Ready, Cap;
    ApartAt(pool.View(), a);
    GapFreeIffJoins(ListOf(pool.pending, a), ListOf(pool.queue, a), pool.chain.nonce(a), pool.chain.balance(a), pool.chain.maxGas);
    pool.PromoteAccount(a);
    pool.DemoteAccount(a);
  }

  lemma ApartAt(b: Book, a: Addr)
    requires Consistent(b)
    ensures ListOf(b.pending, a).Keys !! ListOf(b.queue, a).Keys
  {
  }

  function Free(nonce: nat): Tx {
    Tx(1, nonce, 0, 0, 1, 1, 1, 0)
  }

  function HeadAt(nonce: nat): Chain {
    Chain((a: Addr) => nonce, (a: Addr) => 0, 0)
  }

  lemma ReadyAlone(tx: Tx)
    requires tx.gas == 0 && tx.cost == 0
    ensures Executable(map[tx.nonce := tx], tx.nonce, 0, 0) == map[tx.nonce := tx]
    ensures Ready(map[tx.nonce := tx], tx.nonce) == map[tx.nonce := tx]
  {
    var q := map[tx.nonce := tx];
    assert Executable(q, tx.nonce, 0, 0) == q;
    assert tx.nonce in q.Keys && Min(q.Keys) == tx.nonce;
  }

  /** A pool whose only transaction is pending. */
  method OnePending(tx: Tx, locals: set<Addr>) returns (pool: T.TxPool)
    requires tx == Free(tx.nonce)
    ensures fresh(pool) && pool.config == Config(10, 1, 1, 1, 1) && pool.localAccounts == locals
    ensures pool.chain == HeadAt(tx.nonce) && Consistent(pool.View()) && Chained(pool.View(), pool.chain.nonce)
    ensures ListOf(pool.pending, 1) == map[tx.nonce := tx] && ListOf(pool.queue, 1) == map[]
  {
    hide Consistent, Chained, Executable, Ready, Cap, Promotes;
    pool := new T.TxPool(Config(10, 1, 1, 1, 1), HeadAt(tx.nonce), locals);
    var r := pool.InsertQueued(tx, false);
    ghost var b := pool.View();
    assert ListOf(pool.queue, 1) == map[tx.nonce := tx];
    pool.PromoteAccount(1);
    PromotesChained(b, pool.View(), pool.chain, 1, 1 in locals, 1);
    PromotesAlone(b, pool.View(), pool.chain, 1 in locals, tx);
  }

  lemma PromotesAlone(b: Book, b': Book, chain: Chain, local: bool, tx: Tx)
    requires tx == Free(tx.nonce) && chain == HeadAt(tx.nonce) && b.nonces == map[]
    requires ListOf(b.pending, 1) == map[] && ListOf(b.queue, 1) == map[tx.nonce := tx]
    requires Promotes(b, b', chain, 1, local, 1)
    ensures ListOf(b'.pending, 1) == map[tx.nonce := tx] && ListOf(b'.queue, 1) == map[]
  {
    hide Ready, Cap, EndOfRun, From, Payable;
    var q: Txs := map[tx.nonce := tx];
    ReadyAlone(tx);
    NothingLeft(q);
  }

  lemma NothingLeft(q: Txs)
    ensures map[] + q == q && q - q.Keys == map[] && Cap(map[], 1) == map[]
  {
  }

  /** A reorganisation takes nonces three and four out of the chain but brings only three back. */
  method GapAfterReorg() returns (pool: T.TxPool)
    ensures Consistent(pool.View()) && !GapFree(ListOf(pool.pending, 1))
  {
    hide Consistent, Chained, GapFree, Joins;
    var three, five := Free(3), Free(5);
    pool := OnePending(five, {});
    NotThere(pool.View(), three);
    pool.Reset(HeadAt(3));
    var r := Reinject(pool, three, true);
    Gapping(ListOf(pool.pending, 1), three, five);
    Settle(pool, 1);
  }

  lemma NotThere(b: Book, tx: Tx)
    requires Consistent(b) && tx.nonce !in ListOf(b.pending, tx.from) && tx.nonce !in ListOf(b.queue, tx.from)
    ensures tx !in b.all.All()
  {
    assert !Listed(b, tx);
  }

  lemma Gapping(p: Txs, three: Tx, five: Tx)
    requires three == Free(3) && five == Free(5) && p == map[5 := five]
    ensures GapFree(p) && !Joins(p, map[3 := three], 3, 0, 0)
  {
    ReadyAlone(three);
    assert From(p, 3) == p && 5 in p.Keys && 3 in map[3 := three].Keys;
  }

  // ---------- executable transactions left in the queue ----------

  /** Nonce zero is pending and nonce one has just been queued when a new head arrives: one stays in the queue. */
  method LeftInQueue() returns (pool: T.TxPool)
    ensures Consistent(pool.View()) && Chained(pool.View(), pool.chain.nonce)
    ensures pool.Nonce(1) in ListOf(pool.queue, 1)
  {
    hide Consistent, Chained, LeftBehind, AllPromoted, FairShare.IsFair, FairShare.Shape;
    pool := OnePending(Free(0), {1});
    NotThere(pool.View(), Free(1));
    NonceAfter(pool.View(), pool.chain, Free(0));
    var r := pool.InsertQueued(Free(1), true);
    Stranded(ListOf(pool.pending, 1), ListOf(pool.queue, 1));
    ghost var mid, level := pool.RunReorg(NewHead(HeadAt(0)), {}, map[]);
  }

  lemma NonceAfter(b: Book, chain: Chain, tx: Tx)
    requires Chained(b, chain.nonce) && ListOf(b.pending, 1) == map[tx.nonce := tx] && chain == HeadAt(tx.nonce)
    ensures Virtual(b.nonces, chain.nonce, 1) == tx.nonce + 1
  {
    hide Chained;
    NextIsVirtual(b, chain, 1);
  }

  lemma Stranded(p: Txs, q: Txs)
    requires p == map[0 := Free(0)] && q == map[1 := Free(1)]
    ensures LeftBehind(p, q, 0, 0, 0)
  {
    assert From(p, 0) == p;
  }
}
