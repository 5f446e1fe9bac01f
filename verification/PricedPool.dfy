/**
 The pool together with its price heaps: add of evmcore/tx_pool.go with the questions it
 puts to them.  Pool and heaps share one lookup set in the source; here they agree on it.
 */
module PricedPool {
  import opened Common
  import opened NonceList
  import opened TxLookup
  import opened PoolBook
  import opened P = PricedList
  import opened T = TxPool

  ghost predicate Synced(pool: T.TxPool, priced: P.PricedList)
    reads pool, priced
  {
    && Consistent(pool.View()) && Chained(pool.View(), pool.chain.nonce)
    && priced.all == pool.all && priced.Covers()
  }

  function Capacity(config: Config): nat {
    config.globalSlots + config.globalQueue
  }

  /** What the heaps answer, asked only about a new and valid transaction that does not fit. */
  method Ask(pool: T.TxPool, priced: P.PricedList, tx: Tx, isLocal: bool) returns (pricing: Pricing)
    requires Synced(pool, priced) && pool.Crowded(tx)
    modifies priced
    ensures priced.Covers() && priced.all.Valid() && priced.all == Evicted(old(priced.all), pricing.drop)
    ensures !isLocal && (pricing.underpriced || !pricing.success) ==> pricing.drop == []
    ensures isLocal ==> pricing.success && !pricing.underpriced
    ensures (forall t | t in pricing.drop :: t in old(priced.all.remotes))
    ensures !pricing.underpriced && pricing.success ==> (pricing.drop == [] <==> old(priced.all.remotes) == {})
    ensures old(priced.Exact()) && !isLocal && !pricing.underpriced && pricing.success ==>
      priced.all.slots + NumSlots(tx) <= Capacity(pool.config)
  {
    hide Chained, NumSlots, Evicted;
    ValidLookup(pool.View());
    NothingEvicted(priced.all);
    var under := false;
    if !isLocal {
      under := priced.Underpriced(tx);
    }
    if under {
      return Pricing(true, [], true);
    }
    var drop, success := priced.MakeRoom(pool.all.slots - Capacity(pool.config) + NumSlots(tx), isLocal);
    return Pricing(false, drop, success);
  }

  /**
   Adds a transaction with the real answers.  Pool and heaps stay in step, every remote stays
   in a heap, and a transaction that is let in leaves the pool within its capacity: always if
   there was room, and after eviction if every remote was held once and it is not local.  A
   refused replacement leaves the pool as it was exactly if there was room or no remote to evict.
   */
  method Add(pool: T.TxPool, priced: P.PricedList, tx: Tx, local: bool, sound: bool) returns (r: AddResult)
    requires Synced(pool, priced)
    modifies pool, priced
    ensures Synced(pool, priced)
    ensures r.Added? && (!old(pool.Crowded(tx)) || (old(priced.Exact()) && !old(pool.Privileged(tx, local)))) ==>
      pool.all.slots <= Capacity(pool.config)
    ensures r == Rejected(AlreadyKnown) <==> tx in old(pool.all.All())
    ensures r == Rejected(ReplaceUnderpriced) ==>
      && pool.all.locals == old(pool.all.locals) && pool.all.remotes <= old(pool.all.remotes)
      && (pool.View() == old(pool.View()) <==> !old(pool.Crowded(tx)) || old(pool.all.remotes) == {})
      && (pool.all.remotes == old(pool.all.remotes) <==> !old(pool.Crowded(tx)) || old(pool.all.remotes) == {})
    ensures r.Rejected? && r.error != ReplaceUnderpriced ==> pool.View() == old(pool.View())
    ensures old(pool.Fresh(tx, sound)) && !old(pool.Crowded(tx)) && !old(Blocked(pool.all.All(), tx, pool.config.priceBump)) ==>
      r.Added? && Enters(old(pool.all), pool.all, tx, old(pool.Privileged(tx, local)), old(pool.localAccounts), pool.localAccounts)
    ensures old(pool.Fresh(tx, sound) && pool.Privileged(tx, local) && Blocked(pool.all.locals, tx, pool.config.priceBump)) ==>
      r == Rejected(ReplaceUnderpriced)
    ensures pool.localAccounts ==
      old(pool.localAccounts) + if r.Added? && local && tx.nonce >= pool.Nonce(tx.from) then {tx.from} else {}
    ensures pool.chain == old(pool.chain)
  {
    hide Consistent, Chained, NumSlots, Evicted, AdmittedTo, Blocked, SumSlots;
    var isLocal := local || tx.from in pool.localAccounts;
    var pricing := Pricing(false, [], true);
    NothingEvicted(pool.all);
    ValidLookup(pool.View());
    var check := pool.ValidateTx(tx, sound);
    if tx !in pool.all.locals && tx !in pool.all.remotes && check.Pass?
       && pool.all.slots + NumSlots(tx) > Capacity(pool.config) {
      pricing := Ask(pool, priced, tx, isLocal);
    }
    var before := pool.localAccounts;
    LocalsStay(pool.all, pricing.drop, tx, pool.config.priceBump);
    r := pool.Add(tx, local, sound, pricing);
    if r.Added? {
      EntersSlots(priced.all, pool.all, tx, isLocal, before, pool.localAccounts);
      Follow(priced, tx, isLocal, before, pool.localAccounts, pool.all);
    }
  }

  /** The heaps learn what the pool has done: the old transaction leaves, the new one enters, the account may turn local. */
  method Follow(priced: P.PricedList, tx: Tx, isLocal: bool, before: set<Addr>, accounts: set<Addr>, ghost all: Lookup)
    requires priced.Covers() && priced.all.Valid() && tx !in priced.all.All()
    requires Enters(priced.all, all, tx, isLocal, before, accounts)
    modifies priced
    ensures priced.Covers() && priced.all == all
  {
    hide NumSlots, SumSlots;
    var slot := SameSlot(priced.all.All(), tx);
    if slot != {} {
      var held :| held in slot;
      assert slot == {held};
      priced.Untrack(held);
    }
    priced.Track(tx, isLocal);
    if accounts != before {
      priced.Migrate(accounts);
    }
  }

  lemma LocalsStay(all: Lookup, drop: seq<Tx>, tx: Tx, priceBump: nat)
    requires all.Valid() && forall t | t in drop :: t in all.remotes
    ensures Evicted(all, drop).locals == all.locals && Evicted(all, drop).remotes <= all.remotes
    ensures Blocked(all.locals, tx, priceBump) ==> Blocked(all.All(), tx, priceBump) && Blocked(Evicted(all, drop).All(), tx, priceBump)
    ensures (forall t | t in drop :: t !in all.All()) <==> drop == []
    ensures Evicted(all, drop).remotes == all.remotes <==> drop == []
  {
    if Blocked(all.locals, tx, priceBump) {
      var t :| t in SameSlot(all.locals, tx) && !Outbids(tx, t, priceBump);
      assert t in SameSlot(all.All(), tx) && t in SameSlot(Evicted(all, drop).All(), tx);
    }
    if drop != [] { assert drop[0] in Members(drop); }
  }

  lemma EntersSlots(all: Lookup, all': Lookup, tx: Tx, local: bool, before: set<Addr>, accounts: set<Addr>)
    requires Enters(all, all', tx, local, before, accounts)
    ensures all'.slots <= all.slots + NumSlots(tx)
  {
    hide NumSlots;
  }

  lemma ValidLookup(b: Book)
    requires Consistent(b)
    ensures b.all.Valid()
  {
  }

  lemma NothingEvicted(all: Lookup)
    ensures Evicted(all, []) == all
  {
  }
}
