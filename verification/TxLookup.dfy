/** The lookup set of the pool and its slot counter (txLookup in evmcore/tx_pool.go). */
module TxLookup {
  import opened Common
  import opened NonceList

  const TX_SLOT_SIZE := 32 * 1024

  function NumSlots(tx: Tx): nat {
    (tx.size + TX_SLOT_SIZE - 1) / TX_SLOT_SIZE
  }

  /** As many slots as the data needs, and no more. */
  lemma SlotsHold(tx: Tx)
    ensures tx.size <= NumSlots(tx) * TX_SLOT_SIZE < tx.size + TX_SLOT_SIZE
  {
  }

  ghost function SumSlots(s: set<Tx>): nat {
    if s == {} then 0 else
      var tx :| tx in s;
      NumSlots(tx) + SumSlots(s - {tx})
  }

  /** The sum does not depend on the order in which the set is walked. */
  lemma {:induction false} SumSlotsWithout(s: set<Tx>, tx: Tx)
    requires tx in s
    ensures SumSlots(s) == NumSlots(tx) + SumSlots(s - {tx})
    decreases |s|
  {
    var first :| first in s && SumSlots(s) == NumSlots(first) + SumSlots(s - {first});
    if first != tx {
      SumSlotsWithout(s - {first}, tx);
      SumSlotsWithout(s - {tx}, first);
      assert s - {first} - {tx} == s - {tx} - {first};
    }
  }

  datatype Lookup = Lookup(locals: set<Tx>, remotes: set<Tx>, slots: int) {

    ghost predicate Valid() {
      locals !! remotes && slots == SumSlots(All())
    }

    function All(): set<Tx> {
      locals + remotes
    }

    /** Adding a transaction that is not there yet. */
    function Add(tx: Tx, local: bool): (r: Lookup)
      ensures r.All() == All() + {tx}
      ensures Valid() && tx !in All() ==> r.Valid()
    {
      assert Valid() && tx !in All() ==> SumSlots(All() + {tx}) == SumSlots(All()) + NumSlots(tx) by {
        if tx !in All() {
          SumSlotsWithout(All() + {tx}, tx);
          assert All() + {tx} - {tx} == All();
        }
      }
      if local
      then Lookup(locals + {tx}, remotes, slots + NumSlots(tx))
      else
        assert locals + (remotes + {tx}) == All() + {tx};
        Lookup(locals, remotes + {tx}, slots + NumSlots(tx))
    }

    /** Removing an unknown transaction only logs an error. */
    function Remove(tx: Tx): (r: Lookup)
      ensures r.All() == All() - {tx}
      ensures Valid() ==> r.Valid()
    {
      if tx !in locals && tx !in remotes then this
      else
        assert (locals - {tx}) + (remotes - {tx}) == All() - {tx};
        assert Valid() ==> SumSlots(All()) == NumSlots(tx) + SumSlots(All() - {tx}) by { SumSlotsWithout(All(), tx); }
        Lookup(locals - {tx}, remotes - {tx}, slots - NumSlots(tx))
    }

    /** The remotes of local accounts become locals. */
    function RemoteToLocals(accounts: set<Addr>): (r: Lookup)
      ensures r.All() == All()
      ensures Valid() ==> r.Valid()
    {
      var moved := set tx | tx in remotes && tx.from in accounts;
      assert (locals + moved) + (remotes - moved) == All();
      Lookup(locals + moved, remotes - moved, slots)
    }
  }

  const EMPTY := Lookup({}, {}, 0)

  /** The lookup set after these transactions have been removed one by one. */
  function Evicted(all: Lookup, drop: seq<Tx>): (r: Lookup)
    ensures all.Valid() ==> r.Valid()
    ensures r.locals == all.locals - Members(drop) && r.remotes == all.remotes - Members(drop)
  {
    if drop == [] then all else
      var last := |drop| - 1;
      assert Members(drop) == Members(drop[..last]) + {drop[last]} by { assert drop == drop[..last] + [drop[last]]; }
      Evicted(all, drop[..last]).Remove(drop[last])
  }

  function Members(txs: seq<Tx>): set<Tx> {
    set tx | tx in txs
  }
}
