/**
 txList (evmcore/tx_list.go): a sorted map with two caps that let Filter skip its work.
 The caps are upper bounds, so skipping is sound.
 */
module TxList {
  import opened Common
  import opened NonceList
  import opened M = TxSortedMap

  class TxList {
    const strict: bool
    const txs: M.TxSortedMap
    var costcap: nat
    var gascap: nat

    ghost predicate Valid()
      reads this, txs
    {
      && txs.Valid()
      && forall n | n in txs.items :: txs.items[n].cost <= costcap && txs.items[n].gas <= gascap
    }

    constructor (strict: bool)
      ensures Valid() && this.strict == strict && fresh(txs) && txs.items == map[]
    {
      this.strict := strict;
      txs := new M.TxSortedMap();
      costcap, gascap := 0, 0;
    }

    /** Inserts the transaction unless it fails to outbid the one with its nonce. */
    method Add(tx: Tx, priceBump: nat) returns (inserted: bool, replaced: Option<Tx>)
      requires Valid()
      modifies this, txs
      ensures Valid()
      ensures inserted == Admits(old(txs.items), tx, priceBump)
      ensures txs.items == if inserted then old(txs.items)[tx.nonce := tx] else old(txs.items)
      ensures replaced == if inserted && tx.nonce in old(txs.items) then Some(old(txs.items)[tx.nonce]) else None
    {
      replaced := None;
      if tx.nonce in txs.items {
        var held := txs.items[tx.nonce];
        if held.feeCap >= tx.feeCap || held.tipCap >= tx.tipCap {
          return false, None;
        }
        var thresholdFeeCap := (100 + priceBump) * held.feeCap / 100;
        var thresholdTip := (100 + priceBump) * held.tipCap / 100;
        if tx.feeCap < thresholdFeeCap || tx.tipCap < thresholdTip {
          return false, None;
        }
        replaced := Some(held);
      }
      txs.Put(tx);
      if costcap < tx.cost {
        costcap := tx.cost;
      }
      if gascap < tx.gas {
        gascap := tx.gas;
      }
      return true, replaced;
    }

    /**
     Removes what the account cannot pay, and in a strict list also what follows.  Every
     transaction of the list is kept, removed or invalidated, whether or not the caps
     allowed the search to be skipped.
     */
    method Filter(costLimit: nat, gasLimit: nat) returns (removed: seq<Tx>, invalids: seq<Tx>)
      requires Valid()
      modifies this, txs
      ensures Valid()
      ensures txs.items == Kept(old(txs.items), strict, costLimit, gasLimit)
      ensures Collects(removed, Unpayable(old(txs.items), costLimit, gasLimit))
      ensures Collects(invalids, Invalidated(old(txs.items), strict, costLimit, gasLimit))
    {
      hide Flat, Indexed, Collects;
      ghost var before := txs.items;
      if costcap <= costLimit && gascap <= gasLimit {
        AllPayable(before, strict, costLimit, gasLimit);
        return [], [];
      }
      costcap, gascap := costLimit, gasLimit;
      removed := txs.Filter((tx: Tx) => Over(tx, costLimit, gasLimit));
      assert Selecting(before, (tx: Tx) => Over(tx, costLimit, gasLimit)) == Unpayable(before, costLimit, gasLimit);
      assert txs.items == Payable(before, costLimit, gasLimit);
      CollectsSize(removed, Unpayable(before, costLimit, gasLimit));
      if |removed| == 0 {
        NothingOver(before, strict, costLimit, gasLimit);
        return [], [];
      }
      invalids := [];
      if strict {
        var lowest := LowestNonce(removed, before, costLimit, gasLimit);
        invalids := txs.FilterItems((tx: Tx) => tx.nonce > lowest);
        StrictFilter(before, costLimit, gasLimit, lowest);
      } else {
        CollectsNone();
      }
      txs.Reheap();
    }

    method LowestNonce(removed: seq<Tx>, ghost before: Txs, ghost costLimit: nat, ghost gasLimit: nat) returns (lowest: nat)
      requires Keyed(before) && |removed| > 0 && Collects(removed, Unpayable(before, costLimit, gasLimit))
      ensures Unpayable(before, costLimit, gasLimit).Keys != {}
      ensures lowest == Min(Unpayable(before, costLimit, gasLimit).Keys)
    {
      lowest := removed[0].nonce;
      for i := 0 to |removed|
        invariant exists j :: 0 <= j < |removed| && removed[j].nonce == lowest
        invariant forall j | 0 <= j < i :: lowest <= removed[j].nonce
      {
        if removed[i].nonce < lowest {
          lowest := removed[i].nonce;
        }
      }
      LowestIsMin(removed, Unpayable(before, costLimit, gasLimit), lowest);
    }

    /** Removes one nonce, and in a strict list also what follows it. */
    method Remove(tx: Tx) returns (found: bool, invalids: seq<Tx>)
      requires Valid()
      modifies this, txs
      ensures Valid()
      ensures found == (tx.nonce in old(txs.items))
      ensures !found ==> txs.items == old(txs.items) && invalids == []
      ensures found && !strict ==> txs.items == old(txs.items) - {tx.nonce} && invalids == []
      ensures found && strict ==>
        && txs.items == Below(old(txs.items), tx.nonce)
        && Collects(invalids, From(old(txs.items), tx.nonce + 1))
    {
      hide Flat, Indexed, Collects;
      ghost var before := txs.items;
      found := txs.Remove(tx.nonce);
      invalids := [];
      if !found {
        assert before - {tx.nonce} == before;
        return;
      }
      if strict {
        invalids := txs.Filter((t: Tx) => t.nonce > tx.nonce);
        assert Selecting(before - {tx.nonce}, (t: Tx) => t.nonce > tx.nonce) == From(before, tx.nonce + 1);
        assert Rejecting(before - {tx.nonce}, (t: Tx) => t.nonce > tx.nonce) == Below(before, tx.nonce);
      }
    }

    method Forward(threshold: nat) returns (removed: seq<Tx>)
      requires Valid()
      modifies txs
      ensures Valid()
      ensures txs.items == From(old(txs.items), threshold) && removed == Flat(Below(old(txs.items), threshold))
    {
      removed := txs.Forward(threshold);
    }

    method Cap(threshold: nat) returns (drops: seq<Tx>)
      requires Valid()
      modifies txs
      ensures Valid()
      ensures txs.items == NonceList.Cap(old(txs.items), threshold) && |drops| == |old(txs.items)| - |txs.items|
      ensures forall tx: Tx :: tx in drops <==> In(old(txs.items), tx) && !In(txs.items, tx)
    {
      hide Flat, NonceList.Cap;
      CapIsPrefix(txs.items, threshold);
      drops := txs.Cap(threshold);
    }

    method Ready(start: nat) returns (ready: seq<Tx>)
      requires Valid()
      modifies txs
      ensures Valid()
      ensures var r := NonceList.Ready(old(txs.items), start); ready == Flat(r) && txs.items == old(txs.items) - r.Keys
    {
      ready := txs.Ready(start);
    }
  }

  // ---------- lemmas for Filter ----------

  lemma CollectsSize(s: seq<Tx>, l: Txs)
    requires Collects(s, l)
    ensures |s| == |l|
  {
  }

  lemma AllPayable(l: Txs, strict: bool, costLimit: nat, gasLimit: nat)
    requires forall n | n in l :: !Over(l[n], costLimit, gasLimit)
    ensures Kept(l, strict, costLimit, gasLimit) == l
    ensures Collects([], Unpayable(l, costLimit, gasLimit)) && Collects([], Invalidated(l, strict, costLimit, gasLimit))
  {
    assert Unpayable(l, costLimit, gasLimit) == map[];
    assert Payable(l, costLimit, gasLimit) == l;
  }

  lemma NothingOver(l: Txs, strict: bool, costLimit: nat, gasLimit: nat)
    requires |Unpayable(l, costLimit, gasLimit)| == 0
    ensures Kept(l, strict, costLimit, gasLimit) == Payable(l, costLimit, gasLimit)
    ensures Collects([], Unpayable(l, costLimit, gasLimit)) && Collects([], Invalidated(l, strict, costLimit, gasLimit))
  {
    assert |Unpayable(l, costLimit, gasLimit).Keys| == 0;
  }

  lemma LowestIsMin(removed: seq<Tx>, l: Txs, lowest: nat)
    requires Collects(removed, l)
    requires exists j :: 0 <= j < |removed| && removed[j].nonce == lowest
    requires forall j | 0 <= j < |removed| :: lowest <= removed[j].nonce
    requires Keyed(l)
    ensures l.Keys != {} && lowest == Min(l.Keys)
  {
    var j :| 0 <= j < |removed| && removed[j].nonce == lowest;
    assert removed[j] in removed;
    assert lowest in l.Keys;
    forall n | n in l.Keys
      ensures lowest <= n
    {
      assert In(l, l[n]);
      assert l[n] in removed;
    }
  }

  lemma StrictFilter(l: Txs, costLimit: nat, gasLimit: nat, lowest: nat)
    requires Keyed(l) && Unpayable(l, costLimit, gasLimit).Keys != {}
    requires lowest == Min(Unpayable(l, costLimit, gasLimit).Keys)
    ensures var rest := Payable(l, costLimit, gasLimit);
      && Selecting(rest, (tx: Tx) => tx.nonce > lowest) == Invalidated(l, true, costLimit, gasLimit)
      && Rejecting(rest, (tx: Tx) => tx.nonce > lowest) == Kept(l, true, costLimit, gasLimit)
  {
    assert lowest in Unpayable(l, costLimit, gasLimit);
  }
}
