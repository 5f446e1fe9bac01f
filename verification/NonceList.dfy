/**
 Transactions of one account by nonce, as values: what the operations of txList mean
 (evmcore/tx_list.go).  Class TxList refines these functions, the pool uses them.
 */
module NonceList {
  import opened Common

  /**
   A transaction, identified by its hash in the source: two are the same exactly when they are
   equal.  `payload` stands for all that the pool does not look at.
   */
  datatype Tx = Tx(from: Addr, nonce: nat, gas: nat, cost: nat, feeCap: nat, tipCap: nat, size: nat, payload: nat)

  type Txs = map<nat, Tx>

  ghost predicate Keyed(l: Txs) {
    forall n | n in l :: l[n].nonce == n
  }

  ghost predicate In(l: Txs, tx: Tx) {
    tx.nonce in l && l[tx.nonce] == tx
  }

  /** The nonces are lo, lo + 1, ..., hi - 1. */
  ghost predicate Interval(l: Txs, lo: nat, hi: nat) {
    lo <= hi && forall n :: n in l <==> lo <= n < hi
  }

  ghost predicate AtLeast(l: Txs, lo: nat) {
    forall n | n in l :: n >= lo
  }

  ghost predicate Within(part: Txs, l: Txs) {
    forall n | n in part :: n in l && part[n] == l[n]
  }

  // ---------- extreme nonces ----------

  lemma {:induction false} FindMax(s: set<nat>) returns (m: nat)
    requires s != {}
    ensures m in s && forall x | x in s :: x <= m
  {
    var y :| y in s;
    m := y;
    if s - {y} != {} {
      var z := FindMax(s - {y});
      m := if y < z then z else y;
    }
    forall x | x in s
      ensures x <= m
    {
      if x != y { assert x in s - {y}; }
    }
  }

  lemma {:induction false} FindMin(s: set<nat>) returns (m: nat)
    requires s != {}
    ensures m in s && forall x | x in s :: m <= x
  {
    var y :| y in s;
    m := y;
    if s - {y} != {} {
      var z := FindMin(s - {y});
      m := if y < z then y else z;
    }
    forall x | x in s
      ensures m <= x
    {
      if x != y { assert x in s - {y}; }
    }
  }

  lemma MaxExists(s: set<nat>)
    requires s != {}
    ensures exists m :: m in s && forall x | x in s :: x <= m
  {
    var m := FindMax(s);
  }

  lemma MinExists(s: set<nat>)
    requires s != {}
    ensures exists m :: m in s && forall x | x in s :: m <= x
  {
    var m := FindMin(s);
  }

  function Max(s: set<nat>): (m: nat)
    requires s != {}
    ensures m in s && forall x | x in s :: x <= m
  {
    MaxExists(s);
    var m :| m in s && forall x | x in s :: x <= m;
    m
  }

  function Min(s: set<nat>): (m: nat)
    requires s != {}
    ensures m in s && forall x | x in s :: m <= x
  {
    MinExists(s);
    var m :| m in s && forall x | x in s :: m <= x;
    m
  }

  // ---------- the operations ----------

  /** The replacement rule: both prices strictly higher, and both at the bump threshold. */
  predicate Outbids(tx: Tx, held: Tx, priceBump: nat) {
    && tx.feeCap > held.feeCap && tx.tipCap > held.tipCap
    && tx.feeCap >= (100 + priceBump) * held.feeCap / 100
    && tx.tipCap >= (100 + priceBump) * held.tipCap / 100
  }

  predicate Admits(l: Txs, tx: Tx, priceBump: nat) {
    tx.nonce in l ==> Outbids(tx, l[tx.nonce], priceBump)
  }

  function Below(l: Txs, t: nat): Txs {
    map n | n in l && n < t :: l[n]
  }

  function From(l: Txs, t: nat): Txs {
    map n | n in l && n >= t :: l[n]
  }

  predicate Over(tx: Tx, costLimit: nat, gasLimit: nat) {
    tx.gas > gasLimit || tx.cost > costLimit
  }

  function Unpayable(l: Txs, costLimit: nat, gasLimit: nat): Txs {
    map n | n in l && Over(l[n], costLimit, gasLimit) :: l[n]
  }

  function Payable(l: Txs, costLimit: nat, gasLimit: nat): Txs {
    map n | n in l && !Over(l[n], costLimit, gasLimit) :: l[n]
  }

  /** Strict lists: what follows the lowest removed nonce is invalidated. */
  function Invalidated(l: Txs, strict: bool, costLimit: nat, gasLimit: nat): Txs {
    var removed := Unpayable(l, costLimit, gasLimit);
    if !strict || removed.Keys == {} then map[]
    else From(Payable(l, costLimit, gasLimit), Min(removed.Keys))
  }

  function Kept(l: Txs, strict: bool, costLimit: nat, gasLimit: nat): Txs {
    var removed := Unpayable(l, costLimit, gasLimit);
    if !strict || removed.Keys == {} then Payable(l, costLimit, gasLimit)
    else Below(Payable(l, costLimit, gasLimit), Min(removed.Keys))
  }

  /** The k lowest nonces. */
  function Cap(l: Txs, k: nat): Txs
    decreases |l|
  {
    if |l| <= k then l
    else
      assert |l.Keys| == |l|;
      var m := Max(l.Keys);
      assert (l - {m}).Keys == l.Keys - {m};
      Cap(l - {m}, k)
  }

  function EndOfRun(l: Txs, n: nat): (e: nat)
    ensures n <= e && e !in l && forall m | n <= m < e :: m in l
    decreases |l|
  {
    if n in l then
      assert (l - {n}).Keys == l.Keys - {n};
      assert |(l - {n}).Keys| == |l - {n}| && |l.Keys| == |l|;
      var e := EndOfRun(l - {n}, n + 1);
      assert forall m | n <= m < e :: m in l by {
        forall m | n <= m < e
          ensures m in l
        {
          if m != n { assert m in l - {n}; }
        }
      }
      e
    else n
  }

  /** The longest gap-free run from the lowest nonce, provided that nonce is at most start. */
  function Ready(l: Txs, start: nat): Txs {
    if l.Keys == {} || Min(l.Keys) > start then map[]
    else Below(l, EndOfRun(l, Min(l.Keys)))
  }

  // ---------- their effect on gap-free lists ----------

  lemma {:induction false} IntervalSize(l: Txs, lo: nat, hi: nat)
    requires Interval(l, lo, hi)
    ensures |l| == hi - lo
    decreases hi - lo
  {
    if lo == hi {
      assert l == map[];
    } else {
      var rest := l - {lo};
      IntervalSize(rest, lo + 1, hi);
      assert l == rest[lo := l[lo]];
    }
  }

  lemma {:induction false} CapInterval(l: Txs, lo: nat, hi: nat, k: nat)
    requires Interval(l, lo, hi)
    ensures Interval(Cap(l, k), lo, if lo + k < hi then lo + k else hi)
    ensures Within(Cap(l, k), l)
    decreases hi - lo
  {
    IntervalSize(l, lo, hi);
    if |l| > k {
      var m := Max(l.Keys);
      assert hi - 1 in l;
      assert m == hi - 1;
      CapInterval(l - {m}, lo, hi - 1, k);
    }
  }

  /** Filtering a gap-free strict list keeps a gap-free front. */
  lemma KeptInterval(l: Txs, lo: nat, hi: nat, costLimit: nat, gasLimit: nat) returns (d: nat)
    requires Interval(l, lo, hi)
    ensures lo <= d <= hi
    ensures Interval(Kept(l, true, costLimit, gasLimit), lo, d)
    ensures AtLeast(Invalidated(l, true, costLimit, gasLimit), d)
    ensures d == hi <==> Unpayable(l, costLimit, gasLimit) == map[]
    ensures d < hi ==> d in Unpayable(l, costLimit, gasLimit)
  {
    var removed := Unpayable(l, costLimit, gasLimit);
    d := if removed.Keys == {} then hi else Min(removed.Keys);
    forall n: nat
      ensures n in Kept(l, true, costLimit, gasLimit) <==> lo <= n < d
    {
      FilterPartitions(l, true, costLimit, gasLimit, n);
      assert n in removed <==> n in removed.Keys;
    }
  }

  /** Every transaction of the list is kept, invalidated or removed, and only one of these. */
  lemma FilterPartitions(l: Txs, strict: bool, costLimit: nat, gasLimit: nat, n: nat)
    ensures var kept, invalid, removed :=
      Kept(l, strict, costLimit, gasLimit), Invalidated(l, strict, costLimit, gasLimit), Unpayable(l, costLimit, gasLimit);
      && (n in l <==> n in kept || n in invalid || n in removed)
      && (n in kept ==> n !in invalid && n !in removed && kept[n] == l[n])
      && (n in invalid ==> n !in removed && invalid[n] == l[n])
      && (n in removed ==> removed[n] == l[n])
  {
  }

  /** When all nonces are at or above start, what is ready is gap-free from start. */
  lemma ReadyInterval(l: Txs, start: nat) returns (e: nat)
    requires AtLeast(l, start)
    ensures start <= e && e !in l && Interval(Ready(l, start), start, e) && AtLeast(l - Ready(l, start).Keys, e)
    ensures Within(Ready(l, start), l)
  {
    if start in l {
      assert Min(l.Keys) == start;
      e := EndOfRun(l, start);
    } else {
      e := start;
    }
  }

  lemma {:induction false} CapIsPrefix(l: Txs, k: nat)
    ensures Within(Cap(l, k), l)
    ensures |Cap(l, k)| == if |l| <= k then |l| else k
    ensures forall n, m | n in Cap(l, k) && m in l && m !in Cap(l, k) :: n < m
    decreases |l|
  {
    if |l| > k {
      assert |l.Keys| == |l|;
      var m := Max(l.Keys);
      var rest := l - {m};
      assert rest.Keys == l.Keys - {m};
      assert |rest.Keys| == |rest|;
      CapIsPrefix(rest, k);
    }
  }

  lemma ReadyShape(l: Txs, start: nat)
    ensures var r := Ready(l, start); r.Keys != {} ==> Interval(r, Min(r.Keys), Max(r.Keys) + 1)
  {
    var r := Ready(l, start);
    if r.Keys != {} {
      var lo := Min(l.Keys);
      var e := EndOfRun(l, lo);
      assert Interval(r, lo, e) by {
        forall n: nat
          ensures n in r <==> lo <= n < e
        {
          assert n in l ==> lo <= n;
        }
      }
      assert Min(r.Keys) == lo && Max(r.Keys) == e - 1 by {
        assert lo in r.Keys && e - 1 in r.Keys;
      }
    }
  }

  /** Moving a gap-free run over in nonce order. */
  lemma Walk(base: Txs, run: Txs, lo: nat, hi: nat, n: nat)
    requires Interval(run, lo, hi) && lo <= n <= hi
    ensures n == lo ==> From(run, n) == run && base == base + Below(run, n)
    ensures n == hi ==> From(run, n) == map[] && Below(run, n) == run
    ensures n < hi ==>
      && n in run && n in From(run, n) && From(run, n)[n] == run[n]
      && From(run, n) - {n} == From(run, n + 1)
      && (base + Below(run, n))[n := run[n]] == base + Below(run, n + 1)
  {
  }

  lemma CapDropsLast(l: Txs)
    requires l.Keys != {}
    ensures |l| > 0 && Cap(l, |l| - 1) == l - {Max(l.Keys)}
  {
    assert |l.Keys| == |l|;
    var m := Max(l.Keys);
    assert (l - {m}).Keys == l.Keys - {m};
    assert |(l - {m}).Keys| == |l - {m}|;
  }
}
