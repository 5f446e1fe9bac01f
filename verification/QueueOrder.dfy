/**
 Who loses queued transactions when the queue is over its limit: what truncateQueue
 (evmcore/tx_pool.go) does to the accounts, in terms of the heartbeats it sorts them by.
 */
module QueueOrder {
  import opened Common
  import opened NonceList
  import opened PoolBook
  import FairShare

  /** The last time an account was heard from; never is before everything. */
  function Beat(beats: map<Addr, nat>, a: Addr): nat {
    if a in beats then beats[a] else 0
  }

  ghost predicate ByBeat(order: seq<Addr>, beats: map<Addr, nat>) {
    forall i, j | 0 <= i < j < |order| :: Beat(beats, order[i]) <= Beat(beats, order[j])
  }

  ghost predicate AllDifferent(order: seq<Addr>) {
    forall i, j | 0 <= i < j < |order| :: order[i] != order[j]
  }

  // ---------- by place ----------

  ghost function Size(lists: map<Addr, Txs>, a: Addr): nat {
    |ListOf(lists, a)|
  }

  /** How many transactions the accounts from place k on have. */
  ghost function Behind(lists: map<Addr, Txs>, order: seq<Addr>, k: nat): nat
    requires k <= |order|
    decreases |order| - k
  {
    if k == |order| then 0 else Size(lists, order[k]) + Behind(lists, order, k + 1)
  }

  function Excess(overflow: nat, behind: nat): nat {
    if overflow > behind then overflow - behind else 0
  }

  /** What an account keeps when the given excess is left for it. */
  function Keeps(size: nat, excess: nat): nat {
    if excess >= size then 0 else size - excess
  }

  /** The account at place k has kept what the overflow leaves after those behind it. */
  ghost predicate KeptAt(lists: map<Addr, Txs>, lists': map<Addr, Txs>, order: seq<Addr>, k: nat, overflow: nat)
    requires k < |order|
  {
    Size(lists', order[k]) == Keeps(Size(lists, order[k]), Excess(overflow, Behind(lists, order, k + 1)))
  }

  ghost predicate Cut(lists: map<Addr, Txs>, lists': map<Addr, Txs>, order: seq<Addr>, i: nat, overflow: nat) {
    i <= |order| && forall k: nat | i <= k < |order| :: KeptAt(lists, lists', order, k, overflow)
  }

  lemma NobodyBehind(lists: map<Addr, Txs>, order: seq<Addr>)
    ensures Behind(lists, order, |order|) == 0
  {
  }

  lemma OneBehind(lists: map<Addr, Txs>, order: seq<Addr>, i: nat)
    requires i < |order|
    ensures Behind(lists, order, i) == Size(lists, order[i]) + Behind(lists, order, i + 1)
  {
  }

  lemma {:induction false} BehindGrows(lists: map<Addr, Txs>, order: seq<Addr>, i: nat, k: nat)
    requires i <= k <= |order|
    ensures Behind(lists, order, k) <= Behind(lists, order, i)
    decreases k - i
  {
    hide Size;
    if i < k { BehindGrows(lists, order, i + 1, k); }
  }

  lemma CutNone(lists: map<Addr, Txs>, order: seq<Addr>)
    ensures Cut(lists, lists, order, 0, 0)
  {
  }

  lemma CutNobody(lists: map<Addr, Txs>, order: seq<Addr>, overflow: nat)
    ensures Cut(lists, lists, order, |order|, overflow)
  {
  }

  /** One more account has had its turn. */
  lemma CutOne(lists: map<Addr, Txs>, before: map<Addr, Txs>, after: map<Addr, Txs>, order: seq<Addr>, i: nat, overflow: nat)
    requires i < |order| && Cut(lists, before, order, i + 1, overflow) && KeptAt(lists, after, order, i, overflow)
    requires forall k: nat | i < k < |order| :: Size(after, order[k]) == Size(before, order[k])
    ensures Cut(lists, after, order, i, overflow)
  {
    hide Size, Behind;
    forall k: nat | i <= k < |order|
      ensures KeptAt(lists, after, order, k, overflow)
    {
      if k > i { assert KeptAt(lists, before, order, k, overflow); }
    }
  }

  /** Where nothing is left to drop, the accounts in front keep everything. */
  lemma CutRest(lists: map<Addr, Txs>, lists': map<Addr, Txs>, order: seq<Addr>, i: nat, overflow: nat)
    requires Cut(lists, lists', order, i, overflow) && (i == 0 || overflow <= Behind(lists, order, i))
    requires forall k: nat | k < i :: Size(lists', order[k]) == Size(lists, order[k])
    ensures Cut(lists, lists', order, 0, overflow)
  {
    hide Size, Behind;
    forall k: nat | k < |order|
      ensures KeptAt(lists, lists', order, k, overflow)
    {
      if k < i { BehindGrows(lists, order, k + 1, i); }
    }
  }

  // ---------- by heartbeat ----------

  /** An account loses nothing before those heard from later have lost everything. */
  lemma LaterLosesFirst(lists: map<Addr, Txs>, lists': map<Addr, Txs>, order: seq<Addr>, beats: map<Addr, nat>,
                        overflow: nat, a: Addr, b: Addr)
    requires Cut(lists, lists', order, 0, overflow) && ByBeat(order, beats)
    requires a in order && b in order && Beat(beats, a) < Beat(beats, b) && Size(lists', a) < Size(lists, a)
    ensures Size(lists', b) == 0
  {
    hide Size, Behind;
    var i: nat :| i < |order| && order[i] == a;
    var j: nat :| j < |order| && order[j] == b;
    assert i < j;
    assert KeptAt(lists, lists', order, i, overflow) && KeptAt(lists, lists', order, j, overflow);
    BehindGrows(lists, order, i + 1, j);
    OneBehind(lists, order, j);
  }

  /** No other of these accounts was heard from at the same moment. */
  ghost predicate Alone(accounts: set<Addr>, beats: map<Addr, nat>, a: Addr) {
    forall c | c in accounts && c != a :: Beat(beats, c) != Beat(beats, a)
  }

  /** The local accounts and those not heard from after a. */
  ghost function NotLater(accounts: set<Addr>, locals: set<Addr>, beats: map<Addr, nat>, a: Addr): (s: set<Addr>)
    ensures s <= accounts
  {
    set c | c in accounts && (c in locals || Beat(beats, c) <= Beat(beats, a))
  }

  ghost function Elements(order: seq<Addr>): set<Addr> {
    set a | a in order
  }

  lemma {:induction false} BehindIsSum(lists: map<Addr, Txs>, order: seq<Addr>, k: nat)
    requires k <= |order| && (forall a | a in order :: a in lists) && AllDifferent(order)
    ensures Elements(order[k..]) <= lists.Keys && Behind(lists, order, k) == FairShare.Sum(lists, Elements(order[k..]))
    decreases |order| - k
  {
    hide FairShare.Sum;
    if k == |order| {
      assert Elements(order[k..]) == {};
      FairShare.SumOfNone(lists);
    } else {
      BehindIsSum(lists, order, k + 1);
      var rest, here := Elements(order[k + 1..]), Elements(order[k..]);
      assert order[k..] == [order[k]] + order[k + 1..];
      assert here == rest + {order[k]} && order[k] in order;
      assert order[k] !in order[k + 1..];
      assert here - {order[k]} == rest;
      FairShare.SumWithout(lists, here, order[k]);
    }
  }

  lemma {:induction false} SumSplits(lists: map<Addr, Txs>, s: set<Addr>, part: set<Addr>)
    requires part <= s <= lists.Keys
    ensures FairShare.Sum(lists, s) == FairShare.Sum(lists, part) + FairShare.Sum(lists, s - part)
    decreases part
  {
    hide FairShare.Sum;
    if part == {} {
      assert s - part == s;
      FairShare.SumOfNone(lists);
    } else {
      var a :| a in part;
      SumSplits(lists, s - {a}, part - {a});
      FairShare.SumWithout(lists, s, a);
      FairShare.SumWithout(lists, part, a);
      assert s - {a} - (part - {a}) == s - part;
    }
  }

  ghost predicate Remotes(order: seq<Addr>, lists: map<Addr, Txs>, locals: set<Addr>) {
    AllDifferent(order) && forall a :: a in order <==> a in lists && a !in locals
  }

  /** The accounts behind place i are those heard from later than its own. */
  lemma LaterOnes(lists: map<Addr, Txs>, order: seq<Addr>, locals: set<Addr>, beats: map<Addr, nat>, i: nat)
    requires Remotes(order, lists, locals) && ByBeat(order, beats) && i < |order| && Alone(lists.Keys - locals, beats, order[i])
    ensures Elements(order[i + 1..]) == lists.Keys - NotLater(lists.Keys, locals, beats, order[i])
  {
    forall c: Addr
      ensures c in Elements(order[i + 1..]) <==> c in lists.Keys - NotLater(lists.Keys, locals, beats, order[i])
    {
      if c in order[i + 1..] {
        var j :| i < j < |order| && order[j] == c;
        assert c in order;
      }
      if c in lists.Keys - NotLater(lists.Keys, locals, beats, order[i]) {
        assert c in order;
        var j :| 0 <= j < |order| && order[j] == c;
        assert j > i;
        assert order[i + 1..][j - i - 1] == c;
      }
    }
  }

  /**
   An account whose heartbeat no other remote one shares loses something exactly when local
   accounts and those not heard from after it exceed the limit on their own.
   */
  lemma LosesIff(lists: map<Addr, Txs>, lists': map<Addr, Txs>, order: seq<Addr>, locals: set<Addr>, beats: map<Addr, nat>,
                 limit: nat, a: Addr)
    requires Remotes(order, lists, locals) && ByBeat(order, beats)
    requires Cut(lists, lists', order, 0, Excess(FairShare.Total(lists), limit))
    requires a in order && Alone(lists.Keys - locals, beats, a) && Size(lists, a) > 0
    ensures Size(lists', a) < Size(lists, a) <==> FairShare.Sum(lists, NotLater(lists.Keys, locals, beats, a)) > limit
  {
    hide FairShare.Sum, Size, Behind, NotLater;
    var i: nat :| i < |order| && order[i] == a;
    assert KeptAt(lists, lists', order, i, Excess(FairShare.Total(lists), limit));
    LaterOnes(lists, order, locals, beats, i);
    BehindIsSum(lists, order, i + 1);
    SumSplits(lists, lists.Keys, NotLater(lists.Keys, locals, beats, a));
  }

  /** One account put in front of those heard from later. */
  lemma InsertedAccounts(order: seq<Addr>, a: Addr, k: nat)
    requires k <= |order| && AllDifferent(order) && a !in order
    ensures AllDifferent(order[..k] + [a] + order[k..])
    ensures forall c :: c in order[..k] + [a] + order[k..] <==> c in order || c == a
  {
    var r := order[..k] + [a] + order[k..];
    forall i: nat, j: nat | i < j < |r|
      ensures r[i] != r[j]
    {
      assert r[i] == if i < k then order[i] else if i == k then a else order[i - 1];
      assert r[j] == if j < k then order[j] else if j == k then a else order[j - 1];
    }
    forall c
      ensures c in r <==> c in order || c == a
    {
      assert order == order[..k] + order[k..];
    }
  }

  lemma InsertedByBeat(order: seq<Addr>, a: Addr, k: nat, beats: map<Addr, nat>)
    requires k <= |order| && ByBeat(order, beats) && (forall i | 0 <= i < k :: Beat(beats, order[i]) <= Beat(beats, a))
    requires k < |order| ==> Beat(beats, a) <= Beat(beats, order[k])
    ensures ByBeat(order[..k] + [a] + order[k..], beats)
  {
    hide Beat;
    var r := order[..k] + [a] + order[k..];
    forall i: nat, j: nat | i < j < |r|
      ensures Beat(beats, r[i]) <= Beat(beats, r[j])
    {
      assert r[i] == if i < k then order[i] else if i == k then a else order[i - 1];
      assert r[j] == if j < k then order[j] else if j == k then a else order[j - 1];
    }
  }
}
