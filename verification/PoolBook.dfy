/**
 The contents of the transaction pool as a value, and its two invariants:
 `Consistent` ties the lookup set to the pending and queue lists, `Chained` ties the
 pending nonces to the state nonce and the virtual nonce (evmcore/tx_pool.go).
 */
module PoolBook {
  import opened Common
  import opened NonceList
  import opened TxLookup
  import FairShare

  datatype Book = Book(
    pending: map<Addr, Txs>,
    queue: map<Addr, Txs>,
    all: Lookup,
    nonces: map<Addr, nat>)   // the virtual nonces kept by txNoncer

  const EMPTY_BOOK := Book(map[], map[], TxLookup.EMPTY, map[])

  /** What the pool reads from the chain head. */
  datatype Chain = Chain(nonce: Addr -> nat, balance: Addr -> nat, maxGas: nat)

  function ListOf(lists: map<Addr, Txs>, a: Addr): Txs {
    if a in lists then lists[a] else map[]
  }

  /** Lists are dropped from their map when they become empty. */
  function Put(lists: map<Addr, Txs>, a: Addr, l: Txs): (r: map<Addr, Txs>)
    ensures ListOf(r, a) == l
    ensures forall b | b != a :: ListOf(r, b) == ListOf(lists, b) && (b in r <==> b in lists)
    ensures a in r <==> l != map[]
  {
    if l == map[] then lists - {a} else lists[a := l]
  }

  /** txNoncer.get: the virtual nonce, or the nonce in the state. */
  function Virtual(nonces: map<Addr, nat>, state: Addr -> nat, a: Addr): nat {
    if a in nonces then nonces[a] else state(a)
  }

  /** txNoncer.setIfLower; reading an unknown account caches its state nonce first. */
  function SetIfLower(nonces: map<Addr, nat>, state: Addr -> nat, a: Addr, n: nat): (r: map<Addr, nat>)
    ensures Virtual(r, state, a) == (if Virtual(nonces, state, a) <= n then Virtual(nonces, state, a) else n)
    ensures forall c | c != a :: Virtual(r, state, c) == Virtual(nonces, state, c)
  {
    var known := if a in nonces then nonces else nonces[a := state(a)];
    if known[a] <= n then known else known[a := n]
  }

  // ---------- consistency ----------

  ghost predicate Owned(l: Txs, a: Addr) {
    forall n | n in l :: l[n].nonce == n && l[n].from == a
  }

  ghost predicate ListsOk(lists: map<Addr, Txs>) {
    forall a | a in lists :: lists[a] != map[] && Owned(lists[a], a)
  }

  ghost predicate Listed(b: Book, tx: Tx) {
    In(ListOf(b.pending, tx.from), tx) || In(ListOf(b.queue, tx.from), tx)
  }

  /** limbo: what an operation has taken out of one list of the account and not yet put into another. */
  ghost predicate Apart(p: Txs, q: Txs, limbo: Txs) {
    p.Keys !! q.Keys && p.Keys !! limbo.Keys && q.Keys !! limbo.Keys
  }

  ghost predicate AllApart(b: Book) {
    forall c: Addr :: ListOf(b.pending, c).Keys !! ListOf(b.queue, c).Keys
  }

  ghost predicate ConsistentBut(b: Book, a: Addr, limbo: Txs) {
    && ListsOk(b.pending) && ListsOk(b.queue) && Owned(limbo, a)
    && AllApart(b)
    && Apart(ListOf(b.pending, a), ListOf(b.queue, a), limbo)
    && b.all.Valid()
    && (forall tx: Tx :: tx in b.all.All() <==> Listed(b, tx) || In(limbo, tx))
  }

  /** The lookup set is the disjoint union of the pending and queue lists of all senders. */
  ghost predicate Consistent(b: Book) {
    && ListsOk(b.pending) && ListsOk(b.queue)
    && AllApart(b)
    && b.all.Valid()
    && (forall tx: Tx :: tx in b.all.All() <==> Listed(b, tx))
  }

  /** The book with the lists of one account replaced. */
  function With(b: Book, a: Addr, p: Txs, q: Txs, all: Lookup): Book {
    b.(pending := Put(b.pending, a, p), queue := Put(b.queue, a, q), all := all)
  }

  /** The lookup set changes only at account a, where it becomes the given lists. */
  ghost predicate Follows(all: Lookup, all': Lookup, a: Addr, p: Txs, q: Txs, limbo: Txs) {
    && all'.Valid()
    && (forall tx: Tx | tx.from != a :: tx in all'.All() <==> tx in all.All())
    && (forall tx: Tx | tx.from == a :: tx in all'.All() <==> In(p, tx) || In(q, tx) || In(limbo, tx))
  }

  lemma WithLists(b: Book, a: Addr, p: Txs, q: Txs, all: Lookup)
    requires ListsOk(b.pending) && ListsOk(b.queue) && AllApart(b)
    requires Owned(p, a) && Owned(q, a) && p.Keys !! q.Keys
    ensures ListsOk(With(b, a, p, q, all).pending) && ListsOk(With(b, a, p, q, all).queue)
    ensures AllApart(With(b, a, p, q, all))
  {
    var b' := With(b, a, p, q, all);
    forall c: Addr
      ensures ListOf(b'.pending, c).Keys !! ListOf(b'.queue, c).Keys
    {
      assert ListOf(b.pending, c).Keys !! ListOf(b.queue, c).Keys;
    }
  }

  /** Rewriting the lists of one account is consistent if the lookup set follows. */
  lemma Rewrite(b: Book, a: Addr, limbo: Txs, p: Txs, q: Txs, all: Lookup, limbo': Txs)
    requires ConsistentBut(b, a, limbo)
    requires Owned(p, a) && Owned(q, a) && Owned(limbo', a) && Apart(p, q, limbo')
    requires Follows(b.all, all, a, p, q, limbo')
    ensures ConsistentBut(With(b, a, p, q, all), a, limbo')
  {
    var b' := With(b, a, p, q, all);
    WithLists(b, a, p, q, all);
    forall tx: Tx
      ensures tx in b'.all.All() <==> Listed(b', tx) || In(limbo', tx)
    {
      assert tx in b.all.All() <==> Listed(b, tx) || In(limbo, tx);
    }
  }

  lemma NoLimbo(b: Book, a: Addr)
    ensures Consistent(b) <==> ConsistentBut(b, a, map[])
  {
    if Consistent(b) { assert ListOf(b.pending, a).Keys !! ListOf(b.queue, a).Keys; }
  }

  lemma MovedOne(base: Txs, txs: Txs, todo: Txs, n: nat)
    requires Within(todo, txs) && n in todo
    ensures (base + (txs - todo.Keys))[n := todo[n]] == base + (txs - (todo - {n}).Keys)
  {
  }

  lemma PutSame(lists: map<Addr, Txs>, a: Addr)
    requires ListsOk(lists)
    ensures Put(lists, a, ListOf(lists, a)) == lists
  {
  }

  // ---------- nonces ----------

  /** The pending nonces are gap-free from the state nonce to the virtual nonce; queued ones lie beyond. */
  ghost predicate ChainedAt(p: Txs, q: Txs, state: nat, virt: nat) {
    Interval(p, state, virt) && AtLeast(q, virt)
  }

  ghost predicate Chained(b: Book, state: Addr -> nat) {
    forall a: Addr :: ChainedAt(ListOf(b.pending, a), ListOf(b.queue, a), state(a), Virtual(b.nonces, state, a))
  }

  ghost predicate LooseIn(b: Book, chain: Chain, a: Addr) {
    Loose(ListOf(b.pending, a), ListOf(b.queue, a), chain.nonce(a), Virtual(b.nonces, chain.nonce, a))
  }

  ghost predicate MixedIn(b: Book, chain: Chain, a: Addr) {
    Mixed(ListOf(b.pending, a), ListOf(b.queue, a), chain.nonce(a), Virtual(b.nonces, chain.nonce, a),
          chain.balance(a), chain.maxGas)
  }

  ghost predicate FrontIn(b: Book, chain: Chain, a: Addr) {
    FrontAt(ListOf(b.pending, a), ListOf(b.queue, a), chain.nonce(a), Virtual(b.nonces, chain.nonce, a))
  }

  /** As ChainedAt, but the virtual nonce may lag at the state nonce until the end of a reorg run. */
  ghost predicate FrontAt(p: Txs, q: Txs, state: nat, virt: nat) {
    Interval(p, state, state + |p|) && AtLeast(q, state + |p|) && (virt == state + |p| || virt == state)
  }

  ghost predicate Front(b: Book, chain: Chain) {
    forall a: Addr :: FrontIn(b, chain, a)
  }

  lemma ChainedIsFront(b: Book, chain: Chain)
    requires Chained(b, chain.nonce)
    ensures Front(b, chain)
  {
    forall a: Addr
      ensures FrontIn(b, chain, a)
    {
      assert ChainedAt(ListOf(b.pending, a), ListOf(b.queue, a), chain.nonce(a), Virtual(b.nonces, chain.nonce, a));
      IntervalSize(ListOf(b.pending, a), chain.nonce(a), Virtual(b.nonces, chain.nonce, a));
    }
  }

  // ---------- what the steps of the pool operations do to one account ----------

  /** Any transactions of the account may leave the lookup set together with their lists. */
  lemma Follow(b: Book, a: Addr, limbo: Txs, gone: set<Tx>, all: Lookup, p: Txs, q: Txs, limbo': Txs)
    requires ConsistentBut(b, a, limbo)
    requires all.Valid() && all.All() == b.all.All() - gone
    requires forall tx | tx in gone :: tx.from == a
    requires forall tx: Tx | tx.from == a ::
      (In(p, tx) || In(q, tx) || In(limbo', tx)) <==>
      (In(ListOf(b.pending, a), tx) || In(ListOf(b.queue, a), tx) || In(limbo, tx)) && tx !in gone
    ensures Follows(b.all, all, a, p, q, limbo')
  {
    forall tx: Tx | tx.from == a
      ensures tx in all.All() <==> In(p, tx) || In(q, tx) || In(limbo', tx)
    {
      assert tx in b.all.All() <==> Listed(b, tx) || In(limbo, tx);
    }
  }

  /** removeTx, pending case: the later transactions are in limbo until they are queued again. */
  lemma RemovedFromPending(b: Book, tx: Tx)
    requires Consistent(b) && In(ListOf(b.pending, tx.from), tx)
    ensures var p, q := ListOf(b.pending, tx.from), ListOf(b.queue, tx.from);
      ConsistentBut(With(b, tx.from, Below(p, tx.nonce), q, b.all.Remove(tx)), tx.from, From(p, tx.nonce + 1))
  {
    hide AllApart;
    var a := tx.from;
    var p, q := ListOf(b.pending, a), ListOf(b.queue, a);
    NoLimbo(b, a);
    Follow(b, a, map[], {tx}, b.all.Remove(tx), Below(p, tx.nonce), q, From(p, tx.nonce + 1));
    Rewrite(b, a, map[], Below(p, tx.nonce), q, b.all.Remove(tx), From(p, tx.nonce + 1));
  }

  lemma RemovedFromQueue(b: Book, tx: Tx)
    requires Consistent(b) && In(ListOf(b.queue, tx.from), tx)
    ensures Consistent(With(b, tx.from, ListOf(b.pending, tx.from), ListOf(b.queue, tx.from) - {tx.nonce}, b.all.Remove(tx)))
  {
    var a := tx.from;
    var p, q := ListOf(b.pending, a), ListOf(b.queue, a);
    Shrunk(b, a, {tx}, b.all.Remove(tx), p, q - {tx.nonce});
  }

  /** Transactions leave the lists of one account and the lookup set together. */
  lemma Shrunk(b: Book, a: Addr, gone: set<Tx>, all: Lookup, p: Txs, q: Txs)
    requires Consistent(b) && all.Valid() && all.All() == b.all.All() - gone
    requires Within(p, ListOf(b.pending, a)) && Within(q, ListOf(b.queue, a))
    requires forall tx: Tx :: tx in gone <==>
      || (In(ListOf(b.pending, a), tx) && tx.nonce !in p)
      || (In(ListOf(b.queue, a), tx) && tx.nonce !in q)
    ensures Consistent(With(b, a, p, q, all))
  {
    NoLimbo(b, a);
    ShrunkLists(b, a, p, q);
    GoneOf(b, a, gone, p, q);
    hide Consistent, ConsistentBut, Follows, AllApart, ListsOk, Owned, Apart;
    Follow(b, a, map[], gone, all, p, q, map[]);
    Rewrite(b, a, map[], p, q, all, map[]);
    NoLimbo(With(b, a, p, q, all), a);
  }

  lemma ShrunkLists(b: Book, a: Addr, p: Txs, q: Txs)
    requires Consistent(b) && Within(p, ListOf(b.pending, a)) && Within(q, ListOf(b.queue, a))
    ensures Owned(p, a) && Owned(q, a) && Owned(map[], a) && Apart(p, q, map[])
  {
    assert ListOf(b.pending, a).Keys !! ListOf(b.queue, a).Keys;
  }

  lemma GoneOf(b: Book, a: Addr, gone: set<Tx>, p: Txs, q: Txs)
    requires Consistent(b) && Within(p, ListOf(b.pending, a)) && Within(q, ListOf(b.queue, a))
    requires forall tx: Tx :: tx in gone <==>
      || (In(ListOf(b.pending, a), tx) && tx.nonce !in p)
      || (In(ListOf(b.queue, a), tx) && tx.nonce !in q)
    ensures forall tx | tx in gone :: tx.from == a
    ensures forall tx: Tx | tx.from == a ::
      (In(p, tx) || In(q, tx) || In(map[], tx)) <==>
      (In(ListOf(b.pending, a), tx) || In(ListOf(b.queue, a), tx) || In(map[], tx)) && tx !in gone
  {
    assert ListOf(b.pending, a).Keys !! ListOf(b.queue, a).Keys;
    hide Lookup.Valid, Listed;
  }

  /** An internal shuffle puts one transaction from limbo into the queue: its nonce is free there. */
  lemma Requeued(b: Book, a: Addr, limbo: Txs, n: nat)
    requires ConsistentBut(b, a, limbo) && n in limbo
    ensures n !in ListOf(b.queue, a)
    ensures ConsistentBut(With(b, a, ListOf(b.pending, a), ListOf(b.queue, a)[n := limbo[n]], b.all), a, limbo - {n})
  {
    var p, q := ListOf(b.pending, a), ListOf(b.queue, a)[n := limbo[n]];
    Follow(b, a, limbo, {}, b.all, p, q, limbo - {n});
    Rewrite(b, a, limbo, p, q, b.all, limbo - {n});
  }

  lemma Promoted(b: Book, a: Addr, limbo: Txs, n: nat)
    requires ConsistentBut(b, a, limbo) && n in limbo
    ensures n !in ListOf(b.pending, a)
    ensures ConsistentBut(With(b, a, ListOf(b.pending, a)[n := limbo[n]], ListOf(b.queue, a), b.all), a, limbo - {n})
  {
    var p, q := ListOf(b.pending, a)[n := limbo[n]], ListOf(b.queue, a);
    Follow(b, a, limbo, {}, b.all, p, q, limbo - {n});
    Rewrite(b, a, limbo, p, q, b.all, limbo - {n});
  }

  /** Lists give up transactions into limbo and out of the pool. */
  lemma TakenOut(b: Book, a: Addr, gone: set<Tx>, all: Lookup, p: Txs, q: Txs, limbo: Txs)
    requires Consistent(b) && all.Valid() && all.All() == b.all.All() - gone
    requires Owned(p, a) && Owned(q, a) && Owned(limbo, a) && Apart(p, q, limbo)
    requires forall tx | tx in gone :: tx.from == a
    requires forall tx: Tx | tx.from == a ::
      (In(p, tx) || In(q, tx) || In(limbo, tx)) <==>
      (In(ListOf(b.pending, a), tx) || In(ListOf(b.queue, a), tx)) && tx !in gone
    ensures ConsistentBut(With(b, a, p, q, all), a, limbo)
  {
    NoLimbo(b, a);
    Follow(b, a, map[], gone, all, p, q, limbo);
    Rewrite(b, a, map[], p, q, all, limbo);
  }

  /** The lookup set after a new transaction has taken the place of the one with its nonce. */
  function Admitted(all: Lookup, l: Txs, tx: Tx, local: bool): Lookup {
    (if tx.nonce in l then all.Remove(l[tx.nonce]) else all).Add(tx, local)
  }

  function Replaced(l: Txs, tx: Tx): set<Tx> {
    if tx.nonce in l then {l[tx.nonce]} else {}
  }

  lemma AdmittedAll(all: Lookup, l: Txs, tx: Tx, local: bool)
    requires all.Valid() && tx !in all.All()
    ensures Admitted(all, l, tx, local).Valid()
    ensures Admitted(all, l, tx, local).All() == all.All() - Replaced(l, tx) + {tx}
  {
  }

  lemma New(b: Book, tx: Tx, l: Txs, all: Lookup, p: Txs, q: Txs)
    requires Consistent(b) && all.Valid() && all.All() == b.all.All() - Replaced(l, tx) + {tx}
    requires Owned(l, tx.from) && Owned(p, tx.from) && Owned(q, tx.from) && p.Keys !! q.Keys
    requires forall t: Tx | t.from == tx.from ::
      In(p, t) || In(q, t) <==>
      ((In(ListOf(b.pending, t.from), t) || In(ListOf(b.queue, t.from), t)) && t !in Replaced(l, tx)) || t == tx
    ensures Consistent(With(b, tx.from, p, q, all))
  {
    var a := tx.from;
    NoLimbo(b, a);
    NewFollows(b, tx, l, all, p, q);
    NothingOwned(a);
    hide Consistent, ConsistentBut, Follows, Replaced, In, Listed, AllApart, ListsOk;
    Rewrite(b, a, map[], p, q, all, map[]);
    NoLimbo(With(b, a, p, q, all), a);
  }

  lemma NothingOwned(a: Addr)
    ensures Owned(map[], a)
  {
  }

  lemma NewFollows(b: Book, tx: Tx, l: Txs, all: Lookup, p: Txs, q: Txs)
    requires Consistent(b) && all.Valid() && all.All() == b.all.All() - Replaced(l, tx) + {tx}
    requires Owned(l, tx.from)
    requires forall t: Tx | t.from == tx.from ::
      In(p, t) || In(q, t) <==>
      ((In(ListOf(b.pending, t.from), t) || In(ListOf(b.queue, t.from), t)) && t !in Replaced(l, tx)) || t == tx
    ensures Follows(b.all, all, tx.from, p, q, map[])
  {
    hide ListsOk, AllApart, Lookup.Valid;
    forall t: Tx | t.from == tx.from
      ensures t in all.All() <==> In(p, t) || In(q, t) || In(map[], t)
    {
      assert t in b.all.All() <==> Listed(b, t);
    }
  }

  lemma NewInQueue(b: Book, tx: Tx, local: bool)
    requires Consistent(b) && tx !in b.all.All() && tx.nonce !in ListOf(b.pending, tx.from)
    ensures var q := ListOf(b.queue, tx.from);
      Consistent(With(b, tx.from, ListOf(b.pending, tx.from), q[tx.nonce := tx], Admitted(b.all, q, tx, local)))
  {
    var p, q := ListOf(b.pending, tx.from), ListOf(b.queue, tx.from);
    assert p.Keys !! q.Keys;
    AdmittedAll(b.all, q, tx, local);
    New(b, tx, q, Admitted(b.all, q, tx, local), p, q[tx.nonce := tx]);
  }

  lemma NewInPending(b: Book, tx: Tx, local: bool)
    requires Consistent(b) && tx !in b.all.All() && tx.nonce in ListOf(b.pending, tx.from)
    ensures var p := ListOf(b.pending, tx.from);
      Consistent(With(b, tx.from, p[tx.nonce := tx], ListOf(b.queue, tx.from), Admitted(b.all, p, tx, local)))
  {
    var p, q := ListOf(b.pending, tx.from), ListOf(b.queue, tx.from);
    assert p.Keys !! q.Keys;
    AdmittedAll(b.all, p, tx, local);
    New(b, tx, p, Admitted(b.all, p, tx, local), p[tx.nonce := tx], q);
  }

  // ---------- what they do to the nonces of one account ----------

  lemma ChainedAfterRemoval(p: Txs, q: Txs, state: nat, virt: nat, n: nat)
    requires ChainedAt(p, q, state, virt) && n in p
    ensures n < virt && ChainedAt(Below(p, n), q + From(p, n + 1), state, n)
  {
  }

  lemma ChainedElsewhere(b: Book, b': Book, state: Addr -> nat, a: Addr)
    requires Chained(b, state)
    requires forall c | c != a ::
      && ListOf(b'.pending, c) == ListOf(b.pending, c) && ListOf(b'.queue, c) == ListOf(b.queue, c)
      && Virtual(b'.nonces, state, c) == Virtual(b.nonces, state, c)
    requires ChainedAt(ListOf(b'.pending, a), ListOf(b'.queue, a), state(a), Virtual(b'.nonces, state, a))
    ensures Chained(b', state)
  {
    forall c: Addr
      ensures ChainedAt(ListOf(b'.pending, c), ListOf(b'.queue, c), state(c), Virtual(b'.nonces, state, c))
    {
      if c != a {
        assert ChainedAt(ListOf(b.pending, c), ListOf(b.queue, c), state(c), Virtual(b.nonces, state, c));
      }
    }
  }

  /** The transactions with the sender and nonce of tx: at most one in a consistent pool. */
  function SameSlot(all: set<Tx>, tx: Tx): set<Tx> {
    set t | t in all && t.from == tx.from && t.nonce == tx.nonce
  }

  /** One of them is not outbid. */
  ghost predicate Blocked(all: set<Tx>, tx: Tx, priceBump: nat) {
    exists t :: t in SameSlot(all, tx) && !Outbids(tx, t, priceBump)
  }

  /** The lookup set after a transaction has taken the place of the one with its sender and nonce. */
  ghost predicate AdmittedTo(all: Lookup, all': Lookup, tx: Tx, local: bool) {
    || (SameSlot(all.All(), tx) == {} && all' == all.Add(tx, local))
    || (exists held :: SameSlot(all.All(), tx) == {held} && all' == all.Remove(held).Add(tx, local))
  }

  /** And after its account may have become local. */
  ghost predicate Enters(all: Lookup, all': Lookup, tx: Tx, local: bool, accounts: set<Addr>, accounts': set<Addr>) {
    exists mid :: AdmittedTo(all, mid, tx, local) && all' == if accounts' == accounts then mid else mid.RemoteToLocals(accounts')
  }

  /** The list a nonce belongs to. */
  function Home(b: Book, state: Addr -> nat, tx: Tx): Txs {
    ListOf(if tx.nonce < Virtual(b.nonces, state, tx.from) then b.pending else b.queue, tx.from)
  }

  lemma HomeHolds(b: Book, state: Addr -> nat, tx: Tx, priceBump: nat)
    requires Consistent(b) && Chained(b, state) && state(tx.from) <= tx.nonce
    ensures tx.nonce in ListOf(b.pending, tx.from) <==> tx.nonce < Virtual(b.nonces, state, tx.from)
    ensures SameSlot(b.all.All(), tx) == Replaced(Home(b, state, tx), tx)
    ensures forall local :: AdmittedTo(b.all, Admitted(b.all, Home(b, state, tx), tx, local), tx, local)
    ensures Admits(Home(b, state, tx), tx, priceBump) <==> !Blocked(b.all.All(), tx, priceBump)
  {
    var p, q := ListOf(b.pending, tx.from), ListOf(b.queue, tx.from);
    assert ChainedAt(p, q, state(tx.from), Virtual(b.nonces, state, tx.from));
    forall t: Tx
      ensures t in SameSlot(b.all.All(), tx) <==> t in Replaced(Home(b, state, tx), tx)
    {
      assert t in b.all.All() <==> Listed(b, t);
    }
    assert SameSlot(b.all.All(), tx) == Replaced(Home(b, state, tx), tx);
    if tx.nonce in Home(b, state, tx) {
      assert Home(b, state, tx)[tx.nonce] in SameSlot(b.all.All(), tx);
    }
  }

  /** A pending transaction replaced by one with the same nonce. */
  lemma ReplacedKeepsChained(b: Book, tx: Tx, local: bool, state: Addr -> nat)
    requires Consistent(b) && Chained(b, state) && tx !in b.all.All() && tx.nonce in ListOf(b.pending, tx.from)
    ensures ListsOk(b.queue)
    ensures var p := ListOf(b.pending, tx.from);
      var all := Admitted(b.all, p, tx, local);
      var b' := With(b, tx.from, p[tx.nonce := tx], ListOf(b.queue, tx.from), all);
      && Consistent(b') && Chained(b', state)
      && all.All() == b.all.All() - Replaced(p, tx) + {tx} && (tx in all.locals <==> local)
  {
    var p, q := ListOf(b.pending, tx.from), ListOf(b.queue, tx.from);
    AdmittedAll(b.all, p, tx, local);
    NewInPending(b, tx, local);
    assert ChainedAt(p, q, state(tx.from), Virtual(b.nonces, state, tx.from));
    WithLists(b, tx.from, p[tx.nonce := tx], q, Admitted(b.all, p, tx, local));
    ChainedElsewhere(b, With(b, tx.from, p[tx.nonce := tx], q, Admitted(b.all, p, tx, local)), state, tx.from);
  }

  lemma SameTransactions(b: Book, all: Lookup)
    requires Consistent(b) && all.Valid() && all.All() == b.all.All()
    ensures Consistent(b.(all := all))
  {
    var b' := b.(all := all);
    forall tx: Tx
      ensures tx in b'.all.All() <==> Listed(b', tx)
    {
      assert tx in b.all.All() <==> Listed(b, tx);
      assert Listed(b, tx) <==> Listed(b', tx);
    }
  }

  // ---------- promotion and demotion of one account ----------

  lemma ValuesAreIn(l: Txs, a: Addr, tx: Tx)
    requires Owned(l, a)
    ensures tx in l.Values <==> In(l, tx)
  {
    if In(l, tx) { assert tx.nonce in l; }
  }

  /** What of the queue survives the nonce and funds checks. */
  function Executable(q: Txs, state: nat, balance: nat, maxGas: nat): Txs {
    Payable(From(q, state), balance, maxGas)
  }

  function Stale(q: Txs, state: nat, balance: nat, maxGas: nat): set<Tx> {
    Below(q, state).Values + Unpayable(From(q, state), balance, maxGas).Values
  }

  lemma StaleIsGone(q: Txs, a: Addr, state: nat, balance: nat, maxGas: nat)
    requires Owned(q, a)
    ensures forall tx: Tx :: tx in Stale(q, state, balance, maxGas) <==>
      In(q, tx) && tx.nonce !in Executable(q, state, balance, maxGas)
  {
    forall tx: Tx
      ensures tx in Stale(q, state, balance, maxGas) <==> In(q, tx) && tx.nonce !in Executable(q, state, balance, maxGas)
    {
      ValuesAreIn(Below(q, state), a, tx);
      ValuesAreIn(Unpayable(From(q, state), balance, maxGas), a, tx);
    }
  }

  lemma ExecutableWithin(q: Txs, state: nat, balance: nat, maxGas: nat)
    ensures Within(Executable(q, state, balance, maxGas), q)
  {
  }

  lemma ReadyWithin(l: Txs, start: nat)
    ensures Within(Ready(l, start), l)
  {
  }

  lemma TakeReady(b: Book, a: Addr, q1: Txs, ready: Txs, gone: set<Tx>, all: Lookup)
    requires Consistent(b) && all.Valid() && all.All() == b.all.All() - gone
    requires Within(q1, ListOf(b.queue, a)) && Within(ready, q1)
    requires forall tx: Tx :: tx in gone <==> In(ListOf(b.queue, a), tx) && tx.nonce !in q1
    ensures ConsistentBut(With(b, a, ListOf(b.pending, a), q1 - ready.Keys, all), a, ready)
  {
    assert ListOf(b.pending, a).Keys !! ListOf(b.queue, a).Keys;
    TakenOut(b, a, gone, all, ListOf(b.pending, a), q1 - ready.Keys, ready);
  }

  /** The lists of an account after demotion: kept, and what goes back to the queue. */
  function DemotedPending(p: Txs, state: nat, balance: nat, maxGas: nat): Txs {
    var kept := Kept(From(p, state), true, balance, maxGas);
    if state in kept then kept else map[]
  }

  function DemotedBack(p: Txs, state: nat, balance: nat, maxGas: nat): Txs {
    var kept := Kept(From(p, state), true, balance, maxGas);
    Invalidated(From(p, state), true, balance, maxGas) + if state in kept then map[] else kept
  }

  lemma TakeDemoted(b: Book, a: Addr, state: nat, balance: nat, maxGas: nat, gone: set<Tx>, all: Lookup)
    requires Consistent(b) && all.Valid() && all.All() == b.all.All() - gone
    requires var p := ListOf(b.pending, a);
      forall tx: Tx :: tx in gone <==> In(Below(p, state), tx) || In(Unpayable(From(p, state), balance, maxGas), tx)
    ensures var p := ListOf(b.pending, a);
      ConsistentBut(With(b, a, DemotedPending(p, state, balance, maxGas), ListOf(b.queue, a), all), a,
                    DemotedBack(p, state, balance, maxGas))
  {
    var p, q := ListOf(b.pending, a), ListOf(b.queue, a);
    assert p.Keys !! q.Keys;
    var keep, back := DemotedPending(p, state, balance, maxGas), DemotedBack(p, state, balance, maxGas);
    forall n: nat
      ensures n in p <==> n in keep || n in back || n in Below(p, state) || n in Unpayable(From(p, state), balance, maxGas)
      ensures n in keep ==> n !in back && keep[n] == p[n]
      ensures n in back ==> back[n] == p[n]
      ensures n in keep || n in back ==> n !in Below(p, state) && n !in Unpayable(From(p, state), balance, maxGas)
    {
      FilterPartitions(From(p, state), true, balance, maxGas, n);
    }
    TakenOut(b, a, gone, all, keep, q, back);
  }

  // ---------- nonces across a reorg run ----------

  ghost predicate GapFree(l: Txs) {
    forall n, m, k: nat | n in l && m in l && n <= k <= m :: k in l
  }

  ghost predicate Beyond(q: Txs, l: Txs) {
    forall n, m | n in q && m in l :: m < n
  }

  /** Right after a reset: the lists still describe the previous head. */
  ghost predicate Loose(p: Txs, q: Txs, state: nat, virt: nat) {
    GapFree(p) && Beyond(q, p) && virt == state
  }

  ghost predicate AllPayable(l: Txs, balance: nat, maxGas: nat) {
    forall n | n in l :: !Over(l[n], balance, maxGas)
  }

  /** After promotion under the new head, before demotion: either the new front was just promoted, or nothing was. */
  ghost predicate Mixed(p: Txs, q: Txs, state: nat, virt: nat, balance: nat, maxGas: nat) {
    var front := From(p, state);
    || (Interval(front, state, virt) && AtLeast(q, virt) && AllPayable(front, balance, maxGas))
    || (virt == state && GapFree(front) && Beyond(q, front) && AtLeast(q, state))
  }

  lemma ResetLoosens(p: Txs, q: Txs, state: nat, virt: nat, state': nat)
    requires ChainedAt(p, q, state, virt)
    ensures Loose(p, q, state', state')
  {
  }

  lemma IdleIsMixed(p: Txs, q: Txs, state: nat, virt: nat, balance: nat, maxGas: nat)
    requires Loose(p, q, state, virt) && q == map[]
    ensures Mixed(p, q, state, virt, balance, maxGas)
  {
  }

  function VirtualAfter(virt: nat, ready: Txs): nat {
    if ready.Keys == {} then virt else Max(ready.Keys) + 1
  }

  lemma IntervalVirtual(ready: Txs, virt: nat, e: nat)
    requires Interval(ready, virt, e)
    ensures VirtualAfter(virt, ready) == e
  {
    if virt < e {
      assert e - 1 in ready.Keys;
    } else {
      assert ready.Keys == {};
    }
  }

  /** Promotion in the middle of an epoch of one head. */
  lemma PromotionKeepsChained(p: Txs, q: Txs, state: nat, virt: nat, balance: nat, maxGas: nat, rest: Txs)
    requires ChainedAt(p, q, state, virt)
    requires var fit := Executable(q, state, balance, maxGas); Within(rest, fit - Ready(fit, virt).Keys)
    ensures var ready := Ready(Executable(q, state, balance, maxGas), virt);
      ChainedAt(p + ready, rest, state, VirtualAfter(virt, ready))
  {
    var fit := Executable(q, state, balance, maxGas);
    var e := ReadyInterval(fit, virt);
    IntervalVirtual(Ready(fit, virt), virt, e);
  }

  /** Promotion right after a reset. */
  lemma PromotionMixes(p: Txs, q: Txs, state: nat, balance: nat, maxGas: nat, rest: Txs)
    requires Loose(p, q, state, state)
    requires var fit := Executable(q, state, balance, maxGas); Within(rest, fit - Ready(fit, state).Keys)
    ensures var ready := Ready(Executable(q, state, balance, maxGas), state);
      Mixed(p + ready, rest, state, VirtualAfter(state, ready), balance, maxGas)
  {
    var fit := Executable(q, state, balance, maxGas);
    var ready := Ready(fit, state);
    var e := ReadyInterval(fit, state);
    IntervalVirtual(ready, state, e);
    if e > state {
      assert state in ready && state in q;
      assert From(p + ready, state) == ready;
    } else {
      assert p + ready == p;
    }
  }

  lemma DemotionFrontsAt(p: Txs, q: Txs, state: nat, virt: nat, balance: nat, maxGas: nat, hi: nat)
    requires Interval(From(p, state), state, hi) && state < hi && AtLeast(q, hi)
    requires virt == state || (virt == hi && AllPayable(From(p, state), balance, maxGas))
    ensures FrontAt(DemotedPending(p, state, balance, maxGas), q + DemotedBack(p, state, balance, maxGas), state, virt)
  {
    hide Kept, Invalidated;
    var front := From(p, state);
    assert AllPayable(front, balance, maxGas) ==> Unpayable(front, balance, maxGas) == map[];
    var d := KeptInterval(front, state, hi, balance, maxGas);
    IntervalSize(Kept(front, true, balance, maxGas), state, d);
  }

  lemma DemotionFronts(p: Txs, q: Txs, state: nat, virt: nat, balance: nat, maxGas: nat)
    requires Mixed(p, q, state, virt, balance, maxGas)
    ensures FrontAt(DemotedPending(p, state, balance, maxGas), q + DemotedBack(p, state, balance, maxGas), state, virt)
  {
    var front := From(p, state);
    if state !in front {
      NoFront(p, q, state, virt, balance, maxGas);
    } else if Interval(front, state, virt) && AtLeast(q, virt) && AllPayable(front, balance, maxGas) {
      DemotionFrontsAt(p, q, state, virt, balance, maxGas, virt);
    } else {
      var hi := FrontEnd(front, state);
      assert hi - 1 in front;
      DemotionFrontsAt(p, q, state, virt, balance, maxGas, hi);
    }
  }

  lemma DemotedBackAtLeast(p: Txs, state: nat, balance: nat, maxGas: nat)
    ensures AtLeast(DemotedBack(p, state, balance, maxGas), state)
  {
    forall n | n in DemotedBack(p, state, balance, maxGas)
      ensures n >= state
    {
      FilterPartitions(From(p, state), true, balance, maxGas, n);
      assert n in From(p, state);
    }
  }

  lemma NoFront(p: Txs, q: Txs, state: nat, virt: nat, balance: nat, maxGas: nat)
    requires Mixed(p, q, state, virt, balance, maxGas) && state !in From(p, state)
    ensures FrontAt(DemotedPending(p, state, balance, maxGas), q + DemotedBack(p, state, balance, maxGas), state, virt)
  {
    hide DemotedBack, GapFree, Beyond, Kept;
    FilterPartitions(From(p, state), true, balance, maxGas, state);
    DemotedBackAtLeast(p, state, balance, maxGas);
    assert virt == state && AtLeast(q, state);
    assert DemotedPending(p, state, balance, maxGas) == map[];
  }

  /** A gap-free list that contains its lower bound is an interval. */
  lemma FrontEnd(l: Txs, lo: nat) returns (hi: nat)
    requires lo in l && AtLeast(l, lo) && GapFree(l)
    ensures Interval(l, lo, hi)
  {
    hi := Max(l.Keys) + 1;
    assert hi - 1 in l;
  }

  lemma ShrinkingKeepsFront(p: Txs, q: Txs, state: nat, virt: nat, q': Txs)
    requires FrontAt(p, q, state, virt) && Within(q', q)
    ensures FrontAt(p, q', state, virt)
  {
  }

  lemma IdleIsFront(p: Txs, q: Txs, state: nat, virt: nat, balance: nat, maxGas: nat)
    requires Mixed(p, q, state, virt, balance, maxGas) && p == map[]
    ensures FrontAt(p, q, state, virt)
  {
    assert state !in From(p, state);
  }

  // ---------- one account's turn, and all accounts' turns ----------

  ghost predicate OthersSame(b: Book, b': Book, chain: Chain, a: Addr) {
    forall c | c != a ::
      && ListOf(b'.pending, c) == ListOf(b.pending, c) && ListOf(b'.queue, c) == ListOf(b.queue, c)
      && Virtual(b'.nonces, chain.nonce, c) == Virtual(b.nonces, chain.nonce, c)
  }

  /** What promoteExecutables does to account a, whose queue is capped unless the account is local. */
  ghost predicate PromotesAt(b: Book, b': Book, chain: Chain, cap: nat, local: bool, a: Addr) {
    var virt := Virtual(b.nonces, chain.nonce, a);
    var fit := Executable(ListOf(b.queue, a), chain.nonce(a), chain.balance(a), chain.maxGas);
    var ready := Ready(fit, virt);
    var rest := fit - ready.Keys;
    && ListOf(b'.pending, a) == ListOf(b.pending, a) + ready
    && ListOf(b'.queue, a) == (if local then rest else Cap(rest, cap))
    && Virtual(b'.nonces, chain.nonce, a) == VirtualAfter(virt, ready)
  }

  ghost predicate Promotes(b: Book, b': Book, chain: Chain, cap: nat, local: bool, a: Addr) {
    OthersSame(b, b', chain, a) && PromotesAt(b, b', chain, cap, local, a)
  }

  lemma OneTurn(b: Book, b': Book, chain: Chain, cap: nat, local: bool, a: Addr, fit: Txs, ready: Txs)
    requires fit == Executable(ListOf(b.queue, a), chain.nonce(a), chain.balance(a), chain.maxGas)
    requires ready == Ready(fit, Virtual(b.nonces, chain.nonce, a))
    requires ListOf(b'.pending, a) == ListOf(b.pending, a) + ready
    requires ListOf(b'.queue, a) == (if local then fit - ready.Keys else Cap(fit - ready.Keys, cap))
    requires b'.nonces == if ready.Keys == {} then b.nonces else b.nonces[a := Max(ready.Keys) + 1]
    requires forall c | c != a :: ListOf(b'.pending, c) == ListOf(b.pending, c) && ListOf(b'.queue, c) == ListOf(b.queue, c)
    ensures Promotes(b, b', chain, cap, local, a)
  {
    hide Executable, Ready, Cap, ListOf;
  }

  /** What demoteUnexecutables does to account a. */
  ghost predicate DemotesAt(b: Book, b': Book, chain: Chain, a: Addr) {
    var p := ListOf(b.pending, a);
    && Virtual(b'.nonces, chain.nonce, a) == Virtual(b.nonces, chain.nonce, a)
    && ListOf(b'.pending, a) == DemotedPending(p, chain.nonce(a), chain.balance(a), chain.maxGas)
    && ListOf(b'.queue, a) == ListOf(b.queue, a) + DemotedBack(p, chain.nonce(a), chain.balance(a), chain.maxGas)
  }

  ghost predicate Demotes(b: Book, b': Book, chain: Chain, a: Addr) {
    OthersSame(b, b', chain, a) && DemotesAt(b, b', chain, a)
  }

  lemma CappedRest(b: Book, b': Book, chain: Chain, cap: nat, local: bool, a: Addr)
    requires Promotes(b, b', chain, cap, local, a)
    ensures var fit := Executable(ListOf(b.queue, a), chain.nonce(a), chain.balance(a), chain.maxGas);
      Within(ListOf(b'.queue, a), fit - Ready(fit, Virtual(b.nonces, chain.nonce, a)).Keys)
  {
    hide Executable, Ready, Cap;
    var fit := Executable(ListOf(b.queue, a), chain.nonce(a), chain.balance(a), chain.maxGas);
    CapIsPrefix(fit - Ready(fit, Virtual(b.nonces, chain.nonce, a)).Keys, cap);
  }

  lemma PromotesChained(b: Book, b': Book, chain: Chain, cap: nat, local: bool, a: Addr)
    requires Promotes(b, b', chain, cap, local, a) && Chained(b, chain.nonce)
    ensures Chained(b', chain.nonce)
  {
    hide Executable, Ready, Cap, ChainedAt, VirtualAfter;
    CappedRest(b, b', chain, cap, local, a);
    assert ChainedAt(ListOf(b.pending, a), ListOf(b.queue, a), chain.nonce(a), Virtual(b.nonces, chain.nonce, a));
    PromotionKeepsChained(ListOf(b.pending, a), ListOf(b.queue, a), chain.nonce(a),
      Virtual(b.nonces, chain.nonce, a), chain.balance(a), chain.maxGas, ListOf(b'.queue, a));
    ChainedElsewhere(b, b', chain.nonce, a);
  }

  /** Promotion after a reset, halfway through the accounts. */
  ghost predicate Promoting(b: Book, chain: Chain, todo: set<Addr>) {
    forall a: Addr :: if a in todo then LooseIn(b, chain, a) else MixedIn(b, chain, a)
  }

  lemma PromotesMixed(b: Book, b': Book, chain: Chain, cap: nat, local: bool, a: Addr)
    requires Promotes(b, b', chain, cap, local, a) && LooseIn(b, chain, a)
    ensures MixedIn(b', chain, a)
  {
    hide Executable, Ready, Cap, Mixed, VirtualAfter;
    CappedRest(b, b', chain, cap, local, a);
    PromotionMixes(ListOf(b.pending, a), ListOf(b.queue, a), chain.nonce(a), chain.balance(a), chain.maxGas, ListOf(b'.queue, a));
  }

  lemma PromotingStep(b: Book, b': Book, chain: Chain, cap: nat, local: bool, a: Addr, todo: set<Addr>)
    requires Promotes(b, b', chain, cap, local, a) && a in todo && Promoting(b, chain, todo)
    ensures Promoting(b', chain, todo - {a})
  {
    hide Executable, Ready, Cap, Mixed, Loose, VirtualAfter;
    assert LooseIn(b, chain, a);
    PromotesMixed(b, b', chain, cap, local, a);
    forall c: Addr
      ensures if c in todo - {a} then LooseIn(b', chain, c) else MixedIn(b', chain, c)
    {
      if c != a { assert if c in todo then LooseIn(b, chain, c) else MixedIn(b, chain, c); }
    }
  }

  lemma PromotingStarts(b: Book, chain: Chain)
    requires forall a: Addr :: LooseIn(b, chain, a)
    ensures Promoting(b, chain, b.queue.Keys)
  {
    hide Mixed;
    forall a: Addr | a !in b.queue
      ensures MixedIn(b, chain, a)
    {
      assert LooseIn(b, chain, a);
      IdleIsMixed(ListOf(b.pending, a), ListOf(b.queue, a), chain.nonce(a), Virtual(b.nonces, chain.nonce, a),
                  chain.balance(a), chain.maxGas);
    }
  }

  ghost predicate Demoting(b: Book, chain: Chain, todo: set<Addr>) {
    forall a: Addr :: if a in todo then MixedIn(b, chain, a) else FrontIn(b, chain, a)
  }

  lemma DemotingStep(b: Book, b': Book, chain: Chain, a: Addr, todo: set<Addr>)
    requires Demotes(b, b', chain, a) && a in todo && Demoting(b, chain, todo)
    ensures Demoting(b', chain, todo - {a})
  {
    hide DemotedPending, DemotedBack, Mixed, FrontAt;
    assert MixedIn(b, chain, a);
    DemotionFronts(ListOf(b.pending, a), ListOf(b.queue, a), chain.nonce(a), Virtual(b.nonces, chain.nonce, a),
                   chain.balance(a), chain.maxGas);
    forall c: Addr
      ensures if c in todo - {a} then MixedIn(b', chain, c) else FrontIn(b', chain, c)
    {
      if c != a { assert if c in todo then MixedIn(b, chain, c) else FrontIn(b, chain, c); }
    }
  }

  lemma DemotingStarts(b: Book, chain: Chain)
    requires forall a: Addr :: MixedIn(b, chain, a)
    ensures Demoting(b, chain, b.pending.Keys)
  {
    hide FrontAt;
    forall a: Addr | a !in b.pending
      ensures FrontIn(b, chain, a)
    {
      assert MixedIn(b, chain, a);
      IdleIsFront(ListOf(b.pending, a), ListOf(b.queue, a), chain.nonce(a), Virtual(b.nonces, chain.nonce, a),
                  chain.balance(a), chain.maxGas);
    }
  }

  lemma PromotingEnds(b: Book, chain: Chain)
    requires Promoting(b, chain, {})
    ensures forall a: Addr :: MixedIn(b, chain, a)
  {
  }

  lemma DemotingEnds(b: Book, chain: Chain)
    requires Demoting(b, chain, {})
    ensures Front(b, chain)
  {
  }

  // ---------- truncation ----------

  lemma FrontWithoutLast(p: Txs, q: Txs, state: nat, virt: nat)
    requires FrontAt(p, q, state, virt) && p.Keys != {}
    ensures var last := Max(p.Keys); FrontAt(p - {last}, q, state, if virt <= last then virt else last)
  {
    var last := Max(p.Keys);
    assert |p.Keys| == |p|;
    assert last == state + |p| - 1 by {
      assert state + |p| - 1 in p;
      assert last in p;
    }
    assert Interval(p - {last}, state, last);
    IntervalSize(p - {last}, state, last);
  }

  lemma FrontElsewhere(b: Book, b': Book, chain: Chain, a: Addr)
    requires Front(b, chain) && OthersSame(b, b', chain, a) && FrontIn(b', chain, a)
    ensures Front(b', chain)
  {
    hide FrontAt;
    forall c: Addr
      ensures FrontIn(b', chain, c)
    {
      assert FrontIn(b, chain, c);
    }
  }

  lemma NoncesAside(b: Book, nonces: map<Addr, nat>)
    requires Consistent(b)
    ensures Consistent(b.(nonces := nonces))
  {
    forall tx: Tx
      ensures Listed(b, tx) <==> Listed(b.(nonces := nonces), tx)
    {
    }
  }

  function WithoutLast(b: Book, chain: Chain, a: Addr): Book
    requires a in b.pending && b.pending[a].Keys != {}
  {
    var l := b.pending[a];
    var last := Max(l.Keys);
    Book(b.pending[a := l - {last}], b.queue, b.all.Remove(l[last]), SetIfLower(b.nonces, chain.nonce, a, last))
  }

  lemma TruncatedConsistent(b: Book, chain: Chain, a: Addr)
    requires Consistent(b) && a in b.pending && b.pending[a].Keys != {} && |b.pending[a]| >= 2
    ensures Consistent(WithoutLast(b, chain, a))
  {
    hide SetIfLower, AllApart;
    var l := b.pending[a];
    var last := Max(l.Keys);
    var all := b.all.Remove(l[last]);
    assert |l - {last}| == |l| - 1 by { CapDropsLast(l); CapIsPrefix(l, |l| - 1); }
    Shrunk(b, a, {l[last]}, all, l - {last}, ListOf(b.queue, a));
    PutSame(b.queue, a);
    var b' := With(b, a, l - {last}, ListOf(b.queue, a), all);
    NoncesAside(b', SetIfLower(b.nonces, chain.nonce, a, last));
  }

  lemma TruncatedFront(b: Book, chain: Chain, a: Addr)
    requires Front(b, chain) && a in b.pending && b.pending[a].Keys != {}
    ensures Front(WithoutLast(b, chain, a), chain)
  {
    hide FrontAt;
    assert FrontIn(b, chain, a);
    FrontWithoutLast(b.pending[a], ListOf(b.queue, a), chain.nonce(a), Virtual(b.nonces, chain.nonce, a));
    FrontElsewhere(b, WithoutLast(b, chain, a), chain, a);
  }

  lemma SameLists(m: map<Addr, Txs>, m': map<Addr, Txs>)
    requires ListsOk(m) && ListsOk(m') && forall a: Addr :: ListOf(m, a) == ListOf(m', a)
    ensures m == m'
  {
    forall a: Addr
      ensures a in m <==> a in m'
      ensures a in m ==> m[a] == m'[a]
    {
      assert ListOf(m, a) == ListOf(m', a);
    }
  }

  lemma {:induction false} SumCongruent(m: map<Addr, Txs>, m': map<Addr, Txs>, s: set<Addr>)
    requires s <= m.Keys && s <= m'.Keys && forall a | a in s :: m[a] == m'[a]
    ensures FairShare.Sum(m, s) == FairShare.Sum(m', s)
  {
    FairShare.SumMonotone(m, m', s);
    FairShare.SumMonotone(m', m, s);
  }

  lemma TotalSplits(m: map<Addr, Txs>, a: Addr)
    ensures m.Keys - {a} <= m.Keys
    ensures FairShare.Total(m) == |ListOf(m, a)| + FairShare.Sum(m, m.Keys - {a})
  {
    hide FairShare.Sum;
    if a in m { FairShare.SumWithout(m, m.Keys, a); } else { assert m.Keys - {a} == m.Keys; }
  }

  lemma TotalAfterPut(m: map<Addr, Txs>, a: Addr, l: Txs)
    ensures FairShare.Total(Put(m, a, l)) + |ListOf(m, a)| == FairShare.Total(m) + |l|
  {
    hide FairShare.Sum, FairShare.Total;
    var m' := Put(m, a, l);
    TotalSplits(m, a);
    TotalSplits(m', a);
    assert m'.Keys - {a} == m.Keys - {a};
    forall c | c in m.Keys - {a}
      ensures m[c] == m'[c]
    {
      assert ListOf(m', c) == ListOf(m, c);
    }
    SumCongruent(m, m', m.Keys - {a});
  }

  lemma QueueRemovalKeepsFront(b: Book, b': Book, chain: Chain, a: Addr)
    requires Front(b, chain) && OthersSame(b, b', chain, a)
    requires b'.pending == b.pending && b'.nonces == b.nonces && Within(ListOf(b'.queue, a), ListOf(b.queue, a))
    ensures Front(b', chain)
  {
    hide FrontAt;
    assert FrontIn(b, chain, a);
    ShrinkingKeepsFront(ListOf(b.pending, a), ListOf(b.queue, a), chain.nonce(a), Virtual(b.nonces, chain.nonce, a), ListOf(b'.queue, a));
    FrontElsewhere(b, b', chain, a);
  }

  lemma WithoutOne(l: Txs, n: nat)
    requires n in l
    ensures |l - {n}| + 1 == |l|
  {
    assert |(l - {n}).Keys| == |l - {n}| && |l.Keys| == |l| && (l - {n}).Keys == l.Keys - {n};
  }

  lemma OneFewer(m: map<Addr, Txs>, m': map<Addr, Txs>, a: Addr, n: nat)
    requires ListsOk(m) && ListsOk(m') && n in ListOf(m, a)
    requires ListOf(m', a) == ListOf(m, a) - {n} && forall c | c != a :: ListOf(m', c) == ListOf(m, c)
    ensures m' == Put(m, a, ListOf(m, a) - {n})
    ensures FairShare.Total(m') + 1 == FairShare.Total(m)
  {
    hide FairShare.Total, ListsOk;
    PutListsOk(m, a, n);
    SameLists(m', Put(m, a, ListOf(m, a) - {n}));
    TotalAfterPut(m, a, ListOf(m, a) - {n});
    WithoutOne(ListOf(m, a), n);
  }

  lemma PutListsOk(m: map<Addr, Txs>, a: Addr, n: nat)
    requires ListsOk(m)
    ensures ListsOk(Put(m, a, ListOf(m, a) - {n}))
  {
  }

  /** The virtual nonces after the last loop of a reorg run: one past the highest pending nonce. */
  ghost predicate Refreshed(b: Book, nonces: map<Addr, nat>, todo: set<Addr>) {
    forall a: Addr ::
      if a in b.pending && a !in todo
      then b.pending[a].Keys != {} && a in nonces && nonces[a] == Max(b.pending[a].Keys) + 1
      else (a in nonces <==> a in b.nonces) && (a in nonces ==> nonces[a] == b.nonces[a])
  }

  lemma RefreshStarts(b: Book)
    ensures Refreshed(b, b.nonces, b.pending.Keys)
  {
  }

  lemma RefreshStep(b: Book, nonces: map<Addr, nat>, todo: set<Addr>, a: Addr)
    requires Refreshed(b, nonces, todo) && a in todo && a in b.pending && b.pending[a].Keys != {}
    ensures Refreshed(b, nonces[a := Max(b.pending[a].Keys) + 1], todo - {a})
  {
  }

  lemma RefreshedAt(p: Txs, q: Txs, state: nat, virt: nat)
    requires FrontAt(p, q, state, virt)
    ensures ChainedAt(p, q, state, if p.Keys == {} then virt else Max(p.Keys) + 1)
  {
    assert |p.Keys| == |p|;
    if p.Keys != {} {
      assert state + |p| - 1 in p;
      assert Max(p.Keys) in p;
    }
  }

  lemma RefreshedIsChained(b: Book, chain: Chain, nonces: map<Addr, nat>)
    requires Front(b, chain) && ListsOk(b.pending) && Refreshed(b, nonces, {})
    ensures Chained(b.(nonces := nonces), chain.nonce)
  {
    hide ChainedAt, FrontAt;
    var b' := b.(nonces := nonces);
    forall a: Addr
      ensures ChainedAt(ListOf(b'.pending, a), ListOf(b'.queue, a), chain.nonce(a), Virtual(nonces, chain.nonce, a))
    {
      assert FrontIn(b, chain, a);
      RefreshedAt(ListOf(b.pending, a), ListOf(b.queue, a), chain.nonce(a), Virtual(b.nonces, chain.nonce, a));
    }
  }
}
