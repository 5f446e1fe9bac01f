/**
 What a reorg run does to the pool as a whole (evmcore/tx_pool.go): the turns of the accounts put
 together, and what becomes of every transaction.
 */
module PoolReorg {
  import opened Common
  import opened NonceList
  import opened TxLookup
  import opened PoolBook
  import FairShare

  // ---------- all turns together ----------

  ghost predicate SameAt(b: Book, b': Book, chain: Chain, a: Addr) {
    && ListOf(b'.pending, a) == ListOf(b.pending, a) && ListOf(b'.queue, a) == ListOf(b.queue, a)
    && Virtual(b'.nonces, chain.nonce, a) == Virtual(b.nonces, chain.nonce, a)
  }

  /** The accounts in `done` have had their turn, the others not. */
  ghost predicate AllPromoted(b: Book, b': Book, chain: Chain, cap: nat, locals: set<Addr>, done: set<Addr>) {
    forall a: Addr :: if a in done then PromotesAt(b, b', chain, cap, a in locals, a) else SameAt(b, b', chain, a)
  }

  lemma NobodyPromoted(b: Book, chain: Chain, cap: nat, locals: set<Addr>)
    ensures AllPromoted(b, b, chain, cap, locals, {})
  {
  }

  lemma PromotedStep(b: Book, mid: Book, b': Book, chain: Chain, cap: nat, locals: set<Addr>, done: set<Addr>, a: Addr)
    requires AllPromoted(b, mid, chain, cap, locals, done) && a !in done && Promotes(mid, b', chain, cap, a in locals, a)
    ensures AllPromoted(b, b', chain, cap, locals, done + {a})
  {
    hide Executable, Ready, Cap, VirtualAfter;
    forall c: Addr
      ensures if c in done + {a} then PromotesAt(b, b', chain, cap, c in locals, c) else SameAt(b, b', chain, c)
    {
      assert if c in done then PromotesAt(b, mid, chain, cap, c in locals, c) else SameAt(b, mid, chain, c);
    }
  }

  ghost predicate AllDemoted(b: Book, b': Book, chain: Chain, todo: set<Addr>) {
    forall a: Addr :: if a in todo then SameAt(b, b', chain, a) else DemotesAt(b, b', chain, a)
  }

  lemma NobodyDemoted(b: Book, chain: Chain)
    ensures AllDemoted(b, b, chain, b.pending.Keys)
  {
    forall a: Addr | a !in b.pending
      ensures DemotesAt(b, b, chain, a)
    {
      NothingToDemote(chain.nonce(a), chain.balance(a), chain.maxGas);
      assert ListOf(b.queue, a) + map[] == ListOf(b.queue, a);
    }
  }

  lemma NothingToDemote(state: nat, balance: nat, maxGas: nat)
    ensures DemotedPending(map[], state, balance, maxGas) == map[] && DemotedBack(map[], state, balance, maxGas) == map[]
  {
    assert From(map[], state) == map[];
    assert Payable(map[], balance, maxGas) == map[] && Unpayable(map[], balance, maxGas) == map[];
  }

  lemma DemotedStep(b: Book, mid: Book, b': Book, chain: Chain, todo: set<Addr>, a: Addr)
    requires AllDemoted(b, mid, chain, todo) && a in todo && Demotes(mid, b', chain, a)
    ensures AllDemoted(b, b', chain, todo - {a})
  {
    hide DemotedPending, DemotedBack;
    forall c: Addr
      ensures if c in todo - {a} then SameAt(b, b', chain, c) else DemotesAt(b, b', chain, c)
    {
      assert if c in todo then SameAt(b, mid, chain, c) else DemotesAt(b, mid, chain, c);
    }
  }

  // ---------- what becomes of one transaction ----------

  /** In a promotion a queued transaction is stale, cannot be paid, is promoted, stays, or is beyond the limit of the account. */
  lemma PromotionFate(q: Txs, state: nat, balance: nat, maxGas: nat, virt: nat, cap: nat, local: bool, n: nat)
    requires n in q
    ensures var fit := Executable(q, state, balance, maxGas);
      var ready := Ready(fit, virt);
      var rest := fit - ready.Keys;
      var q' := if local then rest else Cap(rest, cap);
      || n < state || q[n].gas > maxGas || q[n].cost > balance
      || (n in ready && ready[n] == q[n]) || (n in q' && q'[n] == q[n]) || (!local && |q'| >= cap)
  {
    hide Ready, Cap, Executable;
    var fit := Executable(q, state, balance, maxGas);
    FitHas(q, state, balance, maxGas, n);
    ReadyWithin(fit, virt);
    if n in fit && n !in Ready(fit, virt) { CapHas(fit - Ready(fit, virt).Keys, cap, n); }
  }

  lemma FitHas(q: Txs, state: nat, balance: nat, maxGas: nat, n: nat)
    requires n in q
    ensures var fit := Executable(q, state, balance, maxGas);
      n < state || q[n].gas > maxGas || q[n].cost > balance || (n in fit && fit[n] == q[n])
  {
  }

  lemma CapHas(l: Txs, cap: nat, n: nat)
    requires n in l
    ensures |Cap(l, cap)| >= cap || (n in Cap(l, cap) && Cap(l, cap)[n] == l[n])
  {
    CapIsPrefix(l, cap);
  }

  lemma PromotionTakes(q: Txs, state: nat, balance: nat, maxGas: nat, virt: nat, cap: nat, local: bool)
    ensures var fit := Executable(q, state, balance, maxGas);
      var ready := Ready(fit, virt);
      var rest := fit - ready.Keys;
      Within(ready, fit) && Within(if local then rest else Cap(rest, cap), rest)
  {
    hide Ready, Cap, Executable;
    var fit := Executable(q, state, balance, maxGas);
    ReadyWithin(fit, virt);
    CapIsPrefix(fit - Ready(fit, virt).Keys, cap);
  }

  /** In a demotion a pending transaction is stale, cannot be paid, stays, or goes back to the queue. */
  lemma DemotionFate(p: Txs, state: nat, balance: nat, maxGas: nat, n: nat)
    ensures var keep, back := DemotedPending(p, state, balance, maxGas), DemotedBack(p, state, balance, maxGas);
      && (n in p ==> n < state || p[n].gas > maxGas || p[n].cost > balance || n in keep || n in back)
      && (n in keep ==> n in p && keep[n] == p[n] && n >= state && p[n].gas <= maxGas && p[n].cost <= balance)
      && (n in back ==> n in p && back[n] == p[n] && n >= state && p[n].gas <= maxGas && p[n].cost <= balance)
  {
    FilterPartitions(From(p, state), true, balance, maxGas, n);
  }

  /** A transaction of the account is in one of its lists. */
  ghost predicate At(b: Book, a: Addr, n: nat, tx: Tx) {
    || (n in ListOf(b.pending, a) && ListOf(b.pending, a)[n] == tx)
    || (n in ListOf(b.queue, a) && ListOf(b.queue, a)[n] == tx)
  }

  /** A transaction that can be executed at some time under this head. */
  ghost predicate Live(tx: Tx, chain: Chain) {
    Viable(tx, tx.nonce, chain, tx.from)
  }

  ghost predicate Viable(tx: Tx, n: nat, chain: Chain, a: Addr) {
    n >= chain.nonce(a) && tx.gas <= chain.maxGas && tx.cost <= chain.balance(a)
  }

  lemma PromotedFate(b: Book, b': Book, chain: Chain, cap: nat, local: bool, a: Addr, n: nat, tx: Tx)
    requires PromotesAt(b, b', chain, cap, local, a) && Owned(ListOf(b.queue, a), a) && AllApart(b)
    ensures At(b, a, n, tx) ==>
      At(b', a, n, tx) || !Viable(tx, n, chain, a) || (!local && |ListOf(b'.queue, a)| >= cap)
    ensures At(b', a, n, tx) ==> At(b, a, n, tx)
    ensures n in ListOf(b'.queue, a) ==> Viable(ListOf(b'.queue, a)[n], n, chain, a)
  {
    hide Ready, Cap, VirtualAfter;
    var p, q, virt := ListOf(b.pending, a), ListOf(b.queue, a), Virtual(b.nonces, chain.nonce, a);
    assert p.Keys !! q.Keys;
    PromotionTakes(q, chain.nonce(a), chain.balance(a), chain.maxGas, virt, cap, local);
    if n in q { PromotionFate(q, chain.nonce(a), chain.balance(a), chain.maxGas, virt, cap, local, n); }
  }

  lemma DemotedFate(b: Book, b': Book, chain: Chain, a: Addr, n: nat, tx: Tx)
    requires DemotesAt(b, b', chain, a) && AllApart(b)
    ensures At(b, a, n, tx) ==> At(b', a, n, tx) || !Viable(tx, n, chain, a)
    ensures At(b', a, n, tx) ==> At(b, a, n, tx)
    ensures n in ListOf(b'.pending, a) ==> Viable(ListOf(b'.pending, a)[n], n, chain, a)
    ensures n in ListOf(b'.queue, a) ==> n in ListOf(b.queue, a) || Viable(ListOf(b'.queue, a)[n], n, chain, a)
    ensures n in ListOf(b.queue, a) ==> n in ListOf(b'.queue, a) && ListOf(b'.queue, a)[n] == ListOf(b.queue, a)[n]
  {
    hide DemotedPending, DemotedBack;
    var p, q := ListOf(b.pending, a), ListOf(b.queue, a);
    assert p.Keys !! q.Keys;
    DemotionFate(p, chain.nonce(a), chain.balance(a), chain.maxGas, n);
  }

  // ---------- the whole pool ----------

  /** Stale or unpayable, or beyond the limit of its account. */
  ghost predicate Given(tx: Tx, chain: Chain, cap: nat, locals: set<Addr>, queue: map<Addr, Txs>) {
    || tx.nonce < chain.nonce(tx.from) || tx.gas > chain.maxGas || tx.cost > chain.balance(tx.from)
    || (tx.from !in locals && |ListOf(queue, tx.from)| >= cap)
  }

  lemma ListedIsAt(b: Book, tx: Tx)
    requires Consistent(b)
    ensures tx in b.all.All() <==> At(b, tx.from, tx.nonce, tx)
  {
    assert tx in b.all.All() <==> Listed(b, tx);
  }

  /** Promotion alone: who leaves the pool has a reason, and nobody new comes. */
  lemma PromotionLeaves(b: Book, b': Book, chain: Chain, cap: nat, locals: set<Addr>, done: set<Addr>, tx: Tx)
    requires Consistent(b) && Consistent(b') && AllPromoted(b, b', chain, cap, locals, done)
    ensures tx in b'.all.All() ==> tx in b.all.All()
    ensures tx in b.all.All() && tx !in b'.all.All() ==> Given(tx, chain, cap, locals, b'.queue)
  {
    hide PromotesAt, SameAt, Lookup.Valid;
    ListedIsAt(b, tx);
    ListedIsAt(b', tx);
    var a := tx.from;
    assert if a in done then PromotesAt(b, b', chain, cap, a in locals, a) else SameAt(b, b', chain, a);
    if a in done {
      ListsOwned(b, a);
      PromotedFate(b, b', chain, cap, a in locals, a, tx.nonce, tx);
    } else {
      SameIsAt(b, b', chain, a, tx);
    }
  }

  lemma SameIsAt(b: Book, b': Book, chain: Chain, a: Addr, tx: Tx)
    requires SameAt(b, b', chain, a)
    ensures At(b, a, tx.nonce, tx) <==> At(b', a, tx.nonce, tx)
  {
  }

  lemma ListsOwned(b: Book, a: Addr)
    requires Consistent(b)
    ensures Owned(ListOf(b.pending, a), a) && Owned(ListOf(b.queue, a), a) && AllApart(b)
  {
  }

  lemma MoreIsLonger(q: Txs, q': Txs)
    requires forall n | n in q :: n in q'
    ensures |q| <= |q'|
  {
    assert q.Keys <= q'.Keys && |q.Keys| == |q| && |q'.Keys| == |q'|;
    Subset(q.Keys, q'.Keys);
  }

  lemma Subset(s: set<nat>, t: set<nat>)
    requires s <= t
    ensures |s| <= |t|
  {
    assert t == s + (t - s);
  }

  /** A new head: who leaves has a reason, nobody new comes, and all that stay can be executed some time. */
  lemma ResetLeaves(b: Book, mid: Book, b': Book, chain: Chain, cap: nat, locals: set<Addr>, tx: Tx)
    requires Consistent(b) && Consistent(mid) && Consistent(b')
    requires AllPromoted(b, mid, chain, cap, locals, b.queue.Keys) && AllDemoted(mid, b', chain, {})
    ensures tx in b'.all.All() ==> tx in b.all.All() && Live(tx, chain)
    ensures tx in b.all.All() && tx !in b'.all.All() ==> Given(tx, chain, cap, locals, b'.queue)
  {
    hide PromotesAt, SameAt, DemotesAt, Lookup.Valid;
    var a, n := tx.from, tx.nonce;
    PromotionLeaves(b, mid, chain, cap, locals, b.queue.Keys, tx);
    ListedIsAt(mid, tx);
    ListedIsAt(b', tx);
    ListsOwned(mid, a);
    assert DemotesAt(mid, b', chain, a);
    DemotedFate(mid, b', chain, a, n, tx);
    QueuePayable(b, mid, chain, cap, locals, a, n);
    QueueGrows(mid, b', chain, a);
  }

  lemma EveryoneInTurn(b: Book, mid: Book, chain: Chain, cap: nat, locals: set<Addr>, a: Addr)
    requires AllPromoted(b, mid, chain, cap, locals, b.queue.Keys)
    ensures PromotesAt(b, mid, chain, cap, a in locals, a)
  {
    assert if a in b.queue then PromotesAt(b, mid, chain, cap, a in locals, a) else SameAt(b, mid, chain, a);
    if a !in b.queue {
      assert Executable(map[], chain.nonce(a), chain.balance(a), chain.maxGas) == map[];
      assert ListOf(b.pending, a) + map[] == ListOf(b.pending, a);
    }
  }

  lemma QueuePayable(b: Book, mid: Book, chain: Chain, cap: nat, locals: set<Addr>, a: Addr, n: nat)
    requires Consistent(b) && AllPromoted(b, mid, chain, cap, locals, b.queue.Keys)
    ensures n in ListOf(mid.queue, a) ==> Viable(ListOf(mid.queue, a)[n], n, chain, a)
  {
    hide PromotesAt;
    EveryoneInTurn(b, mid, chain, cap, locals, a);
    ListsOwned(b, a);
    PromotedFate(b, mid, chain, cap, a in locals, a, n, Tx(0, 0, 0, 0, 0, 0, 0, 0));
  }

  lemma QueueGrows(b: Book, b': Book, chain: Chain, a: Addr)
    requires DemotesAt(b, b', chain, a)
    ensures |ListOf(b.queue, a)| <= |ListOf(b'.queue, a)|
  {
    hide DemotedPending, DemotedBack;
    MoreIsLonger(ListOf(b.queue, a), ListOf(b'.queue, a));
  }

  // ---------- what is left executable in the queue ----------

  /** The nonce after the pending transactions of the account. */
  function Next(b: Book, chain: Chain, a: Addr): nat {
    chain.nonce(a) + |ListOf(b.pending, a)|
  }

  lemma NextIsVirtual(b: Book, chain: Chain, a: Addr)
    requires Chained(b, chain.nonce)
    ensures Next(b, chain, a) == Virtual(b.nonces, chain.nonce, a)
  {
    assert ChainedAt(ListOf(b.pending, a), ListOf(b.queue, a), chain.nonce(a), Virtual(b.nonces, chain.nonce, a));
    IntervalSize(ListOf(b.pending, a), chain.nonce(a), Virtual(b.nonces, chain.nonce, a));
  }

  /** Nothing executable is left in the queue of the account, nor anything that cannot be paid, nor too much. */
  ghost predicate Cleared(b: Book, chain: Chain, cap: nat, local: bool, a: Addr) {
    var q := ListOf(b.queue, a);
    && Next(b, chain, a) !in q
    && (local || |q| <= cap)
    && forall n | n in q :: Viable(q[n], n, chain, a)
  }

  /** Without a new head this is how promotion leaves the accounts that have had their turn. */
  lemma PromotionClears(b: Book, b': Book, chain: Chain, cap: nat, locals: set<Addr>, done: set<Addr>, a: Addr)
    requires Consistent(b) && Chained(b, chain.nonce) && AllPromoted(b, b', chain, cap, locals, done) && a in done
    requires Chained(b', chain.nonce)
    ensures Cleared(b', chain, cap, a in locals, a)
  {
    hide Consistent, Chained, PromotesAt;
    assert PromotesAt(b, b', chain, cap, a in locals, a);
    NextIsVirtual(b', chain, a);
    NothingExecutable(b, b', chain, cap, a in locals, a);
    ListsOwned(b, a);
    forall n | n in ListOf(b'.queue, a)
      ensures Viable(ListOf(b'.queue, a)[n], n, chain, a)
    {
      PromotedFate(b, b', chain, cap, a in locals, a, n, ListOf(b'.queue, a)[n]);
    }
  }

  lemma NothingExecutable(b: Book, b': Book, chain: Chain, cap: nat, local: bool, a: Addr)
    requires Chained(b, chain.nonce) && PromotesAt(b, b', chain, cap, local, a)
    ensures Virtual(b'.nonces, chain.nonce, a) !in ListOf(b'.queue, a)
    ensures local || |ListOf(b'.queue, a)| <= cap
  {
    hide Ready, Cap, VirtualAfter;
    var q, virt := ListOf(b.queue, a), Virtual(b.nonces, chain.nonce, a);
    assert ChainedAt(ListOf(b.pending, a), q, chain.nonce(a), virt);
    var fit := Executable(q, chain.nonce(a), chain.balance(a), chain.maxGas);
    var e := ReadyInterval(fit, virt);
    IntervalVirtual(Ready(fit, virt), virt, e);
    CapIsPrefix(fit - Ready(fit, virt).Keys, cap);
  }

  /**
   The virtual nonces are reset before the promotion, which therefore starts at the state nonce:
   a transaction that continues a front still pending is not promoted.
   */
  ghost predicate LeftBehind(p: Txs, q: Txs, state: nat, balance: nat, maxGas: nat) {
    var front := From(p, state);
    && state in p && AllPayable(front, balance, maxGas)
    && state + |front| in q && !Over(q[state + |front|], balance, maxGas)
  }

  /** The front was just promoted: demotion leaves it. */
  lemma NewFront(p: Txs, run: Txs, state: nat, e: nat, balance: nat, maxGas: nat)
    requires Interval(run, state, e) && state < e && AllPayable(run, balance, maxGas) && forall n | n in p :: n < state
    ensures DemotedPending(p + run, state, balance, maxGas) == run
    ensures DemotedBack(p + run, state, balance, maxGas) == map[]
  {
    assert From(p + run, state) == run;
    assert Unpayable(run, balance, maxGas) == map[] && Payable(run, balance, maxGas) == run;
  }

  /** The front was pending already: demotion leaves it up to the first transaction that cannot be paid. */
  lemma OldFront(p: Txs, state: nat, hi: nat, balance: nat, maxGas: nat) returns (d: nat)
    requires Interval(From(p, state), state, hi) && state < hi
    ensures state <= d <= hi && |DemotedPending(p, state, balance, maxGas)| == d - state
    ensures d !in DemotedBack(p, state, balance, maxGas)
    ensures d == hi <==> AllPayable(From(p, state), balance, maxGas)
  {
    hide Kept, Invalidated;
    var front := From(p, state);
    d := KeptInterval(front, state, hi, balance, maxGas);
    IntervalSize(Kept(front, true, balance, maxGas), state, d);
    assert AllPayable(front, balance, maxGas) <==> Unpayable(front, balance, maxGas) == map[] by {
      forall n | n in front
        ensures Over(front[n], balance, maxGas) <==> n in Unpayable(front, balance, maxGas)
      {
      }
    }
    FilterPartitions(front, true, balance, maxGas, d);
    if state !in Kept(front, true, balance, maxGas) { assert d == state; }
  }

  /** There was no front: all that was pending ahead goes back. */
  lemma NoOldFront(p: Txs, state: nat, balance: nat, maxGas: nat)
    requires state !in p
    ensures DemotedPending(p, state, balance, maxGas) == map[] && state !in DemotedBack(p, state, balance, maxGas)
  {
    hide Kept, Invalidated;
    FilterPartitions(From(p, state), true, balance, maxGas, state);
  }

  lemma LowestStays(l: Txs, cap: nat, n: nat)
    requires n in l && AtLeast(l, n) && cap >= 1
    ensures n in Cap(l, cap)
  {
    hide Cap;
    CapIsPrefix(l, cap);
    assert |l.Keys| == |l| && n in l.Keys;
    var kept := Cap(l, cap);
    assert kept.Keys != {} by { assert |kept.Keys| == |kept|; }
    var m :| m in kept;
  }

  /** The lists p and q of one account after promotion under a new head. */
  ghost predicate Moved(p: Txs, q: Txs, state: nat, balance: nat, maxGas: nat, cap: nat, local: bool, p': Txs, q': Txs) {
    var fit := Executable(q, state, balance, maxGas);
    var ready := Ready(fit, state);
    var rest := fit - ready.Keys;
    p' == p + ready && q' == if local then rest else Cap(rest, cap)
  }

  lemma LeftBehindIff(p: Txs, q: Txs, state: nat, balance: nat, maxGas: nat, cap: nat, local: bool, p': Txs, q': Txs)
    requires Loose(p, q, state, state) && Moved(p, q, state, balance, maxGas, cap, local, p', q')
    ensures var next := state + |DemotedPending(p', state, balance, maxGas)|;
      && next !in DemotedBack(p', state, balance, maxGas)
      && (next in q' ==> LeftBehind(p, q, state, balance, maxGas))
      && (LeftBehind(p, q, state, balance, maxGas) && (local || cap >= 1) ==> next in q')
  {
    hide Executable, Ready, Cap, DemotedPending, DemotedBack, LeftBehind, Loose;
    var fit := Executable(q, state, balance, maxGas);
    FitAtLeast(q, state, balance, maxGas);
    CapOnlyHas(fit - Ready(fit, state).Keys, cap);
    if state in fit {
      var e := ReadyInterval(fit, state);
      StartsAnew(p, q, state, balance, maxGas, e);
    } else {
      GoesOn(p, q, state, balance, maxGas, cap);
      assert fit - Ready(fit, state).Keys == fit && p + Ready(fit, state) == p;
    }
  }

  lemma FitAtLeast(q: Txs, state: nat, balance: nat, maxGas: nat)
    ensures AtLeast(Executable(q, state, balance, maxGas), state)
  {
  }

  lemma CapOnlyHas(l: Txs, cap: nat)
    ensures Cap(l, cap).Keys <= l.Keys
  {
    CapIsPrefix(l, cap);
  }

  lemma StartsAnew(p: Txs, q: Txs, state: nat, balance: nat, maxGas: nat, e: nat)
    requires var fit := Executable(q, state, balance, maxGas);
      Loose(p, q, state, state) && state in fit && Interval(Ready(fit, state), state, e)
    ensures var ready := Ready(Executable(q, state, balance, maxGas), state);
      && !LeftBehind(p, q, state, balance, maxGas)
      && DemotedBack(p + ready, state, balance, maxGas) == map[]
      && state + |DemotedPending(p + ready, state, balance, maxGas)| == e
  {
    hide Ready, DemotedPending, DemotedBack;
    var fit := Executable(q, state, balance, maxGas);
    var ready := Ready(fit, state);
    ReadyWithin(fit, state);
    assert state in q;
    var e' := ReadyInterval(fit, state);
    assert state < e;
    NewFront(p, ready, state, e, balance, maxGas);
    IntervalSize(ready, state, e);
  }

  lemma GoesOn(p: Txs, q: Txs, state: nat, balance: nat, maxGas: nat, cap: nat)
    requires var fit := Executable(q, state, balance, maxGas);
      Loose(p, q, state, state) && state !in fit
    ensures var fit := Executable(q, state, balance, maxGas);
      var next := state + |DemotedPending(p, state, balance, maxGas)|;
      && Ready(fit, state) == map[]
      && next !in DemotedBack(p, state, balance, maxGas)
      && (LeftBehind(p, q, state, balance, maxGas) <==> next in fit)
      && (next in fit && cap >= 1 ==> next in Cap(fit, cap))
  {
    hide Cap, DemotedPending, DemotedBack;
    var fit := Executable(q, state, balance, maxGas);
    if state !in p {
      NoOldFront(p, state, balance, maxGas);
    } else {
      var front := From(p, state);
      var hi := FrontEnd(front, state);
      var d := OldFront(p, state, hi, balance, maxGas);
      IntervalSize(front, state, hi);
      assert state in front;
      assert hi - 1 in front;
      assert AtLeast(fit, hi);
      if d in fit && cap >= 1 { LowestStays(fit, cap, d); }
    }
  }

  /** Something executable is left in the queue of the account exactly if it is left behind. */
  ghost predicate LeftIff(pending: map<Addr, Txs>, queue: map<Addr, Txs>, b: Book, chain: Chain, cap: nat, local: bool, a: Addr) {
    var left := LeftBehind(ListOf(pending, a), ListOf(queue, a), chain.nonce(a), chain.balance(a), chain.maxGas);
    && (Next(b, chain, a) in ListOf(b.queue, a) ==> left)
    && (left && (local || cap >= 1) ==> Next(b, chain, a) in ListOf(b.queue, a))
  }

  lemma LeftBehindAt(b: Book, mid: Book, b': Book, chain: Chain, cap: nat, locals: set<Addr>, a: Addr)
    requires AllPromoted(b, mid, chain, cap, locals, b.queue.Keys) && AllDemoted(mid, b', chain, {}) && LooseIn(b, chain, a)
    ensures LeftIff(b.pending, b.queue, b', chain, cap, a in locals, a)
  {
    hide PromotesAt, DemotesAt, LooseIn, LeftIff;
    EveryoneInTurn(b, mid, chain, cap, locals, a);
    assert DemotesAt(mid, b', chain, a);
    TurnsTogether(b, mid, b', chain, cap, a in locals, a);
  }

  lemma TurnsTogether(b: Book, mid: Book, b': Book, chain: Chain, cap: nat, local: bool, a: Addr)
    requires PromotesAt(b, mid, chain, cap, local, a) && DemotesAt(mid, b', chain, a) && LooseIn(b, chain, a)
    ensures LeftIff(b.pending, b.queue, b', chain, cap, local, a)
  {
    hide PromotesAt, DemotesAt, Loose, LeftBehind, ListOf, Moved, DemotedPending, DemotedBack;
    PromotedLists(b, mid, chain, cap, local, a);
    DemotedLists(mid, b', chain, a);
    LeftBehindIff(ListOf(b.pending, a), ListOf(b.queue, a), chain.nonce(a), chain.balance(a), chain.maxGas, cap, local,
      ListOf(mid.pending, a), ListOf(mid.queue, a));
  }

  lemma PromotedLists(b: Book, mid: Book, chain: Chain, cap: nat, local: bool, a: Addr)
    requires PromotesAt(b, mid, chain, cap, local, a) && LooseIn(b, chain, a)
    ensures Loose(ListOf(b.pending, a), ListOf(b.queue, a), chain.nonce(a), chain.nonce(a))
    ensures Moved(ListOf(b.pending, a), ListOf(b.queue, a), chain.nonce(a), chain.balance(a), chain.maxGas, cap, local,
      ListOf(mid.pending, a), ListOf(mid.queue, a))
  {
    hide Executable, Ready, Cap, VirtualAfter, GapFree, Beyond, ListOf;
  }

  lemma DemotedLists(b: Book, b': Book, chain: Chain, a: Addr)
    requires DemotesAt(b, b', chain, a)
    ensures var p := ListOf(b.pending, a);
      && ListOf(b'.pending, a) == DemotedPending(p, chain.nonce(a), chain.balance(a), chain.maxGas)
      && forall n :: n in ListOf(b'.queue, a) <==>
           n in ListOf(b.queue, a) || n in DemotedBack(p, chain.nonce(a), chain.balance(a), chain.maxGas)
  {
    hide DemotedPending, DemotedBack, ListOf;
  }

  // ---------- truncation ----------

  /** Local accounts lose nothing, and nobody does when all fit. */
  ghost predicate Trimmed(b: Book, b': Book, locals: set<Addr>, slots: nat, limit: nat) {
    forall a: Addr :: TrimmedAt(b, b', locals, slots, limit, a)
  }

  ghost predicate TrimmedAt(b: Book, b': Book, locals: set<Addr>, slots: nat, limit: nat, a: Addr) {
    && Within(ListOf(b'.pending, a), ListOf(b.pending, a)) && Within(ListOf(b'.queue, a), ListOf(b.queue, a))
    && (a in locals || FairShare.Total(b.pending) <= slots ==> ListOf(b'.pending, a) == ListOf(b.pending, a))
    && (a in locals || FairShare.Total(b.queue) <= limit ==> ListOf(b'.queue, a) == ListOf(b.queue, a))
  }

  lemma TrimmedLists(b: Book, b': Book, locals: set<Addr>, slots: nat, limit: nat, level: nat, a: Addr)
    requires b'.pending == FairShare.Shape(b.pending, locals, level)
    requires FairShare.Total(b.pending) <= slots ==> b'.pending == b.pending
    requires ListOf(b'.queue, a) == Cap(ListOf(b.queue, a), |ListOf(b'.queue, a)|)
    requires a in locals || FairShare.Total(b.queue) <= limit ==> ListOf(b'.queue, a) == ListOf(b.queue, a)
    ensures TrimmedAt(b, b', locals, slots, limit, a)
  {
    hide Cap, FairShare.Total;
    CapIsPrefix(ListOf(b.pending, a), level);
    CapIsPrefix(ListOf(b.queue, a), |ListOf(b'.queue, a)|);
  }

  lemma TrimLeaves(b: Book, b': Book, locals: set<Addr>, slots: nat, limit: nat, tx: Tx)
    requires Consistent(b) && Consistent(b') && Trimmed(b, b', locals, slots, limit)
    ensures tx in b'.all.All() ==> tx in b.all.All()
    ensures tx in b.all.All() && tx !in b'.all.All() ==>
      tx.from !in locals && (FairShare.Total(b.pending) > slots || FairShare.Total(b.queue) > limit)
  {
    hide Consistent, FairShare.Total;
    ListedIsAt(b, tx);
    ListedIsAt(b', tx);
    assert TrimmedAt(b, b', locals, slots, limit, tx.from);
  }

  lemma TrimNext(b: Book, b': Book, chain: Chain, locals: set<Addr>, slots: nat, limit: nat, a: Addr)
    requires Front(b, chain) && Chained(b', chain.nonce) && Trimmed(b, b', locals, slots, limit)
    ensures Within(ListOf(b'.queue, a), ListOf(b.queue, a)) && |ListOf(b'.queue, a)| <= |ListOf(b.queue, a)|
    ensures var virt := Virtual(b'.nonces, chain.nonce, a);
      && (virt in ListOf(b'.queue, a) ==> Next(b, chain, a) in ListOf(b.queue, a))
      && (a in locals || (FairShare.Total(b.pending) <= slots && FairShare.Total(b.queue) <= limit) ==>
          (virt in ListOf(b'.queue, a) <==> Next(b, chain, a) in ListOf(b.queue, a)))
  {
    hide FairShare.Total, Chained;
    NextIsVirtual(b', chain, a);
    assert TrimmedAt(b, b', locals, slots, limit, a);
    assert FrontIn(b, chain, a);
    MoreIsLonger(ListOf(b'.pending, a), ListOf(b.pending, a));
    MoreIsLonger(ListOf(b'.queue, a), ListOf(b.queue, a));
  }

  // ---------- the run as a whole ----------

  /** Why a transaction is gone. */
  ghost predicate Excused(tx: Tx, mid: Book, chain: Chain, cap: nat, locals: set<Addr>, slots: nat, limit: nat) {
    || tx.nonce < chain.nonce(tx.from) || tx.gas > chain.maxGas || tx.cost > chain.balance(tx.from)
    || (&& tx.from !in locals
        && (|| |ListOf(mid.queue, tx.from)| >= cap
            || FairShare.Total(mid.pending) > slots || FairShare.Total(mid.queue) > limit))
  }

  lemma ReorgLeaves(all: set<Tx>, mid: Book, b': Book, chain: Chain, cap: nat, locals: set<Addr>, slots: nat, limit: nat, tx: Tx)
    requires Consistent(mid) && Consistent(b') && Trimmed(mid, b', locals, slots, limit)
    requires tx in mid.all.All() ==> tx in all
    requires tx in all && tx !in mid.all.All() ==> Given(tx, chain, cap, locals, mid.queue)
    ensures tx in b'.all.All() ==> tx in all && tx in mid.all.All()
    ensures tx in all && tx !in b'.all.All() ==> Excused(tx, mid, chain, cap, locals, slots, limit)
  {
    hide Consistent, Trimmed, FairShare.Total;
    TrimLeaves(mid, b', locals, slots, limit, tx);
  }

  /** Truncation leaves nothing executable in a queue that had nothing executable. */
  lemma ReorgClears(mid: Book, b': Book, chain: Chain, cap: nat, locals: set<Addr>, slots: nat, limit: nat, a: Addr)
    requires Front(mid, chain) && Chained(b', chain.nonce) && Trimmed(mid, b', locals, slots, limit)
    requires Cleared(mid, chain, cap, a in locals, a)
    ensures Cleared(b', chain, cap, a in locals, a) && Next(b', chain, a) == Virtual(b'.nonces, chain.nonce, a)
  {
    hide Front, Chained, Trimmed, Next, FairShare.Total;
    TrimNext(mid, b', chain, locals, slots, limit, a);
    NextIsVirtual(b', chain, a);
  }

  lemma ReorgLeft(pending: map<Addr, Txs>, queue: map<Addr, Txs>, mid: Book, b': Book, chain: Chain, cap: nat,
                  locals: set<Addr>, slots: nat, limit: nat, a: Addr)
    requires Front(mid, chain) && Chained(b', chain.nonce) && Trimmed(mid, b', locals, slots, limit)
    requires LeftIff(pending, queue, mid, chain, cap, a in locals, a)
    ensures var left := LeftBehind(ListOf(pending, a), ListOf(queue, a), chain.nonce(a), chain.balance(a), chain.maxGas);
      var virt := Virtual(b'.nonces, chain.nonce, a);
      && (virt in ListOf(b'.queue, a) ==> left)
      && (left && (a in locals || (cap >= 1 && FairShare.Total(mid.pending) <= slots && FairShare.Total(mid.queue) <= limit)) ==>
          virt in ListOf(b'.queue, a))
  {
    hide Front, Chained, Trimmed, Next, LeftBehind, ListOf, FairShare.Total;
    TrimNext(mid, b', chain, locals, slots, limit, a);
  }
}
