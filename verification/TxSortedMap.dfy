/**
 txSortedMap (evmcore/tx_list.go): a hash map with a heap of its nonces and a lazily
 sorted cache, proved to behave as a nonce-sorted map.
 */
module TxSortedMap {
  import opened Common
  import opened NonceList
  import H = NonceHeap

  // ---------- the sorted list of a map ----------

  /** The transactions in nonce order. */
  function Flat(l: Txs): seq<Tx>
    decreases |l.Keys|
  {
    if l.Keys == {} then [] else
      var n := Min(l.Keys);
      assert (l - {n}).Keys == l.Keys - {n};
      [l[n]] + Flat(l - {n})
  }

  ghost predicate Ascending(s: seq<Tx>) {
    forall i, j | 0 <= i < j < |s| :: s[i].nonce < s[j].nonce
  }

  ghost predicate Holds(s: seq<Tx>, l: Txs) {
    forall tx: Tx :: tx in s <==> In(l, tx)
  }

  lemma {:induction false} FlatIs(l: Txs)
    requires Keyed(l)
    ensures Ascending(Flat(l)) && Holds(Flat(l), l) && |Flat(l)| == |l|
    decreases |l.Keys|
  {
    assert |l.Keys| == |l|;
    if l.Keys != {} {
      var n := Min(l.Keys);
      var rest := l - {n};
      assert rest.Keys == l.Keys - {n};
      assert |rest.Keys| == |rest|;
      FlatIs(rest);
      assert Flat(l) == [l[n]] + Flat(rest);
      hide Flat;
      FirstOfAll(l, n, Flat(rest));
    }
  }

  lemma FirstOfAll(l: Txs, n: nat, s: seq<Tx>)
    requires Keyed(l) && n in l && (forall m | m in l :: n <= m) && Ascending(s) && Holds(s, l - {n})
    ensures Ascending([l[n]] + s) && Holds([l[n]] + s, l)
  {
    forall tx: Tx
      ensures tx in [l[n]] + s <==> In(l, tx)
    {
      assert tx in s <==> In(l - {n}, tx);
    }
    forall i | 0 <= i < |s|
      ensures n < s[i].nonce
    {
      assert In(l - {n}, s[i]) by { assert s[i] in s; }
    }
  }

  /** Sortedness and contents determine the list. */
  lemma {:induction false} FlatIsUnique(s: seq<Tx>, l: Txs)
    requires Keyed(l) && Ascending(s) && Holds(s, l)
    ensures s == Flat(l)
    decreases |s|
  {
    if s == [] {
      if n :| n in l {
        assert In(l, l[n]);
        assert false;
      }
    } else {
      assert s[0] in s;
      var n := Min(l.Keys);
      assert l[n] in s;
      assert s[0].nonce == n;
      var rest := l - {n};
      forall tx: Tx
        ensures tx in s[1..] <==> In(rest, tx)
      {
        if tx in s[1..] { assert tx in s; }
        if In(rest, tx) { assert tx in s; }
      }
      FlatIsUnique(s[1..], rest);
    }
  }

  lemma FlatConcat(l: Txs, low: Txs, high: Txs)
    requires Keyed(l) && Within(low, l) && Within(high, l)
    requires forall n | n in l :: n in low || n in high
    requires forall n, m | n in low && m in high :: n < m
    ensures Flat(l) == Flat(low) + Flat(high)
  {
    FlatIs(low);
    FlatIs(high);
    forall i | 0 <= i < |Flat(low)|
      ensures Flat(low)[i].nonce in low
    {
      assert Flat(low)[i] in Flat(low);
    }
    forall i | 0 <= i < |Flat(high)|
      ensures Flat(high)[i].nonce in high
    {
      assert Flat(high)[i] in Flat(high);
    }
    FlatIsUnique(Flat(low) + Flat(high), l);
  }

  lemma FlatFirst(l: Txs)
    requires l.Keys != {}
    ensures Flat(l) == [l[Min(l.Keys)]] + Flat(l - {Min(l.Keys)})
  {
  }

  /** Taking the lowest nonces out one by one walks along the sorted list. */
  lemma WalkStep(before: Txs, bound: nat, taken: seq<Tx>, items: Txs)
    requires items == From(before, bound) && taken + Flat(items) == Flat(before) && items.Keys != {}
    ensures var n := Min(items.Keys);
      && items - {n} == From(before, n + 1)
      && taken + [items[n]] + Flat(items - {n}) == Flat(before)
  {
    hide Flat;
    FlatFirst(items);
    var n := Min(items.Keys);
    assert taken + [items[n]] + Flat(items - {n}) == taken + ([items[n]] + Flat(items - {n}));
    forall m: nat
      ensures m in items - {n} <==> m in From(before, n + 1)
    {
    }
    assert items - {n} == From(before, n + 1);
  }

  lemma WalkEnd(before: Txs, bound: nat, taken: seq<Tx>)
    requires Keyed(before) && taken + Flat(From(before, bound)) == Flat(before)
    ensures taken == Flat(Below(before, bound))
    ensures |taken| <= |Flat(before)| && Flat(From(before, bound)) == Flat(before)[|taken|..]
  {
    hide Flat;
    FlatConcat(before, Below(before, bound), From(before, bound));
    assert taken == (taken + Flat(From(before, bound)))[..|taken|];
    assert Flat(Below(before, bound)) == (Flat(Below(before, bound)) + Flat(From(before, bound)))[..|taken|];
  }

  /** What a walk over the map in any order collects. */
  ghost predicate Collects(s: seq<Tx>, l: Txs) {
    |s| == |l| && Holds(s, l)
  }

  // ---------- sorting ----------

  ghost predicate SortedNonces(s: seq<nat>) {
    forall i, j | 0 <= i < j < |s| :: s[i] <= s[j]
  }

  /** sort.Sort over nonceHeap; any correct sort gives the same list. */
  method SortNonces(s: seq<nat>) returns (r: seq<nat>)
    ensures multiset(r) == multiset(s) && SortedNonces(r)
  {
    var h := H.Init(s);
    r := [];
    while |h| > 0
      invariant H.IsHeap(h) && multiset(r) + multiset(h) == multiset(s)
      invariant SortedNonces(r)
      invariant forall i, j | 0 <= i < |r| && 0 <= j < |h| :: r[i] <= h[j]
      decreases |h|
    {
      ghost var before := h;
      forall j | 0 <= j < |h|
        ensures h[0] <= h[j]
      {
        H.RootIsLeast(h, j);
      }
      var x;
      h, x := H.Pop(h);
      forall j | 0 <= j < |h|
        ensures h[j] in before
      {
        assert h[j] in multiset(h);
        assert h[j] in multiset(before);
      }
      assert |multiset(before)| == |before| && |multiset(h)| == |h|;
      r := r + [x];
    }
  }

  ghost predicate DistinctNonces(s: seq<Tx>) {
    forall i, j | 0 <= i < j < |s| :: s[i].nonce != s[j].nonce
  }

  method InsertTx(s: seq<Tx>, x: Tx) returns (r: seq<Tx>)
    requires Ascending(s) && forall tx | tx in s :: tx.nonce != x.nonce
    ensures Ascending(r) && forall tx :: tx in r <==> tx in s || tx == x
  {
    var k := 0;
    while k < |s| && s[k].nonce < x.nonce
      invariant 0 <= k <= |s|
      invariant forall i | 0 <= i < k :: s[i].nonce < x.nonce
    {
      k := k + 1;
    }
    assert k < |s| ==> s[k] in s;
    r := s[..k] + [x] + s[k..];
    InsertedMembers(s, x, k);
    InsertedAscends(s, x, k);
  }

  lemma InsertedMembers(s: seq<Tx>, x: Tx, k: nat)
    requires k <= |s|
    ensures forall tx :: tx in s[..k] + [x] + s[k..] <==> tx in s || tx == x
  {
    forall tx
      ensures tx in s[..k] + [x] + s[k..] <==> tx in s || tx == x
    {
      assert s == s[..k] + s[k..];
    }
  }

  lemma InsertedAscends(s: seq<Tx>, x: Tx, k: nat)
    requires Ascending(s) && k <= |s| && (k > 0 ==> s[k - 1].nonce < x.nonce) && (k < |s| ==> x.nonce < s[k].nonce)
    ensures Ascending(s[..k] + [x] + s[k..])
  {
    var r := s[..k] + [x] + s[k..];
    forall i, j | 0 <= i < j < |r|
      ensures r[i].nonce < r[j].nonce
    {
      assert r[i] == if i < k then s[i] else if i == k then x else s[i - 1];
      assert r[j] == if j < k then s[j] else if j == k then x else s[j - 1];
    }
  }

  /** sort.Sort over types.TxByNonce. */
  method SortTxs(s: seq<Tx>) returns (r: seq<Tx>)
    requires DistinctNonces(s)
    ensures Ascending(r) && forall tx :: tx in r <==> tx in s
  {
    r := [];
    for i := 0 to |s|
      invariant Ascending(r) && forall tx :: tx in r <==> tx in s[..i]
    {
      r := InsertTx(r, s[i]);
    }
  }

  // ---------- the map itself ----------

  ghost predicate Indexed(index: seq<nat>, items: Txs) {
    H.IsHeap(index) && multiset(index) == multiset(items.Keys)
  }

  lemma IndexedKeys(index: seq<nat>, items: Txs)
    requires Indexed(index, items)
    ensures |index| == |items|
    ensures forall i | 0 <= i < |index| :: index[i] in items
    ensures forall n | n in items :: n in index
    ensures |index| > 0 ==> items.Keys != {} && index[0] == Min(items.Keys)
  {
    assert |multiset(index)| == |index| && |multiset(items.Keys)| == |items.Keys| == |items|;
    forall i | 0 <= i < |index|
      ensures index[i] in items
    {
      assert index[i] in multiset(index);
    }
    forall n | n in items
      ensures n in index
    {
      assert n in multiset(items.Keys);
    }
    if |index| > 0 {
      var m := Min(items.Keys);
      assert m in index;
      var i :| 0 <= i < |index| && index[i] == m;
      H.RootIsLeast(index, i);
    }
  }

  lemma IndexedWithout(index: seq<nat>, index': seq<nat>, items: Txs, n: nat)
    requires Indexed(index, items) && n in items
    requires H.IsHeap(index') && multiset(index) == multiset(index') + multiset{n}
    ensures Indexed(index', items - {n})
  {
    assert (items - {n}).Keys == items.Keys - {n};
    assert multiset(index') == multiset(index) - multiset{n};
    assert multiset(items.Keys - {n}) == multiset(items.Keys) - multiset{n};
  }

  class TxSortedMap {
    var items: Txs
    var index: seq<nat>
    var cache: Option<seq<Tx>>

    ghost predicate Valid()
      reads this
    {
      Keyed(items) && Indexed(index, items) && (cache.Some? ==> cache.value == Flat(items))
    }

    constructor ()
      ensures Valid() && items == map[]
    {
      items, index, cache := map[], [], None;
    }

    method Put(tx: Tx)
      requires Valid()
      modifies this
      ensures Valid() && items == old(items)[tx.nonce := tx]
    {
      hide H.IsHeap, Flat;
      if tx.nonce !in items {
        index := H.Push(index, tx.nonce);
        assert items[tx.nonce := tx].Keys == items.Keys + {tx.nonce};
      } else {
        assert items[tx.nonce := tx].Keys == items.Keys;
      }
      items, cache := items[tx.nonce := tx], None;
    }

    /** heap.Pop together with the removal from the map. */
    method PopFirst() returns (tx: Tx)
      requires Keyed(items) && Indexed(index, items) && |index| > 0
      modifies this`items, this`index
      ensures Keyed(items) && Indexed(index, items)
      ensures old(items).Keys != {} && var n := Min(old(items).Keys); tx == old(items)[n] && items == old(items) - {n}
      ensures |index| < |old(index)|
    {
      IndexedKeys(index, items);
      var n;
      ghost var before := index;
      index, n := H.Pop(index);
      IndexedWithout(before, index, items, n);
      tx := items[n];
      items := items - {n};
      IndexedKeys(index, items);
      assert |items| + 1 == |old(items)| by {
        assert items.Keys == old(items).Keys - {n};
        assert |items.Keys| == |items| && |old(items).Keys| == |old(items)|;
      }
    }

    /** Removes the nonces below the threshold, lowest first. */
    method Forward(threshold: nat) returns (removed: seq<Tx>)
      requires Valid()
      modifies this
      ensures Valid()
      ensures items == From(old(items), threshold) && removed == Flat(Below(old(items), threshold))
    {
      hide Indexed, Flat, From, Below;
      ghost var before := items;
      ghost var bound: nat := 0;
      FromAll(items);
      removed := [];
      IndexedKeys(index, items);
      while |index| > 0 && index[0] < threshold
        invariant Keyed(items) && Indexed(index, items) && cache == old(cache)
        invariant bound <= threshold && items == From(before, bound) && removed + Flat(items) == Flat(before)
        invariant |index| > 0 ==> items.Keys != {} && index[0] == Min(items.Keys)
        invariant |index| == 0 ==> items.Keys == {}
        decreases |index|
      {
        WalkStep(before, bound, removed, items);
        bound := index[0] + 1;
        var tx := PopFirst();
        removed := removed + [tx];
        IndexedKeys(index, items);
        assert |index| == 0 ==> items.Keys == {} by { assert |items.Keys| == |items|; }
      }
      FromHigher(before, bound, threshold);
      WalkEnd(before, threshold, removed);
      if cache.Some? {
        cache := Some(cache.value[|removed|..]);
      }
    }

    static lemma FromAll(l: Txs)
      ensures From(l, 0) == l
    {
    }

    static lemma FromHigher(l: Txs, bound: nat, threshold: nat)
      requires bound <= threshold && (From(l, bound).Keys == {} || Min(From(l, bound).Keys) >= threshold)
      ensures From(l, bound) == From(l, threshold)
    {
      forall n: nat
        ensures n in From(l, bound) <==> n in From(l, threshold)
      {
        assert n in From(l, bound) <==> n in From(l, bound).Keys;
      }
    }

    /** Takes the executable transactions out, lowest first. */
    method Ready(start: nat) returns (ready: seq<Tx>)
      requires Valid()
      modifies this
      ensures Valid()
      ensures var r := NonceList.Ready(old(items), start); ready == Flat(r) && items == old(items) - r.Keys
    {
      hide Indexed, Flat, EndOfRun;
      ghost var before := items;
      IndexedKeys(index, items);
      if |index| == 0 || index[0] > start {
        assert items.Keys == {} || Min(items.Keys) > start by { assert |items.Keys| == |items|; }
        FlatEmpty();
        assert items - {} == items;
        return [];
      }
      var next := index[0];
      ghost var lo := next;
      ready := [];
      assert From(before, lo) == before;
      while |index| > 0 && index[0] == next
        invariant Keyed(items) && Indexed(index, items) && lo <= next
        invariant items == From(before, next) && forall n | lo <= n < next :: n in before
        invariant ready + Flat(items) == Flat(before)
        invariant |index| > 0 ==> items.Keys != {} && index[0] == Min(items.Keys)
        invariant |index| == 0 ==> items.Keys == {}
        decreases |index|
      {
        WalkStep(before, next, ready, items);
        var tx := PopFirst();
        ready := ready + [tx];
        next := next + 1;
        IndexedKeys(index, items);
        assert |index| == 0 ==> items.Keys == {} by { assert |items.Keys| == |items|; }
      }
      cache := None;
      assert next !in items.Keys;
      assert next !in before;
      RunEnds(before, lo, next);
      WalkEnd(before, next, ready);
      assert before - Below(before, next).Keys == From(before, next);
    }

    static lemma FlatEmpty()
      ensures Flat(map[]) == []
    {
    }

    static lemma RunEnds(l: Txs, lo: nat, e: nat)
      requires lo <= e && e !in l && forall n | lo <= n < e :: n in l
      ensures EndOfRun(l, lo) == e
    {
    }

    /** filter: removes from the map what the test selects; the heap is left behind. */
    method FilterItems(f: Tx -> bool) returns (removed: seq<Tx>)
      requires Keyed(items)
      modifies this`items, this`cache
      ensures items == Rejecting(old(items), f) && Collects(removed, Selecting(old(items), f))
      ensures cache == if |removed| > 0 then None else old(cache)
    {
      hide Collects, Selecting, Rejecting;
      removed := [];
      ghost var seen: Txs := map[];
      var todo := items.Keys;
      CollectsNone();
      SelectNone(f);
      while todo != {}
        invariant todo <= old(items).Keys && seen == old(items) - todo
        invariant Collects(removed, Selecting(seen, f))
        invariant items == old(items) - Selecting(seen, f).Keys && cache == old(cache)
        decreases |todo|
      {
        var n :| n in todo;
        SelectStep(old(items), todo, n, f);
        var tx := items[n];
        if f(tx) {
          CollectsOne(removed, Selecting(seen, f), tx);
          removed := removed + [tx];
          items := items - {n};
        }
        seen := seen[n := tx];
        todo := todo - {n};
      }
      SelectAll(old(items), f);
      if |removed| > 0 {
        cache := None;
      }
    }

    method Reheap()
      requires Keyed(items)
      modifies this`index, this`cache
      ensures Valid() && cache == None
    {
      var nonces: seq<nat> := [];
      var todo := items.Keys;
      while todo != {}
        invariant todo <= items.Keys && multiset(nonces) == multiset(items.Keys - todo)
        decreases |todo|
      {
        var n :| n in todo;
        nonces := nonces + [n];
        assert items.Keys - (todo - {n}) == items.Keys - todo + {n};
        todo := todo - {n};
      }
      assert items.Keys - todo == items.Keys;
      index := H.Init(nonces);
      cache := None;
    }

    method Filter(f: Tx -> bool) returns (removed: seq<Tx>)
      requires Valid()
      modifies this
      ensures Valid()
      ensures items == Rejecting(old(items), f) && Collects(removed, Selecting(old(items), f))
    {
      hide Indexed, Flat, Holds;
      removed := FilterItems(f);
      if |removed| > 0 {
        Reheap();
      } else {
        NoneSelected(old(items), f);
      }
    }

    /** Keeps the lowest nonces; the rest comes back highest first. */
    method Cap(threshold: nat) returns (drops: seq<Tx>)
      requires Valid()
      modifies this
      ensures Valid()
      ensures items == NonceList.Cap(old(items), threshold) && |drops| == |old(items)| - |items|
      ensures forall tx: Tx :: tx in drops <==> In(old(items), tx) && !In(items, tx)
    {
      hide Flat, NonceList.Cap, SortedNonces, H.IsHeap;
      ghost var before := items;
      CapAtMost(items, threshold);
      if |items| <= threshold {
        return [];
      }
      var sorted := SortNonces(index);
      IndexedKeys(index, items);
      assert |multiset(index)| == |index| && |multiset(sorted)| == |sorted|;
      drops := DropHighest(sorted, threshold);
      index := H.Init(sorted[..threshold]);
      CapFlat(before, threshold);
      if cache.Some? {
        cache := Some(cache.value[..|cache.value| - |drops|]);
      }
    }

    method DropHighest(sorted: seq<nat>, threshold: nat) returns (drops: seq<Tx>)
      requires Keyed(items) && SortedNonces(sorted) && multiset(sorted) == multiset(items.Keys)
      requires threshold <= |items| == |sorted|
      modifies this`items
      ensures Keyed(items) && items == NonceList.Cap(old(items), threshold)
      ensures multiset(sorted[..threshold]) == multiset(items.Keys)
      ensures |items| == threshold && |drops| == |old(items)| - threshold
      ensures forall tx: Tx :: tx in drops <==> In(old(items), tx) && !In(items, tx)
    {
      hide NonceList.Cap, SortedNonces;
      drops := [];
      var size := |items|;
      assert sorted[..size] == sorted;
      while size > threshold
        invariant threshold <= size == |items| <= |sorted|
        invariant Keyed(items) && multiset(sorted[..size]) == multiset(items.Keys)
        invariant NonceList.Cap(items, threshold) == NonceList.Cap(old(items), threshold)
        invariant Within(items, old(items)) && |drops| == |old(items)| - size
        invariant forall tx: Tx :: tx in drops <==> In(old(items), tx) && !In(items, tx)
      {
        var n := sorted[size - 1];
        SortedLast(sorted, size, items);
        CapStep(items, threshold);
        drops := drops + [items[n]];
        items := items - {n};
        size := size - 1;
      }
      CapAtMost(items, threshold);
    }

    method Remove(nonce: nat) returns (found: bool)
      requires Valid()
      modifies this
      ensures Valid() && found == (nonce in old(items)) && items == old(items) - {nonce}
    {
      if nonce !in items {
        assert items - {nonce} == items;
        return false;
      }
      IndexedKeys(index, items);
      var i := 0;
      while index[i] != nonce
        invariant 0 <= i < |index| && nonce in index[i..]
        decreases |index| - i
      {
        i := i + 1;
      }
      ghost var before := index;
      index := H.Remove(index, i);
      IndexedWithout(before, index, items, nonce);
      items, cache := items - {nonce}, None;
      return true;
    }

    /** The sorted list, computed at most once between two changes. */
    method Flatten() returns (txs: seq<Tx>)
      requires Valid()
      modifies this`cache
      ensures Valid() && cache == Some(txs) && txs == Flat(items)
    {
      hide Indexed, Flat;
      if cache.None? {
        var all := Walk();
        var sorted := SortTxs(all);
        FlatIsUnique(sorted, items);
        cache := Some(sorted);
      }
      txs := cache.value;
    }

    method Walk() returns (all: seq<Tx>)
      requires Keyed(items)
      ensures Holds(all, items) && DistinctNonces(all)
    {
      all := [];
      var todo := items.Keys;
      while todo != {}
        invariant todo <= items.Keys
        invariant forall tx: Tx :: tx in all <==> In(items, tx) && tx.nonce !in todo
        invariant DistinctNonces(all)
        decreases |todo|
      {
        var n :| n in todo;
        assert forall i | 0 <= i < |all| :: all[i] in all;
        all := all + [items[n]];
        todo := todo - {n};
      }
    }

    /** The highest nonce; the map must not be empty. */
    method LastElement() returns (tx: Tx)
      requires Valid() && items.Keys != {}
      modifies this`cache
      ensures Valid() && tx == items[Max(items.Keys)]
    {
      hide Indexed, Flat;
      var txs := Flatten();
      FlatIs(items);
      var m := Max(items.Keys);
      assert items[m] in txs;
      tx := txs[|txs| - 1];
      assert tx in txs;
    }
  }

  // ---------- lemmas for the loops above ----------

  function Selecting(l: Txs, f: Tx -> bool): Txs {
    map n | n in l && f(l[n]) :: l[n]
  }

  function Rejecting(l: Txs, f: Tx -> bool): Txs {
    map n | n in l && !f(l[n]) :: l[n]
  }

  lemma SelectNone(f: Tx -> bool)
    ensures Selecting(map[], f) == map[]
  {
  }

  /** One more transaction looked at. */
  lemma SelectStep(l: Txs, todo: set<nat>, n: nat, f: Tx -> bool)
    requires todo <= l.Keys && n in todo
    ensures l - (todo - {n}) == (l - todo)[n := l[n]]
    ensures var picked, more := Selecting(l - todo, f), Selecting((l - todo)[n := l[n]], f);
      && n !in picked && n in l - picked.Keys && (l - picked.Keys)[n] == l[n]
      && (if f(l[n]) then more == picked[n := l[n]] && l - picked.Keys - {n} == l - more.Keys else more == picked)
  {
  }

  lemma SelectAll(l: Txs, f: Tx -> bool)
    ensures l - {} == l && l - Selecting(l, f).Keys == Rejecting(l, f)
  {
  }

  lemma CollectsNone()
    ensures Collects([], map[])
  {
  }

  lemma CollectsOne(s: seq<Tx>, l: Txs, tx: Tx)
    requires Collects(s, l) && tx.nonce !in l
    ensures Collects(s + [tx], l[tx.nonce := tx])
  {
  }

  lemma NoneSelected(l: Txs, f: Tx -> bool)
    requires Selecting(l, f) == map[] || |Selecting(l, f)| == 0
    ensures Rejecting(l, f) == l
  {
    assert |Selecting(l, f).Keys| == |Selecting(l, f)|;
    forall n | n in l
      ensures !f(l[n])
    {
      assert n !in Selecting(l, f).Keys;
    }
  }

  lemma CapAtMost(l: Txs, k: nat)
    ensures |l| <= k ==> NonceList.Cap(l, k) == l
  {
  }

  lemma CapStep(l: Txs, k: nat)
    requires |l| > k
    ensures l.Keys != {} && NonceList.Cap(l, k) == NonceList.Cap(l - {Max(l.Keys)}, k)
  {
    assert |l.Keys| == |l|;
  }

  lemma CapFlat(l: Txs, k: nat)
    requires Keyed(l) && |l| > k
    ensures k <= |Flat(l)| == |l| && Flat(NonceList.Cap(l, k)) == Flat(l)[..k]
  {
    hide Flat, NonceList.Cap;
    CapIsPrefix(l, k);
    var kept := NonceList.Cap(l, k);
    FlatConcat(l, kept, l - kept.Keys);
    FlatIs(l);
    FlatIs(kept);
  }

  lemma SortedLast(sorted: seq<nat>, size: nat, items: Txs)
    requires SortedNonces(sorted) && 0 < size == |items| <= |sorted| && multiset(sorted[..size]) == multiset(items.Keys)
    ensures items.Keys != {} && sorted[size - 1] == Max(items.Keys)
    ensures |items - {sorted[size - 1]}| == size - 1
    ensures multiset(sorted[..size - 1]) == multiset((items - {sorted[size - 1]}).Keys)
  {
    var n := sorted[size - 1];
    assert sorted[..size] == sorted[..size - 1] + [n];
    assert n in multiset(sorted[..size]);
    assert n in items.Keys;
    var m := Max(items.Keys);
    assert m in multiset(sorted[..size]);
    assert m in sorted[..size];
    assert (items - {n}).Keys == items.Keys - {n};
    assert |items.Keys| == |items| && |(items - {n}).Keys| == |items - {n}|;
    assert multiset(items.Keys - {n}) == multiset(items.Keys) - multiset{n};
    assert multiset(sorted[..size - 1]) == multiset(sorted[..size]) - multiset{n};
  }
}
