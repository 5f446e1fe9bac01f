/**
 txPricedList (evmcore/tx_list.go): two heaps over the remote transactions from which
 the pool picks what to evict.  A heap is modelled by what it holds: popping takes out a
 least element, and which of several equal ones is left open.  Entries of transactions
 that left the pool, or became local, stay behind as stale.
 */
module PricedList {
  import opened Common
  import opened NonceList
  import opened TxLookup

  const URGENT_RATIO := 4
  const FLOATING_RATIO := 1

  datatype BaseFee = NoFee | Fee(value: nat)

  type Heap = multiset<Tx>

  // ---------- the order ----------

  function Compare(x: int, y: int): int {
    if x < y then -1 else if x > y then 1 else 0
  }

  function Lower(x: int, y: int): (r: int)
    ensures r <= x && r <= y && (r == x || r == y)
  {
    if x < y then x else y
  }

  function EffectiveTip(tx: Tx, baseFee: nat): int {
    Lower(tx.tipCap, tx.feeCap - baseFee)
  }

  function Cmp(fee: BaseFee, a: Tx, b: Tx): int {
    var byTip := if fee.Fee? then Compare(EffectiveTip(a, fee.value), EffectiveTip(b, fee.value)) else 0;
    if byTip != 0 then byTip
    else if a.feeCap != b.feeCap then Compare(a.feeCap, b.feeCap)
    else Compare(a.tipCap, b.tipCap)
  }

  predicate Less(fee: BaseFee, a: Tx, b: Tx) {
    Cmp(fee, a, b) < 0 || (Cmp(fee, a, b) == 0 && a.nonce > b.nonce)
  }

  /** In prices: what pays a lower cap, or the same cap and a lower tip, goes first; of equal ones the later nonce. */
  lemma LessByCap(a: Tx, b: Tx)
    ensures Cmp(NoFee, a, b) < 0 <==> a.feeCap < b.feeCap || (a.feeCap == b.feeCap && a.tipCap < b.tipCap)
    ensures Cmp(NoFee, a, b) == 0 <==> a.feeCap == b.feeCap && a.tipCap == b.tipCap
    ensures Less(NoFee, a, b) <==>
      || a.feeCap < b.feeCap
      || (a.feeCap == b.feeCap && (a.tipCap < b.tipCap || (a.tipCap == b.tipCap && a.nonce > b.nonce)))
  {
  }

  /** With a base fee what is left for the tip comes first. */
  lemma LessByTip(baseFee: nat, a: Tx, b: Tx)
    ensures var s, t := Lower(a.tipCap, a.feeCap - baseFee), Lower(b.tipCap, b.feeCap - baseFee);
      && (Cmp(Fee(baseFee), a, b) < 0 <==> s < t || (s == t && Cmp(NoFee, a, b) < 0))
      && (Less(Fee(baseFee), a, b) <==> s < t || (s == t && Less(NoFee, a, b)))
  {
  }

  lemma LessIsOrder(fee: BaseFee, a: Tx, b: Tx, c: Tx)
    ensures Cmp(fee, a, b) == -Cmp(fee, b, a)
    ensures !Less(fee, a, b) && !Less(fee, b, c) ==> !Less(fee, a, c)
    ensures Cmp(fee, a, b) >= 0 && !Less(fee, c, a) ==> Cmp(fee, c, b) >= 0
  {
  }

  ghost predicate IsLeast(fee: BaseFee, h: Heap, tx: Tx) {
    tx in h && forall other | other in h :: !Less(fee, other, tx)
  }

  lemma {:induction false} LeastExists(fee: BaseFee, h: Heap)
    requires |h| > 0
    ensures exists tx :: IsLeast(fee, h, tx)
    decreases |h|
  {
    hide Less;
    var tx :| tx in h;
    var rest := h - multiset{tx};
    if |rest| == 0 {
      assert h == rest + multiset{tx} && rest == multiset{};
      NotBelowItself(fee, tx);
      assert IsLeast(fee, h, tx);
    } else {
      LeastExists(fee, rest);
      var low :| IsLeast(fee, rest, low);
      var least := if Less(fee, tx, low) then tx else low;
      forall other | other in h
        ensures !Less(fee, other, least)
      {
        NotBelowItself(fee, tx);
        LessIsOrder(fee, other, low, tx);
        LessAntisymmetric(fee, tx, low);
        assert other == tx || other in rest;
      }
      assert IsLeast(fee, h, least);
    }
  }

  lemma NotBelowItself(fee: BaseFee, tx: Tx)
    ensures !Less(fee, tx, tx)
  {
  }

  lemma LessAntisymmetric(fee: BaseFee, a: Tx, b: Tx)
    ensures Less(fee, a, b) ==> !Less(fee, b, a)
  {
  }

  method Pop(h: Heap, fee: BaseFee) returns (tx: Tx, rest: Heap)
    requires |h| > 0
    ensures IsLeast(fee, h, tx) && h == rest + multiset{tx} && |h| == |rest| + 1
  {
    LeastExists(fee, h);
    tx :| tx in h && forall other | other in h :: !Less(fee, other, tx);
    rest := h - multiset{tx};
    assert h == rest + multiset{tx};
  }

  // ---------- slots of the live entries ----------

  ghost function EntrySlots(tx: Tx, live: set<Tx>): nat {
    if tx in live then NumSlots(tx) else 0
  }

  /** What the live entries occupy, each counted as often as it occurs. */
  ghost function LiveSlots(h: Heap, live: set<Tx>): nat
    decreases |h|
  {
    if |h| == 0 then 0 else EntrySlots(Pick(h), live) + LiveSlots(h - multiset{Pick(h)}, live)
  }

  ghost function Pick(h: Heap): (tx: Tx)
    requires |h| > 0
    ensures tx in h
  {
    var tx :| tx in h;
    tx
  }

  lemma {:induction false} LiveSlotsPlus(h: Heap, tx: Tx, live: set<Tx>)
    ensures LiveSlots(h + multiset{tx}, live) == LiveSlots(h, live) + EntrySlots(tx, live)
    decreases |h|
  {
    hide EntrySlots, Pick;
    var sum := h + multiset{tx};
    var first := Pick(sum);
    if first == tx {
      assert sum - multiset{first} == h;
    } else {
      var rest := h - multiset{first};
      assert h == rest + multiset{first} && sum - multiset{first} == rest + multiset{tx};
      LiveSlotsPlus(rest, tx, live);
      LiveSlotsPlus(rest, first, live);
    }
  }

  function SeqSlots(txs: seq<Tx>): nat {
    if txs == [] then 0 else SeqSlots(txs[..|txs| - 1]) + NumSlots(txs[|txs| - 1])
  }

  lemma NoSlots()
    ensures SeqSlots([]) == 0
  {
  }

  lemma SeqSlotsPlus(txs: seq<Tx>, tx: Tx)
    ensures SeqSlots(txs + [tx]) == SeqSlots(txs) + NumSlots(tx)
  {
    assert (txs + [tx])[..|txs|] == txs;
  }

  lemma {:induction false} NothingLive(h: Heap, live: set<Tx>)
    requires forall tx | tx in h :: tx !in live
    ensures LiveSlots(h, live) == 0
    decreases |h|
  {
    if |h| > 0 {
      var tx :| tx in h;
      var rest := h - multiset{tx};
      assert h == rest + multiset{tx};
      LiveSlotsPlus(rest, tx, live);
      NothingLive(rest, live);
    }
  }

  /** Every live transaction is held exactly once. */
  ghost predicate Once(h: Heap, live: set<Tx>) {
    forall tx | tx in live :: h[tx] == 1
  }

  lemma {:induction false} OnceIsSum(h: Heap, live: set<Tx>)
    requires Once(h, live)
    ensures LiveSlots(h, live) == SumSlots(live)
    decreases live
  {
    if live == {} {
      NothingLive(h, live);
    } else {
      var tx :| tx in live;
      var rest := h - multiset{tx};
      assert h == rest + multiset{tx};
      LiveSlotsPlus(rest, tx, live);
      Fewer(rest, live, tx);
      OnceIsSum(rest, live - {tx});
      SumSlotsWithout(live, tx);
    }
  }

  /** Every live transaction is held at least once. */
  ghost predicate Held(h: Heap, live: set<Tx>) {
    forall tx | tx in live :: h[tx] >= 1
  }

  lemma {:induction false} HeldAtLeastSum(h: Heap, live: set<Tx>)
    requires Held(h, live)
    ensures LiveSlots(h, live) >= SumSlots(live)
    decreases |h|
  {
    hide LiveSlots, SumSlots;
    if Once(h, live) {
      OnceIsSum(h, live);
    } else {
      var tx :| tx in live && h[tx] >= 2;
      HeldTwiceCounts(h, live, tx);
    }
  }

  /** A second entry counts on top. */
  lemma {:induction false} HeldTwiceCounts(h: Heap, live: set<Tx>, tx: Tx)
    requires Held(h, live) && tx in live && h[tx] >= 2
    ensures LiveSlots(h, live) >= SumSlots(live) + NumSlots(tx)
    decreases |h|, 0
  {
    hide LiveSlots, SumSlots;
    var rest := h - multiset{tx};
    assert h == rest + multiset{tx};
    LiveSlotsPlus(rest, tx, live);
    HeldAtLeastSum(rest, live);
  }

  /** The live entries occupy no more than the remotes exactly when each is held once. */
  lemma SlotsMatchIffOnce(h: Heap, live: set<Tx>)
    requires Held(h, live) && forall tx | tx in live :: NumSlots(tx) > 0
    ensures LiveSlots(h, live) == SumSlots(live) <==> Once(h, live)
  {
    hide NumSlots, LiveSlots, SumSlots;
    if Once(h, live) {
      OnceIsSum(h, live);
    } else {
      var tx :| tx in live && h[tx] >= 2;
      HeldTwiceCounts(h, live, tx);
    }
  }

  /** What Discard grants without force. */
  ghost predicate Granted(h: Heap, live: set<Tx>, slots: int) {
    slots <= LiveSlots(h, live)
  }

  /** What evicting remotes, at most all of them, can free. */
  ghost predicate Available(live: set<Tx>, slots: int) {
    slots <= SumSlots(live)
  }

  /** All that is granted can be honoured if and only if each remote is held once. */
  lemma GrantsAreRealIff(h: Heap, live: set<Tx>)
    requires Held(h, live) && forall tx | tx in live :: NumSlots(tx) > 0
    ensures (forall slots: int :: Granted(h, live, slots) ==> Available(live, slots)) <==> Once(h, live)
  {
    hide NumSlots, LiveSlots, SumSlots;
    SlotsMatchIffOnce(h, live);
    HeldAtLeastSum(h, live);
    assert Granted(h, live, LiveSlots(h, live));
  }

  lemma {:induction false} Fewer(h: Heap, live: set<Tx>, gone: Tx)
    requires gone !in h
    ensures LiveSlots(h, live) == LiveSlots(h, live - {gone})
    decreases |h|
  {
    if |h| > 0 {
      var tx :| tx in h;
      var rest := h - multiset{tx};
      assert h == rest + multiset{tx};
      LiveSlotsPlus(rest, tx, live);
      LiveSlotsPlus(rest, tx, live - {gone});
      Fewer(rest, live, gone);
    }
  }

  /** A list without repetition occupies what its set occupies. */
  lemma {:induction false} DistinctSum(txs: seq<Tx>)
    requires forall tx | tx in txs :: multiset(txs)[tx] == 1
    ensures SeqSlots(txs) == SumSlots(Members(txs))
    decreases |txs|
  {
    if txs != [] {
      var front, last := txs[..|txs| - 1], txs[|txs| - 1];
      assert txs == front + [last];
      assert multiset(txs) == multiset(front) + multiset{last};
      assert last !in front by {
        assert last in txs;
        assert last in front ==> last in multiset(front);
      }
      forall tx | tx in front
        ensures multiset(front)[tx] == 1
      {
        assert tx in txs && tx in multiset(front);
      }
      DistinctSum(front);
      var s := Members(txs);
      SumSlotsWithout(s, last);
      assert s - {last} == Members(front);
    }
  }

  // ---------- the list ----------

  datatype Op =
    | Track(tx: Tx, local: bool)
    | Untrack(tx: Tx)
    | Forget(txs: seq<Tx>)
    | UntrackBatch(txs: seq<Tx>, count: nat)
    | Migrate(accounts: set<Addr>)
    | CheckPrice(tx: Tx)
    | MakeRoom(slots: int, force: bool)
    | SetBaseFee(fee: BaseFee)

  class PricedList {
    var all: Lookup
    var urgent: Heap
    var floating: Heap
    var urgentFee: BaseFee
    var stales: int

    ghost predicate Covers()
      reads this
    {
      forall tx | tx in all.remotes :: tx in urgent || tx in floating
    }

    constructor ()
      ensures Covers() && all == EMPTY && urgent == multiset{} && floating == multiset{}
      ensures stales == 0 && urgentFee == NoFee
    {
      all, urgent, floating, urgentFee, stales := EMPTY, multiset{}, multiset{}, NoFee, 0;
    }

    method Put(tx: Tx, local: bool)
      modifies this`urgent
      ensures urgent == if local then old(urgent) else old(urgent) + multiset{tx}
    {
      if local {
        return;
      }
      urgent := urgent + multiset{tx};
    }

    /** Rebuilds both heaps from the remotes; the cheapest fifth floats. */
    method Reheap()
      modifies this`urgent, this`floating, this`stales
      ensures stales == 0 && urgent + floating == multiset(all.remotes) && |floating| == |all.remotes| / 5
      ensures forall low, high | low in floating && high in urgent :: !Less(urgentFee, high, low)
    {
      stales := 0;
      urgent := multiset(all.remotes);
      var floatingCount := |urgent| * FLOATING_RATIO / (URGENT_RATIO + FLOATING_RATIO);
      floating := multiset{};
      for i := 0 to floatingCount
        invariant stales == 0 && urgent + floating == multiset(all.remotes) && |floating| == i && |urgent| + i == |all.remotes|
        invariant forall low, high | low in floating && high in urgent :: !Less(urgentFee, high, low)
      {
        ghost var before := urgent;
        var tx;
        tx, urgent := Pop(urgent, urgentFee);
        assert forall high | high in urgent :: high in before;
        floating := floating + multiset{tx};
      }
    }

    method Removed(count: nat)
      modifies this`urgent, this`floating, this`stales
      ensures old(Covers()) ==> Covers()
      ensures if old(stales) + count <= (|old(urgent)| + |old(floating)|) / 4
        then urgent == old(urgent) && floating == old(floating) && stales == old(stales) + count
        else stales == 0 && urgent + floating == multiset(all.remotes)
    {
      stales := stales + count;
      if stales <= (|urgent| + |floating|) / 4 {
        return;
      }
      Reheap();
      AllHeld(all.remotes, urgent, floating);
    }

    static lemma AllHeld(live: set<Tx>, a: Heap, b: Heap)
      requires a + b == multiset(live)
      ensures forall tx | tx in live :: tx in a || tx in b
    {
      forall tx | tx in live
        ensures tx in a || tx in b
      {
        assert tx in a + b;
      }
    }

    /** Drops stale entries from the front of a heap: live entries stay, and then a least entry is live. */
    method Prune(h0: Heap, fee: BaseFee) returns (h: Heap, head: Tx)
      modifies this`stales
      ensures forall tx | tx in all.remotes :: h[tx] == h0[tx]
      ensures h <= h0
      ensures |h| > 0 ==> head in all.remotes && IsLeast(fee, h, head)
      ensures |h| == 0 ==> forall tx | tx in all.remotes :: tx !in h0
    {
      h := h0;
      head := Tx(0, 0, 0, 0, 0, 0, 0, 0);
      while |h| > 0
        invariant forall tx | tx in all.remotes :: h[tx] == h0[tx]
        invariant h <= h0
        decreases |h|
      {
        var rest;
        head, rest := Pop(h, fee);
        if head in all.remotes {
          break;
        }
        stales := stales - 1;
        h := rest;
      }
    }

    ghost predicate Cheaper(fee: BaseFee, h: Heap, tx: Tx)
      reads this
    {
      exists other :: other in all.remotes && other in h && Cmp(fee, other, tx) < 0
    }

    static lemma CheapestDecides(fee: BaseFee, h: Heap, head: Tx, tx: Tx)
      requires IsLeast(fee, h, head)
      ensures Cmp(fee, head, tx) >= 0 ==> forall other | other in h :: Cmp(fee, other, tx) >= 0
    {
      forall other | other in h && Cmp(fee, head, tx) >= 0
        ensures Cmp(fee, other, tx) >= 0
      {
        LessIsOrder(fee, head, tx, other);
      }
    }

    method UnderpricedFor(h0: Heap, fee: BaseFee, tx: Tx) returns (h: Heap, under: bool)
      modifies this`stales
      ensures forall t | t in all.remotes :: h[t] == h0[t]
      ensures |h| > 0 <==> exists t :: t in all.remotes && t in h0
      ensures under <==> |h| > 0 && !Cheaper(fee, h0, tx)
    {
      var head;
      h, head := Prune(h0, fee);
      if |h| == 0 {
        return h, false;
      }
      CheapestDecides(fee, h, head, tx);
      under := Cmp(fee, head, tx) >= 0;
      assert head in h0 by { assert h[head] == h0[head]; }
      forall t | t in all.remotes && t in h0
        ensures t in h
      {
        assert h[t] == h0[t];
      }
      assert !under ==> Cheaper(fee, h0, tx);
    }

    /**
     A transaction is underpriced exactly when remotes exist and neither heap holds one that
     pays less; stale entries have no say.
     */
    method Underpriced(tx: Tx) returns (under: bool)
      requires Covers()
      modifies this`urgent, this`floating, this`stales
      ensures Covers()
      ensures forall t | t in all.remotes :: urgent[t] == old(urgent)[t] && floating[t] == old(floating)[t]
      ensures under <==>
        && all.remotes != {}
        && (forall t | t in all.remotes && t in old(floating) ::
              tx.feeCap < t.feeCap || (tx.feeCap == t.feeCap && tx.tipCap <= t.tipCap))
        && (forall t | t in all.remotes && t in old(urgent) ::
              var s, s' := if urgentFee.Fee? then Lower(tx.tipCap, tx.feeCap - urgentFee.value) else 0,
                           if urgentFee.Fee? then Lower(t.tipCap, t.feeCap - urgentFee.value) else 0;
              s < s' || (s == s' && (tx.feeCap < t.feeCap || (tx.feeCap == t.feeCap && tx.tipCap <= t.tipCap))))
    {
      hide Cheaper, Lower;
      InPrices(urgent, floating, tx);
      under := UnderpricedForBoth(tx);
    }

    method UnderpricedForBoth(tx: Tx) returns (under: bool)
      requires Covers()
      modifies this`urgent, this`floating, this`stales
      ensures Covers()
      ensures forall t | t in all.remotes :: urgent[t] == old(urgent)[t] && floating[t] == old(floating)[t]
      ensures under <==>
        && all.remotes != {}
        && old(!Cheaper(urgentFee, urgent, tx)) && old(!Cheaper(NoFee, floating, tx))
    {
      hide Cmp;
      var u, f := false, false;
      urgent, u := UnderpricedFor(urgent, urgentFee, tx);
      if !u && |urgent| != 0 {
        KeepsCover(all.remotes, old(urgent), old(floating), urgent, floating);
        return false;
      }
      floating, f := UnderpricedFor(floating, NoFee, tx);
      KeepsCover(all.remotes, old(urgent), old(floating), urgent, floating);
      under := (f || |floating| == 0) && (|urgent| != 0 || |floating| != 0);
    }

    lemma InPrices(u: Heap, f: Heap, tx: Tx)
      ensures !Cheaper(NoFee, f, tx) <==>
        forall t | t in all.remotes && t in f :: tx.feeCap < t.feeCap || (tx.feeCap == t.feeCap && tx.tipCap <= t.tipCap)
      ensures !Cheaper(urgentFee, u, tx) <==>
        forall t | t in all.remotes && t in u ::
          var s, s' := if urgentFee.Fee? then Lower(tx.tipCap, tx.feeCap - urgentFee.value) else 0,
                       if urgentFee.Fee? then Lower(t.tipCap, t.feeCap - urgentFee.value) else 0;
          s < s' || (s == s' && (tx.feeCap < t.feeCap || (tx.feeCap == t.feeCap && tx.tipCap <= t.tipCap)))
    {
      forall t
        ensures Cmp(NoFee, t, tx) < 0 <==> t.feeCap < tx.feeCap || (t.feeCap == tx.feeCap && t.tipCap < tx.tipCap)
        ensures urgentFee.Fee? ==>
          var s, s' := Lower(tx.tipCap, tx.feeCap - urgentFee.value), Lower(t.tipCap, t.feeCap - urgentFee.value);
          (Cmp(urgentFee, t, tx) < 0 <==> s' < s || (s == s' && Cmp(NoFee, t, tx) < 0))
      {
        LessByCap(t, tx);
        if urgentFee.Fee? { LessByTip(urgentFee.value, t, tx); }
      }
      hide Cmp, EffectiveTip, Lower;
    }

    static lemma KeepsCover(live: set<Tx>, a: Heap, b: Heap, a': Heap, b': Heap)
      requires forall t | t in live :: t in a || t in b
      requires forall t | t in live :: a[t] + b[t] == a'[t] + b'[t]
      ensures forall t | t in live :: t in a' || t in b'
    {
      forall t | t in live
        ensures t in a' || t in b'
      {
        assert a'[t] + b'[t] > 0;
      }
    }

    /** The worst urgent entry moves to the floating heap, or is thrown away when stale. */
    method DemoteUrgent(ghost u0: Heap, ghost f0: Heap, ghost drop: seq<Tx>)
      requires |urgent| > 0 && Balanced(u0 + f0, urgent + floating, drop, all.remotes)
      requires Cheapest(u0, f0, urgent, floating, drop, urgentFee)
      modifies this`urgent, this`floating, this`stales
      ensures Balanced(u0 + f0, urgent + floating, drop, all.remotes)
      ensures Cheapest(u0, f0, urgent, floating, drop, urgentFee)
      ensures 2 * |urgent| + |floating| < 2 * |old(urgent)| + |old(floating)|
    {
      hide Balanced, Cheapest, IsLeast;
      var tx;
      tx, urgent := Pop(urgent, urgentFee);
      Shift(urgent, floating, tx);
      CheapestDemoted(u0, f0, urgent, floating, drop, urgentFee, tx);
      if tx !in all.remotes {
        BalancedStale(u0 + f0, urgent + floating, drop, all.remotes, tx);
        stales := stales - 1;
      } else {
        floating := floating + multiset{tx};
      }
    }

    /** The worst floating entry, when it is live. */
    method TakeFloating(ghost u0: Heap, ghost f0: Heap, ghost drop: seq<Tx>) returns (taken: Option<Tx>)
      requires |floating| > 0 && Balanced(u0 + f0, urgent + floating, drop, all.remotes)
      requires Cheapest(u0, f0, urgent, floating, drop, urgentFee)
      modifies this`floating, this`stales
      ensures var drop' := if taken.Some? then drop + [taken.value] else drop;
        && Balanced(u0 + f0, urgent + floating, drop', all.remotes)
        && Cheapest(u0, f0, urgent, floating, drop', urgentFee)
      ensures |floating| < |old(floating)|
    {
      hide Balanced, Cheapest, IsLeast;
      var tx;
      tx, floating := Pop(floating, NoFee);
      Shift(urgent, floating, tx);
      CheapestTaken(u0, f0, urgent, floating, drop, urgentFee, tx);
      if tx !in all.remotes {
        BalancedStale(u0 + f0, urgent + floating, drop, all.remotes, tx);
        stales := stales - 1;
        return None;
      }
      BalancedDrop(u0 + f0, urgent + floating, drop, all.remotes, tx);
      return Some(tx);
    }

    /**
     Takes out cheap live remotes until the slots are found, and not one more.  Without
     force it succeeds exactly when the live entries occupy the slots asked for; on failure
     everything live is put back.  What came from the urgent heap is no better, in the urgent
     order, than what stays there; nothing dropped is better, in the floating order, than
     what was floating all along and stays.
     */
    method Discard(slots: int, force: bool) returns (drop: seq<Tx>, success: bool)
      modifies this`urgent, this`floating, this`stales
      ensures forall tx | tx in drop :: tx in all.remotes
      ensures forall tx | tx in all.remotes ::
        (urgent + floating)[tx] + multiset(drop)[tx] == old(urgent + floating)[tx]
      ensures success <==> force || Granted(old(urgent + floating), all.remotes, slots)
      ensures success && !force ==> SeqSlots(drop) >= slots
      ensures success && SeqSlots(drop) < slots ==> urgent + floating == multiset{}
      ensures drop != [] ==> SeqSlots(drop[..|drop| - 1]) < slots
      ensures !success ==> drop == []
      ensures forall d, x | d in drop && x in floating && x !in old(urgent) ::
        || d.feeCap < x.feeCap
        || (d.feeCap == x.feeCap && (d.tipCap < x.tipCap || (d.tipCap == x.tipCap && d.nonce >= x.nonce)))
      ensures forall d, x | d in drop && x in urgent && d !in old(floating) ::
        var s, t := if urgentFee.Fee? then Lower(d.tipCap, d.feeCap - urgentFee.value) else 0,
                    if urgentFee.Fee? then Lower(x.tipCap, x.feeCap - urgentFee.value) else 0;
        || s < t
        || (s == t && (d.feeCap < x.feeCap
             || (d.feeCap == x.feeCap && (d.tipCap < x.tipCap || (d.tipCap == x.tipCap && d.nonce >= x.nonce)))))
    {
      hide Cheapest, Lower, LiveSlots, SeqSlots, Granted;
      ghost var u0, f0 := urgent, floating;
      drop, success := DiscardLive(slots, force);
      if success { CheapestEnd(u0, f0, urgent, floating, drop, urgentFee); }
    }

    method DiscardLive(slots: int, force: bool) returns (drop: seq<Tx>, success: bool)
      modifies this`urgent, this`floating, this`stales
      ensures forall tx | tx in drop :: tx in all.remotes
      ensures forall tx | tx in all.remotes ::
        (urgent + floating)[tx] + multiset(drop)[tx] == old(urgent + floating)[tx]
      ensures success <==> force || Granted(old(urgent + floating), all.remotes, slots)
      ensures success && !force ==> SeqSlots(drop) >= slots
      ensures success && SeqSlots(drop) < slots ==> urgent + floating == multiset{}
      ensures drop != [] ==> SeqSlots(drop[..|drop| - 1]) < slots
      ensures !success ==> drop == []
      ensures success ==> Cheapest(old(urgent), old(floating), urgent, floating, drop, urgentFee)
    {
      hide Cheapest, Balanced, LiveSlots, SeqSlots, NumSlots;
      ghost var u0, f0 := urgent, floating;
      var left;
      drop, left := Collect(slots);
      BalancedEnd(u0 + f0, urgent + floating, drop, all.remotes);
      if left > 0 && !force {
        PutBack(urgent, floating, drop);
        urgent := urgent + multiset(drop);
        return [], false;
      }
      return drop, true;
    }

    /** Entries in order of price until they make the slots or the heaps are empty. */
    method Collect(slots: int) returns (drop: seq<Tx>, left: int)
      modifies this`urgent, this`floating, this`stales
      ensures left == slots - SeqSlots(drop) && (left > 0 ==> urgent + floating == multiset{})
      ensures Balanced(old(urgent + floating), urgent + floating, drop, all.remotes)
      ensures Cheapest(old(urgent), old(floating), urgent, floating, drop, urgentFee)
      ensures drop != [] ==> SeqSlots(drop[..|drop| - 1]) < slots
    {
      hide Cheapest, Less, Balanced, LiveSlots, SeqSlots, NumSlots;
      drop, left := [], slots;
      NoSlots();
      ghost var u0, f0 := urgent, floating;
      BalancedStart(u0 + f0, all.remotes);
      CheapestStart(u0, f0, urgentFee);
      while left > 0
        invariant left == slots - SeqSlots(drop) && Balanced(u0 + f0, urgent + floating, drop, all.remotes)
        invariant Cheapest(u0, f0, urgent, floating, drop, urgentFee)
        invariant drop != [] ==> SeqSlots(drop[..|drop| - 1]) < slots
        decreases 2 * |urgent| + |floating|
      {
        if |urgent| * FLOATING_RATIO > |floating| * URGENT_RATIO {
          DemoteUrgent(u0, f0, drop);
        } else {
          if |floating| == 0 {
            break;
          }
          var taken := TakeFloating(u0, f0, drop);
          if taken.Some? {
            SeqSlotsPlus(drop, taken.value);
            assert (drop + [taken.value])[..|drop|] == drop;
            drop := drop + [taken.value];
            left := left - NumSlots(taken.value);
          }
        }
      }
    }

    // ---------- the callers in tx_pool.go ----------

    ghost predicate Exact()
      reads this
    {
      Once(urgent + floating, all.remotes)
    }

    /** A new transaction: each remote is held once afterwards exactly when it left no stale entry behind earlier. */
    method Track(tx: Tx, local: bool)
      requires Covers() && all.Valid() && tx !in all.All()
      modifies this`all, this`urgent
      ensures Covers() && all.Valid() && all == old(all).Add(tx, local)
      ensures urgent == if local then old(urgent) else old(urgent) + multiset{tx}
      ensures Exact() <==> old(Exact()) && (local || tx !in old(urgent + floating))
    {
      all := all.Add(tx, local);
      Put(tx, local);
      assert forall t | t in old(all.remotes) :: (urgent + floating)[t] == old((urgent + floating)[t]);
    }

    /** A transaction leaves the pool; its entries become stale, unless that triggers a rebuild. */
    method Untrack(tx: Tx)
      requires Covers() && all.Valid()
      modifies this`all, this`urgent, this`floating, this`stales
      ensures Covers() && all.Valid() && all == old(all).Remove(tx)
      ensures old(Exact()) ==> Exact()
      ensures if old(stales) + 1 <= (|old(urgent)| + |old(floating)|) / 4
        then urgent == old(urgent) && floating == old(floating) && stales == old(stales) + 1
        else Exact()
    {
      all := all.Remove(tx);
      Removed(1);
    }

    /** Transactions leave the pool and the heaps are not told: what is left stays covered. */
    method Forget(txs: seq<Tx>)
      requires Covers() && all.Valid()
      modifies this`all
      ensures Covers() && all.Valid() && all.All() == old(all.All()) - Members(txs)
      ensures all.remotes <= old(all.remotes) && (old(Exact()) ==> Exact())
    {
      for i := 0 to |txs|
        invariant all.Valid() && all.remotes <= old(all.remotes) && all.All() == old(all.All()) - Members(txs[..i])
      {
        assert txs[..i + 1] == txs[..i] + [txs[i]];
        all := all.Remove(txs[i]);
      }
      assert txs[..|txs|] == txs;
    }

    /** Transactions leave the pool, and then one notice tells how many, rightly or not. */
    method UntrackBatch(txs: seq<Tx>, count: nat)
      requires Covers() && all.Valid()
      modifies this`all, this`urgent, this`floating, this`stales
      ensures Covers() && all.Valid() && all.All() == old(all.All()) - Members(txs)
      ensures old(Exact()) ==> Exact()
    {
      Forget(txs);
      Removed(count);
    }

    method Migrate(accounts: set<Addr>)
      requires Covers() && all.Valid()
      modifies this`all, this`urgent, this`floating, this`stales
      ensures Covers() && all.Valid() && all == old(all).RemoteToLocals(accounts)
    {
      var before := all.remotes;
      all := all.RemoteToLocals(accounts);
      Removed(|before - all.remotes|);
    }

    method SetBaseFee(fee: BaseFee)
      requires Covers()
      modifies this`urgentFee, this`urgent, this`floating, this`stales
      ensures Covers() && urgentFee == fee
      ensures old(urgentFee) != fee ==> Exact()
    {
      if urgentFee == NoFee || urgentFee != fee {
        urgentFee := fee;
        Reheap();
        AllHeld(all.remotes, urgent, floating);
      }
    }

    /**
     Evicts for a transaction that does not fit.  When every remote is held once the pool
     really shrinks by the slots asked for.
     */
    method MakeRoom(slots: int, force: bool) returns (drop: seq<Tx>, success: bool)
      requires Covers() && all.Valid()
      modifies this`all, this`urgent, this`floating, this`stales
      ensures Covers() && all.Valid()
      ensures all == Evicted(old(all), drop) && all.locals == old(all.locals) && forall tx | tx in drop :: tx in old(all.remotes)
      ensures success <==> force || Granted(old(urgent + floating), old(all.remotes), slots)
      ensures !success ==> drop == []
      ensures success && slots > 0 ==> (drop == [] <==> old(all.remotes) == {})
      ensures old(Exact()) ==> Exact() && all.slots == old(all.slots) - SeqSlots(drop)
      ensures old(Exact()) && success && !force ==> all.slots <= old(all.slots) - slots
    {
      hide LiveSlots, SeqSlots, NumSlots, SumSlots;
      drop, success := Discard(slots, force);
      ghost var held := urgent + floating;
      if drop == [] {
        NoSlots();
        assert forall tx | tx in all.remotes :: old(urgent + floating)[tx] > 0;
      }
      RoomMade(all, old(urgent + floating), held, drop);
      for i := 0 to |drop|
        invariant all == Evicted(old(all), drop[..i]) && urgent + floating == held
      {
        assert drop[..i + 1][..i] == drop[..i];
        all := all.Remove(drop[i]);
      }
      assert drop[..|drop|] == drop;
      assert all.locals == old(all.locals);
      assert all.All() == old(all.locals) + (old(all.remotes) - Members(drop));
    }

    /** After any run of these operations every remote is held by one of the two heaps. */
    method Run(ops: seq<Op>)
      requires Covers() && all.Valid()
      modifies this
      ensures Covers() && all.Valid()
    {
      for i := 0 to |ops|
        invariant Covers() && all.Valid()
      {
        match ops[i]
        case Track(tx, local) =>
          if tx !in all.locals && tx !in all.remotes {
            Track(tx, local);
          }
        case Untrack(tx) => Untrack(tx);
        case Forget(txs) => Forget(txs);
        case UntrackBatch(txs, count) => UntrackBatch(txs, count);
        case Migrate(accounts) => Migrate(accounts);
        case CheckPrice(tx) => var _ := Underpriced(tx);
        case MakeRoom(slots, force) => var _, _ := MakeRoom(slots, force);
        case SetBaseFee(fee) => SetBaseFee(fee);
      }
    }
  }

  /** Removing the dropped remotes keeps the rest covered, and frees their slots when each was held once. */
  lemma RoomMade(all: Lookup, before: Heap, held: Heap, drop: seq<Tx>)
    requires all.Valid()
    requires forall tx | tx in drop :: tx in all.remotes
    requires forall tx | tx in all.remotes :: held[tx] + multiset(drop)[tx] == before[tx]
    ensures var rest := all.remotes - Members(drop);
      && (forall tx | tx in rest :: held[tx] == before[tx])
      && (Once(before, all.remotes) ==> Once(held, rest) && SumSlots(all.locals + rest) == all.slots - SeqSlots(drop))
  {
    var dropped := Members(drop);
    forall tx | tx in all.remotes - dropped
      ensures held[tx] == before[tx]
    {
      assert tx !in multiset(drop);
    }
    if Once(before, all.remotes) {
      forall tx | tx in drop
        ensures multiset(drop)[tx] == 1
      {
        assert tx in multiset(drop);
      }
      DistinctSum(drop);
      SumSlotsMinus(all.All(), dropped);
      assert all.All() - dropped == all.locals + (all.remotes - dropped);
    }
  }

  lemma {:induction false} SumSlotsMinus(s: set<Tx>, gone: set<Tx>)
    requires gone <= s
    ensures SumSlots(s - gone) == SumSlots(s) - SumSlots(gone)
    decreases gone
  {
    if gone == {} {
      assert s - gone == s;
    } else {
      var tx :| tx in gone;
      SumSlotsMinus(s - {tx}, gone - {tx});
      SumSlotsWithout(s, tx);
      SumSlotsWithout(gone, tx);
      assert s - {tx} - (gone - {tx}) == s - gone;
    }
  }

  /** A remote that leaves and comes back before the next rebuild is held twice. */
  method HeldTwice(l: PricedList, tx: Tx)
    requires l.Covers() && l.all.Valid() && tx in l.all.remotes
    requires l.stales + 1 <= (|l.urgent| + |l.floating|) / 4
    modifies l
    ensures l.Covers() && l.all.Valid() && l.all.remotes == old(l.all.remotes) && !l.Exact()
  {
    assert tx in l.urgent + l.floating;
    l.Untrack(tx);
    l.Track(tx, false);
  }

  /**
   Whenever some remote is not held exactly once, a request for all that the live entries
   seem to occupy is granted, and the pool does not shrink that far.
   */
  method Overcount(l: PricedList, slots: int) returns (success: bool)
    requires l.Covers() && l.all.Valid() && !l.Exact() && forall tx | tx in l.all.remotes :: NumSlots(tx) > 0
    requires slots == LiveSlots(l.urgent + l.floating, l.all.remotes)
    modifies l
    ensures success && l.all.slots > old(l.all.slots) - slots
  {
    hide LiveSlots, SumSlots, NumSlots, SeqSlots, Once;
    ghost var held, remotes := l.urgent + l.floating, l.all.remotes;
    assert Held(held, remotes);
    SlotsMatchIffOnce(held, remotes);
    HeldAtLeastSum(held, remotes);
    SlotsSplit(l.all);
    var drop;
    drop, success := l.MakeRoom(slots, false);
    SlotsSplit(l.all);
  }

  lemma SlotsSplit(all: Lookup)
    requires all.Valid()
    ensures all.slots == SumSlots(all.locals) + SumSlots(all.remotes)
  {
    SumSlotsMinus(all.All(), all.remotes);
    assert all.All() - all.remotes == all.locals;
  }

  // ---------- what Discard conserves ----------

  /** Every live entry is still held or dropped, as often as before. */
  ghost predicate Balanced(before: Heap, held: Heap, drop: seq<Tx>, live: set<Tx>) {
    && (forall tx | tx in drop :: tx in live)
    && (forall tx | tx in live :: held[tx] + multiset(drop)[tx] == before[tx])
    && LiveSlots(held, live) + SeqSlots(drop) == LiveSlots(before, live)
  }

  lemma Shift(u: Heap, f: Heap, tx: Tx)
    ensures (u + multiset{tx}) + f == (u + f) + multiset{tx} == u + (f + multiset{tx})
  {
  }

  lemma PutBack(u: Heap, f: Heap, drop: seq<Tx>)
    ensures (u + multiset(drop)) + f == (u + f) + multiset(drop)
  {
  }

  lemma BalancedStart(before: Heap, live: set<Tx>)
    ensures Balanced(before, before, [], live) && SeqSlots([]) == 0
  {
  }

  lemma BalancedStale(before: Heap, held: Heap, drop: seq<Tx>, live: set<Tx>, tx: Tx)
    requires Balanced(before, held + multiset{tx}, drop, live) && tx !in live
    ensures Balanced(before, held, drop, live)
  {
    LiveSlotsPlus(held, tx, live);
  }

  lemma BalancedDrop(before: Heap, held: Heap, drop: seq<Tx>, live: set<Tx>, tx: Tx)
    requires Balanced(before, held + multiset{tx}, drop, live) && tx in live
    ensures Balanced(before, held, drop + [tx], live)
  {
    LiveSlotsPlus(held, tx, live);
    SeqSlotsPlus(drop, tx);
  }

  lemma BalancedEnd(before: Heap, held: Heap, drop: seq<Tx>, live: set<Tx>)
    requires Balanced(before, held, drop, live)
    ensures forall tx | tx in drop :: tx in live
    ensures forall tx | tx in live :: held[tx] + multiset(drop)[tx] == before[tx]
    ensures forall tx | tx in live :: (held + multiset(drop))[tx] == before[tx]
    ensures SeqSlots(drop) <= LiveSlots(before, live)
    ensures held == multiset{} ==> SeqSlots(drop) == LiveSlots(before, live)
  {
  }

  // ---------- what Discard prefers ----------

  /**
   What left the urgent heap is not above what stays in it; all that floats or is dropped
   was floating or has left the urgent heap; nothing dropped is above what has been floating
   from the start.
   */
  ghost predicate Cheapest(u0: Heap, f0: Heap, u: Heap, f: Heap, drop: seq<Tx>, fee: BaseFee) {
    && u <= u0
    && (forall x, y | x in u && u[y] < u0[y] :: !Less(fee, x, y))
    && (forall y | y in f :: y in f0 || u[y] < u0[y])
    && (forall y | y in drop :: y in f0 || u[y] < u0[y])
    && (forall d, x | d in drop && x in f && x !in u0 :: !Less(NoFee, x, d))
  }

  lemma CheapestStart(u: Heap, f: Heap, fee: BaseFee)
    ensures Cheapest(u, f, u, f, [], fee)
  {
  }

  lemma CheapestDemoted(u0: Heap, f0: Heap, u: Heap, f: Heap, drop: seq<Tx>, fee: BaseFee, tx: Tx)
    requires Cheapest(u0, f0, u + multiset{tx}, f, drop, fee) && IsLeast(fee, u + multiset{tx}, tx)
    ensures Cheapest(u0, f0, u, f, drop, fee) && Cheapest(u0, f0, u, f + multiset{tx}, drop, fee)
  {
    hide Less;
    forall x, y | x in u && u[y] < u0[y]
      ensures !Less(fee, x, y)
    {
      assert x in u + multiset{tx};
      assert y == tx || (u + multiset{tx})[y] == u[y];
    }
  }

  lemma CheapestTaken(u0: Heap, f0: Heap, u: Heap, f: Heap, drop: seq<Tx>, fee: BaseFee, tx: Tx)
    requires Cheapest(u0, f0, u, f + multiset{tx}, drop, fee) && IsLeast(NoFee, f + multiset{tx}, tx)
    ensures Cheapest(u0, f0, u, f, drop, fee) && Cheapest(u0, f0, u, f, drop + [tx], fee)
  {
    hide Less;
    assert forall x | x in f :: x in f + multiset{tx};
    assert tx in f + multiset{tx};
  }

  /** Nothing dropped is better than what stays, in prices. */
  lemma CheapestEnd(u0: Heap, f0: Heap, u: Heap, f: Heap, drop: seq<Tx>, fee: BaseFee)
    requires Cheapest(u0, f0, u, f, drop, fee)
    ensures forall d, x | d in drop && x in f && x !in u0 ::
      || d.feeCap < x.feeCap
      || (d.feeCap == x.feeCap && (d.tipCap < x.tipCap || (d.tipCap == x.tipCap && d.nonce >= x.nonce)))
    ensures forall d, x | d in drop && x in u && d !in f0 ::
      var s, t := if fee.Fee? then Lower(d.tipCap, d.feeCap - fee.value) else 0,
                  if fee.Fee? then Lower(x.tipCap, x.feeCap - fee.value) else 0;
      || s < t
      || (s == t && (d.feeCap < x.feeCap
           || (d.feeCap == x.feeCap && (d.tipCap < x.tipCap || (d.tipCap == x.tipCap && d.nonce >= x.nonce)))))
  {
    hide Less, Lower;
    forall d, x
      ensures !Less(NoFee, x, d) <==>
        || d.feeCap < x.feeCap
        || (d.feeCap == x.feeCap && (d.tipCap < x.tipCap || (d.tipCap == x.tipCap && d.nonce >= x.nonce)))
      ensures fee.Fee? ==>
        var s, t := Lower(d.tipCap, d.feeCap - fee.value), Lower(x.tipCap, x.feeCap - fee.value);
        (!Less(fee, x, d) <==> s < t || (s == t && !Less(NoFee, x, d)))
    {
      LessByCap(x, d);
      if fee.Fee? { LessByTip(fee.value, x, d); }
    }
  }
}
