/**
 The weighted median of claimed times (vecmt/median_time.go), and how far a coalition of
 validators can move it.
 */
module MedianTime {
  import opened Totals

  /** What an event has observed of one validator: its weight, the time it claimed, its last sequence number. */
  datatype Observed = Observed(weight: nat, time: nat, sequence: nat, forked: bool)

  datatype Entry = Entry(weight: nat, time: nat)

  /** Cheaters have no weight; validators not seen yet claim the default time. */
  function EntryOf(o: Observed, defaultTime: nat): Entry {
    if o.forked then Entry(0, o.time) else Entry(o.weight, if o.sequence == 0 then defaultTime else o.time)
  }

  function Entries(observed: seq<Observed>, defaultTime: nat): (s: seq<Entry>)
    ensures |s| == |observed|
  {
    seq(|observed|, i requires 0 <= i < |observed| => EntryOf(observed[i], defaultTime))
  }

  function Prefix(s: seq<Entry>, k: nat): nat
    requires k <= |s|
  {
    if k == 0 then 0 else Prefix(s, k - 1) + s[k - 1].weight
  }

  function Total(s: seq<Entry>): nat {
    Prefix(s, |s|)
  }

  // ---------- the median, without sorting ----------

  /** The weight of those that claim at most the time. */
  function WeightUpTo(s: seq<Entry>, time: nat): nat {
    if s == [] then 0 else
      var last := |s| - 1;
      WeightUpTo(s[..last], time) + if s[last].time <= time then s[last].weight else 0
  }

  ghost predicate Claimed(s: seq<Entry>, time: nat) {
    exists i :: 0 <= i < |s| && s[i].time == time
  }

  /** The least claimed time at which the weight reaches half. */
  ghost predicate IsMedian(s: seq<Entry>, half: nat, m: nat) {
    && Claimed(s, m) && WeightUpTo(s, m) >= half
    && forall i | 0 <= i < |s| && s[i].time < m :: WeightUpTo(s, s[i].time) < half
  }

  lemma MedianIsUnique(s: seq<Entry>, half: nat, a: nat, b: nat)
    requires IsMedian(s, half, a) && IsMedian(s, half, b)
    ensures a == b
  {
    var i :| 0 <= i < |s| && s[i].time == a;
    var j :| 0 <= j < |s| && s[j].time == b;
    assert !(s[i].time < b) && !(s[j].time < a);
  }

  lemma {:induction false} WeightConcat(a: seq<Entry>, b: seq<Entry>, t: nat)
    ensures WeightUpTo(a + b, t) == WeightUpTo(a, t) + WeightUpTo(b, t)
    decreases |b|
  {
    if b == [] {
      assert a + b == a;
    } else {
      var last := |b| - 1;
      WeightConcat(a, b[..last], t);
      assert (a + b)[..|a + b| - 1] == a + b[..last];
    }
  }

  /** The order of the entries does not matter. */
  lemma {:induction false} WeightOfPermutation(a: seq<Entry>, b: seq<Entry>, t: nat)
    requires multiset(a) == multiset(b)
    ensures WeightUpTo(a, t) == WeightUpTo(b, t)
    decreases |a|
  {
    hide WeightUpTo;
    assert |a| == |multiset(a)| == |multiset(b)| == |b|;
    if a == [] {
      assert b == a;
    } else {
      var last := |a| - 1;
      var x := a[last];
      assert a == a[..last] + [x];
      assert x in multiset(b);
      var k :| 0 <= k < |b| && b[k] == x;
      var rest := b[..k] + b[k + 1..];
      assert multiset(a[..last]) == multiset(rest) by { Removed(a, b, k); }
      WeightOfPermutation(a[..last], rest, t);
      WeightConcat(a[..last], [x], t);
      WeightConcat(b[..k], b[k + 1..], t);
      WeightConcat(b[..k], [x], t);
      WeightConcat(b[..k] + [x], b[k + 1..], t);
      assert b == b[..k] + [x] + b[k + 1..];
    }
  }

  lemma Cut(s: seq<Entry>, k: nat)
    requires k <= |s|
    ensures multiset(s) == multiset(s[..k]) + multiset(s[k..])
  {
    assert s == s[..k] + s[k..];
  }

  lemma TakenOut(s: seq<Entry>, k: nat)
    requires k < |s|
    ensures multiset(s) == multiset(s[..k]) + multiset(s[k + 1..]) + multiset{s[k]}
  {
    Cut(s, k);
    assert s[k..] == [s[k]] + s[k + 1..];
  }

  lemma Removed(a: seq<Entry>, b: seq<Entry>, k: nat)
    requires multiset(a) == multiset(b) && a != [] && k < |b| && b[k] == a[|a| - 1]
    ensures multiset(a[..|a| - 1]) == multiset(b[..k] + b[k + 1..])
  {
    var last := |a| - 1;
    TakenOut(a, last);
    TakenOut(b, k);
    assert multiset(a[last + 1..]) == multiset{};
    Same(multiset(a[..last]), multiset(b[..k]) + multiset(b[k + 1..]), b[k]);
  }

  lemma Same(a: multiset<Entry>, b: multiset<Entry>, e: Entry)
    requires a + multiset{e} == b + multiset{e}
    ensures a == b
  {
    assert a == (a + multiset{e}) - multiset{e};
    assert b == (b + multiset{e}) - multiset{e};
  }

  lemma MedianOfPermutation(a: seq<Entry>, b: seq<Entry>, half: nat, m: nat)
    requires multiset(a) == multiset(b) && IsMedian(a, half, m)
    ensures IsMedian(b, half, m)
  {
    hide WeightUpTo;
    var i :| 0 <= i < |a| && a[i].time == m;
    assert a[i] in multiset(b);
    var k :| 0 <= k < |b| && b[k] == a[i];
    WeightOfPermutation(a, b, m);
    forall j | 0 <= j < |b| && b[j].time < m
      ensures WeightUpTo(b, b[j].time) < half
    {
      assert b[j] in multiset(a);
      var l :| 0 <= l < |a| && a[l] == b[j];
      WeightOfPermutation(a, b, b[j].time);
    }
  }

  // ---------- the median, by walking a sorted list ----------

  ghost predicate Sorted(s: seq<Entry>) {
    forall i, j | 0 <= i < j < |s| :: s[i].time <= s[j].time
  }

  lemma {:induction false} PrefixIsBelow(s: seq<Entry>, k: nat, t: nat)
    requires k <= |s|
    ensures (forall j | 0 <= j < k :: s[j].time <= t) ==> Prefix(s, k) <= WeightUpTo(s, t)
    ensures (forall j | k <= j < |s| :: s[j].time > t) ==> WeightUpTo(s, t) <= Prefix(s, k)
    decreases |s|
  {
    if s != [] {
      var last := |s| - 1;
      PrefixOfPrefix(s, if k < |s| then k else last);
      PrefixIsBelow(s[..last], if k < |s| then k else last, t);
    }
  }

  lemma {:induction false} PrefixOfPrefix(s: seq<Entry>, k: nat)
    requires k < |s|
    ensures Prefix(s[..|s| - 1], k) == Prefix(s, k)
    decreases k
  {
    if k > 0 { PrefixOfPrefix(s, k - 1); }
  }

  lemma StopIsMedian(s: seq<Entry>, half: nat, i: nat)
    requires Sorted(s) && i < |s| && Prefix(s, i + 1) >= half && (i > 0 ==> Prefix(s, i) < half)
    ensures IsMedian(s, half, s[i].time)
  {
    var m := s[i].time;
    PrefixIsBelow(s, i + 1, m);
    forall j | 0 <= j < |s| && s[j].time < m
      ensures WeightUpTo(s, s[j].time) < half
    {
      assert j < i;
      PrefixIsBelow(s, i, s[j].time);
    }
  }

  lemma {:induction false} PrefixGrows(s: seq<Entry>, k: nat, n: nat)
    requires k <= n <= |s|
    ensures Prefix(s, k) <= Prefix(s, n)
    decreases n
  {
    if k < n { PrefixGrows(s, k, n - 1); }
  }

  method Insert(s: seq<Entry>, e: Entry) returns (r: seq<Entry>)
    requires Sorted(s)
    ensures Sorted(r) && multiset(r) == multiset(s) + multiset{e}
  {
    var k := 0;
    while k < |s| && s[k].time <= e.time
      invariant 0 <= k <= |s| && forall i | 0 <= i < k :: s[i].time <= e.time
    {
      k := k + 1;
    }
    r := s[..k] + [e] + s[k..];
    Cut(s, k);
  }

  /** sort.Slice by time; equal times may come in any order. */
  method Sort(s: seq<Entry>) returns (r: seq<Entry>)
    ensures Sorted(r) && multiset(r) == multiset(s)
  {
    r := [];
    for i := 0 to |s|
      invariant Sorted(r) && multiset(r) == multiset(s[..i])
    {
      assert s[..i + 1] == s[..i] + [s[i]];
      r := Insert(r, s[i]);
    }
    assert s[..|s|] == s;
  }

  lemma {:induction false} TotalOfPermutation(a: seq<Entry>, b: seq<Entry>, top: nat)
    requires multiset(a) == multiset(b) && forall e | e in a :: e.time <= top
    ensures Total(a) == Total(b)
  {
    forall e | e in b
      ensures e.time <= top
    {
      assert e in multiset(a);
    }
    PrefixIsBelow(a, |a|, top);
    PrefixIsBelow(b, |b|, top);
    WeightOfPermutation(a, b, top);
  }

  lemma {:induction false} Highest(s: seq<Entry>) returns (top: nat)
    ensures forall e | e in s :: e.time <= top
  {
    if s == [] {
      top := 0;
    } else {
      var last := |s| - 1;
      var t := Highest(s[..last]);
      top := if t < s[last].time then s[last].time else t;
      assert s == s[..last] + [s[last]];
    }
  }

  /**
   The median of the claimed times by honest weight; the final sanity check never fails.
   Without validators the result is zero.
   */
  method MedianTime(observed: seq<Observed>, defaultTime: nat) returns (median: nat, crit: bool)
    ensures !crit
    ensures var s := Entries(observed, defaultTime);
      if s == [] then median == 0 else IsMedian(s, Total(s) / 2, median)
  {
    hide WeightUpTo, IsMedian;
    var honestTotalWeight := 0;
    var highests: seq<Entry> := [];
    ghost var s := Entries(observed, defaultTime);
    for i := 0 to |observed|
      invariant highests == s[..i] && honestTotalWeight == Prefix(s, i)
    {
      var highest := Entry(observed[i].weight, observed[i].time);
      if observed[i].forked {
        highest := highest.(weight := 0);
      } else if observed[i].sequence == 0 {
        highest := highest.(time := defaultTime);
      }
      highests := highests + [highest];
      honestTotalWeight := honestTotalWeight + highest.weight;
    }
    assert highests == s;
    var sorted := Sort(highests);
    assert |sorted| == |multiset(sorted)| == |multiset(s)| == |s|;
    ghost var top := Highest(s);
    TotalOfPermutation(s, sorted, top);
    var halfWeight := honestTotalWeight / 2;
    var currWeight := 0;
    median := 0;
    var found := false;
    var i := 0;
    while i < |sorted| && !found
      invariant 0 <= i <= |sorted| && currWeight == Prefix(sorted, i)
      invariant found ==> i > 0 && IsMedian(s, halfWeight, median) && currWeight >= halfWeight
      invariant !found ==> median == 0 && (i > 0 ==> currWeight < halfWeight)
      decreases |sorted| - i, !found
    {
      currWeight := currWeight + sorted[i].weight;
      if currWeight >= halfWeight {
        median := sorted[i].time;
        StopIsMedian(sorted, halfWeight, i);
        MedianOfPermutation(sorted, s, halfWeight, median);
        found := true;
      }
      i := i + 1;
    }
    PrefixGrows(sorted, i, |sorted|);
    crit := currWeight < halfWeight || currWeight > honestTotalWeight;
  }

  // ---------- who decides ----------

  /** The weight of the validators in the set. */
  function CoalitionWeight(s: seq<Entry>, who: set<nat>): nat {
    if s == [] then 0 else
      var last := |s| - 1;
      CoalitionWeight(s[..last], who) + if last in who then s[last].weight else 0
  }

  lemma {:induction false} SomeoneOutside(s: seq<Entry>, who: set<nat>, t: nat) returns (i: nat)
    requires WeightUpTo(s, t) > CoalitionWeight(s, who)
    ensures i < |s| && i !in who && s[i].weight > 0 && s[i].time <= t
  {
    var last := |s| - 1;
    if last !in who && s[last].time <= t && s[last].weight > 0 {
      i := last;
    } else {
      i := SomeoneOutside(s[..last], who, t);
    }
  }

  lemma {:induction false} OutsidersCount(s: seq<Entry>, who: set<nat>, t: nat)
    requires forall i: nat | i < |s| && i !in who :: s[i].time <= t
    ensures WeightUpTo(s, t) + CoalitionWeight(s, who) >= Total(s)
  {
    if s != [] {
      var last := |s| - 1;
      OutsidersCount(s[..last], who, t);
      PrefixOfPrefix(s, last);
    }
  }

  /** A time held up by weight: with half above zero, someone honest claims the median. */
  lemma MedianIsHonest(s: seq<Entry>, half: nat, m: nat) returns (i: nat)
    requires IsMedian(s, half, m) && half > 0
    ensures i < |s| && s[i].time == m && s[i].weight > 0
  {
    hide WeightUpTo;
    if forall j | 0 <= j < |s| && s[j].time == m :: s[j].weight == 0 {
      var t := Predecessor(s, m);
      if exists j :: 0 <= j < |s| && s[j].time < m && s[j].time == t {
        SameWeight(s, t, m);
      } else {
        NothingBelow(s, m);
      }
      assert false;
    } else {
      i :| 0 <= i < |s| && s[i].time == m && s[i].weight > 0;
    }
  }

  /** The highest claimed time below m, if there is one. */
  lemma {:induction false} Predecessor(s: seq<Entry>, m: nat) returns (t: nat)
    ensures (forall j | 0 <= j < |s| :: s[j].time >= m) || exists j :: 0 <= j < |s| && s[j].time < m && s[j].time == t
    ensures forall j | 0 <= j < |s| && s[j].time < m :: s[j].time <= t
  {
    if s == [] {
      t := 0;
    } else {
      var last := |s| - 1;
      var front := s[..last];
      var u := Predecessor(front, m);
      assert forall j | 0 <= j < last :: s[j] == front[j];
      if forall j | 0 <= j < last :: front[j].time >= m {
        t := s[last].time;
      } else {
        t := if s[last].time < m && s[last].time > u then s[last].time else u;
        var j :| 0 <= j < |front| && front[j].time < m && front[j].time == u;
        assert s[j].time == u;
      }
    }
  }

  lemma {:induction false} SameWeight(s: seq<Entry>, t: nat, m: nat)
    requires t < m && forall j | 0 <= j < |s| :: s[j].time <= t || s[j].time > m || s[j].weight == 0
    ensures WeightUpTo(s, t) == WeightUpTo(s, m)
  {
    if s != [] { SameWeight(s[..|s| - 1], t, m); }
  }

  lemma {:induction false} NothingBelow(s: seq<Entry>, m: nat)
    requires forall j | 0 <= j < |s| :: s[j].time > m || s[j].weight == 0
    ensures WeightUpTo(s, m) == 0
  {
    if s != [] { NothingBelow(s[..|s| - 1], m); }
  }

  /** A coalition lighter than half cannot pull the median below everyone else. */
  lemma NotBelowTheRest(s: seq<Entry>, half: nat, m: nat, coalition: set<nat>) returns (i: nat)
    requires IsMedian(s, half, m) && CoalitionWeight(s, coalition) < half
    ensures i < |s| && i !in coalition && s[i].weight > 0 && s[i].time <= m
  {
    i := SomeoneOutside(s, coalition, m);
  }

  /** When the others weigh at least half, it cannot push the median above all of them. */
  lemma NotAboveTheRest(s: seq<Entry>, half: nat, m: nat, coalition: set<nat>, other: nat) returns (i: nat)
    requires IsMedian(s, half, m) && Total(s) - CoalitionWeight(s, coalition) >= half
    requires other < |s| && other !in coalition
    ensures i < |s| && i !in coalition && m <= s[i].time
  {
    i := LatestOutside(s, coalition, other);
    if s[i].time < m {
      OutsidersCount(s, coalition, s[i].time);
    }
  }

  lemma {:induction false} LatestOutside(s: seq<Entry>, coalition: set<nat>, other: nat) returns (i: nat)
    requires other < |s| && other !in coalition
    ensures i < |s| && i !in coalition && forall j: nat | j < |s| && j !in coalition :: s[j].time <= s[i].time
    decreases |s|
  {
    var last := |s| - 1;
    if other == last {
      if k: nat :| k < last && k !in coalition {
        var l := LatestOutside(s[..last], coalition, k);
        i := if s[l].time < s[last].time then last else l;
        assert forall j: nat | j < last && j !in coalition :: s[..last][j].time <= s[..last][l].time;
      } else {
        i := last;
      }
    } else {
      var l := LatestOutside(s[..last], coalition, other);
      i := if last !in coalition && s[l].time < s[last].time then last else l;
      assert forall j: nat | j < last && j !in coalition :: s[..last][j].time <= s[..last][l].time;
    }
  }

  /** The entries when the coalition claims one time and everybody else another. */
  function Split(weights: seq<nat>, coalition: set<nat>, ours: nat, theirs: nat): (s: seq<Entry>)
    ensures |s| == |weights|
    ensures forall i: nat | i < |s| :: s[i] == Entry(weights[i], if i in coalition then ours else theirs)
  {
    seq(|weights|, i requires 0 <= i < |weights| => Entry(weights[i], if i in coalition then ours else theirs))
  }

  lemma {:induction false} SplitWeights(s: seq<Entry>, coalition: set<nat>, ours: nat, theirs: nat, t: nat)
    requires forall i: nat | i < |s| :: s[i].time == if i in coalition then ours else theirs
    ensures ours <= t < theirs ==> WeightUpTo(s, t) == CoalitionWeight(s, coalition)
    ensures theirs <= t < ours ==> WeightUpTo(s, t) == Total(s) - CoalitionWeight(s, coalition)
    ensures ours <= t && theirs <= t ==> WeightUpTo(s, t) == Total(s)
    ensures CoalitionWeight(s, coalition) <= Total(s)
  {
    if s != [] {
      var last := |s| - 1;
      SplitWeights(s[..last], coalition, ours, theirs, t);
      PrefixOfPrefix(s, last);
    }
  }

  /** The first bound is exact: a coalition as heavy as half decides a time below everyone else. */
  lemma HalfPullsDown(weights: seq<nat>, coalition: set<nat>, member: nat)
    requires member < |weights| && member in coalition
    ensures var s := Split(weights, coalition, 0, 1);
      CoalitionWeight(s, coalition) >= Total(s) / 2 ==> IsMedian(s, Total(s) / 2, 0)
  {
    var s := Split(weights, coalition, 0, 1);
    SplitWeights(s, coalition, 0, 1, 0);
    assert s[member].time == 0;
  }

  /** The second bound is exact: when the others weigh less than half, the coalition decides a time above them. */
  lemma LightRestIsPassed(weights: seq<nat>, coalition: set<nat>, member: nat)
    requires member < |weights| && member in coalition
    ensures var s := Split(weights, coalition, 1, 0);
      Total(s) - CoalitionWeight(s, coalition) < Total(s) / 2 ==> IsMedian(s, Total(s) / 2, 1)
  {
    var s := Split(weights, coalition, 1, 0);
    SplitWeights(s, coalition, 1, 0, 0);
    SplitWeights(s, coalition, 1, 0, 1);
    assert s[member].time == 1;
  }

  /** Half is rounded down, so with an odd total a minority can already be as heavy as it. */
  lemma MinorityPullsDown(s: seq<Entry>)
    requires s == [Entry(1, 0), Entry(1, 7), Entry(1, 7)]
    ensures 2 * CoalitionWeight(s, {0}) < Total(s) && IsMedian(s, Total(s) / 2, 0)
  {
    PrefixStep(s, 0);
    PrefixStep(s, 1);
    PrefixStep(s, 2);
    PrefixIsBelow(s, 1, 0);
    SplitWeights(s, {0}, 0, 7, 0);
    assert Claimed(s, 0) by { assert s[0].time == 0; }
  }

  lemma PrefixStep(s: seq<Entry>, k: nat)
    requires k < |s|
    ensures Prefix(s, k + 1) == Prefix(s, k) + s[k].weight
  {
  }

  /** With no more than one unit of honest weight half is zero, and a cheater's time can be the result. */
  lemma CheaterDecides(observed: seq<Observed>, defaultTime: nat)
    requires observed == [Observed(5, 3, 1, true), Observed(1, 9, 1, false)]
    ensures IsMedian(Entries(observed, defaultTime), Total(Entries(observed, defaultTime)) / 2, 3)
  {
    var s := Entries(observed, defaultTime);
    assert s[0] == Entry(0, 3) && s[1] == Entry(1, 9);
    assert Prefix(s, 1) == Prefix(s, 0) + s[0].weight;
    assert Prefix(s, 2) == Prefix(s, 1) + s[1].weight;
    assert Claimed(s, 3);
  }

  /** The same but for the times of entries without weight. */
  ghost predicate SameButCheaters(s: seq<Entry>, s': seq<Entry>) {
    && |s| == |s'|
    && forall i | 0 <= i < |s| :: s'[i].weight == s[i].weight && (s[i].weight > 0 ==> s'[i].time == s[i].time)
  }

  /** When half is zero the median is the least of all claimed times, cheaters included. */
  lemma HalfZeroIsLeast(s: seq<Entry>, m: nat)
    ensures IsMedian(s, 0, m) <==> Claimed(s, m) && forall i | 0 <= i < |s| :: m <= s[i].time
  {
    hide WeightUpTo;
    if IsMedian(s, 0, m) {
      forall i | 0 <= i < |s|
        ensures m <= s[i].time
      {
        assert !(s[i].time < m);
      }
    }
  }

  lemma {:induction false} SameWeightUpTo(s: seq<Entry>, s': seq<Entry>, t: nat)
    requires SameButCheaters(s, s')
    ensures WeightUpTo(s', t) == WeightUpTo(s, t)
  {
    if s != [] { SameWeightUpTo(s[..|s| - 1], s'[..|s'| - 1], t); }
  }

  /** Below the median the weight stays under half, at every time and not just the claimed ones. */
  lemma BelowMedian(s: seq<Entry>, half: nat, m: nat, t: nat)
    requires IsMedian(s, half, m) && half > 0 && t < m
    ensures WeightUpTo(s, t) < half
  {
    hide WeightUpTo;
    var u := Predecessor(s, t + 1);
    if forall j | 0 <= j < |s| :: s[j].time >= t + 1 {
      NothingBelow(s, t);
    } else {
      var j :| 0 <= j < |s| && s[j].time < t + 1 && s[j].time == u;
      if u < t { SameWeight(s, u, t); }
    }
  }

  lemma CheatersDoNotMove(s: seq<Entry>, s': seq<Entry>, half: nat, m: nat)
    requires SameButCheaters(s, s') && half > 0 && IsMedian(s, half, m)
    ensures IsMedian(s', half, m)
  {
    hide WeightUpTo;
    var i := MedianIsHonest(s, half, m);
    assert Claimed(s', m) by { assert s'[i].time == m; }
    SameWeightUpTo(s, s', m);
    forall j | 0 <= j < |s'| && s'[j].time < m
      ensures WeightUpTo(s', s'[j].time) < half
    {
      SameWeightUpTo(s, s', s'[j].time);
      BelowMedian(s, half, m, s'[j].time);
    }
  }

  ghost predicate Weighs(s: seq<Entry>, weights: seq<nat>) {
    |s| == |weights| && forall i | 0 <= i < |s| :: s[i].weight == weights[i]
  }

  lemma {:induction false} TotalIsSum(s: seq<Entry>, weights: seq<nat>)
    requires Weighs(s, weights)
    ensures Total(s) == Sum(weights)
  {
    if s != [] {
      var last := |s| - 1;
      TotalIsSum(s[..last], weights[..last]);
      PrefixOfPrefix(s, last);
    }
  }

  /** With these honest weights, what cheaters claim never changes the median, whatever the others claim. */
  ghost predicate CheatersHaveNoSay(weights: seq<nat>) {
    forall s: seq<Entry>, s': seq<Entry>, m: nat, m': nat ::
      (&& Weighs(s, weights) && SameButCheaters(s, s')
       && IsMedian(s, Total(s) / 2, m) && IsMedian(s', Total(s') / 2, m'))
      ==> m == m'
  }

  /** Exactly when half of the honest weight is above zero, or there is no cheater. */
  lemma CheatersHaveNoSayIff(weights: seq<nat>)
    ensures CheatersHaveNoSay(weights) <==> Sum(weights) / 2 > 0 || forall i | 0 <= i < |weights| :: weights[i] > 0
  {
    if Sum(weights) / 2 > 0 || forall i | 0 <= i < |weights| :: weights[i] > 0 {
      forall s: seq<Entry>, s': seq<Entry>, m: nat, m': nat |
        Weighs(s, weights) && SameButCheaters(s, s') && IsMedian(s, Total(s) / 2, m) && IsMedian(s', Total(s') / 2, m')
        ensures m == m'
      {
        NoSay(weights, s, s', m, m');
      }
    } else {
      var j :| 0 <= j < |weights| && weights[j] == 0;
      CheaterHasSay(weights, j);
    }
  }

  lemma NoSay(weights: seq<nat>, s: seq<Entry>, s': seq<Entry>, m: nat, m': nat)
    requires Sum(weights) / 2 > 0 || forall i | 0 <= i < |weights| :: weights[i] > 0
    requires Weighs(s, weights) && SameButCheaters(s, s') && IsMedian(s, Total(s) / 2, m) && IsMedian(s', Total(s') / 2, m')
    ensures m == m'
  {
    hide IsMedian;
    TotalIsSum(s, weights);
    TotalIsSum(s', weights);
    if Sum(weights) / 2 > 0 {
      CheatersDoNotMove(s, s', Total(s) / 2, m);
    } else {
      assert s' == s;
    }
    MedianIsUnique(s', Total(s') / 2, m, m');
  }

  /** A cheater among validators that are all but weightless pulls the median down from one to zero. */
  lemma CheaterHasSay(weights: seq<nat>, j: nat)
    requires Sum(weights) / 2 == 0 && j < |weights| && weights[j] == 0
    ensures !CheatersHaveNoSay(weights)
  {
    var s, s' := Split(weights, {}, 0, 1), Split(weights, {j}, 0, 1);
    TotalIsSum(s, weights);
    TotalIsSum(s', weights);
    assert Claimed(s, 1) by { assert s[j].time == 1; }
    assert Claimed(s', 0) by { assert s'[j].time == 0; }
    HalfZeroIsLeast(s, 1);
    HalfZeroIsLeast(s', 0);
    assert Weighs(s, weights) && SameButCheaters(s, s') && IsMedian(s, Total(s) / 2, 1) && IsMedian(s', Total(s') / 2, 0);
  }
}
