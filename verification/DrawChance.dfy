/**
 The chance with which weightedRandomSelect.choose draws an item (gossip/randselect.go), when
 every random number is uniform: an average over the values and tosses of each turn.
 */
module DrawChance {
  import opened WeightedSelect

  type Current = Item -> nat

  ghost function Chance(cells: seq<Cell>, current: Current, j: Item): real
    decreases Total(cells), 3, 0
  {
    if Total(cells) == 0 then 0.0 else OverValues(cells, current, j, Total(cells)) / Total(cells) as real
  }

  ghost function OverValues(cells: seq<Cell>, current: Current, j: Item, n: nat): real
    requires n <= Total(cells)
    decreases Total(cells), 2, n
  {
    if n == 0 then 0.0 else OverValues(cells, current, j, n - 1) + AtValue(cells, current, j, n - 1)
  }

  ghost function AtValue(cells: seq<Cell>, current: Current, j: Item, val: nat): real
    requires val < Total(cells)
    decreases Total(cells), 1, 0
  {
    var last := cells[PickAt(cells, val)].weight;
    OverTosses(cells, current, j, val, last) / last as real
  }

  ghost function OverTosses(cells: seq<Cell>, current: Current, j: Item, val: nat, m: nat): real
    requires val < Total(cells)
    decreases Total(cells), 0, m
  {
    if m == 0 then 0.0
    else
      OverTosses(cells, current, j, val, m - 1) +
      match Turn(cells, current, val, m - 1)
      case Took(item) => Hit(item, j)
      case Again(rest) => Chance(rest, current, j)
  }

  function Hit(item: Item, j: Item): real {
    if item == j then 1.0 else 0.0
  }

  // ---------- the weight that counts ----------

  /** The lower of the stored and the current weight. */
  function Counting(c: Cell, current: Current): nat {
    if c.Vacant? then 0 else if current(c.item) < c.weight then current(c.item) else c.weight
  }

  function CountingTotal(cells: seq<Cell>, current: Current): nat {
    if cells == [] then 0 else Counting(cells[0], current) + CountingTotal(cells[1..], current)
  }

  function CountingOf(cells: seq<Cell>, current: Current, j: Item): nat {
    if cells == [] then 0
    else (if cells[0].Taken? && cells[0].item == j then Counting(cells[0], current) else 0) + CountingOf(cells[1..], current, j)
  }

  function Share(cells: seq<Cell>, current: Current, j: Item): real {
    if CountingTotal(cells, current) == 0 then 0.0
    else CountingOf(cells, current, j) as real / CountingTotal(cells, current) as real
  }

  lemma {:induction false} CountingUpdate(cells: seq<Cell>, current: Current, j: Item, k: nat, c: Cell)
    requires k < |cells| && Counting(c, current) == Counting(cells[k], current)
    requires c.Taken? && cells[k].Taken? ==> c.item == cells[k].item
    requires c.Vacant? ==> Counting(cells[k], current) == 0
    requires cells[k].Vacant? ==> Counting(c, current) == 0
    ensures CountingTotal(cells[k := c], current) == CountingTotal(cells, current)
    ensures CountingOf(cells[k := c], current, j) == CountingOf(cells, current, j)
  {
    if k == 0 {
      assert cells[k := c][1..] == cells[1..];
    } else {
      CountingUpdate(cells[1..], current, j, k - 1, c);
      assert cells[k := c][1..] == cells[1..][k - 1 := c];
    }
  }

  lemma {:induction false} CountingBounds(cells: seq<Cell>, current: Current, j: Item)
    ensures CountingOf(cells, current, j) <= CountingTotal(cells, current) <= Total(cells)
  {
    if cells != [] { CountingBounds(cells[1..], current, j); }
  }

  /** A retry leaves every share as it was. */
  lemma SameShare(cells: seq<Cell>, current: Current, j: Item, val: nat, toss: nat)
    requires val < Total(cells) && Turn(cells, current, val, toss).Again?
    ensures Share(Turn(cells, current, val, toss).cells, current, j) == Share(cells, current, j)
  {
    var k := PickAt(cells, val);
    CountingUpdate(cells, current, j, k, Kept(cells[k].item, current(cells[k].item)));
  }

  // ---------- one turn ----------

  /** What a position adds when every retry ends in j with chance r. */
  function Gain(c: Cell, current: Current, j: Item, r: real): real {
    if c.Vacant? then 0.0
    else Counting(c, current) as real * Hit(c.item, j) + (c.weight - Counting(c, current)) as real * r
  }

  ghost predicate RetriesAre(cells: seq<Cell>, current: Current, j: Item, r: real) {
    forall val: nat, toss: nat | val < Total(cells) && Turn(cells, current, val, toss).Again? ::
      Chance(Turn(cells, current, val, toss).cells, current, j) == r
  }

  /** Of m tosses, those below the counting weight end here and the others in a retry. */
  function Tossed(m: nat, counting: nat, hit: real, r: real): real {
    if m < counting then m as real * hit else counting as real * hit + (m - counting) as real * r
  }

  lemma TossedStep(m: nat, counting: nat, hit: real, r: real)
    ensures Tossed(m + 1, counting, hit, r) == Tossed(m, counting, hit, r) + if m < counting then hit else r
  {
    OneMoreTime(m + 1, hit);
    if m >= counting { OneMoreTime(m + 1 - counting, r); }
  }

  lemma NoToss(counting: nat, hit: real, r: real)
    ensures Tossed(0, counting, hit, r) == 0.0
  {
    assert 0.0 * hit == 0.0 && 0.0 * r == 0.0;
  }

  lemma TurnIs(cells: seq<Cell>, current: Current, val: nat, toss: nat)
    requires val < Total(cells) && toss < cells[PickAt(cells, val)].weight
    ensures var c := cells[PickAt(cells, val)];
      if toss < Counting(c, current) then Turn(cells, current, val, toss) == Took(c.item) else Turn(cells, current, val, toss).Again?
  {
    hide PickAt, Total;
  }

  lemma {:induction false} TossesAre(cells: seq<Cell>, current: Current, j: Item, val: nat, m: nat, r: real)
    requires val < Total(cells) && m <= cells[PickAt(cells, val)].weight && RetriesAre(cells, current, j, r)
    ensures var c := cells[PickAt(cells, val)];
      OverTosses(cells, current, j, val, m) == Tossed(m, Counting(c, current), Hit(c.item, j), r)
    decreases m
  {
    hide PickAt, Total, Turn, Tossed, Counting, Hit, Chance;
    var c := cells[PickAt(cells, val)];
    if m == 0 {
      NoToss(Counting(c, current), Hit(c.item, j), r);
    } else {
      TossedStep(m - 1, Counting(c, current), Hit(c.item, j), r);
      TossesAre(cells, current, j, val, m - 1, r);
      TurnIs(cells, current, val, m - 1);
    }
  }

  lemma ValueIs(cells: seq<Cell>, current: Current, j: Item, k: nat, val: nat, r: real)
    requires k < |cells| && cells[k].Taken? && Total(cells[..k]) <= val < Total(cells[..k]) + cells[k].weight && val < Total(cells)
    requires RetriesAre(cells, current, j, r)
    ensures AtValue(cells, current, j, val) == Gain(cells[k], current, j, r) / cells[k].weight as real
  {
    hide RetriesAre, Total, PickAt, OverTosses;
    var p := PickAt(cells, val);
    ChoiceIsUnique(cells, val, k, cells[k].item, cells[k].weight, p, cells[p].item, cells[p].weight);
    TossesAre(cells, current, j, val, cells[k].weight, r);
  }

  // ---------- all values ----------

  lemma {:induction false} RowIs(cells: seq<Cell>, current: Current, j: Item, k: nat, x: nat, r: real)
    requires k < |cells| && cells[k].Taken? && x <= cells[k].weight && Total(cells[..k]) + cells[k].weight <= Total(cells)
    requires RetriesAre(cells, current, j, r)
    ensures cells[k].weight > 0 ==>
      OverValues(cells, current, j, Total(cells[..k]) + x) ==
      OverValues(cells, current, j, Total(cells[..k])) + x as real * (Gain(cells[k], current, j, r) / cells[k].weight as real)
    decreases x
  {
    hide RetriesAre, Total, AtValue, Gain;
    if x > 0 {
      RowIs(cells, current, j, k, x - 1, r);
      ValueIs(cells, current, j, k, Total(cells[..k]) + x - 1, r);
      OneMoreTime(x, Gain(cells[k], current, j, r) / cells[k].weight as real);
    }
  }

  lemma OneMoreTime(x: nat, g: real)
    requires x > 0
    ensures (x - 1) as real * g + g == x as real * g
  {
  }

  lemma AllTimes(w: nat, g: real)
    requires w > 0
    ensures w as real * (g / w as real) == g
  {
  }

  ghost function Gains(cells: seq<Cell>, current: Current, j: Item, r: real): real {
    if cells == [] then 0.0 else Gain(cells[0], current, j, r) + Gains(cells[1..], current, j, r)
  }

  lemma {:induction false} GainsConcat(a: seq<Cell>, c: Cell, current: Current, j: Item, r: real)
    ensures Gains(a + [c], current, j, r) == Gains(a, current, j, r) + Gain(c, current, j, r)
  {
    hide Gain;
    if a == [] {
      assert (a + [c])[1..] == [];
    } else {
      assert (a + [c])[1..] == a[1..] + [c];
      GainsConcat(a[1..], c, current, j, r);
    }
  }

  lemma PrefixTotal(cells: seq<Cell>, k: nat)
    requires k < |cells|
    ensures Total(cells[..k + 1]) == Total(cells[..k]) + Weight(cells[k]) <= Total(cells)
  {
    assert cells[..k + 1] == cells[..k] + [cells[k]] && cells == cells[..k + 1] + cells[k + 1..];
    TotalConcat(cells[..k], [cells[k]]);
    TotalConcat(cells[..k + 1], cells[k + 1..]);
  }

  lemma WholeRow(cells: seq<Cell>, current: Current, j: Item, k: nat, r: real)
    requires k < |cells| && Total(cells[..k]) + Weight(cells[k]) <= Total(cells) && RetriesAre(cells, current, j, r)
    ensures OverValues(cells, current, j, Total(cells[..k]) + Weight(cells[k])) ==
      OverValues(cells, current, j, Total(cells[..k])) + Gain(cells[k], current, j, r)
  {
    hide RetriesAre, Total, OverValues, Gain;
    var c := cells[k];
    if Weight(c) > 0 {
      RowIs(cells, current, j, k, c.weight, r);
      AllTimes(c.weight, Gain(c, current, j, r));
    } else {
      NoGain(c, current, j, r);
    }
  }

  lemma NoGain(c: Cell, current: Current, j: Item, r: real)
    requires Weight(c) == 0
    ensures Gain(c, current, j, r) == 0.0
  {
  }

  lemma {:induction false} RowsAre(cells: seq<Cell>, current: Current, j: Item, k: nat, r: real)
    requires k <= |cells| && RetriesAre(cells, current, j, r)
    ensures Total(cells[..k]) <= Total(cells)
    ensures OverValues(cells, current, j, Total(cells[..k])) == Gains(cells[..k], current, j, r)
    decreases k
  {
    hide RetriesAre, AtValue, Gain, Weight;
    if k > 0 {
      var c := cells[k - 1];
      RowsAre(cells, current, j, k - 1, r);
      PrefixTotal(cells, k - 1);
      assert cells[..k] == cells[..k - 1] + [c];
      GainsConcat(cells[..k - 1], c, current, j, r);
      WholeRow(cells, current, j, k - 1, r);
    }
  }

  lemma {:induction false} GainsAre(cells: seq<Cell>, current: Current, j: Item, r: real)
    ensures Gains(cells, current, j, r) ==
      CountingOf(cells, current, j) as real + (Total(cells) - CountingTotal(cells, current)) as real * r
  {
    hide Gain, Counting;
    if cells != [] {
      var c, rest := cells[0], cells[1..];
      GainsAre(rest, current, j, r);
      GainIs(c, current, j, r);
      CountingBounds(rest, current, j);
      AtMostWeight(c, current);
      Distribute(Weight(c) - Counting(c, current), Total(rest) - CountingTotal(rest, current), r);
    }
  }

  lemma GainIs(c: Cell, current: Current, j: Item, r: real)
    ensures Gain(c, current, j, r) ==
      (if c.Taken? && c.item == j then Counting(c, current) else 0) as real + (Weight(c) - Counting(c, current)) as real * r
  {
  }

  lemma AtMostWeight(c: Cell, current: Current)
    ensures Counting(c, current) <= Weight(c)
  {
  }

  lemma Distribute(a: nat, b: nat, r: real)
    ensures (a + b) as real * r == a as real * r + b as real * r
  {
  }

  // ---------- the chance ----------

  /** Whatever has become of the weights, an item is drawn in proportion to the weight that counts. */
  lemma {:induction false} ChanceIsShare(cells: seq<Cell>, current: Current, j: Item)
    ensures Chance(cells, current, j) == Share(cells, current, j)
    decreases Total(cells)
  {
    CountingBounds(cells, current, j);
    hide Turn, Gains, OverValues, CountingOf, CountingTotal;
    if Total(cells) > 0 {
      var r := Share(cells, current, j);
      forall val: nat, toss: nat | val < Total(cells) && Turn(cells, current, val, toss).Again?
        ensures Chance(Turn(cells, current, val, toss).cells, current, j) == r
      {
        SameShare(cells, current, j, val, toss);
        ChanceIsShare(Turn(cells, current, val, toss).cells, current, j);
      }
      RowsAre(cells, current, j, |cells|, r);
      assert cells[..|cells|] == cells;
      GainsAre(cells, current, j, r);
      Balance(OverValues(cells, current, j, Total(cells)), CountingOf(cells, current, j), CountingTotal(cells, current), Total(cells), r);
    }
  }

  lemma Balance(sum: real, own: nat, counting: nat, total: nat, r: real)
    requires own <= counting <= total && total > 0 && sum == own as real + (total - counting) as real * r
    requires r == if counting == 0 then 0.0 else own as real / counting as real
    ensures sum / total as real == r
  {
    Times(own as real, counting as real, r);
    assert (total - counting) as real == total as real - counting as real;
    Regroup(own as real, counting as real, total as real, r);
    Divide(total as real, r);
  }

  lemma Times(own: real, counting: real, r: real)
    requires r == if counting == 0.0 then 0.0 else own / counting
    requires counting == 0.0 ==> own == 0.0
    ensures own == counting * r
  {
  }

  lemma Regroup(own: real, counting: real, total: real, r: real)
    requires own == counting * r
    ensures own + (total - counting) * r == total * r
  {
  }

  lemma Divide(total: real, r: real)
    requires total > 0.0
    ensures total * r / total == r
  {
  }

  // ---------- weights that only go down ----------

  ghost predicate NoneHeavier(cells: seq<Cell>, current: Current) {
    forall k | 0 <= k < |cells| && cells[k].Taken? :: current(cells[k].item) <= cells[k].weight
  }

  function CurrentTotal(cells: seq<Cell>, current: Current): nat {
    if cells == [] then 0 else (if cells[0].Taken? then current(cells[0].item) else 0) + CurrentTotal(cells[1..], current)
  }

  lemma {:induction false} CountingIsCurrent(cells: seq<Cell>, current: Current)
    requires NoneHeavier(cells, current)
    ensures CountingTotal(cells, current) == CurrentTotal(cells, current)
  {
    if cells != [] {
      assert forall k | 0 <= k < |cells[1..]| :: cells[1..][k] == cells[k + 1];
      assert NoneHeavier([cells[0]], current) by { assert cells[0] == [cells[0]][0]; }
      CountingIsCurrent(cells[1..], current);
    }
  }

  /** The item is there once. */
  ghost predicate Alone(cells: seq<Cell>, k: nat) {
    k < |cells| && cells[k].Taken? && forall i | 0 <= i < |cells| && cells[i].Taken? && cells[i].item == cells[k].item :: i == k
  }

  lemma {:induction false} CountingOfAlone(cells: seq<Cell>, current: Current, k: nat)
    requires Alone(cells, k)
    ensures CountingOf(cells, current, cells[k].item) == Counting(cells[k], current)
  {
    var j := cells[k].item;
    if k == 0 {
      CountingOfOthers(cells[1..], current, j);
    } else {
      assert cells[1..][k - 1] == cells[k];
      CountingOfAlone(cells[1..], current, k - 1);
    }
  }

  lemma {:induction false} CountingOfOthers(cells: seq<Cell>, current: Current, j: Item)
    requires forall i | 0 <= i < |cells| && cells[i].Taken? :: cells[i].item != j
    ensures CountingOf(cells, current, j) == 0
  {
    if cells != [] { CountingOfOthers(cells[1..], current, j); }
  }

  /**
   What choose promises: as long as no weight has gone up since it was stored, an item is drawn
   with a chance proportional to its current weight.
   */
  lemma ChanceIsCurrentShare(cells: seq<Cell>, idx: map<Item, nat>, current: Current, j: Item)
    requires Indexes(cells, idx) && j in idx && NoneHeavier(cells, current) && CurrentTotal(cells, current) > 0
    ensures Chance(cells, current, j) == current(j) as real / CurrentTotal(cells, current) as real
  {
    hide Chance, CountingOf, CountingTotal, CurrentTotal;
    assert Holds(cells, idx[j], j);
    assert Alone(cells, idx[j]);
    CountingOfAlone(cells, current, idx[j]);
    CountingIsCurrent(cells, current);
    ChanceIsShare(cells, current, j);
  }

  /** A weight that has gone up must be stored first: two items, one of which has doubled. */
  lemma HeavierIsMissed(current: Current)
    requires current(0) == 2 && current(1) == 1
    ensures Chance([Taken(0, 1), Taken(1, 1)], current, 0) == 0.5
  {
    var cells := [Taken(0, 1), Taken(1, 1)];
    ChanceIsShare(cells, current, 0);
    assert cells[1..] == [Taken(1, 1)] && cells[1..][1..] == [];
    assert CountingOf(cells, current, 0) == 1 && CountingTotal(cells, current) == 2;
  }
}
