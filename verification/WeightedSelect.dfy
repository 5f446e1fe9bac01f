/**
 weightedRandomSelect (gossip/randselect.go): a tree with eight branches per node that
 keeps the weights of items so that one can be drawn in proportion.  A node is a value
 here; the owner replaces its root.
 */
module WeightedSelect {
  import opened Common

  const BRANCHES: nat := 8

  type Item = nat

  datatype Slot = Nil | Leaf(item: Item) | Sub(node: Node)

  datatype Node = Node(level: nat, slots: seq<Slot>, weights: seq<nat>, sumWeight: nat, itemCnt: nat, maxItems: nat)

  // ---------- what a node holds ----------

  /** A position of the tree. */
  datatype Cell = Vacant | Taken(item: Item, weight: nat)

  function Capacity(level: nat): (c: nat)
    ensures c >= BRANCHES
  {
    if level == 0 then BRANCHES else BRANCHES * Capacity(level - 1)
  }

  function Vacancies(n: nat): (s: seq<Cell>)
    ensures |s| == n && forall i | 0 <= i < n :: s[i] == Vacant
  {
    seq(n, i => Vacant)
  }

  /** The positions below one slot of a node at the given level. */
  function Block(slot: Slot, weight: nat, level: nat): seq<Cell>
    decreases level, 0
  {
    if level == 0 then (if slot.Leaf? then [Taken(slot.item, weight)] else [Vacant])
    else if slot.Sub? then Blocks(slot.node.slots, slot.node.weights, level - 1)
    else Vacancies(Capacity(level - 1))
  }

  function Blocks(slots: seq<Slot>, weights: seq<nat>, level: nat): seq<Cell>
    decreases level, 1, |slots|
  {
    if slots == [] || weights == [] then []
    else Block(slots[0], weights[0], level) + Blocks(slots[1..], weights[1..], level)
  }

  /** The positions of a node, from left to right. */
  function Cells(n: Node): seq<Cell> {
    Blocks(n.slots, n.weights, n.level)
  }

  function Width(level: nat): nat {
    if level == 0 then 1 else Capacity(level - 1)
  }

  function Weight(c: Cell): nat {
    if c.Taken? then c.weight else 0
  }

  function Total(cells: seq<Cell>): nat {
    if cells == [] then 0 else Weight(cells[0]) + Total(cells[1..])
  }

  function Occupied(cells: seq<Cell>): nat {
    if cells == [] then 0 else (if cells[0].Taken? then 1 else 0) + Occupied(cells[1..])
  }

  /** A slot agrees with the weight kept beside it. */
  ghost predicate ValidSlot(slot: Slot, weight: nat, level: nat)
    decreases level, 0
  {
    if level == 0 then (if slot.Leaf? then weight > 0 else slot.Nil? && weight == 0)
    else if slot.Sub? then slot.node.level == level - 1 && ValidNode(slot.node) && weight == slot.node.sumWeight
    else slot.Nil? && weight == 0
  }

  /** Counts and sums are those of the positions below, in every node. */
  ghost predicate ValidNode(n: Node)
    decreases n.level, 1
  {
    && |n.slots| == |n.weights| == BRANCHES
    && n.maxItems == Capacity(n.level)
    && (forall i | 0 <= i < BRANCHES :: ValidSlot(n.slots[i], n.weights[i], n.level))
    && n.sumWeight == Total(Cells(n)) && n.itemCnt == Occupied(Cells(n))
  }

  // ---------- sequences of positions ----------

  lemma {:induction false} TotalConcat(a: seq<Cell>, b: seq<Cell>)
    ensures Total(a + b) == Total(a) + Total(b) && Occupied(a + b) == Occupied(a) + Occupied(b)
  {
    if a == [] {
      assert a + b == b;
    } else {
      TotalConcat(a[1..], b);
      assert (a + b)[1..] == a[1..] + b;
    }
  }

  lemma {:induction false} TotalUpdate(s: seq<Cell>, k: nat, c: Cell)
    requires k < |s|
    ensures Total(s[k := c]) == Total(s) - Weight(s[k]) + Weight(c)
    ensures Occupied(s[k := c]) == Occupied(s) - (if s[k].Taken? then 1 else 0) + if c.Taken? then 1 else 0
  {
    if k == 0 {
      assert s[k := c][1..] == s[1..];
    } else {
      TotalUpdate(s[1..], k - 1, c);
      assert s[k := c][1..] == s[1..][k - 1 := c];
    }
  }

  lemma {:induction false} VacantTotal(n: nat)
    ensures Total(Vacancies(n)) == 0 && Occupied(Vacancies(n)) == 0
  {
    if n > 0 {
      VacantTotal(n - 1);
      assert Vacancies(n)[1..] == Vacancies(n - 1);
    }
  }

  lemma {:induction false} OccupiedBound(s: seq<Cell>)
    ensures Occupied(s) <= |s|
    ensures Occupied(s) == |s| <==> forall k | 0 <= k < |s| :: s[k].Taken?
  {
    if s != [] {
      OccupiedBound(s[1..]);
      assert forall k | 0 < k < |s| :: s[k] == s[1..][k - 1];
    }
  }

  // ---------- blocks ----------

  ghost predicate ValidSlots(slots: seq<Slot>, weights: seq<nat>, level: nat) {
    |slots| == |weights| && forall i | 0 <= i < |slots| :: ValidSlot(slots[i], weights[i], level)
  }

  lemma BlockSize(slot: Slot, weight: nat, level: nat)
    requires ValidSlot(slot, weight, level)
    ensures |Block(slot, weight, level)| == Width(level) && Total(Block(slot, weight, level)) == weight
    decreases level, 0
  {
    if level > 0 {
      if slot.Sub? {
        BlocksSize(slot.node.slots, slot.node.weights, level - 1);
      } else {
        VacantTotal(Capacity(level - 1));
      }
    }
  }

  lemma {:induction false} BlocksSize(slots: seq<Slot>, weights: seq<nat>, level: nat)
    requires ValidSlots(slots, weights, level)
    ensures |Blocks(slots, weights, level)| == |slots| * Width(level)
    decreases level, 1, |slots|
  {
    if slots != [] {
      BlockSize(slots[0], weights[0], level);
      BlocksSize(slots[1..], weights[1..], level);
    }
  }

  lemma CellsSize(n: Node)
    requires ValidNode(n)
    ensures |Cells(n)| == n.maxItems
  {
    BlocksSize(n.slots, n.weights, n.level);
  }

  /** Changing one position of one block changes that position of the node. */
  lemma {:induction false} BlocksUpdate(slots: seq<Slot>, weights: seq<nat>, level: nat, b: nat, slot: Slot, w: nat, k: nat, c: Cell)
    requires ValidSlots(slots, weights, level) && b < |slots| && k < Width(level) && ValidSlot(slot, w, level)
    requires |Block(slots[b], weights[b], level)| == Width(level)
    requires Block(slot, w, level) == Block(slots[b], weights[b], level)[k := c]
    ensures b * Width(level) + k < |Blocks(slots, weights, level)|
    ensures Blocks(slots[b := slot], weights[b := w], level) == Blocks(slots, weights, level)[b * Width(level) + k := c]
    ensures Blocks(slots, weights, level)[b * Width(level) + k] == Block(slots[b], weights[b], level)[k]
    decreases |slots|
  {
    hide ValidSlot, Block, Blocks, Width, Total;
    BlocksFirst(slots, weights, level);
    BlocksFirst(slots[b := slot], weights[b := w], level);
    var width := Width(level);
    var first, rest := Block(slots[0], weights[0], level), Blocks(slots[1..], weights[1..], level);
    BlockSize(slots[0], weights[0], level);
    if b == 0 {
      BlocksSize(slots[1..], weights[1..], level);
      assert slots[b := slot][1..] == slots[1..] && weights[b := w][1..] == weights[1..];
      UpdateFirst(first, rest, k, c);
    } else {
      BlocksUpdate(slots[1..], weights[1..], level, b - 1, slot, w, k, c);
      assert slots[b := slot][1..] == slots[1..][b - 1 := slot] && weights[b := w][1..] == weights[1..][b - 1 := w];
      var at := (b - 1) * width + k;
      assert b * width + k == width + at by { Distribute(b, width); }
      UpdateSecond(first, rest, at, c);
    }
  }

  lemma BlocksFirst(slots: seq<Slot>, weights: seq<nat>, level: nat)
    requires slots != [] && weights != []
    ensures Blocks(slots, weights, level) == Block(slots[0], weights[0], level) + Blocks(slots[1..], weights[1..], level)
  {
  }

  lemma Distribute(b: nat, width: nat)
    ensures b * width == width + (b - 1) * width
  {
  }

  lemma UpdateFirst(a: seq<Cell>, b: seq<Cell>, k: nat, c: Cell)
    requires k < |a|
    ensures (a + b)[k := c] == a[k := c] + b && (a + b)[k] == a[k]
  {
  }

  lemma UpdateSecond(a: seq<Cell>, b: seq<Cell>, k: nat, c: Cell)
    requires k < |b|
    ensures (a + b)[|a| + k := c] == a + b[k := c] && (a + b)[|a| + k] == b[k]
  {
  }

  lemma {:induction false} BlocksConcat(a: seq<Slot>, b: seq<Slot>, v: seq<nat>, w: seq<nat>, level: nat)
    requires |a| == |v| && |b| == |w|
    ensures Blocks(a + b, v + w, level) == Blocks(a, v, level) + Blocks(b, w, level)
    decreases |a|
  {
    hide Block;
    if a == [] {
      assert a + b == b && v + w == w;
    } else {
      BlocksConcat(a[1..], b, v[1..], w, level);
      assert (a + b)[1..] == a[1..] + b && (v + w)[1..] == v[1..] + w;
    }
  }

  /** The positions of a node around one of its branches. */
  lemma SplitAt(n: Node, b: nat)
    requires ValidNode(n) && b < BRANCHES
    ensures var left, right := Blocks(n.slots[..b], n.weights[..b], n.level), Blocks(n.slots[b + 1..], n.weights[b + 1..], n.level);
      && Cells(n) == left + Block(n.slots[b], n.weights[b], n.level) + right
      && |left| == b * Width(n.level)
    ensures Blocks(n.slots[..b + 1], n.weights[..b + 1], n.level) ==
      Blocks(n.slots[..b], n.weights[..b], n.level) + Block(n.slots[b], n.weights[b], n.level)
  {
    hide Block, Blocks, ValidSlot, Width, Total, Occupied;
    var s, w, level := n.slots, n.weights, n.level;
    assert s == s[..b + 1] + s[b + 1..] && w == w[..b + 1] + w[b + 1..];
    BlocksConcat(s[..b + 1], s[b + 1..], w[..b + 1], w[b + 1..], level);
    assert s[..b + 1] == s[..b] + [s[b]] && w[..b + 1] == w[..b] + [w[b]];
    BlocksConcat(s[..b], [s[b]], w[..b], [w[b]], level);
    OneBlock(s[b], w[b], level);
    BlocksSize(s[..b], w[..b], level);
  }

  lemma OneBlock(slot: Slot, weight: nat, level: nat)
    ensures Blocks([slot], [weight], level) == Block(slot, weight, level)
  {
    assert Blocks([slot][1..], [weight][1..], level) == [];
  }

  // ---------- one branch of a node changes ----------

  /** The node with one branch replaced and its counters adjusted. */
  function Adjusted(n: Node, b: nat, slot: Slot, w: nat, sumWeight: nat, itemCnt: nat): Node
    requires b < |n.slots| && b < |n.weights|
  {
    n.(slots := n.slots[b := slot], weights := n.weights[b := w], sumWeight := sumWeight, itemCnt := itemCnt)
  }

  function Taking(c: Cell): nat {
    if c.Taken? then 1 else 0
  }

  lemma BranchChanged(n: Node, b: nat, slot: Slot, w: nat, k: nat, c: Cell, sumWeight: nat, itemCnt: nat)
    requires ValidNode(n) && b < BRANCHES && k < Width(n.level) && ValidSlot(slot, w, n.level)
    requires |Block(n.slots[b], n.weights[b], n.level)| == Width(n.level)
    requires Block(slot, w, n.level) == Block(n.slots[b], n.weights[b], n.level)[k := c]
    requires var gone := Block(n.slots[b], n.weights[b], n.level)[k];
      sumWeight == n.sumWeight - Weight(gone) + Weight(c) && itemCnt == n.itemCnt - Taking(gone) + Taking(c)
    ensures ValidNode(Adjusted(n, b, slot, w, sumWeight, itemCnt))
    ensures b * Width(n.level) + k < |Cells(n)|
    ensures Cells(n)[b * Width(n.level) + k] == Block(n.slots[b], n.weights[b], n.level)[k]
    ensures Cells(Adjusted(n, b, slot, w, sumWeight, itemCnt)) == Cells(n)[b * Width(n.level) + k := c]
  {
    hide ValidSlot, Block, Blocks, Width, Capacity, Total, Occupied;
    BlocksUpdate(n.slots, n.weights, n.level, b, slot, w, k, c);
    TotalUpdate(Cells(n), b * Width(n.level) + k, c);
  }

  // ---------- the operations ----------

  function EmptyNode(level: nat): Node {
    Node(level, seq(BRANCHES, i => Nil), seq(BRANCHES, i => 0), 0, 0, Capacity(level))
  }

  lemma {:induction false} NilBlocks(slots: seq<Slot>, weights: seq<nat>, level: nat)
    requires |slots| == |weights| && forall i | 0 <= i < |slots| :: slots[i].Nil?
    ensures Blocks(slots, weights, level) == Vacancies(|slots| * Width(level))
    decreases |slots|
  {
    if slots != [] {
      NilBlocks(slots[1..], weights[1..], level);
      assert |slots| * Width(level) == Width(level) + (|slots| - 1) * Width(level) by { Distribute(|slots|, Width(level)); }
      assert Block(slots[0], weights[0], level) == Vacancies(Width(level));
    }
  }

  lemma EmptyNodeIs(level: nat)
    ensures ValidNode(EmptyNode(level)) && Cells(EmptyNode(level)) == Vacancies(Capacity(level))
  {
    var n := EmptyNode(level);
    NilBlocks(n.slots, n.weights, level);
    VacantTotal(Capacity(level));
  }

  lemma EmptyNodeFields(level: nat)
    ensures var n := EmptyNode(level);
      && ValidNode(n) && n.level == level && n.maxItems == Width(level + 1) && n.sumWeight == 0
      && Cells(n) == Vacancies(Width(level + 1))
  {
    EmptyNodeIs(level);
  }

  ghost predicate Full(cells: seq<Cell>) {
    forall k | 0 <= k < |cells| :: cells[k].Taken?
  }

  /** The block of a slot, when the slot holds a node. */
  lemma SubBlock(slot: Slot, weight: nat, level: nat)
    requires ValidSlot(slot, weight, level) && level > 0
    ensures slot.Sub? ==>
      && ValidNode(slot.node) && slot.node.level == level - 1 && Block(slot, weight, level) == Cells(slot.node)
      && slot.node.maxItems == Width(level) && weight == slot.node.sumWeight
      && (slot.node.itemCnt == slot.node.maxItems <==> Full(Cells(slot.node)))
    ensures !slot.Sub? ==> slot.Nil? && weight == 0 && Block(slot, weight, level) == Vacancies(Width(level))
  {
    if slot.Sub? {
      CellsSize(slot.node);
      OccupiedBound(Cells(slot.node));
    }
  }

  lemma NodeIsFull(n: Node)
    requires ValidNode(n) && Full(Cells(n))
    ensures n.itemCnt == n.maxItems
  {
    CellsSize(n);
    OccupiedBound(Cells(n));
  }

  /**
   Insertion into a node that is not full takes its first vacant position, and finds a
   branch for it.
   */
  method Insert(n: Node, item: Item, weight: nat) returns (n': Node, idx: nat)
    requires ValidNode(n) && n.itemCnt < n.maxItems && weight > 0
    ensures ValidNode(n') && n'.level == n.level
    ensures idx < |Cells(n)| && Cells(n)[idx] == Vacant && Cells(n') == Cells(n)[idx := Taken(item, weight)]
    ensures Full(Cells(n)[..idx])
    decreases n.level
  {
    hide ValidNode, ValidSlot, Block, Blocks, Cells, Width, Capacity;
    var branch := FindBranch(n);
    Shape(n, branch);
    SplitAt(n, branch);
    var sumWeight, itemCnt := n.sumWeight + weight, n.itemCnt + 1;
    if n.level == 0 {
      LeafChanged(n, branch, Leaf(item), weight, Taken(item, weight), sumWeight, itemCnt);
      FullPrefix(Blocks(n.slots[..branch], n.weights[..branch], n.level), Block(n.slots[branch], n.weights[branch], n.level),
                 Blocks(n.slots[branch + 1..], n.weights[branch + 1..], n.level), 0);
      return Adjusted(n, branch, Leaf(item), weight, sumWeight, itemCnt), branch;
    }
    SubBlock(n.slots[branch], n.weights[branch], n.level);
    EmptyNodeIs(n.level - 1);
    var subNode := if n.slots[branch].Sub? then n.slots[branch].node else EmptyNode(n.level - 1);
    SubOf(n, branch, subNode);
    var sub', subIdx := Insert(subNode, item, weight);
    SubChanged(n, branch, subNode, sub', subIdx, Taken(item, weight), n.weights[branch] + weight, sumWeight, itemCnt);
    FullPrefix(Blocks(n.slots[..branch], n.weights[..branch], n.level), Cells(subNode),
               Blocks(n.slots[branch + 1..], n.weights[branch + 1..], n.level), subIdx);
    return Adjusted(n, branch, Sub(sub'), n.weights[branch] + weight, sumWeight, itemCnt), subNode.maxItems * branch + subIdx;
  }

  lemma Shape(n: Node, b: nat)
    requires ValidNode(n) && b < BRANCHES
    ensures |n.slots| == |n.weights| == BRANCHES && ValidSlot(n.slots[b], n.weights[b], n.level)
    ensures n.itemCnt <= n.maxItems
  {
    CellsSize(n);
    OccupiedBound(Cells(n));
  }

  /** The node a branch stands for: its own, or an empty one. */
  lemma SubOf(n: Node, b: nat, sub: Node)
    requires ValidNode(n) && n.level > 0 && b < BRANCHES
    requires sub == if n.slots[b].Sub? then n.slots[b].node else EmptyNode(n.level - 1)
    ensures ValidNode(sub) && sub.level == n.level - 1 && sub.maxItems == Width(n.level) && sub.sumWeight == n.weights[b]
    ensures Cells(sub) == Block(n.slots[b], n.weights[b], n.level) && |Cells(sub)| == sub.maxItems
  {
    hide *;
    Shape(n, b);
    SubBlock(n.slots[b], n.weights[b], n.level);
    if !n.slots[b].Sub? {
      EmptyNodeFields(n.level - 1);
    }
    CellsSize(sub);
  }

  lemma LeafChanged(n: Node, b: nat, slot: Slot, w: nat, c: Cell, sumWeight: nat, itemCnt: nat)
    requires ValidNode(n) && n.level == 0 && b < BRANCHES
    requires (slot == Nil && c == Vacant && w == 0) || (slot.Leaf? && w > 0 && c == Taken(slot.item, w))
    requires var gone := if n.slots[b].Leaf? then Taken(n.slots[b].item, n.weights[b]) else Vacant;
      sumWeight == n.sumWeight - Weight(gone) + Weight(c) && itemCnt == n.itemCnt - Taking(gone) + Taking(c)
    ensures ValidNode(Adjusted(n, b, slot, w, sumWeight, itemCnt))
    ensures b < |Cells(n)| && Cells(n)[b] == if n.slots[b].Leaf? then Taken(n.slots[b].item, n.weights[b]) else Vacant
    ensures Cells(Adjusted(n, b, slot, w, sumWeight, itemCnt)) == Cells(n)[b := c]
    ensures Width(0) == 1
  {
    hide Blocks, Total, Occupied;
    BranchChanged(n, b, slot, w, 0, c, sumWeight, itemCnt);
  }

  lemma SubChanged(n: Node, b: nat, sub: Node, sub': Node, k: nat, c: Cell, w: nat, sumWeight: nat, itemCnt: nat)
    requires ValidNode(n) && n.level > 0 && b < BRANCHES
    requires ValidNode(sub) && ValidNode(sub') && sub.level == sub'.level == n.level - 1
    requires Cells(sub) == Block(n.slots[b], n.weights[b], n.level) && sub.sumWeight == n.weights[b]
    requires k < |Cells(sub)| && Cells(sub') == Cells(sub)[k := c]
    requires var gone := Cells(sub)[k];
      && w == n.weights[b] - Weight(gone) + Weight(c)
      && sumWeight == n.sumWeight - Weight(gone) + Weight(c) && itemCnt == n.itemCnt - Taking(gone) + Taking(c)
    ensures ValidNode(Adjusted(n, b, Sub(sub'), w, sumWeight, itemCnt))
    ensures sub.maxItems * b + k < |Cells(n)| && Cells(n)[sub.maxItems * b + k] == Cells(sub)[k]
    ensures Cells(Adjusted(n, b, Sub(sub'), w, sumWeight, itemCnt)) == Cells(n)[sub.maxItems * b + k := c]
  {
    TotalUpdate(Cells(sub), k, c);
    assert w == sub'.sumWeight;
    SubSlot(sub', n.level);
    CellsSize(sub);
    assert sub.maxItems == Width(n.level);
    assert sub.maxItems * b == b * Width(n.level);
    hide ValidNode, ValidSlot, Block, Cells, Width, Capacity, Total, Occupied;
    BranchChanged(n, b, Sub(sub'), w, k, c, sumWeight, itemCnt);
  }

  lemma SubSlot(sub: Node, level: nat)
    requires ValidNode(sub) && sub.level == level - 1
    ensures level > 0 && ValidSlot(Sub(sub), sub.sumWeight, level) && Block(Sub(sub), sub.sumWeight, level) == Cells(sub)
  {
  }

  lemma FullPrefix(left: seq<Cell>, mid: seq<Cell>, right: seq<Cell>, k: nat)
    requires Full(left) && k <= |mid| && Full(mid[..k])
    ensures Full((left + mid + right)[..|left| + k])
  {
    assert (left + mid + right)[..|left| + k] == left + mid[..k];
  }

  /** The first branch with room below it. */
  method FindBranch(n: Node) returns (branch: nat)
    requires ValidNode(n) && n.itemCnt < n.maxItems
    ensures branch < BRANCHES && Full(Blocks(n.slots[..branch], n.weights[..branch], n.level))
    ensures n.slots[branch].Nil? || (n.level > 0 && n.slots[branch].Sub? && n.slots[branch].node.itemCnt < n.slots[branch].node.maxItems)
  {
    hide Block, ValidSlot, Width;
    branch := 0;
    while n.slots[branch] != Nil
      && (n.level == 0 || (n.slots[branch].Sub? && n.slots[branch].node.itemCnt == n.slots[branch].node.maxItems))
      invariant branch < BRANCHES && Full(Blocks(n.slots[..branch], n.weights[..branch], n.level))
      decreases BRANCHES - branch
    {
      SplitAt(n, branch);
      FullBlock(n.slots[branch], n.weights[branch], n.level);
      branch := branch + 1;
      if branch == BRANCHES {
        assert n.slots[..branch] == n.slots && n.weights[..branch] == n.weights;
        NodeIsFull(n);
        assert false;
      }
    }
    BranchHasRoom(n.slots[branch], n.weights[branch], n.level);
  }

  lemma FullBlock(slot: Slot, weight: nat, level: nat)
    requires ValidSlot(slot, weight, level) && slot != Nil
    requires level > 0 ==> slot.Sub? && slot.node.itemCnt == slot.node.maxItems
    ensures Full(Block(slot, weight, level))
  {
    if level > 0 { SubBlock(slot, weight, level); }
  }

  lemma BranchHasRoom(slot: Slot, weight: nat, level: nat)
    requires ValidSlot(slot, weight, level)
    ensures slot == Nil || (level == 0 && slot.Leaf?) || (level > 0 && slot.Sub? && slot.node.itemCnt <= slot.node.maxItems)
  {
    if level > 0 && slot.Sub? {
      CellsSize(slot.node);
      OccupiedBound(Cells(slot.node));
    }
  }

  /** Which branch a position belongs to. */
  lemma Branching(idx: nat, width: nat)
    requires width > 0 && idx < BRANCHES * width
    ensures idx / width < BRANCHES && idx - idx / width * width < width && width * (idx / width) == idx / width * width
    ensures idx - idx / width * width >= 0
  {
    var q := idx / width;
    assert idx == q * width + idx % width;
    if q >= BRANCHES { Monotone(BRANCHES, q, width); }
  }

  lemma Monotone(a: nat, b: nat, width: nat)
    requires a <= b
    ensures a * width <= b * width
  {
  }

  /** The position, seen from the node and from its branch. */
  lemma CellOf(n: Node, b: nat, k: nat)
    requires ValidNode(n) && b < BRANCHES && k < Width(n.level)
    ensures |Block(n.slots[b], n.weights[b], n.level)| == Width(n.level)
    ensures b * Width(n.level) + k < |Cells(n)|
    ensures Cells(n)[b * Width(n.level) + k] == Block(n.slots[b], n.weights[b], n.level)[k]
  {
    hide *;
    Shape(n, b);
    BlockSize(n.slots[b], n.weights[b], n.level);
    SplitAt(n, b);
    var left, mid := Blocks(n.slots[..b], n.weights[..b], n.level), Block(n.slots[b], n.weights[b], n.level);
    var right := Blocks(n.slots[b + 1..], n.weights[b + 1..], n.level);
    assert (left + mid + right)[|left| + k] == mid[k];
  }

  /** Changes exactly one position; weight zero vacates it. */
  method SetWeight(n: Node, idx: nat, weight: nat) returns (n': Node, diff: int)
    requires ValidNode(n) && idx < |Cells(n)| && Cells(n)[idx].Taken?
    ensures ValidNode(n') && n'.level == n.level && diff == weight - Cells(n)[idx].weight
    ensures Cells(n') == Cells(n)[idx := if weight == 0 then Vacant else Taken(Cells(n)[idx].item, weight)]
    decreases n.level
  {
    hide ValidNode, ValidSlot, Block, Blocks, Cells, Width, Capacity, Total, Occupied;
    CellsSize(n);
    ghost var c := if weight == 0 then Vacant else Taken(Cells(n)[idx].item, weight);
    Counters(n, idx, c);
    if n.level == 0 {
      MaxItems(n);
      WidthOfLeaf();
      Shape(n, idx);
      LeafCell(n, idx);
      var oldWeight := n.weights[idx];
      diff := weight - oldWeight;
      var slot := if weight == 0 then Nil else n.slots[idx];
      var itemCnt := if weight == 0 then n.itemCnt - 1 else n.itemCnt;
      LeafChanged(n, idx, slot, weight, c, n.sumWeight + diff, itemCnt);
      return Adjusted(n, idx, slot, weight, n.sumWeight + diff, itemCnt), diff;
    }
    MaxItems(n);
    var branchItems := n.maxItems / BRANCHES;
    Branching(idx, branchItems);
    var branch := idx / branchItems;
    var rest := idx - branch * branchItems;
    Shape(n, branch);
    CellOf(n, branch, rest);
    SubBlock(n.slots[branch], n.weights[branch], n.level);
    var subNode := n.slots[branch].node;
    SubOf(n, branch, subNode);
    var sub';
    sub', diff := SetWeight(subNode, rest, weight);
    var itemCnt := if weight == 0 then n.itemCnt - 1 else n.itemCnt;
    Counters(subNode, rest, c);
    SubChanged(n, branch, subNode, sub', rest, c, n.weights[branch] + diff, n.sumWeight + diff, itemCnt);
    return Adjusted(n, branch, Sub(sub'), n.weights[branch] + diff, n.sumWeight + diff, itemCnt), diff;
  }

  /** The counters leave room for the change. */
  lemma Counters(n: Node, idx: nat, c: Cell)
    requires ValidNode(n) && idx < |Cells(n)| && Cells(n)[idx].Taken?
    ensures n.sumWeight >= Cells(n)[idx].weight && n.itemCnt >= 1
  {
    TotalUpdate(Cells(n), idx, c);
    TotalUpdate(Cells(n), idx, Vacant);
  }

  lemma MaxItems(n: Node)
    requires ValidNode(n)
    ensures n.maxItems == BRANCHES * Width(n.level) && Width(n.level) > 0
  {
  }

  lemma LeafCell(n: Node, b: nat)
    requires ValidNode(n) && n.level == 0 && b < BRANCHES
    ensures b < |Cells(n)| && Cells(n)[b] == if n.slots[b].Leaf? then Taken(n.slots[b].item, n.weights[b]) else Vacant
  {
    hide Blocks, Cells, Total, Occupied;
    CellOf(n, b, 0);
  }

  /** The interval of summed weights that belongs to position k holds the value. */
  ghost predicate DrawnAt(cells: seq<Cell>, k: nat, val: nat, item: Item, weight: nat) {
    && k < |cells| && cells[k] == Taken(item, weight)
    && Total(cells[..k]) <= val < Total(cells[..k]) + weight
  }

  /** Draws the item whose interval of weight holds the value. */
  method Choose(n: Node, val: nat) returns (item: Item, weight: nat)
    requires ValidNode(n) && val < n.sumWeight
    ensures exists k: nat :: DrawnAt(Cells(n), k, val, item, weight)
    decreases n.level
  {
    hide ValidNode, ValidSlot, Block, Blocks, Cells, Width, Capacity, Total, Occupied;
    item, weight := 0, 0;
    var left := val;
    var i := 0;
    Shape(n, 0);
    NothingBefore(n);
    while i < BRANCHES
      invariant i <= BRANCHES && Total(Blocks(n.slots[..i], n.weights[..i], n.level)) + left == val
    {
      Shape(n, i);
      SplitAt(n, i);
      BlockSize(n.slots[i], n.weights[i], n.level);
      ghost var before, block := Blocks(n.slots[..i], n.weights[..i], n.level), Block(n.slots[i], n.weights[i], n.level);
      ghost var after := Blocks(n.slots[i + 1..], n.weights[i + 1..], n.level);
      if left < n.weights[i] {
        NotNil(n, i);
        if n.level == 0 {
          WidthOfLeaf();
          LeafCell(n, i);
          EmptyPrefix(block);
          PrefixIs(before, block, after, 0);
          assert DrawnAt(Cells(n), i, val, n.slots[i].item, n.weights[i]);
          return n.slots[i].item, n.weights[i];
        }
        SubBlock(n.slots[i], n.weights[i], n.level);
        item, weight := Choose(n.slots[i].node, left);
        ghost var k: nat :| DrawnAt(Cells(n.slots[i].node), k, left, item, weight);
        PrefixIs(before, block, after, k);
        assert DrawnAt(Cells(n), |before| + k, val, item, weight);
        return;
      }
      left := left - n.weights[i];
      TotalConcat(before, block);
      i := i + 1;
    }
    AllBranches(n);
    assert false;
  }

  /** The intervals do not overlap, so the value decides the item. */
  lemma ChoiceIsUnique(cells: seq<Cell>, val: nat, k: nat, item: Item, weight: nat, k': nat, item': Item, weight': nat)
    requires DrawnAt(cells, k, val, item, weight) && DrawnAt(cells, k', val, item', weight')
    ensures k == k' && item == item' && weight == weight'
  {
    if k < k' { NextInterval(cells, k, k'); }
    if k' < k { NextInterval(cells, k', k); }
  }

  lemma NextInterval(cells: seq<Cell>, k: nat, k': nat)
    requires k < k' <= |cells|
    ensures Total(cells[..k]) + Weight(cells[k]) <= Total(cells[..k'])
  {
    assert cells[..k'] == cells[..k] + [cells[k]] + cells[k + 1..k'];
    TotalConcat(cells[..k] + [cells[k]], cells[k + 1..k']);
    TotalConcat(cells[..k], [cells[k]]);
    assert Total([cells[k]]) == Weight(cells[k]) by { assert [cells[k]][1..] == []; }
  }

  lemma WidthOfLeaf()
    ensures Width(0) == 1
  {
  }

  lemma EmptyPrefix(s: seq<Cell>)
    ensures Total(s[..0]) == 0
  {
  }

  lemma NothingBefore(n: Node)
    ensures Total(Blocks(n.slots[..0], n.weights[..0], n.level)) == 0
  {
  }

  lemma NotNil(n: Node, b: nat)
    requires ValidNode(n) && b < BRANCHES && n.weights[b] > 0
    ensures n.level == 0 ==> n.slots[b].Leaf?
    ensures n.level > 0 ==> n.slots[b].Sub?
  {
  }

  lemma AllBranches(n: Node)
    requires ValidNode(n)
    ensures Total(Blocks(n.slots[..BRANCHES], n.weights[..BRANCHES], n.level)) == n.sumWeight
  {
    assert n.slots[..BRANCHES] == n.slots && n.weights[..BRANCHES] == n.weights;
  }

  lemma PrefixIs(left: seq<Cell>, mid: seq<Cell>, right: seq<Cell>, k: nat)
    requires k < |mid|
    ensures (left + mid + right)[|left| + k] == mid[k]
    ensures Total((left + mid + right)[..|left| + k]) == Total(left) + Total(mid[..k])
  {
    assert (left + mid + right)[..|left| + k] == left + mid[..k];
    TotalConcat(left, mid[..k]);
  }

  // ---------- the owner of the tree ----------

  ghost predicate Holds(cells: seq<Cell>, k: nat, item: Item) {
    k < |cells| && cells[k].Taken? && cells[k].item == item
  }

  /** Items and taken positions correspond one to one. */
  ghost predicate Indexes(cells: seq<Cell>, idx: map<Item, nat>) {
    && (forall item | item in idx :: Holds(cells, idx[item], item))
    && (forall k: nat | k < |cells| && cells[k].Taken? :: cells[k].item in idx && idx[cells[k].item] == k)
  }

  ghost function WeightsOf(cells: seq<Cell>, idx: map<Item, nat>): map<Item, nat>
    requires Indexes(cells, idx)
  {
    map item | item in idx :: assert Holds(cells, idx[item], item); cells[idx[item]].weight
  }

  lemma IndexesSet(cells: seq<Cell>, idx: map<Item, nat>, item: Item, weight: nat)
    requires Indexes(cells, idx) && item in idx
    ensures idx[item] < |cells| && Holds(cells, idx[item], item)
    ensures var cells' := cells[idx[item] := Taken(item, weight)];
      Indexes(cells', idx) && WeightsOf(cells', idx) == WeightsOf(cells, idx)[item := weight]
  {
    assert Holds(cells, idx[item], item);
    var cells' := cells[idx[item] := Taken(item, weight)];
    forall other | other in idx
      ensures Holds(cells', idx[other], other)
    {
      assert Holds(cells, idx[other], other);
    }
  }

  lemma IndexesDrop(cells: seq<Cell>, idx: map<Item, nat>, item: Item)
    requires Indexes(cells, idx) && item in idx
    ensures idx[item] < |cells|
    ensures var cells' := cells[idx[item] := Vacant];
      Indexes(cells', idx - {item}) && WeightsOf(cells', idx - {item}) == WeightsOf(cells, idx) - {item}
  {
    assert Holds(cells, idx[item], item);
    var cells' := cells[idx[item] := Vacant];
    forall other | other in idx - {item}
      ensures Holds(cells', idx[other], other)
    {
      assert Holds(cells, idx[other], other);
    }
  }

  lemma IndexesAdd(cells: seq<Cell>, idx: map<Item, nat>, item: Item, weight: nat, k: nat)
    requires Indexes(cells, idx) && item !in idx && k < |cells| && cells[k] == Vacant
    ensures var cells' := cells[k := Taken(item, weight)];
      Indexes(cells', idx[item := k]) && WeightsOf(cells', idx[item := k]) == WeightsOf(cells, idx)[item := weight]
  {
    var cells', idx' := cells[k := Taken(item, weight)], idx[item := k];
    forall other | other in idx'
      ensures Holds(cells', idx'[other], other)
    {
      if other != item { assert Holds(cells, idx[other], other); }
    }
  }

  lemma IndexesGrow(cells: seq<Cell>, idx: map<Item, nat>, n: nat)
    requires Indexes(cells, idx)
    ensures Indexes(cells + Vacancies(n), idx) && WeightsOf(cells + Vacancies(n), idx) == WeightsOf(cells, idx)
  {
    forall item | item in idx
      ensures Holds(cells + Vacancies(n), idx[item], item)
    {
      assert Holds(cells, idx[item], item);
    }
  }

  // ---------- drawing, on the positions ----------

  /** The position whose interval holds the value. */
  function PickAt(cells: seq<Cell>, val: nat): (k: nat)
    requires val < Total(cells)
    ensures k < |cells| && cells[k].Taken? && DrawnAt(cells, k, val, cells[k].item, cells[k].weight)
  {
    if val < Weight(cells[0]) then 0
    else
      var k := PickAt(cells[1..], val - Weight(cells[0]));
      assert cells[..k + 1][1..] == cells[1..][..k];
      k + 1
  }

  /** What is stored for an item. */
  function Kept(item: Item, weight: nat): Cell {
    if weight == 0 then Vacant else Taken(item, weight)
  }

  datatype Turned = Took(item: Item) | Again(cells: seq<Cell>)

  /** One turn of the loop: an item that has become lighter is taken if the toss falls below its weight. */
  function Turn(cells: seq<Cell>, current: Item -> nat, val: nat, toss: nat): (r: Turned)
    requires val < Total(cells)
    ensures r.Again? ==> Total(r.cells) < Total(cells) && |r.cells| == |cells|
  {
    var k := PickAt(cells, val);
    var item, last := cells[k].item, cells[k].weight;
    var weight := current(item);
    if weight >= last || toss < weight then Took(item)
    else
      TotalUpdate(cells, k, Kept(item, weight));
      Again(cells[k := Kept(item, weight)])
  }

  /** Numbers below a bound, one for each turn and use. */
  type Random = (nat, nat) -> nat

  ghost predicate InRange(random: Random) {
    forall t: nat, n: nat | n > 0 :: random(t, n) < n
  }

  /** What is drawn, from turn t on. */
  ghost function Drawn(cells: seq<Cell>, current: Item -> nat, random: Random, t: nat): Option<Item>
    requires InRange(random)
    decreases Total(cells)
  {
    if Total(cells) == 0 then None else
      var val := random(2 * t, Total(cells));
      match Turn(cells, current, val, random(2 * t + 1, cells[PickAt(cells, val)].weight))
      case Took(item) => Some(item)
      case Again(rest) => Drawn(rest, current, random, t + 1)
  }

  class WeightedRandomSelect {
    var root: Node
    var idx: map<Item, nat>

    ghost predicate Valid()
      reads this
    {
      ValidNode(root) && Indexes(Cells(root), idx)
    }

    /** The map from items to weights that the tree stands for. */
    ghost function Weights(): map<Item, nat>
      reads this
      requires Valid()
    {
      WeightsOf(Cells(root), idx)
    }

    constructor ()
      ensures Valid() && Weights() == map[]
    {
      EmptyNodeIs(0);
      root, idx := EmptyNode(0), map[];
    }

    /** Sets, adds or, with weight zero, removes one item; the others keep weight and position. */
    method Set(item: Item, weight: nat)
      requires Valid()
      modifies this
      ensures Valid()
      ensures Weights() == if weight == 0 then old(Weights()) - {item} else old(Weights())[item := weight]
      ensures forall other | other != item && other in old(idx) :: other in idx && idx[other] == old(idx)[other]
      ensures root.sumWeight == old(root).sumWeight - (if item in old(Weights()) then old(Weights())[item] else 0) + weight
      ensures item in old(idx) ==>
        old(idx)[item] < |old(Cells(root))| && Cells(root) == old(Cells(root))[old(idx)[item] := Kept(item, weight)]
    {
      hide ValidNode, Cells, Indexes, WeightsOf, Capacity;
      if item in idx {
        IndexesSet(Cells(root), idx, item, weight);
        IndexesDrop(Cells(root), idx, item);
        WeightAt(Cells(root), idx, item);
        SumIs(root, idx[item], if weight == 0 then Vacant else Taken(item, weight));
        var diff;
        root, diff := SetWeight(root, idx[item], weight);
        SumOf(root);
        if weight == 0 {
          idx := idx - {item};
        }
      } else {
        NotThere(Cells(root), idx, item);
        if weight != 0 {
          if root.itemCnt == root.maxItems {
            Grown(root);
            IndexesGrow(Cells(root), idx, 7 * root.maxItems);
            root := NewRoot(root);
          }
          NotFuller(root);
          ghost var before := root;
          var k;
          root, k := Insert(root, item, weight);
          IndexesAdd(Cells(before), idx, item, weight, k);
          SumIs(before, k, Taken(item, weight));
          SumOf(root);
          idx := idx[item := k];
        }
      }
    }

    /**
     Draws an item in proportion to the weights stored; an item whose weight has gone down
     since is stored again, and only kept with the matching chance.  Every retry lowers the
     sum of the weights.
     */
    method Draw(current: Item -> nat, random: Random) returns (r: Option<Item>)
      requires Valid() && InRange(random)
      modifies this
      ensures Valid() && r == Drawn(old(Cells(root)), current, random, 0)
      ensures r.None? ==> Weights() == map[]
      ensures r.Some? ==> r.value in old(Weights()) && r.value in Weights() && Weights()[r.value] == current(r.value) > 0
      ensures forall item | item in Weights() ::
        item in old(Weights()) && (Weights()[item] == old(Weights())[item] || Weights()[item] == current(item))
      ensures forall item | item in old(Weights()) && item !in Weights() :: current(item) == 0
    {
      hide ValidNode, Cells, Indexes, WeightsOf, PickAt, Total;
      var t := 0;
      while true
        invariant Valid() && Drawn(Cells(root), current, random, t) == Drawn(old(Cells(root)), current, random, 0)
        invariant forall item | item in Weights() ::
          item in old(Weights()) && (Weights()[item] == old(Weights())[item] || Weights()[item] == current(item))
        invariant forall item | item in old(Weights()) && item !in Weights() :: current(item) == 0
        decreases root.sumWeight
      {
        SumOf(root);
        if root.sumWeight == 0 {
          NothingLeft(root, idx);
          return None;
        }
        var val := random(2 * t, root.sumWeight);
        var choice, lastWeight := Choose(root, val);
        ghost var k := PickAt(Cells(root), val);
        PickedIs(Cells(root), val, choice, lastWeight);
        ChosenIs(Cells(root), idx, k);
        var weight := current(choice);
        if weight != lastWeight {
          Set(choice, weight);
        }
        if weight >= lastWeight || random(2 * t + 1, lastWeight) < weight {
          return Some(choice);
        }
        t := t + 1;
      }
    }
  }

  lemma PickedIs(cells: seq<Cell>, val: nat, item: Item, weight: nat)
    requires val < Total(cells) && exists k: nat :: DrawnAt(cells, k, val, item, weight)
    ensures cells[PickAt(cells, val)] == Taken(item, weight)
  {
    var k: nat :| DrawnAt(cells, k, val, item, weight);
    var picked := PickAt(cells, val);
    ChoiceIsUnique(cells, val, k, item, weight, picked, cells[picked].item, cells[picked].weight);
  }

  lemma WeightAt(cells: seq<Cell>, idx: map<Item, nat>, item: Item)
    requires Indexes(cells, idx) && item in idx
    ensures item in WeightsOf(cells, idx) && Holds(cells, idx[item], item) && WeightsOf(cells, idx)[item] == cells[idx[item]].weight
  {
  }

  lemma NotThere(cells: seq<Cell>, idx: map<Item, nat>, item: Item)
    requires Indexes(cells, idx) && item !in idx
    ensures item !in WeightsOf(cells, idx) && WeightsOf(cells, idx) - {item} == WeightsOf(cells, idx)
  {
  }

  lemma ChosenIs(cells: seq<Cell>, idx: map<Item, nat>, k: nat)
    requires Indexes(cells, idx) && k < |cells| && cells[k].Taken?
    ensures cells[k].item in WeightsOf(cells, idx) && WeightsOf(cells, idx)[cells[k].item] == cells[k].weight
    ensures cells[k].item in idx && idx[cells[k].item] == k
  {
  }

  lemma SumIs(n: Node, k: nat, c: Cell)
    requires ValidNode(n) && k < |Cells(n)|
    ensures Total(Cells(n)[k := c]) == n.sumWeight - Weight(Cells(n)[k]) + Weight(c)
  {
    TotalUpdate(Cells(n), k, c);
  }

  lemma SumOf(n: Node)
    requires ValidNode(n)
    ensures n.sumWeight == Total(Cells(n))
  {
  }

  /** Weights are positive, so no sum means no item. */
  lemma NothingLeft(n: Node, idx: map<Item, nat>)
    requires ValidNode(n) && Indexes(Cells(n), idx) && n.sumWeight == 0
    ensures WeightsOf(Cells(n), idx) == map[]
  {
    forall item | item in idx
      ensures false
    {
      assert Holds(Cells(n), idx[item], item);
      PositiveCells(n, idx[item]);
      TotalUpdate(Cells(n), idx[item], Vacant);
    }
  }

  lemma {:induction false} PositiveCells(n: Node, k: nat)
    requires ValidNode(n) && k < |Cells(n)| && Cells(n)[k].Taken?
    ensures Cells(n)[k].weight > 0
    decreases n.level
  {
    hide ValidNode, Blocks, Cells, Block, Width, Capacity;
    CellsSize(n);
    MaxItems(n);
    var width := Width(n.level);
    Branching(k, width);
    var b, rest := k / width, k - k / width * width;
    Shape(n, b);
    CellOf(n, b, rest);
    if n.level == 0 {
      WidthOfLeaf();
      LeafCell(n, b);
    } else {
      SubBlock(n.slots[b], n.weights[b], n.level);
      PositiveCells(n.slots[b].node, rest);
    }
  }

  lemma NotFuller(n: Node)
    requires ValidNode(n)
    ensures n.itemCnt <= n.maxItems
  {
    Shape(n, 0);
  }

  function NewRoot(root: Node): Node {
    Node(root.level + 1, [Sub(root)] + seq(BRANCHES - 1, i => Nil), [root.sumWeight] + seq(BRANCHES - 1, i => 0),
         root.sumWeight, root.itemCnt, root.maxItems * BRANCHES)
  }

  /** A new level puts vacant positions behind the old ones, which keep their numbers. */
  lemma Grown(root: Node)
    requires ValidNode(root)
    ensures ValidNode(NewRoot(root)) && NewRoot(root).itemCnt < NewRoot(root).maxItems
    ensures Cells(NewRoot(root)) == Cells(root) + Vacancies(7 * root.maxItems)
  {
    var n := NewRoot(root);
    var nils: seq<Slot>, zeros: seq<nat> := seq(BRANCHES - 1, i => Nil), seq(BRANCHES - 1, i => 0);
    BlocksConcat([Sub(root)], nils, [root.sumWeight], zeros, n.level);
    OneBlock(Sub(root), root.sumWeight, n.level);
    SubSlot(root, n.level);
    NilBlocks(nils, zeros, n.level);
    VacantTotal(7 * root.maxItems);
    TotalConcat(Cells(root), Vacancies(7 * root.maxItems));
    NotFuller(root);
  }
}
