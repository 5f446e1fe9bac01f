/**
 WeightedPermutation (utils/weighted_shuffle.go): draws indexes one by one, in proportion
 to the weights that remain, with a tree of partial sums.  The hash chain behind the
 random numbers is a parameter.
 */
module WeightedShuffle {
  import opened Totals
  import opened Words

  // ---------- the tree over the indexes ----------

  function Left(i: nat): nat {
    i * 2 + 1
  }

  function Right(i: nat): nat {
    i * 2 + 2
  }

  /** j is i or lies below it. */
  predicate Below(j: nat, i: nat) {
    j == i || (j > i && Below((j - 1) / 2, i))
  }

  lemma {:induction false} BelowSplits(j: nat, i: nat)
    ensures Below(j, i) <==> j == i || Below(j, Left(i)) || Below(j, Right(i))
    ensures !(Below(j, Left(i)) && Below(j, Right(i))) && !Below(i, Left(i)) && !Below(i, Right(i))
    ensures Below(j, i) ==> i <= j
    decreases j
  {
    if j > 0 {
      BelowSplits((j - 1) / 2, i);
    }
  }

  lemma {:induction false} AllBelowRoot(j: nat)
    ensures Below(j, 0)
    decreases j
  {
    if j > 0 { AllBelowRoot((j - 1) / 2); }
  }

  /** The weight at i and below. */
  function Under(w: seq<nat>, i: nat): nat
    decreases if i < |w| then |w| - i else 0
  {
    if i >= |w| then 0 else w[i] + Under(w, Left(i)) + Under(w, Right(i))
  }

  /** Changing one weight changes the sums above it, and no other. */
  lemma {:induction false} UnderUpdate(w: seq<nat>, j: nat, v: nat, i: nat)
    requires j < |w|
    ensures Under(w[j := v], i) == Under(w, i) + if Below(j, i) then v - w[j] else 0
    decreases if i < |w| then |w| - i else 0
  {
    BelowSplits(j, i);
    if i < |w| {
      UnderUpdate(w, j, v, Left(i));
      UnderUpdate(w, j, v, Right(i));
    }
  }

  lemma {:induction false} UnderBound(w: seq<nat>, j: nat, i: nat)
    requires j < |w| && Below(j, i)
    ensures w[j] <= Under(w, i)
  {
    UnderUpdate(w, j, 0, i);
  }

  lemma {:induction false} SumUpdate(w: seq<nat>, j: nat, v: nat)
    requires j < |w|
    ensures Sum(w[j := v]) == Sum(w) - w[j] + v
  {
    var last := |w| - 1;
    if j < last {
      SumUpdate(w[..last], j, v);
      assert w[j := v][..last] == w[..last][j := v];
    } else {
      assert w[j := v][..last] == w[..last];
    }
  }

  lemma {:induction false} ZeroSums(w: seq<nat>, i: nat)
    requires forall j | 0 <= j < |w| :: w[j] == 0
    ensures Under(w, i) == 0 && Sum(w) == 0
    decreases (if i < |w| then |w| - i else 0), |w|
  {
    ZeroSum(w);
    if i < |w| {
      ZeroSums(w, Left(i));
      ZeroSums(w, Right(i));
    }
  }

  lemma {:induction false} ZeroSum(w: seq<nat>)
    requires forall j | 0 <= j < |w| :: w[j] == 0
    ensures Sum(w) == 0
  {
    if w != [] { ZeroSum(w[..|w| - 1]); }
  }

  /** The root stands for everything. */
  lemma {:induction false} RootIsSum(w: seq<nat>, k: nat)
    requires k <= |w| && forall j | k <= j < |w| :: w[j] == 0
    ensures Under(w, 0) == Sum(w)
    decreases k
  {
    if k == 0 {
      ZeroSums(w, 0);
    } else {
      var j := k - 1;
      RootIsSum(w[j := 0], j);
      UnderUpdate(w, j, 0, 0);
      SumUpdate(w, j, 0);
      AllBelowRoot(j);
    }
  }

  // ---------- drawing, without the tree ----------

  datatype Turn = Stop | GoLeft | GoRight

  /** Where a residue leads from i. */
  function Branch(w: seq<nat>, i: nat, r: nat): (t: Turn)
    requires i < |w|
    ensures r < Under(w, i) && t.GoLeft? ==> Under(w, Left(i)) > 0
    ensures r < Under(w, i) && t.GoRight? ==> Under(w, Right(i)) > 0
  {
    if r < w[i] then Stop else if r < w[i] + Under(w, Left(i)) then GoLeft else GoRight
  }

  /** The draw from i down: at each index one random number picks the index, its left or its right side. */
  function Descend(w: seq<nat>, rand: nat -> nat, pos: nat, i: nat): (r: (nat, nat))
    requires Under(w, i) > 0
    ensures r.0 < |w| && w[r.0] > 0 && Below(r.0, i)
    decreases if i < |w| then |w| - i else 0
  {
    match Branch(w, i, rand(pos) % Under(w, i))
    case Stop => (i, pos + 1)
    case GoLeft =>
      var d := Descend(w, rand, pos + 1, Left(i));
      BelowSplits(d.0, i);
      d
    case GoRight =>
      var d := Descend(w, rand, pos + 1, Right(i));
      BelowSplits(d.0, i);
      d
  }

  /** The order of the intervals: an index, then its left child, then its right child. */
  lemma ThreeWays(w: seq<nat>, rand: nat -> nat, pos: nat)
    requires |w| == 3 && w[0] + w[1] + w[2] > 0
    ensures var r := rand(pos) % (w[0] + w[1] + w[2]);
      && Under(w, 0) == w[0] + w[1] + w[2]
      && Descend(w, rand, pos, 0).0 == if r < w[0] then 0 else if r < w[0] + w[1] then 1 else 2
  {
    assert Under(w, 1) == w[1] + Under(w, 3) + Under(w, 4);
    assert Under(w, 2) == w[2] + Under(w, 5) + Under(w, 6);
  }

  /** Draws without replacement: what remains, where the random stream stands, what was drawn. */
  datatype Draws = Draws(left: seq<nat>, pos: nat, drawn: seq<nat>)

  function DrawMany(w: seq<nat>, rand: nat -> nat, size: nat): (d: Draws)
    requires size <= |w| && forall j | 0 <= j < |w| :: w[j] > 0
    ensures |d.left| == |w| && |d.drawn| == size
    ensures forall j | 0 <= j < |w| :: if j in d.drawn then d.left[j] == 0 else d.left[j] == w[j]
    ensures forall j | j in d.drawn :: j < |w|
    ensures forall a, b | 0 <= a < b < size :: d.drawn[a] != d.drawn[b]
  {
    if size == 0 then Draws(w, 0, []) else
      var d := DrawMany(w, rand, size - 1);
      SomethingLeft(w, d);
      var (j, pos) := Descend(d.left, rand, d.pos, 0);
      assert j !in d.drawn;
      Draws(d.left[j := 0], pos, d.drawn + [j])
  }

  /** While fewer than all are drawn the sum of what remains is positive. */
  lemma SomethingLeft(w: seq<nat>, d: Draws)
    requires |d.left| == |w| && |d.drawn| < |w| && forall j | 0 <= j < |w| :: w[j] > 0
    requires forall j | 0 <= j < |w| :: if j in d.drawn then d.left[j] == 0 else d.left[j] == w[j]
    ensures Under(d.left, 0) > 0
  {
    var j := Missing(d.drawn, |w|);
    AllBelowRoot(j);
    UnderBound(d.left, j, 0);
  }

  lemma {:induction false} Missing(drawn: seq<nat>, n: nat) returns (j: nat)
    requires |drawn| < n
    ensures j < n && j !in drawn
    decreases n
  {
    if n - 1 !in drawn {
      j := n - 1;
    } else {
      var k :| 0 <= k < |drawn| && drawn[k] == n - 1;
      var rest := drawn[..k] + drawn[k + 1..];
      j := Missing(rest, n - 1);
      assert drawn == drawn[..k] + [drawn[k]] + drawn[k + 1..];
    }
  }

  /** A shorter request is a prefix of a longer one. */
  lemma {:induction false} ShorterIsPrefix(w: seq<nat>, rand: nat -> nat, m: nat, n: nat)
    requires m <= n <= |w| && forall j | 0 <= j < |w| :: w[j] > 0
    ensures DrawMany(w, rand, m).drawn == DrawMany(w, rand, n).drawn[..m]
    decreases n
  {
    hide DrawMany;
    if m < n {
      ShorterIsPrefix(w, rand, m, n - 1);
      OneMoreDraw(w, rand, n);
    }
  }

  lemma OneMoreDraw(w: seq<nat>, rand: nat -> nat, n: nat)
    requires 0 < n <= |w| && forall j | 0 <= j < |w| :: w[j] > 0
    ensures DrawMany(w, rand, n).drawn[..n - 1] == DrawMany(w, rand, n - 1).drawn
  {
    hide Descend;
  }

  // ---------- the chance of an index ----------

  /** How many of the first n residues at i lead the given way. */
  function Residues(w: seq<nat>, i: nat, t: Turn, n: nat): nat
    requires i < |w|
  {
    if n == 0 then 0 else Residues(w, i, t, n - 1) + if Branch(w, i, n - 1) == t then 1 else 0
  }

  function Clip(n: nat, lo: nat, hi: nat): nat
    requires lo <= hi
  {
    if n <= lo then 0 else if n <= hi then n - lo else hi - lo
  }

  lemma {:induction false} ResiduesUpTo(w: seq<nat>, i: nat, n: nat)
    requires i < |w| && n <= Under(w, i)
    ensures Residues(w, i, Stop, n) == Clip(n, 0, w[i])
    ensures Residues(w, i, GoLeft, n) == Clip(n, w[i], w[i] + Under(w, Left(i)))
    ensures Residues(w, i, GoRight, n) == Clip(n, w[i] + Under(w, Left(i)), Under(w, i))
  {
    if n > 0 { ResiduesUpTo(w, i, n - 1); }
  }

  /** Of all residues at i, exactly as many lead each way as there is weight that way. */
  lemma ResiduesAreWeights(w: seq<nat>, i: nat)
    requires i < |w|
    ensures Residues(w, i, Stop, Under(w, i)) == w[i]
    ensures Residues(w, i, GoLeft, Under(w, i)) == Under(w, Left(i))
    ensures Residues(w, i, GoRight, Under(w, i)) == Under(w, Right(i))
  {
    hide Residues, Branch, Under;
    UnderIs(w, i);
    ResiduesUpTo(w, i, Under(w, i));
  }

  lemma UnderIs(w: seq<nat>, i: nat)
    requires i < |w|
    ensures Under(w, i) == w[i] + Under(w, Left(i)) + Under(w, Right(i))
  {
  }

  /** The chance that a draw from i ends at j when its first residue is r and the later ones are uniform. */
  ghost function ChanceAfter(w: seq<nat>, i: nat, j: nat, r: nat): real
    requires i < |w| && r < Under(w, i)
    decreases |w| - i, 0
  {
    match Branch(w, i, r)
    case Stop => if j == i then 1.0 else 0.0
    case GoLeft => Chance(w, Left(i), j)
    case GoRight => Chance(w, Right(i), j)
  }

  ghost function ChanceSum(w: seq<nat>, i: nat, j: nat, n: nat): real
    requires i < |w| && n <= Under(w, i)
    decreases |w| - i, 1, n
  {
    if n == 0 then 0.0 else ChanceSum(w, i, j, n - 1) + ChanceAfter(w, i, j, n - 1)
  }

  /** The chance that a draw from i ends at j when every residue is uniform: the average over the first one. */
  ghost function Chance(w: seq<nat>, i: nat, j: nat): real
    requires Under(w, i) > 0
    decreases (if i < |w| then |w| - i else 0), 2
  {
    ChanceSum(w, i, j, Under(w, i)) / Under(w, i) as real
  }

  ghost function Times(n: nat, x: real): real {
    n as real * x
  }

  lemma TimesMore(n: nat, x: real)
    ensures Times(n + 1, x) == Times(n, x) + x && Times(0, x) == 0.0
  {
  }

  /** The chance below one side, which may be empty. */
  ghost function SideChance(w: seq<nat>, side: nat, j: nat): real {
    if Under(w, side) > 0 then Chance(w, side, j) else 0.0
  }

  lemma {:induction false} ChanceSumIs(w: seq<nat>, i: nat, j: nat, n: nat)
    requires i < |w| && n <= Under(w, i)
    ensures ChanceSum(w, i, j, n) ==
      Times(Residues(w, i, Stop, n), if j == i then 1.0 else 0.0)
      + Times(Residues(w, i, GoLeft, n), SideChance(w, Left(i), j))
      + Times(Residues(w, i, GoRight, n), SideChance(w, Right(i), j))
  {
    hide Times, Chance, Under;
    var stop, left, right := if j == i then 1.0 else 0.0, SideChance(w, Left(i), j), SideChance(w, Right(i), j);
    if n == 0 {
      TimesMore(0, stop);
      TimesMore(0, left);
      TimesMore(0, right);
    } else {
      ChanceSumIs(w, i, j, n - 1);
      TimesMore(Residues(w, i, Stop, n - 1), stop);
      TimesMore(Residues(w, i, GoLeft, n - 1), left);
      TimesMore(Residues(w, i, GoRight, n - 1), right);
    }
  }

  /** The weight that counts for j below i: its own, or nothing when it is elsewhere. */
  ghost function Part(w: seq<nat>, i: nat, j: nat): nat {
    if j < |w| && Below(j, i) then w[j] else 0
  }

  lemma PartSplits(w: seq<nat>, i: nat, j: nat)
    requires i < |w|
    ensures Part(w, i, j) == (if j == i then w[i] else 0) + Part(w, Left(i), j) + Part(w, Right(i), j)
  {
    BelowSplits(j, i);
  }

  lemma {:induction false} NoPart(w: seq<nat>, i: nat, j: nat)
    requires Under(w, i) == 0
    ensures Part(w, i, j) == 0
  {
    if j < |w| && Below(j, i) { UnderBound(w, j, i); }
  }

  lemma Quotient(part: nat, total: nat)
    requires total > 0
    ensures Times(total, part as real / total as real) == part as real
  {
  }

  /**
   With uniform residues a draw from i ends at every index in proportion to its weight, and
   never outside.
   */
  lemma {:induction false} ChanceIsShare(w: seq<nat>, i: nat, j: nat)
    requires Under(w, i) > 0
    ensures Chance(w, i, j) == Part(w, i, j) as real / Under(w, i) as real
    decreases if i < |w| then |w| - i else 0
  {
    SideShare(w, i, Left(i), j);
    SideShare(w, i, Right(i), j);
    ResiduesAreWeights(w, i);
    ChanceSumIs(w, i, j, Under(w, i));
    PartSplits(w, i, j);
    OwnShare(w[i]);
  }

  lemma OwnShare(n: nat)
    ensures Times(n, 1.0) == n as real && Times(n, 0.0) == 0.0
  {
  }

  lemma {:induction false} SideShare(w: seq<nat>, i: nat, side: nat, j: nat)
    requires Under(w, i) > 0 && side in {Left(i), Right(i)}
    ensures Times(Under(w, side), SideChance(w, side, j)) == Part(w, side, j) as real
    decreases (if i < |w| then |w| - i else 0), 0
  {
    if Under(w, side) > 0 {
      ChanceIsShare(w, side, j);
      Quotient(Part(w, side, j), Under(w, side));
    } else {
      NoPart(w, side, j);
      OwnShare(0);
    }
  }

  // ---------- the tree of partial sums ----------

  datatype Node = Node(thisWeight: nat, leftWeight: nat, rightWeight: nat)

  /** What a node must hold when the remaining weights are w. */
  ghost function NodeFor(w: seq<nat>, i: nat): Node
    requires i < |w|
  {
    Node(w[i], Under(w, Left(i)), Under(w, Right(i)))
  }

  /** The nodes at i and below hold the sums of w. */
  ghost predicate Sums(nodes: seq<Node>, w: seq<nat>, i: nat) {
    |nodes| == |w| && forall j: nat | j < |w| && Below(j, i) :: nodes[j] == NodeFor(w, j)
  }

  ghost predicate SameOutside(nodes: seq<Node>, nodes': seq<Node>, i: nat) {
    |nodes| == |nodes'| && forall j: nat | j < |nodes| && !Below(j, i) :: nodes'[j] == nodes[j]
  }

  /** Building the sides first and then the node itself. */
  lemma SumsJoin(a: seq<Node>, b: seq<Node>, c: seq<Node>, d: seq<Node>, w: seq<nat>, i: nat)
    requires i < |w| == |a| && SameOutside(a, b, Left(i)) && SameOutside(b, c, Right(i))
    requires Sums(b, w, Left(i)) && Sums(c, w, Right(i)) && d == c[i := NodeFor(w, i)]
    ensures Sums(d, w, i) && SameOutside(a, d, i)
  {
    hide Under;
    forall j: nat | j < |w|
      ensures Below(j, i) ==> d[j] == NodeFor(w, j)
      ensures !Below(j, i) ==> d[j] == a[j]
    {
      BelowSplits(j, i);
    }
  }

  /** A draw on one side leaves the sums right once the node itself is corrected. */
  lemma SumsAfterSide(a: seq<Node>, b: seq<Node>, d: seq<Node>, w: seq<nat>, i: nat, side: nat, j: nat)
    requires i < |w| && Sums(a, w, i) && side in {Left(i), Right(i)} && j < |w| && Below(j, side)
    requires SameOutside(a, b, side) && Sums(b, w[j := 0], side) && d == b[i := NodeFor(w[j := 0], i)]
    ensures Sums(d, w[j := 0], i) && SameOutside(a, d, i)
  {
    forall k: nat | k < |w|
      ensures Below(k, i) ==> d[k] == NodeFor(w[j := 0], k)
      ensures !Below(k, i) ==> d[k] == a[k]
    {
      BelowSplits(k, i);
      BelowSplits(j, i);
      if Below(k, i) && k != i && !Below(k, side) {
        NodeElsewhere(w, j, k, i, side);
      }
    }
  }

  /** Outside the side of a draw no sum changes. */
  lemma NodeElsewhere(w: seq<nat>, j: nat, k: nat, i: nat, side: nat)
    requires j < |w| && k < |w| && Below(j, side) && side in {Left(i), Right(i)}
    requires Below(k, i) && k != i && !Below(k, side)
    ensures NodeFor(w[j := 0], k) == NodeFor(w, k)
  {
    BelowSplits(j, i);
    BelowSplits(k, i);
    var other := if side == Left(i) then Right(i) else Left(i);
    if Below(j, k) {
      BelowTransitive(j, k, other);
    }
    BelowSplits(j, k);
    UnderUpdate(w, j, 0, Left(k));
    UnderUpdate(w, j, 0, Right(k));
  }

  lemma {:induction false} BelowTransitive(j: nat, k: nat, i: nat)
    requires Below(j, k) && Below(k, i)
    ensures Below(j, i)
    decreases j
  {
    BelowSplits(k, i);
    if j != k { BelowTransitive((j - 1) / 2, k, i); }
  }

  /** The index itself is drawn: only its own weight goes. */
  lemma SumsAfterSelf(a: seq<Node>, w: seq<nat>, i: nat)
    requires i < |w| && Sums(a, w, i)
    ensures Sums(a[i := a[i].(thisWeight := 0)], w[i := 0], i)
    ensures SameOutside(a, a[i := a[i].(thisWeight := 0)], i)
  {
    BelowSplits(i, i);
    forall k: nat | k < |w| && Below(k, i)
      ensures a[i := a[i].(thisWeight := 0)][k] == NodeFor(w[i := 0], k)
    {
      BelowSplits(k, i);
      BelowSplits(i, Left(k));
      BelowSplits(i, Right(k));
      UnderUpdate(w, i, 0, Left(k));
      UnderUpdate(w, i, 0, Right(k));
    }
  }

  class Tree {
    const weights: seq<nat>
    const rand: nat -> nat
    const nodes: array<Node>
    var seedIndex: nat

    constructor (weights: seq<nat>, rand: nat -> nat)
      ensures this.weights == weights && this.rand == rand && fresh(nodes) && nodes.Length == |weights| && seedIndex == 0
    {
      this.weights, this.rand, seedIndex := weights, rand, 0;
      nodes := new Node[|weights|](i => Node(0, 0, 0));
    }

    method Rand32() returns (r: nat)
      modifies this`seedIndex
      ensures r == rand(old(seedIndex)) && seedIndex == old(seedIndex) + 1
    {
      r := rand(seedIndex);
      seedIndex := seedIndex + 1;
    }

    method Build(i: nat) returns (total: uint32)
      requires nodes.Length == |weights| && Under(weights, i) <= MAX_UINT32
      modifies nodes
      ensures total == Under(weights, i) && Sums(nodes[..], weights, i) && SameOutside(old(nodes[..]), nodes[..], i)
      decreases if i < |weights| then |weights| - i else 0
    {
      hide Sums, SameOutside;
      ghost var a := nodes[..];
      if i >= |weights| {
        NothingBelow(a, weights, i);
        return 0;
      }
      var thisW := weights[i];
      var leftW := Build(Left(i));
      ghost var b := nodes[..];
      var rightW := Build(Right(i));
      ghost var c := nodes[..];
      nodes[i] := Node(thisW, leftW, rightW);
      assert nodes[..] == c[i := NodeFor(weights, i)];
      SumsJoin(a, b, c, nodes[..], weights, i);
      return thisW + leftW + rightW;
    }

    static lemma NothingBelow(a: seq<Node>, w: seq<nat>, i: nat)
      requires i >= |w| == |a|
      ensures Sums(a, w, i) && SameOutside(a, a, i)
    {
      forall j: nat | j < |w|
        ensures !Below(j, i)
      {
        BelowSplits(j, i);
      }
    }

    /**
     One draw: the tree picks what drawing from the remaining weights picks, the modulus is
     never zero, and the sums again are those of the remaining weights.
     */
    method Retrieve(i: nat, ghost w: seq<nat>) returns (chosen: nat)
      requires nodes.Length == |weights| == |w| && Sums(nodes[..], w, i) && 0 < Under(w, i) <= MAX_UINT32
      requires forall j | 0 <= j < |w| :: w[j] == 0 || w[j] == weights[j]
      modifies nodes, this`seedIndex
      ensures (chosen, seedIndex) == Descend(w, rand, old(seedIndex), i)
      ensures Sums(nodes[..], w[chosen := 0], i) && SameOutside(old(nodes[..]), nodes[..], i)
      decreases if i < |w| then |w| - i else 0
    {
      hide Sums, SameOutside, Below, Descend, Under, NodeFor;
      ghost var a := nodes[..];
      DescendStep(w, rand, seedIndex, i);
      assert nodes[i] == NodeFor(w, i) by { SumsAt(a, w, i); }
      var node := nodes[i];
      var total: uint32 := node.rightWeight + node.leftWeight + node.thisWeight;
      var r := Rand32();
      r := r % total;
      if r < node.thisWeight {
        SumsAfterSelf(a, w, i);
        nodes[i] := nodes[i].(thisWeight := 0);
        assert nodes[..] == a[i := a[i].(thisWeight := 0)];
        return i;
      } else if r < node.thisWeight + node.leftWeight {
        SumsBelow(a, w, i);
        chosen := Retrieve(Left(i), w);
        ghost var b := nodes[..];
        NodeAfter(a, b, w, i, Left(i), chosen);
        nodes[i] := nodes[i].(leftWeight := nodes[i].leftWeight - weights[chosen]);
        assert nodes[..] == b[i := NodeFor(w[chosen := 0], i)];
        SumsAfterSide(a, b, nodes[..], w, i, Left(i), chosen);
      } else {
        SumsBelow(a, w, i);
        chosen := Retrieve(Right(i), w);
        ghost var b := nodes[..];
        NodeAfter(a, b, w, i, Right(i), chosen);
        nodes[i] := nodes[i].(rightWeight := nodes[i].rightWeight - weights[chosen]);
        assert nodes[..] == b[i := NodeFor(w[chosen := 0], i)];
        SumsAfterSide(a, b, nodes[..], w, i, Right(i), chosen);
      }
    }

    static lemma DescendStep(w: seq<nat>, rand: nat -> nat, pos: nat, i: nat)
      requires Under(w, i) > 0
      ensures i < |w|
      ensures var n := NodeFor(w, i);
        var r := rand(pos) % Under(w, i);
        && n.rightWeight + n.leftWeight + n.thisWeight == Under(w, i)
        && Under(w, Left(i)) <= Under(w, i) && Under(w, Right(i)) <= Under(w, i)
        && (if r < n.thisWeight then Descend(w, rand, pos, i) == (i, pos + 1)
            else if r < n.thisWeight + n.leftWeight
            then Under(w, Left(i)) > 0 && Descend(w, rand, pos, i) == Descend(w, rand, pos + 1, Left(i))
            else Under(w, Right(i)) > 0 && Descend(w, rand, pos, i) == Descend(w, rand, pos + 1, Right(i)))
    {
    }

    static lemma SumsAt(a: seq<Node>, w: seq<nat>, i: nat)
      requires Sums(a, w, i) && Under(w, i) > 0
      ensures i < |a| == |w| && a[i] == NodeFor(w, i)
    {
      assert Below(i, i);
    }

    static lemma SumsBelow(a: seq<Node>, w: seq<nat>, i: nat)
      requires Sums(a, w, i)
      ensures Sums(a, w, Left(i)) && Sums(a, w, Right(i))
    {
      forall j: nat | j < |w|
        ensures Below(j, Left(i)) || Below(j, Right(i)) ==> Below(j, i)
      {
        BelowSplits(j, i);
      }
    }

    /** The node above a draw, before and after it is corrected. */
    static lemma NodeAfter(a: seq<Node>, b: seq<Node>, w: seq<nat>, i: nat, side: nat, j: nat)
      requires i < |w| && Sums(a, w, i) && side in {Left(i), Right(i)} && SameOutside(a, b, side)
      requires j < |w| && Below(j, side)
      ensures |b| == |w| && b[i] == NodeFor(w, i) && w[j] <= Under(w, side)
      ensures side == Left(i) ==> NodeFor(w[j := 0], i) == b[i].(leftWeight := b[i].leftWeight - w[j])
      ensures side == Right(i) ==> NodeFor(w[j := 0], i) == b[i].(rightWeight := b[i].rightWeight - w[j])
    {
      assert Below(i, i);
      BelowSplits(i, i);
      BelowSplits(j, i);
      UnderBound(w, j, side);
      UnderUpdate(w, j, 0, Left(i));
      UnderUpdate(w, j, 0, Right(i));
    }
  }

  lemma NoDraw(w: seq<nat>, rand: nat -> nat)
    requires forall j | 0 <= j < |w| :: w[j] > 0
    ensures DrawMany(w, rand, 0) == Draws(w, 0, [])
  {
  }

  lemma NextDraw(w: seq<nat>, rand: nat -> nat, n: nat)
    requires n < |w| && (forall j | 0 <= j < |w| :: w[j] > 0) && Under(DrawMany(w, rand, n).left, 0) > 0
    ensures var d := DrawMany(w, rand, n);
      var (j, pos) := Descend(d.left, rand, d.pos, 0);
      DrawMany(w, rand, n + 1) == Draws(d.left[j := 0], pos, d.drawn + [j])
  {
    hide Descend, Under;
  }

  lemma {:induction false} UnderShrinks(v: seq<nat>, w: seq<nat>, i: nat)
    requires |v| == |w| && forall j | 0 <= j < |w| :: v[j] <= w[j]
    ensures Under(v, i) <= Under(w, i)
    decreases if i < |w| then |w| - i else 0
  {
    if i < |w| {
      UnderShrinks(v, w, Left(i));
      UnderShrinks(v, w, Right(i));
    }
  }

  method DrawOne(tree: Tree, ghost n: nat) returns (j: nat)
    requires n < |tree.weights| == tree.nodes.Length && Sum(tree.weights) <= MAX_UINT32
    requires forall j | 0 <= j < |tree.weights| :: tree.weights[j] > 0
    requires var d := DrawMany(tree.weights, tree.rand, n); tree.seedIndex == d.pos && Sums(tree.nodes[..], d.left, 0)
    modifies tree.nodes, tree`seedIndex
    ensures var d, d' := DrawMany(tree.weights, tree.rand, n), DrawMany(tree.weights, tree.rand, n + 1);
      d'.drawn == d.drawn + [j] && tree.seedIndex == d'.pos && Sums(tree.nodes[..], d'.left, 0)
  {
    hide Sums, SameOutside, Descend, DrawMany, Under, Below;
    ghost var d := DrawMany(tree.weights, tree.rand, n);
    SomethingLeft(tree.weights, d);
    NextDraw(tree.weights, tree.rand, n);
    RootIsSum(tree.weights, |tree.weights|);
    UnderShrinks(d.left, tree.weights, 0);
    j := tree.Retrieve(0, d.left);
  }

  /** Distinct indexes, drawn as if from the remaining weights each time. */
  method WeightedPermutation(size: nat, weights: seq<nat>, rand: nat -> nat) returns (permutation: seq<nat>)
    requires size <= |weights| && Sum(weights) <= MAX_UINT32 && forall j | 0 <= j < |weights| :: weights[j] > 0
    ensures permutation == DrawMany(weights, rand, size).drawn
    ensures |permutation| == size && (forall j | j in permutation :: j < |weights|)
    ensures forall a, b | 0 <= a < b < size :: permutation[a] != permutation[b]
  {
    permutation := [];
    if |weights| == 0 {
      return;
    }
    hide Sums, SameOutside, Descend, DrawMany, Under, Below;
    RootIsSum(weights, |weights|);
    NoDraw(weights, rand);
    var tree := new Tree(weights, rand);
    var _ := tree.Build(0);
    for i := 0 to size
      invariant var d := DrawMany(weights, rand, i);
        permutation == d.drawn && tree.seedIndex == d.pos && Sums(tree.nodes[..], d.left, 0)
    {
      var j := DrawOne(tree, i);
      permutation := permutation + [j];
    }
  }
}
