/**
 The binary heap of nonces behind txSortedMap: the sift procedures of Go's
 container/heap over the order of nonceHeap (evmcore/tx_list.go).
 */
module NonceHeap {

  function Parent(c: nat): nat
    requires c > 0
  {
    (c - 1) / 2
  }

  ghost predicate IsHeap(h: seq<nat>) {
    forall c | 0 < c < |h| :: h[Parent(c)] <= h[c]
  }

  /** The heap order on the edges below lo, except those that touch position i. */
  ghost predicate ExceptAt(h: seq<nat>, lo: nat, i: nat) {
    && (forall c | 0 < c < |h| && lo <= Parent(c) && Parent(c) != i && c != i :: h[Parent(c)] <= h[c])
    && (forall c | 0 < c < |h| && Parent(c) == i && i > 0 && lo <= Parent(i) :: h[Parent(i)] <= h[c])
  }

  /** Only the edge into i may be broken. */
  ghost predicate ExceptAbove(h: seq<nat>, i: nat) {
    && (forall c | 0 < c < |h| && c != i :: h[Parent(c)] <= h[c])
    && (forall c | 0 < c < |h| && Parent(c) == i && i > 0 :: h[Parent(i)] <= h[c])
  }

  ghost predicate HeapFrom(h: seq<nat>, lo: nat) {
    forall c | 0 < c < |h| && lo <= Parent(c) :: h[Parent(c)] <= h[c]
  }

  ghost predicate BelowChildren(h: seq<nat>, i: nat)
    requires i < |h|
  {
    forall c | 0 < c < |h| && Parent(c) == i :: h[i] <= h[c]
  }

  function Swapped(h: seq<nat>, i: nat, j: nat): (r: seq<nat>)
    requires i < |h| && j < |h|
    ensures |r| == |h| && r[i] == h[j] && r[j] == h[i]
    ensures forall k | 0 <= k < |h| && k != i && k != j :: r[k] == h[k]
    ensures multiset(r) == multiset(h)
  {
    h[i := h[j]][j := h[i]]
  }

  /** The root of a heap is its least element. */
  lemma {:induction false} RootIsLeast(h: seq<nat>, i: nat)
    requires IsHeap(h) && i < |h|
    ensures h[0] <= h[i]
  {
    if i > 0 { RootIsLeast(h, Parent(i)); }
  }

  /** Swapping with the smaller child moves the broken edges one level down. */
  lemma DownStep(h: seq<nat>, lo: nat, i: nat, child: nat)
    requires lo <= i < |h| && 0 < child < |h| && Parent(child) == i && h[child] < h[i]
    requires forall c | 0 < c < |h| && Parent(c) == i :: h[child] <= h[c]
    requires ExceptAt(h, lo, i)
    ensures ExceptAt(Swapped(h, i, child), lo, child)
    ensures lo <= Parent(child) ==> Swapped(h, i, child)[i] <= Swapped(h, i, child)[child]
  {
  }

  lemma DownEnd(h: seq<nat>, lo: nat, i: nat)
    requires ExceptAt(h, lo, i) && i < |h| && i > 0 && h[Parent(i)] <= h[i]
    requires forall c | 0 < c < |h| && Parent(c) == i :: h[i] <= h[c]
    ensures HeapFrom(h, lo)
  {
  }

  method Down(h0: seq<nat>, i0: nat, ghost lo: nat) returns (h: seq<nat>, moved: bool)
    requires i0 < |h0| && lo <= i0 && ExceptAt(h0, lo, i0)
    ensures |h| == |h0| && multiset(h) == multiset(h0)
    ensures !moved ==> h == h0 && BelowChildren(h, i0)
    ensures moved ==> HeapFrom(h, lo)
  {
    hide ExceptAt, HeapFrom;
    h := h0;
    var i := i0;
    while true
      invariant i0 <= i < |h| == |h0| && multiset(h) == multiset(h0)
      invariant i == i0 ==> h == h0
      invariant ExceptAt(h, lo, i)
      invariant i != i0 ==> h[Parent(i)] <= h[i]
      decreases |h| - i
    {
      var child := 2 * i + 1;
      if child >= |h| {
        assert forall c | 0 < c < |h| :: Parent(c) != i;
        break;
      }
      if child + 1 < |h| && h[child + 1] < h[child] {
        child := child + 1;
      }
      assert forall c | 0 < c < |h| && Parent(c) == i :: h[child] <= h[c];
      if h[child] >= h[i] {
        break;
      }
      DownStep(h, lo, i, child);
      h := Swapped(h, i, child);
      i := child;
    }
    moved := i > i0;
    if moved {
      DownEnd(h, lo, i);
    }
  }

  method Up(h0: seq<nat>, j0: nat) returns (h: seq<nat>)
    requires j0 < |h0| && ExceptAbove(h0, j0)
    ensures |h| == |h0| && multiset(h) == multiset(h0) && IsHeap(h)
  {
    h := h0;
    var j: nat := j0;
    while j > 0 && h[j] < h[Parent(j)]
      invariant j < |h| == |h0| && multiset(h) == multiset(h0) && ExceptAbove(h, j)
    {
      h := Swapped(h, j, Parent(j));
      j := Parent(j);
    }
  }

  method Push(h0: seq<nat>, x: nat) returns (h: seq<nat>)
    requires IsHeap(h0)
    ensures IsHeap(h) && multiset(h) == multiset(h0) + multiset{x}
  {
    h := Up(h0 + [x], |h0|);
  }

  lemma DropLast(h: seq<nat>)
    requires |h| > 0
    ensures multiset(h) == multiset(h[..|h| - 1]) + multiset{h[|h| - 1]}
  {
    assert h == h[..|h| - 1] + [h[|h| - 1]];
  }

  /** With the last element put in place of i, only the edges around i may be broken. */
  lemma Displaced(h: seq<nat>, i: nat)
    requires IsHeap(h) && i < |h| - 1
    ensures ExceptAt(Swapped(h, i, |h| - 1)[..|h| - 1], 0, i)
  {
  }

  lemma Settled(h: seq<nat>, i: nat)
    requires i < |h| && ExceptAt(h, 0, i) && BelowChildren(h, i)
    ensures ExceptAbove(h, i)
  {
  }

  lemma DropLastIsHeap(h: seq<nat>)
    requires IsHeap(h) && |h| > 0
    ensures IsHeap(h[..|h| - 1])
  {
  }

  /** Down, or if that does nothing, Up. */
  method Sift(h0: seq<nat>, i: nat) returns (h: seq<nat>)
    requires i < |h0| && ExceptAt(h0, 0, i)
    ensures IsHeap(h) && multiset(h) == multiset(h0)
  {
    hide IsHeap, ExceptAt, ExceptAbove, HeapFrom, BelowChildren;
    var moved;
    h, moved := Down(h0, i, 0);
    if !moved {
      Settled(h, i);
      h := Up(h, i);
    } else {
      HeapFromRoot(h);
    }
  }

  /** heap.Remove: the element at i leaves. */
  method Remove(h0: seq<nat>, i: nat) returns (h: seq<nat>)
    requires IsHeap(h0) && i < |h0|
    ensures IsHeap(h) && multiset(h0) == multiset(h) + multiset{h0[i]}
  {
    hide IsHeap, ExceptAt, Swapped;
    var n := |h0| - 1;
    h := Swapped(h0, i, n)[..n];
    Detached(h0, i);
    if n != i {
      Displaced(h0, i);
      h := Sift(h, i);
    } else {
      DropLastIsHeap(h0);
    }
  }

  /** Swapped to the end and cut off. */
  lemma Detached(h: seq<nat>, i: nat)
    requires i < |h|
    ensures var n := |h| - 1;
      && |Swapped(h, i, n)[..n]| == n && multiset(h) == multiset(Swapped(h, i, n)[..n]) + multiset{h[i]}
      && (i == n ==> Swapped(h, i, n)[..n] == h[..n])
  {
    DropLast(Swapped(h, i, |h| - 1));
  }

  lemma HeapFromRoot(h: seq<nat>)
    requires HeapFrom(h, 0)
    ensures IsHeap(h)
  {
  }

  /** heap.Pop: Remove at the root, where sifting up has nothing to do. */
  method Pop(h0: seq<nat>) returns (h: seq<nat>, x: nat)
    requires IsHeap(h0) && |h0| > 0
    ensures x == h0[0] && IsHeap(h) && multiset(h0) == multiset(h) + multiset{x}
  {
    x := h0[0];
    h := Remove(h0, 0);
  }

  method Init(h0: seq<nat>) returns (h: seq<nat>)
    ensures IsHeap(h) && multiset(h) == multiset(h0)
  {
    h := h0;
    var i: nat := |h| / 2;
    while i > 0
      invariant i <= |h| == |h0| && multiset(h) == multiset(h0) && HeapFrom(h, i)
    {
      i := i - 1;
      var moved;
      h, moved := Down(h, i, i);
    }
  }
}
