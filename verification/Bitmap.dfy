/** Sets of small numbers as bytes (utils/bitmap). */
module Bitmap {

  type Set = seq<bv8>

  /** The numbers that fit. */
  function Room(s: Set): nat {
    8 * |s|
  }

  function Mask(bit: nat): bv8
    requires bit < 8
  {
    if bit == 0 then 1 else if bit == 1 then 2 else if bit == 2 then 4 else if bit == 3 then 8
    else if bit == 4 then 16 else if bit == 5 then 32 else if bit == 6 then 64 else 128
  }

  predicate TestBit(b: bv8, bit: nat)
    requires bit < 8
  {
    b & Mask(bit) != 0
  }

  function SetBit(b: bv8, bit: nat): bv8
    requires bit < 8
  {
    b | Mask(bit)
  }

  predicate Has(s: Set, i: nat)
    requires i < Room(s)
  {
    TestBit(s[i / 8], i % 8)
  }

  ghost predicate Holds(s: Set, i: nat) {
    i < Room(s) && Has(s, i)
  }

  ghost function Members(s: Set): (m: set<nat>)
    ensures forall i: nat :: i in m <==> Holds(s, i)
  {
    set i: nat | i < Room(s) && Has(s, i)
  }

  lemma OneBit(b: bv8, i: nat, j: nat)
    requires i < 8 && j < 8
    ensures TestBit(SetBit(b, i), j) <==> i == j || TestBit(b, j)
  {
  }

  function New(max: nat): (s: Set)
    ensures max <= Room(s) < max + 8
    ensures Members(s) == {}
  {
    var l := if max % 8 != 0 then max / 8 + 1 else max / 8;
    var s: Set := seq(l, i => 0);
    assert forall i: nat | i < Room(s) :: !Has(s, i);
    s
  }

  function WithBit(s: Set, i: nat): Set
    requires i < Room(s)
  {
    s[i / 8 := SetBit(s[i / 8], i % 8)]
  }

  lemma HasWithBit(s: Set, i: nat, j: nat)
    requires i < Room(s) && j < Room(s)
    ensures |WithBit(s, i)| == |s| && (Has(WithBit(s, i), j) <==> Has(s, j) || i == j)
  {
    hide TestBit, SetBit;
    assert i == j <==> i / 8 == j / 8 && i % 8 == j % 8;
    if i / 8 == j / 8 {
      OneBit(s[i / 8], i % 8, j % 8);
    }
  }

  lemma MembersWithBit(s: Set, i: nat)
    requires i < Room(s)
    ensures |WithBit(s, i)| == |s| && Members(WithBit(s, i)) == Members(s) + {i}
  {
    hide WithBit, Has;
    HasWithBit(s, i, i);
    forall j: nat
      ensures j in Members(WithBit(s, i)) <==> j in Members(s) + {i}
    {
      if j < Room(s) { HasWithBit(s, i, j); }
    }
  }

  function Put(s: Set, i: nat): (r: Set)
    requires i < Room(s)
    ensures |r| == |s| && Members(r) == Members(s) + {i}
  {
    MembersWithBit(s, i);
    WithBit(s, i)
  }
}
