/** The machine integers of the source, as ranges of the mathematical integers. */
module Words {

  const MAX_UINT64: int := 0xFFFF_FFFF_FFFF_FFFF
  const MAX_UINT32: int := 0xFFFF_FFFF

  type uint64 = x: int | 0 <= x <= MAX_UINT64
  type uint32 = x: int | 0 <= x <= MAX_UINT32

  /** What a uint64 variable holds after the exact result `x` has been stored in it. */
  function Wrap64(x: nat): (r: uint64)
    ensures r <= x && (x <= MAX_UINT64 ==> r == x)
  {
    x % 0x1_0000_0000_0000_0000
  }

  function Wrap32(x: nat): (r: uint32)
    ensures r <= x && (x <= MAX_UINT32 ==> r == x)
  {
    x % 0x1_0000_0000
  }

  /** Below the bound nothing changes, and whole multiples of it vanish. */
  lemma Wrap64Cycles(x: uint64, k: nat)
    ensures Wrap64(x + k * 0x1_0000_0000_0000_0000) == x
  {
  }

  lemma Wrap32Cycles(x: uint32, k: nat)
    ensures Wrap32(x + k * 0x1_0000_0000) == x
  {
  }
}
