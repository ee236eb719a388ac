// The unsigned integers of the drivers, and 32-bit wrap-around.

module Integers {

  type Byte = x: int | 0 <= x < 0x100
  type Halfword = x: int | 0 <= x < 0x1_0000
  type Word = x: int | 0 <= x < 0x1_0000_0000

  const TWO_16 := 0x1_0000
  const TWO_32 := 0x1_0000_0000

  function Min(a: nat, b: nat): nat { if a < b then a else b }

  // What 32 bits keep of a number.
  function Cut(n: nat): (w: Word)
    ensures n < 0x1_0000_0000 <==> w == n
    ensures 0x1_0000_0000 <= n < 0x2_0000_0000 ==> w == n - 0x1_0000_0000
  {
    n % 0x1_0000_0000
  }

  lemma ByteOf(n: nat)
    requires n < 0x100
    ensures (n as bv8) as int == n
  {
    assert 0 <= (n as bv8) as int < 0x100;
  }
}
