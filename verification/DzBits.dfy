/** Bits of a bitmap byte, as kernel/src/fs/dzfs.c handles them. */
module DzBits {

  /** 1 << k */
  function Mask(k: nat): (m: bv8)
    requires k < 8
  {
    if k == 0 then 1 else if k == 1 then 2 else if k == 2 then 4 else if k == 3 then 8
    else if k == 4 then 16 else if k == 5 then 32 else if k == 6 then 64 else 128
  }

  predicate Bit(b: bv8, k: nat)
    requires k < 8
  {
    b & Mask(k) != 0
  }

  function SetBit(b: bv8, k: nat): (r: bv8)
    requires k < 8
    ensures forall j :: 0 <= j < 8 ==> (Bit(r, j) <==> j == k || Bit(b, j))
  {
    b | Mask(k)
  }

  function ClearBit(b: bv8, k: nat): (r: bv8)
    requires k < 8
    ensures forall j :: 0 <= j < 8 ==> (Bit(r, j) <==> j != k && Bit(b, j))
  {
    b & !Mask(k)
  }

  /** __builtin_ctz of a byte that is not 0: its lowest bit. */
  function Ctz(b: bv8): (k: nat)
    requires b != 0
    ensures k < 8 && Bit(b, k) && forall j :: 0 <= j < k ==> !Bit(b, j)
  {
    if Bit(b, 0) then 0 else if Bit(b, 1) then 1 else if Bit(b, 2) then 2 else if Bit(b, 3) then 3
    else if Bit(b, 4) then 4 else if Bit(b, 5) then 5 else if Bit(b, 6) then 6 else 7
  }

  /** The positions of the bits of b. */
  function Bits(b: bv8): (s: set<nat>)
    ensures forall k :: k in s <==> k < 8 && Bit(b, k)
  {
    set k: nat | k < 8 && Bit(b, k)
  }

  /** A byte is 0 when it has no bits. */
  lemma NoBits(b: bv8)
    ensures b == 0 <==> Bits(b) == {}
  {
    if b != 0 { assert Ctz(b) in Bits(b); }
  }

  /** a & (a - 1) drops the lowest bit. */
  lemma DropLowest(a: bv8)
    requires a != 0
    ensures Bits(a & (a - 1)) == Bits(a) - {Ctz(a)}
  {
    var k := Ctz(a);
    forall j: nat | j < 8 ensures Bit(a & (a - 1), j) <==> Bit(a, j) && j != k {}
  }

  /** popcount: the loop a &= a - 1 turns once for every bit. */
  method Popcount(byte: bv8) returns (c: nat)
    ensures c == |Bits(byte)|
  {
    var a := byte;
    c := 0;
    while a != 0
      invariant c + |Bits(a)| == |Bits(byte)|
      decreases |Bits(a)|
    {
      DropLowest(a);
      a := a & (a - 1);
      c := c + 1;
    }
    NoBits(a);
  }
}
