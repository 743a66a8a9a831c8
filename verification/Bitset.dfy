/** kernel/header/lib/bitset.h on one 32-bit word: the lowest clear bit by a de Bruijn product. */
module Bitset {
  /** 1 << i. */
  function Bit(i: int): bv32
    requires 0 <= i < 32
  {
    if i == 0 then 0x00000001
    else if i == 1 then 0x00000002
    else if i == 2 then 0x00000004
    else if i == 3 then 0x00000008
    else if i == 4 then 0x00000010
    else if i == 5 then 0x00000020
    else if i == 6 then 0x00000040
    else if i == 7 then 0x00000080
    else if i == 8 then 0x00000100
    else if i == 9 then 0x00000200
    else if i == 10 then 0x00000400
    else if i == 11 then 0x00000800
    else if i == 12 then 0x00001000
    else if i == 13 then 0x00002000
    else if i == 14 then 0x00004000
    else if i == 15 then 0x00008000
    else if i == 16 then 0x00010000
    else if i == 17 then 0x00020000
    else if i == 18 then 0x00040000
    else if i == 19 then 0x00080000
    else if i == 20 then 0x00100000
    else if i == 21 then 0x00200000
    else if i == 22 then 0x00400000
    else if i == 23 then 0x00800000
    else if i == 24 then 0x01000000
    else if i == 25 then 0x02000000
    else if i == 26 then 0x04000000
    else if i == 27 then 0x08000000
    else if i == 28 then 0x10000000
    else if i == 29 then 0x20000000
    else if i == 30 then 0x40000000
    else 0x80000000
  }

  /** MultiplyDeBruijnBitPosition. */
  function Position(x: bv32): (r: int)
    ensures 0 <= r < 32
  {
    if x == 0 then 0
    else if x == 1 then 1
    else if x == 2 then 28
    else if x == 3 then 2
    else if x == 4 then 29
    else if x == 5 then 14
    else if x == 6 then 24
    else if x == 7 then 3
    else if x == 8 then 30
    else if x == 9 then 22
    else if x == 10 then 20
    else if x == 11 then 15
    else if x == 12 then 25
    else if x == 13 then 17
    else if x == 14 then 4
    else if x == 15 then 8
    else if x == 16 then 31
    else if x == 17 then 27
    else if x == 18 then 13
    else if x == 19 then 23
    else if x == 20 then 21
    else if x == 21 then 19
    else if x == 22 then 16
    else if x == 23 then 7
    else if x == 24 then 26
    else if x == 25 then 12
    else if x == 26 then 18
    else if x == 27 then 6
    else if x == 28 then 11
    else if x == 29 then 5
    else if x == 30 then 10
    else 9
  }

  function FirstClear(w: bv32): (r: int)
    ensures 0 <= r < 32
  {
    var c := !w;
    Position(((c & (0 - c)) * 0x077CB531) >> 27)
  }

  predicate OneBit(b: bv32) {
    Quarter0(b) || Quarter1(b) || Quarter2(b) || Quarter3(b)
  }

  predicate Quarter0(b: bv32) {
    b == 0x00000001 || b == 0x00000002 || b == 0x00000004 || b == 0x00000008 || b == 0x00000010 || b == 0x00000020 ||
      b == 0x00000040 || b == 0x00000080
  }

  predicate Quarter1(b: bv32) {
    b == 0x00000100 || b == 0x00000200 || b == 0x00000400 || b == 0x00000800 || b == 0x00001000 || b == 0x00002000 ||
      b == 0x00004000 || b == 0x00008000
  }

  predicate Quarter2(b: bv32) {
    b == 0x00010000 || b == 0x00020000 || b == 0x00040000 || b == 0x00080000 || b == 0x00100000 || b == 0x00200000 ||
      b == 0x00400000 || b == 0x00800000
  }

  predicate Quarter3(b: bv32) {
    b == 0x01000000 || b == 0x02000000 || b == 0x04000000 || b == 0x08000000 || b == 0x10000000 || b == 0x20000000 ||
      b == 0x40000000 || b == 0x80000000
  }

  lemma Isolate(c: bv32)
    requires c != 0
    ensures OneBit(c & (0 - c))
  {
  }

  /** The product with the de Bruijn constant tells the bits apart. */
  lemma PositionOf(b: bv32)
    requires OneBit(b)
    ensures Bit(Position((b * 0x077CB531) >> 27)) == b
  {
    hide Quarter0, Quarter1, Quarter2, Quarter3, Position, Bit;
    if Quarter0(b) { Position0(b); }
    if Quarter1(b) { Position1(b); }
    if Quarter2(b) { Position2(b); }
    if Quarter3(b) { Position3(b); }
  }

  lemma Position0(b: bv32)
    requires Quarter0(b)
    ensures Bit(Position((b * 0x077CB531) >> 27)) == b
  {
  }

  lemma Position1(b: bv32)
    requires Quarter1(b)
    ensures Bit(Position((b * 0x077CB531) >> 27)) == b
  {
  }

  lemma Position2(b: bv32)
    requires Quarter2(b)
    ensures Bit(Position((b * 0x077CB531) >> 27)) == b
  {
  }

  lemma Position3(b: bv32)
    requires Quarter3(b)
    ensures Bit(Position((b * 0x077CB531) >> 27)) == b
  {
  }

  /** set_first_unset_bit finds the lowest clear bit. */
  lemma FirstClearIsLowest(w: bv32)
    requires w != 0xFFFFFFFF
    ensures var b := Bit(FirstClear(w)); w & b == 0 && w & (b - 1) == b - 1
  {
    hide OneBit, Position, Bit;
    var c := !w;
    Isolate(c);
    PositionOf(c & (0 - c));
    Below(w);
  }

  lemma Below(w: bv32)
    requires w != 0xFFFFFFFF
    ensures var b := !w & (0 - !w); w & b == 0 && w & (b - 1) == b - 1
  {
  }

  // ----------------------------------------------------------------- words as sets of bits

  /** check_bit. */
  predicate Has(w: bv32, i: int)
    requires 0 <= i < 32
  {
    w & Bit(i) != 0
  }

  /** The bit found is the lowest of those that are clear. */
  lemma FirstClearBits(w: bv32, i: int)
    requires w != 0xFFFFFFFF && 0 <= i < 8
    ensures i < FirstClear(w) ==> Has(w, i)
    ensures i == FirstClear(w) ==> !Has(w, i)
  {
    hide Bit, FirstClear;
    FirstClearIsLowest(w);
    if i < FirstClear(w) { ClearBelow(w, i, FirstClear(w)); }
  }

  lemma ClearBelow(w: bv32, i: int, j: int)
    requires 0 <= i < 8 && i < j < 32 && w & (Bit(j) - 1) == Bit(j) - 1
    ensures Has(w, i)
  {
  }

  /** set_bit and clear_bit change one bit. */
  lemma SetBits(w: bv32, r: int, i: int)
    requires 0 <= r < 32 && 0 <= i < 8
    ensures Has(w | Bit(r), i) <==> Has(w, i) || i == r
  {
    hide Has;
    if i == r { SetHere(w, r, i); } else { SetElsewhere(w, r, i); }
  }

  lemma SetHere(w: bv32, r: int, i: int)
    requires 0 <= r < 32 && 0 <= i < 8 && i == r
    ensures Has(w | Bit(r), i)
  {
  }

  lemma SetElsewhere(w: bv32, r: int, i: int)
    requires 0 <= r < 32 && 0 <= i < 8 && i != r
    ensures Has(w | Bit(r), i) <==> Has(w, i)
  {
  }

  lemma ClearBits(w: bv32, r: int, i: int)
    requires 0 <= r < 8 && 0 <= i < 8
    ensures Has(w & !Bit(r), i) <==> Has(w, i) && i != r
  {
    hide Has;
    if i == r { ClearHere(w, r, i); } else { ClearElsewhere(w, r, i); }
  }

  lemma ClearHere(w: bv32, r: int, i: int)
    requires 0 <= r < 8 && i == r
    ensures !Has(w & !Bit(r), i)
  {
  }

  lemma ClearElsewhere(w: bv32, r: int, i: int)
    requires 0 <= r < 8 && 0 <= i < 8 && i != r
    ensures Has(w & !Bit(r), i) <==> Has(w, i)
  {
    hide Bit, Has;
    ClearKeeps(w, r, i);
    ClearAdds(w, r, i);
  }

  lemma ClearKeeps(w: bv32, r: int, i: int)
    requires 0 <= r < 8 && 0 <= i < 8 && i != r
    ensures Has(w, i) ==> Has(w & !Bit(r), i)
  {
  }

  lemma ClearAdds(w: bv32, r: int, i: int)
    requires 0 <= r < 8 && 0 <= i < 8 && i != r
    ensures Has(w & !Bit(r), i) ==> Has(w, i)
  {
  }

  lemma AllSet(i: int)
    requires 0 <= i < 8
    ensures Has(0xFFFFFFFF, i)
  {
  }
}
