/** Word-level helpers: round_up_power_2 and trailing_zero of kernel/memory/utils.h. */
module Words {
  import opened Numbers

  function Smear(x: bv64): bv64 {
    var a := x | (x >> 1);
    var b := a | (a >> 2);
    var c := b | (b >> 4);
    var d := c | (c >> 8);
    var e := d | (d >> 16);
    e | (e >> 32)
  }

  function RoundUpPower2(x: bv64): bv64 {
    Smear(x - 1) + 1
  }

  /** `debruijn_ctz64` */
  function Debruijn64(i: bv64): nat {
    if i == 0 then 63 else if i == 1 then 0 else if i == 2 then 1 else if i == 3 then 52
    else if i == 4 then 2 else if i == 5 then 6 else if i == 6 then 53 else if i == 7 then 26
    else if i == 8 then 3 else if i == 9 then 37 else if i == 10 then 40 else if i == 11 then 7
    else if i == 12 then 33 else if i == 13 then 54 else if i == 14 then 47 else if i == 15 then 27
    else if i == 16 then 61 else if i == 17 then 4 else if i == 18 then 38 else if i == 19 then 45
    else if i == 20 then 43 else if i == 21 then 41 else if i == 22 then 21 else if i == 23 then 8
    else if i == 24 then 23 else if i == 25 then 34 else if i == 26 then 58 else if i == 27 then 55
    else if i == 28 then 48 else if i == 29 then 17 else if i == 30 then 28 else if i == 31 then 10
    else if i == 32 then 62 else if i == 33 then 51 else if i == 34 then 5 else if i == 35 then 25
    else if i == 36 then 36 else if i == 37 then 39 else if i == 38 then 32 else if i == 39 then 46
    else if i == 40 then 60 else if i == 41 then 44 else if i == 42 then 42 else if i == 43 then 20
    else if i == 44 then 22 else if i == 45 then 57 else if i == 46 then 16 else if i == 47 then 9
    else if i == 48 then 50 else if i == 49 then 24 else if i == 50 then 35 else if i == 51 then 31
    else if i == 52 then 59 else if i == 53 then 19 else if i == 54 then 56 else if i == 55 then 15
    else if i == 56 then 49 else if i == 57 then 30 else if i == 58 then 18 else if i == 59 then 14
    else if i == 60 then 29 else if i == 61 then 13 else if i == 62 then 12 else if i == 63 then 11
    else 0
  }

  /** The table index computed from the lowest set bit of `x`. */
  function TableIndex(x: bv64): bv64 {
    ((x & (0 - x)) * 0x045FBAC7992A70DA) >> 58
  }

  function TrailingZero(x: bv64): nat {
    (if x == 0 then 1 else 0) + Debruijn64(TableIndex(x))
  }

  /** The order page_alloc asks the allocator for. */
  function OrderFor(pages: bv64): nat {
    TrailingZero(RoundUpPower2(pages))
  }

  /** The least k with x < 2^k, for the orders the allocator has. */
  function LeastOrder(x: bv64): nat {
    if x < 1 then 0 else if x < 2 then 1 else if x < 4 then 2 else if x < 8 then 3
    else if x < 16 then 4 else if x < 32 then 5 else if x < 64 then 6 else if x < 128 then 7
    else if x < 256 then 8 else 9
  }

  lemma SmearMask(x: bv64)
    ensures Smear(x) & (Smear(x) + 1) == 0
  {
  }

  lemma SmearCovers(x: bv64)
    ensures Smear(x) >= x
  {
  }

  /** The allocator's block sizes are looked up correctly in the de Bruijn table. */
  lemma TrailingZeroOfSize()
    ensures TrailingZero(1) == 0
    ensures TrailingZero(2) == 1
    ensures TrailingZero(4) == 2
    ensures TrailingZero(8) == 3
    ensures TrailingZero(16) == 4
    ensures TrailingZero(32) == 5
    ensures TrailingZero(64) == 6
    ensures TrailingZero(128) == 7
    ensures TrailingZero(256) == 8
  {
    assert TableIndex(1) == 1;
    assert TableIndex(2) == 2;
    assert TableIndex(4) == 4;
    assert TableIndex(8) == 8;
    assert TableIndex(16) == 17;
    assert TableIndex(32) == 34;
    assert TableIndex(64) == 5;
    assert TableIndex(128) == 11;
    assert TableIndex(256) == 23;
  }

  lemma RoundUpNext(x: bv64)
    ensures RoundUpPower2(x + 1) == Smear(x) + 1
  {
    hide Smear;
    assert x + 1 - 1 == x;
  }

  /** page_alloc(n) asks for the least power of two that is at least n; `x` is n - 1. */
  lemma OrderIsLeast(x: bv64)
    requires x < 256
    ensures var k := OrderFor(x + 1); x as nat < Pow2(k) && (k > 0 ==> Pow2(k - 1) <= x as nat)
  {
    hide OrderFor, LeastOrder;
    OrderInTable(x);
    LeastPower(x);
  }

  lemma LeastPower(x: bv64)
    requires x < 256
    ensures var k := LeastOrder(x); x as nat < Pow2(k) && (k > 0 ==> Pow2(k - 1) <= x as nat)
  {
    Powers();
    AsNumber(x);
  }

  lemma Powers()
    ensures Pow2(0) == 1 && Pow2(1) == 2 && Pow2(2) == 4 && Pow2(3) == 8 && Pow2(4) == 16
    ensures Pow2(5) == 32 && Pow2(6) == 64 && Pow2(7) == 128 && Pow2(8) == 256
  {
  }

  lemma AsNumber(x: bv64)
    ensures (x < 1 <==> x as nat < 1) && (x < 2 <==> x as nat < 2) && (x < 4 <==> x as nat < 4)
    ensures (x < 8 <==> x as nat < 8) && (x < 16 <==> x as nat < 16) && (x < 32 <==> x as nat < 32)
    ensures (x < 64 <==> x as nat < 64) && (x < 128 <==> x as nat < 128) && (x < 256 <==> x as nat < 256)
  {
  }

  lemma OrderInTable(x: bv64)
    requires x < 256
    ensures OrderFor(x + 1) == LeastOrder(x)
  {
    hide TrailingZero, RoundUpPower2, Smear;
    TrailingZeroOfSize();
    RoundUpNext(x);
    if x < 1 { SmearTo0(x); }
    else if x < 2 { SmearTo1(x); }
    else if x < 4 { SmearTo2(x); }
    else if x < 8 { SmearTo3(x); }
    else if x < 16 { SmearTo4(x); }
    else if x < 32 { SmearTo5(x); }
    else if x < 64 { SmearTo6(x); }
    else if x < 128 { SmearTo7(x); }
    else { SmearTo8(x); }
  }

  lemma SmearTo0(x: bv64)
    requires x < 1
    ensures Smear(x) + 1 == 1
  {
  }

  lemma SmearTo1(x: bv64)
    requires x < 2 && 1 <= x
    ensures Smear(x) + 1 == 2
  {
  }

  lemma SmearTo2(x: bv64)
    requires x < 4 && 2 <= x
    ensures Smear(x) + 1 == 4
  {
  }

  lemma SmearTo3(x: bv64)
    requires x < 8 && 4 <= x
    ensures Smear(x) + 1 == 8
  {
  }

  lemma SmearTo4(x: bv64)
    requires x < 16 && 8 <= x
    ensures Smear(x) + 1 == 16
  {
  }

  lemma SmearTo5(x: bv64)
    requires x < 32 && 16 <= x
    ensures Smear(x) + 1 == 32
  {
  }

  lemma SmearTo6(x: bv64)
    requires x < 64 && 32 <= x
    ensures Smear(x) + 1 == 64
  {
  }

  lemma SmearTo7(x: bv64)
    requires x < 128 && 64 <= x
    ensures Smear(x) + 1 == 128
  {
  }

  lemma SmearTo8(x: bv64)
    requires x < 256 && 128 <= x
    ensures Smear(x) + 1 == 256
  {
  }

  lemma OneHot0(r: bv64)
    requires r & (r - 1) == 0 && TableIndex(r) == 1
    ensures r == 1
  {
  }

  lemma OneHot1(r: bv64)
    requires r & (r - 1) == 0 && TableIndex(r) == 2
    ensures r == 2
  {
  }

  lemma OneHot2(r: bv64)
    requires r & (r - 1) == 0 && TableIndex(r) == 4
    ensures r == 4
  {
  }

  lemma OneHot3(r: bv64)
    requires r & (r - 1) == 0 && TableIndex(r) == 8
    ensures r == 8
  {
  }

  lemma OneHot4(r: bv64)
    requires r & (r - 1) == 0 && TableIndex(r) == 17
    ensures r == 16
  {
  }

  lemma OneHot5(r: bv64)
    requires r & (r - 1) == 0 && TableIndex(r) == 34
    ensures r == 32
  {
  }

  lemma OneHot6(r: bv64)
    requires r & (r - 1) == 0 && TableIndex(r) == 5
    ensures r == 64
  {
  }

  lemma OneHot7(r: bv64)
    requires r & (r - 1) == 0 && TableIndex(r) == 11
    ensures r == 128
  {
  }

  lemma OneHot8(r: bv64)
    requires r & (r - 1) == 0 && TableIndex(r) == 23
    ensures r == 256
  {
  }

  lemma SmallEntries(i: bv64)
    requires i < 64 && Debruijn64(i) < 9
    ensures i == 1 || i == 2 || i == 4 || i == 8 || i == 17 || i == 34 || i == 5 || i == 11 || i == 23
  {
    hide Debruijn64;
    if i < 32 { SmallEntriesLow(i); } else if i < 48 { SmallEntriesMid(i); } else { SmallEntriesHigh(i); }
  }

  lemma SmallEntriesLow(i: bv64)
    requires i < 32 && Debruijn64(i) < 9
    ensures i == 1 || i == 2 || i == 4 || i == 8 || i == 17 || i == 5 || i == 11 || i == 23
  {
  }

  lemma SmallEntriesMid(i: bv64)
    requires 32 <= i && i < 48 && Debruijn64(i) < 9
    ensures i == 34
  {
  }

  lemma SmallEntriesHigh(i: bv64)
    requires 48 <= i && i < 64
    ensures Debruijn64(i) >= 9
  {
    hide Debruijn64;
    if i < 56 { SmallEntries48(i); } else { SmallEntries56(i); }
  }

  lemma SmallEntries48(i: bv64)
    requires 48 <= i && i < 56
    ensures Debruijn64(i) >= 9
  {
  }

  lemma SmallEntries56(i: bv64)
    requires 56 <= i && i < 64
    ensures Debruijn64(i) >= 9
  {
  }

  /** A power of two above 256 is not looked up as an order below 9. */
  lemma TableAbove(r: bv64)
    requires r & (r - 1) == 0 && r > 256
    ensures Debruijn64(TableIndex(r)) >= 9
  {
    hide TableIndex, Debruijn64;
    var i := TableIndex(r);
    IndexBound(r);
    if Debruijn64(i) < 9 {
      SmallEntries(i);
      if i == 1 { OneHot0(r); }
      else if i == 2 { OneHot1(r); }
      else if i == 4 { OneHot2(r); }
      else if i == 8 { OneHot3(r); }
      else if i == 17 { OneHot4(r); }
      else if i == 34 { OneHot5(r); }
      else if i == 5 { OneHot6(r); }
      else if i == 11 { OneHot7(r); }
      else { OneHot8(r); }
    }
  }

  lemma IndexBound(x: bv64)
    ensures TableIndex(x) < 64
  {
  }

  /** page_alloc(0) and requests above 256 pages ask for an order the allocator does not have;
      `x` is n - 1, which wraps to the largest word for n = 0. */
  lemma OrderTooLarge(x: bv64)
    requires x >= 256
    ensures OrderFor(x + 1) >= 9
  {
    hide Smear, Debruijn64, TableIndex, RoundUpPower2;
    SmearMask(x);
    SmearCovers(x);
    MaskNext(Smear(x), x);
    RoundUpNext(x);
    var r := Smear(x) + 1;
    if r == 0 {
      TableAtZero();
    } else {
      TableAbove(r);
    }
  }

  lemma TableAtZero()
    ensures Debruijn64(TableIndex(0)) == 63
  {
    assert TableIndex(0) == 0;
  }

  lemma MaskNext(s: bv64, x: bv64)
    requires s & (s + 1) == 0 && s >= x && x >= 256
    ensures (s + 1) & (s + 1 - 1) == 0 && (s + 1 == 0 || s + 1 > 256)
  {
  }
}
