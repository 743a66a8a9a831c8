/** kernel/header/lib/bitset.h on an array of 32-bit words: xor_bit and check_bit. */
module BitArray {
  import opened Bitset
  import opened BuddySpec

  /** Different bits do not meet. */
  lemma BitsApart(i: int, j: int)
    requires 0 <= i < 32 && 0 <= j < 32 && i != j
    ensures Bit(i) & Bit(j) == 0
  {
    hide Bit;
    if i < j { BitBelow(i, j); } else { BitBelow(j, i); }
  }

  lemma BitBelow(i: int, j: int)
    requires 0 <= i < j < 32
    ensures Bit(i) & Bit(j) == 0
  {
  }

  lemma BitOnce(w: bv32, i: int)
    requires 0 <= i < 32
    ensures Has(w ^ Bit(i), i) <==> !Has(w, i)
  {
    hide Bit;
    SingleBit(i);
    XorHere(w, Bit(i));
  }

  lemma SingleBit(i: int)
    requires 0 <= i < 32
    ensures Bit(i) != 0 && Bit(i) & (Bit(i) - 1) == 0
  {
  }

  lemma XorHere(w: bv32, b: bv32)
    requires b != 0 && b & (b - 1) == 0
    ensures (w ^ b) & b != 0 <==> w & b == 0
  {
  }

  predicate Meets(w: bv32, b: bv32) {
    w & b != 0
  }

  lemma HasMeets(w: bv32, i: int)
    requires 0 <= i < 32
    ensures Has(w, i) <==> Meets(w, Bit(i))
  {
    hide Bit;
  }

  lemma XorElsewhere(w: bv32, b: bv32, c: bv32)
    requires b & c == 0
    ensures Meets(w ^ b, c) <==> Meets(w, c)
  {
  }

  lemma XorOther(w: bv32, r: int, i: int)
    requires 0 <= r < 32 && 0 <= i < 32 && i != r
    ensures Has(w ^ Bit(r), i) <==> Has(w, i)
  {
    hide Bit, Has, Meets;
    BitsApart(r, i);
    XorElsewhere(w, Bit(r), Bit(i));
    HasMeets(w, i);
    HasMeets(w ^ Bit(r), i);
  }

  /** xor_bit changes one bit. */
  lemma XorBits(w: bv32, r: int, i: int)
    requires 0 <= r < 32 && 0 <= i < 32
    ensures Has(w ^ Bit(r), i) <==> (Has(w, i) != (i == r))
  {
    hide Bit, Has;
    if i == r { BitOnce(w, i); } else { XorOther(w, r, i); }
  }

  // ------------------------------------------------------------------ arrays as sets of bits

  /** check_bit. */
  predicate BitAt(words: seq<bv32>, a: nat) {
    a / 32 < |words| && Has(words[a / 32], a % 32)
  }

  ghost function BitsOf(words: seq<bv32>): set<nat> {
    set a: nat | a < 32 * |words| && BitAt(words, a)
  }

  /** xor_bit with 1. */
  function XorAt(words: seq<bv32>, a: nat): seq<bv32>
    requires a / 32 < |words|
  {
    words[a / 32 := words[a / 32] ^ Bit(a % 32)]
  }

  /** Exactly one bit of the array flips. */
  lemma XorToggles(words: seq<bv32>, a: nat)
    requires a / 32 < |words|
    ensures BitsOf(XorAt(words, a)) == Toggle(BitsOf(words), a)
    ensures BitAt(XorAt(words, a), a) <==> a !in BitsOf(words)
  {
    hide BitAt, XorAt;
    XorLength(words, a);
    forall c: nat
      ensures BitAt(XorAt(words, a), c) <==> (BitAt(words, c) != (c == a))
    {
      XorOne(words, a, c);
    }
    InArray(words, a);
  }

  lemma XorLength(words: seq<bv32>, a: nat)
    requires a / 32 < |words|
    ensures |XorAt(words, a)| == |words| && a < 32 * |words|
  {
  }

  lemma InArray(words: seq<bv32>, a: nat)
    ensures a in BitsOf(words) <==> BitAt(words, a)
  {
    hide Has;
  }

  lemma XorOne(words: seq<bv32>, a: nat, c: nat)
    requires a / 32 < |words|
    ensures BitAt(XorAt(words, a), c) <==> (BitAt(words, c) != (c == a))
  {
    hide Has, Bit;
    if c / 32 == a / 32 { XorBits(words[a / 32], a % 32, c % 32); }
  }

  lemma AllClear(n: nat, words: seq<bv32>)
    requires |words| == n && forall i :: 0 <= i < n ==> words[i] == 0
    ensures BitsOf(words) == {}
  {
    hide Has;
    forall a: nat
      ensures !BitAt(words, a)
    {
      if a / 32 < n { ZeroHas(a % 32); }
    }
  }

  lemma ZeroHas(i: int)
    requires 0 <= i < 32
    ensures !Has(0, i)
  {
    hide Bit;
  }
}
