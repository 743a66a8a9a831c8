/** Powers of two and aligned blocks of them.  Products and quotients are written as repeated
    addition and subtraction so that proofs stay in linear arithmetic; `TimesIsProduct` and
    `DivIsQuotient` tie them to `*` and `/`. */
module Numbers {
  function Pow2(n: nat): (r: nat)
    ensures r >= 1
  {
    if n == 0 then 1 else 2 * Pow2(n - 1)
  }

  lemma {:induction false} Pow2Monotone(m: nat, n: nat)
    requires m <= n
    ensures Pow2(m) <= Pow2(n)
  {
    if m < n { Pow2Monotone(m, n - 1); }
  }

  lemma {:induction false} Pow2Double(n: nat)
    ensures Pow2(2 * n) == Pow2(n) * Pow2(n)
  {
    if n > 0 {
      Pow2Double(n - 1);
      assert Pow2(2 * n) == 4 * Pow2(2 * (n - 1));
    }
  }

  function Times(x: nat, m: nat): nat {
    if x == 0 then 0 else Times(x - 1, m) + m
  }

  function Div(n: nat, d: nat): nat
    requires d >= 1
    decreases n
  {
    if n < d then 0 else 1 + Div(n - d, d)
  }

  lemma {:induction false} TimesIsProduct(x: nat, m: nat)
    ensures Times(x, m) == x * m
  {
    if x > 0 {
      TimesIsProduct(x - 1, m);
      assert x * m == (x - 1) * m + m;
    }
  }

  lemma ScaleProduct(c: nat, m: nat)
    ensures c * (m * 4096) == 4096 * (c * m)
  {
  }

  lemma {:induction false} DivUnique(q: nat, d: nat, r: nat)
    requires r < d
    ensures Div(Times(q, d) + r, d) == q
  {
    if q > 0 { DivUnique(q - 1, d, r); }
  }

  lemma DivIsQuotient(q: nat, d: nat, r: nat)
    requires r < d
    ensures Div(q * d + r, d) == q
  {
    TimesIsProduct(q, d);
    DivUnique(q, d, r);
  }

  lemma {:induction false} TimesMonotone(x: nat, y: nat, m: nat)
    requires x <= y
    ensures Times(x, m) <= Times(y, m)
  {
    if x < y { TimesMonotone(x, y - 1, m); }
  }

  lemma {:induction false} TimesTwice(x: nat, m: nat)
    ensures Times(x, 2 * m) == Times(2 * x, m)
  {
    if x > 0 {
      TimesTwice(x - 1, m);
      assert Times(2 * x, m) == Times(2 * x - 1, m) + m == Times(2 * x - 2, m) + m + m;
    }
  }

  // ------------------------------------------------------------- aligned blocks

  /** `b` is a multiple of 2^k. */
  ghost predicate Aligned(b: nat, k: nat) {
    exists x: nat :: Times(x, Pow2(k)) == b
  }

  lemma {:induction false} AlignedDown(b: nat, k: nat, j: nat)
    requires j <= k && Aligned(b, k)
    ensures Aligned(b, j)
  {
    if j < k {
      var x: nat :| Times(x, Pow2(k)) == b;
      TimesTwice(x, Pow2(k - 1));
      AlignedDown(b, k - 1, j);
    }
  }

  /** Two multiples of 2^k that differ, differ by at least 2^k. */
  lemma AlignedGap(a: nat, b: nat, k: nat)
    requires Aligned(a, k) && Aligned(b, k) && a < b
    ensures a + Pow2(k) <= b
  {
    var x: nat :| Times(x, Pow2(k)) == a;
    var y: nat :| Times(y, Pow2(k)) == b;
    if y <= x {
      TimesMonotone(y, x, Pow2(k));
    } else {
      TimesMonotone(x + 1, y, Pow2(k));
    }
  }

  /** The page `q` lies in the block of 2^k pages at `b`. */
  predicate In(q: nat, b: nat, k: nat) {
    b <= q < b + Pow2(k)
  }

  /** Aligned blocks are nested or disjoint. */
  lemma Nested(b: nat, k: nat, c: nat, j: nat, q: nat)
    requires Aligned(b, k) && Aligned(c, j) && j <= k
    requires In(q, b, k) && In(q, c, j)
    ensures b <= c && c + Pow2(j) <= b + Pow2(k)
    ensures j == k ==> b == c
  {
    AlignedDown(b, k, j);
    Pow2Monotone(j, k);
    if c < b { AlignedGap(c, b, j); }
    BlockEndAligned(b, k, j);
    if c < b + Pow2(k) < c + Pow2(j) {
      AlignedGap(c, b + Pow2(k), j);
    }
  }

  lemma BlockEndAligned(b: nat, k: nat, j: nat)
    requires Aligned(b, k) && j <= k
    ensures Aligned(b + Pow2(k), j)
  {
    var x: nat :| Times(x, Pow2(k)) == b;
    assert Times(x + 1, Pow2(k)) == b + Pow2(k);
    AlignedDown(b + Pow2(k), k, j);
  }

  // ----------------------------------------------------------- pairs of buddies

  /** The index of the pair at order k that holds page b: `page_idx >> (order + 1)`. */
  function Pair(b: nat, k: nat): nat {
    Div(b, Pow2(k + 1))
  }

  /** The first page of that pair: `(page_idx >> (order + 1)) << (order + 1)`. */
  function Parent(b: nat, k: nat): nat {
    Times(Pair(b, k), Pow2(k + 1))
  }

  lemma HalfPair(i: nat, k: nat)
    ensures Pair(Times(i, Pow2(k + 1)), k) == i && Pair(Times(i, Pow2(k + 1)) + Pow2(k), k) == i
  {
    DivUnique(i, Pow2(k + 1), 0);
    DivUnique(i, Pow2(k + 1), Pow2(k));
  }

  /** A block is the lower or the upper half of its pair. */
  lemma ParentFacts(b: nat, k: nat)
    requires Aligned(b, k)
    ensures Aligned(Parent(b, k), k + 1) && Aligned(Parent(b, k), k) && Aligned(Parent(b, k) + Pow2(k), k)
    ensures b == Parent(b, k) || b == Parent(b, k) + Pow2(k)
    ensures Pair(Parent(b, k), k) == Pair(b, k) == Pair(Parent(b, k) + Pow2(k), k)
  {
    var x: nat :| Times(x, Pow2(k)) == b;
    var i := x / 2;
    TimesTwice(i, Pow2(k));
    assert x == 2 * i || x == 2 * i + 1;
    assert b == Times(i, Pow2(k + 1)) || b == Times(i, Pow2(k + 1)) + Pow2(k);
    HalfPair(i, k);
    AlignedDown(Parent(b, k), k + 1, k);
    BlockEndAligned(Parent(b, k), k, k);
  }
}
