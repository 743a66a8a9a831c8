/** The kernel memory pool of kernel/memory/kmem.c as a layout: where each block starts, how long
    it is and whether it is free. */
module KmemSpec {
  import opened Sets

  datatype Cell = Cell(size: int, free: bool)

  type Layout = map<int, Cell>

  /** The smallest block, and the part of a block before the memory it holds. */
  const MIN_BLOCK := 64
  const HEAD := 16
  const CANARY := 8

  predicate OnGrid(lo: int, a: int) {
    (a - lo) % 16 == 0
  }

  predicate CellOk(l: Layout, lo: int, hi: int, a: int)
    requires a in l
  {
    lo <= a && OnGrid(lo, a) && MIN_BLOCK <= l[a].size && a + l[a].size <= hi &&
      (a + l[a].size == hi || a + l[a].size in l)
  }

  /** The blocks cover [lo, hi) without gap or overlap. */
  ghost predicate Tiles(l: Layout, lo: int, hi: int) {
    && lo in l
    && (forall a {:trigger CellOk(l, lo, hi, a)} :: a in l ==> CellOk(l, lo, hi, a))
    && (forall a, c {:trigger Clear(l, a, c)} :: a in l && c in l ==> Clear(l, a, c))
  }

  /** Block `a` ends before a later block `c` starts. */
  predicate Clear(l: Layout, a: int, c: int)
    requires a in l
  {
    a < c ==> a + l[a].size <= c
  }

  // ---------------------------------------------------------------------- operations

  /** The block at `a` goes into use; what it has beyond `need` bytes stays free if it is enough
      for a block. */
  function Take(l: Layout, a: int, need: int): Layout
    requires a in l
  {
    if l[a].size - need >= MIN_BLOCK
    then l[a := Cell(need, false)][a + need := Cell(l[a].size - need, true)]
    else l[a := Cell(l[a].size, false)]
  }

  /** The block at `a` swallows the one behind it. */
  function Absorb(l: Layout, a: int): Layout
    requires a in l && a + l[a].size in l
  {
    (l - {a + l[a].size})[a := Cell(l[a].size + l[a + l[a].size].size, l[a].free)]
  }

  /** The block at `a` becomes free, joined with the free blocks behind it. */
  ghost function Give(l: Layout, a: int): Layout
    requires a in l && l[a].size > 0
    decreases |l|
  {
    var n := a + l[a].size;
    if n in l && l[n].free && l[n].size > 0 then
      assert Absorb(l, a).Keys == l.Keys - {n};
      Give(Absorb(l, a), a)
    else l[a := l[a].(free := true)]
  }

  // -------------------------------------------------------------------------- tiling

  lemma SplitTiles(l: Layout, lo: int, hi: int, a: int, need: int)
    requires Tiles(l, lo, hi) && a in l && MIN_BLOCK <= need && l[a].size - need >= MIN_BLOCK && OnGrid(lo, a + need)
    ensures Tiles(l[a := Cell(need, false)][a + need := Cell(l[a].size - need, true)], lo, hi)
  {
    hide OnGrid;
    var n := a + need;
    var l' := l[a := Cell(need, false)][n := Cell(l[a].size - need, true)];
    assert CellOk(l, lo, hi, a);
    forall c | c in l
      ensures c != n
    {
      assert Clear(l, a, c);
    }
    forall c | c in l'
      ensures CellOk(l', lo, hi, c)
    {
      if c != n { assert CellOk(l, lo, hi, c); }
    }
    forall c, d | c in l' && d in l'
      ensures Clear(l', c, d)
    {
      if c != n && d != n { assert Clear(l, c, d); }
      if c == n && d != n { assert Clear(l, a, d); }
      if c != n && d == n { assert Clear(l, c, a) && Clear(l, a, c); }
    }
  }

  /** The block in use is no longer than it has to be, the rest is one free block behind it, and no other
      block changes. */
  lemma TakeExact(l: Layout, a: int, need: int, c: int)
    requires a in l && MIN_BLOCK <= need <= l[a].size
    ensures var l' := Take(l, a, need); a in l' && !l'[a].free && need <= l'[a].size < need + MIN_BLOCK
    ensures var l' := Take(l, a, need); var n := a + l'[a].size;
      l'[a].size < l[a].size ==> n in l' && l'[n] == Cell(a + l[a].size - n, true) && l'[n].size >= MIN_BLOCK
    ensures var l' := Take(l, a, need); c != a && (c != a + l'[a].size || l'[a].size == l[a].size) ==>
      (c in l' <==> c in l) && (c in l ==> l'[c] == l[c])
  {
  }

  lemma TakeTiles(l: Layout, lo: int, hi: int, a: int, need: int)
    requires Tiles(l, lo, hi) && a in l && MIN_BLOCK <= need <= l[a].size && need % 16 == 0
    ensures Tiles(Take(l, a, need), lo, hi)
  {
    assert CellOk(l, lo, hi, a);
    if l[a].size - need >= MIN_BLOCK {
      SplitTiles(l, lo, hi, a, need);
    } else {
      SetFreeTiles(l, lo, hi, a, false);
    }
  }

  lemma AbsorbTiles(l: Layout, lo: int, hi: int, a: int)
    requires Tiles(l, lo, hi) && a in l && a + l[a].size in l
    ensures Tiles(Absorb(l, a), lo, hi)
  {
    hide OnGrid;
    var l', n := Absorb(l, a), a + l[a].size;
    assert CellOk(l, lo, hi, a) && CellOk(l, lo, hi, n);
    forall c | c in l'
      ensures CellOk(l', lo, hi, c)
    {
      assert CellOk(l, lo, hi, c) && Clear(l, c, a) && Clear(l, a, c);
      if c != a { assert c + l[c].size != n; }
    }
    forall c, d | c in l' && d in l'
      ensures Clear(l', c, d)
    {
      assert Clear(l, c, d) && Clear(l, n, d);
    }
  }

  lemma SetFreeTiles(l: Layout, lo: int, hi: int, a: int, free: bool)
    requires Tiles(l, lo, hi) && a in l
    ensures Tiles(l[a := l[a].(free := free)], lo, hi)
  {
    hide OnGrid;
    var l' := l[a := l[a].(free := free)];
    forall c | c in l'
      ensures CellOk(l', lo, hi, c)
    {
      assert CellOk(l, lo, hi, c);
    }
    forall c, d | c in l' && d in l'
      ensures Clear(l', c, d)
    {
      assert Clear(l, c, d);
    }
  }

  /** Freeing keeps the tiling, joins `a` with everything free behind it, and touches no other
      block: behind `a` now comes a block in use or the end of the pool. */
  lemma {:induction false} GiveTiles(l: Layout, lo: int, hi: int, a: int)
    requires Tiles(l, lo, hi) && a in l && l[a].size > 0
    ensures Tiles(Give(l, a), lo, hi)
    ensures a in Give(l, a) && Give(l, a)[a].free && Give(l, a)[a].size >= l[a].size
    ensures var n := a + Give(l, a)[a].size; n == hi || (n in Give(l, a) && !Give(l, a)[n].free)
    ensures forall c :: c in Give(l, a) && c != a ==> c in l && Give(l, a)[c] == l[c]
    ensures forall c :: c in l && c !in Give(l, a) ==> l[c].free && a < c < a + Give(l, a)[a].size
    decreases |l|
  {
    var n := a + l[a].size;
    assert CellOk(l, lo, hi, a);
    if n in l && l[n].free {
      assert CellOk(l, lo, hi, n);
      AbsorbTiles(l, lo, hi, a);
      assert Absorb(l, a).Keys == l.Keys - {n};
      GiveTiles(Absorb(l, a), lo, hi, a);
    } else {
      SetFreeTiles(l, lo, hi, a, true);
    }
  }

  /** One step of freeing, as the loop of kfree takes it. */
  lemma GiveStep(l: Layout, lo: int, hi: int, a: int)
    requires Tiles(l, lo, hi) && a in l
    ensures l[a].size > 0
    ensures var n := a + l[a].size; n <= hi && (n < hi ==> n in l)
    ensures var n := a + l[a].size; if n in l && l[n].free
      then l[n].size > 0 && Tiles(Absorb(l, a), lo, hi) && |Absorb(l, a)| < |l| && Give(Absorb(l, a), a) == Give(l, a)
      else Give(l, a) == l[a := l[a].(free := true)]
  {
    var n := a + l[a].size;
    assert CellOk(l, lo, hi, a);
    if n in l && l[n].free {
      assert CellOk(l, lo, hi, n);
      AbsorbTiles(l, lo, hi, a);
      assert Absorb(l, a).Keys == l.Keys - {n};
    }
  }

  // ------------------------------------------------------------------------- totals

  ghost function Sum(l: Layout, s: set<int>): int
    requires s <= l.Keys
  {
    if s == {} then 0 else HasMember(s); var a: int :| a in s; l[a].size + Sum(l, s - {a})
  }

  lemma {:induction false} SumOut(l: Layout, s: set<int>, a: int)
    requires s <= l.Keys && a in s
    ensures Sum(l, s) == l[a].size + Sum(l, s - {a})
    decreases |s|
  {
    HasMember(s);
    var b: int :| b in s && Sum(l, s) == l[b].size + Sum(l, s - {b});
    if b != a {
      SumOut(l, s - {b}, a);
      SumOut(l, s - {a}, b);
      assert s - {a} - {b} == s - {b} - {a};
    }
  }

  lemma {:induction false} SumNonNegative(l: Layout, s: set<int>)
    requires s <= l.Keys && forall c :: c in l ==> l[c].size >= 0
    ensures Sum(l, s) >= 0
    decreases |s|
  {
    if s != {} {
      HasMember(s);
      var a: int :| a in s;
      SumOut(l, s, a);
      SumNonNegative(l, s - {a});
    }
  }

  lemma {:induction false} SumSame(l: Layout, l': Layout, s: set<int>)
    requires s <= l.Keys && s <= l'.Keys && forall a :: a in s ==> l'[a].size == l[a].size
    ensures Sum(l', s) == Sum(l, s)
    decreases |s|
  {
    if s != {} {
      HasMember(s);
      var a: int :| a in s;
      SumOut(l, s, a);
      SumOut(l', s, a);
      SumSame(l, l', s - {a});
    }
  }

  lemma {:induction false} SumUnion(l: Layout, s: set<int>, t: set<int>)
    requires s <= l.Keys && t <= l.Keys && s !! t
    ensures Sum(l, s + t) == Sum(l, s) + Sum(l, t)
    decreases |s|
  {
    if s == {} {
      assert s + t == t;
    } else {
      HasMember(s);
      var a: int :| a in s;
      SumOut(l, s, a);
      SumOut(l, s + t, a);
      assert s + t - {a} == (s - {a}) + t;
      SumUnion(l, s - {a}, t);
    }
  }

  ghost function FreeSet(l: Layout): set<int> {
    set a | a in l && l[a].free
  }

  ghost function FreeTotal(l: Layout): int {
    Sum(l, FreeSet(l))
  }

  /** The blocks of a tiling add up to the pool: nothing is lost. */
  lemma {:induction false} TilesTotal(l: Layout, lo: int, hi: int)
    requires Tiles(l, lo, hi)
    ensures Sum(l, l.Keys) == hi - lo
    decreases |l|
  {
    assert CellOk(l, lo, hi, lo);
    var next := lo + l[lo].size;
    SumOut(l, l.Keys, lo);
    var l' := l - {lo};
    assert l'.Keys == l.Keys - {lo};
    SumSame(l, l', l'.Keys);
    if next == hi {
      forall a: int
        ensures a !in l'.Keys
      {
        if a in l { assert CellOk(l, lo, hi, a) && Clear(l, lo, a); }
      }
      assert l'.Keys == {};
    } else {
      forall a | a in l'
        ensures CellOk(l', next, hi, a)
      {
        assert CellOk(l, lo, hi, a) && CellOk(l, lo, hi, next) && Clear(l, lo, a);
      }
      forall c, d | c in l' && d in l'
        ensures Clear(l', c, d)
      {
        assert Clear(l, c, d);
      }
      TilesTotal(l', next, hi);
    }
  }

  // -------------------------------------------------------------- free space bookkeeping

  lemma FreeTake(l: Layout, a: int, need: int)
    requires a in l && l[a].free && (l[a].size - need >= MIN_BLOCK ==> a + need !in l) && need != 0
    ensures FreeTotal(Take(l, a, need)) == FreeTotal(l) - Take(l, a, need)[a].size
  {
    var l', n := Take(l, a, need), a + need;
    SumOut(l, FreeSet(l), a);
    var rest := FreeSet(l) - {a};
    SumSame(l, l', rest);
    if l[a].size - need >= MIN_BLOCK {
      assert FreeSet(l') == rest + {n};
      SumOut(l', FreeSet(l'), n);
      assert FreeSet(l') - {n} == rest;
    } else {
      assert FreeSet(l') == rest;
    }
  }

  lemma FreeAbsorb(l: Layout, a: int)
    requires a in l && !l[a].free && a + l[a].size in l && l[a].size != 0 && l[a + l[a].size].free
    ensures FreeTotal(Absorb(l, a)) == FreeTotal(l) - l[a + l[a].size].size
  {
    var l', n := Absorb(l, a), a + l[a].size;
    SumOut(l, FreeSet(l), n);
    assert FreeSet(l') == FreeSet(l) - {n};
    SumSame(l, l', FreeSet(l'));
  }

  lemma FreeSetFree(l: Layout, a: int)
    requires a in l && !l[a].free
    ensures FreeTotal(l[a := l[a].(free := true)]) == FreeTotal(l) + l[a].size
  {
    var l' := l[a := l[a].(free := true)];
    assert FreeSet(l') == FreeSet(l) + {a};
    SumOut(l', FreeSet(l'), a);
    assert FreeSet(l') - {a} == FreeSet(l);
    SumSame(l, l', FreeSet(l));
  }

  /** Freeing returns exactly the bytes of the block, however many blocks it is joined with. */
  lemma {:induction false} FreeGive(l: Layout, a: int)
    requires a in l && !l[a].free && l[a].size > 0
    ensures FreeTotal(Give(l, a)) == FreeTotal(l) + l[a].size
    decreases |l|
  {
    var n := a + l[a].size;
    if n in l && l[n].free && l[n].size > 0 {
      assert Absorb(l, a).Keys == l.Keys - {n};
      FreeAbsorb(l, a);
      FreeGive(Absorb(l, a), a);
    } else {
      FreeSetFree(l, a);
    }
  }

  /** Bytes in use and bytes free always add up to the pool. */
  lemma Conservation(l: Layout, lo: int, hi: int)
    requires Tiles(l, lo, hi)
    ensures FreeTotal(l) + Sum(l, l.Keys - FreeSet(l)) == hi - lo
  {
    hide Tiles;
    TilesTotal(l, lo, hi);
    SumUnion(l, FreeSet(l), l.Keys - FreeSet(l));
    assert FreeSet(l) + (l.Keys - FreeSet(l)) == l.Keys;
  }

  // ------------------------------------------------------------- freeing undoes taking

  lemma TakenIsWhole(l: Layout, lo: int, hi: int, a: int, need: int)
    requires Tiles(l, lo, hi) && a in l && l[a].free && MIN_BLOCK <= need <= l[a].size && need % 16 == 0
    ensures a in Take(l, a, need) && Take(l, a, need)[a].size > 0
    ensures l[a].size > 0 && Give(Take(l, a, need), a) == Give(l[a := l[a].(free := false)], a)
  {
    hide Give;
    var used := l[a := l[a].(free := false)];
    assert CellOk(l, lo, hi, a);
    TakeTiles(l, lo, hi, a, need);
    if l[a].size - need >= MIN_BLOCK {
      GiveStep(Take(l, a, need), lo, hi, a);
      forall c | c in l
        ensures c != a + need
      {
        assert Clear(l, a, c);
      }
      assert Absorb(Take(l, a, need), a) == used;
    }
  }

  /** kfree right after kmalloc restores the layout exactly when the block behind is in use or the
      pool ends there: blocks are joined forward only, so two free neighbours can exist, and kfree
      then joins them. */
  lemma FreeUndoesTake(l: Layout, lo: int, hi: int, a: int, need: int)
    requires Tiles(l, lo, hi) && a in l && l[a].free && MIN_BLOCK <= need <= l[a].size && need % 16 == 0
    ensures a in Take(l, a, need) && Take(l, a, need)[a].size > 0
    ensures Give(Take(l, a, need), a) == l <==> (a + l[a].size in l ==> !l[a + l[a].size].free)
  {
    hide Give, Take, Tiles;
    TakenIsWhole(l, lo, hi, a, need);
    var used, n := l[a := l[a].(free := false)], a + l[a].size;
    SetFreeTiles(l, lo, hi, a, false);
    GiveStep(used, lo, hi, a);
    if n in used && used[n].free {
      GiveTiles(Absorb(used, a), lo, hi, a);
    } else {
      assert used[a := used[a].(free := true)] == l;
    }
  }

  /** A pool of 192 bytes at address 4136, as it is attached, and two free neighbours in it. */
  const WHOLE := map[4136 := Cell(192, true)]
  const NEIGHBOURS := map[4136 := Cell(64, true), 4200 := Cell(128, true)]

  /** Two blocks are taken and given back, the first one first: both stay free side by side. */
  lemma NeighboursReached()
    ensures var one := Take(WHOLE, 4136, 64); var two := Take(one, 4200, 64);
      && one == map[4136 := Cell(64, false), 4200 := Cell(128, true)]
      && two == map[4136 := Cell(64, false), 4200 := Cell(64, false), 4264 := Cell(64, true)]
      && Give(two, 4136) == two[4136 := Cell(64, true)]
      && Give(Give(two, 4136), 4200) == NEIGHBOURS
  {
    var one := map[4136 := Cell(64, false), 4200 := Cell(128, true)];
    var two := map[4136 := Cell(64, false), 4200 := Cell(64, false), 4264 := Cell(64, true)];
    assert Take(WHOLE, 4136, 64) == one;
    assert Take(one, 4200, 64) == two;
    var three := two[4136 := Cell(64, true)];
    assert Give(two, 4136) == three;
    var four := map[4136 := Cell(64, true), 4200 := Cell(128, false)];
    assert Absorb(three, 4200) == four;
    assert Give(four, 4200) == NEIGHBOURS;
  }

  /** Taking the first one and freeing it again does not give them back. */
  lemma NeighboursJoin()
    ensures Tiles(NEIGHBOURS, 4136, 4328) && Take(NEIGHBOURS, 4136, 64)[4136].size > 0
    ensures Give(Take(NEIGHBOURS, 4136, 64), 4136) != NEIGHBOURS
  {
    hide Give;
    FreeUndoesTake(NEIGHBOURS, 4136, 4328, 4136, 64);
  }

  // --------------------------------------------------------------------- request sizes

  const WORD := 0x1_0000_0000_0000_0000

  /** The size field of a block has 32 bits. */
  const SIZE_LIMIT := 0x1_0000_0000

  /** The block size kmalloc looks for, in 64-bit arithmetic. */
  function NeedSize(size: int): (need: int)
    requires 0 <= size < WORD
    ensures MIN_BLOCK <= need < WORD && need % 16 == 0
  {
    var padded := (size + 2 * CANARY) % WORD;
    var rounded := (padded + 15) % WORD / 16 * 16;
    var need := (rounded + HEAD) % WORD;
    if need < MIN_BLOCK then MIN_BLOCK else need
  }

  /** The block holds the request between its canaries exactly when the sum does not wrap. */
  lemma RequestFits(size: int)
    requires 0 <= size < WORD
    ensures NeedSize(size) - HEAD - 2 * CANARY >= size <==> size <= WORD - 48
  {
  }

  /** A block of this size has room for the header, the two canaries and the request, in a piece of whole
      16-byte units of at least the smallest size. */
  predicate CanHold(size: int, request: int) {
    size >= MIN_BLOCK && size / 16 * 16 >= request + HEAD + 2 * CANARY
  }

  /** The size looked for is the least that will do. */
  lemma NeedIsLeast(request: int, m: int)
    requires 0 <= request <= WORD - 48
    ensures NeedSize(request) >= MIN_BLOCK && NeedSize(request) >= request + HEAD + 2 * CANARY
    ensures m % 16 == 0 && m >= MIN_BLOCK && m >= request + HEAD + 2 * CANARY ==> NeedSize(request) <= m
  {
    NeedIsRounded(request);
  }

  lemma NeedIsRounded(request: int)
    requires 0 <= request <= WORD - 48
    ensures var n := (request + 32 + 15) / 16 * 16; NeedSize(request) == if n < MIN_BLOCK then MIN_BLOCK else n
  {
    NoWrap(request + 2 * CANARY);
    NoWrap(request + 2 * CANARY + 15);
    var rounded := (request + 2 * CANARY + 15) / 16 * 16;
    UnitMore(request + 2 * CANARY + 15);
    NoWrap(rounded + HEAD);
  }

  lemma NoWrap(x: int)
    requires 0 <= x < WORD
    ensures x % WORD == x
  {
  }

  lemma UnitMore(x: int)
    requires 0 <= x <= WORD - 17
    ensures x / 16 * 16 + 16 == (x + 16) / 16 * 16 && x / 16 * 16 + 16 < WORD
  {
    assert (x + 16) / 16 == x / 16 + 1;
  }

  /** So the blocks that are large enough are those that can hold the request. */
  lemma LargeEnough(size: int, request: int)
    requires 0 <= request <= WORD - 48 && size >= 0
    ensures size >= NeedSize(request) <==> CanHold(size, request)
  {
    hide NeedSize;
    NeedIsLeast(request, size / 16 * 16);
    if size >= NeedSize(request) { Whole(size, NeedSize(request)); }
  }

  lemma Whole(size: int, need: int)
    requires size >= need >= 0 && need % 16 == 0
    ensures size / 16 * 16 >= need
  {
  }

  /** A request that wraps around: its block holds 32 bytes. */
  lemma HugeRequest()
    ensures NeedSize(WORD - 47) == MIN_BLOCK
  {
  }

  /** The memory handed out for the block at `a`. */
  function UserStart(a: int): int {
    a + HEAD + CANARY
  }

  /** Blocks in use never overlap, and what they hand out is 16-byte aligned. */
  lemma LiveApart(l: Layout, lo: int, hi: int, a: int, c: int)
    requires Tiles(l, lo, hi) && a in l && c in l && a != c && lo % 16 == 8
    ensures UserStart(a) % 16 == 0
    ensures a + l[a].size <= c || c + l[c].size <= a
    ensures lo <= a && UserStart(a) < a + l[a].size - CANARY && a + l[a].size <= hi
  {
    assert CellOk(l, lo, hi, a) && Clear(l, a, c) && Clear(l, c, a);
  }
}
