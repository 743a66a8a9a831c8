/** The buddy allocator on less than 2048 pages, where the bitmaps of the two top orders begin at the
    same word: a run after which a wholly free block is on no list of its order. */
module BuddyOverlap {
  import opened Numbers
  import opened BuddySpec
  import opened BuddyProofs
  import opened BuddyRuns
  import opened BuddyMaps

  /** The upper end of the first block of 256 pages, which allocation splits off. */
  function Upper(k: nat): nat
    requires k <= TOP
  {
    Pow2Monotone(k, TOP);
    assert Pow2(TOP) == 256;
    256 - Pow2(k)
  }

  lemma UpperPair(k: nat)
    requires k < TOP
    ensures Upper(k) == Upper(k + 1) + Pow2(k) && Parent(Upper(k), k) == Upper(k + 1)
    ensures Buddy(Upper(k), k) == Upper(k + 1)
    ensures Pair(Upper(k), k) + 1 == Div(256, Pow2(k + 1))
  {
    hide Pow2, Div;
    var x := Halves(k);
    assert Pow2(k + 1) == 2 * Pow2(k) by { Doubled(k); }
    HalfPair(x - 1, k);
    DivUnique(x, Pow2(k + 1), 0);
  }

  lemma Doubled(k: nat)
    ensures Pow2(k + 1) == 2 * Pow2(k)
  {
  }

  lemma Halves(k: nat) returns (x: nat)
    requires k < TOP
    ensures x >= 1 && Times(x, Pow2(k + 1)) == 256 && Times(x - 1, Pow2(k + 1)) == Upper(k + 1)
  {
    assert Times(1, Pow2(TOP)) == Pow2(TOP) == 256;
    AlignedDown(256, TOP, k + 1);
    x :| Times(x, Pow2(k + 1)) == 256;
  }

  /** How far from the first pair of its order it is. */
  lemma UpperIndex(k: nat)
    requires k < TOP
    ensures k < 7 ==> Pair(Upper(k), k) >= 1
    ensures k == 7 ==> Pair(Upper(k), k) == 0
  {
    UpperPair(k);
    Pow2Monotone(k + 1, TOP);
    assert Pow2(TOP) == 256 && Pow2(7) == 128;
    if k < 7 {
      Pow2Monotone(k + 1, 7);
      assert Times(2, Pow2(k + 1)) == 2 * Pow2(k + 1);
      DivAtLeast(256, Pow2(k + 1), 2);
    }
  }

  /** Below order 7 its bits are not the first bit of the map of order 7. */
  lemma OtherBit(pages: nat, k: nat)
    requires k < 7 && 256 <= pages
    ensures Address(pages, Upper(k), k) != Base(pages, 7)
  {
    hide Base;
    UpperPair(k);
    UpperIndex(k);
    DivMonotone(256, pages, Pow2(k + 1));
    BaseWords(pages, k, 7);
    if PairCount(pages, k) >= 8 {
      BaseNext(pages, k);
      BaseMonotone(pages, k + 1, 7);
    }
  }

  lemma BaseNext(pages: nat, k: nat)
    ensures Base(pages, k + 1) == Base(pages, k) + 32 * BitmapWords(pages, k)
  {
  }

  /** With only the first block on the lists, an allocation flips the first bit of the shared map once
      for the block and once for its upper half, which leaves it as it was. */
  lemma {:induction false} AllocShared(pages: nat, f: Flat, k: nat)
    requires 256 <= pages < 2048 && k <= TOP && f.lists == Initial(1).lists
    ensures var r := FlatAlloc(pages, f, k);
      && r.Granted? && r.block == Upper(k) && r.f.lists[TOP] == []
      && (Base(pages, 7) in r.f.map0 <==> (Base(pages, 7) in f.map0) != (k == TOP))
    decreases TOP - k
  {
    hide Base, Pair, Pow2, FlatUpdate, Upper;
    if k == TOP {
      AllocTop(pages, f);
    } else {
      AllocShared(pages, f, k + 1);
      var r := FlatAlloc(pages, f, k + 1);
      UpperPair(k);
      FlipUpper(pages, r.f, k, [r.block] + r.f.lists[k]);
    }
  }

  lemma AllocTop(pages: nat, f: Flat)
    requires pages < 2048 && f.lists == Initial(1).lists
    ensures var r := FlatAlloc(pages, f, TOP);
      && r.Granted? && r.block == Upper(TOP) && r.f.lists[TOP] == []
      && (Base(pages, 7) in r.f.map0 <==> Base(pages, 7) !in f.map0)
  {
    hide Base, Pair;
    assert Pow2(TOP) == 256 && Pushed(1) == [0];
    SevenPairs(pages);
    FirstPair();
  }

  lemma FlipUpper(pages: nat, f: Flat, k: nat, l: seq<nat>)
    requires 256 <= pages && k < TOP && |f.lists| == ORDERS
    ensures var f' := FlatUpdate(pages, f, k, l, Upper(k));
      && f'.lists[TOP] == f.lists[TOP]
      && (Base(pages, 7) in f'.map0 <==> (Base(pages, 7) in f.map0) != (k == 7))
  {
    hide Base, Pair, Upper;
    UpperIndex(k);
    if k < 7 { OtherBit(pages, k); }
  }

  lemma FirstPair()
    ensures Pair(0, TOP) == 0 && Pair(256, TOP) == 0
  {
    assert Pow2(TOP + 1) == 512;
  }

  /** Freeing that page again stops at order 7 or before. */
  lemma {:induction false} FreeStops(pages: nat, f: Flat, k: nat)
    requires 256 <= pages < 2048 && k < TOP && |f.lists| == ORDERS && Base(pages, 7) !in f.map0
    ensures var r := FlatFree(pages, f, Upper(k), k); r.Lost? || r.f.lists[TOP] == f.lists[TOP]
    decreases TOP - k
  {
    hide Base, Pair;
    UpperPair(k);
    UpperIndex(k);
    if k < 7 {
      OtherBit(pages, k);
      var a := Address(pages, Upper(k), k);
      if a in f.map0 && Buddy(Upper(k), k) in f.lists[k] {
        var l := Without(f.lists[k], Buddy(Upper(k), k));
        FreeStops(pages, FlatUpdate(pages, f, k, l, Upper(k)), k + 1);
      }
    }
  }

  /** One managed block: page_free after page_alloc of a page restores the state exactly from 2048
      pages of memory on. */
  lemma OneBlock(pages: nat)
    requires 256 <= pages
    ensures var f := Boot(1).f; var r := FlatAlloc(pages, f, 0);
      r.Granted? && (FlatFree(pages, r.f, r.block, 0) == Done(f) <==> pages >= 2048)
  {
    hide Base, Pair, MapsApart, FlatAlloc, FlatFree, Fine;
    var f := Boot(1).f;
    assert Pushed(1) == [0];
    if pages >= 2048 {
      OneBlockApart(pages);
    } else {
      AllocShared(pages, f, 0);
      FreeStops(pages, FlatAlloc(pages, f, 0).f, 0);
    }
  }

  lemma OneBlockApart(pages: nat)
    requires pages >= 2048
    ensures var f := Boot(1).f; var r := FlatAlloc(pages, f, 0);
      r.Granted? && FlatFree(pages, r.f, r.block, 0) == Done(f)
  {
    hide Base, Pair, MapsApart, FlatAlloc, FlatFree, Fine, Inv, Alloc;
    assert Times(1, Pow2(TOP)) == Pow2(TOP) == 256;
    BitmapsApart(pages, 1);
    BootStands(pages, 1);
    AllocFails(Initial(1), 0);
    assert Initial(1).lists[TOP] == Pushed(1) == [0];
    FreeRestores(Initial(1), {}, 256, pages, 0);
  }

  // ------------------------------------------------------------- what is left on the lists

  /** The lower halves from order `k` on are on their lists, and all bits of orders below 7 say so. */
  ghost predicate Halved(pages: nat, f: Flat, k: nat) {
    && |f.lists| == ORDERS && f.lists[TOP] == []
    && forall j {:trigger HalfAt(pages, f, j)} :: k <= j < TOP ==> HalfAt(pages, f, j)
  }

  predicate HalfAt(pages: nat, f: Flat, j: nat)
    requires |f.lists| == ORDERS && j < TOP
  {
    f.lists[j] == [Upper(j + 1)] && (j < 7 ==> Address(pages, Upper(j), j) in f.map0)
  }

  /** From 1024 pages on only the two top maps meet. */
  lemma LowerApart(pages: nat, j: nat, k: nat)
    requires 1024 <= pages && j < 7 && k < TOP && j != k
    ensures Address(pages, Upper(j), j) != Address(pages, Upper(k), k)
  {
    hide Base, Upper;
    if j < k { BelowNext(pages, j, k); } else { BelowNext(pages, k, j); }
  }

  lemma BelowNext(pages: nat, j: nat, k: nat)
    requires 1024 <= pages && j < 7 && j < k
    ensures Address(pages, Upper(j), j) < Base(pages, k)
  {
    hide Base, Upper, Pow2, Div, Pair;
    UpperPair(j);
    DivMonotone(256, pages, Pow2(j + 1));
    EightPairs(pages, j);
    BaseNext(pages, j);
    BaseMonotone(pages, j + 1, k);
  }

  lemma EightPairs(pages: nat, j: nat)
    requires 1024 <= pages && j < 7
    ensures PairCount(pages, j) >= 8
  {
    Pow2Monotone(j + 1, 7);
    assert Pow2(7) == 128;
    TimesIsProduct(8, Pow2(j + 1));
    DivAtLeast(pages, Pow2(j + 1), 8);
  }

  /** And nothing has happened below order `k`. */
  ghost predicate Untouched(pages: nat, f: Flat, k: nat) {
    && |f.lists| == ORDERS
    && forall j {:trigger ClearAt(pages, f, j)} :: 0 <= j < k && j < TOP ==> ClearAt(pages, f, j)
  }

  predicate ClearAt(pages: nat, f: Flat, j: nat)
    requires |f.lists| == ORDERS && j < TOP
  {
    f.lists[j] == [] && (j < 7 ==> Address(pages, Upper(j), j) !in f.map0)
  }

  lemma {:induction false} AllocHalves(pages: nat, k: nat)
    requires 1024 <= pages < 2048 && k <= TOP
    ensures var r := FlatAlloc(pages, Boot(1).f, k);
      r.Granted? && r.block == Upper(k) && Halved(pages, r.f, k) && Untouched(pages, r.f, k)
    decreases TOP - k
  {
    hide Base, Pair, Pow2, Upper, Halved, Untouched, FlatUpdate;
    if k == TOP {
      TopOnly(pages);
    } else {
      AllocHalves(pages, k + 1);
      UpperPair(k);
      var r := FlatAlloc(pages, Boot(1).f, k + 1);
      SplitHalves(pages, r.f, k);
      assert [r.block] + r.f.lists[k] == [Upper(k + 1)];
    }
  }

  lemma TopOnly(pages: nat)
    requires 1024 <= pages < 2048
    ensures var r := FlatAlloc(pages, Boot(1).f, TOP);
      r.Granted? && r.block == Upper(TOP) && Halved(pages, r.f, TOP) && Untouched(pages, r.f, TOP)
  {
    hide Base, Pair;
    assert Pow2(TOP) == 256 && Pushed(1) == [0];
    var f := FlatAlloc(pages, Boot(1).f, TOP).f;
    forall j | 0 <= j < TOP
      ensures ClearAt(pages, f, j)
    {
      if j < 7 { BelowNext(pages, j, TOP); }
    }
  }

  lemma SplitHalves(pages: nat, f: Flat, k: nat)
    requires 1024 <= pages && k < TOP && Halved(pages, f, k + 1) && Untouched(pages, f, k + 1)
    ensures f.lists[k] == []
    ensures var f' := FlatUpdate(pages, f, k, [Upper(k + 1)], Upper(k)); Halved(pages, f', k) && Untouched(pages, f', k)
  {
    hide Upper, Address;
    var f' := FlatUpdate(pages, f, k, [Upper(k + 1)], Upper(k));
    assert ClearAt(pages, f, k);
    forall j | k <= j < TOP
      ensures HalfAt(pages, f', j)
    {
      if j > k {
        assert HalfAt(pages, f, j);
        if j < 7 { LowerApart(pages, j, k); }
      }
    }
    forall j | 0 <= j < k && j < TOP
      ensures ClearAt(pages, f', j)
    {
      assert ClearAt(pages, f, j);
      LowerApart(pages, j, k);
    }
  }

  /** Freeing merges up to order 7 and leaves both halves of the block there. */
  lemma {:induction false} FreeHalves(pages: nat, f: Flat, k: nat)
    requires 1024 <= pages < 2048 && k < TOP && Halved(pages, f, k) && Base(pages, 7) !in f.map0
    ensures var r := FlatFree(pages, f, Upper(k), k);
      r.Done? && r.f.lists[7] == [Upper(7), Upper(8)] && r.f.lists[TOP] == []
    decreases TOP - k
  {
    hide Base, Pair, Pow2, Upper, Address;
    UpperPair(k);
    assert HalfAt(pages, f, k);
    if k < 7 {
      MergeHalves(pages, f, k);
      FreeHalves(pages, FlatUpdate(pages, f, k, [], Upper(k)), k + 1);
      assert Without([Upper(k + 1)], Upper(k + 1)) == [];
    } else {
      UpperAddress(pages);
    }
  }

  lemma UpperAddress(pages: nat)
    ensures Address(pages, Upper(7), 7) == Base(pages, 7)
  {
    hide Base;
    UpperIndex(7);
  }

  lemma MergeHalves(pages: nat, f: Flat, k: nat)
    requires 1024 <= pages && k < 7 && Halved(pages, f, k) && Base(pages, 7) !in f.map0
    ensures var f' := FlatUpdate(pages, f, k, [], Upper(k));
      Halved(pages, f', k + 1) && Base(pages, 7) !in f'.map0
  {
    hide Upper, Address;
    OtherBit(pages, k);
    var f' := FlatUpdate(pages, f, k, [], Upper(k));
    forall j | k + 1 <= j < TOP
      ensures HalfAt(pages, f', j)
    {
      assert HalfAt(pages, f, j);
      if j < 7 { LowerApart(pages, j, k); }
    }
  }

  /** One managed block and 1024 to 2047 pages: page_alloc of a page and page_free leave the two halves
      of the block beside each other on the list of order 7. */
  lemma HalvesStay(pages: nat)
    requires 1024 <= pages < 2048
    ensures FlatAlloc(pages, Boot(1).f, 0).Granted? && FlatAlloc(pages, Boot(1).f, 0).block == 255
    ensures var r := FlatFree(pages, FlatAlloc(pages, Boot(1).f, 0).f, 255, 0);
      r.Done? && r.f.lists[7] == [128, 0] && r.f.lists[8] == []
  {
    hide Base, Pair, FlatAlloc, FlatFree, Halved;
    assert Pow2(0) == 1 && Pow2(7) == 128 && Pow2(TOP) == 256;
    AllocHalves(pages, 0);
    AllocShared(pages, Boot(1).f, 0);
    FreeHalves(pages, FlatAlloc(pages, Boot(1).f, 0).f, 0);
  }

  // ----------------------------------------------------------------- any number of blocks

  predicate Within(q: nat, lo: nat, hi: nat) {
    lo <= q < hi
  }

  ghost function Above(lo: nat, hi: nat): set<nat> {
    set q: nat | lo <= q < hi && Within(q, lo, hi)
  }

  /** After whole blocks have been taken down to block `j`. */
  ghost predicate Taken(pages: nat, m: nat, j: nat, c: Machine) {
    && c.Running? && c.f.lists == Initial(j).lists && c.used == Above(Times(j, 256), Times(m, 256))
    && (j >= 1 ==> (Base(pages, 7) in c.f.map0 <==> j == 1 && m >= 2))
  }

  lemma {:induction false} TakeBlocks(pages: nat, m: nat, j: nat) returns (run: seq<Machine>)
    requires 256 <= pages < 2048 && 1 <= j <= m
    ensures |run| > 0 && Calls(pages, m, run) && Taken(pages, m, j, run[|run| - 1])
    decreases m - j
  {
    hide Base, Pair, Calls, Call, Taken;
    if j == m {
      run := [Boot(m)];
      NothingTaken(pages, m);
      CallsStart(pages, m);
    } else {
      run := TakeBlocks(pages, m, j + 1);
      var c' := TakeOne(pages, m, j, run[|run| - 1]);
      CallsNext(pages, m, run, c');
      run := run + [c'];
    }
  }

  lemma CallsStart(pages: nat, m: nat)
    ensures Calls(pages, m, [Boot(m)])
  {
  }

  lemma CallsNext(pages: nat, m: nat, run: seq<Machine>, c: Machine)
    requires Calls(pages, m, run) && Call(pages, run[|run| - 1], c)
    ensures Calls(pages, m, run + [c])
  {
    hide Call;
  }

  lemma NothingTaken(pages: nat, m: nat)
    requires m >= 1
    ensures Taken(pages, m, m, Boot(m))
  {
    assert Above(Times(m, 256), Times(m, 256)) == {};
  }

  lemma TakeOne(pages: nat, m: nat, j: nat, c: Machine) returns (c': Machine)
    requires 256 <= pages < 2048 && 1 <= j < m && Taken(pages, m, j + 1, c)
    ensures Call(pages, c, c') && Taken(pages, m, j, c')
  {
    hide Base;
    assert Pow2(TOP) == 256;
    SevenPairs(pages);
    var b := Times(j, 256);
    assert c.f.lists[TOP] == Pushed(j + 1) == [b] + Pushed(j);
    var f' := FlatUpdate(pages, c.f, TOP, Pushed(j), b);
    assert FlatAlloc(pages, c.f, TOP) == Granted(b, f');
    c' := Running(f', c.used + Block(b, TOP));
    assert CallAlloc(pages, c, c', TOP);
    assert f'.lists == Initial(j).lists;
    AboveBlock(j, m);
    PairOfBlock(j);
  }

  lemma AboveBlock(j: nat, m: nat)
    requires j < m
    ensures Above(Times(j + 1, 256), Times(m, 256)) + Block(Times(j, 256), TOP) == Above(Times(j, 256), Times(m, 256))
  {
    assert Pow2(TOP) == 256;
    TimesMonotone(j + 1, m, 256);
    forall q: nat
      ensures q in Block(Times(j, 256), TOP) <==> Times(j, 256) <= q < Times(j, 256) + 256
    {
      assert In(q, Times(j, 256), TOP) <==> Times(j, 256) <= q < Times(j, 256) + 256;
    }
  }

  /** Only the first two blocks share the first pair of the top order. */
  lemma PairOfBlock(j: nat)
    ensures Pair(Times(j, 256), TOP) == 0 <==> j <= 1
  {
    assert Pow2(TOP + 1) == 512;
    if j >= 2 {
      TimesMonotone(2, j, 256);
      assert Times(2, 256) == 512;
    }
  }

  /** Then a page of the first block is taken, the second block is given back, and the page too. */
  lemma FreeBlockUnlisted(pages: nat, m: nat) returns (run: seq<Machine>)
    requires 1 <= m && Times(m, 256) <= pages < 2048
    ensures |run| > 0 && Calls(pages, m, run) && !Proper(run[|run| - 1], Times(m, 256))
  {
    hide Base, Pair, Calls, Call, Taken, Above, Proper;
    TimesMonotone(1, m, 256);
    assert Times(1, 256) == 256;
    run := TakeBlocks(pages, m, 1);
    var c := TakePage(pages, m, run[|run| - 1]);
    CallsNext(pages, m, run, c);
    run := run + [c];
    if m >= 2 {
      c := GiveSecond(pages, m, c);
      CallsNext(pages, m, run, c);
      run := run + [c];
    }
    c := GivePage(pages, m, c);
    CallsNext(pages, m, run, c);
    run := run + [c];
  }

  /** The page at the end of the first block is in use, nothing else of that block is. */
  ghost predicate PageTaken(pages: nat, m: nat, c: Machine) {
    && c.Running? && |c.f.lists| == ORDERS && 0 !in c.f.lists[TOP]
    && 255 in c.used && (forall q :: q in c.used ==> q >= 255)
  }

  lemma TakePage(pages: nat, m: nat, c: Machine) returns (c': Machine)
    requires 256 <= pages < 2048 && 1 <= m && Taken(pages, m, 1, c)
    ensures Call(pages, c, c') && PageTaken(pages, m, c')
    ensures Base(pages, 7) in c'.f.map0 <==> m >= 2
    ensures forall q: nat :: 256 <= q < Times(m, 256) ==> q in c'.used
  {
    hide Base, Pair, FlatAlloc, Block;
    assert Times(1, 256) == 256 && Pow2(0) == 1;
    AllocShared(pages, c.f, 0);
    var r := FlatAlloc(pages, c.f, 0);
    c' := Running(r.f, c.used + Block(255, 0));
    assert CallAlloc(pages, c, c', 0);
    OnePage(255);
  }

  lemma GiveSecond(pages: nat, m: nat, c: Machine) returns (c': Machine)
    requires 256 <= pages < 2048 && 2 <= m && PageTaken(pages, m, c) && Base(pages, 7) in c.f.map0
    requires forall q: nat :: 256 <= q < Times(m, 256) ==> q in c.used
    ensures Call(pages, c, c') && PageTaken(pages, m, c') && Base(pages, 7) !in c'.f.map0
  {
    hide Base, Pair;
    assert Pow2(TOP) == 256 && Times(1, Pow2(TOP)) == 256 && Times(2, 256) == 512;
    TimesMonotone(2, m, 256);
    SevenPairs(pages);
    FirstPair();
    SecondBlock(c.used);
    var f' := FlatUpdate(pages, c.f, TOP, [256] + c.f.lists[TOP], 256);
    assert FlatFree(pages, c.f, 256, TOP) == Done(f');
    c' := Running(f', c.used - Block(256, TOP));
    assert Aligned(256, TOP);
    assert CallFree(pages, c, c', 256, TOP);
  }

  lemma SecondBlock(used: set<nat>)
    requires forall q: nat :: 256 <= q < 512 ==> q in used
    ensures Block(256, TOP) <= used && 255 !in Block(256, TOP)
  {
    assert Pow2(TOP) == 256;
    forall q | q in Block(256, TOP)
      ensures q in used && q != 255
    {
      assert In(q, 256, TOP);
    }
  }

  lemma GivePage(pages: nat, m: nat, c: Machine) returns (c': Machine)
    requires 256 <= pages < 2048 && 256 <= Times(m, 256) && PageTaken(pages, m, c) && Base(pages, 7) !in c.f.map0
    ensures Call(pages, c, c') && !Proper(c', Times(m, 256))
  {
    hide Base, Pair, FlatFree, Block, Aligned, Proper;
    assert Pow2(0) == 1;
    OnePage(255);
    FreeStops(pages, c.f, 0);
    var r := FlatFree(pages, c.f, 255, 0);
    c' := if r.Lost? then Corrupt else Running(r.f, c.used - Block(255, 0));
    assert CallFree(pages, c, c', 255, 0);
    FirstUnlisted(c', Times(m, 256));
  }

  /** The first block is free and not on its list. */
  lemma FirstUnlisted(c: Machine, n: nat)
    requires n >= 256
    requires c.Running? ==> |c.f.lists| == ORDERS && 0 !in c.f.lists[TOP] && forall q :: q in c.used ==> q >= 256
    ensures !Proper(c, n)
  {
    if c.Running? {
      assert Pow2(TOP) == 256 && Times(0, Pow2(TOP)) == 0;
      assert MaxFree(c.used, n, 0, TOP);
      assert !ListOk(c.f.lists[TOP], c.used, n, TOP);
    }
  }

  /** Whatever is called in whatever order, the lists hold exactly the maximal free blocks: this is so
      exactly when there is nothing to manage or memory has at least 2048 pages. */
  lemma AllocatorWorks(pages: nat, m: nat)
    requires Times(m, Pow2(TOP)) <= pages
    ensures (forall run, i :: Calls(pages, m, run) && 0 <= i < |run| ==> Proper(run[i], Times(m, Pow2(TOP))))
      <==> m == 0 || pages >= 2048
  {
    hide MapsApart, Calls, Proper;
    assert Pow2(TOP) == 256;
    BitmapsApart(pages, m);
    if m == 0 || pages >= 2048 {
      forall run, i | Calls(pages, m, run) && 0 <= i < |run|
        ensures Proper(run[i], Times(m, Pow2(TOP)))
      {
        RunProper(pages, m, run, i);
      }
    } else {
      var run := FreeBlockUnlisted(pages, m);
    }
  }
}
