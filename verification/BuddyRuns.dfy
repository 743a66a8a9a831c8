/** Whole runs of the buddy allocator, from the state init_memory leaves. */
module BuddyRuns {
  import opened Numbers
  import opened BuddySpec
  import opened BuddyProofs

  // ---------------------------------------------------------------- counting pages

  /** memory_available in pages: the sum over the orders of list length times block size. */
  function FreePages(s: State, k: nat): nat
    requires Shaped(s)
    decreases ORDERS - k
  {
    if k >= ORDERS then 0 else Times(|s.lists[k]|, Pow2(k)) + FreePages(s, k + 1)
  }

  lemma {:induction false} FreePagesUpdate(s: State, k: nat, l: seq<nat>, i: nat, j: nat)
    requires Shaped(s) && k < ORDERS
    ensures j > k ==> FreePages(Update(s, k, l, i), j) == FreePages(s, j)
    ensures j <= k ==>
      FreePages(Update(s, k, l, i), j) + Times(|s.lists[k]|, Pow2(k)) == FreePages(s, j) + Times(|l|, Pow2(k))
    decreases ORDERS - j
  {
    if j < ORDERS { FreePagesUpdate(s, k, l, i, j + 1); }
  }

  lemma {:induction false} AllocPages(s: State, k: nat)
    requires Shaped(s) && Alloc(s, k).Some?
    ensures FreePages(Alloc(s, k).s, 0) + Pow2(k) == FreePages(s, 0)
    decreases ORDERS - k
  {
    hide FreePages, Pair;
    if s.lists[k] == [] {
      AllocPages(s, k + 1);
      var r := Alloc(s, k + 1);
      AllocBelow(s, k + 1, k);
      FreePagesUpdate(r.s, k, [r.block] + r.s.lists[k], Pair(r.block + Pow2(k), k), 0);
    } else {
      FreePagesUpdate(s, k, s.lists[k][1..], Pair(s.lists[k][0], k), 0);
    }
  }

  lemma {:induction false} FreePagesBack(s: State, used: set<nat>, n: nat, b: nat, k: nat)
    requires Shaped(s) && Inv(s, used, n) && k < ORDERS && Aligned(b, k) && Block(b, k) <= used && Aligned(n, TOP)
    ensures FreePages(Free(s, b, k), 0) == FreePages(s, 0) + Pow2(k)
    decreases ORDERS - k
  {
    hide Inv, Aligned, Block, FreePages, Pair;
    if Pair(b, k) in s.bits[k] && k < TOP {
      var c := Buddy(b, k);
      MergeReady(s, used, n, b, k);
      FreePagesUpdate(s, k, Without(s.lists[k], c), Pair(b, k), 0);
      FreePagesBack(Update(s, k, Without(s.lists[k], c), Pair(b, k)), used + Block(c, k), n, Parent(b, k), k + 1);
    } else {
      FreePagesUpdate(s, k, [b] + s.lists[k], Pair(b, k), 0);
    }
  }

  /** Everything the recursive call of free_pages_of_power_2 relies on. */
  lemma MergeReady(s: State, used: set<nat>, n: nat, b: nat, k: nat)
    requires Shaped(s) && Inv(s, used, n) && k < TOP && Aligned(b, k) && Block(b, k) <= used && Pair(b, k) in s.bits[k]
    ensures Buddy(b, k) in s.lists[k] && |Without(s.lists[k], Buddy(b, k))| == |s.lists[k]| - 1
    ensures Inv(Update(s, k, Without(s.lists[k], Buddy(b, k)), Pair(b, k)), used + Block(Buddy(b, k), k), n)
    ensures Aligned(Parent(b, k), k + 1) && Block(Parent(b, k), k + 1) <= used + Block(Buddy(b, k), k)
  {
    assert ListOk(s.lists[k], used, n, k);
    PairBit(s, used, n, b, k);
    MergeInv(s, used, n, b, k);
    MergeSets(used, n, b, k);
    ParentFacts(b, k);
    WithoutFacts(s.lists[k], Buddy(b, k));
  }

  lemma {:induction false} RangeSize(b: nat, m: nat, w: set<nat>)
    requires forall q :: q in w <==> b <= q < b + m
    ensures |w| == m
  {
    if m > 0 {
      RangeSize(b, m - 1, w - {b + m - 1});
    } else {
      assert w == {};
    }
  }

  lemma BlockSize(b: nat, k: nat)
    ensures |Block(b, k)| == Pow2(k)
  {
    RangeSize(b, Pow2(k), Block(b, k));
  }

  // -------------------------------------------------------------------- initial state

  /** The top-order list after the loop of init_memory has pushed `m` blocks of 256 pages. */
  function Pushed(m: nat): seq<nat> {
    if m == 0 then [] else [Times(m - 1, Pow2(TOP))] + Pushed(m - 1)
  }

  function Initial(m: nat): (s: State)
    ensures Shaped(s)
  {
    State(seq(ORDERS, k => if k == TOP then Pushed(m) else []), seq(ORDERS, k => {}))
  }

  lemma {:induction false} PushedElements(m: nat, b: nat)
    ensures b in Pushed(m) <==> Aligned(b, TOP) && b < Times(m, Pow2(TOP))
  {
    if m > 0 {
      PushedElements(m - 1, b);
      if Aligned(b, TOP) && b < Times(m, Pow2(TOP)) && b > Times(m - 1, Pow2(TOP)) {
        AlignedGap(Times(m - 1, Pow2(TOP)), b, TOP);
      }
    }
  }

  lemma {:induction false} PushedNoDup(m: nat)
    ensures NoDup(Pushed(m))
  {
    if m > 0 {
      PushedNoDup(m - 1);
      PushedElements(m - 1, Times(m - 1, Pow2(TOP)));
      var l := Pushed(m - 1);
      assert forall i :: 0 <= i < |l| ==> l[i] in l;
    }
  }

  /** init_memory leaves a state in which every page below 256 * m is free. */
  lemma InitialInv(m: nat)
    ensures Inv(Initial(m), {}, Times(m, Pow2(TOP))) && FreePages(Initial(m), 0) == Times(m, Pow2(TOP))
  {
    hide ListOk, BitsOk, Pushed;
    forall k | 0 <= k < ORDERS
      ensures ListOk(Initial(m).lists[k], {}, Times(m, Pow2(TOP)), k)
    {
      InitialList(m, k);
    }
    forall k | 0 <= k < TOP
      ensures BitsOk(Initial(m).bits[k], Initial(m).lists[k], k)
    {
      NoBits(k);
    }
    InitialPages(m, 0);
  }

  lemma NoBits(k: nat)
    ensures BitsOk({}, [], k)
  {
  }

  lemma InitialList(m: nat, k: nat)
    requires k < ORDERS
    ensures ListOk(Initial(m).lists[k], {}, Times(m, Pow2(TOP)), k)
  {
    hide MaxFree, Aligned;
    var s, n := Initial(m), Times(m, Pow2(TOP));
    PushedNoDup(m);
    forall b: nat
      ensures b in s.lists[k] <==> MaxFree({}, n, b, k)
    {
      PushedElements(m, b);
      InitialMaxFree(m, b, k);
    }
  }

  lemma InitialMaxFree(m: nat, b: nat, k: nat)
    requires k < ORDERS
    ensures MaxFree({}, Times(m, Pow2(TOP)), b, k) <==> k == TOP && Aligned(b, TOP) && b < Times(m, Pow2(TOP))
  {
    var n := Times(m, Pow2(TOP));
    assert Aligned(n, TOP);
    if k == TOP && Aligned(b, TOP) && b < n {
      AlignedGap(b, n, TOP);
    }
    if k < TOP && MaxFree({}, n, b, k) {
      ParentFits(b, k, n);
    }
  }

  lemma ParentFits(b: nat, k: nat, n: nat)
    requires k < TOP && Aligned(b, k) && b < n && Aligned(n, TOP)
    ensures Parent(b, k) + Pow2(k + 1) <= n
  {
    ParentFacts(b, k);
    AlignedDown(n, TOP, k + 1);
    AlignedGap(Parent(b, k), n, k + 1);
  }

  lemma {:induction false} InitialPages(m: nat, k: nat)
    ensures FreePages(Initial(m), k) == if k <= TOP then Times(m, Pow2(TOP)) else 0
    decreases ORDERS - k
  {
    if k < ORDERS {
      InitialPages(m, k + 1);
      PushedLength(m);
    }
  }

  lemma {:induction false} PushedLength(m: nat)
    ensures |Pushed(m)| == m
  {
    if m > 0 { PushedLength(m - 1); }
  }

  // ------------------------------------------------------------------------------ runs

  datatype Config = Config(s: State, used: set<nat>)

  /** One call: page_alloc of some order, successful or not, or page_free of an aligned block of
      pages in use; the pages freed need not have been allocated together. */
  ghost predicate Step(c: Config, c': Config)
    requires Shaped(c.s)
  {
    || c' == c
    || (exists k :: StepAlloc(c, c', k))
    || (exists b, k :: StepFree(c, c', b, k))
  }

  ghost predicate StepAlloc(c: Config, c': Config, k: nat)
    requires Shaped(c.s)
  {
    var r := Alloc(c.s, k);
    r.Some? && c' == Config(r.s, c.used + Block(r.block, k))
  }

  ghost predicate StepFree(c: Config, c': Config, b: nat, k: nat)
    requires Shaped(c.s)
  {
    && k < ORDERS && Aligned(b, k) && Block(b, k) <= c.used
    && c' == Config(Free(c.s, b, k), c.used - Block(b, k))
  }

  /** What every reachable state satisfies. */
  ghost predicate Good(c: Config, n: nat) {
    Shaped(c.s) && Inv(c.s, c.used, n) && |c.used| + FreePages(c.s, 0) == n
  }

  lemma StepGood(c: Config, c': Config, n: nat)
    requires Good(c, n) && Step(c, c') && Aligned(n, TOP)
    ensures Good(c', n)
  {
    hide Inv, Aligned, FreePages, Alloc, Free;
    if k: nat :| StepAlloc(c, c', k) {
      AllocInv(c.s, c.used, n, k);
      AllocPages(c.s, k);
      AllocCount(c.used, n, Alloc(c.s, k).block, k);
    } else if b: nat, k: nat :| StepFree(c, c', b, k) {
      FreeInv(c.s, c.used, n, b, k);
      FreePagesBack(c.s, c.used, n, b, k);
      BlockSize(b, k);
    }
  }

  lemma AllocCount(used: set<nat>, n: nat, b: nat, k: nat)
    requires FreeRun(used, n, b, k)
    ensures |used + Block(b, k)| == |used| + Pow2(k)
  {
    BlockSize(b, k);
    assert used !! Block(b, k) by {
      assert forall q :: q in Block(b, k) ==> In(q, b, k);
    }
  }

  /** Spelled out: free blocks are aligned, inside the managed pages, never overlap each other or
      a page in use, and below the top order never lie beside a free buddy. */
  lemma FreeBlocksSeparate(c: Config, n: nat, j: nat, b: nat, k: nat, b': nat)
    requires Good(c, n) && j < ORDERS && k < ORDERS && b in c.s.lists[j] && b' in c.s.lists[k]
    ensures Aligned(b, j) && b + Pow2(j) <= n && Block(b, j) !! c.used
    ensures (b, j) != (b', k) ==> Block(b, j) !! Block(b', k)
    ensures j < TOP ==> Buddy(b, j) !in c.s.lists[j]
  {
    assert ListOk(c.s.lists[j], c.used, n, j) && ListOk(c.s.lists[k], c.used, n, k);
    if j < TOP { BuddyNotFree(c.used, n, b, j); }
    if q: nat :| q in Block(b, j) && q in Block(b', k) {
      MaxFreeDisjoint(c.used, n, b, j, b', k, q);
    }
    forall q | q in Block(b, j)
      ensures q !in c.used
    {
      assert In(q, b, j);
    }
  }

  // ----------------------------------------------------------------- freeing page by page

  /** page_free of the pages b, b + 1, ..., b + m - 1, one at a time. */
  ghost function FreeEach(s: State, b: nat, m: nat): (s': State)
    requires Shaped(s)
    ensures Shaped(s')
  {
    if m == 0 then s else Free(FreeEach(s, b, m - 1), b + m - 1, 0)
  }

  ghost function Pages(b: nat, m: nat): set<nat> {
    if m == 0 then {} else Pages(b, m - 1) + {b + m - 1}
  }

  lemma {:induction false} PagesAre(b: nat, m: nat, q: nat)
    ensures q in Pages(b, m) <==> b <= q < b + m
  {
    if m > 0 { PagesAre(b, m - 1, q); }
  }

  lemma OnePage(q: nat)
    ensures Block(q, 0) == {q} && Aligned(q, 0)
  {
    assert Pow2(0) == 1;
    forall x: nat
      ensures x in Block(q, 0) <==> x == q
    {
      assert In(x, q, 0) <==> x == q;
    }
    TimesIsProduct(q, 1);
    assert Times(q, Pow2(0)) == q;
  }

  lemma {:induction false} FreeEachInv(s: State, used: set<nat>, n: nat, b: nat, m: nat)
    requires Shaped(s) && Inv(s, used, n) && Aligned(n, TOP) && Pages(b, m) <= used
    ensures Inv(FreeEach(s, b, m), used - Pages(b, m), n)
  {
    hide Inv, Aligned, Block, Free;
    if m > 0 {
      FreeEachInv(s, used, n, b, m - 1);
      PagesAre(b, m - 1, b + m - 1);
      OnePage(b + m - 1);
      FreeInv(FreeEach(s, b, m - 1), used - Pages(b, m - 1), n, b + m - 1, 0);
      assert used - Pages(b, m - 1) - {b + m - 1} == used - Pages(b, m);
    } else {
      assert used - Pages(b, m) == used;
    }
  }

  /** Freeing a block page by page leads to the same free blocks and the same bitmaps as freeing it
      whole. */
  lemma PageByPage(s: State, used: set<nat>, n: nat, b: nat, k: nat)
    requires Shaped(s) && Inv(s, used, n) && k < ORDERS && Aligned(b, k) && Block(b, k) <= used && Aligned(n, TOP)
    ensures forall j :: 0 <= j < ORDERS ==>
      multiset(FreeEach(s, b, Pow2(k)).lists[j]) == multiset(Free(s, b, k).lists[j])
    ensures forall j :: 0 <= j < TOP ==> FreeEach(s, b, Pow2(k)).bits[j] == Free(s, b, k).bits[j]
  {
    hide Inv, Aligned, Free, FreeEach;
    BlockPages(b, k);
    FreeEachInv(s, used, n, b, Pow2(k));
    FreeInv(s, used, n, b, k);
    Canonical(FreeEach(s, b, Pow2(k)), Free(s, b, k), used - Block(b, k), n);
  }

  lemma BlockPages(b: nat, k: nat)
    ensures Pages(b, Pow2(k)) == Block(b, k)
  {
    hide Pages;
    forall q: nat
      ensures q in Pages(b, Pow2(k)) <==> q in Block(b, k)
    {
      PagesAre(b, Pow2(k), q);
      assert In(q, b, k) <==> b <= q < b + Pow2(k);
    }
  }

  // ---------------------------------------------------------------------- single pages

  /** Every free block grows into a maximal one. */
  lemma {:induction false} GrowFree(used: set<nat>, n: nat, b: nat, k: nat) returns (c: nat, j: nat)
    requires k <= TOP && Aligned(b, k) && FreeRun(used, n, b, k)
    ensures MaxFree(used, n, c, j)
    decreases TOP - k
  {
    hide Aligned, FreeRun;
    c, j := b, k;
    if k < TOP && FreeRun(used, n, Parent(b, k), k + 1) {
      ParentFacts(b, k);
      c, j := GrowFree(used, n, Parent(b, k), k + 1);
    }
  }

  /** A request for one page fails exactly when every page is in use. */
  lemma OnePageFails(s: State, used: set<nat>, n: nat)
    requires Shaped(s) && Inv(s, used, n)
    ensures Alloc(s, 0).None? <==> forall q: nat :: q < n ==> q in used
  {
    AllocFails(s, 0);
    if Alloc(s, 0).None? {
      forall q: nat | q < n
        ensures q in used
      {
        if q !in used { FreePageListed(s, used, n, q); }
      }
    } else {
      AllocInv(s, used, n, 0);
      OnePage(Alloc(s, 0).block);
      FreeRunPage(used, n, Alloc(s, 0).block);
    }
  }

  lemma FreeRunPage(used: set<nat>, n: nat, b: nat)
    requires FreeRun(used, n, b, 0)
    ensures b < n && b !in used
  {
    assert Pow2(0) == 1 && In(b, b, 0);
  }

  lemma FreePageListed(s: State, used: set<nat>, n: nat, q: nat)
    requires Shaped(s) && Inv(s, used, n) && q < n && q !in used
    ensures exists j :: 0 <= j < ORDERS && s.lists[j] != []
  {
    OnePage(q);
    assert FreeRun(used, n, q, 0) by {
      assert Pow2(0) == 1;
      forall x | In(x, q, 0)
        ensures x !in used
      {
        assert x == q;
      }
    }
    var c, j := GrowFree(used, n, q, 0);
    assert ListOk(s.lists[j], used, n, j);
    assert c in s.lists[j];
  }
}
