/** kernel/memory/buddy.c as it runs: linked free lists, counters, one array of words for all pair
    bitmaps, and page records, updated in place.  Pages are numbered from usable_memory_start. */
module Buddy {
  import opened Numbers
  import opened BuddySpec
  import opened BuddyProofs
  import opened BuddyLists
  import opened BuddyRuns
  import opened BuddyMaps
  import opened BitArray
  import opened Words

  /** `struct page_info` */
  datatype PageInfo = PageInfo(kind: int, reference: nat)

  const PAGE_TYPE_FREE_USABLE: int := 0x011

  lemma EmptyLists(heads: seq<int>, lists: seq<seq<nat>>)
    requires heads == seq(ORDERS, k => NULL) && lists == seq(ORDERS, k => [])
    ensures Linked(map[], heads, lists) && lists == Initial(0).lists
  {
  }

  lemma FirstOf(links: Links, heads: seq<int>, lists: seq<seq<nat>>, k: nat)
    requires Linked(links, heads, lists) && k < ORDERS && lists[k] != []
    ensures heads[k] == lists[k][0]
  {
    assert DList(links, heads[k], lists[k]);
  }

  lemma FirstPage(b: nat, k: nat)
    ensures In(b, b, k) && b in Block(b, k + 1)
  {
    assert In(b, b, k + 1);
  }

  lemma PowTwice(k: nat)
    ensures Pow2(k + 1) == 2 * Pow2(k)
  {
  }

  lemma Inside(p: nat, k: nat)
    requires Aligned(p, k)
    ensures Parent(p, k) <= p && p + Pow2(k) <= Parent(p, k) + Pow2(k + 1)
  {
    ParentFacts(p, k);
  }

  /** The loop of init_memory that places the bitmaps: the word each one begins at. */
  method PlaceMaps(pages: nat) returns (maps: seq<nat>)
    ensures |maps| == ORDERS && forall k :: 0 <= k < ORDERS ==> 32 * maps[k] == Base(pages, k)
  {
    maps := [0];
    var i := 0;
    while i < ORDERS - 1
      invariant 0 <= i < ORDERS && |maps| == i + 1
      invariant forall k :: 0 <= k <= i ==> 32 * maps[k] == Base(pages, k)
    {
      maps := maps + [maps[i] + Div(pages, Pow2(i + 1)) / 8];
      i := i + 1;
    }
  }

  class Allocator {
    const pages: nat
    const usable: nat
    const buddyMap: seq<nat>
    ghost var managed: nat
    var heads: seq<int>
    var counts: seq<nat>
    var words: seq<bv32>
    var links: Links
    var info: seq<PageInfo>
    ghost var bits: seq<set<nat>>
    ghost var lists: seq<seq<nat>>
    ghost var used: set<nat>

    /** The array holds the maps `bits`, each where init_memory placed it and clear of the others. */
    ghost predicate MapsOk()
      reads this`words, this`bits, this`managed
    {
      && managed <= pages && Placed() && |words| == TableWords(pages) && BitsOf(words) == Unite(bits, pages)
      && Spans(bits, managed) && MapsApart(pages, managed) && Aligned(managed, TOP)
    }

    ghost predicate Placed() {
      |buddyMap| == ORDERS && forall k :: 0 <= k < ORDERS ==> 32 * buddyMap[k] == Base(pages, k)
    }

    /** The pointers describe the lists, and the counters their lengths. */
    ghost predicate Structure()
      reads this
    {
      && Linked(links, heads, lists) && |heads| == |lists| == ORDERS
      && |counts| == ORDERS && |bits| == ORDERS && |info| == usable && managed < usable
      && MapsOk() && Aligned(managed, TOP)
      && forall k :: 0 <= k < ORDERS ==> counts[k] == |lists[k]|
    }

    ghost function Abs(): State
      reads this
    {
      State(lists, bits)
    }

    ghost predicate Valid()
      reads this
    {
      Structure() && Inv(Abs(), used, managed)
    }

    method RemoveFromFreeList(p: int, order: nat, ghost i: nat)
      requires Linked(links, heads, lists) && order < ORDERS && i < |lists[order]| && p == lists[order][i]
      requires 0 < p + Pow2(order) < usable
      modifies this`links, this`heads, this`lists
      ensures Linked(links, heads, lists)
      ensures lists == old(lists)[order := Without(old(lists)[order], p)]
    {
      ghost var l := lists[order];
      assert DList(links, heads[order], l) && NodeOk(links, l, i);
      UnlinkLinked(links, heads, lists, order, i);
      var prev, next := links[p].prev, links[p].next;
      if prev != NULL {
        links := SetNext(links, prev, next);
        if next != NULL {
          links := SetPrev(links, next, prev);
        }
      } else {
        assert heads[order] == p;  // otherwise the source panics
        heads := heads[order := next];
        if next != NULL {
          links := SetPrev(links, next, NULL);
        }
      }
      links := links[p := Link(NULL, NULL)];
      lists := lists[order := Without(l, p)];
    }

    method AttachToFreeList(p: nat, order: nat)
      requires Linked(links, heads, lists) && order < ORDERS
      requires forall j :: 0 <= j < ORDERS ==> p !in lists[j]
      requires p + Pow2(order) < usable
      modifies this`links, this`heads, this`lists
      ensures Linked(links, heads, lists)
      ensures lists == old(lists)[order := [p] + old(lists)[order]]
    {
      PushLinked(links, heads, lists, order, p);
      links := links[p := Link(NULL, heads[order])];
      if links[p].next != NULL {
        links := SetPrev(links, links[p].next, p);
      }
      heads := heads[order := p];
      lists := lists[order := [p] + lists[order]];
    }

    /** xor_buddy_map: flip the pair bit of `p` in the array and return its new value. */
    method XorBuddyMap(p: nat, order: nat) returns (bit: bool)
      requires order < ORDERS && MapsOk() && |bits| == ORDERS && p < managed
      modifies this`words, this`bits
      ensures MapsOk() && BitsOf(words) == Toggle(old(BitsOf(words)), Address(pages, p, order))
      ensures bits == old(bits)[order := Toggle(old(bits)[order], Pair(p, order))]
      ensures bit <==> Pair(p, order) !in old(bits)[order]
    {
      hide BitAt, XorAt, BitsOf, Unite, Spans, MapsApart, Span, Aligned, Pair, TableWords, Base;
      var a := 32 * buddyMap[order] + Pair(p, order);
      InTable(pages, managed, p, order);
      PairInSpan(p, order, managed);
      UniteBit(bits, pages, managed, order, Pair(p, order));
      UniteToggle(bits, pages, managed, order, Pair(p, order));
      XorToggles(words, a);
      XorLength(words, a);
      words := XorAt(words, a);
      bits := bits[order := Toggle(bits[order], Pair(p, order))];
      bit := BitAt(words, a);
    }

    /** The loops that write `struct page_info` for every page of a block. */
    method StampPages(b: nat, order: nat, pi: PageInfo)
      requires b + Pow2(order) <= |info|
      modifies this`info
      ensures |info| == |old(info)|
      ensures forall q :: 0 <= q < |info| ==> info[q] == if In(q, b, order) then pi else old(info)[q]
    {
      var i := 0;
      while i < Pow2(order)
        invariant 0 <= i <= Pow2(order) && |info| == |old(info)|
        invariant forall q :: 0 <= q < |info| ==> info[q] == if b <= q < b + i then pi else old(info)[q]
      {
        info := info[b + i := pi];
        i := i + 1;
      }
    }

    /** Every page of the block has the record `pi`. */
    ghost predicate Stamped(b: int, order: nat, pi: PageInfo)
      reads this`info
    {
      forall q :: b <= q < b + Pow2(order) ==> 0 <= q < |info| && info[q] == pi
    }

    /** The lower half of a block just taken goes on the free list of its order. */
    method SplitBlock(b: nat, order: nat, ghost used0: set<nat>)
      requires Valid() && order < TOP && Aligned(b, order + 1) && FreeRun(used0, managed, b, order + 1)
      requires b + Pow2(order + 1) <= managed
      requires used == used0 + Block(b, order + 1)
      modifies this`links, this`heads, this`lists, this`counts, this`words, this`bits, this`used
      ensures Valid() && used == used0 + Block(b + Pow2(order), order)
      ensures Abs() == Update(old(Abs()), order, [b] + old(lists)[order], Pair(b + Pow2(order), order))
    {
      hide Inv, FreeRun, Aligned, MapsOk, Linked, Toggle, Pair, Block, In;
      SplitInv(Abs(), used0, managed, b, order);
      SplitSets(used0, managed, b, order);
      FirstPage(b, order);
      BlockUnlisted(Abs(), used, managed, b, order);
      PowTwice(order);
      AttachToFreeList(b, order);
      counts := counts[order := counts[order] + 1];
      var bit := XorBuddyMap(b + Pow2(order), order);
      used := used - Block(b, order);
    }

    /** The first block of a non-empty list is taken off. */
    method TakeFirst(order: nat)
      requires Valid() && order < ORDERS && lists[order] != []
      modifies this`links, this`heads, this`lists, this`counts, this`words, this`bits, this`used
      ensures Valid() && used == old(used) + Block(old(lists)[order][0], order)
      ensures Abs() == Update(old(Abs()), order, old(lists)[order][1..], Pair(old(lists)[order][0], order))
    {
      hide Inv, FreeRun, Aligned, MapsOk, Linked;
      ghost var b := lists[order][0];
      TakeHead(Abs(), used, managed, order);
      ListedFits(Abs(), used, managed, order, 0);
      FirstOf(links, heads, lists, order);
      var block := heads[order];
      RemoveFromFreeList(block, order, 0);
      counts := counts[order := counts[order] - 1];
      var bit := XorBuddyMap(block, order);
      used := used + Block(b, order);
    }

    /** A granted block is recorded as referenced once; pages that were in use are not touched. */
    method StampGranted(block: nat, order: nat, attr: int, ghost used0: set<nat>)
      requires FreeRun(used0, managed, block, order) && managed < usable == |info|
      modifies this`info
      ensures |info| == |old(info)| && block + Pow2(order) <= managed
      ensures forall q :: block <= q < block + Pow2(order) ==> info[q] == PageInfo(attr, 1)
      ensures forall q :: q in used0 && q < |info| ==> info[q] == old(info)[q]
    {
      hide FreeRun;
      FreeRunFacts(used0, managed, block, order);
      StampPages(block, order, PageInfo(attr, 1));
    }

    /** allocate_pages_of_power_2 */
    method AllocatePow2(order: nat, attr: int) returns (block: int)
      requires Valid()
      modifies this`links, this`heads, this`lists, this`counts, this`words, this`bits, this`info, this`used
      ensures Valid()
      ensures block == NULL <==> Alloc(old(Abs()), order).None?
      ensures block == NULL ==> unchanged(this)
      ensures block != NULL ==> block >= 0 && Alloc(old(Abs()), order) == Some(block, Abs())
      ensures block != NULL ==> Aligned(block, order) && FreeRun(old(used), managed, block, order)
      ensures block != NULL ==> used == old(used) + Block(block, order) && block + Pow2(order) <= managed
      ensures block != NULL ==> forall q :: block <= q < block + Pow2(order) ==> info[q] == PageInfo(attr, 1)
      ensures forall q :: q in old(used) ==> q < |info| && info[q] == old(info)[q]
      decreases ORDERS - order
    {
      hide Inv, FreeRun, Aligned, Pair, Block, MapsOk, Toggle, Linked;
      UsedFits(Abs(), used, managed);
      if order >= ORDERS {
        return NULL;
      }
      if counts[order] == 0 {
        block := AllocatePow2(order + 1, 0);
        if block == NULL {
          return NULL;
        }
        AllocInv(old(Abs()), old(used), managed, order);
        SplitBlock(block, order, old(used));
        block := block + Pow2(order);
      } else {
        AllocInv(old(Abs()), old(used), managed, order);
        FirstOf(links, heads, lists, order);
        block := heads[order];
        TakeFirst(order);
      }
      StampGranted(block, order, attr, old(used));
    }

    /** The state `s0`, valid but for the pair bit of `p`, which has just been flipped. */
    ghost predicate Flipped(s0: State, p: nat, order: nat)
      reads this
    {
      && Structure() && Shaped(s0) && Inv(s0, used, managed) && order < ORDERS
      && lists == s0.lists && bits == s0.bits[order := Toggle(s0.bits[order], Pair(p, order))]
      && Aligned(p, order) && Block(p, order) <= used
    }

    /** The buddy of `p` is free: it comes off its list, to be freed together with `p`. */
    method TakeBuddy(p: nat, buddy: nat, order: nat, ghost s0: State)
      requires Flipped(s0, p, order) && order < TOP && Pair(p, order) in s0.bits[order] && buddy == Buddy(p, order)
      modifies this`links, this`heads, this`lists, this`counts, this`used
      ensures Valid() && used == old(used) + Block(buddy, order)
      ensures Abs() == Update(s0, order, Without(s0.lists[order], buddy), Pair(p, order))
      ensures Aligned(Parent(p, order), order + 1) && Block(Parent(p, order), order + 1) <= used
      ensures used - Block(Parent(p, order), order + 1) == old(used) - Block(p, order)
    {
      hide Inv, FreeRun, Aligned, Pair, Block, MapsOk, Linked;
      MergeReady(s0, used, managed, p, order);
      ghost var i :| 0 <= i < |lists[order]| && lists[order][i] == buddy;
      ListedFits(s0, used, managed, order, i);
      MergeSets(used, managed, p, order);
      RemoveFromFreeList(buddy, order, i);
      counts := counts[order := counts[order] - 1];
      used := used + Block(buddy, order);
    }

    /** No merging is possible: `p` goes on the list of its order. */
    method GiveBlock(p: nat, order: nat, ghost s0: State)
      requires Flipped(s0, p, order) && (order < TOP ==> Pair(p, order) !in s0.bits[order])
      modifies this`links, this`heads, this`lists, this`counts, this`info, this`used
      ensures Valid() && used == old(used) - Block(p, order)
      ensures Abs() == Update(s0, order, [p] + s0.lists[order], Pair(p, order))
      ensures forall q :: q in used ==> q < |info| && info[q] == old(info)[q]
      ensures Stamped(p, order, PageInfo(PAGE_TYPE_FREE_USABLE, 0))
    {
      hide Inv, FreeRun, Aligned, Pair, MapsOk, Linked;
      GiveReady(s0, used, managed, p, order);
      UsedFits(s0, used, managed);
      AttachToFreeList(p, order);
      StampPages(p, order, PageInfo(PAGE_TYPE_FREE_USABLE, 0));
      counts := counts[order := counts[order] + 1];
      used := used - Block(p, order);
    }

    /** free_pages_of_power_2.  A block handed to it is aligned and all its pages are in use; they
        need not have been allocated in one call. */
    method FreePow2(p: int, order: nat) returns (r: int)
      requires Valid() && order < ORDERS
      requires 0 <= p < usable ==> Aligned(p, order) && Block(p, order) <= used
      modifies this`links, this`heads, this`lists, this`counts, this`words, this`bits, this`info, this`used
      ensures Valid()
      ensures r == if p == NULL then 1 else if !(0 <= p < usable) then 2 else 0
      ensures r != 0 ==> unchanged(this)
      ensures r == 0 ==> Abs() == Free(old(Abs()), p, order) && used == old(used) - Block(p, order)
      ensures r == 0 ==> Stamped(p, order, PageInfo(PAGE_TYPE_FREE_USABLE, 0))
      ensures forall q :: q in used ==> q < |info| && info[q] == old(info)[q]
      decreases ORDERS - order
    {
      hide Inv, FreeRun, Aligned, Pair, Block, MapsOk, Linked, Toggle, Parent, Without;
      if p == NULL || !(0 <= p < usable) {
        UsedFits(Abs(), used, managed);
        return if p == NULL then 1 else 2;
      }
      ghost var s0 := Abs();
      UsedFits(s0, used, managed);
      FitsBelow(used, managed, p, order);
      var bit := XorBuddyMap(p, order);
      if !bit && order + 1 < ORDERS {
        var even := Parent(p, order);
        BuddyAddress(p, order);
        var buddy := if p == even then p + Pow2(order) else p - Pow2(order);
        TakeBuddy(p, buddy, order, s0);
        FreeMerges(s0, p, order);
        if buddy < p {
          var _ := FreePow2(buddy, order + 1);
        } else {
          var _ := FreePow2(p, order + 1);
        }
        Inside(p, order);
      } else {
        GiveBlock(p, order, s0);
      }
      r := 0;
    }

    /** page_alloc: `OrderIsLeast` and `OrderTooLarge` say which order a page count asks for. */
    method PageAlloc(count: bv64, attr: int) returns (block: int)
      requires Valid()
      modifies this`links, this`heads, this`lists, this`counts, this`words, this`bits, this`info, this`used
      ensures Valid()
      ensures block == NULL <==> forall j :: OrderFor(count) <= j < ORDERS ==> old(lists)[j] == []
      ensures block == NULL ==> unchanged(this)
      ensures block != NULL ==>
        block >= 0 && Aligned(block, OrderFor(count)) && block + Pow2(OrderFor(count)) <= managed
      ensures block != NULL ==> Block(block, OrderFor(count)) !! old(used)
      ensures block != NULL ==> used == old(used) + Block(block, OrderFor(count))
      ensures block != NULL ==> forall q :: block <= q < block + Pow2(OrderFor(count)) ==> info[q] == PageInfo(attr, 1)
      ensures forall q :: q in old(used) ==> q < |info| && info[q] == old(info)[q]
    {
      hide Inv, Aligned, OrderFor, Alloc, MapsOk, Linked;
      AllocFails(Abs(), OrderFor(count));
      block := AllocatePow2(OrderFor(count), attr);
    }

    /** page_free of pages that are in use. */
    method PageFree(p: int, count: bv64) returns (r: int)
      requires Valid() && OrderFor(count) < ORDERS
      requires 0 <= p < usable ==> Aligned(p, OrderFor(count)) && Block(p, OrderFor(count)) <= used
      modifies this`links, this`heads, this`lists, this`counts, this`words, this`bits, this`info, this`used
      ensures Valid()
      ensures r == if p == NULL then 1 else if !(0 <= p < usable) then 2 else 0
      ensures r != 0 ==> unchanged(this)
      ensures r == 0 ==> used == old(used) - Block(p, OrderFor(count))
      ensures r == 0 ==> Stamped(p, OrderFor(count), PageInfo(PAGE_TYPE_FREE_USABLE, 0))
      ensures forall q :: q in used ==> q < |info| && info[q] == old(info)[q]
    {
      hide Inv, Aligned, OrderFor, Block, MapsOk, Linked;
      r := FreePow2(p, OrderFor(count));
    }

    /** memory_available, in bytes. */
    method MemoryAvailable() returns (sz: nat)
      requires Valid()
      ensures sz == 4096 * FreePages(Abs(), 0)
    {
      hide Inv, Aligned, MapsOk, Linked;
      sz := 0;
      var order := 0;
      while order < ORDERS
        invariant 0 <= order <= ORDERS
        invariant sz + 4096 * FreePages(Abs(), order) == 4096 * FreePages(Abs(), 0)
      {
        TimesIsProduct(counts[order], Pow2(order));
        var current := Pow2(order) * 4096;
        ScaleProduct(counts[order], Pow2(order));
        sz := sz + counts[order] * current;
        order := order + 1;
      }
    }

    /** The loop of init_memory: blocks of 256 pages go on the top list as long as one page more is left. */
    method PushBlocks() returns (pg: nat, ghost m: nat)
      requires Linked(links, heads, lists) && lists == Initial(0).lists && usable > 0
      requires counts == seq(ORDERS, k => 0)
      modifies this`links, this`heads, this`lists, this`counts
      ensures pg == Times(m, Pow2(TOP)) && pg < usable <= pg + Pow2(TOP)
      ensures Linked(links, heads, lists) && lists == Initial(m).lists
      ensures |counts| == ORDERS && forall k :: 0 <= k < ORDERS ==> counts[k] == |lists[k]|
    {
      pg, m := 0, 0;
      while pg < usable - Pow2(TOP)
        invariant pg == Times(m, Pow2(TOP)) && pg < usable
        invariant Linked(links, heads, lists) && lists == Initial(m).lists
        invariant |counts| == ORDERS && forall k :: 0 <= k < ORDERS ==> counts[k] == |lists[k]|
        decreases usable - pg
      {
        PushedElements(m, pg);
        AttachToFreeList(pg, TOP);
        counts := counts[TOP := counts[TOP] + 1];
        pg := pg + Pow2(TOP);
        m := m + 1;
        assert lists == Initial(m).lists;
      }
    }

    /** The allocator part of init_memory, for `n` usable pages of `total`.  It leaves an allocator that
        works exactly when there is nothing to manage or the bitmaps lie apart. */
    constructor (total: nat, n: nat)
      requires 0 < n <= total
      ensures Valid() <==> n <= 256 || total >= 2048
      ensures used == {} && usable == n && pages == total && |words| == TableWords(pages) && BitsOf(words) == {}
      ensures exists m :: managed == Times(m, Pow2(TOP)) && Abs() == Initial(m)
      ensures managed < n <= managed + Pow2(TOP)
      ensures info == seq(n, q => PageInfo(PAGE_TYPE_FREE_USABLE, 0))
    {
      var maps := PlaceMaps(total);
      pages, usable, buddyMap := total, n, maps;
      heads := seq(ORDERS, k => NULL);
      counts := seq(ORDERS, k => 0);
      words := seq(TableWords(total), i => 0);
      links := map[];
      info := seq(n, q => PageInfo(PAGE_TYPE_FREE_USABLE, 0));
      bits := seq(ORDERS, k => {});
      lists := seq(ORDERS, k => []);
      used, managed := {}, 0;
      new;
      hide Inv, Linked, Aligned, BitsOf, TableWords, Base, Valid, Initial;
      EmptyLists(heads, lists);
      var pg;
      ghost var m;
      pg, m := PushBlocks();
      managed := pg;
      Ready(m);
    }

    /** What init_memory leaves after `m` blocks. */
    lemma Ready(m: nat)
      requires managed == Times(m, Pow2(TOP)) && managed < usable <= managed + Pow2(TOP) && usable <= pages && Placed()
      requires Linked(links, heads, lists) && lists == Initial(m).lists && used == {} && |info| == usable
      requires |counts| == ORDERS && forall k :: 0 <= k < ORDERS ==> counts[k] == |lists[k]|
      requires words == seq(TableWords(pages), i => 0) && bits == seq(ORDERS, k => {})
      ensures Abs() == Initial(m) && BitsOf(words) == {} && (Valid() <==> usable <= 256 || pages >= 2048)
    {
      hide Inv, Aligned, BitsOf, Unite, Spans, MapsApart, TableWords, Placed;
      InitialInv(m);
      InitialMaps(pages, m, words, bits);
      BitmapsApart(pages, m);
      BlocksFor(m, usable);
    }
  }

  lemma InitialMaps(pages: nat, m: nat, words: seq<bv32>, bits: seq<set<nat>>)
    requires words == seq(TableWords(pages), i => 0) && bits == seq(ORDERS, k => {})
    ensures BitsOf(words) == Unite(bits, pages) == {} && Spans(bits, Times(m, Pow2(TOP)))
    ensures Aligned(Times(m, Pow2(TOP)), TOP)
  {
    AllClear(|words|, words);
    UniteNone(bits, pages, ORDERS);
  }

  lemma BlocksFor(m: nat, n: nat)
    requires Times(m, Pow2(TOP)) < n <= Times(m, Pow2(TOP)) + Pow2(TOP)
    ensures m == 0 <==> n <= 256
  {
    assert Pow2(TOP) == 256;
    if m > 0 { TimesMonotone(1, m, Pow2(TOP)); }
  }
}
