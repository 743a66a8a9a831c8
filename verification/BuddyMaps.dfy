/** Where init_memory of kernel/memory/memory.c puts the pair bitmaps: one after the other in one array
    of 32-bit words.  The allocator on that array, and when it is the allocator with a map of its own
    for every order. */
module BuddyMaps {
  import opened Numbers
  import opened BuddySpec
  import opened BuddyProofs
  import opened BuddyRuns

  // ------------------------------------------------------------------------------ layout

  /** How many pairs of an order there are among `pages` pages, and how many words init_memory leaves
      before the bitmap of the next order: it adds a number of bytes to a pointer to words. */
  function PairCount(pages: nat, order: nat): nat {
    Div(pages, Pow2(order + 1))
  }

  function BitmapWords(pages: nat, order: nat): nat {
    PairCount(pages, order) / 8
  }

  /** The first bit of buddy_map[order], for `pages` pages of memory. */
  function Base(pages: nat, order: nat): nat {
    if order == 0 then 0 else Base(pages, order - 1) + 32 * BitmapWords(pages, order - 1)
  }

  /** The bit that xor_buddy_map flips. */
  function Address(pages: nat, b: nat, k: nat): nat {
    Base(pages, k) + Pair(b, k)
  }

  /** The words of the table that init_memory sets aside at the end of memory. */
  function TableWords(pages: nat): nat {
    511 * pages / 512 / 4
  }

  /** The indices of the pairs of order `k` among `n` managed pages. */
  function Span(n: nat, k: nat): nat {
    if k < TOP then PairCount(n, k) else PairCount(n, k) + 1
  }

  /** No map runs into the next one. */
  ghost predicate MapsApart(pages: nat, n: nat) {
    forall k :: 0 <= k < TOP ==> Separate(pages, n, k)
  }

  predicate Separate(pages: nat, n: nat, k: nat) {
    PairCount(n, k) <= 32 * BitmapWords(pages, k)
  }

  /** The maps lie apart exactly when there is nothing to manage or memory has 2048 pages. */
  lemma BitmapsApart(pages: nat, m: nat)
    requires Times(m, Pow2(TOP)) <= pages
    ensures MapsApart(pages, Times(m, Pow2(TOP))) <==> m == 0 || pages >= 2048
  {
    var n := Times(m, Pow2(TOP));
    assert Pow2(TOP) == 256;
    if m == 0 || pages >= 2048 {
      forall k | 0 <= k < TOP
        ensures Separate(pages, n, k)
      {
        EnoughWords(pages, n, k);
      }
    } else {
      assert PairCount(n, 7) >= 1 by { DivAtLeast(n, Pow2(TOP), 1); }
      SevenPairs(pages);
      assert !Separate(pages, n, 7);
    }
  }

  lemma EnoughWords(pages: nat, n: nat, k: nat)
    requires k < TOP && n <= pages && (n == 0 || pages >= 2048)
    ensures Separate(pages, n, k)
  {
    DivMonotone(n, pages, Pow2(k + 1));
    if pages >= 2048 {
      Pow2Monotone(k + 1, TOP);
      assert Pow2(TOP) == 256;
      DivAtLeast(pages, Pow2(k + 1), 8);
    }
  }

  /** Below 2048 pages the map of the top order begins where the map of order 7 does. */
  lemma SevenPairs(pages: nat)
    requires pages < 2048
    ensures PairCount(pages, 7) < 8 && BitmapWords(pages, 7) == 0 && Base(pages, 8) == Base(pages, 7)
  {
    assert Pow2(TOP) == 256;
    DivBelow(pages, 256, 8);
  }

  lemma {:induction false} DivAtLeast(n: nat, d: nat, q: nat)
    requires d > 0 && Times(q, d) <= n
    ensures Div(n, d) >= q
    decreases n
  {
    if q > 0 { DivAtLeast(n - d, d, q - 1); }
  }

  lemma {:induction false} DivBelow(n: nat, d: nat, q: nat)
    requires d > 0 && n < Times(q, d)
    ensures Div(n, d) < q
    decreases q
  {
    if n >= d { DivBelow(n - d, d, q - 1); }
  }

  lemma {:induction false} DivMonotone(x: nat, y: nat, d: nat)
    requires d > 0 && x <= y
    ensures Div(x, d) <= Div(y, d)
    decreases x
  {
    if x >= d { DivMonotone(x - d, y - d, d); }
  }

  lemma {:induction false} DivHalf(n: nat, d: nat)
    requires d > 0
    ensures 2 * Div(n, 2 * d) <= Div(n, d)
    decreases n
  {
    if n >= 2 * d {
      DivHalf(n - 2 * d, d);
      assert Div(n, d) == 1 + Div(n - d, d) == 2 + Div(n - 2 * d, d);
    }
  }

  lemma {:induction false} DivByOne(n: nat)
    ensures Div(n, 1) == n
  {
    if n > 0 { DivByOne(n - 1); }
  }

  lemma {:induction false} BaseMonotone(pages: nat, k: nat, j: nat)
    requires k <= j
    ensures Base(pages, k) <= Base(pages, j)
  {
    if k < j { BaseMonotone(pages, k, j - 1); }
  }

  /** A map begins a whole number of words behind a lower one. */
  lemma {:induction false} BaseWords(pages: nat, k: nat, j: nat)
    requires k <= j
    ensures Base(pages, j) == Base(pages, k) || Base(pages, j) >= Base(pages, k) + 32
  {
    if k < j { BaseWords(pages, k, j - 1); }
  }

  lemma {:induction false} BaseBound(pages: nat, k: nat)
    ensures Base(pages, k) + 4 * Div(pages, Pow2(k)) <= 4 * pages
  {
    if k == 0 {
      DivByOne(pages);
    } else {
      BaseBound(pages, k - 1);
      DivHalf(pages, Pow2(k - 1));
    }
  }

  lemma PairInSpan(b: nat, k: nat, n: nat)
    requires b < n && Aligned(n, TOP) && k < ORDERS
    ensures Pair(b, k) < Span(n, k)
  {
    DivMonotone(b, n, Pow2(k + 1));
    if k < TOP {
      AlignedDown(n, TOP, k + 1);
      var x: nat :| Times(x, Pow2(k + 1)) == n;
      DivUnique(x, Pow2(k + 1), 0);
      DivBelow(b, Pow2(k + 1), x);
    }
  }

  /** The bits of all managed pairs lie in the table. */
  lemma InTable(pages: nat, n: nat, b: nat, k: nat)
    requires b < n <= pages && Aligned(n, TOP) && k < ORDERS
    ensures Address(pages, b, k) < 32 * TableWords(pages)
  {
    hide Base;
    BaseBound(pages, k);
    DivMonotone(b, pages, Pow2(k + 1));
    DivHalf(pages, Pow2(k));
    AlignedGap0(n);
    assert Address(pages, b, k) <= 4 * pages;
  }

  lemma AlignedGap0(n: nat)
    requires n > 0 && Aligned(n, TOP)
    ensures n >= 256
  {
    assert Times(0, Pow2(TOP)) == 0 && Pow2(TOP) == 256;
    AlignedGap(0, n, TOP);
  }

  /** Bits of different managed pairs are different bits. */
  lemma Distinct(pages: nat, n: nat, k: nat, i: nat, j: nat, l: nat)
    requires MapsApart(pages, n) && k < ORDERS && j < ORDERS && i < Span(n, k) && l < Span(n, j)
    requires Base(pages, k) + i == Base(pages, j) + l
    ensures k == j && i == l
  {
    if k < j {
      assert Separate(pages, n, k);
      BaseMonotone(pages, k + 1, j);
    } else if j < k {
      assert Separate(pages, n, j);
      BaseMonotone(pages, j + 1, k);
    }
  }

  // ------------------------------------------------------------------- all maps in one array

  ghost function Shift(w: set<nat>, base: nat): set<nat> {
    set i | i in w :: base + i
  }

  /** The one bits of the array when the maps of the first `k` orders are `bits`. */
  ghost function UniteTo(bits: seq<set<nat>>, pages: nat, k: nat): set<nat>
    requires k <= |bits|
  {
    if k == 0 then {} else UniteTo(bits, pages, k - 1) + Shift(bits[k - 1], Base(pages, k - 1))
  }

  ghost function Unite(bits: seq<set<nat>>, pages: nat): set<nat> {
    UniteTo(bits, pages, |bits|)
  }

  /** Only managed pairs have their bit set. */
  ghost predicate Spans(bits: seq<set<nat>>, n: nat) {
    |bits| == ORDERS && forall k, i :: 0 <= k < ORDERS && i in bits[k] ==> i < Span(n, k)
  }

  predicate BitOf(bits: seq<set<nat>>, pages: nat, k: nat, a: nat)
    requires k < |bits|
  {
    a >= Base(pages, k) && a - Base(pages, k) in bits[k]
  }

  lemma {:induction false} InUniteTo(bits: seq<set<nat>>, pages: nat, k: nat, a: nat)
    requires k <= |bits|
    ensures a in UniteTo(bits, pages, k) <==> exists j :: 0 <= j < k && BitOf(bits, pages, j, a)
  {
    if k > 0 {
      InUniteTo(bits, pages, k - 1, a);
      InShift(bits[k - 1], Base(pages, k - 1), a);
      if a in UniteTo(bits, pages, k) {
        if a in UniteTo(bits, pages, k - 1) {
          var j :| 0 <= j < k - 1 && BitOf(bits, pages, j, a);
        } else {
          assert BitOf(bits, pages, k - 1, a);
        }
      }
    }
  }

  lemma InShift(w: set<nat>, base: nat, a: nat)
    ensures a in Shift(w, base) <==> a >= base && a - base in w
  {
    if a >= base && a - base in w { assert base + (a - base) == a; }
  }

  /** The bit of a pair in the array is the bit of the pair in the map of its order. */
  lemma UniteBit(bits: seq<set<nat>>, pages: nat, n: nat, k: nat, i: nat)
    requires MapsApart(pages, n) && Spans(bits, n) && k < ORDERS && i < Span(n, k)
    ensures Base(pages, k) + i in Unite(bits, pages) <==> i in bits[k]
  {
    hide MapsApart, Span, Base;
    var a := Base(pages, k) + i;
    InUniteTo(bits, pages, ORDERS, a);
    if a in Unite(bits, pages) {
      var j :| 0 <= j < ORDERS && BitOf(bits, pages, j, a);
      Distinct(pages, n, j, a - Base(pages, j), k, i);
    }
    if i in bits[k] { assert BitOf(bits, pages, k, a); }
  }

  /** Flipping it in the array is flipping it there. */
  lemma UniteToggle(bits: seq<set<nat>>, pages: nat, n: nat, k: nat, i: nat)
    requires MapsApart(pages, n) && Spans(bits, n) && k < ORDERS && i < Span(n, k)
    ensures var bits' := bits[k := Toggle(bits[k], i)];
      Spans(bits', n) && Unite(bits', pages) == Toggle(Unite(bits, pages), Base(pages, k) + i)
  {
    hide MapsApart, Span, Base, Unite;
    var bits' := bits[k := Toggle(bits[k], i)];
    forall a: nat
      ensures a in Unite(bits', pages) <==> a in Toggle(Unite(bits, pages), Base(pages, k) + i)
    {
      if a == Base(pages, k) + i {
        UniteBit(bits, pages, n, k, i);
        UniteBit(bits', pages, n, k, i);
      } else {
        UniteElsewhere(bits, bits', pages, k, i, a);
        UniteElsewhere(bits', bits, pages, k, i, a);
      }
    }
  }

  lemma UniteElsewhere(bits: seq<set<nat>>, bits': seq<set<nat>>, pages: nat, k: nat, i: nat, a: nat)
    requires |bits| == |bits'| == ORDERS && k < ORDERS && a != Base(pages, k) + i
    requires forall j :: 0 <= j < ORDERS && j != k ==> bits[j] == bits'[j]
    requires forall l :: l != i && l in bits[k] ==> l in bits'[k]
    ensures a in Unite(bits, pages) ==> a in Unite(bits', pages)
  {
    hide Base;
    InUniteTo(bits, pages, ORDERS, a);
    InUniteTo(bits', pages, ORDERS, a);
    if a in Unite(bits, pages) {
      var j :| 0 <= j < ORDERS && BitOf(bits, pages, j, a);
      assert BitOf(bits', pages, j, a);
    }
  }

  lemma {:induction false} UniteNone(bits: seq<set<nat>>, pages: nat, k: nat)
    requires k <= |bits| && forall j :: 0 <= j < |bits| ==> bits[j] == {}
    ensures UniteTo(bits, pages, k) == {}
  {
    if k > 0 { UniteNone(bits, pages, k - 1); }
  }

  // ------------------------------------------------------- the allocator on the shared array

  datatype Flat = Flat(lists: seq<seq<nat>>, map0: set<nat>)

  datatype FlatGrant = NoBlock | Granted(block: nat, f: Flat)

  /** free_pages_of_power_2 takes the buddy off its list when the bit says so; `Lost` is the case that
      it is not there. */
  datatype Release = Lost | Done(f: Flat)

  function FlatUpdate(pages: nat, f: Flat, k: nat, l: seq<nat>, b: nat): (f': Flat)
    requires |f.lists| == ORDERS && k < ORDERS
    ensures |f'.lists| == ORDERS
  {
    Flat(f.lists[k := l], Toggle(f.map0, Address(pages, b, k)))
  }

  /** allocate_pages_of_power_2 */
  function FlatAlloc(pages: nat, f: Flat, k: nat): (r: FlatGrant)
    requires |f.lists| == ORDERS
    ensures r.Granted? ==> |r.f.lists| == ORDERS
    decreases ORDERS - k
  {
    if k >= ORDERS then NoBlock
    else if f.lists[k] == [] then
      var r := FlatAlloc(pages, f, k + 1);
      if r.NoBlock? then NoBlock
      else Granted(r.block + Pow2(k), FlatUpdate(pages, r.f, k, [r.block] + r.f.lists[k], r.block + Pow2(k)))
    else Granted(f.lists[k][0], FlatUpdate(pages, f, k, f.lists[k][1..], f.lists[k][0]))
  }

  /** free_pages_of_power_2 */
  function FlatFree(pages: nat, f: Flat, b: nat, k: nat): (r: Release)
    requires |f.lists| == ORDERS && k < ORDERS
    ensures r.Done? ==> |r.f.lists| == ORDERS
    decreases ORDERS - k
  {
    if Address(pages, b, k) in f.map0 && k + 1 < ORDERS then
      if Buddy(b, k) !in f.lists[k] then Lost
      else FlatFree(pages, FlatUpdate(pages, f, k, Without(f.lists[k], Buddy(b, k)), b), Parent(b, k), k + 1)
    else Done(FlatUpdate(pages, f, k, [b] + f.lists[k], b))
  }

  ghost function FlatOf(s: State, pages: nat): (f: Flat)
    requires Shaped(s)
    ensures |f.lists| == ORDERS
  {
    Flat(s.lists, Unite(s.bits, pages))
  }

  /** What the shared array needs to stand for separate maps. */
  ghost predicate Fine(s: State, n: nat, pages: nat) {
    Shaped(s) && Spans(s.bits, n) && MapsApart(pages, n) && Aligned(n, TOP)
  }

  lemma UpdateFlat(s: State, n: nat, pages: nat, k: nat, l: seq<nat>, b: nat)
    requires Fine(s, n, pages) && k < ORDERS && b < n
    ensures FlatUpdate(pages, FlatOf(s, pages), k, l, b) == FlatOf(Update(s, k, l, Pair(b, k)), pages)
    ensures Fine(Update(s, k, l, Pair(b, k)), n, pages)
    ensures Address(pages, b, k) in FlatOf(s, pages).map0 <==> Pair(b, k) in s.bits[k]
  {
    hide MapsApart, Spans, Span, Aligned, Unite, Pair;
    PairInSpan(b, k, n);
    UniteToggle(s.bits, pages, n, k, Pair(b, k));
    UniteBit(s.bits, pages, n, k, Pair(b, k));
  }

  /** With the maps apart, allocation is the one with a map for every order. */
  lemma {:induction false} AllocFlat(s: State, used: set<nat>, n: nat, pages: nat, k: nat)
    requires Fine(s, n, pages) && Inv(s, used, n)
    ensures Alloc(s, k).None? ==> FlatAlloc(pages, FlatOf(s, pages), k) == NoBlock
    ensures var r := Alloc(s, k); r.Some? ==>
      Fine(r.s, n, pages) && FlatAlloc(pages, FlatOf(s, pages), k) == Granted(r.block, FlatOf(r.s, pages))
    decreases ORDERS - k
  {
    hide Inv, Fine, Unite, Pair, Aligned, FreeRun, FlatUpdate;
    FineShape(s, n, pages);
    if k < ORDERS {
      var r := Alloc(s, k);
      if s.lists[k] == [] {
        AllocFlat(s, used, n, pages, k + 1);
        if r.Some? {
          AllocInv(s, used, n, k);
          FreeRunFacts(used, n, r.block, k);
          var q := Alloc(s, k + 1);
          UpdateFlat(q.s, n, pages, k, [q.block] + q.s.lists[k], r.block);
        }
      } else {
        ListedFits(s, used, n, k, 0);
        UpdateFlat(s, n, pages, k, s.lists[k][1..], s.lists[k][0]);
      }
    }
  }

  lemma FineShape(s: State, n: nat, pages: nat)
    requires Fine(s, n, pages)
    ensures Shaped(s) && Aligned(n, TOP)
  {
  }

  /** So is freeing, and it never loses a block. */
  lemma {:induction false} FreeFlat(s: State, used: set<nat>, n: nat, pages: nat, b: nat, k: nat)
    requires Fine(s, n, pages) && Inv(s, used, n) && k < ORDERS && Aligned(b, k) && Block(b, k) <= used
    ensures Fine(Free(s, b, k), n, pages) &&
      FlatFree(pages, FlatOf(s, pages), b, k) == Done(FlatOf(Free(s, b, k), pages))
    decreases ORDERS - k
  {
    hide Inv, Fine, Unite, Pair, Aligned, Block, FreeRun, FlatUpdate;
    FineShape(s, n, pages);
    UsedFits(s, used, n);
    FitsBelow(used, n, b, k);
    if Pair(b, k) in s.bits[k] && k + 1 < ORDERS {
      MergeReady(s, used, n, b, k);
      var l := Without(s.lists[k], Buddy(b, k));
      UpdateFlat(s, n, pages, k, l, b);
      FreeFlat(Update(s, k, l, Pair(b, k)), used + Block(Buddy(b, k), k), n, pages, Parent(b, k), k + 1);
    } else {
      UpdateFlat(s, n, pages, k, [b] + s.lists[k], b);
    }
  }

  /** page_free after page_alloc restores every list and the whole array. */
  lemma FreeRestores(s: State, used: set<nat>, n: nat, pages: nat, k: nat)
    requires Fine(s, n, pages) && Inv(s, used, n) && Alloc(s, k).Some?
    ensures var r := FlatAlloc(pages, FlatOf(s, pages), k);
      r.Granted? && k < ORDERS && FlatFree(pages, r.f, r.block, k) == Done(FlatOf(s, pages))
  {
    hide Inv, Aligned, Alloc, Free, FlatAlloc, FlatFree;
    var r := Alloc(s, k);
    AllocFlat(s, used, n, pages, k);
    AllocInv(s, used, n, k);
    FreeFlat(r.s, used + Block(r.block, k), n, pages, r.block, k);
    FreeUndoesAlloc(s, used, n, k);
  }

  // ---------------------------------------------------------------------------------- runs

  datatype Machine = Running(f: Flat, used: set<nat>) | Corrupt

  /** A call of page_alloc, or of page_free with an aligned block of pages in use. */
  ghost predicate Call(pages: nat, c: Machine, c': Machine) {
    && c.Running? && |c.f.lists| == ORDERS
    && (c' == c || (exists k :: CallAlloc(pages, c, c', k)) || (exists b, k :: CallFree(pages, c, c', b, k)))
  }

  ghost predicate CallAlloc(pages: nat, c: Machine, c': Machine, k: nat)
    requires c.Running? && |c.f.lists| == ORDERS
  {
    var r := FlatAlloc(pages, c.f, k);
    r.Granted? && c' == Running(r.f, c.used + Block(r.block, k))
  }

  ghost predicate CallFree(pages: nat, c: Machine, c': Machine, b: nat, k: nat)
    requires c.Running? && |c.f.lists| == ORDERS
  {
    && k < ORDERS && Aligned(b, k) && Block(b, k) <= c.used
    && c' == match FlatFree(pages, c.f, b, k)
      case Lost => Corrupt
      case Done(f) => Running(f, c.used - Block(b, k))
  }

  /** The state init_memory leaves: `m` blocks of 256 pages and a cleared array. */
  function Boot(m: nat): Machine {
    Running(Flat(Initial(m).lists, {}), {})
  }

  ghost predicate Calls(pages: nat, m: nat, run: seq<Machine>) {
    && run != [] && run[0] == Boot(m)
    && forall i :: 0 <= i < |run| - 1 ==> Call(pages, run[i], run[i + 1])
  }

  /** Every list holds exactly the maximal free blocks of its order. */
  ghost predicate Proper(c: Machine, n: nat) {
    && c.Running? && |c.f.lists| == ORDERS
    && forall k :: 0 <= k < ORDERS ==> ListOk(c.f.lists[k], c.used, n, k)
  }

  /** A machine state that stands for a state with separate maps. */
  ghost predicate Stands(c: Machine, s: State, n: nat, pages: nat) {
    c.Running? && Fine(s, n, pages) && c.f == FlatOf(s, pages) && Good(Config(s, c.used), n)
  }

  lemma BootStands(pages: nat, m: nat)
    requires MapsApart(pages, Times(m, Pow2(TOP)))
    ensures Stands(Boot(m), Initial(m), Times(m, Pow2(TOP)), pages)
  {
    hide MapsApart, Inv, FreePages;
    InitialInv(m);
    UniteNone(Initial(m).bits, pages, ORDERS);
    assert Aligned(Times(m, Pow2(TOP)), TOP);
  }

  lemma CallStands(c: Machine, c': Machine, s: State, n: nat, pages: nat) returns (s': State)
    requires Stands(c, s, n, pages) && Call(pages, c, c')
    ensures Stands(c', s', n, pages)
  {
    hide Inv, Fine, FlatAlloc, FlatFree, Alloc, Free, Good, Aligned, FlatOf;
    FineShape(s, n, pages);
    GoodInv(s, c.used, n);
    s' := s;
    if k: nat :| CallAlloc(pages, c, c', k) {
      AllocFlat(s, c.used, n, pages, k);
      s' := Alloc(s, k).s;
      assert StepAlloc(Config(s, c.used), Config(s', c'.used), k);
      StepGood(Config(s, c.used), Config(s', c'.used), n);
    } else if b: nat, k: nat :| CallFree(pages, c, c', b, k) {
      FreeFlat(s, c.used, n, pages, b, k);
      s' := Free(s, b, k);
      assert StepFree(Config(s, c.used), Config(s', c'.used), b, k);
      StepGood(Config(s, c.used), Config(s', c'.used), n);
    }
  }

  lemma GoodInv(s: State, used: set<nat>, n: nat)
    requires Good(Config(s, used), n)
    ensures Shaped(s) && Inv(s, used, n)
  {
  }

  lemma {:induction false} RunStands(pages: nat, m: nat, run: seq<Machine>, i: nat) returns (s: State)
    requires MapsApart(pages, Times(m, Pow2(TOP))) && Calls(pages, m, run) && i < |run|
    ensures Stands(run[i], s, Times(m, Pow2(TOP)), pages)
  {
    hide MapsApart, Stands, Call, Boot;
    if i == 0 {
      s := Initial(m);
      BootStands(pages, m);
    } else {
      s := RunStands(pages, m, run, i - 1);
      assert Call(pages, run[i - 1], run[i - 1 + 1]);
      s := CallStands(run[i - 1], run[i], s, Times(m, Pow2(TOP)), pages);
    }
  }

  /** With the maps apart every run keeps the lists right, and the pages in use and the free pages
      add up to the managed pages. */
  lemma RunProper(pages: nat, m: nat, run: seq<Machine>, i: nat)
    requires MapsApart(pages, Times(m, Pow2(TOP))) && Calls(pages, m, run) && i < |run|
    ensures var n := Times(m, Pow2(TOP)); Proper(run[i], n)
    ensures |run[i].used| + FreePages(State(run[i].f.lists, seq(ORDERS, k => {})), 0) == Times(m, Pow2(TOP))
  {
    hide MapsApart, ListOk, Fine, FreePages;
    var s := RunStands(pages, m, run, i);
    FineShape(s, Times(m, Pow2(TOP)), pages);
    SamePages(s, State(run[i].f.lists, seq(ORDERS, k => {})), 0);
  }

  lemma {:induction false} SamePages(s: State, s': State, k: nat)
    requires Shaped(s) && Shaped(s') && s.lists == s'.lists
    ensures FreePages(s, k) == FreePages(s', k)
    decreases ORDERS - k
  {
    if k < ORDERS { SamePages(s, s', k + 1); }
  }
}
