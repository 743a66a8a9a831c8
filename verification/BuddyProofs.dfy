/** What every run of the buddy allocator keeps, and what its two operations undo. */
module BuddyProofs {
  import opened Numbers
  import opened BuddySpec

  // ------------------------------------------------------------------- allocation

  /** page_alloc fails only when every list from that order up is empty. */
  lemma {:induction false} AllocFails(s: State, k: nat)
    requires Shaped(s)
    ensures Alloc(s, k).None? <==> forall j :: k <= j < ORDERS ==> s.lists[j] == []
    decreases ORDERS - k
  {
    if k < ORDERS && s.lists[k] == [] {
      AllocFails(s, k + 1);
    }
  }

  /** page_alloc hands out an aligned block of free pages, and nothing else changes hands. */
  lemma {:induction false} AllocInv(s: State, used: set<nat>, n: nat, k: nat)
    requires Shaped(s) && Inv(s, used, n) && Alloc(s, k).Some?
    ensures var r := Alloc(s, k);
      k < ORDERS && Aligned(r.block, k) && FreeRun(used, n, r.block, k) && Inv(r.s, used + Block(r.block, k), n)
    decreases ORDERS - k
  {
    hide Inv, FreeRun, Aligned, Block;
    if s.lists[k] == [] {
      AllocInv(s, used, n, k + 1);
      var r := Alloc(s, k + 1);
      UpperHalf(used, n, r.block, k);
      SplitInv(r.s, used, n, r.block, k);
    } else {
      TakeHead(s, used, n, k);
    }
  }

  lemma TakeHead(s: State, used: set<nat>, n: nat, k: nat)
    requires Inv(s, used, n) && k < ORDERS && s.lists[k] != []
    ensures var b := s.lists[k][0];
      && Aligned(b, k) && FreeRun(used, n, b, k)
      && Inv(Update(s, k, s.lists[k][1..], Pair(b, k)), used + Block(b, k), n)
  {
    var b := s.lists[k][0];
    assert ListOk(s.lists[k], used, n, k) && b in s.lists[k];
    assert forall x :: x != b ==> (x in s.lists[k][1..] <==> x in s.lists[k]);
    TakeInv(s, used, n, k, b, s.lists[k][1..]);
  }

  /** The lower half of a split block goes to the free list, the upper half to the caller. */
  lemma SplitInv(s: State, used: set<nat>, n: nat, b: nat, k: nat)
    requires Shaped(s) && k < TOP && Aligned(b, k + 1) && FreeRun(used, n, b, k + 1)
    requires Inv(s, used + Block(b, k + 1), n)
    ensures Inv(Update(s, k, [b] + s.lists[k], Pair(b + Pow2(k), k)), used + Block(b + Pow2(k), k), n)
  {
    hide Inv, Aligned, Block;
    AlignedDown(b, k + 1, k);
    LowerHalf(b, k);
    SplitSets(used, n, b, k);
    UpperHalfUsed(used, n, b, k);
    GiveInv(s, used + Block(b, k + 1), n, k, b);
  }

  lemma UpperHalf(used: set<nat>, n: nat, b: nat, k: nat)
    requires Aligned(b, k + 1) && FreeRun(used, n, b, k + 1)
    ensures Aligned(b + Pow2(k), k) && FreeRun(used, n, b + Pow2(k), k)
  {
    AlignedDown(b, k + 1, k);
    BlockEndAligned(b, k, k);
    FreeRunInside(used, n, b, k + 1, b + Pow2(k), k);
  }

  lemma SplitSets(used: set<nat>, n: nat, b: nat, k: nat)
    requires FreeRun(used, n, b, k + 1)
    ensures Block(b, k) <= used + Block(b, k + 1)
    ensures used + Block(b, k + 1) - Block(b, k) == used + Block(b + Pow2(k), k)
  {
    BlockHalves(b, k);
    assert forall q :: q in Block(b, k) ==> In(q, b, k + 1) && q !in used;
  }

  lemma UpperHalfUsed(used: set<nat>, n: nat, b: nat, k: nat)
    ensures !FreeRun(used + Block(b + Pow2(k), k), n, b, k + 1)
  {
    assert In(b + Pow2(k), b, k + 1) && In(b + Pow2(k), b + Pow2(k), k);
  }

  lemma LowerHalf(b: nat, k: nat)
    requires Aligned(b, k + 1)
    ensures Parent(b, k) == b && Pair(b + Pow2(k), k) == Pair(b, k)
  {
    var x: nat :| Times(x, Pow2(k + 1)) == b;
    HalfPair(x, k);
  }

  lemma BlockHalves(b: nat, k: nat)
    ensures Block(b, k + 1) == Block(b, k) + Block(b + Pow2(k), k) && Block(b, k) !! Block(b + Pow2(k), k)
  {
    assert forall q: nat :: In(q, b, k + 1) <==> In(q, b, k) || In(q, b + Pow2(k), k);
  }

  // ----------------------------------------------------------------------- freeing

  lemma {:induction false} WithoutFacts(l: seq<nat>, x: nat)
    requires NoDup(l) && x in l
    ensures NoDup(Without(l, x)) && x !in Without(l, x)
    ensures forall y :: y != x ==> (y in Without(l, x) <==> y in l)
    ensures |Without(l, x)| == |l| - 1
  {
    if l[0] == x {
      assert forall y :: y != x ==> (y in l[1..] <==> y in l);
    } else {
      var t := l[1..];
      WithoutFacts(t, x);
      var w := Without(t, x);
      assert forall y :: y in l <==> y == l[0] || y in t;
      assert l[0] !in w;
    }
  }

  /** page_free: the pages come back, merged with every free buddy below the top order. */
  lemma {:induction false} FreeInv(s: State, used: set<nat>, n: nat, b: nat, k: nat)
    requires Inv(s, used, n) && k < ORDERS && Aligned(b, k) && Block(b, k) <= used && Aligned(n, TOP)
    ensures Inv(Free(s, b, k), used - Block(b, k), n)
    decreases ORDERS - k
  {
    assert ListOk(s.lists[k], used, n, k);
    FitsBelow(used, n, b, k);
    if k < TOP {
      PairBit(s, used, n, b, k);
    }
    if Pair(b, k) in s.bits[k] && k < TOP {
      MergeInv(s, used, n, b, k);
      MergeSets(used, n, b, k);
      ParentFacts(b, k);
      FreeInv(Update(s, k, Without(s.lists[k], Buddy(b, k)), Pair(b, k)), used + Block(Buddy(b, k), k), n,
        Parent(b, k), k + 1);
    } else {
      if k < TOP { NotMerged(used, n, b, k); }
      GiveInv(s, used, n, k, b);
    }
  }

  lemma MergeInv(s: State, used: set<nat>, n: nat, b: nat, k: nat)
    requires Shaped(s) && k < ORDERS && Aligned(b, k) && Buddy(b, k) in s.lists[k] && NoDup(s.lists[k])
    requires Inv(s, used, n)
    ensures Inv(Update(s, k, Without(s.lists[k], Buddy(b, k)), Pair(b, k)), used + Block(Buddy(b, k), k), n)
  {
    hide Inv, Aligned, Block, NoDup;
    ParentFacts(b, k);
    WithoutFacts(s.lists[k], Buddy(b, k));
    TakeInv(s, used, n, k, Buddy(b, k), Without(s.lists[k], Buddy(b, k)));
  }

  lemma FitsBelow(used: set<nat>, n: nat, b: nat, k: nat)
    requires Block(b, k) <= used && (forall q :: q in used ==> q < n)
    ensures b + Pow2(k) <= n
  {
    assert In(b + Pow2(k) - 1, b, k);
    assert b + Pow2(k) - 1 in Block(b, k);
  }

  /** While `b` is in use, its pair bit tells whether its buddy is free. */
  lemma PairBit(s: State, used: set<nat>, n: nat, b: nat, k: nat)
    requires Inv(s, used, n) && k < TOP && Aligned(b, k) && Block(b, k) <= used
    ensures Pair(b, k) in s.bits[k] <==> Buddy(b, k) in s.lists[k]
  {
    ParentFacts(b, k);
    assert BitsOk(s.bits[k], s.lists[k], k) && ListOk(s.lists[k], used, n, k);
    assert In(b, b, k) && b in Block(b, k) && b !in s.lists[k];
    assert Times(Pair(b, k), Pow2(k + 1)) == Parent(b, k);
  }

  /** A block in use whose buddy is not a free block: the pair is not wholly free afterwards either. */
  lemma NotMerged(used: set<nat>, n: nat, b: nat, k: nat)
    requires k < TOP && Aligned(b, k) && Block(b, k) <= used && !MaxFree(used, n, Buddy(b, k), k)
    ensures !FreeRun(used - Block(b, k), n, Parent(b, k), k + 1)
  {
    ParentFacts(b, k);
    var c := Buddy(b, k);
    assert In(b, b, k) && b in Block(b, k) && In(b, Parent(b, k), k + 1);
    assert !FreeRun(used, n, c, k);
    if FreeRun(used - Block(b, k), n, Parent(b, k), k + 1) {
      BuddyStaysFree(used, n, b, k);
    }
  }

  lemma BuddyStaysFree(used: set<nat>, n: nat, b: nat, k: nat)
    requires Aligned(b, k) && FreeRun(used - Block(b, k), n, Parent(b, k), k + 1)
    ensures FreeRun(used, n, Buddy(b, k), k)
  {
    ParentFacts(b, k);
    FreeRunInside(used - Block(b, k), n, Parent(b, k), k + 1, Buddy(b, k), k);
    assert forall q :: In(q, Buddy(b, k), k) ==> !In(q, b, k);
  }

  lemma MergeSets(used: set<nat>, n: nat, b: nat, k: nat)
    requires Aligned(b, k) && Block(b, k) <= used && FreeRun(used, n, Buddy(b, k), k)
    ensures Block(Parent(b, k), k + 1) <= used + Block(Buddy(b, k), k)
    ensures used + Block(Buddy(b, k), k) - Block(Parent(b, k), k + 1) == used - Block(b, k)
  {
    ParentFacts(b, k);
    BlockHalves(Parent(b, k), k);
    assert forall q :: q in Block(Buddy(b, k), k) ==> In(q, Buddy(b, k), k) && q !in used;
  }

  // ------------------------------------------------------------ freeing undoes allocating

  /** Allocation at order k leaves the lists and bitmaps of smaller orders alone. */
  lemma {:induction false} AllocBelow(s: State, k: nat, j: nat)
    requires Shaped(s) && j < k && j < ORDERS && Alloc(s, k).Some?
    ensures Alloc(s, k).s.lists[j] == s.lists[j] && Alloc(s, k).s.bits[j] == s.bits[j]
    decreases ORDERS - k
  {
    if s.lists[k] == [] { AllocBelow(s, k + 1, j); }
  }

  /** page_free after page_alloc restores every free list, in order, and every bitmap. */
  lemma {:induction false} FreeUndoesAlloc(s: State, used: set<nat>, n: nat, k: nat)
    requires Shaped(s) && Inv(s, used, n) && Alloc(s, k).Some?
    ensures Free(Alloc(s, k).s, Alloc(s, k).block, k) == s
    decreases ORDERS - k
  {
    if s.lists[k] == [] {
      FreeUndoesAlloc(s, used, n, k + 1);
      AllocInv(s, used, n, k + 1);
      FreeUndoesSplit(s, used, n, k);
    } else {
      FreeUndoesTake(s, used, n, k);
    }
  }

  lemma FreeUndoesTake(s: State, used: set<nat>, n: nat, k: nat)
    requires Shaped(s) && Inv(s, used, n) && k < ORDERS && s.lists[k] != []
    ensures Free(Alloc(s, k).s, Alloc(s, k).block, k) == s
  {
    var b := s.lists[k][0];
    assert ListOk(s.lists[k], used, n, k) && b in s.lists[k];
    if k < TOP {
      HeadBit(s, used, n, b, k);
    }
    ToggleTwice(s.bits[k], Pair(b, k));
    assert [b] + s.lists[k][1..] == s.lists[k];
    var s1 := Alloc(s, k).s;
    assert s1.lists[k := s.lists[k]] == s.lists && s1.bits[k := s.bits[k]] == s.bits;
  }

  /** The pair bit of a free block below the top order is one. */
  lemma HeadBit(s: State, used: set<nat>, n: nat, b: nat, k: nat)
    requires Inv(s, used, n) && k < TOP && b in s.lists[k]
    ensures Pair(b, k) in s.bits[k]
  {
    assert ListOk(s.lists[k], used, n, k) && BitsOk(s.bits[k], s.lists[k], k);
    BuddyNotFree(used, n, b, k);
    ParentFacts(b, k);
  }

  lemma ToggleTwice(w: set<nat>, i: nat)
    ensures Toggle(Toggle(w, i), i) == w && (i in Toggle(w, i) <==> i !in w)
  {
  }

  lemma FreeUndoesSplit(s: State, used: set<nat>, n: nat, k: nat)
    requires Shaped(s) && Inv(s, used, n) && k < TOP && s.lists[k] == [] && Alloc(s, k + 1).Some?
    requires Aligned(Alloc(s, k + 1).block, k + 1)
    requires Free(Alloc(s, k + 1).s, Alloc(s, k + 1).block, k + 1) == s
    ensures Free(Alloc(s, k).s, Alloc(s, k).block, k) == s
  {
    hide Inv, Aligned, Free, Pair;
    var r := Alloc(s, k + 1);
    AllocBelow(s, k + 1, k);
    EmptyListBit(s, used, n, r.block + Pow2(k), k);
    Unsplit(r.s, r.block, k);
  }

  /** Freeing the upper half of a pair whose lower half is free merges the two. */
  lemma Unsplit(s: State, b: nat, k: nat)
    requires Shaped(s) && k < TOP && Aligned(b, k + 1) && s.lists[k] == [] && Pair(b + Pow2(k), k) !in s.bits[k]
    ensures Free(Update(s, k, [b] + s.lists[k], Pair(b + Pow2(k), k)), b + Pow2(k), k) == Free(s, b, k + 1)
  {
    hide Pair, Free, Aligned;
    var c, i := b + Pow2(k), Pair(b + Pow2(k), k);
    LowerHalf(b, k);
    var s1 := Update(s, k, [b] + s.lists[k], i);
    ToggleTwice(s.bits[k], i);
    assert i in s1.bits[k];
    FreeMerges(s1, c, k);
    assert Parent(c, k) == b && Buddy(c, k) == b;
    UpdateBack(s, k, b, i);
  }

  lemma FreeMerges(s: State, b: nat, k: nat)
    requires Shaped(s) && k < TOP && Pair(b, k) in s.bits[k]
    ensures Free(s, b, k) == Free(Update(s, k, Without(s.lists[k], Buddy(b, k)), Pair(b, k)), Parent(b, k), k + 1)
  {
  }

  lemma UpdateBack(s: State, k: nat, b: nat, i: nat)
    requires Shaped(s) && k < ORDERS && s.lists[k] == []
    ensures var s1 := Update(s, k, [b] + s.lists[k], i);
      Update(s1, k, Without(s1.lists[k], b), i) == s
  {
    var s1 := Update(s, k, [b] + s.lists[k], i);
    ToggleTwice(s.bits[k], i);
    assert s1.lists[k] == [b] && Without(s1.lists[k], b) == [];
    assert s1.lists[k := []] == s.lists && s1.bits[k := s.bits[k]] == s.bits;
  }

  lemma EmptyListBit(s: State, used: set<nat>, n: nat, b: nat, k: nat)
    requires Inv(s, used, n) && k < TOP && s.lists[k] == []
    ensures Pair(b, k) !in s.bits[k]
  {
    assert BitsOk(s.bits[k], s.lists[k], k);
  }

  // ------------------------------------------------------------------------- canonicity

  /** The free blocks and the bitmaps depend only on which pages are in use, not on the history:
      freeing a block page by page ends with the same free set as freeing it whole. */
  lemma Canonical(s: State, s': State, used: set<nat>, n: nat)
    requires Inv(s, used, n) && Inv(s', used, n)
    ensures forall k :: 0 <= k < ORDERS ==> multiset(s.lists[k]) == multiset(s'.lists[k])
    ensures forall k :: 0 <= k < TOP ==> s.bits[k] == s'.bits[k]
  {
    forall k | 0 <= k < ORDERS
      ensures multiset(s.lists[k]) == multiset(s'.lists[k])
    {
      assert ListOk(s.lists[k], used, n, k) && ListOk(s'.lists[k], used, n, k);
      SameElements(s.lists[k], s'.lists[k]);
    }
    forall k | 0 <= k < TOP
      ensures s.bits[k] == s'.bits[k]
    {
      assert ListOk(s.lists[k], used, n, k) && ListOk(s'.lists[k], used, n, k);
      assert BitsOk(s.bits[k], s.lists[k], k) && BitsOk(s'.bits[k], s'.lists[k], k);
      assert forall x: nat :: x in s.lists[k] <==> x in s'.lists[k];
    }
  }

  lemma SameElements(l: seq<nat>, l': seq<nat>)
    requires NoDup(l) && NoDup(l') && forall x: nat :: x in l <==> x in l'
    ensures multiset(l) == multiset(l')
  {
    forall x
      ensures multiset(l)[x] == multiset(l')[x]
    {
      CountOnce(l, x);
      CountOnce(l', x);
    }
  }

  lemma {:induction false} CountOnce(l: seq<nat>, x: nat)
    requires NoDup(l)
    ensures multiset(l)[x] == if x in l then 1 else 0
  {
    if l != [] {
      CountOnce(l[1..], x);
      assert l == [l[0]] + l[1..];
      assert multiset(l) == multiset{l[0]} + multiset(l[1..]);
    }
  }

  // ---------------------------------------------------- what the list operations rely on

  /** A block that is in use is on no list, and fits below the end of the managed pages. */
  lemma BlockUnlisted(s: State, used: set<nat>, n: nat, b: nat, k: nat)
    requires Inv(s, used, n) && In(b, b, k) && b in used
    ensures forall j :: 0 <= j < ORDERS ==> b !in s.lists[j]
  {
    forall j | 0 <= j < ORDERS
      ensures b !in s.lists[j]
    {
      assert ListOk(s.lists[j], used, n, j) && In(b, b, j);
    }
  }

  lemma ListedFits(s: State, used: set<nat>, n: nat, k: nat, i: nat)
    requires Inv(s, used, n) && k < ORDERS && i < |s.lists[k]|
    ensures Aligned(s.lists[k][i], k) && FreeRun(used, n, s.lists[k][i], k) && s.lists[k][i] + Pow2(k) <= n
  {
    assert ListOk(s.lists[k], used, n, k) && s.lists[k][i] in s.lists[k];
  }

  lemma UsedFits(s: State, used: set<nat>, n: nat)
    requires Inv(s, used, n)
    ensures forall q :: q in used ==> q < n
  {
  }

  lemma FreeRunFacts(used: set<nat>, n: nat, b: nat, k: nat)
    requires FreeRun(used, n, b, k)
    ensures b + Pow2(k) <= n
    ensures forall q :: q in used ==> !In(q, b, k)
  {
  }

  lemma BuddyAddress(b: nat, k: nat)
    requires Aligned(b, k)
    ensures b == Parent(b, k) || b == Parent(b, k) + Pow2(k)
    ensures Buddy(b, k) == if b == Parent(b, k) then b + Pow2(k) else b - Pow2(k)
  {
    ParentFacts(b, k);
  }

  lemma GiveReady(s: State, used: set<nat>, n: nat, b: nat, k: nat)
    requires Shaped(s) && Inv(s, used, n) && k < ORDERS && Aligned(b, k) && Block(b, k) <= used && Aligned(n, TOP)
    requires k < TOP ==> Pair(b, k) !in s.bits[k]
    ensures Inv(Update(s, k, [b] + s.lists[k], Pair(b, k)), used - Block(b, k), n)
    ensures forall j :: 0 <= j < ORDERS ==> b !in s.lists[j]
    ensures b + Pow2(k) <= n
    ensures forall q :: q in used && q !in Block(b, k) ==> !In(q, b, k)
  {
    FitsBelow(used, n, b, k);
    assert In(b, b, k) && b in Block(b, k);
    BlockUnlisted(s, used, n, b, k);
    if k < TOP {
      assert ListOk(s.lists[k], used, n, k);
      PairBit(s, used, n, b, k);
      NotMerged(used, n, b, k);
    }
    GiveInv(s, used, n, k, b);
  }
}
