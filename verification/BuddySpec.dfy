/** The buddy allocator of kernel/memory/buddy.c as functions on values: free lists, pair
    bitmaps, and the set of pages handed out. */
module BuddySpec {
  import opened Numbers

  /** MAX_BUDDY_ORDER is 9: blocks of 1 to 256 pages. */
  const ORDERS: nat := 9
  const TOP: nat := 8

  // ------------------------------------------------- free blocks as a function of what is in use

  /** All 2^k pages at `b` exist and are free. */
  ghost predicate FreeRun(used: set<nat>, n: nat, b: nat, k: nat) {
    b + Pow2(k) <= n && forall q :: In(q, b, k) ==> q !in used
  }

  /** `b` is a maximal free block: aligned, wholly free, and not half of a larger free block. */
  ghost predicate MaxFree(used: set<nat>, n: nat, b: nat, k: nat) {
    && k <= TOP && Aligned(b, k) && FreeRun(used, n, b, k)
    && (k < TOP ==> !FreeRun(used, n, Parent(b, k), k + 1))
  }

  ghost function Block(b: nat, k: nat): set<nat> {
    set q: nat | b <= q < b + Pow2(k) && In(q, b, k)
  }

  /** The parent of a block lies inside every larger aligned block that meets the block. */
  lemma ParentInside(b: nat, k: nat, c: nat, j: nat, q: nat)
    requires Aligned(b, k) && Aligned(c, j) && k < j && In(q, b, k) && In(q, c, j)
    ensures c <= Parent(b, k) && Parent(b, k) + Pow2(k + 1) <= c + Pow2(j)
  {
    ParentFacts(b, k);
    Nested(c, j, Parent(b, k), k + 1, q);
  }

  lemma FreeRunInside(used: set<nat>, n: nat, b: nat, k: nat, c: nat, j: nat)
    requires FreeRun(used, n, b, k) && b <= c && c + Pow2(j) <= b + Pow2(k)
    ensures FreeRun(used, n, c, j)
  {
    forall q | In(q, c, j)
      ensures q !in used
    {
      assert In(q, b, k);
    }
  }

  lemma FreeRunMore(used: set<nat>, used': set<nat>, n: nat, b: nat, k: nat)
    requires used <= used'
    ensures FreeRun(used', n, b, k) ==> FreeRun(used, n, b, k)
  {
  }

  /** A block that meets a larger free block has a free parent. */
  lemma Swallow(used: set<nat>, n: nat, b: nat, k: nat, c: nat, j: nat, q: nat)
    requires FreeRun(used, n, b, k) && Aligned(b, k) && Aligned(c, j) && j < k
    requires In(q, b, k) && In(q, c, j)
    ensures FreeRun(used, n, Parent(c, j), j + 1)
  {
    ParentInside(c, j, b, k, q);
    FreeRunInside(used, n, b, k, Parent(c, j), j + 1);
  }

  /** Maximal free blocks never overlap. */
  lemma MaxFreeDisjoint(used: set<nat>, n: nat, b: nat, k: nat, c: nat, j: nat, q: nat)
    requires MaxFree(used, n, b, k) && MaxFree(used, n, c, j) && In(q, b, k) && In(q, c, j)
    ensures b == c && k == j
  {
    if j == k {
      Nested(b, k, c, j, q);
    } else if j < k {
      Swallow(used, n, b, k, c, j, q);
    } else {
      Swallow(used, n, c, j, b, k, q);
    }
  }

  /** A block whose parent is free and meets the maximal free block `b` lies inside `b`. */
  lemma InsideMaxFree(used: set<nat>, n: nat, b: nat, k: nat, c: nat, j: nat, q: nat)
    requires MaxFree(used, n, b, k) && Aligned(c, j) && j < TOP && FreeRun(used, n, Parent(c, j), j + 1)
    requires In(q, b, k) && In(q, Parent(c, j), j + 1)
    ensures In(c, b, k) && In(c, c, j)
  {
    ParentFacts(c, j);
    if j + 1 <= k {
      Nested(b, k, Parent(c, j), j + 1, q);
    } else {
      Swallow(used, n, Parent(c, j), j + 1, b, k, q);
    }
  }

  /** Handing out a maximal free block takes exactly that block out of the maximal free ones. */
  lemma Take(used: set<nat>, n: nat, b: nat, k: nat, c: nat, j: nat)
    requires MaxFree(used, n, b, k)
    ensures MaxFree(used + Block(b, k), n, c, j) <==> MaxFree(used, n, c, j) && !(c == b && j == k)
  {
    var used' := used + Block(b, k);
    assert In(b, b, k);
    if MaxFree(used', n, c, j) {
      FreeRunMore(used, used', n, c, j);
      if j < TOP && FreeRun(used, n, Parent(c, j), j + 1) {
        var q: nat :| In(q, Parent(c, j), j + 1) && q in used';
        InsideMaxFree(used, n, b, k, c, j, q);
      }
    }
    if MaxFree(used, n, c, j) && !(c == b && j == k) {
      forall q | In(q, c, j)
        ensures q !in used'
      {
        if In(q, b, k) { MaxFreeDisjoint(used, n, b, k, c, j, q); }
      }
      FreeRunMore(used, used', n, Parent(c, j), j + 1);
    }
  }

  /** Giving back a block that does not complete a larger one adds exactly that block. */
  lemma Give(used: set<nat>, n: nat, b: nat, k: nat, c: nat, j: nat)
    requires k <= TOP && Aligned(b, k) && b + Pow2(k) <= n && Block(b, k) <= used
    requires k < TOP ==> !FreeRun(used - Block(b, k), n, Parent(b, k), k + 1)
    ensures MaxFree(used - Block(b, k), n, c, j) <==> MaxFree(used, n, c, j) || (c == b && j == k)
  {
    var used' := used - Block(b, k);
    assert MaxFree(used', n, b, k);
    if MaxFree(used', n, c, j) && !(c == b && j == k) {
      forall q | In(q, c, j)
        ensures q !in used
      {
        if In(q, b, k) { MaxFreeDisjoint(used', n, b, k, c, j, q); }
      }
      FreeRunMore(used', used, n, Parent(c, j), j + 1);
    }
    if MaxFree(used, n, c, j) {
      FreeRunMore(used', used, n, c, j);
      if j < TOP && FreeRun(used', n, Parent(c, j), j + 1) {
        var q: nat :| In(q, Parent(c, j), j + 1) && q in used;
        InsideMaxFree(used', n, b, k, c, j, q);
      }
    }
  }

  // ---------------------------------------------------------------- the allocator's state

  /** `lists[k]` is the free list of order k, head first; `bits[k]` the one bits of buddy_map[k]. */
  datatype State = State(lists: seq<seq<nat>>, bits: seq<set<nat>>)

  predicate Shaped(s: State) {
    |s.lists| == ORDERS && |s.bits| == ORDERS
  }

  function Toggle(w: set<nat>, i: nat): set<nat> {
    if i in w then w - {i} else w + {i}
  }

  /** Free list `k` becomes `l`, and the bit of pair `i` is flipped. */
  function Update(s: State, k: nat, l: seq<nat>, i: nat): (s': State)
    requires Shaped(s) && k < ORDERS
    ensures Shaped(s')
  {
    State(s.lists[k := l], s.bits[k := Toggle(s.bits[k], i)])
  }

  function Without(l: seq<nat>, x: nat): seq<nat> {
    if l == [] then [] else if l[0] == x then l[1..] else [l[0]] + Without(l[1..], x)
  }

  datatype Grant = None | Some(block: nat, s: State)

  /** allocate_pages_of_power_2: the head of the list, or the upper half of a split larger block. */
  function Alloc(s: State, k: nat): (r: Grant)
    requires Shaped(s)
    ensures r.Some? ==> Shaped(r.s)
    decreases ORDERS - k
  {
    if k >= ORDERS then None
    else if s.lists[k] == [] then
      var r := Alloc(s, k + 1);
      if r.None? then None
      else Some(r.block + Pow2(k), Update(r.s, k, [r.block] + r.s.lists[k], Pair(r.block + Pow2(k), k)))
    else Some(s.lists[k][0], Update(s, k, s.lists[k][1..], Pair(s.lists[k][0], k)))
  }

  /** free_pages_of_power_2: merge with the buddy as long as its pair bit says it is free. */
  function Free(s: State, b: nat, k: nat): (s': State)
    requires Shaped(s) && k < ORDERS
    ensures Shaped(s')
    decreases ORDERS - k
  {
    if Pair(b, k) in s.bits[k] && k + 1 < ORDERS then
      Free(Update(s, k, Without(s.lists[k], Buddy(b, k)), Pair(b, k)), Parent(b, k), k + 1)
    else Update(s, k, [b] + s.lists[k], Pair(b, k))
  }

  function Buddy(b: nat, k: nat): nat {
    if b == Parent(b, k) then b + Pow2(k) else Parent(b, k)
  }

  // ------------------------------------------------------------------------ invariant

  ghost predicate NoDup(l: seq<nat>) {
    forall i, j :: 0 <= i < j < |l| ==> l[i] != l[j]
  }

  /** A free list holds exactly the maximal free blocks of its order. */
  ghost predicate ListOk(l: seq<nat>, used: set<nat>, n: nat, k: nat) {
    NoDup(l) && forall b: nat :: b in l <==> MaxFree(used, n, b, k)
  }

  /** A pair bit says that exactly one of the two buddies is on the free list. */
  ghost predicate BitsOk(w: set<nat>, l: seq<nat>, k: nat) {
    forall i: nat {:trigger i in w} :: i in w <==>
      ((Times(i, Pow2(k + 1)) in l) != (Times(i, Pow2(k + 1)) + Pow2(k) in l))
  }

  ghost predicate Inv(s: State, used: set<nat>, n: nat) {
    && Shaped(s)
    && (forall k :: 0 <= k < ORDERS ==> ListOk(s.lists[k], used, n, k))
    && (forall k :: 0 <= k < TOP ==> BitsOk(s.bits[k], s.lists[k], k))
    && (forall q :: q in used ==> q < n)
  }

  // ------------------------------------------------------------------ single steps

  /** Taking `b` off the list, or putting it on, flips exactly the bit of its pair. */
  lemma BitsFlip(w: set<nat>, l: seq<nat>, l': seq<nat>, b: nat, k: nat)
    requires BitsOk(w, l, k) && Aligned(b, k) && Buddy(b, k) !in l
    requires forall x :: x != b ==> (x in l' <==> x in l)
    requires b in l <==> b !in l'
    ensures BitsOk(Toggle(w, Pair(b, k)), l', k)
  {
    ParentFacts(b, k);
    forall i: nat
      ensures i in Toggle(w, Pair(b, k)) <==> ((Times(i, Pow2(k + 1)) in l') != (Times(i, Pow2(k + 1)) + Pow2(k) in l'))
    {
      HalfPair(i, k);
    }
  }

  /** Two free buddies below the top order would be one larger free block. */
  lemma BuddyNotFree(used: set<nat>, n: nat, b: nat, k: nat)
    requires MaxFree(used, n, b, k) && k < TOP
    ensures !FreeRun(used, n, Buddy(b, k), k)
  {
    ParentFacts(b, k);
    if FreeRun(used, n, Buddy(b, k), k) {
      HalvesFree(used, n, Parent(b, k), k);
    }
  }

  lemma HalvesFree(used: set<nat>, n: nat, p: nat, k: nat)
    requires FreeRun(used, n, p, k) && FreeRun(used, n, p + Pow2(k), k)
    ensures FreeRun(used, n, p, k + 1)
  {
    forall q | In(q, p, k + 1)
      ensures q !in used
    {
      assert In(q, p, k) || In(q, p + Pow2(k), k);
    }
  }

  lemma TakeInv(s: State, used: set<nat>, n: nat, k: nat, b: nat, l: seq<nat>)
    requires Inv(s, used, n) && k < ORDERS && b in s.lists[k]
    requires NoDup(l) && b !in l && forall x :: x != b ==> (x in l <==> x in s.lists[k])
    ensures Inv(Update(s, k, l, Pair(b, k)), used + Block(b, k), n)
  {
    var s', used' := Update(s, k, l, Pair(b, k)), used + Block(b, k);
    assert ListOk(s.lists[k], used, n, k) && MaxFree(used, n, b, k);
    forall j | 0 <= j < ORDERS
      ensures ListOk(s'.lists[j], used', n, j)
    {
      assert ListOk(s.lists[j], used, n, j);
      forall c: nat
        ensures c in s'.lists[j] <==> MaxFree(used', n, c, j)
      {
        Take(used, n, b, k, c, j);
      }
    }
    if k < TOP {
      BuddyNotFree(used, n, b, k);
      BitsFlip(s.bits[k], s.lists[k], l, b, k);
    }
  }

  lemma GiveInv(s: State, used: set<nat>, n: nat, k: nat, b: nat)
    requires Inv(s, used, n) && k < ORDERS && Aligned(b, k) && b + Pow2(k) <= n && Block(b, k) <= used
    requires k < TOP ==> !FreeRun(used - Block(b, k), n, Parent(b, k), k + 1)
    ensures Inv(Update(s, k, [b] + s.lists[k], Pair(b, k)), used - Block(b, k), n)
  {
    var s', used' := Update(s, k, [b] + s.lists[k], Pair(b, k)), used - Block(b, k);
    assert In(b, b, k) && b in used;
    assert ListOk(s.lists[k], used, n, k) && b !in s.lists[k];
    forall j | 0 <= j < ORDERS
      ensures ListOk(s'.lists[j], used', n, j)
    {
      assert ListOk(s.lists[j], used, n, j);
      forall c: nat
        ensures c in s'.lists[j] <==> MaxFree(used', n, c, j)
      {
        Give(used, n, b, k, c, j);
      }
    }
    if k < TOP {
      Give(used, n, b, k, b, k);
      BuddyNotFree(used', n, b, k);
      assert MaxFree(used, n, Buddy(b, k), k) ==> FreeRun(used', n, Buddy(b, k), k);
      BitsFlip(s.bits[k], s.lists[k], [b] + s.lists[k], b, k);
    }
  }
}
