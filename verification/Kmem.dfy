/** The kernel memory allocator of kernel/memory/kmem.c on its one pool. */
module Kmem {
  import opened KmemSpec
  import opened KmemIndex
  import opened RbShape
  import opened RbMemory
  import opened RbInsertShape
  import RbTree

  /** Position `i` is the first with a key of at least `key`. */
  ghost predicate UpperAt(s: seq<Item>, key: nat, i: int) {
    0 <= i < |s| && key <= s[i].k && forall j :: 0 <= j < i ==> s[j].k < key
  }

  /** `r` is the node with the least key of at least `key`, NULL if all keys are below. */
  ghost predicate Upper(s: seq<Item>, key: nat, r: Ptr) {
    if r == NULL then forall x :: x in s ==> x.k < key else exists i :: UpperAt(s, key, i) && s[i].a == r
  }

  /** The node after the focus is in the tree and has a larger key. */
  lemma NextAfter(h: Memory, shape: Tree, p: Path, t: Tree)
    requires Holds(h, shape, NULL) && Sorted(Inorder(shape)) && Plug(p, t) == shape && t.Node? && After(p) != []
    ensures After(p)[0].a in h && t.k < h[After(p)[0].a].key
  {
    hide Sorted, Holds;
    InorderPlug(p, t);
    OrderAfter(Before(p), Inorder(t.l), Item(t.a, t.k), Inorder(t.r), After(p));
    ItemNode(h, shape, NULL, After(p)[0]);
  }

  lemma OrderAfter(b: seq<Item>, l: seq<Item>, x: Item, r: seq<Item>, a: seq<Item>)
    requires Sorted(b + (l + [x] + r) + a) && a != []
    ensures x.k < a[0].k && a[0] in b + (l + [x] + r) + a
  {
    assert b + (l + [x] + r) + a == (b + l) + [x] + (r + a);
    SortedMiddle(b + l, x, r + a);
    assert (r + a)[|r|] == a[0];
    assert a[0] in a;
  }

  lemma UpperHere(p: Path, t: Tree)
    requires Sorted(Inorder(Plug(p, t))) && t.Node? && t.a != NULL
    ensures Upper(Inorder(Plug(p, t)), t.k, t.a)
  {
    FocusAt(p, t);
    assert UpperAt(Inorder(Plug(p, t)), t.k, |Before(p)| + |Inorder(t.l)|);
  }

  lemma SortedParts(l: seq<Item>, r: seq<Item>)
    requires Sorted(l + r)
    ensures Sorted(l) && Sorted(r)
  {
    var s := l + r;
    assert forall i :: 0 <= i < |l| ==> s[i] == l[i];
    assert forall i :: 0 <= i < |r| ==> s[|l| + i] == r[i];
  }

  lemma LinkedUnique(b: Heads, k: int, c: seq<int>)
    requires Linked(b, k, c)
    ensures Unique(c)
  {
  }

  /** At the bottom of the tree the answer is what follows the empty place. */
  lemma UpperBelow(p: Path, key: nat, r: Ptr)
    requires KeysBelow(Before(p), key) && KeysAbove(After(p), key)
    requires (r == NULL <==> After(p) == []) && (r != NULL ==> r == After(p)[0].a)
    ensures Upper(Inorder(Plug(p, Nil)), key, r)
  {
    PlugNil(p);
    if r != NULL { assert UpperAt(Inorder(Plug(p, Nil)), key, |Before(p)|); }
  }

  /** The remainder of a block starts where no block does. */
  lemma InBlock(l: Layout, lo: int, hi: int, a: int, need: int)
    requires Tiles(l, lo, hi) && a in l && 0 < need <= l[a].size
    ensures need < l[a].size ==> a + need !in l
  {
    if need < l[a].size && a + need in l { NotInside(l, lo, hi, a, a + need); }
  }

  lemma NotInside(l: Layout, lo: int, hi: int, a: int, c: int)
    requires Tiles(l, lo, hi) && a in l && c in l
    ensures !(a < c < a + l[a].size)
  {
    assert Clear(l, a, c);
  }

  lemma LayoutAt(b: Heads, a: int)
    ensures a in LayoutOf(b) <==> a in b
    ensures a in b ==> LayoutOf(b)[a] == Cell(b[a].size, b[a].free)
  {
  }

  lemma JoinSteps(l: Layout, a: int)
    requires a in l && a + l[a].size in l && l[a].size > 0
    ensures var n := a + l[a].size; Absorb(l, a) == l[a := Cell(l[a].size + l[n].size, l[a].free)] - {n}
  {
  }

  lemma AbsorbAt(l: Layout, a: int)
    requires a in l && a + l[a].size in l
    ensures a in Absorb(l, a) && Absorb(l, a)[a].free == l[a].free
  {
  }

  lemma EndOfPool(l: Layout, lo: int, hi: int)
    requires Tiles(l, lo, hi)
    ensures hi !in l
  {
    if hi in l { NotAtEnd(l, lo, hi, hi); }
  }

  lemma NotAtEnd(l: Layout, lo: int, hi: int, a: int)
    requires Tiles(l, lo, hi) && a in l
    ensures a < hi && l[a].size >= MIN_BLOCK
  {
    assert CellOk(l, lo, hi, a);
  }

  lemma SomeFree(l: Layout, a: int)
    requires a in l && l[a].free
    ensures FreeSet(l) != {}
  {
    assert a in FreeSet(l);
  }

  lemma TakeSteps(l: Layout, a: int, need: int)
    requires a in l && need != 0
    ensures a in Take(l, a, need)
    ensures l[a].size - need >= MIN_BLOCK ==>
      Take(l, a, need) == l[a := Cell(need, true)][a + need := Cell(l[a].size - need, true)][a := Cell(need, false)]
    ensures l[a].size - need < MIN_BLOCK ==> Take(l, a, need) == l[a := Cell(l[a].size, false)]
  {
  }

  /** Taking leaves no free block only if it was the last one and nothing is left of it. */
  lemma LastTaken(l: Layout, a: int, need: int)
    requires a in l && l[a].free && l[a].size >= need && need != 0 && FreeSet(Take(l, a, need)) == {}
    ensures FreeSet(l) == {a} && l[a].size < need + MIN_BLOCK
  {
    if l[a].size - need >= MIN_BLOCK { Remainder(l, a, need); }
    assert forall c :: c in FreeSet(l) && c != a ==> c in FreeSet(Take(l, a, need));
  }

  lemma Remainder(l: Layout, a: int, need: int)
    requires a in l && l[a].size - need >= MIN_BLOCK
    ensures FreeSet(Take(l, a, need)) != {}
  {
    assert a + need in FreeSet(Take(l, a, need));
  }

  /** How kmalloc ends: a pointer; NULL; the panic when the free bytes are enough but no block is;
      or the fault of walking a tree that has become empty. */
  datatype Result = Pointer(p: int) | Null | NoFit | EmptyTree

  lemma UpperItem(s: seq<Item>, need: nat, r: Ptr) returns (x: Item)
    requires Upper(s, need, r) && r != NULL && Sorted(s)
    ensures x in s && x.a == r && x.k >= need && forall k: nat :: HasKey(s, k) && k >= need ==> x.k <= k
  {
    var i :| UpperAt(s, need, i) && s[i].a == r;
    x := s[i];
  }

  lemma UpperNone(s: seq<Item>, need: nat, k: nat)
    requires Upper(s, need, NULL) && HasKey(s, k)
    ensures k < need
  {
    var j :| 0 <= j < |s| && s[j].k == k;
    assert s[j] in s;
  }

  lemma NoBlocks(b: Heads, ch: Chains)
    ensures BlocksOf(b, ch, []) == {}
  {
  }

  lemma BlocksInLayout(b: Heads, ch: Chains, s: seq<Item>)
    ensures BlocksOf(b, ch, s) <= LayoutOf(b).Keys
  {
  }

  lemma ItemTop(s: seq<Item>, ch: Chains, x: Item)
    requires Matches(s, ch) && x in s
    ensures x.k in ch && |ch[x.k]| > 0 && x.a == ch[x.k][0] + NODE
  {
  }

  lemma EmptyIndex()
    ensures Indexed(map[], map[], {}) && Matches([], map[]) && Spare(map[], map[]) && Sorted([])
  {
  }

  lemma OneBlock(a: int, sz: int)
    requires sz >= MIN_BLOCK
    ensures var l := map[a := Cell(sz, true)]; Tiles(l, a, a + sz) && FreeTotal(l) == sz && FreeSet(l) == {a}
  {
    var l := map[a := Cell(sz, true)];
    assert FreeSet(l) == {a};
    SumOut(l, {a}, a);
    assert {a} - {a} == {};
  }

  class Pool {
    var heads: Heads
    var free: int
    /** kmem_lock. */
    var locked: bool
    ghost var chains: Chains
    const tree: RbTree.RbTree
    /** pool->mem and pool->size. */
    const mem: int
    const size: int

    /** Tree, lists and headers describe the same free blocks, apart from those in `out`. */
    ghost predicate Indexing(out: set<int>)
      reads this, tree
    {
      && Indexed(heads, chains, out) && tree.Valid() && Matches(tree.Items(), chains) && Spare(tree.nodes, chains)
      && (forall a :: a in heads ==> a > 0)
    }

    // -------------------------------------------------------------------- rb_search_upper

    /** rb_search_upper: the node with the least key that is at least `key`. */
    method SearchUpper(key: nat) returns (r: Ptr)
      requires tree.Valid()
      ensures Upper(tree.Items(), key, r)
    {
      hide Sorted, Balanced, Upper;
      var x, closet := tree.root, NULL;
      ghost var p, t := Top, tree.shape;
      while x != NULL
        invariant Zip(tree.nodes, tree.root, p, t) && Plug(p, t) == tree.shape && x == Root(t)
        invariant KeysBelow(Before(p), key) && KeysAbove(After(p), key)
        invariant (closet == NULL <==> After(p) == []) && (closet != NULL ==> closet == After(p)[0].a)
        decreases t
      {
        InorderPlug(p, t);
        if tree.nodes[x].key == key {
          UpperHere(p, t);
          return x;
        }
        Descend(p, t, key);
        if closet != NULL { NextAfter(tree.nodes, tree.shape, p, t); }
        if tree.nodes[x].key > key {
          if closet == NULL || tree.nodes[closet].key > tree.nodes[x].key {
            closet := x;
          }
          x, p, t := tree.nodes[x].L, LeftOf(p, t), t.l;
        } else {
          x, p, t := tree.nodes[x].R, RightOf(p, t), t.r;
        }
      }
      UpperBelow(p, key, closet);
      r := closet;
    }

    // ------------------------------------------------------------------ insert_into_pool

    /** memset of the block and the key of its node. */
    method PrepareNode(a: int, sz: int, ghost out: set<int>)
      requires Indexing(out) && a > 0 && sz >= 0 && (a in out || a !in heads)
      modifies tree`nodes
      ensures Indexing(out) && a + NODE !in Addrs(tree.shape)
      ensures a + NODE in tree.nodes && tree.nodes[a + NODE].key == sz
      ensures forall k :: k in chains ==> a !in chains[k]
    {
      hide Indexed, Matches, Spare;
      Outside(heads, chains, out, a);
      InTree(tree.shape, chains, a);
      ghost var nodes := tree.nodes;
      tree.nodes := tree.nodes[a + NODE := Rec(sz, NULL, false, NULL, NULL)];
      SpareWrite(nodes, chains, a, Rec(sz, NULL, false, NULL, NULL));
      HoldsFrame(nodes, tree.nodes, tree.shape, NULL);
    }

    /** The tree part of insert_into_pool: a new node, or the block that stands for this size. */
    method InsertNode(a: int, sz: int, ghost out: set<int>) returns (existed: Ptr)
      requires Indexing(out) && a > 0 && sz >= 0 && (a in out || a !in heads)
      modifies tree
      ensures tree.Valid() && (existed == NULL <==> sz !in chains)
      ensures sz in chains ==> |chains[sz]| > 0 && existed == chains[sz][0] + NODE
      ensures Matches(tree.Items(), Put(chains, sz, a)) && Spare(tree.nodes, Put(chains, sz, a))
    {
      hide Indexed, Spare;
      PrepareNode(a, sz, out);
      ghost var was, nodes, shape := tree.Items(), tree.nodes, tree.shape;
      existed := tree.Insert(a + NODE);
      if existed == NULL {
        SizeAbsent(was, chains, sz);
        MatchInsert(was, chains, a, sz, tree.Items());
        SpareKept(heads, chains, out, shape, nodes, tree.nodes, a + NODE);
        SparePut(tree.nodes, chains, sz, a);
      } else {
        assert Item(existed, sz) in was && TopOk(was, chains, sz);
        SpareWrite(nodes, chains, a, tree.nodes[a + NODE]);
        SparePut(tree.nodes, chains, sz, a);
        MatchPut(was, chains, sz, a);
      }
    }

    /** The header part of insert_into_pool when blocks of this size exist: the new block goes behind
        the one in the tree. */
    method LinkBehind(e: int, a: int, sz: int, ghost c: seq<int>)
      requires Linked(heads, sz, c) && |c| > 0 && e == c[0] && a !in c && AllIn(heads, c)
      modifies this`heads
      ensures heads == PutHeads(old(heads), map[sz := c], sz, a)
    {
      hide Linked;
      ListGuards(heads, sz, c, 0);
      assert heads[e].inTree && heads[e].size == sz;
      heads := heads[a := Head(true, false, false, sz, 0, 0)];
      if heads[e].haveNext {
        var next := heads[e].next;
        assert heads[next].prev == e;
        heads := heads[next := heads[next].(prev := a)];
        heads := heads[a := heads[a].(next := next)];
        heads := heads[e := heads[e].(next := a)];
        heads := heads[a := heads[a].(prev := e)];
        heads := heads[a := heads[a].(haveNext := true)];
      } else {
        heads := heads[e := heads[e].(next := a)];
        heads := heads[a := heads[a].(prev := e)];
        heads := heads[e := heads[e].(haveNext := true)];
      }
    }

    /** insert_into_pool: the block at `a`, of `sz` bytes, becomes free and is listed. */
    method InsertIntoPool(a: int, sz: int, ghost out: set<int>)
      requires Indexing(out) && a > 0 && sz >= MIN_BLOCK && (a in out || a !in heads)
      modifies this`heads, this`chains, tree
      ensures Indexing(out - {a})
      ensures LayoutOf(heads) == old(LayoutOf(heads))[a := Cell(sz, true)]
    {
      hide Indexed, Matches, Spare, Linked;
      Outside(heads, chains, out, a);
      PutIndexed(heads, chains, out, sz, a);
      ghost var heads' := PutHeads(heads, chains, sz, a);
      var existed := InsertNode(a, sz, out);
      if existed != NULL {
        LinkedAt(heads, chains, out, sz);
        ChainInHeads(heads, sz, chains[sz]);
        LinkBehind(existed - NODE, a, sz, chains[sz]);
      } else {
        heads := heads[a := Head(true, false, true, sz, 0, 0)];
      }
      assert heads == heads';
      chains := Put(chains, sz, a);
    }

    // ------------------------------------------------------------------ remove_from_pool

    /** The tree part of remove_from_pool, for a block whose node is in the tree. */
    method RemoveNode(a: int, haveNext: bool, next: int, ghost k: int, ghost out: set<int>)
      requires Indexing(out) && k in chains && |chains[k]| > 0 && a == chains[k][0] && a > 0
      requires haveNext <==> |chains[k]| > 1
      requires haveNext ==> next == chains[k][1] && next > 0
      modifies tree
      ensures tree.Valid() && Matches(tree.Items(), Drop(chains, k, 0)) && Spare(tree.nodes, Drop(chains, k, 0))
    {
      hide Indexed, Spare, Matches;
      ghost var was, nodes, shape := tree.Items(), tree.nodes, tree.shape;
      TopNode(nodes, shape, chains, k);
      FirstOfOne(heads, chains, out, k);
      if haveNext {
        SpareAt(nodes, chains, k, 1);
        SpareOutside(heads, chains, out, shape, k, 1);
        tree.Replace(a + NODE, next + NODE);
        MatchSwap(was, chains, a, next, k, DropChain(chains[k], 0), tree.Items());
        SpareReplaced(heads, chains, out, shape, nodes, tree.nodes, k);
      } else {
        tree.Remove(a + NODE);
        MatchRemove(was, chains, a, k, tree.Items());
        SpareRemoved(heads, chains, out, shape, nodes, tree.nodes, k);
      }
    }

    /** The header part of remove_from_pool: member `i` of chain `c` is taken out. */
    method Unlink(a: int, ghost k: int, ghost c: seq<int>, ghost i: int)
      requires Linked(heads, k, c) && AllIn(heads, c) && 0 <= i < |c| && a == c[i] && forall x :: x in heads ==> x > 0
      modifies this`heads
      ensures heads == DropHeads(old(heads), c, i)
    {
      hide Linked;
      ListGuards(heads, k, c, i);
      var prev, next := heads[a].prev, heads[a].next;
      assert if heads[a].inTree then prev == 0 else prev != 0 && heads[prev].next == a;
      assert if heads[a].haveNext then next != 0 && heads[next].prev == a else next == 0;
      if heads[a].inTree {
        if heads[a].haveNext {
          heads := heads[next := heads[next].(prev := 0)];
          heads := heads[next := heads[next].(inTree := true)];
          heads := heads[a := heads[a].(haveNext := false, inTree := false)];
        } else {
          heads := heads[a := heads[a].(inTree := false)];
        }
      } else {
        if heads[a].haveNext {
          heads := heads[prev := heads[prev].(next := next)];
          heads := heads[next := heads[next].(prev := prev)];
          heads := heads[a := heads[a].(haveNext := false)];
        } else {
          heads := heads[prev := heads[prev].(next := 0)];
          heads := heads[prev := heads[prev].(haveNext := false)];
        }
      }
      heads := heads[a := heads[a].(prev := 0, next := 0)];
    }

    /** remove_from_pool: a listed block is no longer listed; no block changes its size. */
    method RemoveFromPool(a: int, ghost out: set<int>)
      requires Indexing(out) && a in heads && Listed(heads, chains, a)
      modifies this`heads, this`chains, tree
      ensures Indexing(out + {a}) && LayoutOf(heads) == old(LayoutOf(heads))
    {
      hide Indexed, Matches, Spare, Linked;
      ghost var k := heads[a].size;
      ghost var i := Member(heads, chains, out, k, a);
      LinkedAt(heads, chains, out, k);
      ListGuards(heads, k, chains[k], i);
      DropIndexed(heads, chains, out, k, i);
      if heads[a].inTree {
        RemoveNode(a, heads[a].haveNext, heads[a].next, k, out);
      } else {
        MatchDrop(tree.Items(), chains, k, i);
        SpareDrop(tree.nodes, chains, k, i);
      }
      Unlink(a, k, chains[k], i);
      chains := Drop(chains, k, i);
    }

    // ---------------------------------------------------------------- get_tree_totalsize

    /** The list behind one tree node. */
    method ChainTotal(x: Ptr, ghost k: int) returns (sz: int)
      requires Indexing({}) && k in chains && x == chains[k][0] + NODE
      ensures ChainSet(chains[k]) <= LayoutOf(heads).Keys && sz == Sum(LayoutOf(heads), ChainSet(chains[k]))
    {
      hide Indexed, Matches, Spare, Linked;
      ghost var l, c, i := LayoutOf(heads), chains[k], 0;
      LinkedAt(heads, chains, {}, k);
      ChainInHeads(heads, k, c);
      LinkedUnique(heads, k, c);
      var block := x - NODE;
      sz := heads[block].size;
      assert c[..0] == [];
      ChainSum(l, c, 0);
      ListGuards(heads, k, c, 0);
      while heads[block].haveNext
        invariant 0 <= i < |c| && block == c[i] && heads[block] == HeadAt(k, c, i)
        invariant ChainSet(c[..i + 1]) <= l.Keys && sz == Sum(l, ChainSet(c[..i + 1]))
        decreases |c| - i
      {
        ListGuards(heads, k, c, i);
        block := heads[block].next;
        sz := sz + heads[block].size;
        assert heads[block].size == k;
        i := i + 1;
        ChainSum(l, c, i);
        ListGuards(heads, k, c, i);
      }
      assert c[..i + 1] == c;
    }

    /** get_tree_totalsize: the bytes of all blocks below `x`. */
    method TreeTotal(x: Ptr, ghost t: Tree, ghost parent: Ptr) returns (sz: int)
      requires Indexing({}) && Holds(tree.nodes, t, parent) && x == Root(t) && Sorted(Inorder(t))
      requires forall y :: y in Inorder(t) ==> y in tree.Items()
      ensures sz == Sum(LayoutOf(heads), BlocksOf(heads, chains, Inorder(t)))
      decreases t
    {
      hide Indexed, Spare, Sorted, Linked, Matches, LayoutOf, HasKey;
      if x == NULL {
        NoBlocks(heads, chains);
        return 0;
      }
      var l, r := tree.nodes[x].L, tree.nodes[x].R;
      ghost var layout := LayoutOf(heads);
      ghost var bl, br := BlocksOf(heads, chains, Inorder(t.l)), BlocksOf(heads, chains, Inorder(t.r));
      assert Item(t.a, t.k) in Inorder(t);
      ItemTop(tree.Items(), chains, Item(t.a, t.k));
      BlocksInLayout(heads, chains, Inorder(t));
      sz := ChainTotal(x, t.k);
      SortedMiddle(Inorder(t.l), Item(t.a, t.k), Inorder(t.r));
      SortedParts(Inorder(t.l), Inorder(t.r));
      BlocksSplit(heads, chains, {}, Inorder(t.l), Item(t.a, t.k), Inorder(t.r));
      SumUnion(layout, ChainSet(chains[t.k]), bl);
      SumUnion(layout, ChainSet(chains[t.k]) + bl, br);
      var sl := TreeTotal(l, t.l, t.a);
      var sr := TreeTotal(r, t.r, t.a);
      sz := sz + sl + sr;
    }

    // --------------------------------------------------------------------- the pool

    ghost function Layout(): Layout
      reads this
    {
      LayoutOf(heads)
    }

    /** Headers tile the pool, the index holds the free blocks, `free` is their total, and there is
        at least one. */
    ghost predicate Valid()
      reads this, tree
    {
      && Indexing({}) && Tiles(Layout(), mem, mem + size) && free == FreeTotal(Layout()) && tree.root != NULL
      && mem > 0 && mem % 16 == 8 && size < SIZE_LIMIT
    }

    /** The check both operations make of their own books: it cannot fail. */
    method CheckTotal() returns (total: int)
      requires Indexing({}) && free == FreeTotal(Layout())
      ensures total == free
    {
      hide Indexed, Spare, Matches, Sorted;
      AllListed(heads, chains, tree.Items());
      total := TreeTotal(tree.root, tree.shape, NULL);
    }

    /** The tree is empty exactly when no block is free. */
    lemma NoneFree()
      requires Indexing({})
      ensures tree.root == NULL <==> FreeSet(Layout()) == {}
    {
      hide Indexed, Spare;
      AllListed(heads, chains, tree.Items());
      if tree.root != NULL {
        var x := tree.Items()[|Inorder(tree.shape.l)|];
        assert x in tree.Items();
        LinkedAt(heads, chains, {}, x.k);
        ListGuards(heads, x.k, chains[x.k], 0);
        assert chains[x.k][0] in FreeSet(Layout());
      }
    }

    /** attach_to_memory_pool: the pool header takes 40 bytes, the rest is one free block. */
    constructor (addr: int, sz: int)
      requires addr > 0 && addr % 16 == 0 && MIN_BLOCK <= sz - 40 < SIZE_LIMIT
      ensures Valid() && !locked && fresh(tree) && Layout() == map[addr + 40 := Cell(sz - 40, true)]
      ensures mem == addr + 40 && size == sz - 40
    {
      tree := new RbTree.RbTree();
      heads, chains, free, locked, mem, size := map[], map[], sz - 40, false, addr + 40, sz - 40;
      new;
      hide Indexed, Spare, Matches, Sorted, Tiles, Sum;
      EmptyIndex();
      InsertIntoPool(mem, free, {});
      OneBlock(mem, size);
      NoneFree();
    }

    // ------------------------------------------------------------------------- kmalloc

    /** The smallest free block that is large enough. */
    ghost predicate Smallest(l: Layout, a: int, need: int) {
      a in l && l[a].free && l[a].size >= need && forall c :: c in l && l[c].free && l[c].size >= need ==>
        l[a].size <= l[c].size
    }

    /** What SearchUpper finds is the smallest block that fits. */
    lemma Fit(need: nat, r: Ptr)
      requires Indexing({}) && Upper(tree.Items(), need, r)
      ensures r == NULL ==> forall c :: c in heads && heads[c].free ==> heads[c].size < need
      ensures r != NULL ==> Smallest(Layout(), r - NODE, need)
    {
      hide Spare, Upper, Sorted, HasKey, Indexed;
      var s, x := tree.Items(), Item(0, 0);
      if r != NULL {
        x := UpperItem(s, need, r);
        LinkedAt(heads, chains, {}, x.k);
        ListGuards(heads, x.k, chains[x.k], 0);
      }
      forall c | c in heads && heads[c].free
        ensures r == NULL ==> heads[c].size < need
        ensures r != NULL && heads[c].size >= need ==> Layout()[r - NODE].size <= heads[c].size
      {
        FreeListed(heads, chains, {}, c);
        SizePresent(s, chains, heads[c].size);
        if r == NULL { UpperNone(s, need, heads[c].size); }
      }
    }

    /** The block goes into use; what it does not need becomes a free block again. */
    method TakeBlock(block: int, need: int)
      requires Indexing({}) && Tiles(Layout(), mem, mem + size) && free == FreeTotal(Layout())
      requires block in heads && heads[block].free && MIN_BLOCK <= need <= heads[block].size && need % 16 == 0
      modifies this`heads, this`chains, this`free, tree
      ensures Indexing({}) && Tiles(Layout(), mem, mem + size) && free == FreeTotal(Layout())
      ensures Layout() == Take(old(Layout()), block, need)
    {
      hide Indexed, Spare, Matches, Sorted, Tiles, FreeTotal, LayoutOf, Take;
      ghost var l := Layout();
      LayoutAt(heads, block);
      InBlock(l, mem, mem + size, block, need);
      TakeTiles(l, mem, mem + size, block, need);
      FreeTake(l, block, need);
      TakeSteps(l, block, need);
      FreeListed(heads, chains, {}, block);
      RemoveFromPool(block, {});
      assert {} + {block} == {block} && {block} - {block + need} == {block} && {block} - {block} == {};
      LayoutAt(heads, block);
      var remaining := heads[block].size - need;
      if remaining >= MIN_BLOCK {
        WriteOut(heads, chains, {block}, block, heads[block].(size := need));
        heads := heads[block := heads[block].(size := need)];
        LayoutAt(heads, block + need);
        InsertIntoPool(block + need, remaining, {block});
        LayoutAt(heads, block);
      }
      WriteOut(heads, chains, {block}, block, heads[block].(free := false, haveNext := false, inTree := false));
      heads := heads[block := heads[block].(free := false, haveNext := false, inTree := false)];
      LayoutAt(heads, block);
      free := free - heads[block].size;
    }

    /** The smallest free block that can hold the request. */
    ghost predicate BestFit(l: Layout, a: int, request: int) {
      && a in l && l[a].free && CanHold(l[a].size, request)
      && forall c :: c in l && l[c].free && CanHold(l[c].size, request) ==> l[a].size <= l[c].size
    }

    ghost predicate NoneHolds(l: Layout, request: int) {
      forall c :: c in l && l[c].free ==> !CanHold(l[c].size, request)
    }

    /** What the memory handed out is: the block `a`, cut to size, holds the request and both canaries. */
    ghost predicate HandsOut(l: Layout, a: int, p: int, request: int) {
      && a in l && !l[a].free && p % 16 == 0
      && a + HEAD + CANARY <= p && p + request + CANARY <= a + l[a].size
      && (l[a].size >= 2 * MIN_BLOCK ==> l[a].size < request + HEAD + 2 * CANARY + 16 + MIN_BLOCK)
    }

    /** In terms of the request. */
    lemma FitsRequest(l: Layout, request: int)
      requires 0 <= request <= WORD - 48 && forall c :: c in l ==> l[c].size >= 0
      ensures forall a :: Smallest(l, a, NeedSize(request)) <==> BestFit(l, a, request)
      ensures (forall c :: c in l && l[c].free ==> l[c].size < NeedSize(request)) <==> NoneHolds(l, request)
    {
      hide NeedSize, CanHold;
      forall c | c in l
        ensures l[c].size >= NeedSize(request) <==> CanHold(l[c].size, request)
      {
        LargeEnough(l[c].size, request);
      }
    }

    lemma HandedOut(l: Layout, lo: int, hi: int, a: int, request: int)
      requires Tiles(l, lo, hi) && lo % 16 == 8 && 0 <= request <= WORD - 48 && a in l
      requires NeedSize(request) <= l[a].size
      ensures HandsOut(Take(l, a, NeedSize(request)), a, a + HEAD + CANARY, request)
    {
      hide NeedSize, Take;
      var need := NeedSize(request);
      assert CellOk(l, lo, hi, a);
      NeedIsLeast(request, (request + 47) / 16 * 16);
      NeedIsLeast(request, MIN_BLOCK);
      TakeExact(l, a, need, a);
    }

    lemma SizesOk(l: Layout, lo: int, hi: int)
      requires Tiles(l, lo, hi)
      ensures forall c :: c in l ==> l[c].size >= 0
    {
      forall c | c in l
        ensures l[c].size >= 0
      {
        assert CellOk(l, lo, hi, c);
      }
    }

    /** How kmalloc ends, in terms of the block size it looks for. */
    ghost predicate Ended(l: Layout, l': Layout, need: int, r: Result) {
      match r
      case Pointer(p) =>
        Smallest(l, p - HEAD - CANARY, need) && l' == Take(l, p - HEAD - CANARY, need) && FreeSet(l') != {}
      case Null => (forall c :: c in l && l[c].free ==> l[c].size < need) && FreeTotal(l) < need && l' == l
      case NoFit => (forall c :: c in l && l[c].free ==> l[c].size < need) && need <= FreeTotal(l)
      case EmptyTree => exists c :: FreeSet(l) == {c} && Smallest(l, c, need) && l[c].size < need + MIN_BLOCK
    }

    /** And in terms of the request. */
    ghost predicate Served(l: Layout, l': Layout, request: int, r: Result) {
      match r
      case Pointer(p) =>
        BestFit(l, p - HEAD - CANARY, request) && HandsOut(l', p - HEAD - CANARY, p, request)
      case Null => NoneHolds(l, request) && !CanHold(FreeTotal(l), request) && l' == l
      case NoFit => NoneHolds(l, request) && CanHold(FreeTotal(l), request)
      case EmptyTree => exists c :: FreeSet(l) == {c} && BestFit(l, c, request)
    }

    lemma EndedServed(l: Layout, l': Layout, lo: int, hi: int, request: int, r: Result)
      requires Tiles(l, lo, hi) && lo % 16 == 8 && FreeTotal(l) >= 0 && 0 <= request <= WORD - 48
      requires Ended(l, l', NeedSize(request), r)
      ensures Served(l, l', request, r)
    {
      hide NeedSize, CanHold, Take, Tiles, FreeTotal, HandsOut, BestFit, Smallest, NoneHolds;
      SizesOk(l, lo, hi);
      FitsRequest(l, request);
      LargeEnough(FreeTotal(l), request);
      if r.Pointer? {
        SmallestIn(l, r.p - HEAD - CANARY, NeedSize(request));
        HandedOut(l, lo, hi, r.p - HEAD - CANARY, request);
      }
    }

    lemma SmallestIn(l: Layout, a: int, need: int)
      requires Smallest(l, a, need)
      ensures a in l && need <= l[a].size
    {
    }

    /** kmalloc.  The lock is still held when it returns NULL. */
    method Kmalloc(request: int) returns (r: Result)
      requires Valid() && !locked && 0 <= request < WORD
      modifies this, tree
      ensures r.Pointer? || r.Null? ==> Valid() && locked == r.Null?
      ensures Ended(old(Layout()), Layout(), NeedSize(request), r)
      ensures request <= WORD - 48 ==> Served(old(Layout()), Layout(), request, r)
    {
      hide Indexed, Spare, Matches, Sorted, Tiles, Sum, NeedSize, Take, Served;
      ghost var l := Layout();
      SizesOk(l, mem, mem + size);
      SumNonNegative(l, FreeSet(l));
      locked := true;
      var need := NeedSize(request);
      var node := SearchUpper(need);
      Fit(need, node);
      if node == NULL {
        r := if need <= free then NoFit else Null;
        if request <= WORD - 48 { EndedServed(l, Layout(), mem, mem + size, request, r); }
        return;
      }
      var block := node - NODE;
      TakeBlock(block, need);
      NoneFree();
      if tree.root == NULL {
        LastTaken(l, block, need);
        r := EmptyTree;
        if request <= WORD - 48 { EndedServed(l, Layout(), mem, mem + size, request, r); }
        return;
      }
      var total := CheckTotal();
      assert free == total;
      locked := false;
      r := Pointer(block + HEAD + CANARY);
      if request <= WORD - 48 { EndedServed(l, Layout(), mem, mem + size, request, r); }
    }

    // --------------------------------------------------------------------------- kfree

    /** One turn of the loop of kfree: the free block at `next` is joined to `block`. */
    method JoinNext(block: int, next: int) returns (next': int)
      requires Indexing({}) && Tiles(Layout(), mem, mem + size) && free == FreeTotal(Layout())
      requires block in heads && !heads[block].free && next == block + heads[block].size
      requires next in heads && heads[next].free
      modifies this`heads, this`chains, this`free, tree
      ensures Indexing({}) && Tiles(Layout(), mem, mem + size) && free == FreeTotal(Layout())
      ensures Layout() == Absorb(old(Layout()), block) && block in heads && next' == block + heads[block].size
    {
      hide Indexed, Spare, Matches, Sorted, Tiles, FreeTotal, LayoutOf;
      ghost var l := Layout();
      LayoutAt(heads, block);
      LayoutAt(heads, next);
      GiveStep(l, mem, mem + size, block);
      FreeAbsorb(l, block);
      FreeListed(heads, chains, {}, next);
      RemoveFromPool(next, {});
      assert {} + {next} == {next} && {next} + {block} == {next, block} && {next, block} - {next} == {block} &&
        {block} - {block} == {};
      LayoutAt(heads, block);
      LayoutAt(heads, next);
      free := free - heads[next].size;
      InUseOut(heads, chains, {next}, block);
      ghost var h := heads[block].(size := heads[block].size + heads[next].size);
      WriteOut(heads, chains, {next, block}, block, h);
      heads := heads[block := heads[block].(size := heads[block].size + heads[next].size)];
      next' := next + heads[next].size;
      EraseOut(heads, chains, {next, block}, next);
      heads := heads - {next};
      WriteOut(heads, chains, {block}, block, h);
      assert heads[block := h] == heads;
      JoinSteps(l, block);
    }

    /** The merge loop of kfree. */
    method JoinAll(block: int)
      requires Indexing({}) && Tiles(Layout(), mem, mem + size) && free == FreeTotal(Layout())
      requires block in heads && !heads[block].free
      modifies this`heads, this`chains, this`free, tree
      ensures Indexing({}) && Tiles(Layout(), mem, mem + size) && free == FreeTotal(Layout())
      ensures block in heads && !heads[block].free && block in old(Layout()) && old(Layout())[block].size > 0
      ensures Layout()[block := Layout()[block].(free := true)] == Give(old(Layout()), block)
    {
      hide Indexed, Spare, Matches, Sorted, Tiles, FreeTotal, LayoutOf, Give, Absorb;
      ghost var l0 := Layout();
      LayoutAt(heads, block);
      GiveStep(l0, mem, mem + size, block);
      var next := block + heads[block].size;
      LayoutAt(heads, next);
      if next < mem + size {
        while heads[next].free
          invariant Indexing({}) && Tiles(Layout(), mem, mem + size) && free == FreeTotal(Layout())
          invariant block in heads && !heads[block].free && next == block + heads[block].size && next in heads
          invariant block in Layout() && Layout()[block].size > 0 && Give(Layout(), block) == Give(l0, block)
          decreases |Layout()|
        {
          LayoutAt(heads, block);
          LayoutAt(heads, next);
          GiveStep(Layout(), mem, mem + size, block);
          AbsorbAt(Layout(), block);
          next := JoinNext(block, next);
          LayoutAt(heads, block);
          LayoutAt(heads, next);
          GiveStep(Layout(), mem, mem + size, block);
          if next >= mem + size {
            EndOfPool(Layout(), mem, mem + size);
            break;
          }
        }
      } else {
        EndOfPool(Layout(), mem, mem + size);
      }
      LayoutAt(heads, block);
      LayoutAt(heads, next);
      GiveStep(Layout(), mem, mem + size, block);
    }

    /** The joined block is listed as free. */
    method ReleaseBlock(block: int)
      requires Indexing({}) && Tiles(Layout(), mem, mem + size) && free == FreeTotal(Layout())
      requires block in heads && !heads[block].free
      modifies this`heads, this`chains, this`free, tree
      ensures Indexing({}) && Tiles(Layout(), mem, mem + size) && free == FreeTotal(Layout()) && tree.root != NULL
      ensures block in old(Layout()) && Layout() == old(Layout())[block := old(Layout())[block].(free := true)]
    {
      hide Indexed, Spare, Matches, Sorted, Tiles, FreeTotal, LayoutOf;
      ghost var l := Layout();
      LayoutAt(heads, block);
      InUseOut(heads, chains, {}, block);
      assert {} + {block} == {block} && {block} - {block} == {};
      FreeSetFree(l, block);
      SetFreeTiles(l, mem, mem + size, block, true);
      NotAtEnd(l, mem, mem + size, block);
      var sz := heads[block].size;
      InsertIntoPool(block, sz, {block});
      free := free + sz;
      SomeFree(Layout(), block);
      NoneFree();
    }

    /** kfree of a pointer that kmalloc returned and that was not freed since. */
    method Kfree(p: int)
      requires Valid() && !locked && p - HEAD - CANARY in heads && !heads[p - HEAD - CANARY].free
      modifies this, tree
      ensures Valid() && !locked && p - HEAD - CANARY in old(Layout()) && old(Layout())[p - HEAD - CANARY].size > 0
      ensures Layout() == Give(old(Layout()), p - HEAD - CANARY)
    {
      hide Indexed, Spare, Matches, Sorted, Tiles, FreeTotal, LayoutOf, Give;
      locked := true;
      var block := p - HEAD - CANARY;
      var total := CheckTotal();
      assert free == total;
      JoinAll(block);
      ReleaseBlock(block);
      total := CheckTotal();
      assert free == total;
      locked := false;
    }
  }
}
