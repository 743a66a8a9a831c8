/** How kernel/memory/kmem.c finds free blocks: one tree node for each size that occurs, and behind
    its block a list of the other blocks of that size. */
module KmemIndex {
  import opened KmemSpec
  import opened RbShape
  import opened RbMemory

  /** A block header: the flags of `type`, the size, and the list links of a free block. */
  datatype Head = Head(free: bool, haveNext: bool, inTree: bool, size: int, prev: int, next: int)

  type Heads = map<int, Head>

  /** The free blocks of each size, the one in the tree first. */
  type Chains = map<int, seq<int>>

  /** Where the tree node lies inside a free block. */
  const NODE := 32

  function LayoutOf(b: Heads): Layout {
    map a | a in b :: Cell(b[a].size, b[a].free)
  }

  // ------------------------------------------------------------------------ the lists

  /** The header that member `i` of the chain `c` of size `k` must have. */
  function HeadAt(k: int, c: seq<int>, i: int): Head
    requires 0 <= i < |c|
  {
    Head(true, i + 1 < |c|, i == 0, k, if i == 0 then 0 else c[i - 1], if i + 1 < |c| then c[i + 1] else 0)
  }

  predicate LinkOk(b: Heads, k: int, c: seq<int>, i: int)
    requires 0 <= i < |c|
  {
    c[i] in b && b[c[i]] == HeadAt(k, c, i)
  }

  ghost predicate Unique(c: seq<int>) {
    forall i, j :: 0 <= i < j < |c| ==> c[i] != c[j]
  }

  ghost predicate Linked(b: Heads, k: int, c: seq<int>) {
    |c| > 0 && Unique(c) && forall i {:trigger LinkOk(b, k, c, i)} :: 0 <= i < |c| ==> LinkOk(b, k, c, i)
  }

  predicate AllIn(b: Heads, c: seq<int>) {
    forall i :: 0 <= i < |c| ==> c[i] in b
  }

  predicate Listed(b: Heads, ch: Chains, a: int)
    requires a in b
  {
    b[a].size in ch && a in ch[b[a].size]
  }

  /** The lists hold exactly the free blocks, apart from those in `out`. */
  ghost predicate Indexed(b: Heads, ch: Chains, out: set<int>) {
    && (forall k {:trigger Linked(b, k, ch[k])} :: k in ch ==> Linked(b, k, ch[k]))
    && (forall a {:trigger Listed(b, ch, a)} :: a in b && b[a].free && a !in out ==> Listed(b, ch, a))
    && (forall k, a :: k in ch && a in out ==> a !in ch[k])
  }

  /** A member of a chain is a free block of that size. */
  lemma Member(b: Heads, ch: Chains, out: set<int>, k: int, a: int) returns (i: int)
    requires Indexed(b, ch, out) && k in ch && a in ch[k]
    ensures 0 <= i < |ch[k]| && ch[k][i] == a && a in b && b[a] == HeadAt(k, ch[k], i)
  {
    i :| 0 <= i < |ch[k]| && ch[k][i] == a;
    assert Linked(b, k, ch[k]) && LinkOk(b, k, ch[k], i);
  }

  lemma LinkedAt(b: Heads, ch: Chains, out: set<int>, k: int)
    requires Indexed(b, ch, out) && k in ch
    ensures Linked(b, k, ch[k]) && |ch[k]| > 0
  {
  }

  lemma LinkedFrame(b: Heads, b': Heads, k: int, c: seq<int>)
    requires Linked(b, k, c) && forall i :: 0 <= i < |c| ==> c[i] in b && c[i] in b' && b'[c[i]] == b[c[i]]
    ensures Linked(b', k, c)
  {
    forall i | 0 <= i < |c|
      ensures LinkOk(b', k, c, i)
    {
      assert LinkOk(b, k, c, i);
    }
  }

  // ------------------------------------------------------------------------- adding

  function PutChain(c: seq<int>, a: int): seq<int>
    requires |c| > 0
  {
    [c[0], a] + c[1..]
  }

  function Put(ch: Chains, k: int, a: int): Chains
    requires k in ch ==> |ch[k]| > 0
  {
    ch[k := if k in ch then PutChain(ch[k], a) else [a]]
  }

  /** The header writes of insert_into_pool. */
  function PutHeads(b: Heads, ch: Chains, k: int, a: int): Heads
    requires k in ch ==> |ch[k]| > 0 && ch[k][0] in b && (|ch[k]| > 1 ==> ch[k][1] in b)
  {
    if k !in ch then b[a := Head(true, false, true, k, 0, 0)]
    else
      var e := ch[k][0];
      if |ch[k]| > 1 then
        var next := ch[k][1];
        b[next := b[next].(prev := a)][e := b[e].(next := a)][a := Head(true, true, false, k, e, next)]
      else b[e := b[e].(next := a, haveNext := true)][a := Head(true, false, false, k, e, 0)]
  }

  lemma PutLinked(b: Heads, b': Heads, k: int, c: seq<int>, a: int)
    requires Linked(b, k, c) && a !in c
    requires c[0] in b && (|c| > 1 ==> c[1] in b) && b' == PutHeads(b, map[k := c], k, a)
    ensures Linked(b', k, PutChain(c, a))
  {
    var c' := PutChain(c, a);
    forall i | 0 <= i < |c'|
      ensures LinkOk(b', k, c', i)
    {
      assert LinkOk(b, k, c, 0);
      if i >= 2 { assert LinkOk(b, k, c, i - 1); }
    }
  }

  lemma PutIndexed(b: Heads, ch: Chains, out: set<int>, k: int, a: int)
    requires Indexed(b, ch, out) && (a in out || a !in b) && forall j :: j in ch ==> a !in ch[j]
    ensures k in ch ==> |ch[k]| > 0 && ch[k][0] in b && (|ch[k]| > 1 ==> ch[k][1] in b)
    ensures Indexed(PutHeads(b, ch, k, a), Put(ch, k, a), out - {a})
    ensures LayoutOf(PutHeads(b, ch, k, a)) == LayoutOf(b)[a := Cell(k, true)]
  {
    if k in ch {
      assert Linked(b, k, ch[k]) && LinkOk(b, k, ch[k], 0);
      if |ch[k]| > 1 { assert LinkOk(b, k, ch[k], 1); }
    }
    var b', ch' := PutHeads(b, ch, k, a), Put(ch, k, a);
    forall j | j in ch'
      ensures Linked(b', j, ch'[j])
    {
      if j != k {
        PutElsewhere(b, ch, out, k, a, j);
      } else if k in ch {
        PutLinked(b, b', k, ch[k], a);
      } else {
        assert LinkOk(b', k, [a], 0);
      }
    }
    forall x | x in b' && b'[x].free && x !in out - {a}
      ensures Listed(b', ch', x)
    {
      if x != a { assert Listed(b, ch, x); }
    }
  }

  lemma PutElsewhere(b: Heads, ch: Chains, out: set<int>, k: int, a: int, j: int)
    requires Indexed(b, ch, out) && j in ch && j != k && a !in ch[j]
    requires k in ch ==> |ch[k]| > 0 && ch[k][0] in b && (|ch[k]| > 1 ==> ch[k][1] in b)
    ensures Linked(PutHeads(b, ch, k, a), j, ch[j])
  {
    var b' := PutHeads(b, ch, k, a);
    assert Linked(b, j, ch[j]);
    forall i | 0 <= i < |ch[j]|
      ensures ch[j][i] in b && ch[j][i] in b' && b'[ch[j][i]] == b[ch[j][i]]
    {
      assert LinkOk(b, j, ch[j], i);
      if k in ch {
        assert Linked(b, k, ch[k]) && LinkOk(b, k, ch[k], 0);
        if |ch[k]| > 1 { assert LinkOk(b, k, ch[k], 1); }
      }
    }
    LinkedFrame(b, b', j, ch[j]);
  }

  // ----------------------------------------------------------------------- removing

  function DropChain(c: seq<int>, i: int): seq<int>
    requires 0 <= i < |c|
  {
    c[..i] + c[i + 1..]
  }

  function Drop(ch: Chains, k: int, i: int): Chains
    requires k in ch && 0 <= i < |ch[k]|
  {
    if |ch[k]| == 1 then ch - {k} else ch[k := DropChain(ch[k], i)]
  }

  /** The header writes of remove_from_pool on the neighbours of member `i`. */
  function DropLinks(b: Heads, c: seq<int>, i: int): Heads
    requires 0 <= i < |c| && AllIn(b, c)
  {
    if i == 0 then
      if |c| > 1 then b[c[1] := b[c[1]].(prev := 0, inTree := true)] else b
    else if i + 1 < |c| then
      var b1 := b[c[i - 1] := b[c[i - 1]].(next := c[i + 1])];
      b1[c[i + 1] := b1[c[i + 1]].(prev := c[i - 1])]
    else b[c[i - 1] := b[c[i - 1]].(next := 0, haveNext := false)]
  }

  function DropHeads(b: Heads, c: seq<int>, i: int): Heads
    requires 0 <= i < |c| && AllIn(b, c)
  {
    DropLinks(b, c, i)[c[i] := b[c[i]].(haveNext := false, inTree := false, prev := 0, next := 0)]
  }

  lemma DropUnique(c: seq<int>, i: int)
    requires Unique(c) && 0 <= i < |c|
    ensures Unique(DropChain(c, i)) && c[i] !in DropChain(c, i)
    ensures forall x :: x in c && x != c[i] ==> x in DropChain(c, i)
    ensures forall x :: x in DropChain(c, i) ==> x in c
  {
    var c' := DropChain(c, i);
    assert forall j :: 0 <= j < |c'| ==> c'[j] == c[if j < i then j else j + 1];
    forall x | x in c && x != c[i]
      ensures x in c'
    {
      var j :| 0 <= j < |c| && c[j] == x;
      assert c'[if j < i then j else j - 1] == x;
    }
  }

  lemma DropLinked(b: Heads, k: int, c: seq<int>, i: int)
    requires Linked(b, k, c) && 0 <= i < |c| && |c| > 1
    ensures AllIn(b, c)
    ensures Linked(DropHeads(b, c, i), k, DropChain(c, i))
  {
    ChainInHeads(b, k, c);
    var b', c' := DropHeads(b, c, i), DropChain(c, i);
    DropUnique(c, i);
    forall j | 0 <= j < |c'|
      ensures LinkOk(b', k, c', j)
    {
      DropLink(b, k, c, i, j);
    }
  }

  lemma ChainInHeads(b: Heads, k: int, c: seq<int>)
    requires Linked(b, k, c)
    ensures AllIn(b, c) && forall i :: 0 <= i < |c| ==> b[c[i]].size == k && b[c[i]].free
  {
    forall i | 0 <= i < |c|
      ensures c[i] in b && b[c[i]].size == k && b[c[i]].free
    {
      assert LinkOk(b, k, c, i);
    }
  }

  lemma DropLink(b: Heads, k: int, c: seq<int>, i: int, j: int)
    requires Linked(b, k, c) && 0 <= i < |c| && |c| > 1 && 0 <= j < |c| - 1
    requires AllIn(b, c)
    ensures LinkOk(DropHeads(b, c, i), k, DropChain(c, i), j)
  {
    var b', c' := DropHeads(b, c, i), DropChain(c, i);
    var m := if j < i then j else j + 1;
    assert c'[j] == c[m];
    assert LinkOk(b, k, c, m);
    assert forall n :: 0 <= n < |c'| ==> c'[n] == c[if n < i then n else n + 1];
  }

  lemma DropElsewhere(b: Heads, ch: Chains, out: set<int>, k: int, i: int, j: int)
    requires Indexed(b, ch, out) && k in ch && 0 <= i < |ch[k]| && j in ch && j != k && AllIn(b, ch[k])
    ensures Linked(DropHeads(b, ch[k], i), j, ch[j])
  {
    var b' := DropHeads(b, ch[k], i);
    assert Linked(b, j, ch[j]) && Linked(b, k, ch[k]);
    ChainInHeads(b, k, ch[k]);
    ChainInHeads(b, j, ch[j]);
    LinkedFrame(b, b', j, ch[j]);
  }

  lemma DropLayout(b: Heads, k: int, c: seq<int>, i: int)
    requires Linked(b, k, c) && 0 <= i < |c| && AllIn(b, c)
    ensures LayoutOf(DropHeads(b, c, i)) == LayoutOf(b)
    ensures forall x :: x in b && x !in c ==> DropHeads(b, c, i)[x] == b[x]
  {
  }

  lemma DropIndexed(b: Heads, ch: Chains, out: set<int>, k: int, i: int)
    requires Indexed(b, ch, out) && k in ch && 0 <= i < |ch[k]|
    ensures AllIn(b, ch[k]) && Indexed(DropHeads(b, ch[k], i), Drop(ch, k, i), out + {ch[k][i]})
    ensures LayoutOf(DropHeads(b, ch[k], i)) == LayoutOf(b)
  {
    var c, a := ch[k], ch[k][i];
    assert Linked(b, k, c);
    ChainInHeads(b, k, c);
    DropLayout(b, k, c, i);
    DropUnique(c, i);
    var b', ch' := DropHeads(b, c, i), Drop(ch, k, i);
    forall j | j in ch'
      ensures Linked(b', j, ch'[j]) && a !in ch'[j]
    {
      if j != k {
        DropElsewhere(b, ch, out, k, i, j);
        OtherChain(b, ch, out, k, j, i);
      } else {
        DropLinked(b, k, c, i);
      }
    }
    forall x | x in b' && b'[x].free && x !in out + {a}
      ensures Listed(b', ch', x)
    {
      assert LayoutOf(b')[x] == LayoutOf(b)[x];
      assert Listed(b, ch, x);
      if |c| == 1 { assert c == [a]; }
    }
  }

  lemma OtherChain(b: Heads, ch: Chains, out: set<int>, k: int, j: int, i: int)
    requires Indexed(b, ch, out) && k in ch && j in ch && j != k && 0 <= i < |ch[k]|
    ensures ch[k][i] !in ch[j]
  {
    assert Linked(b, j, ch[j]) && Linked(b, k, ch[k]);
    ChainInHeads(b, k, ch[k]);
    ChainInHeads(b, j, ch[j]);
  }

  // ------------------------------------------------------------------------ the tree

  /** The tree holds one node for each size, that of the first block of its chain. */
  ghost predicate Matches(s: seq<Item>, ch: Chains) {
    && (forall x :: x in s ==> x.k in ch && |ch[x.k]| > 0 && x.a == ch[x.k][0] + NODE)
    && (forall k :: k in ch ==> TopOk(s, ch, k))
  }

  predicate TopOk(s: seq<Item>, ch: Chains, k: int)
    requires k in ch
  {
    |ch[k]| > 0 && 0 <= ch[k][0] + NODE && 0 <= k && Item(ch[k][0] + NODE, k) in s
  }

  /** The nodes of the other blocks are ready to take its place. */
  ghost predicate Spare(nodes: Memory, ch: Chains) {
    forall k, i :: k in ch && 1 <= i < |ch[k]| ==> SpareNode(nodes, k, ch[k][i] + NODE)
  }

  predicate SpareNode(nodes: Memory, k: int, n: int) {
    n in nodes && nodes[n].key == k && nodes[n].L == NULL && nodes[n].R == NULL
  }

  lemma InsertedMembers(s: seq<Item>, x: Item, s': seq<Item>, y: Item)
    requires Inserted(s, x, s')
    ensures y in s' <==> y == x || y in s
  {
    var i :| 0 <= i <= |s| && s' == s[..i] + [x] + s[i..];
    assert s == s[..i] + s[i..];
  }

  lemma MatchInsert(s: seq<Item>, ch: Chains, a: int, k: int, s': seq<Item>)
    requires Matches(s, ch) && a + NODE >= 0 && k >= 0 && Inserted(s, Item(a + NODE, k), s') && k !in ch
    ensures Matches(s', ch[k := [a]])
  {
    hide Inserted;
    forall y: Item
      ensures y in s' <==> y == Item(a + NODE, k) || y in s
    {
      InsertedMembers(s, Item(a + NODE, k), s', y);
    }
  }

  lemma RemovedMembers(s: seq<Item>, x: Item, s': seq<Item>, y: Item)
    requires Inserted(s', x, s) && Sorted(s)
    ensures y in s' <==> y in s && y.k != x.k
  {
    var i :| 0 <= i <= |s'| && s == s'[..i] + [x] + s'[i..];
    SortedMiddle(s'[..i], x, s'[i..]);
    InsertedMembers(s', x, s, y);
    assert s' == s'[..i] + s'[i..];
    if y in s' { assert y in s'[..i] || y in s'[i..]; }
  }

  lemma MatchRemove(s: seq<Item>, ch: Chains, a: int, k: int, s': seq<Item>)
    requires Matches(s, ch) && a + NODE >= 0 && k >= 0 && Inserted(s', Item(a + NODE, k), s) && Sorted(s) && k in ch
    ensures Matches(s', ch - {k})
  {
    hide Sorted, Inserted;
    forall y: Item
      ensures y in s' <==> y in s && y.k != k
    {
      RemovedMembers(s, Item(a + NODE, k), s', y);
    }
  }

  lemma SwappedMembers(s: seq<Item>, o: Ptr, n: Ptr, s': seq<Item>, k: nat, y: Item)
    requires Swapped(s, o, n, s') && Sorted(s) && forall x :: x in s && x.a == o ==> x.k == k
    ensures y in s' <==> y == Item(n, k) || (y in s && y.k != k)
  {
    var i :| 0 <= i < |s| && s[i].a == o && s' == s[i := Item(n, s[i].k)];
    assert s[i] in s && s'[i] == Item(n, k);
    if y in s && y.k != k {
      var m :| 0 <= m < |s| && s[m] == y;
      assert s'[m] == y;
    }
    if y in s' && y != Item(n, k) {
      var m :| 0 <= m < |s'| && s'[m] == y;
      assert s[m] == y && m != i;
    }
  }

  lemma MatchSwap(s: seq<Item>, ch: Chains, o: int, n: int, k: int, c: seq<int>, s': seq<Item>)
    requires Matches(s, ch) && o + NODE >= 0 && n + NODE >= 0 && Swapped(s, o + NODE, n + NODE, s') && Sorted(s)
    requires k in ch && (forall j :: j in ch && |ch[j]| > 0 && ch[j][0] == o ==> j == k) && |c| > 0 && c[0] == n
    ensures Matches(s', ch[k := c])
  {
    hide Sorted, Swapped;
    assert TopOk(s, ch, k);
    forall y: Item
      ensures y in s' <==> y == Item(n + NODE, k) || (y in s && y.k != k)
    {
      SwappedMembers(s, o + NODE, n + NODE, s', k, y);
    }
  }

  lemma {:induction false} ItemAddr(t: Tree, x: Item)
    requires x in Inorder(t)
    ensures x.a in Addrs(t)
  {
    if x != Item(t.a, t.k) {
      if x in Inorder(t.l) { ItemAddr(t.l, x); } else { ItemAddr(t.r, x); }
    }
  }

  lemma {:induction false} AddrItem(t: Tree, a: Ptr) returns (k: nat)
    requires a in Addrs(t)
    ensures Item(a, k) in Inorder(t)
  {
    if a in Addrs(t.l) {
      k := AddrItem(t.l, a);
    } else if a in Addrs(t.r) {
      k := AddrItem(t.r, a);
    } else {
      k := t.k;
    }
  }

  lemma {:induction false} ItemNode(h: Memory, t: Tree, parent: Ptr, x: Item)
    requires Holds(h, t, parent) && x in Inorder(t)
    ensures x.a in h && h[x.a].key == x.k
  {
    if x in Inorder(t.l) {
      ItemNode(h, t.l, t.a, x);
    } else if x in Inorder(t.r) {
      ItemNode(h, t.r, t.a, x);
    }
  }

  /** Which blocks have their node in the tree. */
  lemma InTree(t: Tree, ch: Chains, a: int)
    requires Matches(Inorder(t), ch) && a + NODE >= 0
    ensures a + NODE in Addrs(t) <==> exists k :: k in ch && |ch[k]| > 0 && ch[k][0] == a
  {
    if a + NODE in Addrs(t) {
      var k := AddrItem(t, a + NODE);
      assert Item(a + NODE, k) in Inorder(t);
    }
    if k :| k in ch && |ch[k]| > 0 && ch[k][0] == a {
      assert TopOk(Inorder(t), ch, k);
      ItemAddr(t, Item(a + NODE, k));
    }
  }

  /** The other blocks of a chain do not. */
  lemma SpareOutside(b: Heads, ch: Chains, out: set<int>, t: Tree, k: int, i: int)
    requires Indexed(b, ch, out) && Matches(Inorder(t), ch) && k in ch && 1 <= i < |ch[k]| && ch[k][i] + NODE >= 0
    ensures ch[k][i] + NODE !in Addrs(t)
  {
    var a := ch[k][i];
    InTree(t, ch, a);
    forall j | j in ch && |ch[j]| > 0
      ensures ch[j][0] != a
    {
      assert Linked(b, k, ch[k]);
      if j != k { OtherChain(b, ch, out, k, j, i); }
    }
  }

  lemma Outside(b: Heads, ch: Chains, out: set<int>, a: int)
    requires Indexed(b, ch, out) && (a in out || a !in b)
    ensures forall k :: k in ch ==> a !in ch[k]
  {
    forall k | k in ch
      ensures a !in ch[k]
    {
      assert Linked(b, k, ch[k]);
      ChainInHeads(b, k, ch[k]);
    }
  }

  /** Tree operations leave the spare nodes alone. */
  lemma SpareKept(b: Heads, ch: Chains, out: set<int>, t: Tree, nodes: Memory, nodes': Memory, n: int)
    requires Indexed(b, ch, out) && Matches(Inorder(t), ch) && Spare(nodes, ch) && forall a :: a in b ==> a > 0
    requires n >= 0 && (forall k :: k in ch ==> n - NODE !in ch[k]) && ChangedOnly(nodes, nodes', Addrs(t) + {n})
    ensures Spare(nodes', ch)
  {
    forall k, i | k in ch && 1 <= i < |ch[k]|
      ensures SpareNode(nodes', k, ch[k][i] + NODE)
    {
      assert Linked(b, k, ch[k]) && LinkOk(b, k, ch[k], i) && SpareNode(nodes, k, ch[k][i] + NODE);
      SpareOutside(b, ch, out, t, k, i);
    }
  }

  lemma SparePut(nodes: Memory, ch: Chains, k: int, a: int)
    requires Spare(nodes, ch) && (k in ch ==> |ch[k]| > 0 && SpareNode(nodes, k, a + NODE))
    ensures Spare(nodes, Put(ch, k, a))
  {
    var ch' := Put(ch, k, a);
    forall j, i | j in ch' && 1 <= i < |ch'[j]|
      ensures SpareNode(nodes, j, ch'[j][i] + NODE)
    {
      if j != k {
        assert SpareNode(nodes, j, ch[j][i] + NODE);
      } else if i >= 2 {
        assert SpareNode(nodes, j, ch[j][i - 1] + NODE);
      }
    }
  }

  lemma SpareWrite(nodes: Memory, ch: Chains, a: int, r: Rec)
    requires Spare(nodes, ch) && a + NODE >= 0 && forall k :: k in ch ==> a !in ch[k]
    ensures Spare(nodes[a + NODE := r], ch)
  {
    forall k, i | k in ch && 1 <= i < |ch[k]|
      ensures SpareNode(nodes[a + NODE := r], k, ch[k][i] + NODE)
    {
      assert SpareNode(nodes, k, ch[k][i] + NODE);
    }
  }

  lemma SizeAbsent(s: seq<Item>, ch: Chains, k: int)
    requires Matches(s, ch) && k >= 0 && !HasKey(s, k)
    ensures k !in ch
  {
    if k in ch { SizePresent(s, ch, k); }
  }

  lemma SizePresent(s: seq<Item>, ch: Chains, k: int)
    requires Matches(s, ch) && k in ch
    ensures k >= 0 && HasKey(s, k)
  {
    assert TopOk(s, ch, k);
  }

  lemma MatchPut(s: seq<Item>, ch: Chains, k: int, a: int)
    requires Matches(s, ch) && k in ch && |ch[k]| > 0
    ensures Matches(s, Put(ch, k, a))
  {
    forall j | j in ch
      ensures TopOk(s, Put(ch, k, a), j)
    {
      assert TopOk(s, ch, j);
    }
  }

  /** What the asserts of insert_into_pool and remove_from_pool check about a listed block. */
  lemma ListGuards(b: Heads, k: int, c: seq<int>, i: int)
    requires Linked(b, k, c) && 0 <= i < |c|
    ensures AllIn(b, c) && b[c[i]] == HeadAt(k, c, i)
    ensures i + 1 < |c| ==> c[i + 1] != c[i] && b[c[i + 1]] == HeadAt(k, c, i + 1)
    ensures i > 0 ==> c[i - 1] != c[i] && b[c[i - 1]] == HeadAt(k, c, i - 1)
    ensures 0 < i && i + 1 < |c| ==> c[i - 1] != c[i + 1]
  {
    ChainInHeads(b, k, c);
    assert LinkOk(b, k, c, i);
    if i + 1 < |c| { assert LinkOk(b, k, c, i + 1); }
    if i > 0 { assert LinkOk(b, k, c, i - 1); }
  }

  lemma SpareDrop(nodes: Memory, ch: Chains, k: int, i: int)
    requires Spare(nodes, ch) && k in ch && 0 <= i < |ch[k]|
    ensures Spare(nodes, Drop(ch, k, i))
  {
    var ch' := Drop(ch, k, i);
    forall j, m | j in ch' && 1 <= m < |ch'[j]|
      ensures SpareNode(nodes, j, ch'[j][m] + NODE)
    {
      var n := if j != k || m < i then m else m + 1;
      assert ch'[j][m] == ch[j][n];
      assert SpareNode(nodes, j, ch[j][n] + NODE);
    }
  }

  /** A block that is not first leaves without the tree noticing. */
  lemma MatchDrop(s: seq<Item>, ch: Chains, k: int, i: int)
    requires Matches(s, ch) && k in ch && 0 < i < |ch[k]|
    ensures Matches(s, Drop(ch, k, i))
  {
    forall j | j in ch
      ensures TopOk(s, Drop(ch, k, i), j)
    {
      assert TopOk(s, ch, j);
    }
  }

  lemma FirstOfOne(b: Heads, ch: Chains, out: set<int>, k: int)
    requires Indexed(b, ch, out) && k in ch
    ensures |ch[k]| > 0 && forall j :: j in ch && |ch[j]| > 0 && ch[j][0] == ch[k][0] ==> j == k
  {
    LinkedAt(b, ch, out, k);
    forall j | j in ch && |ch[j]| > 0 && ch[j][0] == ch[k][0]
      ensures j == k
    {
      LinkedAt(b, ch, out, j);
      assert LinkOk(b, j, ch[j], 0) && LinkOk(b, k, ch[k], 0);
    }
  }

  lemma TopNode(h: Memory, t: Tree, ch: Chains, k: int)
    requires Holds(h, t, NULL) && Matches(Inorder(t), ch) && k in ch
    ensures |ch[k]| > 0 && k >= 0
    ensures var n := ch[k][0] + NODE; n >= 0 && n in Addrs(t) && n in h && h[n].key == k
  {
    hide Holds;
    assert TopOk(Inorder(t), ch, k);
    ItemAddr(t, Item(ch[k][0] + NODE, k));
    ItemNode(h, t, NULL, Item(ch[k][0] + NODE, k));
  }

  lemma SpareAt(nodes: Memory, ch: Chains, k: int, i: int)
    requires Spare(nodes, ch) && k in ch && 1 <= i < |ch[k]|
    ensures SpareNode(nodes, k, ch[k][i] + NODE)
  {
  }

  lemma SpareRemoved(b: Heads, ch: Chains, out: set<int>, t: Tree, nodes: Memory, nodes': Memory, k: int)
    requires Indexed(b, ch, out) && Matches(Inorder(t), ch) && Spare(nodes, ch) && forall a :: a in b ==> a > 0
    requires k in ch && |ch[k]| > 0 && ChangedOnly(nodes, nodes', Addrs(t))
    ensures Spare(nodes', Drop(ch, k, 0))
  {
    hide Indexed, Matches, Spare;
    forall j | j in ch
      ensures 0 - NODE !in ch[j]
    {
      LinkedAt(b, ch, out, j);
      ChainInHeads(b, j, ch[j]);
    }
    SpareKept(b, ch, out, t, nodes, nodes', 0);
    SpareDrop(nodes', ch, k, 0);
  }

  lemma SpareReplaced(b: Heads, ch: Chains, out: set<int>, t: Tree, nodes: Memory, nodes': Memory, k: int)
    requires Indexed(b, ch, out) && Matches(Inorder(t), ch) && Spare(nodes, ch) && forall a :: a in b ==> a > 0
    requires k in ch && |ch[k]| > 1 && ch[k][1] + NODE >= 0 && ChangedOnly(nodes, nodes', Addrs(t) + {ch[k][1] + NODE})
    ensures Spare(nodes', Drop(ch, k, 0))
  {
    hide Indexed, Matches, Spare;
    var ch' := Drop(ch, k, 0);
    LinkedAt(b, ch, out, k);
    forall j, m | j in ch' && 1 <= m < |ch'[j]|
      ensures SpareNode(nodes', j, ch'[j][m] + NODE)
    {
      var n := if j != k then m else m + 1;
      assert ch'[j][m] == ch[j][n];
      SpareAt(nodes, ch, j, n);
      LinkedAt(b, ch, out, j);
      ChainInHeads(b, j, ch[j]);
      SpareOutside(b, ch, out, t, j, n);
      if j != k { OtherChain(b, ch, out, k, j, 1); }
    }
    assert Spare(nodes', ch') by { SpareIntro(nodes', ch'); }
  }

  lemma SpareIntro(nodes: Memory, ch: Chains)
    requires forall k, i :: k in ch && 1 <= i < |ch[k]| ==> SpareNode(nodes, k, ch[k][i] + NODE)
    ensures Spare(nodes, ch)
  {
  }

  // ------------------------------------------------------------------ what is listed

  ghost function ChainSet(c: seq<int>): set<int> {
    set x | x in c
  }

  /** The blocks reachable through the tree items `s` and their lists. */
  ghost function BlocksOf(b: Heads, ch: Chains, s: seq<Item>): set<int> {
    set a | a in b && b[a].size >= 0 && Listed(b, ch, a) && HasKey(s, b[a].size)
  }

  lemma ChainSum(l: Layout, c: seq<int>, i: int)
    requires Unique(c) && 0 <= i < |c| && forall j :: 0 <= j < |c| ==> c[j] in l
    ensures ChainSet(c[..i]) <= l.Keys && ChainSet(c[..i + 1]) <= l.Keys
    ensures Sum(l, ChainSet(c[..i + 1])) == Sum(l, ChainSet(c[..i])) + l[c[i]].size
  {
    assert c[..i + 1] == c[..i] + [c[i]];
    assert ChainSet(c[..i + 1]) == ChainSet(c[..i]) + {c[i]};
    SumOut(l, ChainSet(c[..i + 1]), c[i]);
    assert ChainSet(c[..i + 1]) - {c[i]} == ChainSet(c[..i]);
  }

  lemma KeysSplit(l: seq<Item>, x: Item, r: seq<Item>, k: nat)
    requires Sorted(l + [x] + r)
    ensures HasKey(l + [x] + r, k) <==> k == x.k || HasKey(l, k) || HasKey(r, k)
    ensures HasKey(l, k) ==> k < x.k
    ensures HasKey(r, k) ==> k > x.k
  {
    var s := l + [x] + r;
    SortedMiddle(l, x, r);
    assert s[|l|] == x;
    assert forall i :: 0 <= i < |l| ==> s[i] == l[i];
    assert forall i :: 0 <= i < |r| ==> s[|l| + 1 + i] == r[i];
  }

  lemma BlocksSplit(b: Heads, ch: Chains, out: set<int>, l: seq<Item>, x: Item, r: seq<Item>)
    requires Indexed(b, ch, out) && Sorted(l + [x] + r) && x.k in ch
    ensures BlocksOf(b, ch, l + [x] + r) == ChainSet(ch[x.k]) + BlocksOf(b, ch, l) + BlocksOf(b, ch, r)
    ensures ChainSet(ch[x.k]) !! BlocksOf(b, ch, l) && ChainSet(ch[x.k]) !! BlocksOf(b, ch, r) &&
      BlocksOf(b, ch, l) !! BlocksOf(b, ch, r)
  {
    hide Indexed, Sorted, HasKey;
    LinkedAt(b, ch, out, x.k);
    ChainInHeads(b, x.k, ch[x.k]);
    forall a
      ensures a in BlocksOf(b, ch, l + [x] + r) <==>
        a in ChainSet(ch[x.k]) || a in BlocksOf(b, ch, l) || a in BlocksOf(b, ch, r)
      ensures !(a in ChainSet(ch[x.k]) && a in BlocksOf(b, ch, l)) &&
        !(a in ChainSet(ch[x.k]) && a in BlocksOf(b, ch, r))
      ensures !(a in BlocksOf(b, ch, l) && a in BlocksOf(b, ch, r))
    {
      if a in b && b[a].size >= 0 { KeysSplit(l, x, r, b[a].size); }
    }
  }

  /** The tree and its lists reach every free block. */
  lemma AllListed(b: Heads, ch: Chains, s: seq<Item>)
    requires Indexed(b, ch, {}) && Matches(s, ch)
    ensures BlocksOf(b, ch, s) == FreeSet(LayoutOf(b))
  {
    forall a
      ensures a in BlocksOf(b, ch, s) <==> a in FreeSet(LayoutOf(b))
    {
      if a in b && b[a].free {
        assert Listed(b, ch, a);
        SizePresent(s, ch, b[a].size);
      }
      if a in b && b[a].size >= 0 && Listed(b, ch, a) {
        var i := Member(b, ch, {}, b[a].size, a);
      }
    }
  }

  // ---------------------------------------------------------- headers outside the lists

  /** The header of a block outside the lists may change. */
  lemma WriteOut(b: Heads, ch: Chains, out: set<int>, a: int, h: Head)
    requires Indexed(b, ch, out) && a in out
    ensures Indexed(b[a := h], ch, out)
    ensures !h.free ==> Indexed(b[a := h], ch, out - {a})
    ensures LayoutOf(b[a := h]) == LayoutOf(b)[a := Cell(h.size, h.free)]
  {
    var b' := b[a := h];
    forall k | k in ch
      ensures Linked(b', k, ch[k])
    {
      LinkedAt(b, ch, out, k);
      ChainInHeads(b, k, ch[k]);
      LinkedFrame(b, b', k, ch[k]);
    }
    forall x | x in b' && b'[x].free && x !in out
      ensures Listed(b', ch, x)
    {
      assert Listed(b, ch, x);
    }
    if !h.free {
      forall x | x in b' && b'[x].free && x !in out - {a}
        ensures Listed(b', ch, x)
      {
        assert Listed(b, ch, x);
      }
    }
  }

  /** A block outside the lists may go away. */
  lemma EraseOut(b: Heads, ch: Chains, out: set<int>, a: int)
    requires Indexed(b, ch, out) && a in out
    ensures Indexed(b - {a}, ch, out - {a}) && LayoutOf(b - {a}) == LayoutOf(b) - {a}
  {
    var b' := b - {a};
    forall k | k in ch
      ensures Linked(b', k, ch[k])
    {
      LinkedAt(b, ch, out, k);
      ChainInHeads(b, k, ch[k]);
      LinkedFrame(b, b', k, ch[k]);
    }
    forall x | x in b' && b'[x].free && x !in out - {a}
      ensures Listed(b', ch, x)
    {
      assert Listed(b, ch, x);
    }
  }

  /** A block in use is outside the lists. */
  lemma InUseOut(b: Heads, ch: Chains, out: set<int>, a: int)
    requires Indexed(b, ch, out) && a in b && !b[a].free
    ensures Indexed(b, ch, out + {a})
  {
    forall k | k in ch
      ensures a !in ch[k]
    {
      LinkedAt(b, ch, out, k);
      ChainInHeads(b, k, ch[k]);
    }
    forall x | x in b && b[x].free && x !in out + {a}
      ensures Listed(b, ch, x)
    {
      assert Listed(b, ch, x);
    }
  }

  lemma FreeListed(b: Heads, ch: Chains, out: set<int>, a: int)
    requires Indexed(b, ch, out) && a in b && b[a].free && a !in out
    ensures Listed(b, ch, a)
  {
  }
}
