/** The rotations and single-link writes of kernel/lib/rb_tree.c, and what they do to the tree held in memory. */
module RbRotate {
  import opened RbShape
  import opened RbMemory
  import opened RbInsertShape

  // ------------------------------------------- what the C statements do to memory

  /** `if (x) SET_PARENT(x, q)` */
  function Adopt(h: Memory, x: Ptr, q: Ptr): Memory {
    if x == NULL || x !in h then h else h[x := h[x].(parent := q)]
  }

  /** `if (parent) { if (node == parent->L) parent->L = x; else parent->R = x; }` */
  function LinkChild(h: Memory, parent: Ptr, node: Ptr, x: Ptr): Memory {
    if parent == NULL || parent !in h then h
    else if h[parent].L == node then h[parent := h[parent].(L := x)]
    else h[parent := h[parent].(R := x)]
  }

  /** `... else tree->root = x;` */
  function LinkRoot(root: Ptr, parent: Ptr, x: Ptr): Ptr {
    if parent == NULL then x else root
  }

  function RotL(t: Tree): Tree
    requires t.Node? && t.r.Node?
  {
    Node(Node(t.l, t.a, t.k, t.red, t.r.l), t.r.a, t.r.k, t.r.red, t.r.r)
  }

  function RotR(t: Tree): Tree
    requires t.Node? && t.l.Node?
  {
    Node(t.l.l, t.l.a, t.l.k, t.l.red, Node(t.l.r, t.a, t.k, t.red, t.r))
  }

  /** Memory after rb_rotate_left(tree, n). */
  function RotateLeftMem(h: Memory, n: Ptr): Memory
    requires n in h && h[n].R in h
  {
    var r := h[n].R;
    var h1 := h[n := h[n].(R := h[r].L)];
    var h2 := Adopt(h1, h1[r].L, n);
    var h3 := h2[r := h2[r].(L := n)];
    Adopt(LinkChild(Adopt(h3, r, h[n].parent), h[n].parent, n, r), n, r)
  }

  function RotateRightMem(h: Memory, n: Ptr): Memory
    requires n in h && h[n].L in h
  {
    var l := h[n].L;
    var h1 := h[n := h[n].(L := h[l].R)];
    var h2 := Adopt(h1, h1[l].R, n);
    var h3 := h2[l := h2[l].(R := n)];
    Adopt(LinkChild(Adopt(h3, l, h[n].parent), h[n].parent, n, l), n, l)
  }

  /** The four nodes a rotation touches, when they are four different ones. */
  predicate Apart(h: Memory, n: Ptr, c: Ptr, b: Ptr, q: Ptr) {
    && n != NULL && c != NULL && n != c && n in h && c in h
    && (b != NULL ==> b in h && b != n && b != c && b != q)
    && (q != NULL ==> q in h && q != n && q != c)
  }

  /** `h'` is `h` with the context `p` pointing at `hole` instead. */
  predicate Redirected(h: Memory, h': Memory, root: Ptr, root': Ptr, p: Path, hole: Ptr) {
    if p.Top? then root' == hole
    else
      && root' == root && p.a in h && p.a in h'
      && h'[p.a] == (if p.InL? then h[p.a].(L := hole) else h[p.a].(R := hole))
  }

  lemma ZipApart(h: Memory, root: Ptr, p: Path, t: Tree)
    requires Zip(h, root, p, t) && t.Node?
    ensures t.r.Node? ==> t.r.a in h && h[t.a].R == t.r.a && h[t.r.a].L == Root(t.r.l)
    ensures t.r.Node? ==> Apart(h, t.a, t.r.a, Root(t.r.l), Above(p))
    ensures t.l.Node? ==> t.l.a in h && h[t.a].L == t.l.a && h[t.l.a].R == Root(t.l.r)
    ensures t.l.Node? ==> Apart(h, t.a, t.l.a, Root(t.l.r), Above(p))
    ensures !p.Top? ==> (h[p.a].L == t.a <==> p.InL?)
  {
    if t.r.Node? { assert Holds(h, t.r, t.a) && Holds(h, t.r.l, t.r.a) && Distinct(t.r); }
    if t.l.Node? { assert Holds(h, t.l, t.a) && Holds(h, t.l.r, t.l.a) && Distinct(t.l); }
    assert p.InR? ==> p.l.Nil? || p.l.a in Addrs(p.l);
  }

  lemma RotateLeftPointwise(h: Memory, n: Ptr, r: Ptr, b: Ptr, q: Ptr)
    requires Apart(h, n, r, b, q) && h[n].R == r && h[r].L == b && h[n].parent == q
    ensures var h' := RotateLeftMem(h, n);
      && h'.Keys == h.Keys
      && h'[n] == h[n].(R := b, parent := r) && h'[r] == h[r].(L := n, parent := q)
      && (b != NULL ==> h'[b] == h[b].(parent := n))
      && (q != NULL ==> h'[q] == if h[q].L == n then h[q].(L := r) else h[q].(R := r))
      && (forall x :: x in h && x != n && x != r && x != b && x != q ==> h'[x] == h[x])
  {
  }

  lemma RotateLeftZip(h: Memory, h': Memory, root: Ptr, root': Ptr, p: Path, t: Tree)
    requires Zip(h, root, p, t) && t.Node? && t.r.Node?
    requires Holds(h, t.r, t.a) && Holds(h, t.r.l, t.r.a)
    requires t.a in h' && h'[t.a] == h[t.a].(R := Root(t.r.l), parent := t.r.a)
    requires t.r.a in h' && h'[t.r.a] == h[t.r.a].(L := t.a, parent := Above(p))
    requires t.r.l.Node? ==> t.r.l.a in h' && h'[t.r.l.a] == h[t.r.l.a].(parent := t.a)
    requires Redirected(h, h', root, root', p, t.r.a)
    requires SameOn(h, h', Addrs(t.l)) && SameOn(h, h', Addrs(t.r.r))
    requires SameOn(h, h', Addrs(t.r.l) - At(t.r.l)) && SameOn(h, h', PathAddrs(p) - Over(p))
    ensures Zip(h', root', p, RotL(t))
  {
    assert Distinct(t.r) && Addrs(t.r) == Addrs(t.r.l) + {t.r.a} + Addrs(t.r.r);
    HoldsFrame(h, h', t.l, t.a);
    Reparent(h, h', t.r.l, t.r.a, t.a);
    HoldsFrame(h, h', t.r.r, t.r.a);
    Redirect(h, h', root, root', p, t.a, t.r.a);
  }

  lemma RotateLeftFrame(h: Memory, root: Ptr, p: Path, t: Tree)
    requires Zip(h, root, p, t) && t.Node? && t.r.Node? && t.r.a in h
    ensures ChangedOnly(h, RotateLeftMem(h, t.a), Addrs(t) + PathAddrs(p))
  {
    ZipApart(h, root, p, t);
    RotateLeftPointwise(h, t.a, t.r.a, Root(t.r.l), Above(p));
    assert At(t.r.l) <= Addrs(t.r) <= Addrs(t) && At(t.r) <= Addrs(t.r) && Over(p) <= PathAddrs(p);
  }

  lemma RotateLeftCorrect(h: Memory, root: Ptr, p: Path, t: Tree)
    requires Zip(h, root, p, t) && t.Node? && t.r.Node? && t.r.a in h
    ensures Zip(RotateLeftMem(h, t.a), LinkRoot(root, Above(p), t.r.a), p, RotL(t))
  {
    ZipApart(h, root, p, t);
    RotateLeftPointwise(h, t.a, t.r.a, Root(t.r.l), Above(p));
    var h' := RotateLeftMem(h, t.a);
    assert Distinct(t.r) && Addrs(t.r) == Addrs(t.r.l) + {t.r.a} + Addrs(t.r.r);
    RotateLeftZip(h, h', root, LinkRoot(root, Above(p), t.r.a), p, t);
  }

  lemma RotateRightPointwise(h: Memory, n: Ptr, r: Ptr, b: Ptr, q: Ptr)
    requires Apart(h, n, r, b, q) && h[n].L == r && h[r].R == b && h[n].parent == q
    ensures var h' := RotateRightMem(h, n);
      && h'.Keys == h.Keys
      && h'[n] == h[n].(L := b, parent := r) && h'[r] == h[r].(R := n, parent := q)
      && (b != NULL ==> h'[b] == h[b].(parent := n))
      && (q != NULL ==> h'[q] == if h[q].L == n then h[q].(L := r) else h[q].(R := r))
      && (forall x :: x in h && x != n && x != r && x != b && x != q ==> h'[x] == h[x])
  {
  }

  lemma RotateRightZip(h: Memory, h': Memory, root: Ptr, root': Ptr, p: Path, t: Tree)
    requires Zip(h, root, p, t) && t.Node? && t.l.Node?
    requires Holds(h, t.l, t.a) && Holds(h, t.l.r, t.l.a)
    requires t.a in h' && h'[t.a] == h[t.a].(L := Root(t.l.r), parent := t.l.a)
    requires t.l.a in h' && h'[t.l.a] == h[t.l.a].(R := t.a, parent := Above(p))
    requires t.l.r.Node? ==> t.l.r.a in h' && h'[t.l.r.a] == h[t.l.r.a].(parent := t.a)
    requires Redirected(h, h', root, root', p, t.l.a)
    requires SameOn(h, h', Addrs(t.r)) && SameOn(h, h', Addrs(t.l.l))
    requires SameOn(h, h', Addrs(t.l.r) - At(t.l.r)) && SameOn(h, h', PathAddrs(p) - Over(p))
    ensures Zip(h', root', p, RotR(t))
  {
    assert Distinct(t.l) && Addrs(t.l) == Addrs(t.l.l) + {t.l.a} + Addrs(t.l.r);
    HoldsFrame(h, h', t.r, t.a);
    Reparent(h, h', t.l.r, t.l.a, t.a);
    HoldsFrame(h, h', t.l.l, t.l.a);
    Redirect(h, h', root, root', p, t.a, t.l.a);
  }

  lemma RotateRightFrame(h: Memory, root: Ptr, p: Path, t: Tree)
    requires Zip(h, root, p, t) && t.Node? && t.l.Node? && t.l.a in h
    ensures ChangedOnly(h, RotateRightMem(h, t.a), Addrs(t) + PathAddrs(p))
  {
    ZipApart(h, root, p, t);
    RotateRightPointwise(h, t.a, t.l.a, Root(t.l.r), Above(p));
    assert At(t.l.r) <= Addrs(t.l) <= Addrs(t) && At(t.l) <= Addrs(t.l) && Over(p) <= PathAddrs(p);
  }

  lemma RotateRightCorrect(h: Memory, root: Ptr, p: Path, t: Tree)
    requires Zip(h, root, p, t) && t.Node? && t.l.Node? && t.l.a in h
    ensures Zip(RotateRightMem(h, t.a), LinkRoot(root, Above(p), t.l.a), p, RotR(t))
  {
    ZipApart(h, root, p, t);
    RotateRightPointwise(h, t.a, t.l.a, Root(t.l.r), Above(p));
    var h' := RotateRightMem(h, t.a);
    assert Distinct(t.l) && Addrs(t.l) == Addrs(t.l.l) + {t.l.a} + Addrs(t.l.r);
    RotateRightZip(h, h', root, LinkRoot(root, Above(p), t.l.a), p, t);
  }

  /** Recolouring the focus. */
  lemma RecolorCorrect(h: Memory, root: Ptr, p: Path, t: Tree, c: bool)
    requires Zip(h, root, p, t) && t.Node?
    ensures Zip(h[t.a := h[t.a].(red := c)], root, p, t.(red := c))
  {
    var h' := h[t.a := h[t.a].(red := c)];
    HoldsFrame(h, h', t.l, t.a);
    HoldsFrame(h, h', t.r, t.a);
    HoldsPathFrame(h, h', root, p, t.a);
  }

  lemma RotationSameNodes(p: Path, t: Tree)
    requires t.Node?
    ensures t.r.Node? ==> SameNodes(p, t, p, RotL(t))
    ensures t.l.Node? ==> SameNodes(p, t, p, RotR(t))
  {
    if t.r.Node? {
      assert Inorder(RotL(t)) == Inorder(t);
      assert Addrs(RotL(t)) == Addrs(t);
    }
    if t.l.Node? {
      assert Inorder(RotR(t)) == Inorder(t);
      assert Addrs(RotR(t)) == Addrs(t);
    }
  }

  /** A fresh red leaf linked into the hole of `p`. */
  lemma LeafZip(h: Memory, h': Memory, root: Ptr, p: Path, n: Ptr, key: nat)
    requires Zip(h, root, p, Nil) && !p.Top? && n != NULL && n !in PathAddrs(p)
    requires n in h' && h'[n] == Rec(key, p.a, true, NULL, NULL)
    requires p.a in h' && h'[p.a] == if p.InL? then h[p.a].(L := n) else h[p.a].(R := n)
    requires forall x :: x in h && x != n && x != p.a ==> x in h' && h'[x] == h[x]
    ensures Zip(h', root, p, Node(Nil, n, key, true, Nil))
  {
    Redirect(h, h', root, root, p, NULL, n);
  }

  /** Which child the focus is can be read off its parent. */
  lemma ChildSide(h: Memory, root: Ptr, p: Path, t: Tree)
    requires Zip(h, root, p, t) && t.Node? && !p.Top?
    ensures p.a in h
    ensures h[p.a].L == t.a <==> p.InL?
    ensures h[p.a].R == t.a <==> p.InR?
  {
    assert p.InR? ==> p.l.Nil? || p.l.a in Addrs(p.l);
    assert p.InL? ==> p.r.Nil? || p.r.a in Addrs(p.r);
  }
}
