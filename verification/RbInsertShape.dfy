/** What the insertion fixup of kernel/lib/rb_tree.c does to the tree as a value. */
module RbInsertShape {
  import opened RbShape
  import opened RbMemory

  /** The focus is the only place where a red node may sit below a red one. */
  predicate InsertFocus(p: Path, t: Tree) {
    && t.Node? && Balanced(t) && (t.red || p.Top?)
    && PathBalanced(p, BlackHeight(t), false)
  }

  /** Two focused trees with the same nodes in the same order. */
  predicate SameNodes(p: Path, t: Tree, p': Path, t': Tree) {
    && Before(p') + Inorder(t') + After(p') == Before(p) + Inorder(t) + After(p)
    && Addrs(t') + PathAddrs(p') == Addrs(t) + PathAddrs(p)
  }

  function Black(t: Tree): Tree {
    if t.Nil? then t else t.(red := false)
  }

  /** `t` with its left (or right) child recoloured. */
  function RecolorBelow(t: Tree, left: bool, c: bool): Tree
    requires t.Node?
  {
    if left then t.(l := if t.l.Nil? then t.l else t.l.(red := c))
    else t.(r := if t.r.Nil? then t.r else t.r.(red := c))
  }

  /** Parent and uncle become black, the grandparent red. */
  function Recolored(g: Tree): Tree {
    if g.Nil? then g else Node(Black(g.l), g.a, g.k, true, Black(g.r))
  }

  lemma InsertRecolor(p: Path, t: Tree)
    requires InsertFocus(p, t) && !p.Top? && p.red && !p.up.Top?
    requires !IsBlack(if p.up.InL? then p.up.r else p.up.l)
    ensures InsertFocus(p.up.up, Recolored(Join(p.up, Join(p, t))))
  {
    assert PathBalanced(p.up, BlackHeight(t), true);
    var s := Black(Join(p, t));
    assert Balanced(s) && BlackHeight(s) == BlackHeight(t) + 1;
    var u := if p.up.InL? then p.up.r else p.up.l;
    assert Balanced(Black(u)) && BlackHeight(Black(u)) == BlackHeight(t) + 1;
    var g := Recolored(Join(p.up, Join(p, t)));
    assert BlackHeight(g) == BlackHeight(t) + 1;
  }

  lemma RecolorSameNodes(p: Path, t: Tree)
    requires !p.Top? && !p.up.Top?
    ensures SameNodes(p, t, p.up.up, Recolored(Join(p.up, Join(p, t))))
  {
    var s := Join(p, t);
    var g := Join(p.up, s);
    JoinSameNodes(p, t);
    JoinSameNodes(p.up, s);
    assert Inorder(Black(g.l)) == Inorder(g.l) && Inorder(Black(g.r)) == Inorder(g.r);
    assert Addrs(Black(g.l)) == Addrs(g.l) && Addrs(Black(g.r)) == Addrs(g.r);
  }

  lemma JoinSameNodes(p: Path, t: Tree)
    requires !p.Top?
    ensures SameNodes(p, t, p.up, Join(p, t))
  {
    if p.InL? {
      Regroup(Before(p.up), Inorder(t), [Item(p.a, p.k)], Inorder(p.r), After(p.up));
    } else {
      Regroup(Before(p.up), Inorder(p.l), [Item(p.a, p.k)], Inorder(t), After(p.up));
    }
  }

  /** The focus is an inner grandchild: rotating its parent makes its parent an outer one. */
  lemma InsertInnerLeft(p: Path, t: Tree)
    requires InsertFocus(p, t) && p.InR? && p.red && p.up.InL?
    ensures InsertFocus(InL(p.up, t.a, t.k, t.red, t.r), Node(p.l, p.a, p.k, p.red, t.l))
  {
    assert PathBalanced(p.up, BlackHeight(t), true);
  }

  lemma InsertInnerRight(p: Path, t: Tree)
    requires InsertFocus(p, t) && p.InL? && p.red && p.up.InR?
    ensures InsertFocus(InR(p.up, t.l, t.a, t.k, t.red), Node(t.r, p.a, p.k, p.red, p.r))
  {
    assert PathBalanced(p.up, BlackHeight(t), true);
  }

  /** The focus is an outer grandchild with a black uncle: one rotation settles it. */
  lemma InsertOuterLeft(p: Path, t: Tree)
    requires InsertFocus(p, t) && p.InL? && p.red && p.up.InL? && IsBlack(p.up.r)
    ensures InsertFocus(InL(p.up.up, p.a, p.k, false, Node(p.r, p.up.a, p.up.k, true, p.up.r)), t)
  {
    assert PathBalanced(p.up, BlackHeight(t), true);
  }

  lemma InsertOuterRight(p: Path, t: Tree)
    requires InsertFocus(p, t) && p.InR? && p.red && p.up.InR? && IsBlack(p.up.l)
    ensures InsertFocus(InR(p.up.up, Node(p.up.l, p.up.a, p.up.k, true, p.l), p.a, p.k, false), t)
  {
    assert PathBalanced(p.up, BlackHeight(t), true);
  }

  lemma OuterSameNodes(p: Path, t: Tree)
    requires !p.Top? && !p.up.Top?
    ensures p.InL? && p.up.InL? ==>
      SameNodes(p, t, InL(p.up.up, p.a, p.k, false, Node(p.r, p.up.a, p.up.k, true, p.up.r)), t)
    ensures p.InR? && p.up.InR? ==>
      SameNodes(p, t, InR(p.up.up, Node(p.up.l, p.up.a, p.up.k, true, p.l), p.a, p.k, false), t)
  {
    var u, i, j := p.up.up, [Item(p.a, p.k)], [Item(p.up.a, p.up.k)];
    if p.InL? && p.up.InL? {
      Regroup(i, Inorder(p.r), j, Inorder(p.up.r), After(u));
    }
    if p.InR? && p.up.InR? {
      Regroup(Before(u), Inorder(p.up.l), j, Inorder(p.l), i);
    }
  }

  /** Once the parent is black or absent, blackening the root restores the invariant. */
  lemma InsertDone(p: Path, t: Tree)
    requires InsertFocus(p, t) && (p.Top? || !p.red)
    ensures var s := Plug(p, t);
      && s.Node? && IsBlack(Black(s)) && Balanced(Black(s))
      && Inorder(Black(s)) == Before(p) + Inorder(t) + After(p)
      && Root(s) in Addrs(t) + PathAddrs(p)
      && Addrs(Black(s)) == Addrs(t) + PathAddrs(p)
  {
    BalancedPlug(p, t);
    InorderPlug(p, t);
    AddrsPlug(p, t);
  }

  /** A red parent is not the root, so there is a grandparent with the parent on one side. */
  lemma RedHasParent(h: Memory, root: Ptr, p: Path, t: Tree)
    requires Zip(h, root, p, t) && InsertFocus(p, t) && !p.Top? && p.red
    ensures !p.up.Top? && h[p.a].parent == p.up.a && p.up.a in h
    ensures h[p.up.a].L == p.a <==> p.up.InL?
    ensures p.up.InR? ==> h[p.up.a].R == p.a
  {
    assert HoldsPath(h, root, p.up, p.a);
    assert p.up.InR? ==> p.up.l.Nil? || p.up.l.a in Addrs(p.up.l);
  }

  /** A new leaf in the right place of a red-black tree is a legitimate focus. */
  lemma LeafFocus(p: Path, n: Ptr, key: nat, red: bool)
    requires RedBlack(Plug(p, Nil)) && (red || p.Top?)
    ensures var leaf := Node(Nil, n, key, red, Nil);
      InsertFocus(p, leaf) && Addrs(leaf) == {n} && Inorder(leaf) == [Item(n, key)]
  {
    BalancedUnplug(p, Nil);
  }

  lemma LeafSorted(p: Path, n: Ptr, key: nat)
    requires RedBlack(Plug(p, Nil))
    requires KeysBelow(Before(p), key) && KeysAbove(After(p), key)
    ensures Sorted(Before(p) + [Item(n, key)] + After(p))
  {
    PlugNil(p);
    SortedInsert(Before(p), Item(n, key), After(p));
  }

  lemma PlugNil(p: Path)
    ensures Inorder(Plug(p, Nil)) == Before(p) + After(p)
  {
    InorderPlug(p, Nil);
    assert Before(p) + [] == Before(p);
  }
}
