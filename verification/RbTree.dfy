/** kernel/lib/rb_tree.c: search, insertion, removal and replacement on linked nodes. */
module RbTree {
  import opened RbShape
  import opened RbMemory
  import opened RbInsertShape
  import opened RbRemoveShape
  import opened RbRotate
  import opened RbTransplant

  class RbTree {
    var root: Ptr
    var nodes: Memory
    ghost var shape: Tree

    /** The tree is a red-black search tree and the pointers describe exactly that tree. */
    ghost predicate Valid()
      reads this
    {
      Zip(nodes, root, Top, shape) && RedBlack(shape)
    }

    /** The nodes in key order. */
    ghost function Items(): seq<Item>
      reads this
    {
      Inorder(shape)
    }

    constructor ()
      ensures Valid() && shape == Nil && root == NULL && nodes == map[]
    {
      root, nodes, shape := NULL, map[], Nil;
    }

    // ----------------------------------------------------------------- search

    method Search(key: nat) returns (x: Ptr)
      requires Valid()
      ensures x == NULL <==> !HasKey(Items(), key)
      ensures x != NULL ==> Item(x, key) in Items() && x in nodes && nodes[x].key == key
    {
      x := root;
      ghost var p, t := Top, shape;
      while x != NULL
        invariant Zip(nodes, root, p, t) && Plug(p, t) == shape && x == Root(t)
        invariant KeysBelow(Before(p), key) && KeysAbove(After(p), key)
        decreases t
      {
        FocusAt(p, t);
        if nodes[x].key == key {
          return;
        }
        InorderPlug(p, t);
        Descend(p, t, key);
        if key < nodes[x].key {
          x, p, t := nodes[x].L, LeftOf(p, t), t.l;
        } else {
          x, p, t := nodes[x].R, RightOf(p, t), t.r;
        }
      }
      PlugNil(p);
    }

    /** `BLACK(x)`, `RED(x)`, `SET_COLOR(x, c)` */
    method SetColor(x: Ptr, c: bool, ghost p: Path, ghost t: Tree)
      requires Zip(nodes, root, p, t) && t.Node? && t.a == x
      modifies this`nodes
      ensures Zip(nodes, root, p, t.(red := c))
      ensures ChangedOnly(old(nodes), nodes, {x})
    {
      RecolorCorrect(nodes, root, p, t, c);
      nodes := nodes[x := nodes[x].(red := c)];
    }

    /** Recolouring a child of the focus. */
    method SetColorBelow(x: Ptr, c: bool, ghost left: bool, ghost p: Path, ghost t: Tree)
      requires Zip(nodes, root, p, t) && t.Node?
      requires x == Root(if left then t.l else t.r) != NULL
      modifies this`nodes
      ensures Zip(nodes, root, p, RecolorBelow(t, left, c))
      ensures ChangedOnly(old(nodes), nodes, {x})
    {
      ZipDown(nodes, root, p, t);
      ghost var t' := RecolorBelow(t, left, c);
      if left {
        RecolorCorrect(nodes, root, LeftOf(p, t), t.l, c);
      } else {
        RecolorCorrect(nodes, root, RightOf(p, t), t.r, c);
      }
      nodes := nodes[x := nodes[x].(red := c)];
      if left {
        ZipUp(nodes, root, LeftOf(p, t), t'.l);
      } else {
        ZipUp(nodes, root, RightOf(p, t), t'.r);
      }
    }

    /** `if (x) SET_PARENT(x, q)` */
    method SetParent(x: Ptr, q: Ptr)
      requires x != NULL ==> x in nodes
      modifies this`nodes
      ensures nodes == Adopt(old(nodes), x, q)
    {
      if x != NULL {
        nodes := nodes[x := nodes[x].(parent := q)];
      }
    }

    /** Put `x` where `node` hangs below `parent`, or make it the root. */
    method SetChild(parent: Ptr, node: Ptr, x: Ptr)
      requires parent != NULL ==> parent in nodes
      modifies this`root, this`nodes
      ensures nodes == LinkChild(old(nodes), parent, node, x)
      ensures root == LinkRoot(old(root), parent, x)
    {
      if parent != NULL {
        if node == nodes[parent].L {
          nodes := nodes[parent := nodes[parent].(L := x)];
        } else {
          nodes := nodes[parent := nodes[parent].(R := x)];
        }
      } else {
        root := x;
      }
    }

    method RotateLeft(node: Ptr, ghost p: Path, ghost t: Tree)
      requires Zip(nodes, root, p, t) && t.Node? && t.a == node && t.r.Node?
      modifies this`root, this`nodes
      ensures Zip(nodes, root, p, RotL(t))
      ensures ChangedOnly(old(nodes), nodes, Addrs(t) + PathAddrs(p))
    {
      ZipApart(nodes, root, p, t);
      RotateLeftCorrect(nodes, root, p, t);
      RotateLeftFrame(nodes, root, p, t);
      var right := nodes[node].R;
      var parent := nodes[node].parent;
      nodes := nodes[node := nodes[node].(R := nodes[right].L)];
      SetParent(nodes[right].L, node);
      nodes := nodes[right := nodes[right].(L := node)];
      SetParent(right, parent);
      SetChild(parent, node, right);
      SetParent(node, right);
    }

    method RotateRight(node: Ptr, ghost p: Path, ghost t: Tree)
      requires Zip(nodes, root, p, t) && t.Node? && t.a == node && t.l.Node?
      modifies this`root, this`nodes
      ensures Zip(nodes, root, p, RotR(t))
      ensures ChangedOnly(old(nodes), nodes, Addrs(t) + PathAddrs(p))
    {
      ZipApart(nodes, root, p, t);
      RotateRightCorrect(nodes, root, p, t);
      RotateRightFrame(nodes, root, p, t);
      var left := nodes[node].L;
      var parent := nodes[node].parent;
      nodes := nodes[node := nodes[node].(L := nodes[left].R)];
      SetParent(nodes[left].R, node);
      nodes := nodes[left := nodes[left].(R := node)];
      SetParent(left, parent);
      SetChild(parent, node, left);
      SetParent(node, left);
    }

    /** rb_succ: the node with the next larger key, or NULL. */
    method Succ(n: Ptr) returns (x: Ptr)
      requires Valid() && n in Addrs(shape)
      ensures exists i :: 0 <= i < |Items()| && Items()[i].a == n && x == ItemAt(Items(), i + 1)
    {
      ghost var p, t := FindFocus(Top, shape, n);
      PlugToZip(nodes, root, p, t);
      FocusAt(p, t);
      if nodes[n].R != NULL {
        x := SuccBelow(n, p, t);
      } else {
        x := SuccAbove(n, p, t);
      }
    }

    method SuccBelow(n: Ptr, ghost p0: Path, ghost t0: Tree) returns (x: Ptr)
      requires Zip(nodes, root, p0, t0) && Plug(p0, t0) == shape && t0.Node? && n == t0.a && nodes[n].R != NULL
      ensures x == ItemAt(Items(), |Before(p0)| + |Inorder(t0.l)| + 1)
    {
      ZipDown(nodes, root, p0, t0);
      x := nodes[n].R;
      ghost var p, t := RightOf(p0, t0), t0.r;
      while nodes[x].L != NULL
        invariant Zip(nodes, root, p, t) && Plug(p, t) == shape && t.Node? && x == t.a
        invariant |Before(p)| == |Before(p0)| + |Inorder(t0.l)| + 1
        decreases t
      {
        ZipDown(nodes, root, p, t);
        x := nodes[x].L;
        p, t := LeftOf(p, t), t.l;
      }
      assert Holds(nodes, t.l, t.a);
      FocusAt(p, t);
    }

    method SuccAbove(n0: Ptr, ghost p0: Path, ghost t0: Tree) returns (x: Ptr)
      requires Zip(nodes, root, p0, t0) && Plug(p0, t0) == shape && t0.Node? && n0 == t0.a && nodes[n0].R == NULL
      ensures x == ItemAt(Items(), |Before(p0)| + |Inorder(t0.l)| + 1)
    {
      var n := n0;
      x := nodes[n].parent;
      assert Holds(nodes, t0.r, t0.a);
      ghost var p, t := p0, t0;
      while x != NULL && n == nodes[x].R
        invariant Zip(nodes, root, p, t) && Plug(p, t) == shape && t.Node? && n == t.a && x == Above(p)
        invariant |Before(p)| + |Inorder(t)| == |Before(p0)| + |Inorder(t0.l)| + 1
        decreases p
      {
        ChildSide(nodes, root, p, t);
        ZipUp(nodes, root, p, t);
        n, x := x, nodes[x].parent;
        p, t := p.up, Join(p, t);
      }
      if !p.Top? { ChildSide(nodes, root, p, t); }
      ParentAt(p, t);
    }

    /** rb_pred: the node with the next smaller key, or NULL. */
    method Pred(n: Ptr) returns (x: Ptr)
      requires Valid() && n in Addrs(shape)
      ensures exists i :: 0 <= i < |Items()| && Items()[i].a == n && x == ItemAt(Items(), i - 1)
    {
      ghost var p, t := FindFocus(Top, shape, n);
      PlugToZip(nodes, root, p, t);
      FocusAt(p, t);
      if nodes[n].L != NULL {
        x := PredBelow(n, p, t);
      } else {
        x := PredAbove(n, p, t);
      }
    }

    method PredBelow(n: Ptr, ghost p0: Path, ghost t0: Tree) returns (x: Ptr)
      requires Zip(nodes, root, p0, t0) && Plug(p0, t0) == shape && t0.Node? && n == t0.a && nodes[n].L != NULL
      ensures x == ItemAt(Items(), |Before(p0)| + |Inorder(t0.l)| - 1)
    {
      ZipDown(nodes, root, p0, t0);
      x := nodes[n].L;
      ghost var p, t := LeftOf(p0, t0), t0.l;
      while nodes[x].R != NULL
        invariant Zip(nodes, root, p, t) && Plug(p, t) == shape && t.Node? && x == t.a
        invariant |Before(p)| + |Inorder(t)| == |Before(p0)| + |Inorder(t0.l)|
        decreases t
      {
        ZipDown(nodes, root, p, t);
        x := nodes[x].R;
        p, t := RightOf(p, t), t.r;
      }
      assert Holds(nodes, t.r, t.a);
      FocusAt(p, t);
    }

    method PredAbove(n0: Ptr, ghost p0: Path, ghost t0: Tree) returns (x: Ptr)
      requires Zip(nodes, root, p0, t0) && Plug(p0, t0) == shape && t0.Node? && n0 == t0.a && nodes[n0].L == NULL
      ensures x == ItemAt(Items(), |Before(p0)| + |Inorder(t0.l)| - 1)
    {
      var n := n0;
      x := nodes[n].parent;
      assert Holds(nodes, t0.l, t0.a);
      ghost var p, t := p0, t0;
      while x != NULL && n == nodes[x].L
        invariant Zip(nodes, root, p, t) && Plug(p, t) == shape && t.Node? && n == t.a && x == Above(p)
        invariant |Before(p)| == |Before(p0)| + |Inorder(t0.l)|
        decreases p
      {
        ChildSide(nodes, root, p, t);
        ZipUp(nodes, root, p, t);
        n, x := x, nodes[x].parent;
        p, t := p.up, Join(p, t);
      }
      if !p.Top? { ChildSide(nodes, root, p, t); }
      ParentAt(p, t);
    }

    // -------------------------------------------------------------- insertion

    /** Uncle and parent black, grandparent red. */
    method RecolorStep(parent: Ptr, uncle: Ptr, gparent: Ptr, ghost p: Path, ghost t: Tree)
      requires Zip(nodes, root, p, t) && !p.Top? && !p.up.Top?
      requires parent == p.a && gparent == p.up.a && uncle != NULL
      requires uncle == Root(if p.up.InL? then p.up.r else p.up.l)
      modifies this`nodes
      ensures Zip(nodes, root, p.up.up, Recolored(Join(p.up, Join(p, t))))
      ensures ChangedOnly(old(nodes), nodes, Addrs(t) + PathAddrs(p))
    {
      ghost var g := Join(p.up, Join(p, t));
      ZipUp(nodes, root, p, t);
      ZipUp(nodes, root, p.up, Join(p, t));
      SetColorBelow(uncle, false, !p.up.InL?, p.up.up, g);
      ghost var g1 := RecolorBelow(g, !p.up.InL?, false);
      SetColorBelow(parent, false, p.up.InL?, p.up.up, g1);
      SetColor(gparent, true, p.up.up, RecolorBelow(g1, p.up.InL?, false));
      assert At(g.l) + At(g.r) + At(g) <= Addrs(t) + PathAddrs(p) by { RecolorSameNodes(p, t); }
    }

    /** The straight case on the left: colour swap and a rotation of the grandparent. */
    method InsertRotateRight(parent: Ptr, gparent: Ptr, ghost p: Path, ghost t: Tree)
      requires Zip(nodes, root, p, t) && p.InL? && p.up.InL? && parent == p.a && gparent == p.up.a
      modifies this`root, this`nodes
      ensures Zip(nodes, root, InL(p.up.up, p.a, p.k, false, Node(p.r, p.up.a, p.up.k, true, p.up.r)), t)
      ensures ChangedOnly(old(nodes), nodes, Addrs(t) + PathAddrs(p))
    {
      ghost var s := Join(p, t);
      ghost var g := Join(p.up, s);
      ZipUp(nodes, root, p, t);
      ZipUp(nodes, root, p.up, s);
      SetColorBelow(parent, false, true, p.up.up, g);
      SetColor(gparent, true, p.up.up, RecolorBelow(g, true, false));
      ghost var g' := RecolorBelow(g, true, false).(red := true);
      RotateRight(gparent, p.up.up, g');
      ZipDown(nodes, root, p.up.up, RotR(g'));
    }

    method InsertRotateLeft(parent: Ptr, gparent: Ptr, ghost p: Path, ghost t: Tree)
      requires Zip(nodes, root, p, t) && p.InR? && p.up.InR? && parent == p.a && gparent == p.up.a
      modifies this`root, this`nodes
      ensures Zip(nodes, root, InR(p.up.up, Node(p.up.l, p.up.a, p.up.k, true, p.l), p.a, p.k, false), t)
      ensures ChangedOnly(old(nodes), nodes, Addrs(t) + PathAddrs(p))
    {
      ghost var s := Join(p, t);
      ghost var g := Join(p.up, s);
      ZipUp(nodes, root, p, t);
      ZipUp(nodes, root, p.up, s);
      SetColorBelow(parent, false, false, p.up.up, g);
      SetColor(gparent, true, p.up.up, RecolorBelow(g, false, false));
      ghost var g' := RecolorBelow(g, false, false).(red := true);
      RotateLeft(gparent, p.up.up, g');
      ZipDown(nodes, root, p.up.up, RotL(g'));
    }

    /** One turn of the loop when the parent is a left child; the new focus is returned. */
    method InsertFixupLeft(node: Ptr, parent: Ptr, gparent: Ptr, ghost p: Path, ghost t: Tree)
      returns (node': Ptr, ghost p': Path, ghost t': Tree)
      requires Zip(nodes, root, p, t) && InsertFocus(p, t) && !p.Top? && p.red
      requires node == t.a && parent == p.a && p.up.InL? && gparent == p.up.a
      modifies this`root, this`nodes
      ensures Zip(nodes, root, p', t') && InsertFocus(p', t') && node' == t'.a
      ensures SameNodes(p, t, p', t') && PathLen(p') < PathLen(p)
      ensures ChangedOnly(old(nodes), nodes, Addrs(t) + PathAddrs(p))
    {
      ZipUp(nodes, root, p, t);
      ZipApart(nodes, root, p, t);
      var uncle := nodes[gparent].R;
      if uncle != NULL && nodes[uncle].red {
        InsertRecolor(p, t);
        RecolorSameNodes(p, t);
        RecolorStep(parent, uncle, gparent, p, t);
        node', p', t' := gparent, p.up.up, Recolored(Join(p.up, Join(p, t)));
        return;
      }
      node', p', t' := node, p, t;
      var parent' := parent;
      if nodes[parent].R == node {
        RotateLeft(parent, p.up, Join(p, t));
        JoinSameNodes(p, t);
        RotationSameNodes(p.up, Join(p, t));
        InsertInnerLeft(p, t);
        node', parent' := parent, node;
        p', t' := InL(p.up, t.a, t.k, t.red, t.r), Node(p.l, p.a, p.k, p.red, t.l);
        ZipDown(nodes, root, p.up, RotL(Join(p, t)));
        JoinSameNodes(p', t');
      }
      InsertOuterLeft(p', t');
      OuterSameNodes(p', t');
      InsertRotateRight(parent', gparent, p', t');
      p' := InL(p'.up.up, p'.a, p'.k, false, Node(p'.r, p'.up.a, p'.up.k, true, p'.up.r));
    }

    /** One turn of the loop when the parent is a right child; the new focus is returned. */
    method InsertFixupRight(node: Ptr, parent: Ptr, gparent: Ptr, ghost p: Path, ghost t: Tree)
      returns (node': Ptr, ghost p': Path, ghost t': Tree)
      requires Zip(nodes, root, p, t) && InsertFocus(p, t) && !p.Top? && p.red
      requires node == t.a && parent == p.a && p.up.InR? && gparent == p.up.a
      modifies this`root, this`nodes
      ensures Zip(nodes, root, p', t') && InsertFocus(p', t') && node' == t'.a
      ensures SameNodes(p, t, p', t') && PathLen(p') < PathLen(p)
      ensures ChangedOnly(old(nodes), nodes, Addrs(t) + PathAddrs(p))
    {
      ZipUp(nodes, root, p, t);
      ZipApart(nodes, root, p, t);
      var uncle := nodes[gparent].L;
      if uncle != NULL && nodes[uncle].red {
        InsertRecolor(p, t);
        RecolorSameNodes(p, t);
        RecolorStep(parent, uncle, gparent, p, t);
        node', p', t' := gparent, p.up.up, Recolored(Join(p.up, Join(p, t)));
        return;
      }
      node', p', t' := node, p, t;
      var parent' := parent;
      if nodes[parent].L == node {
        RotateRight(parent, p.up, Join(p, t));
        JoinSameNodes(p, t);
        RotationSameNodes(p.up, Join(p, t));
        InsertInnerRight(p, t);
        node', parent' := parent, node;
        p', t' := InR(p.up, t.l, t.a, t.k, t.red), Node(t.r, p.a, p.k, p.red, p.r);
        ZipDown(nodes, root, p.up, RotR(Join(p, t)));
        JoinSameNodes(p', t');
      }
      InsertOuterRight(p', t');
      OuterSameNodes(p', t');
      InsertRotateLeft(parent', gparent, p', t');
      p' := InR(p'.up.up, Node(p'.up.l, p'.up.a, p'.up.k, true, p'.l), p'.a, p'.k, false);
    }

    method InsertLoop(n: Ptr, ghost p0: Path, ghost t0: Tree) returns (ghost p: Path, ghost t: Tree)
      requires Zip(nodes, root, p0, t0) && InsertFocus(p0, t0) && n == t0.a
      modifies this`root, this`nodes
      ensures Zip(nodes, root, p, t) && InsertFocus(p, t) && (p.Top? || !p.red)
      ensures SameNodes(p0, t0, p, t)
      ensures ChangedOnly(old(nodes), nodes, Addrs(t0) + PathAddrs(p0))
    {
      var node := n;
      p, t := p0, t0;
      var parent := nodes[node].parent;
      while parent != NULL && nodes[parent].red
        invariant Zip(nodes, root, p, t) && InsertFocus(p, t) && node == t.a && parent == Above(p)
        invariant SameNodes(p0, t0, p, t)
        invariant ChangedOnly(old(nodes), nodes, Addrs(t0) + PathAddrs(p0))
        decreases PathLen(p)
      {
        var gparent := nodes[parent].parent;
        RedHasParent(nodes, root, p, t);
        if parent == nodes[gparent].L {
          node, p, t := InsertFixupLeft(node, parent, gparent, p, t);
        } else {
          // the third branch of the source, kpanic, cannot be reached
          assert parent == nodes[gparent].R;
          node, p, t := InsertFixupRight(node, parent, gparent, p, t);
        }
        parent := nodes[node].parent;
      }
    }

    method InsertFixup(n: Ptr, ghost p0: Path, ghost t0: Tree)
      requires Zip(nodes, root, p0, t0) && InsertFocus(p0, t0) && n == t0.a
      modifies this
      ensures Zip(nodes, root, Top, shape) && IsBlack(shape) && Balanced(shape)
      ensures Inorder(shape) == Before(p0) + Inorder(t0) + After(p0)
      ensures Addrs(shape) == Addrs(t0) + PathAddrs(p0)
      ensures ChangedOnly(old(nodes), nodes, Addrs(t0) + PathAddrs(p0))
    {
      ghost var p, t := InsertLoop(n, p0, t0);
      InsertDone(p, t);
      ZipToPlug(nodes, root, p, t);
      SetColor(root, false, Top, Plug(p, t));
      shape := Black(Plug(p, t));
    }

    /** The descent of rb_insert: the node already holding the key, or the empty place for it. */
    method FindPlace(key: nat) returns (existed: Ptr, y: Ptr, ghost p: Path)
      requires Zip(nodes, root, Top, shape) && RedBlack(shape)
      ensures existed != NULL ==> Item(existed, key) in Items()
      ensures existed == NULL <==> !HasKey(Items(), key)
      ensures existed == NULL ==> Plug(p, Nil) == shape && Zip(nodes, root, p, Nil) && y == Above(p)
      ensures existed == NULL ==> KeysBelow(Before(p), key) && KeysAbove(After(p), key)
      ensures existed == NULL && p.InL? ==> key < p.k
      ensures existed == NULL && p.InR? ==> key > p.k
    {
      y := NULL;
      var x := root;
      p := Top;
      ghost var t := shape;
      while x != NULL
        invariant Zip(nodes, root, p, t) && Plug(p, t) == shape && x == Root(t) && y == Above(p)
        invariant KeysBelow(Before(p), key) && KeysAbove(After(p), key)
        invariant (p.InL? ==> key < p.k) && (p.InR? ==> key > p.k)
        decreases t
      {
        y := x;
        FocusAt(p, t);
        if key == nodes[x].key {
          return x, y, p;
        }
        InorderPlug(p, t);
        Descend(p, t, key);
        if key < nodes[x].key {
          x, p, t := nodes[x].L, LeftOf(p, t), t.l;
        } else {
          x, p, t := nodes[x].R, RightOf(p, t), t.r;
        }
      }
      existed := NULL;
      PlugNil(p);
    }

    /** Link a detached node into the hole of `p` and rebalance. */
    method LinkNew(n: Ptr, y: Ptr, ghost p: Path)
      requires Zip(nodes, root, p, Nil) && RedBlack(Plug(p, Nil)) && !p.Top? && y == p.a
      requires n != NULL && n in nodes && n !in PathAddrs(p)
      requires nodes[n].L == NULL && nodes[n].R == NULL
      requires KeysBelow(Before(p), nodes[n].key) && KeysAbove(After(p), nodes[n].key)
      requires p.InL? <==> nodes[n].key < p.k
      requires p.InR? <==> nodes[n].key > p.k
      modifies this
      ensures Valid()
      ensures Items() == Before(p) + [Item(n, old(nodes[n].key))] + After(p)
      ensures Addrs(shape) == PathAddrs(p) + {n}
      ensures ChangedOnly(old(nodes), nodes, PathAddrs(p) + {n})
    {
      ghost var x := Item(n, nodes[n].key);
      assert y != n && y in nodes;
      SetParent(n, y);
      if nodes[n].key > nodes[y].key {
        nodes := nodes[y := nodes[y].(R := n)];
      } else {
        nodes := nodes[y := nodes[y].(L := n)];
      }
      nodes := nodes[n := nodes[n].(red := true)];
      LeafZip(old(nodes), nodes, root, p, n, x.k);
      LeafFocus(p, n, x.k, true);
      LeafSorted(p, n, x.k);
      InsertFixup(n, p, Node(Nil, n, x.k, true, Nil));
    }

    /** `n->L = n->R = NULL; SET_PARENT(n, NULL)` on a node outside the tree. */
    method Detach(n: Ptr)
      requires Valid() && n != NULL && n in nodes && n !in Addrs(shape)
      modifies this`nodes
      ensures Valid()
      ensures nodes == old(nodes)[n := old(nodes)[n].(L := NULL, R := NULL, parent := NULL)]
    {
      nodes := nodes[n := nodes[n].(L := NULL, R := NULL)];
      SetParent(n, NULL);
      HoldsFrame(old(nodes), nodes, shape, NULL);
    }

    /** The first node of an empty tree. */
    method PlantRoot(n: Ptr)
      requires n != NULL && n in nodes && nodes[n].L == NULL && nodes[n].R == NULL && nodes[n].parent == NULL
      modifies this
      ensures Valid()
      ensures Items() == [Item(n, old(nodes[n].key))] && Addrs(shape) == {n}
      ensures ChangedOnly(old(nodes), nodes, {n})
    {
      nodes := nodes[n := nodes[n].(red := false)];
      root := n;
      LeafFocus(Top, n, nodes[n].key, false);
      InsertFixup(n, Top, Node(Nil, n, nodes[n].key, false, Nil));
      assert Items() == [Item(n, old(nodes[n].key))];
    }

    /** rb_insert: the key of `n` is already set; the node that holds that key is returned, if any. */
    method Insert(n: Ptr) returns (existed: Ptr)
      requires Valid() && n != NULL && n in nodes && n !in Addrs(shape)
      modifies this
      ensures Valid()
      ensures existed == NULL <==> !HasKey(old(Items()), old(nodes[n].key))
      ensures existed == NULL ==> Inserted(old(Items()), Item(n, old(nodes[n].key)), Items())
      ensures existed == NULL ==> Addrs(shape) == old(Addrs(shape)) + {n}
      ensures existed == NULL ==> ChangedOnly(old(nodes), nodes, old(Addrs(shape)) + {n})
      ensures existed != NULL ==> Item(existed, old(nodes[n].key)) in Items()
      ensures existed != NULL ==> shape == old(shape) && root == old(root)
      ensures existed != NULL ==> nodes == old(nodes)[n := old(nodes[n]).(L := NULL, R := NULL, parent := NULL)]
    {
      var key := nodes[n].key;
      Detach(n);
      if root == NULL {
        PlantRoot(n);
        InsertedBetween([], Item(n, key), []);
        existed := NULL;
      } else {
        var y;
        ghost var p;
        existed, y, p := FindPlace(key);
        if existed == NULL {
          PlugNil(p);
          AddrsPlug(p, Nil);
          LinkNew(n, y, p);
          InsertedBetween(Before(p), Item(n, key), After(p));
        }
      }
    }

    // ---------------------------------------------------------------- removal

    /** A red sibling on the right: recolour and rotate it above the parent. */
    method RemoveRotateRedLeft(parent: Ptr, other: Ptr, ghost p: Path, ghost t: Tree)
      requires Zip(nodes, root, p, t) && p.InL? && parent == p.a && other == Root(p.r) != NULL
      modifies this`root, this`nodes
      ensures Zip(nodes, root, RedSiblingLeft(p), t)
      ensures ChangedOnly(old(nodes), nodes, Addrs(t) + PathAddrs(p))
    {
      ghost var s := Join(p, t);
      ZipUp(nodes, root, p, t);
      SetColorBelow(other, false, false, p.up, s);
      SetColor(parent, true, p.up, RecolorBelow(s, false, false));
      ghost var s' := RecolorBelow(s, false, false).(red := true);
      RotateLeft(parent, p.up, s');
      ZipDown(nodes, root, p.up, RotL(s'));
      ZipDown(nodes, root, LeftOf(p.up, RotL(s')), RotL(s').l);
    }

    /** A red sibling on the left: recolour and rotate it above the parent. */
    method RemoveRotateRedRight(parent: Ptr, other: Ptr, ghost p: Path, ghost t: Tree)
      requires Zip(nodes, root, p, t) && p.InR? && parent == p.a && other == Root(p.l) != NULL
      modifies this`root, this`nodes
      ensures Zip(nodes, root, RedSiblingRight(p), t)
      ensures ChangedOnly(old(nodes), nodes, Addrs(t) + PathAddrs(p))
    {
      ghost var s := Join(p, t);
      ZipUp(nodes, root, p, t);
      SetColorBelow(other, false, true, p.up, s);
      SetColor(parent, true, p.up, RecolorBelow(s, true, false));
      ghost var s' := RecolorBelow(s, true, false).(red := true);
      RotateRight(parent, p.up, s');
      ZipDown(nodes, root, p.up, RotR(s'));
      ZipDown(nodes, root, RightOf(p.up, RotR(s')), RotR(s').r);
    }

    /** The inner child of the sibling is red: rotate it to the outside. */
    method RemoveRotateInnerLeft(other: Ptr, inner: Ptr, ghost p: Path, ghost t: Tree)
      requires Zip(nodes, root, p, t) && p.InL? && p.r.Node? && other == p.r.a
      requires inner == Root(p.r.l) != NULL
      modifies this`root, this`nodes
      ensures Zip(nodes, root, InnerLeft(p), t)
      ensures ChangedOnly(old(nodes), nodes, Addrs(t) + PathAddrs(p))
    {
      ghost var s, o := Join(p, t), p.r;
      ZipUp(nodes, root, p, t);
      ZipDown(nodes, root, p.up, s);
      ghost var q := RightOf(p.up, s);
      SetColorBelow(inner, false, true, q, o);
      SetColor(other, true, q, RecolorBelow(o, true, false));
      ghost var o' := RecolorBelow(o, true, false).(red := true);
      RotateRight(other, q, o');
      ZipUp(nodes, root, q, RotR(o'));
      ZipDown(nodes, root, p.up, Join(q, RotR(o')));
    }

    /** The outer child of the sibling is red: the last rotation. */
    method RemoveRotateOuterLeft(parent: Ptr, other: Ptr, outer: Ptr, ghost p: Path, ghost t: Tree)
      requires Zip(nodes, root, p, t) && p.InL? && p.r.Node? && parent == p.a && other == p.r.a
      requires outer == Root(p.r.r) != NULL
      modifies this`root, this`nodes
      ensures Zip(nodes, root, p.up, OuterLeft(p, t))
      ensures ChangedOnly(old(nodes), nodes, Addrs(t) + PathAddrs(p))
    {
      ghost var s, o := Join(p, t), p.r;
      ZipUp(nodes, root, p, t);
      SetColorBelow(other, nodes[parent].red, false, p.up, s);
      ghost var s1 := RecolorBelow(s, false, s.red);
      SetColor(parent, false, p.up, s1);
      ghost var s2 := s1.(red := false);
      ZipDown(nodes, root, p.up, s2);
      ghost var q := RightOf(p.up, s2);
      SetColorBelow(outer, false, false, q, s2.r);
      ZipUp(nodes, root, q, RecolorBelow(s2.r, false, false));
      RotateLeft(parent, p.up, Join(q, RecolorBelow(s2.r, false, false)));
    }

    /** The inner child of the sibling is red: rotate it to the outside. */
    method RemoveRotateInnerRight(other: Ptr, inner: Ptr, ghost p: Path, ghost t: Tree)
      requires Zip(nodes, root, p, t) && p.InR? && p.l.Node? && other == p.l.a
      requires inner == Root(p.l.r) != NULL
      modifies this`root, this`nodes
      ensures Zip(nodes, root, InnerRight(p), t)
      ensures ChangedOnly(old(nodes), nodes, Addrs(t) + PathAddrs(p))
    {
      ghost var s, o := Join(p, t), p.l;
      ZipUp(nodes, root, p, t);
      ZipDown(nodes, root, p.up, s);
      ghost var q := LeftOf(p.up, s);
      SetColorBelow(inner, false, false, q, o);
      SetColor(other, true, q, RecolorBelow(o, false, false));
      ghost var o' := RecolorBelow(o, false, false).(red := true);
      RotateLeft(other, q, o');
      ZipUp(nodes, root, q, RotL(o'));
      ZipDown(nodes, root, p.up, Join(q, RotL(o')));
    }

    /** The outer child of the sibling is red: the last rotation. */
    method RemoveRotateOuterRight(parent: Ptr, other: Ptr, outer: Ptr, ghost p: Path, ghost t: Tree)
      requires Zip(nodes, root, p, t) && p.InR? && p.l.Node? && parent == p.a && other == p.l.a
      requires outer == Root(p.l.l) != NULL
      modifies this`root, this`nodes
      ensures Zip(nodes, root, p.up, OuterRight(p, t))
      ensures ChangedOnly(old(nodes), nodes, Addrs(t) + PathAddrs(p))
    {
      ghost var s, o := Join(p, t), p.l;
      ZipUp(nodes, root, p, t);
      SetColorBelow(other, nodes[parent].red, true, p.up, s);
      ghost var s1 := RecolorBelow(s, true, s.red);
      SetColor(parent, false, p.up, s1);
      ghost var s2 := s1.(red := false);
      ZipDown(nodes, root, p.up, s2);
      ghost var q := LeftOf(p.up, s2);
      SetColorBelow(outer, false, true, q, s2.l);
      ZipUp(nodes, root, q, RecolorBelow(s2.l, true, false));
      RotateRight(parent, p.up, Join(q, RecolorBelow(s2.l, true, false)));
    }

    /** The sibling is black and has a red child: after a rotation if need be, the outer one is red. */
    method RemoveInnerLeftStep(parent: Ptr, other0: Ptr, ghost p: Path, ghost t: Tree)
      returns (other: Ptr, ghost p': Path)
      requires Zip(nodes, root, p, t) && RemoveFocus(p, t) && IsBlack(t) && p.InL? && parent == p.a
      requires p.r.Node? && IsBlack(p.r) && other0 == p.r.a && !(IsBlack(p.r.l) && IsBlack(p.r.r))
      modifies this`root, this`nodes
      ensures Zip(nodes, root, p', t) && RemoveFocus(p', t) && p'.InL? && p'.up == p.up && p'.a == p.a
      ensures p'.r.Node? && IsBlack(p'.r) && other == p'.r.a && !IsBlack(p'.r.r)
      ensures SameNodes(p, t, p', t) && ChangedOnly(old(nodes), nodes, Addrs(t) + PathAddrs(p))
    {
      other, p' := other0, p;
      SiblingInMemory(nodes, root, p, t);
      if nodes[other].R == NULL || !nodes[nodes[other].R].red {
        RemoveRotateInnerLeft(other, nodes[other].L, p, t);
        RemoveInnerLeft(p, t);
        InnerSameNodes(p, t);
        p' := InnerLeft(p);
        SiblingInMemory(nodes, root, p', t);
        other := nodes[parent].R;
      }
    }

    /** And the second rotation ends the fixup. */
    method RemoveFinishLeft(parent: Ptr, other0: Ptr, ghost p: Path, ghost t: Tree)
      requires Zip(nodes, root, p, t) && RemoveFocus(p, t) && IsBlack(t) && p.InL? && parent == p.a
      requires p.r.Node? && IsBlack(p.r) && other0 == p.r.a && !(IsBlack(p.r.l) && IsBlack(p.r.r))
      modifies this`root, this`nodes
      ensures exists t' :: Zip(nodes, root, p.up, t') && SameNodes(p, t, p.up, t') && RemoveSettled(p.up, t')
      ensures ChangedOnly(old(nodes), nodes, Addrs(t) + PathAddrs(p))
    {
      hide Zip, RemoveFocus;
      var other;
      ghost var p';
      other, p' := RemoveInnerLeftStep(parent, other0, p, t);
      RemoveOuterLeft(p', t);
      OuterSame(p', t);
      SiblingInMemory(nodes, root, p', t);
      RemoveRotateOuterLeft(parent, other, nodes[other].R, p', t);
    }

    /** One turn of the loop when the short subtree is a left child.  `done` is the source's `break`. */
    method RemoveFixupLeft(parent: Ptr, ghost p: Path, ghost t: Tree)
      returns (done: bool, node': Ptr, ghost p': Path, ghost t': Tree)
      requires Zip(nodes, root, p, t) && RemoveFocus(p, t) && IsBlack(t) && p.InL? && parent == p.a
      modifies this`root, this`nodes
      ensures Zip(nodes, root, p', t') && SameNodes(p, t, p', t')
      ensures ChangedOnly(old(nodes), nodes, Addrs(t) + PathAddrs(p))
      ensures done ==> RemoveSettled(p', t')
      ensures !done ==> RemoveFocus(p', t') && node' == Root(t') != NULL && Shortage(p', t') < Shortage(p, t)
    {
      p', t', done, node' := p, t, false, NULL;
      SiblingExists(p, t);
      SiblingInMemory(nodes, root, p, t);
      var other := nodes[parent].R;
      if nodes[other].red {
        RemoveRotateRedLeft(parent, other, p, t);
        RemoveRedSiblingLeft(p, t);
        RedSiblingSameNodes(p, t);
        p' := RedSiblingLeft(p);
        SiblingExists(p', t);
        SiblingInMemory(nodes, root, p', t);
        other := nodes[parent].R;
      }
      if (nodes[other].L == NULL || !nodes[nodes[other].L].red) &&
        (nodes[other].R == NULL || !nodes[nodes[other].R].red) {
        ZipUp(nodes, root, p', t);
        SetColorBelow(other, true, false, p'.up, Join(p', t));
        RemoveRecolor(p', t);
        RecolorSame(p', t);
        node', t', p' := parent, Join(WithSibling(p', Sibling(p').(red := true)), t), p'.up;
      } else {
        RemoveFinishLeft(parent, other, p', t);
        t' :| Zip(nodes, root, p'.up, t') && SameNodes(p', t, p'.up, t') && RemoveSettled(p'.up, t');
        p', done := p'.up, true;
      }
    }

    /** The sibling is black and has a red child: after a rotation if need be, the outer one is red. */
    method RemoveInnerRightStep(parent: Ptr, other0: Ptr, ghost p: Path, ghost t: Tree)
      returns (other: Ptr, ghost p': Path)
      requires Zip(nodes, root, p, t) && RemoveFocus(p, t) && IsBlack(t) && p.InR? && parent == p.a
      requires p.l.Node? && IsBlack(p.l) && other0 == p.l.a && !(IsBlack(p.l.l) && IsBlack(p.l.r))
      modifies this`root, this`nodes
      ensures Zip(nodes, root, p', t) && RemoveFocus(p', t) && p'.InR? && p'.up == p.up && p'.a == p.a
      ensures p'.l.Node? && IsBlack(p'.l) && other == p'.l.a && !IsBlack(p'.l.l)
      ensures SameNodes(p, t, p', t) && ChangedOnly(old(nodes), nodes, Addrs(t) + PathAddrs(p))
    {
      other, p' := other0, p;
      SiblingInMemory(nodes, root, p, t);
      if nodes[other].L == NULL || !nodes[nodes[other].L].red {
        RemoveRotateInnerRight(other, nodes[other].R, p, t);
        RemoveInnerRight(p, t);
        InnerSameNodes(p, t);
        p' := InnerRight(p);
        SiblingInMemory(nodes, root, p', t);
        other := nodes[parent].L;
      }
    }

    /** And the second rotation ends the fixup. */
    method RemoveFinishRight(parent: Ptr, other0: Ptr, ghost p: Path, ghost t: Tree)
      requires Zip(nodes, root, p, t) && RemoveFocus(p, t) && IsBlack(t) && p.InR? && parent == p.a
      requires p.l.Node? && IsBlack(p.l) && other0 == p.l.a && !(IsBlack(p.l.l) && IsBlack(p.l.r))
      modifies this`root, this`nodes
      ensures exists t' :: Zip(nodes, root, p.up, t') && SameNodes(p, t, p.up, t') && RemoveSettled(p.up, t')
      ensures ChangedOnly(old(nodes), nodes, Addrs(t) + PathAddrs(p))
    {
      hide Zip, RemoveFocus;
      var other;
      ghost var p';
      other, p' := RemoveInnerRightStep(parent, other0, p, t);
      RemoveOuterRight(p', t);
      OuterSame(p', t);
      SiblingInMemory(nodes, root, p', t);
      RemoveRotateOuterRight(parent, other, nodes[other].L, p', t);
    }

    /** One turn of the loop when the short subtree is a right child.  `done` is the source's `break`. */
    method RemoveFixupRight(parent: Ptr, ghost p: Path, ghost t: Tree)
      returns (done: bool, node': Ptr, ghost p': Path, ghost t': Tree)
      requires Zip(nodes, root, p, t) && RemoveFocus(p, t) && IsBlack(t) && p.InR? && parent == p.a
      modifies this`root, this`nodes
      ensures Zip(nodes, root, p', t') && SameNodes(p, t, p', t')
      ensures ChangedOnly(old(nodes), nodes, Addrs(t) + PathAddrs(p))
      ensures done ==> RemoveSettled(p', t')
      ensures !done ==> RemoveFocus(p', t') && node' == Root(t') != NULL && Shortage(p', t') < Shortage(p, t)
    {
      p', t', done, node' := p, t, false, NULL;
      SiblingExists(p, t);
      SiblingInMemory(nodes, root, p, t);
      var other := nodes[parent].L;
      if nodes[other].red {
        RemoveRotateRedRight(parent, other, p, t);
        RemoveRedSiblingRight(p, t);
        RedSiblingSameNodes(p, t);
        p' := RedSiblingRight(p);
        SiblingExists(p', t);
        SiblingInMemory(nodes, root, p', t);
        other := nodes[parent].L;
      }
      if (nodes[other].L == NULL || !nodes[nodes[other].L].red) &&
        (nodes[other].R == NULL || !nodes[nodes[other].R].red) {
        ZipUp(nodes, root, p', t);
        SetColorBelow(other, true, true, p'.up, Join(p', t));
        RemoveRecolor(p', t);
        RecolorSame(p', t);
        node', t', p' := parent, Join(WithSibling(p', Sibling(p').(red := true)), t), p'.up;
      } else {
        RemoveFinishRight(parent, other, p', t);
        t' :| Zip(nodes, root, p'.up, t') && SameNodes(p', t, p'.up, t') && RemoveSettled(p'.up, t');
        p', done := p'.up, true;
      }
    }

    method RemoveFixup(node0: Ptr, parent0: Ptr, ghost p0: Path, ghost t0: Tree)
      requires Zip(nodes, root, p0, t0) && RemoveFocus(p0, t0)
      requires node0 == Root(t0) && parent0 == Above(p0)
      modifies this
      ensures Zip(nodes, root, Top, shape) && IsBlack(shape) && Balanced(shape)
      ensures Inorder(shape) == Before(p0) + Inorder(t0) + After(p0)
      ensures Addrs(shape) == Addrs(t0) + PathAddrs(p0)
      ensures ChangedOnly(old(nodes), nodes, Addrs(t0) + PathAddrs(p0))
    {
      var node, parent := node0, parent0;
      ghost var p, t, settled := p0, t0, false;
      RootOnlyAtTop(nodes, root, p, t);
      while (node == NULL || !nodes[node].red) && node != root
        invariant Zip(nodes, root, p, t) && SameNodes(p0, t0, p, t)
        invariant ChangedOnly(old(nodes), nodes, Addrs(t0) + PathAddrs(p0))
        invariant !settled && RemoveFocus(p, t) && node == Root(t) && parent == Above(p)
        invariant node == root <==> p.Top?
        decreases Shortage(p, t)
      {
        ParentSide(nodes, root, p, t);
        var done;
        if nodes[parent].L == node {
          done, node, p, t := RemoveFixupLeft(parent, p, t);
        } else {
          done, node, p, t := RemoveFixupRight(parent, p, t);
        }
        if done {
          node := root;
          settled := true;
          break;
        }
        parent := nodes[node].parent;
        RootOnlyAtTop(nodes, root, p, t);
      }
      RemoveEnd(node, settled, p, t);
    }

    /** `if (node) BLACK(node)` after the loop. */
    method RemoveEnd(node: Ptr, ghost settled: bool, ghost p: Path, ghost t: Tree)
      requires Zip(nodes, root, p, t)
      requires settled ==> RemoveSettled(p, t) && node == root
      requires !settled ==> RemoveFocus(p, t) && node == Root(t) && (p.Top? || !IsBlack(t))
      modifies this
      ensures Zip(nodes, root, Top, shape) && IsBlack(shape) && Balanced(shape)
      ensures Inorder(shape) == Before(p) + Inorder(t) + After(p)
      ensures Addrs(shape) == Addrs(t) + PathAddrs(p)
      ensures ChangedOnly(old(nodes), nodes, Addrs(t) + PathAddrs(p))
    {
      shape := Plug(p, Black(t));
      RemoveDone(p, t, settled);
      if settled {
        shape := Plug(p, t);
        ZipToPlug(nodes, root, p, t);
      }
      if node != NULL {
        SetColor(node, false, if settled then Top else p, if settled then shape else t);
      }
      if !settled {
        ZipToPlug(nodes, root, p, Black(t));
      }
    }

    /** Removal of a node with at most one child, up to the colour fixup. */
    method Bypass(node: Ptr, child: Ptr, ghost p: Path, ghost t: Tree, ghost c: Tree)
      requires Zip(nodes, root, p, t) && t.Node? && node == t.a && child == Root(c)
      requires (t.l.Nil? && c == t.r) || (t.r.Nil? && c == t.l)
      modifies this`root, this`nodes
      ensures Zip(nodes, root, p, c)
      ensures ChangedOnly(old(nodes), nodes, Addrs(c) + PathAddrs(p))
    {
      BypassCorrect(nodes, root, p, t, c);
      Surroundings(nodes, root, p, t);
      var parent := nodes[node].parent;
      SetParent(child, parent);
      SetChild(parent, node, child);
    }

    /** The leftmost node of the right subtree of the focus. */
    method FindSuccessor(old': Ptr, ghost p: Path, ghost t: Tree) returns (node: Ptr, ghost q: Path, ghost sn: Tree)
      requires Zip(nodes, root, p, t) && t.Node? && t.l.Node? && t.r.Node? && old' == t.a
      ensures Successor(t, q, sn) && node == sn.a
    {
      ZipDown(nodes, root, p, t);
      node := nodes[old'].R;
      q, sn := Top, t.r;
      while nodes[node].L != NULL
        invariant SpineLeft(q) && t.r == Plug(q, sn) && sn.Node? && node == sn.a
        invariant Zip(nodes, root, Append(q, RightOf(p, t)), sn)
        decreases sn
      {
        ZipDown(nodes, root, Append(q, RightOf(p, t)), sn);
        node := nodes[node].L;
        q, sn := LeftOf(q, sn), sn.l;
      }
      assert Holds(nodes, sn.l, sn.a);
    }

    /** The pointer writes of rb_remove for a node with two children, in source order. */
    method MoveSuccessor(o: Ptr, node: Ptr) returns (child: Ptr, parent: Ptr, red: bool)
      requires o in nodes && node in nodes && nodes[node].parent in nodes
      requires TransplantApart(nodes, o, node, nodes[o].L, nodes[o].R, nodes[o].parent, nodes[node].parent,
        nodes[node].R)
      modifies this`root, this`nodes
      ensures nodes == TransplantMem(old(nodes), o, node) && root == LinkRoot(old(root), old(nodes[o].parent), node)
      ensures child == old(nodes[node].R) && red == old(nodes[node].red)
      ensures parent == if old(nodes[node].parent) == o then node else old(nodes[node].parent)
    {
      SetChild(nodes[o].parent, o, node);
      child, parent, red := nodes[node].R, nodes[node].parent, nodes[node].red;
      if parent == o {
        parent := node;
      } else {
        SetParent(child, parent);
        nodes := nodes[parent := nodes[parent].(L := child)];
        nodes := nodes[node := nodes[node].(R := nodes[o].R)];
        SetParent(nodes[o].R, node);
      }
      nodes := nodes[node := nodes[node].(parent := nodes[o].parent, red := nodes[o].red)];
      nodes := nodes[node := nodes[node].(L := nodes[o].L)];
      SetParent(nodes[o].L, node);
    }

    /** The successor `node` moves into the place of `o`; the hole it leaves is returned. */
    method Transplant(o: Ptr, node: Ptr, ghost p: Path, ghost t: Tree, ghost q: Path, ghost sn: Tree)
      returns (child: Ptr, parent: Ptr, red: bool)
      requires Zip(nodes, root, p, t) && Successor(t, q, sn) && o == t.a && node == sn.a
      modifies this`root, this`nodes
      ensures Zip(nodes, root, Append(q, InR(p, t.l, sn.a, sn.k, t.red)), sn.r)
      ensures child == Root(sn.r) && parent == Above(Append(q, InR(p, t.l, sn.a, sn.k, t.red))) && red == sn.red
      ensures ChangedOnly(old(nodes), nodes, Addrs(t) + PathAddrs(p))
    {
      SuccessorApart(nodes, root, p, t, q, sn);
      SuccessorZip(nodes, root, p, t, q, sn);
      TransplantCorrect(nodes, root, p, t, q, sn);
      TransplantFrame(nodes, root, p, t, q, sn);
      child, parent, red := MoveSuccessor(o, node);
      ghost var t' := t.(a := sn.a, k := sn.k, r := Plug(q, sn.r));
      ZipDown(nodes, root, p, t');
      ZipUnappend(nodes, root, q, RightOf(p, t'), sn.r);
      AboveAppend(q, RightOf(p, t'));
    }

    /** `if (color == RB_BLACK) rb_remove_fixup(tree, child, parent)` */
    method FinishRemove(child: Ptr, parent: Ptr, red: bool, ghost p: Path, ghost c: Tree)
      requires Zip(nodes, root, p, c) && child == Root(c) && parent == Above(p)
      requires !red ==> RemoveFocus(p, c)
      requires red ==> Balanced(Plug(p, c)) && IsBlack(Plug(p, c))
      modifies this
      ensures Zip(nodes, root, Top, shape) && IsBlack(shape) && Balanced(shape)
      ensures Inorder(shape) == Before(p) + Inorder(c) + After(p) && Addrs(shape) == Addrs(c) + PathAddrs(p)
      ensures ChangedOnly(old(nodes), nodes, Addrs(c) + PathAddrs(p))
    {
      if !red {
        RemoveFixup(child, parent, p, c);
      } else {
        ZipToPlug(nodes, root, p, c);
        InorderPlug(p, c);
        AddrsPlug(p, c);
        shape := Plug(p, c);
      }
    }

    /** A node with at most one child. */
    method RemoveThin(node: Ptr, child: Ptr, ghost p: Path, ghost t: Tree, ghost c: Tree)
      requires Valid() && Plug(p, t) == shape && t.Node? && node == t.a && OnlyChild(t, c) && child == Root(c)
      modifies this
      ensures Valid()
      ensures Inserted(Items(), Item(node, t.k), old(Items()))
      ensures Addrs(shape) == old(Addrs(shape)) - {node}
      ensures ChangedOnly(old(nodes), nodes, old(Addrs(shape)))
    {
      hide Zip, Balanced, PathBalanced, Sorted, Inserted, Holds;
      PlugToZip(nodes, root, p, t);
      AddrsPlug(p, t);
      BalancedUnplug(p, t);
      RemoveReady(p, t, c);
      BypassRemoves(p, t, c);
      Surroundings(nodes, root, p, t);
      ThinAddrs(nodes, root, p, t, c);
      var parent, red := nodes[node].parent, nodes[node].red;
      Bypass(node, child, p, t, c);
      FinishRemove(child, parent, red, p, c);
      SortedRemove(Items(), Item(node, t.k), old(Items()));
    }

    /** A node with two children. */
    method RemoveThick(o: Ptr, ghost p: Path, ghost t: Tree)
      requires Valid() && Plug(p, t) == shape && t.Node? && o == t.a && t.l.Node? && t.r.Node?
      modifies this
      ensures Valid()
      ensures Inserted(Items(), Item(o, t.k), old(Items()))
      ensures Addrs(shape) == old(Addrs(shape)) - {o}
      ensures ChangedOnly(old(nodes), nodes, old(Addrs(shape)))
    {
      PlugToZip(nodes, root, p, t);
      AddrsPlug(p, t);
      var node;
      ghost var q, sn;
      node, q, sn := FindSuccessor(o, p, t);
      TransplantReady(p, t, q, sn);
      TransplantRemoves(p, t, q, sn);
      ghost var p' := Append(q, InR(p, t.l, sn.a, sn.k, t.red));
      TransplantAddrs(nodes, root, p, t, q, sn);
      var child, parent, red := Transplant(o, node, p, t, q, sn);
      FinishRemove(child, parent, red, p', sn.r);
      SortedRemove(Items(), Item(o, t.k), old(Items()));
    }

    /** rb_remove: any node of the tree. */
    method Remove(node: Ptr)
      requires Valid() && node in Addrs(shape) && node in nodes
      modifies this
      ensures Valid()
      ensures Inserted(Items(), Item(node, old(nodes[node].key)), old(Items()))
      ensures Addrs(shape) == old(Addrs(shape)) - {node}
      ensures ChangedOnly(old(nodes), nodes, old(Addrs(shape)))
    {
      ghost var p, t := FindFocus(Top, shape, node);
      PlugToZip(nodes, root, p, t);
      Surroundings(nodes, root, p, t);
      if nodes[node].L == NULL {
        RemoveThin(node, nodes[node].R, p, t, t.r);
      } else if nodes[node].R == NULL {
        RemoveThin(node, nodes[node].L, p, t, t.l);
      } else {
        RemoveThick(node, p, t);
      }
    }

    /** The pointer writes of rb_replace, in source order. */
    method ReplaceLinks(o: Ptr, n: Ptr)
      requires o in nodes && n in nodes && o != NULL && n != NULL
      requires nodes[o].L != NULL ==> nodes[o].L in nodes
      requires nodes[o].R != NULL ==> nodes[o].R in nodes
      requires nodes[o].parent != NULL ==> nodes[o].parent in nodes
      modifies this`root, this`nodes
      ensures nodes == ReplaceMem(old(nodes), o, n) && root == LinkRoot(old(root), old(nodes[o].parent), n)
    {
      var l, r, parent, red := nodes[o].L, nodes[o].R, nodes[o].parent, nodes[o].red;
      if l != NULL {
        nodes := nodes[n := nodes[n].(L := l)];
        SetParent(l, n);
      }
      if r != NULL {
        nodes := nodes[n := nodes[n].(R := r)];
        SetParent(r, n);
      }
      SetChild(parent, o, n);
      SetParent(n, parent);
      nodes := nodes[n := nodes[n].(red := red)];
    }

    /** rb_replace: a node outside the tree, with the same key and null children, takes the place of `o`. */
    method Replace(o: Ptr, n: Ptr)
      requires Valid() && o in Addrs(shape) && o in nodes && n != NULL && n in nodes && n !in Addrs(shape)
      requires nodes[n].key == nodes[o].key && nodes[n].L == NULL && nodes[n].R == NULL
      modifies this
      ensures Valid()
      ensures Swapped(old(Items()), o, n, Items())
      ensures Addrs(shape) == old(Addrs(shape)) - {o} + {n}
      ensures ChangedOnly(old(nodes), nodes, old(Addrs(shape)) + {n})
    {
      hide Zip, Balanced, Sorted, Swapped, Holds;
      ghost var p, t := FindFocus(Top, shape, o);
      PlugToZip(nodes, root, p, t);
      AddrsPlug(p, t);
      Surroundings(nodes, root, p, t);
      ReplaceCorrect(nodes, root, p, t, n);
      ReplaceFrame(nodes, root, p, t, n);
      ReplaceShape(p, t, n);
      SwappedAddrs(nodes, root, p, t, n);
      ReplaceLinks(o, n);
      shape := Plug(p, t.(a := n));
      ZipToPlug(nodes, root, p, t.(a := n));
      AddrsPlug(p, t.(a := n));
    }
  }
}
