/** What the removal fixup of kernel/lib/rb_tree.c does to the tree as a value. */
module RbRemoveShape {
  import opened RbShape
  import opened RbMemory
  import opened RbInsertShape

  /** The focus is one black node short of what its context expects; blackening a red focus
      would make up for it. */
  predicate RemoveFocus(p: Path, t: Tree) {
    Balanced(Black(t)) && PathBalanced(p, BlackHeight(t) + 1, false)
  }

  function Sibling(p: Path): Tree
    requires !p.Top?
  {
    if p.InL? then p.r else p.l
  }

  function WithSibling(p: Path, s: Tree): Path
    requires !p.Top?
  {
    if p.InL? then p.(r := s) else p.(l := s)
  }

  /** The sibling of a short focus exists. */
  lemma SiblingExists(p: Path, t: Tree)
    requires RemoveFocus(p, t) && !p.Top?
    ensures Sibling(p).Node? && Balanced(Sibling(p)) && BlackHeight(Sibling(p)) == BlackHeight(t) + 1
    ensures IsBlack(Sibling(p)) ==> BlackHeight(Sibling(p).l) == BlackHeight(Sibling(p).r) == BlackHeight(t)
  {
  }

  /** A red sibling is rotated above the parent, leaving a black one beside the focus. */
  function RedSiblingLeft(p: Path): Path
    requires p.InL? && p.r.Node?
  {
    InL(InL(p.up, p.r.a, p.r.k, false, p.r.r), p.a, p.k, true, p.r.l)
  }

  function RedSiblingRight(p: Path): Path
    requires p.InR? && p.l.Node?
  {
    InR(InR(p.up, p.l.l, p.l.a, p.l.k, false), p.l.r, p.a, p.k, true)
  }

  lemma RemoveRedSiblingLeft(p: Path, t: Tree)
    requires RemoveFocus(p, t) && p.InL? && p.r.Node? && p.r.red
    ensures RemoveFocus(RedSiblingLeft(p), t) && IsBlack(p.r.l)
  {
    assert Balanced(p.r.l) && Balanced(p.r.r);
  }

  lemma RemoveRedSiblingRight(p: Path, t: Tree)
    requires RemoveFocus(p, t) && p.InR? && p.l.Node? && p.l.red
    ensures RemoveFocus(RedSiblingRight(p), t) && IsBlack(p.l.r)
  {
    assert Balanced(p.l.l) && Balanced(p.l.r);
  }

  /** A black sibling with black children turns red, and the shortage moves up. */
  lemma RemoveRecolor(p: Path, t: Tree)
    requires RemoveFocus(p, t) && IsBlack(t) && !p.Top? && Sibling(p).Node? && IsBlack(Sibling(p))
    requires IsBlack(Sibling(p).l) && IsBlack(Sibling(p).r)
    ensures RemoveFocus(p.up, Join(WithSibling(p, Sibling(p).(red := true)), t))
  {
    var s := Sibling(p).(red := true);
    assert Balanced(s) && BlackHeight(s) == BlackHeight(t);
    PathWeaken(p.up, BlackHeight(t) + 1 + (if p.red then 0 else 1), p.red);
  }

  lemma PathWeaken(p: Path, h: nat, redHole: bool)
    requires PathBalanced(p, h, redHole)
    ensures PathBalanced(p, h, false)
  {
  }

  /** A black sibling whose outer child is black is rotated so that the outer child is red. */
  function InnerLeft(p: Path): Path
    requires p.InL? && p.r.Node? && p.r.l.Node?
  {
    var o := p.r;
    p.(r := Node(o.l.l, o.l.a, o.l.k, false, Node(o.l.r, o.a, o.k, true, o.r)))
  }

  function InnerRight(p: Path): Path
    requires p.InR? && p.l.Node? && p.l.r.Node?
  {
    var o := p.l;
    p.(l := Node(Node(o.l, o.a, o.k, true, o.r.l), o.r.a, o.r.k, false, o.r.r))
  }

  lemma RemoveInnerLeft(p: Path, t: Tree)
    requires RemoveFocus(p, t) && p.InL? && p.r.Node? && IsBlack(p.r) && IsBlack(p.r.r) && !IsBlack(p.r.l)
    ensures RemoveFocus(InnerLeft(p), t)
  {
    assert Balanced(p.r.l) && Balanced(p.r.r);
    var o := InnerLeft(p).r;
    assert Balanced(o.l) && Balanced(o.r) && BlackHeight(o.r) == BlackHeight(o.l) == BlackHeight(t);
  }

  lemma RemoveInnerRight(p: Path, t: Tree)
    requires RemoveFocus(p, t) && p.InR? && p.l.Node? && IsBlack(p.l) && IsBlack(p.l.l) && !IsBlack(p.l.r)
    ensures RemoveFocus(InnerRight(p), t)
  {
    assert Balanced(p.l.l) && Balanced(p.l.r);
    var o := InnerRight(p).l;
    assert Balanced(o.l) && Balanced(o.r) && BlackHeight(o.r) == BlackHeight(o.l) == BlackHeight(t);
  }

  /** A black sibling with a red outer child: one rotation makes up for the missing black. */
  function OuterLeft(p: Path, t: Tree): Tree
    requires p.InL? && p.r.Node?
  {
    Node(Node(t, p.a, p.k, false, p.r.l), p.r.a, p.r.k, p.red, Black(p.r.r))
  }

  function OuterRight(p: Path, t: Tree): Tree
    requires p.InR? && p.l.Node?
  {
    Node(Black(p.l.l), p.l.a, p.l.k, p.red, Node(p.l.r, p.a, p.k, false, t))
  }

  lemma RemoveOuterLeft(p: Path, t: Tree)
    requires RemoveFocus(p, t) && IsBlack(t) && p.InL? && p.r.Node? && IsBlack(p.r) && !IsBlack(p.r.r)
    ensures Balanced(OuterLeft(p, t)) && (p.up.Top? ==> !p.red)
    ensures PathBalanced(p.up, BlackHeight(OuterLeft(p, t)), p.red)
  {
    assert Balanced(p.r.l) && Balanced(p.r.r) && Balanced(Black(p.r.r));
  }

  lemma RemoveOuterRight(p: Path, t: Tree)
    requires RemoveFocus(p, t) && IsBlack(t) && p.InR? && p.l.Node? && IsBlack(p.l) && !IsBlack(p.l.l)
    ensures Balanced(OuterRight(p, t)) && (p.up.Top? ==> !p.red)
    ensures PathBalanced(p.up, BlackHeight(OuterRight(p, t)), p.red)
  {
    assert Balanced(p.l.l) && Balanced(p.l.r) && Balanced(Black(p.l.l));
  }

  // --------------------------------------------------- none of this moves a key

  lemma RedSiblingSameNodes(p: Path, t: Tree)
    requires !p.Top? && Sibling(p).Node?
    ensures SameNodes(p, t, if p.InL? then RedSiblingLeft(p) else RedSiblingRight(p), t)
  {
    var u, o, i, j := p.up, Sibling(p), [Item(p.a, p.k)], [Item(Sibling(p).a, Sibling(p).k)];
    if p.InL? {
      Regroup(i, Inorder(o.l), j, Inorder(o.r), After(u));
    } else {
      Regroup(Before(u), Inorder(o.l), j, Inorder(o.r), i);
    }
  }

  lemma SiblingSameNodes(p: Path, t: Tree, s: Tree)
    requires !p.Top? && Inorder(s) == Inorder(Sibling(p)) && Addrs(s) == Addrs(Sibling(p))
    ensures SameNodes(p, t, WithSibling(p, s), t)
  {
  }

  lemma InnerSameNodes(p: Path, t: Tree)
    requires !p.Top? && Sibling(p).Node?
    ensures p.InL? && p.r.l.Node? ==> SameNodes(p, t, InnerLeft(p), t)
    ensures p.InR? && p.l.r.Node? ==> SameNodes(p, t, InnerRight(p), t)
  {
    var o := Sibling(p);
    if p.InL? && o.l.Node? {
      var s := InnerLeft(p).r;
      assert Inorder(s) == Inorder(o) && Addrs(s) == Addrs(o);
      SiblingSameNodes(p, t, s);
    }
    if p.InR? && o.r.Node? {
      var s := InnerRight(p).l;
      assert Inorder(s) == Inorder(o) && Addrs(s) == Addrs(o);
      SiblingSameNodes(p, t, s);
    }
  }

  lemma OuterSame(p: Path, t: Tree)
    requires !p.Top? && Sibling(p).Node?
    ensures SameNodes(p, t, p.up, if p.InL? then OuterLeft(p, t) else OuterRight(p, t))
  {
    JoinSameNodes(p, t);
    var o, s := Sibling(p), Join(p, t);
    var s' := if p.InL? then OuterLeft(p, t) else OuterRight(p, t);
    assert Inorder(Black(o.l)) == Inorder(o.l) && Inorder(Black(o.r)) == Inorder(o.r);
    assert Addrs(Black(o.l)) == Addrs(o.l) && Addrs(Black(o.r)) == Addrs(o.r);
    assert Inorder(s') == Inorder(s);
    assert Addrs(s') == Addrs(s);
  }

  lemma RecolorSame(p: Path, t: Tree)
    requires !p.Top? && Sibling(p).Node?
    ensures SameNodes(p, t, p.up, Join(WithSibling(p, Sibling(p).(red := true)), t))
  {
    var s := Sibling(p).(red := true);
    assert Inorder(s) == Inorder(Sibling(p)) && Addrs(s) == Addrs(Sibling(p));
    SiblingSameNodes(p, t, s);
    JoinSameNodes(WithSibling(p, s), t);
  }

  // ------------------------------------------------------------- the fixup loop

  /** Nothing is missing any more. */
  predicate RemoveSettled(p: Path, t: Tree) {
    && t.Node? && Balanced(t) && (p.Top? ==> IsBlack(t))
    && PathBalanced(p, BlackHeight(t), !IsBlack(t))
  }

  /** Decreases at every turn: the shortage moves up, or its subtree turns red and ends the loop. */
  function Shortage(p: Path, t: Tree): nat {
    if IsBlack(t) then PathLen(p) + 1 else 0
  }

  /** What the loop reads about the sibling and its children. */
  lemma SiblingInMemory(h: Memory, root: Ptr, p: Path, t: Tree)
    requires Zip(h, root, p, t) && !p.Top? && Sibling(p).Node?
    ensures var o := Sibling(p);
      && o.a in h && p.a in h && (if p.InL? then h[p.a].R else h[p.a].L) == o.a
      && h[o.a].red == o.red && h[o.a].L == Root(o.l) && h[o.a].R == Root(o.r)
      && (o.l.Node? ==> o.l.a != NULL && o.l.a in h && h[o.l.a].red == o.l.red)
      && (o.r.Node? ==> o.r.a != NULL && o.r.a in h && h[o.r.a].red == o.r.red)
  {
    var o := Sibling(p);
    assert Holds(h, o, p.a) && Holds(h, o.l, o.a) && Holds(h, o.r, o.a);
  }

  lemma {:induction false} RootOnlyAtTop(h: Memory, root: Ptr, p: Path, t: Tree)
    requires Zip(h, root, p, t)
    ensures root == Root(t) <==> p.Top?
    ensures !p.Top? ==> root in PathAddrs(p) && root != NULL
    decreases p
  {
    if !p.Top? {
      ZipUp(h, root, p, t);
      RootOnlyAtTop(h, root, p.up, Join(p, t));
    }
  }

  /** The C test `parent->L == node` tells the side even when `node` is NULL. */
  lemma ParentSide(h: Memory, root: Ptr, p: Path, t: Tree)
    requires Zip(h, root, p, t) && RemoveFocus(p, t) && !p.Top?
    ensures p.a in h && (h[p.a].L == Root(t) <==> p.InL?)
  {
    SiblingExists(p, t);
    assert p.InR? ==> p.l.a in Addrs(p.l) && Holds(h, p.l, p.a);
  }

  lemma RemoveDone(p: Path, t: Tree, settled: bool)
    requires settled ==> RemoveSettled(p, t)
    requires !settled ==> RemoveFocus(p, t) && (p.Top? || !IsBlack(t))
    ensures var s := Plug(p, if settled then t else Black(t));
      && IsBlack(s) && Balanced(s)
      && Inorder(s) == Before(p) + Inorder(t) + After(p)
      && Addrs(s) == Addrs(t) + PathAddrs(p)
  {
    var u := if settled then t else Black(t);
    assert Inorder(u) == Inorder(t) && Addrs(u) == Addrs(t);
    BalancedPlug(p, u);
    InorderPlug(p, u);
    AddrsPlug(p, u);
  }

  // ---------------------------------------------------------- starting a removal

  /** `c` is what remains of `s` when its root, which has at most one child, is taken out. */
  predicate OnlyChild(s: Tree, c: Tree) {
    s.Node? && ((s.l.Nil? && c == s.r) || (s.r.Nil? && c == s.l))
  }

  lemma RemoveReady(p: Path, s: Tree, c: Tree)
    requires OnlyChild(s, c) && Balanced(s) && PathBalanced(p, BlackHeight(s), !IsBlack(s))
    requires p.Top? ==> IsBlack(s)
    ensures !s.red ==> RemoveFocus(p, c)
    ensures s.red ==> Balanced(Plug(p, c)) && IsBlack(Plug(p, c))
  {
    if s.red {
      PathWeaken(p, BlackHeight(s), true);
      BalancedPlug(p, c);
    } else {
      assert Balanced(c) && Balanced(Black(c));
    }
  }

  /** Balance does not depend on which node sits in a frame of the path. */
  lemma {:induction false} PathBalancedRename(q: Path, up: Path, l: Tree, red: bool, a: Ptr, k: nat, a': Ptr, k': nat,
    h: nat, rd: bool)
    requires PathBalanced(Append(q, InR(up, l, a, k, red)), h, rd)
    ensures PathBalanced(Append(q, InR(up, l, a', k', red)), h, rd)
    decreases q
  {
    match q
    case Top =>
    case InL(u, _, _, c, _) =>
      AppendTop(u, InR(up, l, a, k, red), InR(up, l, a', k', red));
      PathBalancedRename(u, up, l, red, a, k, a', k', h + (if c then 0 else 1), c);
    case InR(u, _, _, _, c) =>
      AppendTop(u, InR(up, l, a, k, red), InR(up, l, a', k', red));
      PathBalancedRename(u, up, l, red, a, k, a', k', h + (if c then 0 else 1), c);
  }

  lemma AppendTop(q: Path, base: Path, base': Path)
    requires base != Top && base' != Top
    ensures Append(q, base) != Top && Append(q, base') != Top
  {
  }
}
