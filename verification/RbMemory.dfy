/** The pointer side of kernel/lib/rb_tree.c: how a tree value lies in memory. */
module RbMemory {
  import opened RbShape

  /** One `rb_node`.  `parent` and `red` are the two halves of `parent_and_color`. */
  datatype Rec = Rec(key: nat, parent: Ptr, red: bool, L: Ptr, R: Ptr)

  type Memory = map<Ptr, Rec>

  /** Memory holds exactly the subtree `t`, hanging below `parent`. */
  predicate Holds(h: Memory, t: Tree, parent: Ptr) {
    t.Node? ==>
      && t.a != NULL && t.a in h
      && h[t.a] == Rec(t.k, parent, t.red, Root(t.l), Root(t.r))
      && Holds(h, t.l, t.a) && Holds(h, t.r, t.a)
  }

  /** Memory holds the context `p`, whose hole contains the pointer `hole`. */
  predicate HoldsPath(h: Memory, root: Ptr, p: Path, hole: Ptr) {
    match p
    case Top => root == hole
    case InL(up, a, k, red, r) =>
      && a != NULL && a in h
      && h[a] == Rec(k, Above(up), red, hole, Root(r))
      && Holds(h, r, a) && HoldsPath(h, root, up, a)
    case InR(up, l, a, k, red) =>
      && a != NULL && a in h
      && h[a] == Rec(k, Above(up), red, Root(l), hole)
      && Holds(h, l, a) && HoldsPath(h, root, up, a)
  }

  /** Memory holds the tree `Plug(p, t)`, seen from the focus `t`. */
  predicate Zip(h: Memory, root: Ptr, p: Path, t: Tree) {
    && Holds(h, t, Above(p)) && HoldsPath(h, root, p, Root(t))
    && Distinct(t) && PathDistinct(p) && Addrs(t) !! PathAddrs(p)
  }

  /** `h'` differs from `h` at most at the addresses `s`, and there only outside the key. */
  predicate ChangedOnly(h: Memory, h': Memory, s: set<Ptr>) {
    && h.Keys == h'.Keys
    && (forall x :: x in h && x !in s ==> h'[x] == h[x])
    && (forall x :: x in h ==> h'[x].key == h[x].key)
  }

  // ------------------------------------------------------------------ framing

  /** The address of the focus itself, and of the node just above the hole. */
  function At(t: Tree): (s: set<Ptr>)
    ensures s <= Addrs(t)
  {
    if t.Nil? then {} else {t.a}
  }

  function Over(p: Path): (s: set<Ptr>)
    ensures s <= PathAddrs(p)
  {
    if p.Top? then {} else {p.a}
  }

  predicate SameOn(h: Memory, h': Memory, s: set<Ptr>) {
    forall x :: x in s && x in h ==> x in h' && h'[x] == h[x]
  }

  lemma {:induction false} HoldsFrame(h: Memory, h': Memory, t: Tree, parent: Ptr)
    requires Holds(h, t, parent) && SameOn(h, h', Addrs(t))
    ensures Holds(h', t, parent)
  {
    if t.Node? {
      HoldsFrame(h, h', t.l, t.a);
      HoldsFrame(h, h', t.r, t.a);
    }
  }

  lemma {:induction false} HoldsPathFrame(h: Memory, h': Memory, root: Ptr, p: Path, hole: Ptr)
    requires HoldsPath(h, root, p, hole) && SameOn(h, h', PathAddrs(p))
    ensures HoldsPath(h', root, p, hole)
    decreases p
  {
    match p
    case Top =>
    case InL(up, a, _, _, r) => HoldsFrame(h, h', r, a); HoldsPathFrame(h, h', root, up, a);
    case InR(up, l, a, _, _) => HoldsFrame(h, h', l, a); HoldsPathFrame(h, h', root, up, a);
  }

  /** `h'` is `h` with the root of `t` given the parent `q`. */
  lemma Reparent(h: Memory, h': Memory, t: Tree, parent: Ptr, q: Ptr)
    requires Holds(h, t, parent) && Distinct(t)
    requires t.Node? ==> t.a in h' && h'[t.a] == h[t.a].(parent := q)
    requires SameOn(h, h', Addrs(t) - At(t))
    ensures Holds(h', t, q)
  {
    if t.Node? {
      HoldsFrame(h, h', t.l, t.a);
      HoldsFrame(h, h', t.r, t.a);
    }
  }

  /** The hole of a context is pointed elsewhere: the C idiom
      `if (parent) { if (node == parent->L) ... else ... } else tree->root = ...`. */
  lemma Redirect(h: Memory, h': Memory, root: Ptr, root': Ptr, p: Path, hole: Ptr, hole': Ptr)
    requires HoldsPath(h, root, p, hole) && PathDistinct(p)
    requires p.Top? ==> root' == hole'
    requires !p.Top? ==> root' == root && p.a in h'
    requires p.InL? ==> h'[p.a] == h[p.a].(L := hole')
    requires p.InR? ==> h'[p.a] == h[p.a].(R := hole')
    requires SameOn(h, h', PathAddrs(p) - Over(p))
    ensures HoldsPath(h', root', p, hole')
  {
    match p
    case Top =>
    case InL(up, a, _, _, r) => HoldsFrame(h, h', r, a); HoldsPathFrame(h, h', root, up, a);
    case InR(up, l, a, _, _) => HoldsFrame(h, h', l, a); HoldsPathFrame(h, h', root, up, a);
  }

  // ------------------------------------------------------- moving the focus

  /** The subtree one step up from the focus. */
  function Join(p: Path, t: Tree): Tree
    requires !p.Top?
  {
    if p.InL? then Node(t, p.a, p.k, p.red, p.r) else Node(p.l, p.a, p.k, p.red, t)
  }

  function LeftOf(p: Path, t: Tree): Path
    requires t.Node?
  {
    InL(p, t.a, t.k, t.red, t.r)
  }

  function RightOf(p: Path, t: Tree): Path
    requires t.Node?
  {
    InR(p, t.l, t.a, t.k, t.red)
  }

  lemma ZipUp(h: Memory, root: Ptr, p: Path, t: Tree)
    requires Zip(h, root, p, t) && !p.Top?
    ensures Zip(h, root, p.up, Join(p, t))
  {
  }

  lemma ZipDown(h: Memory, root: Ptr, p: Path, t: Tree)
    requires Zip(h, root, p, t) && t.Node?
    ensures Zip(h, root, LeftOf(p, t), t.l) && Zip(h, root, RightOf(p, t), t.r)
  {
  }

  lemma {:induction false} ZipToPlug(h: Memory, root: Ptr, p: Path, t: Tree)
    requires Zip(h, root, p, t)
    ensures Zip(h, root, Top, Plug(p, t))
    decreases p
  {
    match p
    case Top =>
    case InL(up, a, k, red, r) => ZipToPlug(h, root, up, Node(t, a, k, red, r));
    case InR(up, l, a, k, red) => ZipToPlug(h, root, up, Node(l, a, k, red, t));
  }

  lemma {:induction false} PlugToZip(h: Memory, root: Ptr, p: Path, t: Tree)
    requires Zip(h, root, Top, Plug(p, t))
    ensures Zip(h, root, p, t)
    decreases p
  {
    match p
    case Top =>
    case InL(up, a, k, red, r) => PlugToZip(h, root, up, Node(t, a, k, red, r));
    case InR(up, l, a, k, red) => PlugToZip(h, root, up, Node(l, a, k, red, t));
  }

  /** Every node of the tree can be brought into focus. */
  lemma {:induction false} FindFocus(p: Path, t: Tree, x: Ptr) returns (q: Path, s: Tree)
    requires x in Addrs(t)
    ensures Plug(q, s) == Plug(p, t) && s.Node? && s.a == x
    decreases t
  {
    if x == t.a {
      q, s := p, t;
    } else if x in Addrs(t.l) {
      q, s := FindFocus(InL(p, t.a, t.k, t.red, t.r), t.l, x);
    } else {
      q, s := FindFocus(InR(p, t.l, t.a, t.k, t.red), t.r, x);
    }
  }
}
