/** Taking a node out of a linked tree, and putting one node in the place of another:
    the pointer surgery of rb_remove and rb_replace in kernel/lib/rb_tree.c. */
module RbTransplant {
  import opened RbShape
  import opened RbMemory
  import opened RbInsertShape
  import opened RbRemoveShape
  import opened RbRotate

  /** Memory after a node with at most one child, `c`, is bypassed. */
  function BypassMem(h: Memory, n: Ptr, c: Ptr): Memory
    requires n in h
  {
    LinkChild(Adopt(h, c, h[n].parent), h[n].parent, n, c)
  }

  lemma BypassCorrect(h: Memory, root: Ptr, p: Path, t: Tree, c: Tree)
    requires Zip(h, root, p, t) && t.Node?
    requires (t.l.Nil? && c == t.r) || (t.r.Nil? && c == t.l)
    ensures Zip(BypassMem(h, t.a, Root(c)), LinkRoot(root, Above(p), Root(c)), p, c)
    ensures ChangedOnly(h, BypassMem(h, t.a, Root(c)), Addrs(c) + PathAddrs(p))
  {
    var h' := BypassMem(h, t.a, Root(c));
    ZipApart(h, root, p, t);
    assert c.Node? ==> Holds(h, c, t.a);
    assert At(c) <= Addrs(c) && Over(p) <= PathAddrs(p);
    Reparent(h, h', c, t.a, Above(p));
    Redirect(h, h', root, LinkRoot(root, Above(p), Root(c)), p, t.a, Root(c));
  }

  /** `s`, which is not in the tree, takes over the children, parent and colour of the focus. */
  lemma ReplaceZip(h: Memory, h': Memory, root: Ptr, root': Ptr, p: Path, t: Tree, s: Ptr, sk: nat)
    requires Zip(h, root, p, t) && t.Node?
    requires s != NULL && s !in Addrs(t.l) && s !in Addrs(t.r) && s !in PathAddrs(p)
    requires s in h' && h'[s] == Rec(sk, Above(p), t.red, Root(t.l), Root(t.r))
    requires t.l.Node? ==> t.l.a in h && t.l.a in h' && h'[t.l.a] == h[t.l.a].(parent := s)
    requires t.r.Node? ==> t.r.a in h && t.r.a in h' && h'[t.r.a] == h[t.r.a].(parent := s)
    requires Redirected(h, h', root, root', p, s)
    requires SameOn(h, h', Addrs(t.l) - At(t.l)) && SameOn(h, h', Addrs(t.r) - At(t.r))
    requires SameOn(h, h', PathAddrs(p) - Over(p))
    ensures Zip(h', root', p, t.(a := s, k := sk))
  {
    Reparent(h, h', t.l, t.a, s);
    Reparent(h, h', t.r, t.a, s);
    Redirect(h, h', root, root', p, t.a, s);
  }

  /** Memory after rb_replace(tree, o, s). */
  function ReplaceMem(h: Memory, o: Ptr, s: Ptr): Memory
    requires o in h && s in h
  {
    var l, r := h[o].L, h[o].R;
    var h1 := if l != NULL then Adopt(h[s := h[s].(L := l)], l, s) else h;
    var h2 := if r != NULL then Adopt(h1[s := h1[s].(R := r)], r, s) else h1;
    var h3 := Adopt(LinkChild(h2, h[o].parent, o, s), s, h[o].parent);
    h3[s := h3[s].(red := h[o].red)]
  }

  lemma ReplacePointwise(h: Memory, o: Ptr, s: Ptr, l: Ptr, r: Ptr, q: Ptr)
    requires o in h && s in h && o != NULL && s != NULL && o != s
    requires h[o].L == l && h[o].R == r && h[o].parent == q && h[s].L == NULL && h[s].R == NULL
    requires l != NULL ==> l in h && l != o && l != s && l != r && l != q
    requires r != NULL ==> r in h && r != o && r != s && r != q
    requires q != NULL ==> q in h && q != o && q != s
    ensures Replaced(h, ReplaceMem(h, o, s), o, s, l, r, q)
  {
  }

  /** `h'` is `h` with `s` in the place of `o`, whose children are `l` and `r` and parent is `q`. */
  predicate Replaced(h: Memory, h': Memory, o: Ptr, s: Ptr, l: Ptr, r: Ptr, q: Ptr)
    requires o in h && s in h && (l != NULL ==> l in h) && (r != NULL ==> r in h) && (q != NULL ==> q in h)
  {
    && h'.Keys == h.Keys && h'[s] == Rec(h[s].key, q, h[o].red, l, r)
    && (l != NULL ==> h'[l] == h[l].(parent := s))
    && (r != NULL ==> h'[r] == h[r].(parent := s))
    && (q != NULL ==> h'[q] == if h[q].L == o then h[q].(L := s) else h[q].(R := s))
    && SameBut(h, h', {o, s} + Opt(l) + Opt(r) + Opt(q)) && h'[o].key == h[o].key
  }

  function Opt(x: Ptr): set<Ptr> {
    if x == NULL then {} else {x}
  }

  predicate SameBut(h: Memory, h': Memory, s: set<Ptr>) {
    forall x :: x in h && x in h' && x !in s ==> h'[x] == h[x]
  }

  lemma ReplacedChanged(h: Memory, h': Memory, o: Ptr, s: Ptr, l: Ptr, r: Ptr, q: Ptr, u: set<Ptr>)
    requires o in h && s in h && (l != NULL ==> l in h) && (r != NULL ==> r in h) && (q != NULL ==> q in h)
    requires Replaced(h, h', o, s, l, r, q)
    requires o in u && s in u && (l != NULL ==> l in u) && (r != NULL ==> r in u) && (q != NULL ==> q in u)
    ensures ChangedOnly(h, h', u)
  {
  }

  lemma SameButOn(h: Memory, h': Memory, s: set<Ptr>, u: set<Ptr>)
    requires SameBut(h, h', s) && h.Keys == h'.Keys && s !! u
    ensures SameOn(h, h', u)
  {
  }

  /** The nodes around the focus are all different. */
  lemma Surroundings(h: Memory, root: Ptr, p: Path, t: Tree)
    requires Zip(h, root, p, t) && t.Node?
    ensures var l, r, q := Root(t.l), Root(t.r), Above(p);
      && t.a in h && h[t.a] == Rec(t.k, q, t.red, l, r) && t.a != NULL
      && (t.l.Node? <==> l != NULL) && (t.r.Node? <==> r != NULL)
      && (l != NULL ==> l in h && l in Addrs(t) && l in Addrs(t.l) && l != t.a && l != r && l != q)
      && (r != NULL ==> r in h && r in Addrs(t) && r in Addrs(t.r) && r != t.a && r != q)
      && (q != NULL ==> q in h && q in PathAddrs(p) && q != t.a && (h[q].L == t.a <==> p.InL?))
      && (q == NULL <==> p.Top?)
  {
    ZipApart(h, root, p, t);
  }

  /** Taking a node with one child out of the tree takes out one address. */
  lemma ThinAddrs(h: Memory, root: Ptr, p: Path, t: Tree, c: Tree)
    requires Zip(h, root, p, t) && OnlyChild(t, c)
    ensures Addrs(c) + PathAddrs(p) == Addrs(t) + PathAddrs(p) - {t.a}
  {
  }

  /** Exchanging a node exchanges its address. */
  lemma SwappedAddrs(h: Memory, root: Ptr, p: Path, t: Tree, n: Ptr)
    requires Zip(h, root, p, t) && t.Node?
    ensures Addrs(t.(a := n)) + PathAddrs(p) == Addrs(t) + PathAddrs(p) - {t.a} + {n}
  {
  }

  lemma ReplacedZip(h: Memory, h': Memory, root: Ptr, p: Path, t: Tree, s: Ptr)
    requires Zip(h, root, p, t) && t.Node? && t.a in h && s in h && s != NULL
    requires s !in Addrs(t) && s !in PathAddrs(p)
    requires (t.l.Node? ==> Root(t.l) in h) && (t.r.Node? ==> Root(t.r) in h) && (Above(p) != NULL ==> Above(p) in h)
    requires Replaced(h, h', t.a, s, Root(t.l), Root(t.r), Above(p))
    ensures Zip(h', LinkRoot(root, Above(p), s), p, t.(a := s, k := h[s].key))
  {
    Surroundings(h, root, p, t);
    var near := {t.a, s} + Opt(Root(t.l)) + Opt(Root(t.r)) + Opt(Above(p));
    SameButOn(h, h', near, Addrs(t.l) - At(t.l));
    SameButOn(h, h', near, Addrs(t.r) - At(t.r));
    SameButOn(h, h', near, PathAddrs(p) - Over(p));
    ReplaceZip(h, h', root, LinkRoot(root, Above(p), s), p, t, s, h[s].key);
  }

  /** `s` is outside the tree and has null children: what rb_insert leaves behind on a duplicate. */
  lemma ReplaceCorrect(h: Memory, root: Ptr, p: Path, t: Tree, s: Ptr)
    requires Zip(h, root, p, t) && t.Node? && s != NULL && s in h
    requires s !in Addrs(t) && s !in PathAddrs(p) && h[s].L == NULL && h[s].R == NULL
    ensures Zip(ReplaceMem(h, t.a, s), LinkRoot(root, Above(p), s), p, t.(a := s, k := h[s].key))
  {
    Surroundings(h, root, p, t);
    ReplacePointwise(h, t.a, s, Root(t.l), Root(t.r), Above(p));
    ReplacedZip(h, ReplaceMem(h, t.a, s), root, p, t, s);
  }

  lemma ReplaceFrame(h: Memory, root: Ptr, p: Path, t: Tree, s: Ptr)
    requires Zip(h, root, p, t) && t.Node? && s != NULL && s in h
    requires s !in Addrs(t) && s !in PathAddrs(p) && h[s].L == NULL && h[s].R == NULL
    ensures ChangedOnly(h, ReplaceMem(h, t.a, s), Addrs(t) + PathAddrs(p) + {s})
  {
    Surroundings(h, root, p, t);
    ReplacePointwise(h, t.a, s, Root(t.l), Root(t.r), Above(p));
    ReplacedChanged(h, ReplaceMem(h, t.a, s), t.a, s, Root(t.l), Root(t.r), Above(p), Addrs(t) + PathAddrs(p) + {s});
  }

  // ------------------------------------------------ removing a node with two children

  /** Memory after the successor `s` of `o` (the leftmost node of its right subtree) has been
      moved into the place of `o`, in the order of the C statements. */
  function TransplantMem(h: Memory, o: Ptr, s: Ptr): Memory
    requires o in h && s in h && h[s].parent in h
  {
    var y, c := h[s].parent, h[s].R;
    var h0 := LinkChild(h, h[o].parent, o, s);
    var h1 := if y == o then h0 else CutSuccessor(h0, o, s, y, c);
    var h2 := h1[s := h1[s].(parent := h1[o].parent, red := h1[o].red)];
    var h3 := h2[s := h2[s].(L := h2[o].L)];
    Adopt(h3, h3[o].L, s)
  }

  /** The part of it for a successor that is not the right child itself. */
  function CutSuccessor(h: Memory, o: Ptr, s: Ptr, y: Ptr, c: Ptr): (h': Memory)
    requires o in h && s in h && y in h
    ensures h'.Keys == h.Keys
  {
    var h1 := Adopt(h, c, y);
    var h2 := h1[y := h1[y].(L := c)];
    var h3 := h2[s := h2[s].(R := h2[o].R)];
    Adopt(h3, h3[o].R, s)
  }

  /** The nodes the transplant touches: `l`, `r` the children of `o`, `q` its parent,
      `y` the parent of `s`, `c` its right child. */
  predicate TransplantApart(h: Memory, o: Ptr, s: Ptr, l: Ptr, r: Ptr, q: Ptr, y: Ptr, c: Ptr) {
    && o in h && s in h && l in h && r in h && y in h && (c != NULL ==> c in h) && (q != NULL ==> q in h)
    && o != NULL && s != NULL && l != NULL && r != NULL && y != NULL
    && h[o].L == l && h[o].R == r && h[o].parent == q && h[s].parent == y && h[s].R == c
    && o != s && l != o && l != s && l != r && l != y && l != c && l != q
    && r != o && r != q && r != c && y != s && y != c && y != q && c != o && c != s && q != o && q != s
    && (c != NULL ==> c != q) && (y == o <==> r == s)
  }

  /** Bypassing `s` and then putting it in the place of `o` is what the C statements amount to. */
  lemma TransplantNear(h: Memory, o: Ptr, s: Ptr, l: Ptr, q: Ptr, c: Ptr)
    requires TransplantApart(h, o, s, l, s, q, o, c) && (c != NULL ==> h[c].parent == s)
    ensures BypassMem(h, s, c).Keys == h.Keys
    ensures Replaced(BypassMem(h, s, c), TransplantMem(h, o, s), o, s, l, c, q)
  {
  }

  lemma TransplantFar(h: Memory, o: Ptr, s: Ptr, l: Ptr, r: Ptr, q: Ptr, y: Ptr, c: Ptr)
    requires TransplantApart(h, o, s, l, r, q, y, c) && y != o && h[y].L == s
    ensures BypassMem(h, s, c).Keys == h.Keys
    ensures Replaced(BypassMem(h, s, c), TransplantMem(h, o, s), o, s, l, r, q)
  {
    hide TransplantMem, BypassMem, SameBut;
    TransplantFarNodes(h, o, s, l, r, q, y, c);
    TransplantFarRest(h, o, s, l, r, q, y, c);
  }

  lemma TransplantFarNodes(h: Memory, o: Ptr, s: Ptr, l: Ptr, r: Ptr, q: Ptr, y: Ptr, c: Ptr)
    requires TransplantApart(h, o, s, l, r, q, y, c) && y != o && h[y].L == s
    ensures var g, h' := BypassMem(h, s, c), TransplantMem(h, o, s);
      && g.Keys == h.Keys == h'.Keys && h'[s] == Rec(g[s].key, q, g[o].red, l, r)
      && h'[l] == g[l].(parent := s) && h'[r] == g[r].(parent := s) && h'[o].key == g[o].key
  {
  }

  lemma TransplantFarRest(h: Memory, o: Ptr, s: Ptr, l: Ptr, r: Ptr, q: Ptr, y: Ptr, c: Ptr)
    requires TransplantApart(h, o, s, l, r, q, y, c) && y != o && h[y].L == s
    ensures var g, h' := BypassMem(h, s, c), TransplantMem(h, o, s);
      && g.Keys == h.Keys == h'.Keys
      && (q != NULL ==> h'[q] == if g[q].L == o then g[q].(L := s) else g[q].(R := s))
      && SameBut(g, h', {o, s} + Opt(l) + Opt(r) + Opt(q))
  {
  }

  predicate SpineLeft(q: Path) {
    q.Top? || (q.InL? && SpineLeft(q.up))
  }

  lemma {:induction false} RootOfPlug(q: Path, x: Tree, y: Tree)
    ensures !q.Top? ==> Root(Plug(q, x)) == Root(Plug(q, y)) && Root(Plug(q, x)) in PathAddrs(q)
    decreases q
  {
    if !q.Top? && !q.up.Top? {
      RootOfPlug(q.up, Join(q, x), Join(q, y));
    }
  }

  lemma {:induction false} ZipAppend(h: Memory, root: Ptr, q: Path, base: Path, t: Tree)
    requires Zip(h, root, Append(q, base), t)
    ensures Zip(h, root, base, Plug(q, t))
    decreases q
  {
    if !q.Top? {
      ZipUp(h, root, Append(q, base), t);
      ZipAppend(h, root, q.up, base, Join(q, t));
    }
  }

  lemma {:induction false} ZipUnappend(h: Memory, root: Ptr, q: Path, base: Path, t: Tree)
    requires Zip(h, root, base, Plug(q, t))
    ensures Zip(h, root, Append(q, base), t)
    decreases q
  {
    if !q.Top? {
      ZipUnappend(h, root, q.up, base, Join(q, t));
      ZipDown(h, root, Append(q.up, base), Join(q, t));
    }
  }

  /** The successor of the focus `t` is the node `sn`, found along the left spine `q` of its
      right subtree. */
  predicate Successor(t: Tree, q: Path, sn: Tree) {
    && t.Node? && t.l.Node? && SpineLeft(q) && t.r == Plug(q, sn)
    && sn.Node? && sn.l.Nil?
  }

  lemma AboveAppend(q: Path, base: Path)
    ensures Above(Append(q, base)) == if q.Top? then Above(base) else q.a
  {
  }

  lemma SuccessorZip(h: Memory, root: Ptr, p: Path, t: Tree, q: Path, sn: Tree)
    requires Zip(h, root, p, t) && Successor(t, q, sn)
    ensures Zip(h, root, Append(q, RightOf(p, t)), sn)
    ensures Addrs(t.r) == PathAddrs(q) + Addrs(sn) && PathAddrs(q) !! Addrs(sn)
  {
    ZipDown(h, root, p, t);
    ZipUnappend(h, root, q, RightOf(p, t), sn);
    AddrsPlug(q, sn);
    PathAddrsAppend(q, RightOf(p, t));
  }

  lemma {:induction false} PathAddrsAppend(q: Path, base: Path)
    ensures PathAddrs(Append(q, base)) == PathAddrs(q) + PathAddrs(base)
    decreases q
  {
    if !q.Top? { PathAddrsAppend(q.up, base); }
  }

  lemma SuccessorApart(h: Memory, root: Ptr, p: Path, t: Tree, q: Path, sn: Tree)
    requires Zip(h, root, p, t) && Successor(t, q, sn)
    ensures var y := if q.Top? then t.a else q.a;
      TransplantApart(h, t.a, sn.a, Root(t.l), Root(t.r), Above(p), y, Root(sn.r))
  {
    SuccessorZip(h, root, p, t, q, sn);
    Surroundings(h, root, p, t);
    AboveAppend(q, RightOf(p, t));
    Surroundings(h, root, Append(q, RightOf(p, t)), sn);
    RootOfPlug(q, sn, sn);
    assert !q.Top? ==> q.a in PathAddrs(q);
    assert sn.a in Addrs(sn) && (sn.r.Node? ==> sn.r.a in Addrs(sn));
  }

  /** With `s` bypassed, the tree still has `o` in its place, above what is left of the right subtree. */
  lemma SuccessorBypassed(h: Memory, root: Ptr, p: Path, t: Tree, q: Path, sn: Tree)
    requires Zip(h, root, p, t) && Successor(t, q, sn) && sn.a in h
    ensures Zip(BypassMem(h, sn.a, Root(sn.r)), root, p, t.(r := Plug(q, sn.r)))
  {
    SuccessorZip(h, root, p, t, q, sn);
    AboveAppend(q, RightOf(p, t));
    var full := Append(q, RightOf(p, t));
    BypassCorrect(h, root, full, sn, sn.r);
    Surroundings(h, root, full, sn);
    Surroundings(h, root, p, t);
    var h1 := BypassMem(h, sn.a, Root(sn.r));
    ZipAppend(h1, root, q, RightOf(p, t), sn.r);
    ZipUp(h1, root, RightOf(p, t), Plug(q, sn.r));
  }

  lemma TransplantReplaced(h: Memory, root: Ptr, p: Path, t: Tree, q: Path, sn: Tree)
    requires Zip(h, root, p, t) && Successor(t, q, sn)
    requires TransplantApart(h, t.a, sn.a, Root(t.l), Root(t.r), Above(p), if q.Top? then t.a else q.a, Root(sn.r))
    ensures BypassMem(h, sn.a, Root(sn.r)).Keys == h.Keys
    ensures var r := Root(Plug(q, sn.r));
      && (r != NULL ==> r in h)
      && Replaced(BypassMem(h, sn.a, Root(sn.r)), TransplantMem(h, t.a, sn.a), t.a, sn.a, Root(t.l), r, Above(p))
  {
    SuccessorZip(h, root, p, t, q, sn);
    AboveAppend(q, RightOf(p, t));
    Surroundings(h, root, Append(q, RightOf(p, t)), sn);
    if q.Top? {
      assert Holds(h, sn.r, sn.a);
      TransplantNear(h, t.a, sn.a, Root(t.l), Above(p), Root(sn.r));
    } else {
      RootOfPlug(q, sn, sn.r);
      TransplantFar(h, t.a, sn.a, Root(t.l), Root(t.r), Above(p), q.a, Root(sn.r));
    }
  }

  lemma TransplantCorrect(h: Memory, root: Ptr, p: Path, t: Tree, q: Path, sn: Tree)
    requires Zip(h, root, p, t) && Successor(t, q, sn)
    requires TransplantApart(h, t.a, sn.a, Root(t.l), Root(t.r), Above(p), if q.Top? then t.a else q.a, Root(sn.r))
    ensures Zip(TransplantMem(h, t.a, sn.a), LinkRoot(root, Above(p), sn.a), p,
      t.(a := sn.a, k := sn.k, r := Plug(q, sn.r)))
  {
    SuccessorBypassed(h, root, p, t, q, sn);
    TransplantReplaced(h, root, p, t, q, sn);
    SuccessorZip(h, root, p, t, q, sn);
    AddrsPlug(q, sn.r);
    var h1 := BypassMem(h, sn.a, Root(sn.r));
    assert h1[sn.a].key == sn.k;
    Surroundings(h1, root, p, t.(r := Plug(q, sn.r)));
    ReplacedZip(h1, TransplantMem(h, t.a, sn.a), root, p, t.(r := Plug(q, sn.r)), sn.a);
  }

  lemma ChangedOnlyTrans(h: Memory, h1: Memory, h2: Memory, s: set<Ptr>, u: set<Ptr>, v: set<Ptr>)
    requires ChangedOnly(h, h1, s) && ChangedOnly(h1, h2, u) && s <= v && u <= v
    ensures ChangedOnly(h, h2, v)
  {
  }

  lemma TransplantFrame(h: Memory, root: Ptr, p: Path, t: Tree, q: Path, sn: Tree)
    requires Zip(h, root, p, t) && Successor(t, q, sn)
    requires TransplantApart(h, t.a, sn.a, Root(t.l), Root(t.r), Above(p), if q.Top? then t.a else q.a, Root(sn.r))
    ensures ChangedOnly(h, TransplantMem(h, t.a, sn.a), Addrs(t) + PathAddrs(p))
  {
    SuccessorZip(h, root, p, t, q, sn);
    TransplantReplaced(h, root, p, t, q, sn);
    Surroundings(h, root, p, t);
    var full := Append(q, RightOf(p, t));
    BypassCorrect(h, root, full, sn, sn.r);
    PathAddrsAppend(q, RightOf(p, t));
    AddrsPlug(q, sn.r);
    var h1, h2, u, r := BypassMem(h, sn.a, Root(sn.r)), TransplantMem(h, t.a, sn.a), Addrs(t) + PathAddrs(p),
      Plug(q, sn.r);
    assert Addrs(sn.r) <= Addrs(sn) && At(r) <= Addrs(r) <= Addrs(t.r) && sn.a in Addrs(t.r);
    ReplacedChanged(h1, h2, t.a, sn.a, Root(t.l), Root(r), Above(p), u);
    ChangedOnlyTrans(h, h1, h2, Addrs(sn.r) + PathAddrs(full), u, u);
  }

  // ------------------------------------------------------------ what is removed

  lemma {:induction false} SpineOrder(q: Path, base: Path)
    requires SpineLeft(q)
    ensures Before(Append(q, base)) == Before(base)
    ensures After(Append(q, base)) == After(q) + After(base)
    decreases q
  {
    if !q.Top? {
      SpineOrder(q.up, base);
      assert After(q) + After(base) == [Item(q.a, q.k)] + Inorder(q.r) + (After(q.up) + After(base));
    }
  }

  lemma RegroupFirst(b: seq<Item>, x: Item, c: seq<Item>, a: seq<Item>)
    ensures Inserted(b + c + a, x, b + ([x] + c) + a)
  {
    InsertedBetween(b, x, c + a);
    assert b + (c + a) == b + c + a;
    assert b + [x] + (c + a) == b + ([x] + c) + a;
  }

  lemma RegroupLast(b: seq<Item>, x: Item, c: seq<Item>, a: seq<Item>)
    ensures Inserted(b + c + a, x, b + (c + [x]) + a)
  {
    InsertedBetween(b + c, x, a);
    assert b + c + [x] + a == b + (c + [x]) + a;
  }

  lemma RegroupMiddle(b: seq<Item>, l: seq<Item>, x: Item, y: Item, c: seq<Item>, u: seq<Item>, a: seq<Item>)
    ensures Inserted((b + l + [y]) + c + (u + a), x, b + (l + [x] + ([y] + c + u)) + a)
  {
    var w := [y] + c + u;
    RegroupFirst(b + l, x, w, a);
    assert (b + l) + w + a == (b + l + [y]) + c + (u + a);
    assert (b + l) + ([x] + w) + a == b + (l + [x] + w) + a;
  }

  /** Bypassing a node removes exactly that node from the order. */
  lemma BypassRemoves(p: Path, t: Tree, c: Tree)
    requires OnlyChild(t, c)
    ensures Inserted(Before(p) + Inorder(c) + After(p), Item(t.a, t.k), Inorder(Plug(p, t)))
  {
    InorderPlug(p, t);
    var x := Item(t.a, t.k);
    if t.l.Nil? && c == t.r {
      assert Inorder(t) == [x] + Inorder(c);
      RegroupFirst(Before(p), x, Inorder(c), After(p));
    } else {
      assert Inorder(t) == Inorder(c) + [x];
      RegroupLast(Before(p), x, Inorder(c), After(p));
    }
  }

  lemma SuccessorOrder(q: Path, sn: Tree)
    requires SpineLeft(q) && sn.Node? && sn.l.Nil?
    ensures Inorder(Plug(q, sn)) == [Item(sn.a, sn.k)] + Inorder(sn.r) + After(q)
  {
    InorderPlug(q, sn);
    SpineOrder(q, Top);
    AppendTopIsSame(q);
    assert Inorder(sn) == [Item(sn.a, sn.k)] + Inorder(sn.r);
  }

  /** So does moving the successor into the place of the removed node. */
  lemma TransplantRemoves(p: Path, t: Tree, q: Path, sn: Tree)
    requires Successor(t, q, sn)
    ensures var p' := Append(q, InR(p, t.l, sn.a, sn.k, t.red));
      Inserted(Before(p') + Inorder(sn.r) + After(p'), Item(t.a, t.k), Inorder(Plug(p, t)))
  {
    InorderPlug(p, t);
    SuccessorOrder(q, sn);
    SpineOrder(q, InR(p, t.l, sn.a, sn.k, t.red));
    RegroupMiddle(Before(p), Inorder(t.l), Item(t.a, t.k), Item(sn.a, sn.k), Inorder(sn.r), After(q), After(p));
  }

  lemma AppendTopIsSame(q: Path)
    ensures Append(q, Top) == q
  {
  }

  /** The hole left by the successor is balanced enough for the removal fixup. */
  lemma TransplantReady(p: Path, t: Tree, q: Path, sn: Tree)
    requires Balanced(Plug(p, t)) && IsBlack(Plug(p, t)) && Successor(t, q, sn)
    ensures var p' := Append(q, InR(p, t.l, sn.a, sn.k, t.red));
      && (!sn.red ==> RemoveFocus(p', sn.r))
      && (sn.red ==> Balanced(Plug(p', sn.r)) && IsBlack(Plug(p', sn.r)))
  {
    var base := InR(p, t.l, t.a, t.k, t.red);
    PlugAppend(q, base, sn);
    BalancedUnplug(Append(q, base), sn);
    PathBalancedRename(q, p, t.l, t.red, t.a, t.k, sn.a, sn.k, BlackHeight(sn), !IsBlack(sn));
    AppendTop(q, base, InR(p, t.l, sn.a, sn.k, t.red));
    RemoveReady(Append(q, InR(p, t.l, sn.a, sn.k, t.red)), sn, sn.r);
  }

  lemma TransplantAddrs(h: Memory, root: Ptr, p: Path, t: Tree, q: Path, sn: Tree)
    requires Zip(h, root, p, t) && Successor(t, q, sn)
    ensures var p' := Append(q, InR(p, t.l, sn.a, sn.k, t.red));
      Addrs(sn.r) + PathAddrs(p') == Addrs(t) + PathAddrs(p) - {t.a}
  {
    SuccessorZip(h, root, p, t, q, sn);
    PathAddrsAppend(q, InR(p, t.l, sn.a, sn.k, t.red));
    assert Addrs(sn) == {sn.a} + Addrs(sn.r);
  }

  /** Putting another node with the same key into the place of the focus. */
  lemma ReplaceShape(p: Path, t: Tree, n: Ptr)
    requires RedBlack(Plug(p, t)) && t.Node?
    ensures RedBlack(Plug(p, t.(a := n)))
    ensures Swapped(Inorder(Plug(p, t)), t.a, n, Inorder(Plug(p, t.(a := n))))
  {
    var t' := t.(a := n);
    BalancedUnplug(p, t);
    BalancedPlug(p, t');
    InorderPlug(p, t);
    InorderPlug(p, t');
    SwapBetween(Before(p), Inorder(t.l), Item(t.a, t.k), n, Inorder(t.r), After(p));
    SwapSorted(Inorder(Plug(p, t)), t.a, n, Inorder(Plug(p, t')));
  }

  lemma SwapBetween(b: seq<Item>, l: seq<Item>, x: Item, n: Ptr, r: seq<Item>, a: seq<Item>)
    ensures Swapped(b + (l + [x] + r) + a, x.a, n, b + (l + [Item(n, x.k)] + r) + a)
  {
    var s, s', i := b + (l + [x] + r) + a, b + (l + [Item(n, x.k)] + r) + a, |b| + |l|;
    assert s[i] == x;
    assert s' == s[i := Item(n, x.k)];
  }

  lemma SwapSorted(s: seq<Item>, o: Ptr, n: Ptr, s': seq<Item>)
    requires Swapped(s, o, n, s') && Sorted(s)
    ensures Sorted(s')
  {
    assert forall j :: 0 <= j < |s| ==> s'[j].k == s[j].k;
  }
}
