/** Red-black trees as values: the mathematical side of kernel/lib/rb_tree.c.

    Every node carries the address it lives at, so a tree value describes both
    the search structure and the memory it occupies.  A `Path` is the part of a
    tree above a focus (a one-hole context), which is what the parent pointers of
    the C code walk along. */
module RbShape {
  import opened Numbers

  type Ptr = nat
  const NULL: Ptr := 0

  datatype Tree = Nil | Node(l: Tree, a: Ptr, k: nat, red: bool, r: Tree)

  /** `InL(up, a, k, red, r)`: the hole is the left child of node `a`, whose right subtree is `r`. */
  datatype Path =
    | Top
    | InL(up: Path, a: Ptr, k: nat, red: bool, r: Tree)
    | InR(up: Path, l: Tree, a: Ptr, k: nat, red: bool)

  datatype Item = Item(a: Ptr, k: nat)

  function Root(t: Tree): Ptr {
    if t.Nil? then NULL else t.a
  }

  function Above(p: Path): Ptr {
    if p.Top? then NULL else p.a
  }

  function Plug(p: Path, t: Tree): Tree {
    match p
    case Top => t
    case InL(up, a, k, red, r) => Plug(up, Node(t, a, k, red, r))
    case InR(up, l, a, k, red) => Plug(up, Node(l, a, k, red, t))
  }

  /** Path `q`, relative to a subtree, continued by the path `base` above that subtree. */
  function Append(q: Path, base: Path): Path {
    match q
    case Top => base
    case InL(up, a, k, red, r) => InL(Append(up, base), a, k, red, r)
    case InR(up, l, a, k, red) => InR(Append(up, base), l, a, k, red)
  }

  function PathLen(p: Path): nat {
    if p.Top? then 0 else 1 + PathLen(p.up)
  }

  // ---------------------------------------------------------------- addresses

  function Addrs(t: Tree): set<Ptr> {
    if t.Nil? then {} else Addrs(t.l) + {t.a} + Addrs(t.r)
  }

  function PathAddrs(p: Path): set<Ptr> {
    match p
    case Top => {}
    case InL(up, a, _, _, r) => {a} + Addrs(r) + PathAddrs(up)
    case InR(up, l, a, _, _) => {a} + Addrs(l) + PathAddrs(up)
  }

  /** No address occurs twice. */
  predicate Distinct(t: Tree) {
    t.Node? ==>
      && t.a !in Addrs(t.l) && t.a !in Addrs(t.r) && Addrs(t.l) !! Addrs(t.r)
      && Distinct(t.l) && Distinct(t.r)
  }

  predicate PathDistinct(p: Path) {
    match p
    case Top => true
    case InL(up, a, _, _, r) =>
      && a !in Addrs(r) && a !in PathAddrs(up) && Addrs(r) !! PathAddrs(up)
      && Distinct(r) && PathDistinct(up)
    case InR(up, l, a, _, _) =>
      && a !in Addrs(l) && a !in PathAddrs(up) && Addrs(l) !! PathAddrs(up)
      && Distinct(l) && PathDistinct(up)
  }

  // ------------------------------------------------------------- key order

  function Inorder(t: Tree): seq<Item> {
    if t.Nil? then [] else Inorder(t.l) + [Item(t.a, t.k)] + Inorder(t.r)
  }

  /** Nodes of the context that come before the hole in key order. */
  function Before(p: Path): seq<Item> {
    match p
    case Top => []
    case InL(up, _, _, _, _) => Before(up)
    case InR(up, l, a, k, _) => Before(up) + Inorder(l) + [Item(a, k)]
  }

  /** Nodes of the context that come after the hole in key order. */
  function After(p: Path): seq<Item> {
    match p
    case Top => []
    case InL(up, a, k, _, r) => [Item(a, k)] + Inorder(r) + After(up)
    case InR(up, _, _, _, _) => After(up)
  }

  predicate Sorted(s: seq<Item>) {
    forall i, j :: 0 <= i < j < |s| ==> s[i].k < s[j].k
  }

  // ------------------------------------------------------- colour and balance

  predicate IsBlack(t: Tree) {
    t.Nil? || !t.red
  }

  function BlackHeight(t: Tree): nat {
    if t.Nil? then 0 else BlackHeight(t.l) + (if t.red then 0 else 1)
  }

  /** Equal black heights everywhere, and no red node with a red child. */
  predicate Balanced(t: Tree) {
    t.Node? ==>
      && BlackHeight(t.l) == BlackHeight(t.r)
      && (t.red ==> IsBlack(t.l) && IsBlack(t.r))
      && Balanced(t.l) && Balanced(t.r)
  }

  /** The context is what surrounds a balanced subtree of black height `h` whose root is
      red only if `redHole`; the outermost node is black. */
  predicate PathBalanced(p: Path, h: nat, redHole: bool) {
    match p
    case Top => true
    case InL(up, _, _, red, r) =>
      && Balanced(r) && BlackHeight(r) == h
      && (red ==> !redHole && IsBlack(r) && up != Top)
      && PathBalanced(up, h + (if red then 0 else 1), red)
    case InR(up, l, _, _, red) =>
      && Balanced(l) && BlackHeight(l) == h
      && (red ==> !redHole && IsBlack(l) && up != Top)
      && PathBalanced(up, h + (if red then 0 else 1), red)
  }

  /** The invariant every operation of rb_tree.c keeps, apart from the pointers themselves. */
  predicate RedBlack(t: Tree) {
    IsBlack(t) && Balanced(t) && Sorted(Inorder(t))
  }

  // ------------------------------------------------------------------ lemmas

  lemma Regroup(b: seq<Item>, l: seq<Item>, x: seq<Item>, r: seq<Item>, a: seq<Item>)
    ensures b + (l + x + r) + a == b + l + (x + r + a)
    ensures b + (l + x + r) + a == (b + l + x) + r + a
  {
    assert b + (l + x + r) + a == b + l + x + r + a;
    assert b + l + (x + r + a) == b + l + x + r + a;
  }

  lemma {:induction false} InorderPlug(p: Path, t: Tree)
    ensures Inorder(Plug(p, t)) == Before(p) + Inorder(t) + After(p)
    decreases p
  {
    match p
    case Top =>
    case InL(up, a, k, red, r) =>
      InorderPlug(up, Node(t, a, k, red, r));
      Regroup(Before(up), Inorder(t), [Item(a, k)], Inorder(r), After(up));
    case InR(up, l, a, k, red) =>
      InorderPlug(up, Node(l, a, k, red, t));
      Regroup(Before(up), Inorder(l), [Item(a, k)], Inorder(t), After(up));
  }

  lemma {:induction false} AddrsPlug(p: Path, t: Tree)
    ensures Addrs(Plug(p, t)) == PathAddrs(p) + Addrs(t)
    decreases p
  {
    match p
    case Top =>
    case InL(up, a, k, red, r) => AddrsPlug(up, Node(t, a, k, red, r));
    case InR(up, l, a, k, red) => AddrsPlug(up, Node(l, a, k, red, t));
  }

  /** A balanced subtree in a matching context makes a balanced tree, and conversely. */
  lemma {:induction false} BalancedPlug(p: Path, t: Tree)
    requires Balanced(t)
    requires PathBalanced(p, BlackHeight(t), !IsBlack(t))
    ensures Balanced(Plug(p, t))
    ensures p != Top ==> IsBlack(Plug(p, t))
    decreases p
  {
    match p
    case Top =>
    case InL(up, a, k, red, r) => BalancedPlug(up, Node(t, a, k, red, r));
    case InR(up, l, a, k, red) => BalancedPlug(up, Node(l, a, k, red, t));
  }

  lemma {:induction false} BalancedUnplug(p: Path, t: Tree)
    requires Balanced(Plug(p, t)) && IsBlack(Plug(p, t))
    ensures Balanced(t)
    ensures PathBalanced(p, BlackHeight(t), !IsBlack(t))
    decreases p
  {
    match p
    case Top =>
    case InL(up, a, k, red, r) => BalancedUnplug(up, Node(t, a, k, red, r));
    case InR(up, l, a, k, red) => BalancedUnplug(up, Node(l, a, k, red, t));
  }

  lemma {:induction false} PlugAppend(q: Path, base: Path, t: Tree)
    ensures Plug(Append(q, base), t) == Plug(base, Plug(q, t))
    decreases q
  {
    match q
    case Top =>
    case InL(up, a, k, red, r) => PlugAppend(up, base, Node(t, a, k, red, r));
    case InR(up, l, a, k, red) => PlugAppend(up, base, Node(l, a, k, red, t));
  }

  // ----------------------------------------------------------------- key order

  predicate KeysBelow(s: seq<Item>, k: nat) {
    forall i :: 0 <= i < |s| ==> s[i].k < k
  }

  predicate KeysAbove(s: seq<Item>, k: nat) {
    forall i :: 0 <= i < |s| ==> k < s[i].k
  }

  predicate HasKey(s: seq<Item>, k: nat) {
    exists i :: 0 <= i < |s| && s[i].k == k
  }

  /** The node at position `i`, or NULL before the first and after the last. */
  function ItemAt(s: seq<Item>, i: int): Ptr {
    if 0 <= i < |s| then s[i].a else NULL
  }

  /** `s'` is `s` with `x` put in at some place. */
  predicate Inserted(s: seq<Item>, x: Item, s': seq<Item>) {
    exists i :: 0 <= i <= |s| && s' == s[..i] + [x] + s[i..]
  }

  /** `s'` is `s` with the node `o` exchanged for `n`, under the same key. */
  predicate Swapped(s: seq<Item>, o: Ptr, n: Ptr, s': seq<Item>) {
    exists i :: 0 <= i < |s| && s[i].a == o && s' == s[i := Item(n, s[i].k)]
  }

  lemma InsertedBetween(b: seq<Item>, x: Item, a: seq<Item>)
    ensures Inserted(b + a, x, b + [x] + a)
  {
    assert (b + a)[..|b|] == b && (b + a)[|b|..] == a;
  }

  lemma SortedMiddle(b: seq<Item>, x: Item, a: seq<Item>)
    requires Sorted(b + [x] + a)
    ensures KeysBelow(b, x.k) && KeysAbove(a, x.k) && Sorted(b + a)
  {
    var s := b + [x] + a;
    assert s[|b|] == x;
    assert forall i :: 0 <= i < |b| ==> s[i] == b[i];
    assert forall i :: 0 <= i < |a| ==> s[|b| + 1 + i] == a[i];
  }

  lemma SortedRemove(s: seq<Item>, x: Item, s': seq<Item>)
    requires Inserted(s, x, s') && Sorted(s')
    ensures Sorted(s)
  {
    var i :| 0 <= i <= |s| && s' == s[..i] + [x] + s[i..];
    SortedMiddle(s[..i], x, s[i..]);
    assert s[..i] + s[i..] == s;
  }

  lemma SortedInsert(b: seq<Item>, x: Item, a: seq<Item>)
    requires Sorted(b + a) && KeysBelow(b, x.k) && KeysAbove(a, x.k)
    ensures Sorted(b + [x] + a)
  {
    var s, u := b + [x] + a, b + a;
    forall i, j | 0 <= i < j < |s|
      ensures s[i].k < s[j].k
    {
      assert i < |b| ==> s[i] == u[i];
      assert i > |b| ==> s[i] == u[i - 1];
      assert j < |b| ==> s[j] == u[j];
      assert j > |b| ==> s[j] == u[j - 1];
    }
  }

  /** Going down one step towards `key` keeps `key` strictly between what lies on either side. */
  lemma Descend(p: Path, t: Tree, key: nat)
    requires t.Node? && Sorted(Before(p) + Inorder(t) + After(p))
    requires KeysBelow(Before(p), key) && KeysAbove(After(p), key)
    ensures key < t.k ==> KeysAbove(After(InL(p, t.a, t.k, t.red, t.r)), key)
    ensures key > t.k ==> KeysBelow(Before(InR(p, t.l, t.a, t.k, t.red)), key)
  {
    DescendOrder(Before(p), Inorder(t.l), Item(t.a, t.k), Inorder(t.r), After(p), key);
  }

  lemma DescendOrder(b: seq<Item>, l: seq<Item>, x: Item, r: seq<Item>, a: seq<Item>, key: nat)
    requires Sorted(b + (l + [x] + r) + a) && KeysBelow(b, key) && KeysAbove(a, key)
    ensures key < x.k ==> KeysAbove([x] + r + a, key)
    ensures key > x.k ==> KeysBelow(b + l + [x], key)
  {
    assert b + (l + [x] + r) + a == (b + l) + [x] + (r + a);
    SortedMiddle(b + l, x, r + a);
    assert [x] + r + a == [x] + (r + a);
  }

  /** Where the focus and the node above it stand in key order. */
  lemma FocusAt(p: Path, t: Tree)
    requires t.Node?
    ensures var s, i := Inorder(Plug(p, t)), |Before(p)| + |Inorder(t.l)|;
      i < |s| && s[i] == Item(t.a, t.k)
  {
    InorderPlug(p, t);
  }

  lemma ParentAt(p: Path, t: Tree)
    ensures var s, i, j := Inorder(Plug(p, t)), |Before(p)| - 1, |Before(p)| + |Inorder(t)|;
      && (p.InL? ==> j < |s| && s[j].a == p.a)
      && (p.InR? ==> 0 <= i < |s| && s[i].a == p.a)
      && (p.Top? ==> i == -1 && j == |s|)
  {
    InorderPlug(p, t);
  }

  // ------------------------------------------------------------ search depth

  function Height(t: Tree): nat {
    if t.Nil? then 0
    else 1 + if Height(t.l) >= Height(t.r) then Height(t.l) else Height(t.r)
  }

  lemma {:induction false} HeightWithinBlackHeight(t: Tree)
    requires Balanced(t)
    ensures Height(t) <= 2 * BlackHeight(t) + (if IsBlack(t) then 0 else 1)
  {
    if t.Node? {
      HeightWithinBlackHeight(t.l);
      HeightWithinBlackHeight(t.r);
    }
  }

  lemma {:induction false} SizeAtLeast(t: Tree)
    requires Balanced(t)
    ensures |Inorder(t)| + 1 >= Pow2(BlackHeight(t))
  {
    if t.Node? {
      SizeAtLeast(t.l);
      SizeAtLeast(t.r);
    }
  }

  lemma SquareMonotone(x: nat, y: nat)
    requires x <= y
    ensures x * x <= y * y
  {
    assert y * y - x * x == (y - x) * (y + x);
  }

  /** With n nodes, no search takes more than 2*log2(n+1) steps: 2^height <= (n+1)^2. */
  lemma SearchDepth(t: Tree)
    requires RedBlack(t)
    ensures Pow2(Height(t)) <= (|Inorder(t)| + 1) * (|Inorder(t)| + 1)
  {
    var b := BlackHeight(t);
    HeightWithinBlackHeight(t);
    SizeAtLeast(t);
    Pow2Double(b);
    Pow2Monotone(Height(t), 2 * b);
    SquareMonotone(Pow2(b), |Inorder(t)| + 1);
  }
}
