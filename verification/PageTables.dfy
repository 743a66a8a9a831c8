/** Three-level page tables (Sv39) on values: the shape every operation of kernel/memory/paging.c
    keeps, and the flat map from page numbers to leaf entries that the tables of a directory
    denote. */
module PageTables {
  import opened CowSpec

  /** A table entry: its valid bit and its other fields. */
  datatype Entry = Entry(v: bool, pte: Pte)

  type Table = seq<Entry>
  type Tables = map<Frame, Table>

  /** Where a table hangs: it is a root, or it is entry `i` of a root, or entry `j` of entry `i`. */
  datatype Pos = Top | Mid(root: Frame, i: int) | Low(root: Frame, i: int, j: int)
  type Owner = map<Frame, Pos>

  const ENTRIES := 512
  /** One past the highest page number, 2^(9 + 9 + 9 - 1). */
  const MAX_VPN := 0x400_0000
  /** The root entry of the kernel's gigabyte at 0x80000000. */
  const KERNEL_INDEX := 2

  const ZERO := Entry(false, Pte(false, false, false, false, false, 0))
  const KERNEL := Entry(true, Pte(true, true, true, false, true, 0x80000))

  function PointerTo(f: Frame): Entry {
    Entry(true, ZERO.pte.(ppn := f))
  }

  /** The low four bits of the entry are 1: it leads to a table of the next level. */
  predicate IsPointer(e: Entry) {
    e.v && !e.pte.r && !e.pte.w && !e.pte.x
  }

  /** Section 4.3.2 of the RISC-V Privileged Architecture, version 20211203: a leaf is readable or executable. */
  predicate IsLeaf(e: Entry) {
    e.v && (e.pte.r || e.pte.x)
  }

  /** The 9-bit index of page `v` in the table of the given level. */
  function Px(level: int, v: Vpn): int {
    if level == 2 then v / 0x4_0000 else if level == 1 then v / 512 % 512 else v % 512
  }

  /** An address walk_pages accepts, outside the kernel's gigabyte. */
  predicate Walkable(v: Vpn) {
    0 <= v < MAX_VPN && Px(2, v) != KERNEL_INDEX
  }

  lemma PxRange(v: Vpn)
    requires Walkable(v)
    ensures 0 <= Px(2, v) < 256 && 0 <= Px(1, v) < ENTRIES && 0 <= Px(0, v) < ENTRIES
  {
  }

  /** The three indices name the page. */
  lemma PxInjective(v: Vpn, w: Vpn)
    requires Walkable(v) && Walkable(w)
    requires Px(2, v) == Px(2, w) && Px(1, v) == Px(1, w) && Px(0, v) == Px(0, w)
    ensures v == w
  {
    PxValue(v);
    PxValue(w);
  }

  lemma PxValue(v: Vpn)
    requires 0 <= v
    ensures v == (Px(2, v) * 512 + Px(1, v)) * 512 + Px(0, v)
  {
    var q := v / 512;
    assert v == q * 512 + v % 512;
    assert q == q / 512 * 512 + q % 512;
    assert q / 512 == v / 0x4_0000;
  }

  // ------------------------------------------------------------------------------- shape

  function Read(t: Tables, f: Frame, i: int): Entry {
    if f in t && 0 <= i < |t[f]| then t[f][i] else ZERO
  }

  /** The table entry `i` of table `f` leads to; -1 when it is not valid. */
  function Next(t: Tables, f: Frame, i: int): Frame {
    if Read(t, f, i).v then Read(t, f, i).pte.ppn else -1
  }

  predicate IsRoot(o: Owner, f: Frame) {
    f in o && o[f] == Top
  }

  /** The table is the one its position names. */
  predicate Hangs(t: Tables, o: Owner, f: Frame)
    requires f in o
  {
    match o[f]
    case Top => true
    case Mid(root, i) => i != KERNEL_INDEX && IsRoot(o, root) && Next(t, root, i) == f
    case Low(root, i, j) =>
      i != KERNEL_INDEX && IsRoot(o, root) &&
      var m := Next(t, root, i); m in o && o[m] == Mid(root, i) && Next(t, m, j) == f
  }

  /** An invalid entry is all zero; a valid one leads to the table at the next position, or is a
      leaf when the table is of the last level. */
  predicate EntryOk(o: Owner, f: Frame, i: int, e: Entry)
    requires f in o
  {
    if o[f] == Top && i == KERNEL_INDEX then e == KERNEL
    else if !e.v then e == ZERO
    else match o[f]
      case Top => IsPointer(e) && e.pte.ppn in o && o[e.pte.ppn] == Mid(f, i)
      case Mid(root, a) => IsPointer(e) && e.pte.ppn in o && o[e.pte.ppn] == Low(root, a, i)
      case Low(_, _, _) => IsLeaf(e)
  }

  ghost predicate TableOk(t: Tables, o: Owner, f: Frame)
    requires f in t && f in o
  {
    |t[f]| == ENTRIES && Hangs(t, o, f) && forall i :: 0 <= i < ENTRIES ==> EntryOk(o, f, i, t[f][i])
  }

  ghost predicate Shape(t: Tables, o: Owner) {
    t.Keys == o.Keys && -1 !in t && forall f :: f in t ==> TableOk(t, o, f)
  }

  // ----------------------------------------------------------------------- the flat map

  /** What the tables under `root` say about page `v`. */
  function Trans(t: Tables, root: Frame, v: Vpn): Entry {
    Read(t, LowTable(t, root, v), Px(0, v))
  }

  /** The last-level table of page `v`; -1 when a table on the way is missing. */
  function LowTable(t: Tables, root: Frame, v: Vpn): Frame {
    Next(t, Next(t, root, Px(2, v)), Px(1, v))
  }

  ghost function Flat(t: Tables, root: Frame): Mapping {
    map v | 0 <= v < MAX_VPN && Walkable(v) && Trans(t, root, v).v :: Trans(t, root, v).pte
  }

  ghost function Roots(o: Owner): set<Frame> {
    set f | f in o && IsRoot(o, f)
  }

  ghost function Dirs(t: Tables, o: Owner): map<Dir, Mapping> {
    map d | d in Roots(o) :: Flat(t, d)
  }

  // -------------------------------------------------------------------------- the walk

  /** The table of page `v` at the given level, by position. */
  function PosAt(root: Frame, v: Vpn, level: int): Pos {
    if level == 2 then Top else if level == 1 then Mid(root, Px(2, v)) else Low(root, Px(2, v), Px(1, v))
  }

  /** `f` is the table of page `v` of directory `root` at the given level. */
  predicate At(o: Owner, f: Frame, root: Frame, v: Vpn, level: int) {
    IsRoot(o, root) && f in o && o[f] == PosAt(root, v, level) && (level == 2 ==> f == root)
  }

  /** One step of the walk: a valid entry leads to the table of the next level. */
  lemma Descend(t: Tables, o: Owner, f: Frame, root: Frame, v: Vpn, level: int)
    requires Shape(t, o) && Walkable(v) && 1 <= level <= 2 && At(o, f, root, v, level)
    ensures f in t && |t[f]| == ENTRIES && 0 <= Px(level, v) < ENTRIES
    ensures var e := t[f][Px(level, v)]; if e.v then At(o, e.pte.ppn, root, v, level - 1) else e == ZERO
  {
    PxRange(v);
    assert TableOk(t, o, f);
    assert EntryOk(o, f, Px(level, v), t[f][Px(level, v)]);
  }

  /** The table at a position is found by walking there. */
  lemma Found(t: Tables, o: Owner, f: Frame, root: Frame, v: Vpn, level: int)
    requires Shape(t, o) && Walkable(v) && 0 <= level <= 1 && At(o, f, root, v, level)
    ensures Next(t, root, Px(2, v)) == f || level == 0
    ensures level == 0 ==> LowTable(t, root, v) == f != -1
  {
    assert TableOk(t, o, f);
  }

  /** An invalid entry on the way means the page is not mapped. */
  lemma NoPath(t: Tables, o: Owner, f: Frame, root: Frame, v: Vpn, level: int)
    requires Shape(t, o) && Walkable(v) && 1 <= level <= 2 && At(o, f, root, v, level)
    requires !Read(t, f, Px(level, v)).v
    ensures Trans(t, root, v) == ZERO && LowTable(t, root, v) == -1
  {
    if level == 1 { Found(t, o, f, root, v, 1); }
  }

  lemma TableLength(t: Tables, o: Owner, f: Frame)
    requires Shape(t, o) && f in o
    ensures f in t && |t[f]| == ENTRIES
  {
    assert TableOk(t, o, f);
  }

  lemma LowEntry(t: Tables, o: Owner, f: Frame, root: Frame, v: Vpn)
    requires Shape(t, o) && Walkable(v) && At(o, f, root, v, 0)
    ensures f in t && |t[f]| == ENTRIES && 0 <= Px(0, v) < ENTRIES && Trans(t, root, v) == t[f][Px(0, v)]
    ensures EntryOk(o, f, Px(0, v), t[f][Px(0, v)])
  {
    Found(t, o, f, root, v, 0);
    PxRange(v);
    assert TableOk(t, o, f);
  }

  lemma RootInDirs(t: Tables, o: Owner, root: Frame)
    requires IsRoot(o, root)
    ensures root in Dirs(t, o) && Dirs(t, o)[root] == Flat(t, root)
  {
  }

  lemma NotMapped(t: Tables, o: Owner, root: Frame, v: Vpn)
    requires IsRoot(o, root) && !Trans(t, root, v).v
    ensures root in Dirs(t, o) && v !in Dirs(t, o)[root]
  {
  }

  // ------------------------------------------------------------------- writing a leaf entry

  ghost function SetEntry(t: Tables, f: Frame, i: int, e: Entry): Tables
    requires f in t && 0 <= i < |t[f]|
  {
    t[f := t[f][i := e]]
  }

  lemma SetEntryReads(t: Tables, f: Frame, i: int, e: Entry, g: Frame, j: int)
    requires f in t && 0 <= i < |t[f]|
    ensures Read(SetEntry(t, f, i, e), g, j) == if g == f && j == i then e else Read(t, g, j)
  {
  }

  /** Writing a leaf, or clearing one, keeps the shape and moves no table. */
  lemma SetLeafShape(t: Tables, o: Owner, f: Frame, i: int, e: Entry)
    requires Shape(t, o) && f in o && o[f].Low? && 0 <= i < ENTRIES && |t[f]| == ENTRIES
    requires IsLeaf(e) || e == ZERO
    ensures Shape(SetEntry(t, f, i, e), o)
    ensures forall g, j :: g in o && !o[g].Low? ==> Next(SetEntry(t, f, i, e), g, j) == Next(t, g, j)
  {
    var t' := SetEntry(t, f, i, e);
    forall g, j | g in o && !o[g].Low?
      ensures Next(t', g, j) == Next(t, g, j)
    {
      SetEntryReads(t, f, i, e, g, j);
    }
    forall g | g in t'
      ensures TableOk(t', o, g)
    {
      assert TableOk(t, o, g);
    }
  }

  /** It changes the translation of one page of one directory. */
  lemma SetLeafTrans(t: Tables, o: Owner, f: Frame, root: Frame, v: Vpn, e: Entry, d: Frame, w: Vpn)
    requires Shape(t, o) && Walkable(v) && At(o, f, root, v, 0) && (IsLeaf(e) || e == ZERO)
    requires IsRoot(o, d) && Walkable(w)
    requires |t[f]| == ENTRIES && 0 <= Px(0, v) < ENTRIES
    ensures Trans(SetEntry(t, f, Px(0, v), e), d, w) == if d == root && w == v then e else Trans(t, d, w)
  {
    var t' := SetEntry(t, f, Px(0, v), e);
    SetLeafShape(t, o, f, Px(0, v), e);
    Found(t, o, f, root, v, 0);
    var m := Next(t, d, Px(2, w));
    var l := Next(t, m, Px(1, w));
    SetEntryReads(t, f, Px(0, v), e, l, Px(0, w));
    Descend(t, o, d, d, w, 2);
    assert Next(t', d, Px(2, w)) == m;
    if m == -1 {
      assert l == -1;
    } else {
      Descend(t, o, m, d, w, 1);
      assert Next(t', m, Px(1, w)) == l;
      if l == f && Px(0, w) == Px(0, v) { PxInjective(v, w); }
    }
  }

  /** The directories after the entry of page `v` of `root` became `e`. */
  ghost function SetPage(dirs: map<Dir, Mapping>, root: Dir, v: Vpn, e: Entry): map<Dir, Mapping>
    requires root in dirs
  {
    dirs[root := if e.v then dirs[root][v := e.pte] else dirs[root] - {v}]
  }

  lemma SetLeafDirs(t: Tables, o: Owner, f: Frame, root: Frame, v: Vpn, e: Entry)
    requires Shape(t, o) && Walkable(v) && At(o, f, root, v, 0) && (IsLeaf(e) || e == ZERO)
    ensures f in t && |t[f]| == ENTRIES && 0 <= Px(0, v) < ENTRIES && root in Dirs(t, o)
    ensures Shape(SetEntry(t, f, Px(0, v), e), o)
    ensures Dirs(SetEntry(t, f, Px(0, v), e), o) == SetPage(Dirs(t, o), root, v, e)
  {
    hide Shape, Trans, Px, TableOk;
    LowEntry(t, o, f, root, v);
    var t' := SetEntry(t, f, Px(0, v), e);
    SetLeafShape(t, o, f, Px(0, v), e);
    forall d, w | IsRoot(o, d) && Walkable(w)
      ensures Trans(t', d, w) == if d == root && w == v then e else Trans(t, d, w)
    {
      SetLeafTrans(t, o, f, root, v, e, d, w);
    }
    OnePage(t, t', o, root, v, e);
  }

  lemma OnePage(t: Tables, t': Tables, o: Owner, root: Frame, v: Vpn, e: Entry)
    requires IsRoot(o, root) && Walkable(v)
    requires forall d, w :: IsRoot(o, d) && Walkable(w) ==>
      Trans(t', d, w) == if d == root && w == v then e else Trans(t, d, w)
    ensures root in Dirs(t, o) && Dirs(t', o) == SetPage(Dirs(t, o), root, v, e)
  {
    hide Trans, Walkable, Flat;
    forall d | d in Roots(o)
      ensures Flat(t', d) == SetPage(Dirs(t, o), root, v, e)[d]
    {
      assert Dirs(t, o)[d] == Flat(t, d);
      if d == root { OneEntry(t, t', d, v, e); } else { SameFlat(t, t', d); }
    }
  }

  lemma OneEntry(t: Tables, t': Tables, d: Frame, v: Vpn, e: Entry)
    requires Walkable(v)
    requires forall w :: Walkable(w) ==> Trans(t', d, w) == if w == v then e else Trans(t, d, w)
    ensures Flat(t', d) == if e.v then Flat(t, d)[v := e.pte] else Flat(t, d) - {v}
  {
    hide Trans, Px;
  }

  lemma SameFlat(t: Tables, t': Tables, d: Frame)
    requires forall w :: Walkable(w) ==> Trans(t', d, w) == Trans(t, d, w)
    ensures Flat(t', d) == Flat(t, d)
  {
    hide Trans, Px;
  }

  lemma SameDirs(t: Tables, o: Owner, t': Tables, o': Owner)
    requires Roots(o') == Roots(o)
    requires forall d, w :: IsRoot(o, d) && Walkable(w) ==> Trans(t', d, w) == Trans(t, d, w)
    ensures Dirs(t', o') == Dirs(t, o)
  {
    hide Trans, Walkable;
    forall d | d in Roots(o)
      ensures Flat(t', d) == Flat(t, d)
    {
    }
  }

  // -------------------------------------------------------------------- adding a table

  function Zeros(): (z: Table)
    ensures |z| == ENTRIES && forall i :: 0 <= i < ENTRIES ==> z[i] == ZERO
  {
    seq(ENTRIES, _ => ZERO)
  }

  function ChildPos(o: Owner, p: Frame, i: int): Pos
    requires p in o && !o[p].Low?
  {
    if o[p] == Top then Mid(p, i) else Low(o[p].root, o[p].i, i)
  }

  /** A fresh zeroed table `f` put under entry `i` of table `p`. */
  ghost function AddTable(t: Tables, p: Frame, i: int, f: Frame): Tables
    requires p in t && 0 <= i < |t[p]|
  {
    SetEntry(t, p, i, PointerTo(f))[f := Zeros()]
  }

  ghost predicate Vacant(t: Tables, o: Owner, p: Frame, i: int, f: Frame) {
    && p in o && p in t && !o[p].Low? && 0 <= i < ENTRIES == |t[p]| && !(o[p] == Top && i == KERNEL_INDEX) && !t[p][i].v
    && f !in t && f != -1
  }

  lemma AddTableNext(t: Tables, o: Owner, p: Frame, i: int, f: Frame, g: Frame, j: int)
    requires Shape(t, o) && Vacant(t, o, p, i, f)
    ensures Next(AddTable(t, p, i, f), g, j) == (if g == p && j == i then f else Next(t, g, j))
    ensures Next(t, p, i) == -1 && (g !in t ==> Next(t, g, j) == -1)
    ensures Read(AddTable(t, p, i, f), g, j) == (if g == p && j == i then PointerTo(f) else Read(t, g, j))
  {
  }

  lemma AddTableShape(t: Tables, o: Owner, p: Frame, i: int, f: Frame)
    requires Shape(t, o) && Vacant(t, o, p, i, f)
    ensures Shape(AddTable(t, p, i, f), o[f := ChildPos(o, p, i)])
    ensures Roots(o[f := ChildPos(o, p, i)]) == Roots(o)
  {
    var t', o' := AddTable(t, p, i, f), o[f := ChildPos(o, p, i)];
    forall g, j
      ensures Next(t', g, j) == if g == p && j == i then f else Next(t, g, j)
    {
      AddTableNext(t, o, p, i, f, g, j);
    }
    assert TableOk(t, o, p);
    forall g | g in t'
      ensures TableOk(t', o', g)
    {
      if g != f { assert TableOk(t, o, g); AddTableNext(t, o, p, i, f, g, i); }
    }
  }

  lemma AddTableTrans(t: Tables, o: Owner, p: Frame, i: int, f: Frame, d: Frame, w: Vpn)
    requires Shape(t, o) && Vacant(t, o, p, i, f)
    requires IsRoot(o, d) && Walkable(w)
    ensures Trans(AddTable(t, p, i, f), d, w) == Trans(t, d, w)
  {
    var t' := AddTable(t, p, i, f);
    var m := Next(t, d, Px(2, w));
    var l := Next(t, m, Px(1, w));
    AddTableNext(t, o, p, i, f, d, Px(2, w));
    AddTableNext(t, o, p, i, f, m, Px(1, w));
    AddTableNext(t, o, p, i, f, f, Px(1, w));
    AddTableNext(t, o, p, i, f, f, Px(0, w));
    AddTableNext(t, o, p, i, f, l, Px(0, w));
    AddTableNext(t, o, p, i, f, -1, Px(0, w));
    Descend(t, o, d, d, w, 2);
    if m != -1 { Descend(t, o, m, d, w, 1); }
  }

  lemma AddTableDirs(t: Tables, o: Owner, p: Frame, i: int, f: Frame)
    requires Shape(t, o) && Vacant(t, o, p, i, f)
    ensures var t', o' := AddTable(t, p, i, f), o[f := ChildPos(o, p, i)]; Shape(t', o') && Dirs(t', o') == Dirs(t, o)
  {
    hide Shape, Trans, Px, TableOk;
    var t', o' := AddTable(t, p, i, f), o[f := ChildPos(o, p, i)];
    AddTableShape(t, o, p, i, f);
    forall d, w | IsRoot(o, d) && Walkable(w)
      ensures Trans(t', d, w) == Trans(t, d, w)
    {
      AddTableTrans(t, o, p, i, f, d, w);
    }
    SameDirs(t, o, t', o');
  }

  // ------------------------------------------------------------------- runs of pages

  /** `m` with `n` pages from `lo` on mapped to consecutive frames. */
  ghost function Added(m: Mapping, lo: Vpn, n: nat, p: Pte): Mapping {
    if n == 0 then m else Added(m, lo, n - 1, p)[lo + n - 1 := p.(ppn := p.ppn + n - 1)]
  }

  /** Exactly the requested pages are added, and nothing else moves. */
  lemma {:induction false} AddedPages(m: Mapping, lo: Vpn, n: nat, p: Pte, v: Vpn)
    ensures v in Added(m, lo, n, p) <==> v in m || lo <= v < lo + n
    ensures lo <= v < lo + n ==> Added(m, lo, n, p)[v] == p.(ppn := p.ppn + (v - lo))
    ensures v in m && !(lo <= v < lo + n) ==> Added(m, lo, n, p)[v] == m[v]
  {
    if n > 0 { AddedPages(m, lo, n - 1, p, v); }
  }

  // ---------------------------------------------------------- making and dropping directories

  function NewRoot(): (z: Table)
    ensures |z| == ENTRIES && z[KERNEL_INDEX] == KERNEL && forall i :: 0 <= i < ENTRIES && i != KERNEL_INDEX ==>
      z[i] == ZERO
  {
    Zeros()[KERNEL_INDEX := KERNEL]
  }

  lemma NewRootShape(t: Tables, o: Owner, f: Frame)
    requires Shape(t, o) && f !in t && f != -1
    ensures Shape(t[f := NewRoot()], o[f := Top])
  {
    var t', o' := t[f := NewRoot()], o[f := Top];
    assert forall g, j :: g in t ==> Read(t', g, j) == Read(t, g, j);
    forall g | g in t'
      ensures TableOk(t', o', g)
    {
      if g != f { assert TableOk(t, o, g); }
    }
  }

  lemma NewRootTrans(t: Tables, o: Owner, f: Frame, d: Frame, w: Vpn)
    requires Shape(t, o) && f !in t && f != -1 && (d == f || IsRoot(o, d)) && Walkable(w)
    ensures Trans(t[f := NewRoot()], d, w) == if d == f then ZERO else Trans(t, d, w)
  {
    var t' := t[f := NewRoot()];
    PxRange(w);
    if d == f {
      assert Next(t', f, Px(2, w)) == -1;
    } else {
      Descend(t, o, d, d, w, 2);
      var m := Next(t, d, Px(2, w));
      assert Next(t', d, Px(2, w)) == m;
      if m != -1 { Descend(t, o, m, d, w, 1); }
    }
  }

  /** A new directory maps nothing outside the kernel's gigabyte; the others stay. */
  lemma NewRootDirs(t: Tables, o: Owner, f: Frame)
    requires Shape(t, o) && f !in t && f != -1
    ensures Shape(t[f := NewRoot()], o[f := Top])
    ensures Dirs(t[f := NewRoot()], o[f := Top]) == Dirs(t, o)[f := map[]]
  {
    hide TableOk, Trans, Px;
    var t', o' := t[f := NewRoot()], o[f := Top];
    NewRootShape(t, o, f);
    assert Roots(o') == Roots(o) + {f};
    forall d, w | (d == f || IsRoot(o, d)) && Walkable(w)
      ensures Trans(t', d, w) == if d == f then ZERO else Trans(t, d, w)
    {
      NewRootTrans(t, o, f, d, w);
    }
    forall d | d in Roots(o')
      ensures Flat(t', d) == if d == f then map[] else Flat(t, d)
    {
      if d != f { SameFlat(t, t', d); }
    }
  }

  /** Table `g` hangs somewhere below table `f`. */
  predicate Below(o: Owner, f: Frame, g: Frame)
    requires f in o && g in o
  {
    match o[f]
    case Top => !o[g].Top? && o[g].root == f
    case Mid(r, a) => o[g].Low? && o[g].root == r && o[g].i == a
    case Low(_, _, _) => false
  }

  /** Through which entry of `f`. */
  function Branch(o: Owner, f: Frame, g: Frame): int
    requires f in o && g in o && Below(o, f, g)
  {
    if o[f] == Top then o[g].i else o[g].j
  }

  ghost function BelowBefore(o: Owner, f: Frame, i: int): set<Frame>
    requires f in o
  {
    set g | g in o && Below(o, f, g) && Branch(o, f, g) < i
  }

  /** The tables of the subtree at `f`. */
  ghost function Subtree(o: Owner, f: Frame): set<Frame>
    requires f in o
  {
    {f} + set g | g in o && Below(o, f, g)
  }

  lemma BranchRange(t: Tables, o: Owner, f: Frame, g: Frame)
    requires Shape(t, o) && f in o && g in o && Below(o, f, g)
    ensures 0 <= Branch(o, f, g) < ENTRIES && IsPointer(t[f][Branch(o, f, g)])
    ensures var c := t[f][Branch(o, f, g)].pte.ppn; c in o && g in Subtree(o, c)
  {
    assert TableOk(t, o, g) && TableOk(t, o, f);
    var root, i := o[g].root, o[g].i;
    assert TableOk(t, o, root);
    if o[g].Low? {
      var m := Next(t, root, i);
      assert TableOk(t, o, m) && EntryOk(o, m, o[g].j, t[m][o[g].j]) && EntryOk(o, root, i, t[root][i]);
      if o[f].Mid? { assert TableOk(t, o, f); }
    } else {
      assert EntryOk(o, root, i, t[root][i]);
    }
  }

  lemma ChildOf(t: Tables, o: Owner, f: Frame, i: int)
    requires Shape(t, o) && f in o && 0 <= i < ENTRIES && |t[f]| == ENTRIES && IsPointer(t[f][i])
    ensures var c := t[f][i].pte.ppn;
      c in o && Below(o, f, c) && Branch(o, f, c) == i && !o[f].Low? && o[c] == ChildPos(o, f, i)
  {
    assert TableOk(t, o, f) && EntryOk(o, f, i, t[f][i]);
  }

  /** One entry adds the subtree it leads to, all of it new. */
  lemma BelowNext(t: Tables, o: Owner, f: Frame, i: int)
    requires Shape(t, o) && f in o && f in t && 0 <= i < ENTRIES && |t[f]| == ENTRIES
    ensures IsPointer(t[f][i]) ==> t[f][i].pte.ppn in o
    ensures var sub := if IsPointer(t[f][i]) then Subtree(o, t[f][i].pte.ppn) else {};
      BelowBefore(o, f, i + 1) == BelowBefore(o, f, i) + sub && BelowBefore(o, f, i) !! sub
  {
    hide Shape;
    if IsPointer(t[f][i]) { ChildOf(t, o, f, i); }
    var sub := if IsPointer(t[f][i]) then Subtree(o, t[f][i].pte.ppn) else {};
    forall g
      ensures g in BelowBefore(o, f, i + 1) <==> g in BelowBefore(o, f, i) || g in sub
      ensures g in sub ==> g !in BelowBefore(o, f, i)
    {
      if g in o && Below(o, f, g) { BranchRange(t, o, f, g); }
    }
  }

  lemma BelowAll(t: Tables, o: Owner, f: Frame)
    requires Shape(t, o) && f in o
    ensures Subtree(o, f) == {f} + BelowBefore(o, f, ENTRIES) && f !in BelowBefore(o, f, ENTRIES) &&
      BelowBefore(o, f, 0) == {}
  {
    hide Shape;
    forall g | g in o && Below(o, f, g)
      ensures 0 <= Branch(o, f, g) < ENTRIES
    {
      BranchRange(t, o, f, g);
    }
  }

  lemma DropShape(t: Tables, o: Owner, root: Frame)
    requires Shape(t, o) && IsRoot(o, root)
    ensures Shape(t - Subtree(o, root), o - Subtree(o, root))
  {
    var t', o' := t - Subtree(o, root), o - Subtree(o, root);
    forall g | g in t'
      ensures TableOk(t', o', g)
    {
      assert TableOk(t, o, g);
      forall i | 0 <= i < ENTRIES
        ensures EntryOk(o', g, i, t'[g][i])
      {
        assert EntryOk(o, g, i, t[g][i]);
      }
    }
  }

  lemma DropTrans(t: Tables, o: Owner, root: Frame, d: Frame, w: Vpn)
    requires Shape(t, o) && IsRoot(o, root) && IsRoot(o, d) && d != root && Walkable(w)
    ensures Trans(t - Subtree(o, root), d, w) == Trans(t, d, w)
  {
    Descend(t, o, d, d, w, 2);
    var m := Next(t, d, Px(2, w));
    if m != -1 { Descend(t, o, m, d, w, 1); }
  }

  /** Without the tables of one directory the other directories are as they were. */
  lemma DropDirs(t: Tables, o: Owner, root: Frame)
    requires Shape(t, o) && IsRoot(o, root)
    ensures Shape(t - Subtree(o, root), o - Subtree(o, root))
    ensures Dirs(t - Subtree(o, root), o - Subtree(o, root)) == Dirs(t, o) - {root}
  {
    hide Shape, Trans, Px;
    var t', o' := t - Subtree(o, root), o - Subtree(o, root);
    DropShape(t, o, root);
    assert Roots(o') == Roots(o) - {root};
    forall d | d in Roots(o')
      ensures Flat(t', d) == Flat(t, d)
    {
      forall w | Walkable(w)
        ensures Trans(t', d, w) == Trans(t, d, w)
      {
        DropTrans(t, o, root, d, w);
      }
      SameFlat(t, t', d);
    }
  }
}
