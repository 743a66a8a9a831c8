/** The page-table operations of kernel/memory/paging.c.  Frames hold either a table, the contents
    of a user page, or nothing; `refs` is the reference field of the page information. */
module Paging {
  import opened CowSpec
  import opened CowRuns
  import opened PageTables
  import opened Sets

  /** A pointer to a table entry. */
  datatype PteRef = Null | Ref(table: int, index: int)

  datatype FaultOutcome = Code(value: int) | NullPointer

  /** How a fault on a user page ends: the page was writable; or it was shared and no frame was
      free; or it is now a writable page of its own. */
  ghost predicate Resolved(was: State, now: State, d: Dir, v: Vpn, r: FaultOutcome, f: int, full: bool) {
    && UserAt(was, d, v) && SlotOk(was, was.dirs[d][v]) && was.refs[was.dirs[d][v].ppn] > 0
    && var p := was.dirs[d][v];
      || (r == Code(-4) && p.w && now == was)
      || (r == Code(-2) && !p.w && was.refs[p.ppn] > 1 && full && now == was)
      || (r == Code(0) && !p.w && f !in was.data && now == FaultPage(was, d, v, f))
  }

  ghost predicate Extends(o: Owner, o': Owner) {
    forall f :: f in o ==> f in o' && o'[f] == o[f]
  }

  ghost predicate SameRefs(data: map<int, Page>, refs: map<int, nat>, refs': map<int, nat>) {
    forall f :: f in data ==> f in refs && f in refs' && refs'[f] == refs[f]
  }

  /** Tables may have been added from the free frames; nothing else about the frames changed. */
  ghost predicate Kept(data: map<int, Page>, o: Owner, o': Owner, refs: map<int, nat>, refs': map<int, nat>,
    free: set<int>, free': set<int>) {
    Extends(o, o') && SameRefs(data, refs, refs') && free' <= free
  }

  lemma KeptFacts(data: map<int, Page>, o: Owner, o': Owner, refs: map<int, nat>, refs': map<int, nat>,
    free: set<int>, free': set<int>)
    requires Kept(data, o, o', refs, refs', free, free')
    ensures Extends(o, o') && SameRefs(data, refs, refs') && free' <= free
  {
  }

  lemma KeptOn(data: map<int, Page>, o: Owner, o1: Owner, o2: Owner, refs: map<int, nat>, refs1: map<int, nat>,
    refs2: map<int, nat>,
    free: set<int>, free1: set<int>, free2: set<int>)
    requires Kept(data, o, o1, refs, refs1, free, free1) && Kept(data, o1, o2, refs1, refs2, free1, free2)
    ensures Kept(data, o, o2, refs, refs2, free, free2)
    ensures forall f :: IsRoot(o1, f) ==> IsRoot(o2, f)
  {
  }

  ghost function Counts(data: map<int, Page>, refs: map<int, nat>): map<int, nat> {
    map f | f in data && f in refs :: refs[f]
  }

  lemma SameCounts(data: map<int, Page>, refs: map<int, nat>, refs': map<int, nat>)
    requires SameRefs(data, refs, refs')
    ensures Counts(data, refs') == Counts(data, refs)
  {
    var c: map<int, nat>, c': map<int, nat> := Counts(data, refs), Counts(data, refs');
    assert forall f: int :: f in c.Keys <==> f in c'.Keys;
    assert c.Keys == c'.Keys;
    assert forall f: int :: f in c ==> c[f] == c'[f];
  }

  /** The pages before `lo + n` were free and are mapped; on success that is all of them, else page
      `lo + n` is where it stopped, on a page mapped before exactly when the result is -2. */
  ghost predicate MapOutcome(was: Mapping, lo: Vpn, last: Vpn, result: int, n: nat) {
    && (forall v :: lo <= v < lo + n ==> v !in was)
    && (result == 0 ==> lo + n == last + 1)
    && (result != 0 ==> (result == -1 || result == -2) && lo + n <= last && (result == -2 <==> lo + n in was))
  }

  // -------------------------------------------------------------------- device mappings

  /** A range of device memory every directory maps: struct mem_sysmap. */
  datatype Sysmap = Sysmap(va: nat, pa: nat, size: nat, r: bool, w: bool, x: bool)

  ghost predicate Mappable(m: Sysmap) {
    m.size > 0 && (m.r || m.x) && forall v :: Covers(m, v) ==> Walkable(v)
  }

  predicate Covers(m: Sysmap, v: Vpn) {
    m.va / 4096 <= v <= (m.va + m.size - 1) / 4096
  }

  function SysEntry(m: Sysmap): Pte {
    Pte(m.r, m.w, m.x, false, true, m.pa / 4096)
  }

  /** Page `v` is mapped by entry `j` of the list, as a page of the kernel. */
  ghost predicate SysPage(cur: Mapping, maps: seq<Sysmap>, v: Vpn, j: int) {
    0 <= j < |maps| && Covers(maps[j], v) && v in cur &&
      cur[v] == SysEntry(maps[j]).(ppn := maps[j].pa / 4096 + (v - maps[j].va / 4096))
  }

  /** Only device pages are mapped, each as its list entry says. */
  ghost predicate OnlyDevices(cur: Mapping, maps: seq<Sysmap>) {
    forall v :: v in cur ==> exists j :: SysPage(cur, maps, v, j)
  }

  /** No process can touch any of the pages, and they are the same in every directory. */
  ghost predicate KernelPages(m: Mapping) {
    NoUser(m) && forall v :: v in m ==> m[v].g
  }

  lemma DevicesKernel(cur: Mapping, maps: seq<Sysmap>)
    requires OnlyDevices(cur, maps)
    ensures KernelPages(cur)
  {
    forall v | v in cur
      ensures !cur[v].u && cur[v].g
    {
      var j :| SysPage(cur, maps, v, j);
    }
  }

  ghost predicate AllDevices(cur: Mapping, maps: seq<Sysmap>, k: int)
    requires 0 <= k <= |maps|
  {
    forall j, v :: 0 <= j < k && Covers(maps[j], v) ==> v in cur
  }

  ghost predicate Apart(maps: seq<Sysmap>) {
    forall i, j :: 0 <= i < j < |maps| ==> Separate(maps[i], maps[j])
  }

  predicate Separate(a: Sysmap, b: Sysmap) {
    (a.va + a.size - 1) / 4096 < b.va / 4096 || (b.va + b.size - 1) / 4096 < a.va / 4096
  }

  lemma NotBoth(a: Sysmap, b: Sysmap, v: Vpn)
    requires Separate(a, b) && Covers(b, v)
    ensures !Covers(a, v)
  {
  }

  lemma AddSysmap(cur: Mapping, maps: seq<Sysmap>, k: int, n: nat, result: int)
    requires 0 <= k < |maps| && OnlyDevices(cur, maps[..k])
    requires MapOutcome(cur, maps[k].va / 4096, (maps[k].va + maps[k].size - 1) / 4096, result, n) && maps[k].size > 0
    ensures OnlyDevices(Added(cur, maps[k].va / 4096, n, SysEntry(maps[k])), maps[..k + 1])
    ensures Apart(maps) && AllDevices(cur, maps, k) && result != -1 ==>
      AllDevices(Added(cur, maps[k].va / 4096, n, SysEntry(maps[k])), maps, k + 1)
  {
    var lo := maps[k].va / 4096;
    var cur', upto := Added(cur, lo, n, SysEntry(maps[k])), maps[..k + 1];
    forall v | v in cur'
      ensures exists j :: SysPage(cur', upto, v, j)
    {
      AddedPages(cur, lo, n, SysEntry(maps[k]), v);
      if lo <= v < lo + n {
        assert SysPage(cur', upto, v, k);
      } else {
        var j :| SysPage(cur, maps[..k], v, j);
        assert SysPage(cur', upto, v, j);
      }
    }
    if Apart(maps) && result == -2 { FreshRange(cur, maps, k, lo + n); }
    forall j, v | AllDevices(cur, maps, k) && 0 <= j < k + 1 && Covers(maps[j], v) && result == 0
      ensures v in cur'
    {
      AddedPages(cur, lo, n, SysEntry(maps[k]), v);
    }
  }

  lemma NoDevices(maps: seq<Sysmap>)
    ensures OnlyDevices(map[], maps[..0]) && AllDevices(map[], maps, 0)
  {
  }

  lemma FreshRange(cur: Mapping, maps: seq<Sysmap>, k: int, v: Vpn)
    requires 0 <= k < |maps| && OnlyDevices(cur, maps[..k]) && Apart(maps) && Covers(maps[k], v)
    ensures v !in cur
  {
    if v in cur {
      var j :| SysPage(cur, maps[..k], v, j);
      NotBoth(maps[j], maps[k], v);
    }
  }

  predicate InFrames(f: int, first: int, last: int) {
    first <= f < last
  }

  function Frames(first: int, last: int): set<int> {
    set f | first <= f < last && InFrames(f, first, last)
  }

  lemma FirstDir(f: int)
    requires f > 0
    ensures Shape(map[f := NewRoot()], map[f := Top]) && Dirs(map[f := NewRoot()], map[f := Top]) == map[f := map[]]
  {
    hide TableOk, Trans;
    var t: Tables, o: Owner := map[], map[];
    NewRootDirs(t, o, f);
    assert t[f := NewRoot()] == map[f := NewRoot()] && o[f := Top] == map[f := Top];
    assert Dirs(t, o) == map[];
  }

  lemma OneDirInv(f: int)
    ensures Inv(State(map[f := map[]], map[], map[]))
  {
  }

  class Paging {
    var tables: Tables
    var refs: map<int, nat>
    var data: map<int, Page>
    var free: set<int>
    ghost var owner: Owner
    /** The usable memory, as frame numbers. */
    const start: int
    const end: int
    const kernelDir: int

    predicate Usable(f: int) {
      start <= f < end
    }

    ghost predicate Placed()
      reads this
    {
      && 0 < start && tables.Keys == owner.Keys && tables.Keys !! data.Keys && tables.Keys !! free && data.Keys !! free
      && (forall f :: f in tables ==> Usable(f))
      && (forall f :: f in data ==> Usable(f) && f in refs)
      && (forall f :: f in free ==> Usable(f))
    }

    ghost predicate Valid()
      reads this
    {
      Shape(tables, owner) && Placed()
    }

    /** The address spaces the tables denote. */
    ghost function Abs(): State
      reads this
    {
      State(Dirs(tables, owner), Counts(data, refs), data)
    }

    lemma KeptSelf()
      requires Valid()
      ensures Kept(data, owner, owner, refs, refs, free, free)
    {
    }

    /** init_paging: the directory of the kernel, on the first frame ever taken.  With no frame at all
        the source writes through NULL. */
    constructor (first: int, last: int)
      requires 0 < first < last
      ensures Valid() && start == first && end == last && IsRoot(owner, kernelDir)
      ensures first <= kernelDir < last && free == Frames(first, last) - {kernelDir}
      ensures Abs() == State(map[kernelDir := map[]], map[], map[]) && Inv(Abs())
    {
      var f: int :| first <= f < last;
      start, end, kernelDir := first, last, f;
      tables, owner := map[f := NewRoot()], map[f := Top];
      refs, data, free := map[f := 1], map[], Frames(first, last) - {f};
      new;
      hide Shape, Dirs, TableOk, Trans;
      FirstDir(f);
      OneDirInv(f);
    }

    // ------------------------------------------------------------------- the page allocator

    /** page_alloc(1): it fails only when no page is free. */
    method PageAlloc() returns (ok: bool, f: int)
      modifies this`free, this`refs
      ensures ok <==> old(free) != {}
      ensures ok ==> f in old(free) && free == old(free) - {f} && refs == old(refs)[f := 1]
      ensures !ok ==> free == old(free) && refs == old(refs)
    {
      if free == {} {
        return false, 0;
      }
      HasMember(free);
      f :| f in free;
      free, refs := free - {f}, refs[f := 1];
      ok := true;
    }

    // ---------------------------------------------------------------------- walk_pages

    /** The part of walk_pages that makes a table of the next level under entry `i` of `dir`. */
    method NewTable(dir: int, i: int) returns (ok: bool, f: int)
      requires Valid() && dir in owner && !owner[dir].Low? && |tables[dir]| == ENTRIES && 0 <= i < ENTRIES
      requires !(owner[dir] == Top && i == KERNEL_INDEX) && tables[dir][i] == ZERO
      modifies this`tables, this`refs, this`free, this`owner
      ensures Valid() && Dirs(tables, owner) == old(Dirs(tables, owner))
      ensures ok ==> f in old(free) && free == old(free) - {f} && refs == old(refs)[f := 1]
      ensures ok ==> owner == old(owner[f := ChildPos(owner, dir, i)])
      ensures !ok ==>
        free == {} && tables == old(tables) && refs == old(refs) && free == old(free) && owner == old(owner)
    {
      hide Shape, Dirs, TableOk;
      ok, f := PageAlloc();
      if ok {
        AddTableDirs(tables, owner, dir, i, f);
        ghost var t' := AddTable(tables, dir, i, f);
        owner := owner[f := ChildPos(owner, dir, i)];
        tables := tables[f := Zeros()];
        var e := tables[dir][i];
        tables := tables[dir := tables[dir][i := e.(v := true, pte := e.pte.(ppn := f))]];
        assert tables == t';
      }
    }

    /** The entry of page `v`.  With `alloc` missing tables are made on the way, and no translation
        of any directory changes; without it nothing changes. */
    method WalkPages(root: int, v: Vpn, alloc: bool) returns (pte: PteRef)
      requires Valid() && IsRoot(owner, root) && Walkable(v)
      modifies this`tables, this`refs, this`free, this`owner
      ensures Valid() && Dirs(tables, owner) == old(Dirs(tables, owner))
      ensures Extends(old(owner), owner) && SameRefs(data, old(refs), refs)
      ensures free == old(free) - (owner.Keys - old(owner.Keys)) && owner.Keys - old(owner.Keys) <= old(free)
      ensures !alloc ==> tables == old(tables) && refs == old(refs) && free == old(free) && owner == old(owner)
      ensures pte.Ref? ==> At(owner, pte.table, root, v, 0) && pte.index == Px(0, v)
      ensures pte == Null && alloc ==> free == {}
      ensures pte == Null ==> !Trans(tables, root, v).v
      ensures pte == Null <==> LowTable(tables, root, v) == -1
    {
      hide Shape, Dirs, TableOk, Trans, LowTable;
      var dir, level := root, 2;
      while level > 0
        invariant 0 <= level <= 2
        invariant Valid() && Dirs(tables, owner) == old(Dirs(tables, owner)) && At(owner, dir, root, v, level)
        invariant Extends(old(owner), owner) && SameRefs(data, old(refs), refs)
        invariant free == old(free) - (owner.Keys - old(owner.Keys)) && owner.Keys - old(owner.Keys) <= old(free)
        invariant !alloc ==> tables == old(tables) && refs == old(refs) && free == old(free) && owner == old(owner)
      {
        Descend(tables, owner, dir, root, v, level);
        var e := tables[dir][Px(level, v)];
        if e.v {
          dir := e.pte.ppn;
        } else {
          NoPath(tables, owner, dir, root, v, level);
          if !alloc {
            return Null;
          }
          var ok, f := NewTable(dir, Px(level, v));
          if !ok {
            return Null;
          }
          dir := f;
        }
        level := level - 1;
      }
      Found(tables, owner, dir, root, v, 0);
      pte := Ref(dir, Px(0, v));
    }

    /** What an entry holds is what its directory says about the page. */
    lemma RefEntry(pte: PteRef, root: int, v: Vpn)
      requires Valid() && Walkable(v) && pte.Ref? && At(owner, pte.table, root, v, 0) && pte.index == Px(0, v)
      ensures pte.table in tables && 0 <= pte.index < |tables[pte.table]| == ENTRIES
      ensures Trans(tables, root, v) == tables[pte.table][pte.index] && root in Dirs(tables, owner)
      ensures var e := tables[pte.table][pte.index];
        if e.v then IsLeaf(e) && v in Dirs(tables, owner)[root] && Dirs(tables, owner)[root][v] == e.pte
        else e == ZERO && v !in Dirs(tables, owner)[root]
    {
      hide Shape, TableOk, Trans;
      LowEntry(tables, owner, pte.table, root, v);
      assert Dirs(tables, owner)[root] == Flat(tables, root);
    }

    /** Writes an entry through its pointer: one page of one directory changes. */
    method WritePte(pte: PteRef, e: Entry, ghost root: int, ghost v: Vpn)
      requires Valid() && Walkable(v) && pte.Ref? && At(owner, pte.table, root, v, 0) && pte.index == Px(0, v)
      requires IsLeaf(e) || e == ZERO
      modifies this`tables
      ensures Valid() && root in old(Dirs(tables, owner))
      ensures Dirs(tables, owner) == SetPage(old(Dirs(tables, owner)), root, v, e)
    {
      hide Shape, Dirs, TableOk, Trans;
      SetLeafDirs(tables, owner, pte.table, root, v, e);
      tables := tables[pte.table := tables[pte.table][pte.index := e]];
    }

    // ----------------------------------------------------------------------- map_pages

    /** One turn of the loop of map_pages. */
    method MapOne(root: int, v: Vpn, p: Pte) returns (result: int)
      requires Valid() && IsRoot(owner, root) && Walkable(v) && (p.r || p.x)
      modifies this`tables, this`refs, this`free, this`owner
      ensures Valid() && Kept(data, old(owner), owner, old(refs), refs, old(free), free)
      ensures root in old(Dirs(tables, owner)) && result in {0, -1, -2}
      ensures result == -2 <==> v in old(Dirs(tables, owner))[root]
      ensures result == 0 ==> Dirs(tables, owner) == SetPage(old(Dirs(tables, owner)), root, v, Entry(true, p))
      ensures result != 0 ==> Dirs(tables, owner) == old(Dirs(tables, owner))
      ensures result == -1 ==> free == {}
    {
      hide Shape, Dirs, TableOk, Trans, Walkable;
      RootInDirs(tables, owner, root);
      var pte := WalkPages(root, v, true);
      if pte == Null {
        NotMapped(tables, owner, root, v);
        return -1;
      }
      RefEntry(pte, root, v);
      if tables[pte.table][pte.index].v {
        return -2;
      }
      WritePte(pte, Entry(true, p), root, v);
      return 0;
    }

    /** The loop of map_pages, from page `lo` to page `last`. */
    method MapRange(root: int, lo: Vpn, last: Vpn, entry: Pte) returns (result: int, ghost n: nat)
      requires Valid() && IsRoot(owner, root) && lo <= last && (entry.r || entry.x)
      requires forall v :: lo <= v <= last ==> Walkable(v)
      modifies this`tables, this`refs, this`free, this`owner
      ensures Valid() && Kept(data, old(owner), owner, old(refs), refs, old(free), free)
      ensures root in old(Dirs(tables, owner))
      ensures var was := old(Dirs(tables, owner)); Dirs(tables, owner) == was[root := Added(was[root], lo, n, entry)]
      ensures MapOutcome(old(Dirs(tables, owner))[root], lo, last, result, n)
      ensures result == -1 ==> free == {}
    {
      hide Shape, Dirs, TableOk, Trans, Walkable, Placed, Kept;
      KeptSelf();
      var a, p := lo, entry.ppn;
      ghost var was := Dirs(tables, owner);
      n := 0;
      RootInDirs(tables, owner, root);
      while true
        invariant lo <= a <= last && n == a - lo && p == entry.ppn + n
        invariant Valid() && IsRoot(owner, root) && Kept(data, old(owner), owner, old(refs), refs, old(free), free)
        invariant root in was && Dirs(tables, owner) == was[root := Added(was[root], lo, n, entry)]
        invariant forall v :: lo <= v < a ==> v !in was[root]
        decreases last - a
      {
        AddedPages(was[root], lo, n, entry, a);
        ghost var o, refs0, free0 := owner, refs, free;
        result := MapOne(root, a, entry.(ppn := p));
        KeptOn(data, old(owner), o, owner, old(refs), refs0, refs, old(free), free0, free);
        if result != 0 {
          return;
        }
        n := n + 1;
        if a == last {
          break;
        }
        a, p := a + 1, p + 1;
      }
    }

    /** map_pages.  `n` pages are mapped before it stops: all of them on success (0), those before
        the first page that was mapped already (-2), or those before memory ran out (-1). */
    method MapPages(root: int, va: nat, pa: nat, size: nat, r: bool, w: bool, x: bool, user: bool, global: bool)
      returns (result: int, ghost n: nat)
      requires Valid() && IsRoot(owner, root) && size > 0 && (r || x)
      requires forall v :: va / 4096 <= v <= (va + size - 1) / 4096 ==> Walkable(v)
      modifies this`tables, this`refs, this`free, this`owner
      ensures Valid() && Kept(data, old(owner), owner, old(refs), refs, old(free), free)
      ensures root in old(Dirs(tables, owner))
      ensures var was := old(Dirs(tables, owner));
        Dirs(tables, owner) == was[root := Added(was[root], va / 4096, n, Pte(r, w, x, user, global, pa / 4096))]
      ensures MapOutcome(old(Dirs(tables, owner))[root], va / 4096, (va + size - 1) / 4096, result, n)
      ensures result == -1 ==> free == {}
    {
      hide Shape, Dirs, TableOk, Trans, Walkable, Placed, MapOutcome;
      result, n := MapRange(root, va / 4096, (va + size - 1) / 4096, Pte(r, w, x, user, global, pa / 4096));
    }

    // --------------------------------------------------------------------- unmap_pages

    /** page_free of one page. */
    method PageFree(f: int)
      requires f !in free
      modifies this`free, this`refs
      ensures free == old(free) + {f} && refs == old(refs)[f := 0]
    {
      free, refs := free + {f}, refs[f := 0];
    }

    /** A mapped page is found without making tables. */
    method WalkMapped(root: int, v: Vpn) returns (pte: PteRef)
      requires Valid() && IsRoot(owner, root) && Walkable(v) && v in Dirs(tables, owner)[root]
      modifies this`tables, this`refs, this`free, this`owner
      ensures tables == old(tables) && refs == old(refs) && free == old(free) && owner == old(owner)
      ensures pte.Ref? && At(owner, pte.table, root, v, 0) && pte.index == Px(0, v)
      ensures pte.table in tables && 0 <= pte.index < |tables[pte.table]|
      ensures tables[pte.table][pte.index] == Entry(true, Dirs(tables, owner)[root][v])
    {
      hide Shape, Dirs, TableOk, Trans, Walkable, Placed, Kept;
      pte := WalkPages(root, v, false);
      if pte == Null { NotMapped(tables, owner, root, v); }
      RefEntry(pte, root, v);
    }

    /** One turn of the loop of unmap_pages. */
    method UnmapOne(root: int, v: Vpn, doFree: bool)
      requires Valid() && Walkable(v) && IsRoot(owner, root) && UserAt(Abs(), root, v)
      requires SlotOk(Abs(), Abs().dirs[root][v]) && Abs().refs[Abs().dirs[root][v].ppn] > 0
      modifies this
      ensures Valid() && owner == old(owner) && Abs() == Unmap(old(Abs()), root, v, doFree)
      ensures data.Keys + free == old(data.Keys + free)
    {
      hide Shape, Dirs, TableOk, Trans, Walkable;
      var pte := WalkMapped(root, v);
      var f := tables[pte.table][pte.index].pte.ppn;
      refs := refs[f := refs[f] - 1];
      if doFree && refs[f] == 0 {
        PageFree(f);
        data := data - {f};
      }
      WritePte(pte, ZERO, root, v);
    }

    /** unmap_pages on mapped user pages: `n` of them from address `va` on; false is the panic on an
        address inside a page.  With `doFree` each frame goes back to the allocator with its last
        mapping; no table does. */
    method UnmapPages(root: int, va: nat, n: nat, doFree: bool) returns (ok: bool)
      requires Valid() && IsRoot(owner, root) && CanUnmap(Abs(), root, va / 4096, va / 4096 + n)
      requires forall v :: va / 4096 <= v < va / 4096 + n ==> Walkable(v)
      modifies this
      ensures Valid() && owner == old(owner) && (ok <==> va % 4096 == 0)
      ensures Abs() == if ok then UnmapRange(old(Abs()), root, va / 4096, va / 4096 + n, doFree) else old(Abs())
      ensures data.Keys + free == old(data.Keys + free)
    {
      hide Shape, Dirs, TableOk, Trans, Walkable, Placed, Inv, UnmapRange, Unmap;
      ok := va % 4096 == 0;
      if !ok {
        return;
      }
      var lo := va / 4096;
      var a := lo;
      while a < lo + n
        invariant lo <= a <= lo + n && Valid() && owner == old(owner)
        invariant CanUnmap(Abs(), root, a, lo + n)
        invariant UnmapRange(Abs(), root, a, lo + n, doFree) == UnmapRange(old(Abs()), root, lo, lo + n, doFree)
        invariant data.Keys + free == old(data.Keys + free)
      {
        UnmapNext(Abs(), root, a, lo + n, doFree);
        UnmapOne(root, a, doFree);
        a := a + 1;
      }
      UnmapNone(Abs(), root, a, lo + n, doFree);
    }

    // ------------------------------------------------------------------------- vm_copy

    /** The child's entry becomes a copy of the parent's, and both lose the write bit. */
    method ShareFrame(cpte: PteRef, pte: PteRef, ghost dst: int, ghost src: int, ghost v: Vpn)
      requires Valid() && Walkable(v) && UserAt(Abs(), src, v) && Abs().dirs[src][v].ppn in Abs().refs
      requires cpte.Ref? && At(owner, cpte.table, dst, v, 0) && cpte.index == Px(0, v)
      requires pte.Ref? && At(owner, pte.table, src, v, 0) && pte.index == Px(0, v)
      requires dst in Abs().dirs && v !in Abs().dirs[dst]
      modifies this`tables, this`refs
      ensures Valid() && Abs() == ForkPage(old(Abs()), dst, src, v)
    {
      hide Shape, Dirs, TableOk, Trans, Walkable;
      RefEntry(pte, src, v);
      var p := tables[pte.table][pte.index].pte;
      WritePte(cpte, Entry(true, p.(w := false)), dst, v);
      refs := refs[p.ppn := refs[p.ppn] + 1];
      WritePte(pte, Entry(true, p.(w := false)), src, v);
    }

    /** One turn of the loop of vm_copy; false is the panic when no table can be made. */
    method CopyOne(dst: int, src: int, v: Vpn) returns (ok: bool)
      requires Valid() && Walkable(v) && IsRoot(owner, dst) && IsRoot(owner, src)
      requires UserAt(Abs(), src, v) && Abs().dirs[src][v].ppn in Abs().refs && v !in Abs().dirs[dst]
      modifies this`tables, this`refs, this`free, this`owner
      ensures Valid() && Extends(old(owner), owner) && free <= old(free)
      ensures ok ==> Abs() == ForkPage(old(Abs()), dst, src, v)
      ensures !ok ==> free == {}
    {
      hide Shape, Dirs, TableOk, Trans, Walkable, Counts;
      ghost var was := refs;
      RootInDirs(tables, owner, dst);
      var pte := WalkMapped(src, v);
      var cpte := WalkPages(dst, v, true);
      if cpte == Null {
        return false;
      }
      SameCounts(data, was, refs);
      ShareFrame(cpte, pte, dst, src, v);
      return true;
    }

    /** vm_copy of every page that [from, to) touches; false is the panic when no table can be made. */
    method VmCopy(dst: int, src: int, from: nat, to: nat) returns (ok: bool)
      requires Valid() && IsRoot(owner, dst) && IsRoot(owner, src)
      requires CanFork(Abs(), dst, src, from / 4096, (to + 4095) / 4096)
      requires forall v :: from / 4096 <= v < (to + 4095) / 4096 ==> Walkable(v)
      modifies this`tables, this`refs, this`free, this`owner
      ensures Valid() && Extends(old(owner), owner) && free <= old(free)
      ensures ok ==> Abs() == ForkRange(old(Abs()), dst, src, from / 4096, (to + 4095) / 4096)
      ensures !ok ==> free == {}
    {
      hide Shape, Dirs, TableOk, Trans, Walkable, Placed, ForkRange, ForkPage, CanFork;
      var lo, hi := from / 4096, (to + 4095) / 4096;
      var a := lo;
      ok := true;
      while a < hi
        invariant (lo <= a <= hi || a == lo > hi) && Valid() && Extends(old(owner), owner) && free <= old(free)
        invariant CanFork(Abs(), dst, src, a, hi)
        invariant ForkRange(Abs(), dst, src, a, hi) == ForkRange(old(Abs()), dst, src, lo, hi)
      {
        ForkNext(Abs(), dst, src, a, hi);
        ok := CopyOne(dst, src, a);
        if !ok {
          return;
        }
        a := a + 1;
      }
      ForkNone(Abs(), dst, src, a, hi);
    }

    // -------------------------------------------------------------------- do_pagefault

    /** The copy of a shared page into a new frame. */
    method CopyShared(pte: PteRef, p: Pte, ghost root: int, ghost v: Vpn) returns (ok: bool, f: int)
      requires Valid() && Walkable(v) && pte.Ref? && At(owner, pte.table, root, v, 0) && pte.index == Px(0, v)
      requires UserAt(Abs(), root, v) && SlotOk(Abs(), Abs().dirs[root][v]) && p == Abs().dirs[root][v] && (p.r || p.x)
      requires Abs().refs[p.ppn] > 0
      modifies this
      ensures Valid() && owner == old(owner) && data.Keys + free == old(data.Keys + free)
      ensures ok <==> old(free) != {}
      ensures ok ==> old(f !in data) && Abs() == CopyPage(old(Abs()), root, v, f)
      ensures !ok ==> Abs() == old(Abs()) && free == old(free)
    {
      hide Shape, Dirs, TableOk, Trans, Walkable;
      ok, f := PageAlloc();
      if ok {
        data := data[f := data[p.ppn]];
        refs := refs[p.ppn := refs[p.ppn] - 1];
        WritePte(pte, Entry(true, p.(w := true, ppn := f)), root, v);
      }
    }

    /** The end of do_pagefault, once the entry is known to map a user page. */
    method BreakSharing(pte: PteRef, ghost root: int, ghost v: Vpn) returns (code: int, ghost f: int)
      requires Valid() && Walkable(v) && pte.Ref? && At(owner, pte.table, root, v, 0) && pte.index == Px(0, v)
      requires UserAt(Abs(), root, v) && SlotOk(Abs(), Abs().dirs[root][v]) && Abs().refs[Abs().dirs[root][v].ppn] > 0
      modifies this
      ensures Valid() && owner == old(owner)
      ensures Resolved(old(Abs()), Abs(), root, v, Code(code), f, old(free) == {})
      ensures code != 0 ==> free == old(free)
      ensures data.Keys + free == old(data.Keys + free)
    {
      hide Shape, Dirs, TableOk, Trans, Walkable;
      RefEntry(pte, root, v);
      var p := tables[pte.table][pte.index].pte;
      f := 0;
      if p.w {
        return -4, f;
      }
      if refs[p.ppn] == 1 {
        WritePte(pte, Entry(true, p.(w := true)), root, v);
      } else {
        var ok;
        ok, f := CopyShared(pte, p, root, v);
        if !ok {
          return -2, f;
        }
      }
      return 0, f;
    }

    /** What do_pagefault answers before it looks at sharing; 0 stands for a user page. */
    ghost function EarlyOutcome(va: nat, root: int, hasProc: bool): FaultOutcome
      reads this
    {
      var v := va / 4096;
      if !hasProc then Code(-5)
      else if va >= 0x8000_0000 then Code(-3)
      else if LowTable(tables, root, v) == -1 then NullPointer
      else if !UserAt(Abs(), root, v) then Code(-3)
      else Code(0)
    }

    /** do_pagefault.  The answer -1 for an address without tables is never given: the entry is read
        before it is compared with NULL. */
    method DoPagefault(va: nat, root: int, hasProc: bool, fromKernel: bool, umem: bool)
      returns (r: FaultOutcome, umem': bool, ghost f: int)
      requires Valid() && IsRoot(owner, root) && Inv(Abs())
      requires forall v :: v in Flat(tables, root) && !Flat(tables, root)[v].u ==> !Usable(Flat(tables, root)[v].ppn)
      modifies this
      ensures Valid() && owner == old(owner) && data.Keys + free == old(data.Keys + free)
      ensures var early, unlock := old(EarlyOutcome(va, root, hasProc)), fromKernel && !umem;
        && (early != Code(0) ==> r == early)
        && (early == Code(0) && unlock ==> r == Code(0) && umem')
        && (early != Code(0) || unlock ==> Abs() == old(Abs()) && free == old(free))
        && (!(early == Code(0) && unlock) ==> umem' == umem)
      ensures old(EarlyOutcome(va, root, hasProc)) == Code(0) && !(fromKernel && !umem) ==>
        Resolved(old(Abs()), Abs(), root, va / 4096, r, f, old(free) == {})
    {
      hide Shape, Dirs, TableOk, Trans, LowTable, Placed, Inv;
      umem', f := umem, 0;
      if !hasProc {
        return Code(-5), umem', f;
      }
      if va >= 0x8000_0000 {
        return Code(-3), umem', f;
      }
      var v := va / 4096;
      RootInDirs(tables, owner, root);
      var pte := WalkPages(root, v, false);
      if pte == Null {
        return NullPointer, umem', f;
      }
      RefEntry(pte, root, v);
      var p := tables[pte.table][pte.index].pte;
      MappedFrame(root, v);
      if !Usable(p.ppn) {
        return Code(-3), umem', f;
      }
      if fromKernel && !umem {
        return Code(0), true, f;
      }
      var code;
      code, f := BreakSharing(pte, root, v);
      return Code(code), umem', f;
    }

    ghost predicate Faulted(root: int, v: Vpn)
      reads this
    {
      UserAt(Abs(), root, v) && SlotOk(Abs(), Abs().dirs[root][v]) && Abs().refs[Abs().dirs[root][v].ppn] > 0
    }

    /** A user page is behind a usable frame, everything else is not. */
    lemma MappedFrame(root: int, v: Vpn)
      requires Valid() && IsRoot(owner, root) && Inv(Abs()) && root in Dirs(tables, owner)
      requires forall w :: w in Flat(tables, root) && !Flat(tables, root)[w].u ==> !Usable(Flat(tables, root)[w].ppn)
      ensures UserAt(Abs(), root, v) ==> Faulted(root, v) && Usable(Abs().dirs[root][v].ppn)
      ensures v in Dirs(tables, owner)[root] && !UserAt(Abs(), root, v) ==> !Usable(Dirs(tables, owner)[root][v].ppn)
      ensures !Usable(0)
    {
      hide Shape, TableOk, Trans, Inv, Flat;
      if UserAt(Abs(), root, v) { Mapped(Abs(), root, v); }
    }

    // ----------------------------------------------------------------- dealloc_page_dir

    /** do_pde_free on a subtree of the tables `t0`.  Leaf tables are at level 2, so the test for
        level 3 is never true and what they still map is not looked at. */
    method DoPdeFree(pde: int, level: int, ghost t0: Tables, ghost o0: Owner)
      requires Shape(t0, o0) && pde in o0 && level == (if o0[pde].Top? then 0 else if o0[pde].Mid? then 1 else 2)
      requires forall g :: g in Subtree(o0, pde) ==> g in tables && tables[g] == t0[g] && g !in free
      modifies this`tables, this`refs, this`free
      ensures tables == old(tables) - Subtree(o0, pde) && free == old(free) + Subtree(o0, pde)
      ensures forall g :: g in old(refs) && g !in Subtree(o0, pde) ==> g in refs && refs[g] == old(refs)[g]
      decreases 3 - level
    {
      hide Shape, TableOk;
      BelowAll(t0, o0, pde);
      TableLength(t0, o0, pde);
      var i := 0;
      while i < ENTRIES
        invariant 0 <= i <= ENTRIES
        invariant tables == old(tables) - BelowBefore(o0, pde, i) && free == old(free) + BelowBefore(o0, pde, i)
        invariant BelowBefore(o0, pde, i) <= Subtree(o0, pde)
        invariant forall g :: g in old(refs) && g !in Subtree(o0, pde) ==> g in refs && refs[g] == old(refs)[g]
      {
        BelowNext(t0, o0, pde, i);
        var p := tables[pde][i];
        if IsPointer(p) {
          ChildOf(t0, o0, pde, i);
          DoPdeFree(p.pte.ppn, level + 1, t0, o0);
        }
        i := i + 1;
      }
      PageFree(pde);
      tables := tables - {pde};
    }

    /** dealloc_page_dir: each table of the directory is freed once, and nothing else is. */
    method DeallocPageDir(root: int)
      requires Valid() && IsRoot(owner, root)
      modifies this`tables, this`refs, this`free, this`owner
      ensures Valid() && owner == old(owner) - old(Subtree(owner, root))
      ensures free == old(free) + old(Subtree(owner, root)) && old(Subtree(owner, root)) !! old(free)
      ensures Abs() == old(Abs()).(dirs := old(Abs()).dirs - {root})
    {
      hide Shape, TableOk, Dirs;
      DropDirs(tables, owner, root);
      ghost var t0, o0 := tables, owner;
      assert Subtree(o0, root) <= tables.Keys;
      DoPdeFree(root, 0, t0, o0);
      owner := owner - Subtree(o0, root);
      SameCounts(data, old(refs), refs);
    }

    // ------------------------------------------------------------------- alloc_page_dir

    /** The directory alloc_page_dir starts from: nothing but the kernel's gigabyte. */
    method NewDir() returns (ok: bool, root: int)
      requires Valid()
      modifies this`tables, this`refs, this`free, this`owner
      ensures Valid() && (ok <==> old(free) != {})
      ensures !ok ==> Abs() == old(Abs()) && free == old(free) && SameRefs(data, old(refs), refs)
      ensures ok ==> root !in old(owner) && owner == old(owner)[root := Top]
      ensures ok ==> Kept(data, owner, owner, old(refs), refs, old(free), free)
      ensures ok ==> Dirs(tables, owner) == old(Dirs(tables, owner))[root := map[]]
    {
      hide Shape, Dirs, TableOk, Trans;
      ok, root := PageAlloc();
      if ok {
        NewRootDirs(tables, owner, root);
        tables, owner := tables[root := NewRoot()], owner[root := Top];
      }
    }

    /** alloc_page_dir.  The results of the device mappings are not looked at, so all of them are
        there only when memory did not run out and they do not overlap. */
    method AllocPageDir(maps: seq<Sysmap>) returns (ok: bool, root: int)
      requires Valid() && forall k :: 0 <= k < |maps| ==> Mappable(maps[k])
      modifies this`tables, this`refs, this`free, this`owner
      ensures Valid() && SameRefs(data, old(refs), refs) && (ok <==> old(free) != {})
      ensures !ok ==> Abs() == old(Abs()) && free == old(free)
      ensures ok ==> root !in old(owner) && IsRoot(owner, root) && root in Abs().dirs
      ensures ok ==> Abs() == old(Abs()).(dirs := old(Abs()).dirs[root := Abs().dirs[root]])
      ensures ok ==> OnlyDevices(Abs().dirs[root], maps) && KernelPages(Abs().dirs[root])
      ensures ok && free != {} && Apart(maps) ==> AllDevices(Abs().dirs[root], maps, |maps|)
    {
      hide Shape, Dirs, TableOk, Trans, Walkable, Placed, OnlyDevices, AllDevices, Apart, MapOutcome, SameRefs, Kept,
        KernelPages;
      ok, root := NewDir();
      if !ok {
        return;
      }
      ghost var cur: Mapping, o := map[], owner;
      NoDevices(maps);
      var k := 0;
      while k < |maps|
        invariant 0 <= k <= |maps| && Valid() && Kept(data, o, owner, old(refs), refs, old(free), free)
        invariant Dirs(tables, owner) == old(Dirs(tables, owner))[root := cur]
        invariant OnlyDevices(cur, maps[..k]) && (free != {} && Apart(maps) ==> AllDevices(cur, maps, k))
      {
        var m := maps[k];
        KeptFacts(data, o, owner, old(refs), refs, old(free), free);
        ghost var o1, refs1, free1 := owner, refs, free;
        var result, n := MapPages(root, m.va, m.pa, m.size, m.r, m.w, m.x, false, true);
        KeptFacts(data, o1, owner, refs1, refs, free1, free);
        KeptOn(data, o, o1, owner, old(refs), refs1, refs, old(free), free1, free);
        AddSysmap(cur, maps, k, n, result);
        cur := Added(cur, m.va / 4096, n, SysEntry(m));
        k := k + 1;
      }
      assert maps[..k] == maps;
      DevicesKernel(cur, maps);
      KeptFacts(data, o, owner, old(refs), refs, old(free), free);
      SameCounts(data, old(refs), refs);
    }
  }
}
