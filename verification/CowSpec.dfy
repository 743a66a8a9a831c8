/** Copy-on-write address spaces on values: what vm_copy, do_pagefault and unmap_pages of
    kernel/memory/paging.c do to the page mappings, the frame reference counts and the frame
    contents, and the machine that copies eagerly, which they refine. */
module CowSpec {
  type Frame = int
  type Dir = int
  type Vpn = int
  type Page = seq<int>

  /** A leaf entry.  `r`, `w`, `x` are the bits of its type field. */
  datatype Pte = Pte(r: bool, w: bool, x: bool, u: bool, g: bool, ppn: Frame)

  type Mapping = map<Vpn, Pte>

  datatype State = State(dirs: map<Dir, Mapping>, refs: map<Frame, nat>, data: map<Frame, Page>)

  datatype Slot = Slot(d: Dir, v: Vpn)

  // ------------------------------------------------------------------- invariant

  /** `d` maps a user page at `v`. */
  predicate UserAt(s: State, d: Dir, v: Vpn) {
    d in s.dirs && v in s.dirs[d] && s.dirs[d][v].u
  }

  ghost function Slots(s: State): set<Slot> {
    set d, v | d in s.dirs && v in s.dirs[d] && UserAt(s, d, v) :: Slot(d, v)
  }

  /** The mappings of frame `f` in all directories. */
  ghost function Mappers(s: State, f: Frame): set<Slot> {
    set t | t in Slots(s) && s.dirs[t.d][t.v].ppn == f
  }

  /** Every user mapping leads to an allocated frame, and a writable one is its only mapping;
      the reference count of a frame is the number of its mappings. */
  ghost predicate Inv(s: State) {
    SlotsOk(s) && CountsOk(s)
  }

  ghost predicate SlotsOk(s: State) {
    forall d, v :: UserAt(s, d, v) ==> SlotOk(s, s.dirs[d][v])
  }

  ghost predicate CountsOk(s: State) {
    forall f :: f in s.data ==> FrameOk(s, f)
  }

  ghost predicate FrameOk(s: State, f: Frame) {
    f in s.refs && s.refs[f] == |Mappers(s, f)|
  }

  ghost predicate SlotOk(s: State, p: Pte) {
    p.ppn in s.data && p.ppn in s.refs && (p.w ==> s.refs[p.ppn] == 1)
  }

  // -------------------------------------------------------------------- operations

  function SetPte(s: State, d: Dir, v: Vpn, p: Pte): State
    requires d in s.dirs
  {
    s.(dirs := s.dirs[d := s.dirs[d][v := p]])
  }

  /** One page of vm_copy: both mappings lose the write bit and share the frame. */
  function ForkPage(s: State, dst: Dir, src: Dir, v: Vpn): State
    requires UserAt(s, src, v) && dst in s.dirs && s.dirs[src][v].ppn in s.refs
  {
    var p := s.dirs[src][v].(w := false);
    var s1 := SetPte(SetPte(s, dst, v, p), src, v, p);
    s1.(refs := s.refs[p.ppn := s.refs[p.ppn] + 1])
  }

  /** do_pagefault on a page that is not shared: the write bit is simply set. */
  function Unprotect(s: State, d: Dir, v: Vpn): State
    requires UserAt(s, d, v)
  {
    SetPte(s, d, v, s.dirs[d][v].(w := true))
  }

  /** do_pagefault on a shared page: a private copy in the fresh frame `f`. */
  function CopyPage(s: State, d: Dir, v: Vpn, f: Frame): State
    requires UserAt(s, d, v) && SlotOk(s, s.dirs[d][v]) && s.refs[s.dirs[d][v].ppn] > 0
  {
    var p := s.dirs[d][v];
    var s1 := SetPte(s, d, v, p.(w := true, ppn := f));
    s1.(refs := s.refs[f := 1][p.ppn := s.refs[p.ppn] - 1], data := s.data[f := s.data[p.ppn]])
  }

  /** A store through a writable mapping. */
  function Store(s: State, d: Dir, v: Vpn, off: nat, x: int): State
    requires UserAt(s, d, v) && SlotOk(s, s.dirs[d][v]) && off < |s.data[s.dirs[d][v].ppn]|
  {
    var f := s.dirs[d][v].ppn;
    s.(data := s.data[f := s.data[f][off := x]])
  }

  /** One page of unmap_pages: with `free` the last mapping gives the frame back. */
  function Unmap(s: State, d: Dir, v: Vpn, free: bool): State
    requires UserAt(s, d, v) && s.dirs[d][v].ppn in s.refs && s.refs[s.dirs[d][v].ppn] > 0
  {
    var f := s.dirs[d][v].ppn;
    var n := s.refs[f] - 1;
    var s1 := s.(dirs := s.dirs[d := s.dirs[d] - {v}], refs := s.refs[f := n]);
    if n == 0 && free then s1.(refs := s.refs - {f}, data := s.data - {f}) else s1
  }

  /** A fresh frame filled with `page` and mapped once, as program loading does. */
  function MapFresh(s: State, d: Dir, v: Vpn, p: Pte, page: Page): State
    requires d in s.dirs
  {
    var s1 := SetPte(s, d, v, p);
    s1.(refs := s.refs[p.ppn := 1], data := s.data[p.ppn := page])
  }
}
