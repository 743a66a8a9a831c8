/** Copy-on-write refines eager copying: over every run, each process reads exactly what it would
    read if vm_copy had duplicated every page. */
module CowProofs {
  import opened CowSpec
  import opened Sets

  /** What each process sees, page by page: the memory of the eager machine. */
  type View = map<Slot, Page>

  /** The concrete state shows every process its own eager pages. */
  ghost predicate Shows(s: State, view: View) {
    Inv(s) && view.Keys == Slots(s) && PagesOk(s, view)
  }

  ghost predicate PagesOk(s: State, view: View) {
    forall d, v :: UserAt(s, d, v) ==> PageOk(s, view, d, v)
  }

  ghost predicate PageOk(s: State, view: View, d: Dir, v: Vpn)
    requires UserAt(s, d, v)
  {
    Slot(d, v) in view && FrameAt(s, d, v) in s.data && view[Slot(d, v)] == s.data[FrameAt(s, d, v)]
  }

  // ------------------------------------------------------ counting the mappings of a frame

  /** The frame a user slot leads to. */
  function FrameAt(s: State, d: Dir, v: Vpn): Frame
    requires UserAt(s, d, v)
  {
    s.dirs[d][v].ppn
  }

  /** Apart from the slot (d, v), `s'` maps the same user pages to the same frames as `s`. */
  ghost predicate SameBut(s: State, s': State, d: Dir, v: Vpn) {
    forall e, w :: !(e == d && w == v) ==>
      && (UserAt(s, e, w) <==> UserAt(s', e, w))
      && (UserAt(s, e, w) ==> FrameAt(s', e, w) == FrameAt(s, e, w))
  }

  lemma SlotsSameBut(s: State, s': State, d: Dir, v: Vpn)
    requires SameBut(s, s', d, v)
    ensures Slots(s') == Slots(s) - {Slot(d, v)} + (if UserAt(s', d, v) then {Slot(d, v)} else {})
    ensures Slot(d, v) in Slots(s) <==> UserAt(s, d, v)
  {
    forall t: Slot
      ensures t in Slots(s') <==> t in Slots(s) - {Slot(d, v)} + (if UserAt(s', d, v) then {Slot(d, v)} else {})
    {
      assert t == Slot(t.d, t.v);
    }
  }

  lemma MappersSameBut(s: State, s': State, d: Dir, v: Vpn, f: Frame)
    requires SameBut(s, s', d, v)
    ensures Mappers(s', f) == Mappers(s, f) - {Slot(d, v)} +
      (if UserAt(s', d, v) && FrameAt(s', d, v) == f then {Slot(d, v)} else {})
    ensures Slot(d, v) in Mappers(s, f) <==> UserAt(s, d, v) && FrameAt(s, d, v) == f
  {
    SlotsSameBut(s, s', d, v);
    forall t: Slot
      ensures t in Mappers(s', f) <==>
        t in Mappers(s, f) - {Slot(d, v)} + (if UserAt(s', d, v) && FrameAt(s', d, v) == f then {Slot(d, v)} else {})
    {
      assert t == Slot(t.d, t.v);
    }
  }

  /** A frame referenced once has one mapping. */
  lemma OnlyMapping(s: State, d: Dir, v: Vpn, e: Dir, w: Vpn)
    requires SlotsOk(s) && CountsOk(s) && UserAt(s, d, v) && UserAt(s, e, w) && FrameAt(s, d, v) == FrameAt(s, e, w)
    requires FrameAt(s, d, v) in s.refs && s.refs[FrameAt(s, d, v)] == 1
    ensures d == e && v == w
  {
    var f := FrameAt(s, d, v);
    assert SlotOk(s, s.dirs[d][v]) && FrameOk(s, f);
    assert Slot(d, v) in Mappers(s, f) && Slot(e, w) in Mappers(s, f);
    OneElement(Mappers(s, f), Slot(d, v), Slot(e, w));
  }

  // ------------------------------------------------------------------------- vm_copy

  lemma ForkSameBut(s: State, dst: Dir, src: Dir, v: Vpn)
    requires UserAt(s, src, v) && s.dirs[src][v].ppn in s.refs && dst in s.dirs && v !in s.dirs[dst]
    ensures var s' := ForkPage(s, dst, src, v);
      SameBut(s, s', dst, v) && UserAt(s', dst, v) && FrameAt(s', dst, v) == FrameAt(s, src, v)
  {
  }

  lemma ForkCounts(s: State, dst: Dir, src: Dir, v: Vpn)
    requires CountsOk(s) && UserAt(s, src, v) && SlotOk(s, s.dirs[src][v]) && dst in s.dirs && v !in s.dirs[dst]
    ensures CountsOk(ForkPage(s, dst, src, v))
  {
    var s' := ForkPage(s, dst, src, v);
    ForkSameBut(s, dst, src, v);
    forall f | f in s'.data
      ensures FrameOk(s', f)
    {
      assert FrameOk(s, f);
      MappersSameBut(s, s', dst, v, f);
    }
  }

  lemma ForkSlots(s: State, view: View, dst: Dir, src: Dir, v: Vpn)
    requires SlotsOk(s) && PagesOk(s, view) && UserAt(s, src, v) && dst in s.dirs && v !in s.dirs[dst]
    requires s.dirs[src][v].ppn in s.refs && Slot(src, v) in view
    requires CountsOk(s)
    ensures SlotsOk(ForkPage(s, dst, src, v))
    ensures PagesOk(ForkPage(s, dst, src, v), view[Slot(dst, v) := view[Slot(src, v)]])
  {
    var s', view' := ForkPage(s, dst, src, v), view[Slot(dst, v) := view[Slot(src, v)]];
    assert SlotOk(s, s.dirs[src][v]) && PageOk(s, view, src, v);
    ForkSameBut(s, dst, src, v);
    forall d, w | UserAt(s', d, w)
      ensures SlotOk(s', s'.dirs[d][w]) && PageOk(s', view', d, w)
    {
      if !(d == dst && w == v) {
        assert SlotOk(s, s.dirs[d][w]) && PageOk(s, view, d, w);
        if s.dirs[d][w].w && FrameAt(s, d, w) == FrameAt(s, src, v) { OnlyMapping(s, d, w, src, v); }
      }
    }
  }

  /** One page of vm_copy: the eager machine gives the child its own copy of the page. */
  lemma ForkShows(s: State, view: View, dst: Dir, src: Dir, v: Vpn)
    requires Shows(s, view) && UserAt(s, src, v) && dst in s.dirs && v !in s.dirs[dst]
    ensures s.dirs[src][v].ppn in s.refs && Slot(src, v) in view
    ensures Shows(ForkPage(s, dst, src, v), view[Slot(dst, v) := view[Slot(src, v)]])
  {
    hide CountsOk, SlotsOk, PagesOk, Slots;
    Look(s, view, src, v);
    ForkCounts(s, dst, src, v);
    ForkSlots(s, view, dst, src, v);
    ForkSameBut(s, dst, src, v);
    SlotsSameBut(s, ForkPage(s, dst, src, v), dst, v);
  }

  /** What a process sees at one of its pages. */
  lemma Look(s: State, view: View, d: Dir, v: Vpn)
    requires Shows(s, view) && UserAt(s, d, v)
    ensures SlotOk(s, s.dirs[d][v]) && PageOk(s, view, d, v) && FrameOk(s, FrameAt(s, d, v))
    ensures s.refs[FrameAt(s, d, v)] > 0
  {
    assert SlotOk(s, s.dirs[d][v]) && PageOk(s, view, d, v) && FrameOk(s, FrameAt(s, d, v));
    assert Slot(d, v) in Mappers(s, FrameAt(s, d, v));
  }

  // --------------------------------------------------------------------- page faults

  lemma UnprotectCounts(s: State, d: Dir, v: Vpn)
    requires CountsOk(s) && UserAt(s, d, v)
    ensures CountsOk(Unprotect(s, d, v)) && Slots(Unprotect(s, d, v)) == Slots(s)
  {
    hide Slots, Mappers;
    var s' := Unprotect(s, d, v);
    assert SameBut(s, s', d, v) && UserAt(s', d, v) && FrameAt(s', d, v) == FrameAt(s, d, v);
    SlotsSameBut(s, s', d, v);
    forall f | f in s'.data
      ensures FrameOk(s', f)
    {
      assert FrameOk(s, f);
      MappersSameBut(s, s', d, v, f);
    }
  }

  lemma UnprotectSlots(s: State, view: View, d: Dir, v: Vpn)
    requires SlotsOk(s) && PagesOk(s, view) && UserAt(s, d, v) && FrameAt(s, d, v) in s.refs &&
      s.refs[FrameAt(s, d, v)] == 1
    ensures SlotsOk(Unprotect(s, d, v)) && PagesOk(Unprotect(s, d, v), view)
  {
    var s' := Unprotect(s, d, v);
    forall e, w | UserAt(s', e, w)
      ensures SlotOk(s', s'.dirs[e][w]) && PageOk(s', view, e, w)
    {
      assert SlotOk(s, s.dirs[e][w]) && PageOk(s, view, e, w);
    }
  }

  lemma UnprotectShows(s: State, view: View, d: Dir, v: Vpn)
    requires Shows(s, view) && UserAt(s, d, v) && FrameAt(s, d, v) in s.refs && s.refs[FrameAt(s, d, v)] == 1
    ensures Shows(Unprotect(s, d, v), view)
  {
    hide CountsOk, SlotsOk, PagesOk, Slots;
    UnprotectCounts(s, d, v);
    UnprotectSlots(s, view, d, v);
  }

  lemma CopySameBut(s: State, d: Dir, v: Vpn, f: Frame)
    requires UserAt(s, d, v) && SlotOk(s, s.dirs[d][v]) && s.refs[s.dirs[d][v].ppn] > 0
    ensures var s' := CopyPage(s, d, v, f);
      SameBut(s, s', d, v) && UserAt(s', d, v) && FrameAt(s', d, v) == f
  {
  }

  lemma CopyCounts(s: State, d: Dir, v: Vpn, f: Frame)
    requires CountsOk(s) && SlotsOk(s) && UserAt(s, d, v) && SlotOk(s, s.dirs[d][v]) && s.refs[s.dirs[d][v].ppn] > 0
    requires f !in s.data
    ensures CountsOk(CopyPage(s, d, v, f))
  {
    hide Slots, Mappers;
    var s' := CopyPage(s, d, v, f);
    CopySameBut(s, d, v, f);
    forall g | g in s'.data
      ensures FrameOk(s', g)
    {
      MappersSameBut(s, s', d, v, g);
      if g == f { FreshUnmapped(s, f); } else { assert FrameOk(s, g); }
    }
  }

  /** A frame that is not allocated has no mapping. */
  lemma FreshUnmapped(s: State, f: Frame)
    requires SlotsOk(s) && f !in s.data
    ensures Mappers(s, f) == {}
  {
    forall t: Slot
      ensures t !in Mappers(s, f)
    {
      if UserAt(s, t.d, t.v) { assert SlotOk(s, s.dirs[t.d][t.v]); }
    }
  }

  lemma CopySlots(s: State, view: View, d: Dir, v: Vpn, f: Frame)
    requires SlotsOk(s) && PagesOk(s, view) && UserAt(s, d, v) && SlotOk(s, s.dirs[d][v])
    requires s.refs[s.dirs[d][v].ppn] > 1 && f !in s.data
    ensures SlotsOk(CopyPage(s, d, v, f)) && PagesOk(CopyPage(s, d, v, f), view)
  {
    var s' := CopyPage(s, d, v, f);
    CopySameBut(s, d, v, f);
    assert PageOk(s, view, d, v);
    forall e, w | UserAt(s', e, w)
      ensures SlotOk(s', s'.dirs[e][w]) && PageOk(s', view, e, w)
    {
      if !(e == d && w == v) { assert SlotOk(s, s.dirs[e][w]) && PageOk(s, view, e, w); }
    }
  }

  /** A write fault changes nothing the eager machine can see. */
  lemma CopyShows(s: State, view: View, d: Dir, v: Vpn, f: Frame)
    requires Shows(s, view) && UserAt(s, d, v) && f !in s.data
    requires FrameAt(s, d, v) in s.refs && s.refs[FrameAt(s, d, v)] > 1
    ensures SlotOk(s, s.dirs[d][v])
    ensures Shows(CopyPage(s, d, v, f), view)
  {
    hide CountsOk, SlotsOk, PagesOk, Slots;
    Look(s, view, d, v);
    CopyCounts(s, d, v, f);
    CopySlots(s, view, d, v, f);
    CopySameBut(s, d, v, f);
    SlotsSameBut(s, CopyPage(s, d, v, f), d, v);
  }

  // --------------------------------------------------------------------------- stores

  lemma SameSlots(s: State, s': State)
    requires s'.dirs == s.dirs
    ensures Slots(s') == Slots(s) && forall f :: Mappers(s', f) == Mappers(s, f)
  {
    assert forall d, v :: UserAt(s', d, v) <==> UserAt(s, d, v);
    assert Slots(s') == Slots(s);
  }

  /** A store changes the page of the process that made it and no other page of any process. */
  lemma StoreShows(s: State, view: View, d: Dir, v: Vpn, off: nat, x: int)
    requires Shows(s, view) && UserAt(s, d, v) && s.dirs[d][v].w
    requires Slot(d, v) in view && off < |view[Slot(d, v)]|
    ensures SlotOk(s, s.dirs[d][v]) && off < |s.data[FrameAt(s, d, v)]|
    ensures Shows(Store(s, d, v, off, x), view[Slot(d, v) := view[Slot(d, v)][off := x]])
  {
    Look(s, view, d, v);
    var s', view' := Store(s, d, v, off, x), view[Slot(d, v) := view[Slot(d, v)][off := x]];
    SameSlots(s, s');
    assert CountsOk(s') by {
      forall f | f in s'.data
        ensures FrameOk(s', f)
      {
        assert FrameOk(s, f);
      }
    }
    StoreSlots(s, view, d, v, off, x);
  }

  lemma StoreSlots(s: State, view: View, d: Dir, v: Vpn, off: nat, x: int)
    requires SlotsOk(s) && CountsOk(s) && PagesOk(s, view) && UserAt(s, d, v) && s.dirs[d][v].w
    requires SlotOk(s, s.dirs[d][v]) && PageOk(s, view, d, v) && off < |view[Slot(d, v)]|
    ensures SlotsOk(Store(s, d, v, off, x))
    ensures PagesOk(Store(s, d, v, off, x), view[Slot(d, v) := view[Slot(d, v)][off := x]])
  {
    hide CountsOk;
    var s', view' := Store(s, d, v, off, x), view[Slot(d, v) := view[Slot(d, v)][off := x]];
    forall e, w | UserAt(s', e, w)
      ensures SlotOk(s', s'.dirs[e][w]) && PageOk(s', view', e, w)
    {
      assert SlotOk(s, s.dirs[e][w]) && PageOk(s, view, e, w);
      if FrameAt(s, e, w) == FrameAt(s, d, v) { OnlyMapping(s, d, v, e, w); }
    }
  }

  // ------------------------------------------------------------------------ unmapping

  lemma UnmapSameBut(s: State, d: Dir, v: Vpn, free: bool)
    requires UserAt(s, d, v) && s.dirs[d][v].ppn in s.refs && s.refs[s.dirs[d][v].ppn] > 0
    ensures SameBut(s, Unmap(s, d, v, free), d, v) && !UserAt(Unmap(s, d, v, free), d, v)
  {
  }

  lemma UnmapCounts(s: State, d: Dir, v: Vpn, free: bool)
    requires CountsOk(s) && UserAt(s, d, v) && SlotOk(s, s.dirs[d][v]) && s.refs[s.dirs[d][v].ppn] > 0
    ensures CountsOk(Unmap(s, d, v, free))
  {
    hide Slots, Mappers;
    var s' := Unmap(s, d, v, free);
    UnmapSameBut(s, d, v, free);
    forall f | f in s'.data
      ensures FrameOk(s', f)
    {
      assert FrameOk(s, f);
      MappersSameBut(s, s', d, v, f);
    }
  }

  lemma UnmapSlots(s: State, view: View, d: Dir, v: Vpn, free: bool)
    requires SlotsOk(s) && CountsOk(s) && PagesOk(s, view) && UserAt(s, d, v) && SlotOk(s, s.dirs[d][v])
    requires s.refs[s.dirs[d][v].ppn] > 0
    ensures SlotsOk(Unmap(s, d, v, free)) && PagesOk(Unmap(s, d, v, free), view - {Slot(d, v)})
  {
    hide CountsOk;
    var s', view' := Unmap(s, d, v, free), view - {Slot(d, v)};
    UnmapSameBut(s, d, v, free);
    forall e, w | UserAt(s', e, w)
      ensures SlotOk(s', s'.dirs[e][w]) && PageOk(s', view', e, w)
    {
      assert SlotOk(s, s.dirs[e][w]) && PageOk(s, view, e, w);
      if FrameAt(s, e, w) == FrameAt(s, d, v) && s.refs[FrameAt(s, d, v)] == 1 { OnlyMapping(s, d, v, e, w); }
    }
  }

  /** Unmapping takes away that one page, and gives its frame back exactly when it is asked to and this
      was the last mapping of the frame in any directory. */
  lemma UnmapShows(s: State, view: View, d: Dir, v: Vpn, free: bool)
    requires Shows(s, view) && UserAt(s, d, v)
    ensures SlotOk(s, s.dirs[d][v]) && s.refs[FrameAt(s, d, v)] > 0
    ensures Shows(Unmap(s, d, v, free), view - {Slot(d, v)})
    ensures FrameAt(s, d, v) !in Unmap(s, d, v, free).data <==> free && Mappers(s, FrameAt(s, d, v)) == {Slot(d, v)}
  {
    hide CountsOk, SlotsOk, PagesOk, Slots;
    Look(s, view, d, v);
    UnmapCounts(s, d, v, free);
    UnmapSlots(s, view, d, v, free);
    UnmapSameBut(s, d, v, free);
    SlotsSameBut(s, Unmap(s, d, v, free), d, v);
    LastMapping(s, view, d, v);
  }

  lemma LastMapping(s: State, view: View, d: Dir, v: Vpn)
    requires Shows(s, view) && UserAt(s, d, v) && FrameAt(s, d, v) in s.refs
    ensures s.refs[FrameAt(s, d, v)] == 1 <==> Mappers(s, FrameAt(s, d, v)) == {Slot(d, v)}
  {
    Look(s, view, d, v);
    var w := Mappers(s, FrameAt(s, d, v));
    assert Slot(d, v) in w;
    if |w| == 1 {
      assert |w - {Slot(d, v)}| == 0;
      assert w - {Slot(d, v)} == {};
    }
  }

  // ------------------------------------------------------------------------- new pages

  lemma MapFreshCounts(s: State, d: Dir, v: Vpn, p: Pte, page: Page)
    requires SlotsOk(s) && CountsOk(s) && d in s.dirs && v !in s.dirs[d] && p.u && p.ppn !in s.data
    ensures CountsOk(MapFresh(s, d, v, p, page))
  {
    hide SlotsOk, Slots, Mappers;
    var s' := MapFresh(s, d, v, p, page);
    assert SameBut(s, s', d, v) && UserAt(s', d, v) && FrameAt(s', d, v) == p.ppn;
    forall f | f in s'.data
      ensures FrameOk(s', f)
    {
      MappersSameBut(s, s', d, v, f);
      if f == p.ppn { FreshUnmapped(s, f); } else { assert FrameOk(s, f); }
    }
  }

  lemma MapFreshShows(s: State, view: View, d: Dir, v: Vpn, p: Pte, page: Page)
    requires Shows(s, view) && d in s.dirs && v !in s.dirs[d] && p.u && p.ppn !in s.data
    ensures Shows(MapFresh(s, d, v, p, page), view[Slot(d, v) := page])
  {
    hide SlotsOk, CountsOk, PagesOk, Slots;
    var s' := MapFresh(s, d, v, p, page);
    assert SameBut(s, s', d, v) && UserAt(s', d, v);
    SlotsSameBut(s, s', d, v);
    MapFreshCounts(s, d, v, p, page);
    MapFreshSlots(s, view, d, v, p, page);
  }

  lemma MapFreshSlots(s: State, view: View, d: Dir, v: Vpn, p: Pte, page: Page)
    requires SlotsOk(s) && PagesOk(s, view) && d in s.dirs && v !in s.dirs[d] && p.u && p.ppn !in s.data
    ensures SlotsOk(MapFresh(s, d, v, p, page)) && PagesOk(MapFresh(s, d, v, p, page), view[Slot(d, v) := page])
  {
    var s', view' := MapFresh(s, d, v, p, page), view[Slot(d, v) := page];
    forall e, w | UserAt(s', e, w)
      ensures SlotOk(s', s'.dirs[e][w]) && PageOk(s', view', e, w)
    {
      if !(e == d && w == v) { assert SlotOk(s, s.dirs[e][w]) && PageOk(s, view, e, w); }
    }
  }
}
