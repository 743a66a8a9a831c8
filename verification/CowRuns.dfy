/** Runs of the copy-on-write machine, step by step next to the machine that copies eagerly. */
module CowRuns {
  import opened CowSpec
  import opened CowProofs
  import opened Sets

  // ----------------------------------------------------------------- page ranges and faults

  /** vm_copy meets no panic on [lo, hi): the source maps user pages there, the target nothing. */
  ghost predicate CanFork(s: State, dst: Dir, src: Dir, lo: Vpn, hi: Vpn) {
    dst in s.dirs && forall v :: lo <= v < hi ==> UserAt(s, src, v) && s.dirs[src][v].ppn in s.refs && v !in s.dirs[dst]
  }

  ghost function ForkRange(s: State, dst: Dir, src: Dir, lo: Vpn, hi: Vpn): State
    requires CanFork(s, dst, src, lo, hi)
    decreases hi - lo
  {
    if lo >= hi then s else ForkRange(ForkPage(s, dst, src, lo), dst, src, lo + 1, hi)
  }

  /** unmap_pages meets no panic on [lo, hi). */
  ghost predicate CanUnmap(s: State, d: Dir, lo: Vpn, hi: Vpn) {
    Inv(s) && UserRange(s, d, lo, hi)
  }

  ghost predicate UserRange(s: State, d: Dir, lo: Vpn, hi: Vpn) {
    forall v :: lo <= v < hi ==> UserAt(s, d, v)
  }

  /** The view every state shows: the contents of the frame behind each user slot. */
  ghost function OwnView(s: State): View
    requires Inv(s)
  {
    map t | t in Slots(s) :: assert SlotOk(s, s.dirs[t.d][t.v]); s.data[s.dirs[t.d][t.v].ppn]
  }

  lemma OwnViewShows(s: State)
    requires Inv(s)
    ensures Shows(s, OwnView(s))
  {
    var view := OwnView(s);
    assert view.Keys == Slots(s);
    forall d, v | UserAt(s, d, v)
      ensures PageOk(s, view, d, v)
    {
      assert SlotOk(s, s.dirs[d][v]);
      assert Slot(d, v) in Slots(s);
    }
  }

  lemma UnmapKeepsInv(s: State, d: Dir, v: Vpn, free: bool)
    requires Inv(s) && UserAt(s, d, v)
    ensures SlotOk(s, s.dirs[d][v]) && s.refs[s.dirs[d][v].ppn] > 0
    ensures Inv(Unmap(s, d, v, free)) && forall w :: w != v && UserAt(s, d, w) ==> UserAt(Unmap(s, d, v, free), d, w)
  {
    hide Inv, SlotsOk, CountsOk;
    OwnViewShows(s);
    UnmapShows(s, OwnView(s), d, v, free);
  }

  ghost function UnmapRange(s: State, d: Dir, lo: Vpn, hi: Vpn, free: bool): State
    requires CanUnmap(s, d, lo, hi)
    decreases hi - lo
  {
    if lo >= hi then s else UnmapKeepsInv(s, d, lo, free); UnmapRange(Unmap(s, d, lo, free), d, lo + 1, hi, free)
  }

  lemma UnmapNext(s: State, d: Dir, lo: Vpn, hi: Vpn, free: bool)
    requires CanUnmap(s, d, lo, hi) && lo < hi
    ensures UserAt(s, d, lo) && SlotOk(s, s.dirs[d][lo]) && s.refs[s.dirs[d][lo].ppn] > 0
    ensures CanUnmap(Unmap(s, d, lo, free), d, lo + 1, hi)
    ensures UnmapRange(Unmap(s, d, lo, free), d, lo + 1, hi, free) == UnmapRange(s, d, lo, hi, free)
  {
    hide Inv;
    UnmapKeepsInv(s, d, lo, free);
  }

  lemma UnmapNone(s: State, d: Dir, lo: Vpn, hi: Vpn, free: bool)
    requires CanUnmap(s, d, lo, hi) && lo >= hi
    ensures UnmapRange(s, d, lo, hi, free) == s
  {
    hide Inv;
  }

  lemma ForkNone(s: State, dst: Dir, src: Dir, lo: Vpn, hi: Vpn)
    requires CanFork(s, dst, src, lo, hi) && lo >= hi
    ensures ForkRange(s, dst, src, lo, hi) == s
  {
  }

  lemma ForkNext(s: State, dst: Dir, src: Dir, lo: Vpn, hi: Vpn)
    requires CanFork(s, dst, src, lo, hi) && lo < hi
    ensures UserAt(s, src, lo) && s.dirs[src][lo].ppn in s.refs && lo !in s.dirs[dst]
    ensures CanFork(ForkPage(s, dst, src, lo), dst, src, lo + 1, hi)
    ensures ForkRange(ForkPage(s, dst, src, lo), dst, src, lo + 1, hi) == ForkRange(s, dst, src, lo, hi)
  {
  }

  /** do_pagefault on a mapped user page, `f` being the frame the allocator offers. */
  ghost function FaultPage(s: State, d: Dir, v: Vpn, f: Frame): State
    requires UserAt(s, d, v) && SlotOk(s, s.dirs[d][v]) && s.refs[s.dirs[d][v].ppn] > 0
  {
    var p := s.dirs[d][v];
    if p.w then s
    else if s.refs[p.ppn] == 1 then Unprotect(s, d, v)
    else CopyPage(s, d, v, f)
  }

  // ------------------------------------------------------------------------------- steps

  datatype Step =
    | NewDir(d: Dir, kernel: Mapping)
    | Load(d: Dir, v: Vpn, p: Pte, page: Page)
    | Fork(dst: Dir, src: Dir, lo: Vpn, hi: Vpn)
    | Fault(d: Dir, v: Vpn, f: Frame)
    | Write(d: Dir, v: Vpn, off: nat, x: int)
    | Release(d: Dir, lo: Vpn, hi: Vpn, free: bool)
    | DropDir(d: Dir)

  ghost predicate NoUser(m: Mapping) {
    forall v :: v in m ==> !m[v].u
  }

  /** The step is one the kernel makes without a panic. */
  ghost predicate Guard(s: State, step: Step) {
    match step
    case NewDir(d, kernel) => d !in s.dirs && NoUser(kernel)
    case Load(d, v, p, page) => d in s.dirs && v !in s.dirs[d] && p.u && p.ppn !in s.data
    case Fork(dst, src, lo, hi) => CanFork(s, dst, src, lo, hi)
    case Fault(d, v, f) => UserAt(s, d, v) && f !in s.data
    case Write(d, v, off, x) =>
      UserAt(s, d, v) && s.dirs[d][v].w && s.dirs[d][v].ppn in s.data && off < |s.data[s.dirs[d][v].ppn]|
    case Release(d, lo, hi, _) => UserRange(s, d, lo, hi)
    case DropDir(d) => d in s.dirs && NoUser(s.dirs[d])
  }

  ghost predicate Enabled(s: State, step: Step) {
    Inv(s) && Guard(s, step)
  }

  lemma Mapped(s: State, d: Dir, v: Vpn)
    requires Inv(s) && UserAt(s, d, v)
    ensures SlotOk(s, s.dirs[d][v]) && s.refs[s.dirs[d][v].ppn] > 0
  {
    hide Inv, SlotsOk, CountsOk;
    OwnViewShows(s);
    Look(s, OwnView(s), d, v);
  }

  ghost function Apply(s: State, step: Step): State
    requires Enabled(s, step)
  {
    match step
    case NewDir(d, kernel) => s.(dirs := s.dirs[d := kernel])
    case Load(d, v, p, page) => MapFresh(s, d, v, p, page)
    case Fork(dst, src, lo, hi) => ForkRange(s, dst, src, lo, hi)
    case Fault(d, v, f) => Mapped(s, d, v); FaultPage(s, d, v, f)
    case Write(d, v, off, x) => Mapped(s, d, v); Store(s, d, v, off, x)
    case Release(d, lo, hi, free) => UnmapRange(s, d, lo, hi, free)
    case DropDir(d) => s.(dirs := s.dirs - {d})
  }

  /** The same step of the eager machine.  It has no frames and no reference counts: a fork copies
      the pages, a fault does nothing, a store touches one page of one process. */
  ghost function Eager(view: View, step: Step): View {
    match step
    case NewDir(_, _) => view
    case Load(d, v, _, page) => view[Slot(d, v) := page]
    case Fork(dst, src, lo, hi) => EagerFork(view, dst, src, lo, hi)
    case Fault(_, _, _) => view
    case Write(d, v, off, x) =>
      if Slot(d, v) in view && off < |view[Slot(d, v)]| then view[Slot(d, v) := view[Slot(d, v)][off := x]] else view
    case Release(d, lo, hi, _) => EagerUnmap(view, d, lo, hi)
    case DropDir(_) => view
  }

  ghost function EagerFork<T>(view: map<Slot, T>, dst: Dir, src: Dir, lo: Vpn, hi: Vpn): map<Slot, T>
    decreases hi - lo
  {
    if lo >= hi || Slot(src, lo) !in view then view
    else EagerFork(view[Slot(dst, lo) := view[Slot(src, lo)]], dst, src, lo + 1, hi)
  }

  ghost function EagerUnmap<T>(view: map<Slot, T>, d: Dir, lo: Vpn, hi: Vpn): map<Slot, T>
    decreases hi - lo
  {
    if lo >= hi then view else EagerUnmap(view - {Slot(d, lo)}, d, lo + 1, hi)
  }

  // -------------------------------------------------------------------------- refinement

  lemma {:induction false} ForkRangeShows(s: State, view: View, dst: Dir, src: Dir, lo: Vpn, hi: Vpn)
    requires Shows(s, view) && CanFork(s, dst, src, lo, hi)
    ensures Shows(ForkRange(s, dst, src, lo, hi), EagerFork(view, dst, src, lo, hi))
    decreases hi - lo
  {
    hide Inv, SlotsOk, CountsOk, PagesOk, Shows, Slots;
    if lo < hi {
      Look(s, view, src, lo);
      ForkShows(s, view, dst, src, lo);
      ForkRangeShows(ForkPage(s, dst, src, lo), view[Slot(dst, lo) := view[Slot(src, lo)]], dst, src, lo + 1, hi);
    }
  }

  lemma {:induction false} UnmapRangeShows(s: State, view: View, d: Dir, lo: Vpn, hi: Vpn, free: bool)
    requires Shows(s, view) && CanUnmap(s, d, lo, hi)
    ensures Shows(UnmapRange(s, d, lo, hi, free), EagerUnmap(view, d, lo, hi))
    decreases hi - lo
  {
    hide Inv, SlotsOk, CountsOk, PagesOk, Shows, Slots;
    if lo < hi {
      UnmapKeepsInv(s, d, lo, free);
      UnmapShows(s, view, d, lo, free);
      UnmapRangeShows(Unmap(s, d, lo, free), view - {Slot(d, lo)}, d, lo + 1, hi, free);
    }
  }

  lemma FaultShows(s: State, view: View, d: Dir, v: Vpn, f: Frame)
    requires Shows(s, view) && UserAt(s, d, v) && f !in s.data
    ensures SlotOk(s, s.dirs[d][v]) && s.refs[s.dirs[d][v].ppn] > 0
    ensures Shows(FaultPage(s, d, v, f), view)
  {
    hide Inv, SlotsOk, CountsOk, PagesOk, Shows, Slots;
    Look(s, view, d, v);
    if !s.dirs[d][v].w {
      if s.refs[s.dirs[d][v].ppn] == 1 { UnprotectShows(s, view, d, v); } else { CopyShows(s, view, d, v, f); }
    }
  }

  /** After a write fault the page is writable: the retried store goes through. */
  lemma FaultGrants(s: State, view: View, d: Dir, v: Vpn, f: Frame)
    requires Shows(s, view) && UserAt(s, d, v) && f !in s.data
    ensures SlotOk(s, s.dirs[d][v]) && s.refs[s.dirs[d][v].ppn] > 0
    ensures var t := FaultPage(s, d, v, f); UserAt(t, d, v) && t.dirs[d][v].w && t.dirs[d][v].ppn in t.data
    ensures Slot(d, v) in view
    ensures var t := FaultPage(s, d, v, f); t.data[t.dirs[d][v].ppn] == view[Slot(d, v)]
  {
    hide Inv, SlotsOk, CountsOk, PagesOk, Shows, Slots;
    Look(s, view, d, v);
  }

  /** The two states map the same user pages in the same way. */
  ghost predicate SameUsers(s: State, s': State) {
    forall d, v :: (UserAt(s', d, v) <==> UserAt(s, d, v)) && (UserAt(s, d, v) ==> s'.dirs[d][v] == s.dirs[d][v])
  }

  lemma DirsShows(s: State, s': State, view: View)
    requires Shows(s, view) && s'.refs == s.refs && s'.data == s.data
    requires SameUsers(s, s')
    ensures Shows(s', view)
  {
    DirsSlots(s, s');
    forall d, v | UserAt(s', d, v)
      ensures SlotOk(s', s'.dirs[d][v]) && PageOk(s', view, d, v)
    {
      assert SlotOk(s, s.dirs[d][v]) && PageOk(s, view, d, v);
    }
    forall f | f in s'.data
      ensures FrameOk(s', f)
    {
      assert FrameOk(s, f);
    }
  }

  lemma DirsSlots(s: State, s': State)
    requires SameUsers(s, s')
    ensures Slots(s') == Slots(s) && forall f :: Mappers(s', f) == Mappers(s, f)
  {
    assert Slots(s') == Slots(s);
  }

  lemma StepShows(s: State, view: View, step: Step)
    requires Shows(s, view) && Enabled(s, step)
    ensures Shows(Apply(s, step), Eager(view, step))
  {
    hide Inv, SlotsOk, CountsOk, PagesOk, Shows, Slots, UserRange, CanFork, UnmapRange, ForkRange, EagerFork,
      EagerUnmap, FaultPage;
    match step
    case NewDir(d, kernel) => DirsShows(s, Apply(s, step), view);
    case Load(d, v, p, page) => MapFreshShows(s, view, d, v, p, page);
    case Fork(dst, src, lo, hi) => ForkRangeShows(s, view, dst, src, lo, hi);
    case Fault(d, v, f) => FaultShows(s, view, d, v, f);
    case Write(d, v, off, x) =>
      Look(s, view, d, v);
      StoreShows(s, view, d, v, off, x);
    case Release(d, lo, hi, free) => UnmapRangeShows(s, view, d, lo, hi, free);
    case DropDir(d) => DirsShows(s, Apply(s, step), view);
  }

  /** Every step keeps the invariant. */
  lemma StepKeeps(s: State, step: Step)
    requires Enabled(s, step)
    ensures Inv(Apply(s, step))
  {
    hide Inv, Guard, Apply, Eager;
    OwnViewShows(s);
    StepShows(s, OwnView(s), step);
  }

  /** Steps the kernel makes one after the other.  That the invariant holds is no part of it. */
  ghost predicate Runs(s: State, steps: seq<Step>)
    decreases |steps|
  {
    steps == [] || (Guard(s, steps[0]) && (Inv(s) ==> Runs(Apply(s, steps[0]), steps[1..])))
  }

  ghost function After(s: State, steps: seq<Step>): State
    requires Inv(s) && Runs(s, steps)
    decreases |steps|
  {
    if steps == [] then s else StepKeeps(s, steps[0]); After(Apply(s, steps[0]), steps[1..])
  }

  ghost function EagerAfter(view: View, steps: seq<Step>): View
    decreases |steps|
  {
    if steps == [] then view else EagerAfter(Eager(view, steps[0]), steps[1..])
  }

  /** Copy-on-write refines eager copying, over every run. */
  lemma {:induction false} RunShows(s: State, view: View, steps: seq<Step>)
    requires Shows(s, view) && Runs(s, steps)
    ensures Inv(s) && Shows(After(s, steps), EagerAfter(view, steps))
    decreases |steps|
  {
    hide Guard, Inv, PagesOk, Apply, Eager;
    if steps != [] {
      StepKeeps(s, steps[0]);
      StepShows(s, view, steps[0]);
      RunShows(Apply(s, steps[0]), Eager(view, steps[0]), steps[1..]);
    }
  }

  const EMPTY := State(map[], map[], map[])

  lemma EmptyShows()
    ensures Shows(EMPTY, map[]) && Inv(EMPTY)
  {
    var view: View := map[];
    assert view.Keys == Slots(EMPTY);
  }

  /** The state after a run from boot. */
  ghost function Booted(steps: seq<Step>): State
    requires Runs(EMPTY, steps)
  {
    EmptyShows();
    After(EMPTY, steps)
  }

  /** From boot, every process reads exactly the page it would own if fork had copied it; every
      reference count is the number of mappings; a writable page is mapped once. */
  lemma CopyOnWriteRefinesCopy(steps: seq<Step>, d: Dir, v: Vpn)
    requires Runs(EMPTY, steps) && UserAt(Booted(steps), d, v)
    ensures var s, view := Booted(steps), EagerAfter(map[], steps); var p := s.dirs[d][v];
      && Slot(d, v) in view && p.ppn in s.data && p.ppn in s.refs
      && s.data[p.ppn] == view[Slot(d, v)]
      && s.refs[p.ppn] == |Mappers(s, p.ppn)|
      && (p.w ==> Mappers(s, p.ppn) == {Slot(d, v)})
  {
    hide Runs, After, EagerAfter, Inv, Shows, Slots;
    EmptyShows();
    RunShows(EMPTY, map[], steps);
    var s, view := Booted(steps), EagerAfter(map[], steps);
    Look(s, view, d, v);
    LastMapping(s, view, d, v);
  }

  // -------------------------------------------------- reference counts never wrap around

  /** Every mapping of a frame, in any directory, is at the frame's home page number. */
  ghost predicate Homed(s: State, home: map<Frame, Vpn>) {
    forall d, v :: UserAt(s, d, v) ==> HomedAt(s, home, d, v)
  }

  ghost predicate HomedAt(s: State, home: map<Frame, Vpn>, d: Dir, v: Vpn)
    requires UserAt(s, d, v)
  {
    FrameAt(s, d, v) in home && home[FrameAt(s, d, v)] == v
  }

  lemma {:induction false} ForkRangeHomed(s: State, home: map<Frame, Vpn>, dst: Dir, src: Dir, lo: Vpn, hi: Vpn)
    requires Homed(s, home) && CanFork(s, dst, src, lo, hi)
    ensures Homed(ForkRange(s, dst, src, lo, hi), home)
    decreases hi - lo
  {
    if lo < hi {
      var s' := ForkPage(s, dst, src, lo);
      assert HomedAt(s, home, src, lo);
      ForkSameBut(s, dst, src, lo);
      forall d, v | UserAt(s', d, v)
        ensures HomedAt(s', home, d, v)
      {
        if !(d == dst && v == lo) { assert HomedAt(s, home, d, v); }
      }
      ForkRangeHomed(s', home, dst, src, lo + 1, hi);
    }
  }

  lemma {:induction false} UnmapRangeHomed(s: State, home: map<Frame, Vpn>, d: Dir, lo: Vpn, hi: Vpn, free: bool)
    requires Homed(s, home) && CanUnmap(s, d, lo, hi)
    ensures Homed(UnmapRange(s, d, lo, hi, free), home)
    decreases hi - lo
  {
    hide Inv;
    if lo < hi {
      UnmapKeepsInv(s, d, lo, free);
      UnmapSameBut(s, d, lo, free);
      var s' := Unmap(s, d, lo, free);
      forall e, v | UserAt(s', e, v)
        ensures HomedAt(s', home, e, v)
      {
        assert HomedAt(s, home, e, v);
      }
      UnmapRangeHomed(s', home, d, lo + 1, hi, free);
    }
  }

  /** A frame that is not allocated is nobody's, so a new mapping may choose its home. */
  lemma NewHome(s: State, s': State, home: map<Frame, Vpn>, d: Dir, v: Vpn, f: Frame)
    requires Homed(s, home) && SlotsOk(s) && f !in s.data
    requires SameBut(s, s', d, v) && UserAt(s', d, v) && FrameAt(s', d, v) == f
    ensures Homed(s', home[f := v])
  {
    forall e, w | UserAt(s', e, w)
      ensures HomedAt(s', home[f := v], e, w)
    {
      if !(e == d && w == v) { assert HomedAt(s, home, e, w) && SlotOk(s, s.dirs[e][w]); }
    }
  }

  lemma SameFrames(s: State, s': State, home: map<Frame, Vpn>)
    requires Homed(s, home)
    requires forall d, v :: UserAt(s', d, v) ==> UserAt(s, d, v) && FrameAt(s', d, v) == FrameAt(s, d, v)
    ensures Homed(s', home)
  {
    forall d, v | UserAt(s', d, v)
      ensures HomedAt(s', home, d, v)
    {
      assert HomedAt(s, home, d, v);
    }
  }

  lemma StepHomed(s: State, home: map<Frame, Vpn>, step: Step) returns (home': map<Frame, Vpn>)
    requires Homed(s, home) && Enabled(s, step)
    ensures Homed(Apply(s, step), home')
  {
    hide Homed, CountsOk, SlotsOk, ForkRange, UnmapRange, CanFork, UserRange;
    home' := home;
    match step
    case Load(d, v, p, page) =>
      home' := home[p.ppn := v];
      NewHome(s, Apply(s, step), home, d, v, p.ppn);
    case Fork(dst, src, lo, hi) => ForkRangeHomed(s, home, dst, src, lo, hi);
    case Fault(d, v, f) =>
      Mapped(s, d, v);
      if !s.dirs[d][v].w && s.refs[s.dirs[d][v].ppn] != 1 {
        home' := home[f := v];
        NewHome(s, Apply(s, step), home, d, v, f);
      } else {
        SameFrames(s, Apply(s, step), home);
      }
    case Release(d, lo, hi, free) => UnmapRangeHomed(s, home, d, lo, hi, free);
    case NewDir(d, kernel) => SameFrames(s, Apply(s, step), home);
    case Write(d, v, off, x) => SameFrames(s, Apply(s, step), home);
    case DropDir(d) => SameFrames(s, Apply(s, step), home);
  }

  lemma {:induction false} RunHomed(s: State, home: map<Frame, Vpn>, steps: seq<Step>) returns (home': map<Frame, Vpn>)
    requires Inv(s) && Homed(s, home) && Runs(s, steps)
    ensures Homed(After(s, steps), home')
    decreases |steps|
  {
    hide Guard, Inv, Homed, Apply;
    home' := home;
    if steps != [] {
      StepKeeps(s, steps[0]);
      home' := StepHomed(s, home, steps[0]);
      home' := RunHomed(Apply(s, steps[0]), home', steps[1..]);
    }
  }

  lemma {:induction false} OnePerDir(w: set<Slot>, h: Vpn, dirs: set<Dir>)
    requires forall t :: t in w ==> t.v == h && t.d in dirs
    ensures |w| <= |dirs|
  {
    if t :| t in w {
      forall u | u in w - {t}
        ensures u.d in dirs - {t.d}
      {
        assert u == Slot(u.d, h) && t == Slot(t.d, h);
      }
      OnePerDir(w - {t}, h, dirs - {t.d});
    }
  }

  /** The reference field of a page has 16 bits. */
  const REF_LIMIT := 0x1_0000

  /** A reference count is at most the number of directories, so with less than 65536 of them the
      counter never wraps; the limit of 32 processes keeps far below. */
  lemma ReferencesFit(steps: seq<Step>, f: Frame)
    requires Runs(EMPTY, steps)
    requires f in Booted(steps).data
    ensures var s := Booted(steps); f in s.refs && s.refs[f] <= |s.dirs|
    ensures |Booted(steps).dirs| < REF_LIMIT ==> Booted(steps).refs[f] < REF_LIMIT
  {
    hide Runs, After, EagerAfter, Slots;
    EmptyShows();
    RunShows(EMPTY, map[], steps);
    var home := RunHomed(EMPTY, map[], steps);
    var s := Booted(steps);
    assert FrameOk(s, f);
    var w := Mappers(s, f);
    if t :| t in w {
      BoundMappers(s, home, f, t);
    }
  }

  lemma BoundMappers(s: State, home: map<Frame, Vpn>, f: Frame, t: Slot)
    requires Homed(s, home) && t in Mappers(s, f)
    ensures |Mappers(s, f)| <= |s.dirs|
  {
    assert HomedAt(s, home, t.d, t.v);
    forall u | u in Mappers(s, f)
      ensures u.v == home[f] && u.d in s.dirs.Keys
    {
      assert HomedAt(s, home, u.d, u.v);
    }
    OnePerDir(Mappers(s, f), home[f], s.dirs.Keys);
  }

  // ------------------------------------------------------------------- where it goes wrong

  /** dealloc_page_dir does not look at what is still mapped.  The counts stay right exactly when
      no user page was left in the directory. */
  lemma DropKeepsCounts(s: State, d: Dir)
    requires Inv(s) && d in s.dirs
    ensures Inv(s.(dirs := s.dirs - {d})) <==> NoUser(s.dirs[d])
  {
    hide Slots, Mappers;
    var s' := s.(dirs := s.dirs - {d});
    if NoUser(s.dirs[d]) {
      OwnViewShows(s);
      DirsShows(s, s', OwnView(s));
    } else {
      var v :| v in s.dirs[d] && s.dirs[d][v].u;
      LostMapping(s, d, v);
    }
  }

  lemma LostMapping(s: State, d: Dir, v: Vpn)
    requires Inv(s) && UserAt(s, d, v)
    ensures !Inv(s.(dirs := s.dirs - {d}))
  {
    var s' := s.(dirs := s.dirs - {d});
    var f := FrameAt(s, d, v);
    assert SlotOk(s, s.dirs[d][v]) && FrameOk(s, f);
    var w, w' := Mappers(s, f), Mappers(s', f);
    assert Slot(d, v) in w && Slot(d, v) !in w';
    assert w' <= w - {Slot(d, v)} by {
      forall t | t in w'
        ensures t in w - {Slot(d, v)}
      {
        assert UserAt(s', t.d, t.v) && t == Slot(t.d, t.v);
      }
    }
    SmallerSet(w', w - {Slot(d, v)});
    assert !FrameOk(s', f);
  }

  /** `perm` says which user pages their process may write.  The page tables honour it. */
  ghost predicate Honours(s: State, perm: map<Slot, bool>) {
    forall d, v :: UserAt(s, d, v) ==> Slot(d, v) in perm && (s.dirs[d][v].w ==> perm[Slot(d, v)])
  }

  /** do_pagefault cannot tell a page protected for copy-on-write from a page that is read-only:
      the fault keeps protections exactly when the page was writable in the first place. */
  lemma FaultHonours(s: State, perm: map<Slot, bool>, d: Dir, v: Vpn, f: Frame)
    requires Inv(s) && Honours(s, perm) && UserAt(s, d, v) && !s.dirs[d][v].w
    ensures SlotOk(s, s.dirs[d][v]) && s.refs[s.dirs[d][v].ppn] > 0
    ensures Honours(FaultPage(s, d, v, f), perm) <==> perm[Slot(d, v)]
  {
    hide Inv;
    Mapped(s, d, v);
    var t := FaultPage(s, d, v, f);
    assert UserAt(t, d, v) && t.dirs[d][v].w;
    assert forall e, w :: UserAt(t, e, w) ==> UserAt(s, e, w) && (!(e == d && w == v) ==> t.dirs[e][w] == s.dirs[e][w]);
  }

  // -------------------------------------------------------- what a process may write, over runs

  /** Which pages may be written: as loading said, passed on by fork. */
  ghost function Granted(perm: map<Slot, bool>, step: Step): map<Slot, bool> {
    match step
    case Load(d, v, p, _) => perm[Slot(d, v) := p.w]
    case Fork(dst, src, lo, hi) => EagerFork(perm, dst, src, lo, hi)
    case Release(d, lo, hi, _) => EagerUnmap(perm, d, lo, hi)
    case NewDir(_, _) => perm
    case Fault(_, _, _) => perm
    case Write(_, _, _, _) => perm
    case DropDir(_) => perm
  }

  /** From this state on no page is ever writable that may not be written. */
  ghost predicate AlwaysHonours(s: State, perm: map<Slot, bool>, steps: seq<Step>)
    requires Inv(s) && Runs(s, steps)
    decreases |steps|
  {
    && Honours(s, perm)
    && if steps == [] then true
      else StepKeeps(s, steps[0]); AlwaysHonours(Apply(s, steps[0]), Granted(perm, steps[0]), steps[1..])
  }

  /** No write fault comes from a page that may not be written. */
  ghost predicate NoForbiddenFault(perm: map<Slot, bool>, steps: seq<Step>)
    decreases |steps|
  {
    steps != [] ==>
      && (steps[0].Fault? ==> Slot(steps[0].d, steps[0].v) in perm && perm[Slot(steps[0].d, steps[0].v)])
      && NoForbiddenFault(Granted(perm, steps[0]), steps[1..])
  }

  lemma {:induction false} ForkHonours(s: State, perm: map<Slot, bool>, dst: Dir, src: Dir, lo: Vpn, hi: Vpn)
    requires Honours(s, perm) && CanFork(s, dst, src, lo, hi)
    ensures Honours(ForkRange(s, dst, src, lo, hi), EagerFork(perm, dst, src, lo, hi))
    decreases hi - lo
  {
    if lo < hi {
      ForkSameBut(s, dst, src, lo);
      ForkHonours(ForkPage(s, dst, src, lo), perm[Slot(dst, lo) := perm[Slot(src, lo)]], dst, src, lo + 1, hi);
    }
  }

  lemma {:induction false} UnmapHonours(s: State, perm: map<Slot, bool>, d: Dir, lo: Vpn, hi: Vpn, free: bool)
    requires Honours(s, perm) && CanUnmap(s, d, lo, hi)
    ensures Honours(UnmapRange(s, d, lo, hi, free), EagerUnmap(perm, d, lo, hi))
    decreases hi - lo
  {
    hide Inv;
    if lo < hi {
      UnmapKeepsInv(s, d, lo, free);
      UnmapSameBut(s, d, lo, free);
      UnmapHonours(Unmap(s, d, lo, free), perm - {Slot(d, lo)}, d, lo + 1, hi, free);
    }
  }

  lemma StepHonours(s: State, perm: map<Slot, bool>, step: Step)
    requires Honours(s, perm) && Enabled(s, step)
    ensures Honours(Apply(s, step), Granted(perm, step)) <==>
      (step.Fault? ==> Slot(step.d, step.v) in perm && perm[Slot(step.d, step.v)])
  {
    hide Inv, ForkRange, UnmapRange, EagerFork, EagerUnmap;
    match step
    case Fork(dst, src, lo, hi) => ForkHonours(s, perm, dst, src, lo, hi);
    case Release(d, lo, hi, free) => UnmapHonours(s, perm, d, lo, hi, free);
    case Fault(d, v, f) => if !s.dirs[d][v].w { FaultHonours(s, perm, d, v, f); }
    case Load(d, v, p, page) =>
    case NewDir(d, kernel) =>
    case Write(d, v, off, x) =>
    case DropDir(d) =>
  }

  lemma {:induction false} RunHonours(s: State, perm: map<Slot, bool>, steps: seq<Step>)
    requires Inv(s) && Runs(s, steps) && Honours(s, perm)
    ensures AlwaysHonours(s, perm, steps) <==> NoForbiddenFault(perm, steps)
    decreases |steps|
  {
    hide Inv, Guard, Apply, Granted, Honours;
    if steps != [] {
      StepKeeps(s, steps[0]);
      StepHonours(s, perm, steps[0]);
      if Honours(Apply(s, steps[0]), Granted(perm, steps[0])) {
        RunHonours(Apply(s, steps[0]), Granted(perm, steps[0]), steps[1..]);
      } else {
        Dishonoured(Apply(s, steps[0]), Granted(perm, steps[0]), steps[1..]);
      }
    }
  }

  lemma Dishonoured(s: State, perm: map<Slot, bool>, steps: seq<Step>)
    requires Inv(s) && Runs(s, steps) && !Honours(s, perm)
    ensures !AlwaysHonours(s, perm, steps)
  {
    hide Inv, Guard, Apply, Granted, Honours;
  }

  /** From boot, write protection holds throughout a run exactly when no write fault comes from a page
      that was loaded read-only or inherited from one. */
  lemma ProtectionHolds(steps: seq<Step>)
    requires Runs(EMPTY, steps)
    ensures Inv(EMPTY) && (AlwaysHonours(EMPTY, map[], steps) <==> NoForbiddenFault(map[], steps))
  {
    EmptyShows();
    RunHonours(EMPTY, map[], steps);
  }

  // ----------------------------------------------------- what else an entry says, over runs

  /** `d` maps something at `v`, for the user or not. */
  predicate MappedAt(s: State, d: Dir, v: Vpn) {
    d in s.dirs && v in s.dirs[d]
  }

  ghost function KernelSlots(d: Dir, kernel: Mapping): set<Slot> {
    set v | v in kernel :: Slot(d, v)
  }

  /** The entries as they were first made: by loading for a user page, with the directory for a page of
      the kernel; fork passes them on. */
  ghost function Made(made: map<Slot, Pte>, step: Step): map<Slot, Pte> {
    match step
    case NewDir(d, kernel) => made + map t | t in KernelSlots(d, kernel) && t.v in kernel :: kernel[t.v]
    case Load(d, v, p, _) => made[Slot(d, v) := p]
    case Fork(dst, src, lo, hi) => EagerFork(made, dst, src, lo, hi)
    case Release(d, lo, hi, _) => EagerUnmap(made, d, lo, hi)
    case DropDir(d) => map t | t in made && t.d != d :: made[t]
    case Fault(_, _, _) => made
    case Write(_, _, _, _) => made
  }

  ghost function MadeAfter(made: map<Slot, Pte>, steps: seq<Step>): map<Slot, Pte>
    decreases |steps|
  {
    if steps == [] then made else MadeAfter(Made(made, steps[0]), steps[1..])
  }

  /** A user page may be write-protected and may move to another frame; nothing else of its entry
      changes, and nothing at all of a page of the kernel. */
  predicate Descends(p: Pte, q: Pte) {
    q == if p.u then p.(w := q.w, ppn := q.ppn) else p
  }

  ghost predicate AsMade(s: State, made: map<Slot, Pte>) {
    forall d, v ::
      && (MappedAt(s, d, v) <==> Slot(d, v) in made)
      && (MappedAt(s, d, v) ==> Descends(made[Slot(d, v)], s.dirs[d][v]))
  }

  lemma {:induction false} ForkAsMade(s: State, made: map<Slot, Pte>, dst: Dir, src: Dir, lo: Vpn, hi: Vpn)
    requires AsMade(s, made) && CanFork(s, dst, src, lo, hi)
    ensures AsMade(ForkRange(s, dst, src, lo, hi), EagerFork(made, dst, src, lo, hi))
    decreases hi - lo
  {
    if lo < hi {
      ForkPageAsMade(s, made, dst, src, lo);
      ForkAsMade(ForkPage(s, dst, src, lo), made[Slot(dst, lo) := made[Slot(src, lo)]], dst, src, lo + 1, hi);
    }
  }

  lemma ForkPageAsMade(s: State, made: map<Slot, Pte>, dst: Dir, src: Dir, v: Vpn)
    requires AsMade(s, made) && UserAt(s, src, v) && s.dirs[src][v].ppn in s.refs && dst in s.dirs && v !in s.dirs[dst]
    ensures Slot(src, v) in made && AsMade(ForkPage(s, dst, src, v), made[Slot(dst, v) := made[Slot(src, v)]])
  {
    assert MappedAt(s, src, v);
    var s', made' := ForkPage(s, dst, src, v), made[Slot(dst, v) := made[Slot(src, v)]];
    forall e, w
      ensures MappedAt(s', e, w) <==> Slot(e, w) in made'
      ensures MappedAt(s', e, w) ==> Descends(made'[Slot(e, w)], s'.dirs[e][w])
    {
      assert MappedAt(s, e, w) <==> Slot(e, w) in made;
    }
  }

  lemma {:induction false} UnmapAsMade(s: State, made: map<Slot, Pte>, d: Dir, lo: Vpn, hi: Vpn, free: bool)
    requires AsMade(s, made) && CanUnmap(s, d, lo, hi)
    ensures AsMade(UnmapRange(s, d, lo, hi, free), EagerUnmap(made, d, lo, hi))
    decreases hi - lo
  {
    hide Inv, AsMade;
    if lo < hi {
      UnmapKeepsInv(s, d, lo, free);
      UnmapPageAsMade(s, made, d, lo, free);
      UnmapAsMade(Unmap(s, d, lo, free), made - {Slot(d, lo)}, d, lo + 1, hi, free);
    }
  }

  lemma UnmapPageAsMade(s: State, made: map<Slot, Pte>, d: Dir, v: Vpn, free: bool)
    requires AsMade(s, made) && UserAt(s, d, v) && s.dirs[d][v].ppn in s.refs && s.refs[s.dirs[d][v].ppn] > 0
    ensures AsMade(Unmap(s, d, v, free), made - {Slot(d, v)})
  {
    var s', made' := Unmap(s, d, v, free), made - {Slot(d, v)};
    forall e, w
      ensures MappedAt(s', e, w) <==> Slot(e, w) in made'
      ensures MappedAt(s', e, w) ==> Descends(made'[Slot(e, w)], s'.dirs[e][w])
    {
      assert MappedAt(s, e, w) <==> Slot(e, w) in made;
    }
  }

  lemma FaultAsMade(s: State, made: map<Slot, Pte>, d: Dir, v: Vpn, f: Frame)
    requires AsMade(s, made) && UserAt(s, d, v) && SlotOk(s, s.dirs[d][v]) && s.refs[s.dirs[d][v].ppn] > 0
    ensures AsMade(FaultPage(s, d, v, f), made)
  {
    var s' := FaultPage(s, d, v, f);
    forall e, w
      ensures MappedAt(s', e, w) <==> Slot(e, w) in made
      ensures MappedAt(s', e, w) ==> Descends(made[Slot(e, w)], s'.dirs[e][w])
    {
      assert MappedAt(s, e, w) <==> Slot(e, w) in made;
    }
  }

  /** Steps that change the entries of at most one directory, page by page. */
  lemma PageAsMade(s: State, made: map<Slot, Pte>, step: Step)
    requires AsMade(s, made) && Enabled(s, step) && !step.Fork? && !step.Release? && !step.Fault?
    ensures AsMade(Apply(s, step), Made(made, step))
  {
    hide Inv;
    var s', made' := Apply(s, step), Made(made, step);
    forall e, w
      ensures MappedAt(s', e, w) <==> Slot(e, w) in made'
      ensures MappedAt(s', e, w) ==> Descends(made'[Slot(e, w)], s'.dirs[e][w])
    {
      assert MappedAt(s, e, w) <==> Slot(e, w) in made;
    }
  }

  lemma StepAsMade(s: State, made: map<Slot, Pte>, step: Step)
    requires AsMade(s, made) && Enabled(s, step)
    ensures AsMade(Apply(s, step), Made(made, step))
  {
    hide Inv, AsMade, ForkRange, UnmapRange, EagerFork, EagerUnmap;
    if step.Fork? {
      ForkAsMade(s, made, step.dst, step.src, step.lo, step.hi);
    } else if step.Release? {
      UnmapAsMade(s, made, step.d, step.lo, step.hi, step.free);
    } else if step.Fault? {
      Mapped(s, step.d, step.v);
      FaultAsMade(s, made, step.d, step.v, step.f);
    } else {
      PageAsMade(s, made, step);
    }
  }

  lemma {:induction false} RunAsMade(s: State, made: map<Slot, Pte>, steps: seq<Step>)
    requires Inv(s) && Runs(s, steps) && AsMade(s, made)
    ensures AsMade(After(s, steps), MadeAfter(made, steps))
    decreases |steps|
  {
    hide Inv, Guard, Apply, Made, AsMade;
    if steps != [] {
      StepKeeps(s, steps[0]);
      StepAsMade(s, made, steps[0]);
      RunAsMade(Apply(s, steps[0]), Made(made, steps[0]), steps[1..]);
    }
  }

  /** From boot, every process has exactly the pages that loading and fork gave it, each readable,
      executable and global as it was loaded, and every directory the pages of the kernel unchanged. */
  lemma EntriesAsMade(steps: seq<Step>, d: Dir, v: Vpn)
    requires Runs(EMPTY, steps)
    ensures var s, made := Booted(steps), MadeAfter(map[], steps);
      && (MappedAt(s, d, v) <==> Slot(d, v) in made)
      && (MappedAt(s, d, v) && made[Slot(d, v)].u ==>
        var p, q := made[Slot(d, v)], s.dirs[d][v]; q.u && q.r == p.r && q.x == p.x && q.g == p.g)
      && (MappedAt(s, d, v) && !made[Slot(d, v)].u ==> s.dirs[d][v] == made[Slot(d, v)])
  {
    hide Runs, After, MadeAfter, Inv;
    EmptyShows();
    assert AsMade(EMPTY, map[]);
    RunAsMade(EMPTY, map[], steps);
  }

  /** One directory with one read-only page. */
  const ONE_PAGE := State(map[0 := map[0 := Pte(true, false, false, true, false, 1)]], map[1 := 1], map[1 := [7]])

  lemma OnePageInv()
    ensures Inv(ONE_PAGE) && UserAt(ONE_PAGE, 0, 0)
  {
    assert Mappers(ONE_PAGE, 1) == {Slot(0, 0)};
    assert FrameOk(ONE_PAGE, 1);
  }

  /** The process stores into its read-only page, and dropping its directory loses the frame. */
  lemma ReadOnlyAndLeak()
    ensures Inv(ONE_PAGE) && Honours(ONE_PAGE, map[Slot(0, 0) := false])
    ensures !Honours(FaultPage(ONE_PAGE, 0, 0, 2), map[Slot(0, 0) := false])
    ensures !Inv(ONE_PAGE.(dirs := ONE_PAGE.dirs - {0}))
  {
    OnePageInv();
    FaultHonours(ONE_PAGE, map[Slot(0, 0) := false], 0, 0, 2);
    DropKeepsCounts(ONE_PAGE, 0);
  }
}
