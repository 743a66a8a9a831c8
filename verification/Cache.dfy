/** The block cache of kernel/dev/buffered_io.c as the read-only file system uses it: a list of
    buffers, the one got last in front. */
module Cache {
  const MAX_BIO_CACHE := 16

  /** A device number and a block address. */
  datatype Key = Key(dev: int, addr: int)

  /** A buffered_io_t; `locked` is its sleep lock, `stamp` when it was got last. */
  datatype Buf = Buf(key: Key, reference: int, locked: bool, valid: bool, data: seq<int>, stamp: int)

  // ----------------------------------------------------------------- the cache as a list

  predicate HasKey(s: seq<Buf>, key: Key) {
    exists i :: 0 <= i < |s| && s[i].key == key
  }

  ghost predicate IsFirst(s: seq<Buf>, key: Key, k: int) {
    0 <= k < |s| && s[k].key == key && forall i :: 0 <= i < k ==> s[i].key != key
  }

  /** The buffer to give up: the last one nobody holds. */
  ghost predicate IsVictim(s: seq<Buf>, v: int) {
    0 <= v < |s| && s[v].reference == 0 && forall i :: v < i < |s| ==> s[i].reference != 0
  }

  ghost predicate AllHeld(s: seq<Buf>) {
    forall i :: 0 <= i < |s| ==> s[i].reference != 0
  }

  function Without(s: seq<Buf>, k: int): seq<Buf>
    requires 0 <= k < |s|
  {
    s[..k] + s[k + 1..]
  }

  function Fresh(key: Key, now: int): Buf {
    Buf(key, 1, false, false, [], now)
  }

  /** What bio_cache_get makes of the list. */
  ghost predicate Got(s: seq<Buf>, key: Key, now: int, s': seq<Buf>) {
    if HasKey(s, key) then
      exists k :: IsFirst(s, key, k) && s' == [s[k].(reference := s[k].reference + 1, stamp := now)] + Without(s, k)
    else if |s| >= MAX_BIO_CACHE && !AllHeld(s) then
      exists v :: IsVictim(s, v) && s' == [Fresh(key, now)] + Without(s, v)
    else s' == [Fresh(key, now)] + s
  }

  class BioCache {
    var bufs: seq<Buf>
    /** How many gets there were. */
    var clock: int

    constructor ()
      ensures bufs == [] && clock == 0
    {
      bufs, clock := [], 0;
    }

    /** bio_cache_get up to waiting for the lock of the buffer: the buffer of the block, in front of the
        list, held once more. */
    method Get(key: Key)
      modifies this
      ensures Got(old(bufs), key, old(clock), bufs) && clock == old(clock) + 1
    {
      var i := 0;
      while i < |bufs|
        invariant 0 <= i <= |bufs| && bufs == old(bufs) && clock == old(clock)
        invariant forall j :: 0 <= j < i ==> bufs[j].key != key
      {
        if bufs[i].key == key {
          var buf := bufs[i].(reference := bufs[i].reference + 1, stamp := clock);
          assert IsFirst(bufs, key, i);
          bufs := [buf] + Without(bufs, i);
          clock := clock + 1;
          return;
        }
        i := i + 1;
      }
      if i >= MAX_BIO_CACHE {
        var j := |bufs| - 1;
        while j >= 0 && bufs[j].reference != 0
          invariant -1 <= j < |bufs| && bufs == old(bufs) && clock == old(clock)
          invariant forall k :: j < k < |bufs| ==> bufs[k].reference != 0
        {
          j := j - 1;
        }
        if j >= 0 {
          assert IsVictim(bufs, j);
          bufs := Without(bufs, j);
        }
      }
      bufs := [Fresh(key, clock)] + bufs;
      clock := clock + 1;
    }

    /** The end of bio_cache_get: the lock of the buffer, or another wait for it. */
    method Lock(k: nat) returns (got: bool)
      requires k < |bufs|
      modifies this`bufs
      ensures got <==> !old(bufs)[k].locked
      ensures bufs == old(bufs)[k := old(bufs)[k].(locked := true)]
    {
      got := !bufs[k].locked;
      if got {
        bufs := bufs[k := bufs[k].(locked := true)];
      }
    }

    /** The part of bio_cache_read after the get: a buffer that is not valid is read from the device. */
    method Fill(k: nat, device: Key -> seq<int>)
      requires k < |bufs|
      modifies this`bufs
      ensures bufs == old(bufs)[k := Filled(old(bufs)[k], device)]
      ensures bufs[k].valid && bufs[k].key == old(bufs)[k].key
      ensures bufs[k].data == if old(bufs)[k].valid then old(bufs)[k].data else device(bufs[k].key)
    {
      if bufs[k].valid {
        return;
      }
      bufs := bufs[k := bufs[k].(data := device(bufs[k].key))];
      bufs := bufs[k := bufs[k].(valid := true)];
    }

    /** bio_cache_release: false is the panic on a buffer that nobody has locked. */
    method Release(k: nat) returns (ok: bool)
      requires k < |bufs|
      modifies this`bufs
      ensures ok <==> old(bufs)[k].locked
      ensures bufs == if ok then old(bufs)[k := Released(old(bufs)[k])] else old(bufs)
    {
      ok := bufs[k].locked;
      if !ok {
        return;
      }
      bufs := bufs[k := bufs[k].(locked := false)];
      bufs := bufs[k := bufs[k].(reference := bufs[k].reference - 1)];
    }
  }

  function Filled(b: Buf, device: Key -> seq<int>): Buf {
    if b.valid then b else b.(data := device(b.key), valid := true)
  }

  function Released(b: Buf): Buf {
    b.(locked := false, reference := b.reference - 1)
  }

  // ------------------------------------------------------------------------- invariant

  /** Who has the lock holds a reference. */
  predicate BufOk(b: Buf, device: Key -> seq<int>, clock: int) {
    0 <= b.reference && (b.locked ==> b.reference > 0) && b.stamp < clock && (b.valid ==> b.data == device(b.key))
  }

  /** How many buffers somebody holds. */
  function Held(s: seq<Buf>): nat {
    if s == [] then 0 else (if s[0].reference != 0 then 1 else 0) + Held(s[1..])
  }

  /** At most one buffer for a block, a valid buffer is the block, the list is in the order of the
      gets, and the cache has no more buffers than 16 or than were held at once. */
  ghost predicate Inv(s: seq<Buf>, device: Key -> seq<int>, clock: int, peak: int) {
    && (forall i :: 0 <= i < |s| ==> BufOk(s[i], device, clock))
    && Ordered(s)
    && |s| <= (if peak < MAX_BIO_CACHE then MAX_BIO_CACHE else peak) && Held(s) <= peak
  }

  ghost predicate Ordered(s: seq<Buf>) {
    forall i, j :: 0 <= i < j < |s| ==> Before(s[i], s[j])
  }

  predicate Before(a: Buf, b: Buf) {
    a.key != b.key && a.stamp > b.stamp
  }

  lemma {:induction false} HeldUpdate(s: seq<Buf>, k: int, b: Buf)
    requires 0 <= k < |s|
    ensures Held(s[k := b]) == Held(s) - (if s[k].reference != 0 then 1 else 0) + (if b.reference != 0 then 1 else 0)
  {
    if k == 0 {
      assert s[k := b][1..] == s[1..];
    } else {
      HeldUpdate(s[1..], k - 1, b);
      assert s[k := b][1..] == s[1..][k - 1 := b];
    }
  }

  lemma {:induction false} HeldAll(s: seq<Buf>)
    requires AllHeld(s)
    ensures Held(s) == |s|
  {
    if s != [] { HeldAll(s[1..]); }
  }

  lemma OrderedWithout(s: seq<Buf>, k: int)
    requires Ordered(s) && 0 <= k < |s|
    ensures Ordered(Without(s, k)) && forall i :: 0 <= i < |s| - 1 ==> Without(s, k)[i] == s[if i < k then i else i + 1]
  {
  }

  /** A buffer in front of a list that does not have its block. */
  lemma OrderedFront(b: Buf, s: seq<Buf>, device: Key -> seq<int>, clock: int)
    requires Ordered(s) && (forall i :: 0 <= i < |s| ==> BufOk(s[i], device, clock) && s[i].key != b.key) &&
      b.stamp == clock
    ensures Ordered([b] + s)
  {
  }

  lemma GotInv(s: seq<Buf>, device: Key -> seq<int>, clock: int, peak: int, key: Key, s': seq<Buf>, peak': int)
    requires Inv(s, device, clock, peak) && Got(s, key, clock, s') && peak' >= peak && peak' >= Held(s')
    ensures Inv(s', device, clock + 1, peak')
  {
    hide Ordered, BufOk;
    if HasKey(s, key) {
      var k :| IsFirst(s, key, k) && s' == [s[k].(reference := s[k].reference + 1, stamp := clock)] + Without(s, k);
      HitInv(s, device, clock, k);
    } else if |s| >= MAX_BIO_CACHE && !AllHeld(s) {
      var v :| IsVictim(s, v) && s' == [Fresh(key, clock)] + Without(s, v);
      OrderedWithout(s, v);
      FrontInv(Fresh(key, clock), Without(s, v), device, clock);
    } else {
      FrontInv(Fresh(key, clock), s, device, clock);
      if |s| >= MAX_BIO_CACHE {
        HeldAll(s');
      }
    }
  }

  /** A buffer got just now goes in front of a list that does not have its block. */
  lemma FrontInv(b: Buf, s: seq<Buf>, device: Key -> seq<int>, clock: int)
    requires Ordered(s) && (forall i :: 0 <= i < |s| ==> BufOk(s[i], device, clock) && s[i].key != b.key)
    requires BufOk(b, device, clock + 1) && b.stamp == clock
    ensures Ordered([b] + s) && forall i :: 0 <= i <= |s| ==> BufOk(([b] + s)[i], device, clock + 1)
  {
    OrderedFront(b, s, device, clock);
  }

  lemma HitInv(s: seq<Buf>, device: Key -> seq<int>, clock: int, k: int)
    requires Ordered(s) && (forall i :: 0 <= i < |s| ==> BufOk(s[i], device, clock)) && 0 <= k < |s|
    ensures var s' := [s[k].(reference := s[k].reference + 1, stamp := clock)] + Without(s, k);
      Ordered(s') && forall i :: 0 <= i < |s'| ==> BufOk(s'[i], device, clock + 1)
  {
    OrderedWithout(s, k);
    OthersDiffer(s, k);
    assert BufOk(s[k], device, clock);
    FrontInv(s[k].(reference := s[k].reference + 1, stamp := clock), Without(s, k), device, clock);
  }

  lemma OthersDiffer(s: seq<Buf>, k: int)
    requires Ordered(s) && 0 <= k < |s|
    ensures forall i :: 0 <= i < |s| - 1 ==> Without(s, k)[i].key != s[k].key
  {
    OrderedWithout(s, k);
    forall i | 0 <= i < |s| - 1
      ensures Without(s, k)[i].key != s[k].key
    {
      if i < k { assert Before(s[i], s[k]); } else { assert Before(s[k], s[i + 1]); }
    }
  }

  /** The buffer given up is held by nobody and was got least recently of those. */
  lemma VictimIsOldest(s: seq<Buf>, v: int, i: int)
    requires Ordered(s) && IsVictim(s, v) && 0 <= i < |s| && s[i].reference == 0 && i != v
    ensures s[v].stamp < s[i].stamp
  {
    assert Before(s[i], s[v]);
  }

  lemma UpdateInv(s: seq<Buf>, device: Key -> seq<int>, clock: int, peak: int, k: int, b: Buf)
    requires Inv(s, device, clock, peak) && 0 <= k < |s| && BufOk(b, device, clock) && b.key == s[k].key &&
      b.stamp == s[k].stamp
    requires b.reference != 0 ==> s[k].reference != 0
    ensures Inv(s[k := b], device, clock, peak)
  {
    HeldUpdate(s, k, b);
    var s' := s[k := b];
    forall i, j | 0 <= i < j < |s'|
      ensures Before(s'[i], s'[j])
    {
      assert Before(s[i], s[j]);
    }
  }

  // ------------------------------------------------------------------------------- runs

  datatype Step = Get(key: Key) | Lock(k: int) | Fill(k: int) | Release(k: int)

  datatype Sys = Sys(bufs: seq<Buf>, clock: int, peak: int)

  /** A process that has got a buffer waits for its lock; it fills and releases it with the lock. */
  ghost predicate Next(s: Sys, step: Step, device: Key -> seq<int>, s': Sys) {
    match step
    case Get(key) =>
      && Got(s.bufs, key, s.clock, s'.bufs) && s'.clock == s.clock + 1
      && s'.peak == (if Held(s'.bufs) > s.peak then Held(s'.bufs) else s.peak)
    case Lock(k) =>
      && 0 <= k < |s.bufs| && s.bufs[k].reference > 0 && !s.bufs[k].locked
      && s' == s.(bufs := s.bufs[k := s.bufs[k].(locked := true)])
    case Fill(k) =>
      0 <= k < |s.bufs| && s.bufs[k].locked && s' == s.(bufs := s.bufs[k := Filled(s.bufs[k], device)])
    case Release(k) =>
      0 <= k < |s.bufs| && s.bufs[k].locked && s' == s.(bufs := s.bufs[k := Released(s.bufs[k])])
  }

  ghost predicate Trace(states: seq<Sys>, steps: seq<Step>, device: Key -> seq<int>) {
    |states| == |steps| + 1 && states[0] == Sys([], 0, 0) && forall i :: 0 <= i < |steps| ==>
      Next(states[i], steps[i], device, states[i + 1])
  }

  lemma NextInv(s: Sys, step: Step, device: Key -> seq<int>, s': Sys)
    requires Inv(s.bufs, device, s.clock, s.peak) && Next(s, step, device, s')
    ensures Inv(s'.bufs, device, s'.clock, s'.peak)
  {
    hide Inv, Got;
    match step
    case Get(key) => GotInv(s.bufs, device, s.clock, s.peak, key, s'.bufs, s'.peak);
    case Lock(k) =>
      OneOk(s.bufs, device, s.clock, s.peak, k);
      UpdateInv(s.bufs, device, s.clock, s.peak, k, s.bufs[k].(locked := true));
    case Fill(k) =>
      OneOk(s.bufs, device, s.clock, s.peak, k);
      UpdateInv(s.bufs, device, s.clock, s.peak, k, Filled(s.bufs[k], device));
    case Release(k) =>
      OneOk(s.bufs, device, s.clock, s.peak, k);
      UpdateInv(s.bufs, device, s.clock, s.peak, k, Released(s.bufs[k]));
  }

  lemma OneOk(s: seq<Buf>, device: Key -> seq<int>, clock: int, peak: int, k: int)
    requires Inv(s, device, clock, peak) && 0 <= k < |s|
    ensures BufOk(s[k], device, clock)
  {
  }

  /** Every run of gets, reads and releases. */
  lemma {:induction false} TraceInv(states: seq<Sys>, steps: seq<Step>, device: Key -> seq<int>, i: nat)
    requires Trace(states, steps, device) && i < |states|
    ensures Inv(states[i].bufs, device, states[i].clock, states[i].peak)
  {
    if i > 0 {
      TraceInv(states, steps, device, i - 1);
      assert Next(states[i - 1], steps[i - 1], device, states[i - 1 + 1]);
      NextInv(states[i - 1], steps[i - 1], device, states[i]);
    }
  }

  /** Whoever reads a block through the cache sees what the device holds. */
  lemma ReadsDevice(states: seq<Sys>, steps: seq<Step>, device: Key -> seq<int>, i: nat, k: nat, j: nat)
    requires Trace(states, steps, device) && i < |states| && k < |states[i].bufs| && j < |states[i].bufs|
    ensures states[i].bufs[k].valid ==> states[i].bufs[k].data == device(states[i].bufs[k].key)
    ensures states[i].bufs[k].key == states[i].bufs[j].key ==> k == j
    ensures |states[i].bufs| <= MAX_BIO_CACHE || |states[i].bufs| <= states[i].peak
    ensures states[i].bufs[k].reference >= (if states[i].bufs[k].locked then 1 else 0)
  {
    TraceInv(states, steps, device, i);
    var s := states[i].bufs;
    if k < j { assert Before(s[k], s[j]); }
    if j < k { assert Before(s[j], s[k]); }
  }

  /** After bio_cache_read the buffer is valid, is still that of its block, and holds what the device
      holds. */
  lemma ReadFills(states: seq<Sys>, steps: seq<Step>, device: Key -> seq<int>, i: nat)
    requires Trace(states, steps, device) && i < |steps| && steps[i].Fill?
    ensures var k, s, s' := steps[i].k, states[i].bufs, states[i + 1].bufs;
      && 0 <= k < |s| == |s'| && s'[k].key == s[k].key
      && s'[k].valid && s'[k].data == device(s[k].key)
  {
    TraceInv(states, steps, device, i);
    assert Next(states[i], steps[i], device, states[i + 1]);
    OneOk(states[i].bufs, device, states[i].clock, states[i].peak, steps[i].k);
  }

  // --------------------------------------------------------------------- references held

  /** How often the block was got and not released in the first `i` steps. */
  ghost function Holds(states: seq<Sys>, steps: seq<Step>, key: Key, i: nat): int
    requires |states| == |steps| + 1 && i <= |steps|
  {
    if i == 0 then 0 else Holds(states, steps, key, i - 1) + Change(states[i - 1].bufs, steps[i - 1], key)
  }

  predicate ReleasesOf(s: seq<Buf>, step: Step, key: Key) {
    step.Release? && 0 <= step.k < |s| && s[step.k].key == key
  }

  function Change(s: seq<Buf>, step: Step, key: Key): int {
    if step == Get(key) then 1 else if ReleasesOf(s, step, key) then -1 else 0
  }

  /** The references to the buffers of a block. */
  function Refs(s: seq<Buf>, key: Key): int {
    if s == [] then 0 else (if s[0].key == key then s[0].reference else 0) + Refs(s[1..], key)
  }

  lemma {:induction false} RefsWithout(s: seq<Buf>, key: Key, k: int)
    requires 0 <= k < |s|
    ensures Refs(s, key) == Refs(Without(s, k), key) + (if s[k].key == key then s[k].reference else 0)
  {
    if k == 0 {
      assert Without(s, 0) == s[1..];
    } else {
      RefsWithout(s[1..], key, k - 1);
      assert Without(s, k)[1..] == Without(s[1..], k - 1);
    }
  }

  lemma {:induction false} RefsUpdate(s: seq<Buf>, key: Key, k: int, b: Buf)
    requires 0 <= k < |s| && b.key == s[k].key
    ensures Refs(s[k := b], key) == Refs(s, key) + (if b.key == key then b.reference - s[k].reference else 0)
  {
    if k == 0 {
      assert s[k := b][1..] == s[1..];
    } else {
      RefsUpdate(s[1..], key, k - 1, b);
      assert s[k := b][1..] == s[1..][k - 1 := b];
    }
  }

  lemma RefsFront(b: Buf, s: seq<Buf>, key: Key)
    ensures Refs([b] + s, key) == (if b.key == key then b.reference else 0) + Refs(s, key)
  {
    assert ([b] + s)[1..] == s;
  }

  lemma {:induction false} RefsNone(s: seq<Buf>, key: Key)
    requires forall i :: 0 <= i < |s| ==> s[i].key != key
    ensures Refs(s, key) == 0
  {
    if s != [] { RefsNone(s[1..], key); }
  }

  lemma GotRefs(s: seq<Buf>, got: Key, now: int, s': seq<Buf>, key: Key)
    requires Got(s, got, now, s')
    ensures Refs(s', key) == Refs(s, key) + (if got == key then 1 else 0)
  {
    hide Refs, Without;
    if HasKey(s, got) {
      var k :| IsFirst(s, got, k) && s' == [s[k].(reference := s[k].reference + 1, stamp := now)] + Without(s, k);
      RefsWithout(s, key, k);
      RefsFront(s[k].(reference := s[k].reference + 1, stamp := now), Without(s, k), key);
    } else if |s| >= MAX_BIO_CACHE && !AllHeld(s) {
      var v :| IsVictim(s, v) && s' == [Fresh(got, now)] + Without(s, v);
      RefsWithout(s, key, v);
      RefsFront(Fresh(got, now), Without(s, v), key);
    } else {
      RefsFront(Fresh(got, now), s, key);
    }
  }

  lemma NextRefs(s: Sys, step: Step, device: Key -> seq<int>, s': Sys, key: Key)
    requires Next(s, step, device, s')
    ensures Refs(s'.bufs, key) == Refs(s.bufs, key) + Change(s.bufs, step, key)
  {
    hide Got, Refs;
    match step
    case Get(got) => GotRefs(s.bufs, got, s.clock, s'.bufs, key);
    case Lock(k) => RefsUpdate(s.bufs, key, k, s'.bufs[k]);
    case Fill(k) => RefsUpdate(s.bufs, key, k, s'.bufs[k]);
    case Release(k) => RefsUpdate(s.bufs, key, k, s'.bufs[k]);
  }

  lemma {:induction false} TraceRefs(states: seq<Sys>, steps: seq<Step>, device: Key -> seq<int>, key: Key, i: nat)
    requires Trace(states, steps, device) && i <= |steps|
    ensures Refs(states[i].bufs, key) == Holds(states, steps, key, i)
  {
    hide Next;
    if i > 0 {
      TraceRefs(states, steps, device, key, i - 1);
      assert Next(states[i - 1], steps[i - 1], device, states[i - 1 + 1]);
      NextRefs(states[i - 1], steps[i - 1], device, states[i], key);
    }
  }

  /** In every run the reference count of a buffer is how often its block was got and not released, and a
      block that somebody holds keeps its buffer. */
  lemma ReferencesCount(states: seq<Sys>, steps: seq<Step>, device: Key -> seq<int>, key: Key, i: nat)
    requires Trace(states, steps, device) && i <= |steps|
    ensures forall k :: 0 <= k < |states[i].bufs| && states[i].bufs[k].key == key ==>
      states[i].bufs[k].reference == Holds(states, steps, key, i)
    ensures Holds(states, steps, key, i) != 0 ==> HasKey(states[i].bufs, key)
  {
    hide Refs, Holds;
    var s := states[i].bufs;
    TraceInv(states, steps, device, i);
    TraceRefs(states, steps, device, key, i);
    forall k | 0 <= k < |s| && s[k].key == key
      ensures s[k].reference == Refs(s, key)
    {
      RefsWithout(s, key, k);
      OrderedWithout(s, k);
      OthersDiffer(s, k);
      RefsNone(Without(s, k), key);
    }
    if !HasKey(s, key) { RefsNone(s, key); }
  }
}
