/** The descriptor table of kernel/dev/virtio/virtio_mmio.c and the interrupt handler loop of
    kernel/dev/virtio/virtio_disk.c. */
module VirtioQueue {
  import opened Bitset
  import opened VirtioSpec
  import opened Sets

  /** A descriptor; `deviceWrites` is the flag WRITE_ONLY. */
  datatype Desc = Desc(addr: int, length: int, hasNext: bool, deviceWrites: bool, next: int)

  /** Every descriptor leads where it did. */
  ghost predicate SameLinks(desc: seq<Desc>, desc': seq<Desc>) {
    |desc| == |desc'| && forall i :: 0 <= i < |desc| ==> SameButAddr(desc[i], desc'[i])
  }

  predicate SameButAddr(d: Desc, d': Desc) {
    d' == d.(addr := d'.addr)
  }

  ghost function UsedDescs(map0: bv32): set<int> {
    set i | i in AllDescs() && InUse(map0, i)
  }

  predicate InUse(map0: bv32, i: int) {
    0 <= i < 32 && Has(map0, i)
  }

  /** The descriptors of a chain, from its head on. */
  ghost predicate Linked(desc: seq<Desc>, c: seq<int>) {
    |c| > 0 && forall k {:trigger Link(desc, c, k)} :: 0 <= k < |c| ==> Link(desc, c, k)
  }

  predicate Link(desc: seq<Desc>, c: seq<int>, k: int)
    requires 0 <= k < |c|
  {
    && 0 <= c[k] < QUEUE_NUM == |desc| && desc[c[k]].hasNext == (k + 1 < |c|)
    && (k + 1 < |c| ==> desc[c[k]].next == c[k + 1] >= 0)
  }

  /** The chain of a request: the device reads the header, reads or writes the data, writes the status. */
  predicate IsRequest(desc: seq<Desc>, idx: seq<int>, header: int, buf: int, size: int, status: int, write: bool) {
    && |idx| == 3 && (forall k :: 0 <= k < 3 ==> 0 <= idx[k] < |desc|)
    && desc[idx[0]] == Desc(header, 16, true, false, idx[1])
    && desc[idx[1]] == Desc(buf, size, true, !write, idx[2])
    && desc[idx[2]] == Desc(status, 1, false, true, 0)
  }

  ghost function Members(c: seq<int>): set<int> {
    set i | i in c
  }

  lemma SetUsed(w: bv32, r: int)
    requires 0 <= r < 32
    ensures UsedDescs(w | Bit(r)) == UsedDescs(w) + (if r < QUEUE_NUM then {r} else {})
  {
    hide Bit, Has;
    forall i | i in AllDescs()
      ensures InUse(w | Bit(r), i) <==> InUse(w, i) || i == r
    {
      SetBits(w, r, i);
    }
  }

  lemma ClearUsed(w: bv32, r: int)
    requires 0 <= r < QUEUE_NUM
    ensures UsedDescs(w & !Bit(r)) == UsedDescs(w) - {r}
  {
    hide Bit, Has;
    forall i | i in AllDescs()
      ensures InUse(w & !Bit(r), i) <==> InUse(w, i) && i != r
    {
      ClearBits(w, r, i);
    }
  }

  /** The bit found by set_first_unset_bit is the lowest free descriptor, or none is free. */
  lemma FindsLowest(w: bv32)
    requires w != 0xFFFFFFFF
    ensures var r := FirstClear(w); forall i :: 0 <= i < r && i < QUEUE_NUM ==> i in UsedDescs(w)
    ensures var r := FirstClear(w); r < QUEUE_NUM ==> r !in UsedDescs(w)
  {
    hide Bit, Has, FirstClear;
    forall i | 0 <= i < FirstClear(w) && i < QUEUE_NUM
      ensures i in UsedDescs(w)
    {
      FirstClearBits(w, i);
      assert InUse(w, i);
    }
    if FirstClear(w) < QUEUE_NUM { FirstClearBits(w, FirstClear(w)); }
  }

  lemma FullMap()
    ensures UsedDescs(0xFFFFFFFF) == AllDescs()
  {
    hide Bit, Has;
    forall i | i in AllDescs()
      ensures InUse(0xFFFFFFFF, i)
    {
      AllSet(i);
    }
  }

  class Queue {
    /** desc_used_map: one word of 32 bits for 8 descriptors. */
    var map0: bv32
    var desc: seq<Desc>

    ghost function Used(): set<int>
      reads this
    {
      UsedDescs(map0)
    }

    /** virtio_queue_desc_alloc: the lowest free descriptor, or -1.  When it fails it may still set a
        bit above those of the descriptors. */
    method DescAlloc() returns (idx: int)
      modifies this`map0
      ensures idx == -1 <==> old(Used()) == AllDescs()
      ensures idx == -1 ==> Used() == old(Used())
      ensures idx != -1 ==> 0 <= idx < QUEUE_NUM && idx !in old(Used()) && Used() == old(Used()) + {idx}
      ensures forall i :: 0 <= i < idx ==> i in old(Used())
    {
      hide Bit, Has, FirstClear, UsedDescs;
      if map0 == 0xFFFFFFFF {
        FullMap();
        return -1;
      }
      var r := FirstClear(map0);
      FindsLowest(map0);
      SetUsed(map0, r);
      InDescs(map0);
      map0 := map0 | Bit(r);
      if r >= QUEUE_NUM {
        return -1;
      }
      return r;
    }

    /** virtio_queue_desc_free: a descriptor that is free already stays so. */
    method DescFree(idx: nat)
      requires |desc| == QUEUE_NUM
      modifies this
      ensures |desc| == QUEUE_NUM && Used() == old(Used()) - {idx}
      ensures SameLinks(old(desc), desc) && forall i :: 0 <= i < QUEUE_NUM && i != idx ==> desc[i] == old(desc)[i]
    {
      hide Bit, Has, UsedDescs;
      InDescs(map0);
      if idx >= QUEUE_NUM {
        return;
      }
      UsedBit(map0, idx);
      if !Has(map0, idx) {
        return;
      }
      desc := desc[idx := desc[idx].(addr := 0)];
      ClearUsed(map0, idx);
      map0 := map0 & !Bit(idx);
    }

    /** virtio_queue_desc_alloc_some: all of them or none. */
    method AllocSome(num: nat) returns (got: bool, idxs: seq<int>)
      requires |desc| == QUEUE_NUM
      modifies this
      ensures |desc| == QUEUE_NUM && (got <==> num < QUEUE_NUM && |AllDescs() - old(Used())| >= num)
      ensures got ==> |idxs| == num && Distinct(idxs) && Members(idxs) <= AllDescs() - old(Used())
      ensures got ==> Used() == old(Used()) + Members(idxs) && desc == old(desc)
      ensures !got ==> Used() == old(Used()) && SameLinks(old(desc), desc)
    {
      hide UsedDescs, AllDescs, Took, Distinct, Members;
      idxs := [];
      if num >= QUEUE_NUM {
        return false, idxs;
      }
      ghost var was := Used();
      InDescs(map0);
      TookNone(was);
      var i := 0;
      while i < num
        invariant 0 <= i <= num && |idxs| == i && desc == old(desc) && Took(idxs, was, Used())
      {
        TookFacts(idxs, was, Used());
        var idx := DescAlloc();
        if idx < 0 {
          NoneLeft(was, Members(idxs));
          Rollback(idxs, was);
          return false, idxs;
        }
        TookMore(idxs, was, was + Members(idxs), idx);
        idxs := idxs + [idx];
        i := i + 1;
      }
      TookFacts(idxs, was, Used());
      SmallerSet(Members(idxs), AllDescs() - was);
      got := true;
    }

    /** The descriptors already taken go back. */
    method Rollback(idxs: seq<int>, ghost was: set<int>)
      requires |desc| == QUEUE_NUM && Used() == was + Members(idxs) && was !! Members(idxs) && Distinct(idxs)
      requires forall k :: 0 <= k < |idxs| ==> 0 <= idxs[k] < QUEUE_NUM
      modifies this
      ensures |desc| == QUEUE_NUM && Used() == was && SameLinks(old(desc), desc)
    {
      hide UsedDescs;
      var j := 0;
      assert idxs[..0] == [];
      while j < |idxs|
        invariant 0 <= j <= |idxs| && |desc| == QUEUE_NUM && SameLinks(old(desc), desc)
        invariant Used() == was + Members(idxs) - Members(idxs[..j])
      {
        DescFree(idxs[j]);
        assert idxs[..j + 1] == idxs[..j] + [idxs[j]];
        MembersAdd(idxs[..j], idxs[j]);
        j := j + 1;
      }
      assert idxs[..j] == idxs;
    }

    /** The first part of virtio_disk_rw: three descriptors are taken and linked to a chain for the
        header, the data and the status; without three free ones it has to sleep. */
    method SetUpRequest(header: int, buf: int, size: int, status: int, write: bool) returns (got: bool, idx: seq<int>)
      requires |desc| == QUEUE_NUM
      modifies this
      ensures |desc| == QUEUE_NUM && (got <==> |AllDescs() - old(Used())| >= 3)
      ensures !got ==> Used() == old(Used()) && SameLinks(old(desc), desc)
      ensures got ==> IsRequest(desc, idx, header, buf, size, status, write)
      ensures got ==> Linked(desc, idx) && Members(idx) !! old(Used())
      ensures got ==> Used() == old(Used()) + Members(idx)
      ensures got ==> forall i :: 0 <= i < QUEUE_NUM && i !in idx ==> desc[i] == old(desc)[i]
    {
      hide UsedDescs, AllDescs;
      got, idx := AllocSome(3);
      if !got {
        return;
      }
      TakenDescs(idx);
      desc := desc[idx[0] := Desc(header, 16, true, false, idx[1])];
      desc := desc[idx[1] := Desc(buf, size, false, !write, idx[2])];
      desc := desc[idx[1] := desc[idx[1]].(hasNext := true)];
      desc := desc[idx[2] := Desc(status, 1, false, true, 0)];
      assert Link(desc, idx, 0) && Link(desc, idx, 1) && Link(desc, idx, 2);
    }

    /** virtio_queue_desc_free_chain: the whole chain and nothing else. */
    method FreeChain(head: nat, ghost c: seq<int>)
      requires Linked(desc, c) && c[0] == head && |desc| == QUEUE_NUM
      modifies this
      ensures |desc| == QUEUE_NUM && Used() == old(Used()) - Members(c) && SameLinks(old(desc), desc)
      ensures forall i :: 0 <= i < QUEUE_NUM && i !in c ==> desc[i] == old(desc)[i]
    {
      hide UsedDescs;
      var idx := head;
      ghost var k := 0;
      assert c[..0] == [];
      while true
        invariant 0 <= k < |c| && idx == c[k] && |desc| == QUEUE_NUM
        invariant Used() == old(Used()) - Members(c[..k])
        invariant SameLinks(old(desc), desc) && forall i :: 0 <= i < QUEUE_NUM && i !in c ==> desc[i] == old(desc)[i]
        decreases |c| - k
      {
        assert Link(old(desc), c, k);
        DescFree(idx);
        assert c[..k + 1] == c[..k] + [c[k]];
        MembersAdd(c[..k], c[k]);
        if desc[idx].hasNext {
          idx := desc[idx].next;
          k := k + 1;
        } else {
          assert c[..k + 1] == c;
          break;
        }
      }
    }
  }

  /** virtio_disk_interrupt_handler for reports up to the device index `end`, `total` having been seen
      before: exactly their flags are set and their processes woken, in order.  It panics at the first
      report with a status that is not zero. */
  method HandleInterrupt(seen: int, ring: seq<int>, end: nat, status: seq<int>, trace: array<bool>, ghost total: nat)
    returns (panicked: bool, seen': int, woken: seq<int>)
    requires trace.Length == QUEUE_NUM == |ring| == |status| && seen == Slot(total) && total <= end < total + QUEUE_NUM
    requires forall k :: total <= k < end ==> 0 <= ring[Slot(k)] < QUEUE_NUM
    modifies trace
    ensures panicked <==> exists k :: total <= k < end && Failed(ring, status, k)
    ensures !panicked ==> seen' == Slot(end) && |woken| == end - total
    ensures |woken| <= end - total && (panicked ==> |woken| < end - total && Failed(ring, status, total + |woken|))
    ensures forall k :: total <= k < total + |woken| ==> woken[k - total] == ring[Slot(k)] && !Failed(ring, status, k)
    ensures forall i :: 0 <= i < QUEUE_NUM ==> (trace[i] <==> old(trace[i]) || i in woken)
  {
    hide Slot;
    panicked, seen', woken := false, seen, [];
    ghost var n := total;
    SlotNext(n, end);
    while Slot(seen') != Slot(end)
      invariant total <= n <= end && seen' == Slot(n) && |woken| == n - total && Slot(seen') == Slot(n)
      invariant forall k :: total <= k < n ==> woken[k - total] == ring[Slot(k)] && !Failed(ring, status, k)
      invariant forall i :: 0 <= i < QUEUE_NUM ==> (trace[i] <==> old(trace[i]) || i in woken)
      decreases end - n
    {
      SlotNext(n, end);
      SlotNext(n + 1, end);
      var id := ring[seen'];
      if status[id] != 0 {
        assert Failed(ring, status, n);
        panicked := true;
        return;
      }
      trace[id] := true;
      woken := woken + [id];
      seen' := Slot(seen' + 1);
      n := n + 1;
    }
    SlotNext(n, end);
  }

  /** Report number `k` is of a request that failed. */
  predicate Failed(ring: seq<int>, status: seq<int>, k: nat)
    requires |ring| == QUEUE_NUM == |status|
  {
    0 <= ring[Slot(k)] < QUEUE_NUM && status[ring[Slot(k)]] != 0
  }

  lemma TakenDescs(idx: seq<int>)
    requires |idx| == 3 && Members(idx) <= AllDescs() && Distinct(idx)
    ensures 0 <= idx[0] < QUEUE_NUM && 0 <= idx[1] < QUEUE_NUM && 0 <= idx[2] < QUEUE_NUM
    ensures idx[0] != idx[1] && idx[0] != idx[2] && idx[1] != idx[2]
  {
    assert idx[0] in Members(idx) && idx[1] in Members(idx) && idx[2] in Members(idx);
  }

  /** The ring entry of a running index. */
  function Slot(k: nat): (r: nat)
    ensures r < QUEUE_NUM
  {
    k % QUEUE_NUM
  }

  lemma SlotNext(n: nat, end: nat)
    requires n <= end < n + QUEUE_NUM
    ensures Slot(Slot(n)) == Slot(n) && Slot(Slot(n) + 1) == Slot(n + 1)
    ensures Slot(n) == Slot(end) <==> n == end
  {
  }

  /** The descriptors `idxs` have been taken in addition to `was`. */
  ghost predicate Took(idxs: seq<int>, was: set<int>, used: set<int>) {
    && Distinct(idxs) && Members(idxs) <= AllDescs() - was && used == was + Members(idxs)
    && forall k :: 0 <= k < |idxs| ==> 0 <= idxs[k] < QUEUE_NUM
  }

  lemma TookNone(was: set<int>)
    ensures Took([], was, was)
  {
    assert Members([]) == {};
  }

  lemma TookMore(idxs: seq<int>, was: set<int>, used: set<int>, idx: int)
    requires Took(idxs, was, used) && 0 <= idx < QUEUE_NUM && idx !in used
    ensures Took(idxs + [idx], was, used + {idx})
  {
    hide AllDescs;
    InAll(idx);
    MembersAdd(idxs, idx);
    assert forall k :: 0 <= k < |idxs| ==> idxs[k] in Members(idxs);
  }

  lemma TookFacts(idxs: seq<int>, was: set<int>, used: set<int>)
    requires Took(idxs, was, used)
    ensures Distinct(idxs) && Members(idxs) <= AllDescs() - was && used == was + Members(idxs) && was !! Members(idxs)
    ensures |Members(idxs)| == |idxs| && forall k :: 0 <= k < |idxs| ==> 0 <= idxs[k] < QUEUE_NUM
  {
    hide AllDescs;
    MembersCard(idxs);
  }

  lemma MembersAdd(c: seq<int>, i: int)
    ensures Members(c + [i]) == Members(c) + {i}
  {
  }

  lemma {:induction false} MembersCard(c: seq<int>)
    requires Distinct(c)
    ensures |Members(c)| == |c|
    decreases |c|
  {
    if c != [] {
      var d, i := c[..|c| - 1], c[|c| - 1];
      assert c == d + [i];
      MembersAdd(d, i);
      MembersCard(d);
    }
  }

  lemma NoneLeft(was: set<int>, taken: set<int>)
    requires was + taken == AllDescs() && taken <= AllDescs() - was
    ensures AllDescs() - was == taken
  {
  }

  lemma InAll(i: int)
    requires 0 <= i < QUEUE_NUM
    ensures i in AllDescs()
  {
  }

  lemma InDescs(w: bv32)
    ensures UsedDescs(w) <= AllDescs()
  {
  }

  lemma UsedBit(w: bv32, i: int)
    requires 0 <= i < QUEUE_NUM
    ensures i in UsedDescs(w) <==> Has(w, i)
  {
    hide Has;
    assert i in AllDescs();
    assert InUse(w, i) <==> Has(w, i);
  }
}
