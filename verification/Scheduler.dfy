/** Sleep, wakeup and the round-robin scheduler: kernel/proc/sleep.c and
    kernel/scheduler/scheduler.c over the list of processes. */
module Scheduler {
  /** The status bits that matter here, the channel slept on (0 for none) and the lock. */
  datatype Pcb = Pcb(ready: bool, normal: bool, running: bool, waiting: bool, chan: int, locked: bool)

  predicate Runnable(p: Pcb) {
    p.ready && p.normal && !p.running
  }

  predicate Parked(p: Pcb, chan: int) {
    p.waiting && p.chan == chan
  }

  ghost predicate NoLocks(s: seq<Pcb>) {
    forall i :: 0 <= i < |s| ==> !s[i].locked
  }

  // ------------------------------------------------------------------------ wakeup

  function Woken(p: Pcb, chan: int): Pcb {
    if Parked(p, chan) then p.(waiting := false, ready := true, normal := true) else p
  }

  /** What sleep leaves behind before it gives the processor away. */
  function Asleep(p: Pcb, chan: int): Pcb {
    p.(chan := chan, running := false, ready := false, waiting := true, locked := false)
  }

  /** A process and the other locks that are held. */
  datatype Moment = Moment(p: Pcb, locks: set<int>)

  /** Nobody can wake the channel up unseen: whoever does so first takes the lock of the caller and then
      that of the process, and one of them is held until the process is parked. */
  predicate Covered(m: Moment, chan: int, lock: int) {
    lock in m.locks || m.p.locked || Parked(m.p, chan)
  }

  /** Nobody stays parked on the channel, nobody else is touched, and a sleeper that is woken can be
      scheduled. */
  lemma WokenMeaning(p: Pcb, chan: int, other: int)
    ensures !Parked(Woken(p, chan), chan)
    ensures other != chan ==> (Parked(Woken(p, chan), other) <==> Parked(p, other))
    ensures !Parked(p, chan) ==> Woken(p, chan) == p
    ensures Runnable(Woken(Asleep(p, chan), chan)) && !Runnable(Asleep(p, chan)) && Parked(Asleep(p, chan), chan)
  {
  }

  // --------------------------------------------------------------------- round robin

  /** How many processes are looked at before process `j`, when `last` was scheduled last (-1 for
      none): those behind it first, then those from the front. */
  function Rank(last: int, n: int, j: int): int {
    if j > last then j - last - 1 else j - last - 1 + n
  }

  /** `r` is the first runnable process cyclically after `last`. */
  ghost predicate FirstAfter(s: seq<Pcb>, last: int, r: int) {
    0 <= r < |s| && Runnable(s[r]) && forall j :: 0 <= j < |s| && Runnable(s[j]) ==>
      Rank(last, |s|, r) <= Rank(last, |s|, j)
  }

  class ProcTable {
    var procs: seq<Pcb>
    /** The locks held that belong to no process. */
    var locks: set<int>
    /** The place in the list of the process scheduled last; -1 before the first time. */
    var last: int

    ghost predicate Valid()
      reads this
    {
      -1 <= last < |procs|
    }

    /** The first half of sleep, up to giving the processor away.  The caller holds `lock`, which is a
        lock of its own or (-1) that of the process.  `seen` is every state on the way. */
    method Sleep(me: int, chan: int, lock: int) returns (ghost seen: seq<Moment>)
      requires 0 <= me < |procs| && -1 !in locks
      requires if lock == -1 then procs[me].locked else lock in locks && !procs[me].locked
      modifies this`procs, this`locks
      ensures procs == old(procs)[me := Asleep(old(procs)[me], chan)] && locks == old(locks) - {lock}
      ensures forall k :: 0 <= k < |seen| ==> Covered(seen[k], chan, lock)
      ensures |seen| > 0 && seen[0] == Moment(old(procs)[me], old(locks)) &&
        seen[|seen| - 1] == Moment(procs[me], locks)
    {
      seen := [Moment(procs[me], locks)];
      if lock != -1 {
        procs := procs[me := procs[me].(locked := true)];
        seen := seen + [Moment(procs[me], locks)];
        locks := locks - {lock};
        seen := seen + [Moment(procs[me], locks)];
      }
      procs := procs[me := procs[me].(chan := chan)];
      seen := seen + [Moment(procs[me], locks)];
      procs := procs[me := procs[me].(running := false, ready := false)];
      seen := seen + [Moment(procs[me], locks)];
      procs := procs[me := procs[me].(waiting := true)];
      seen := seen + [Moment(procs[me], locks)];
      procs := procs[me := procs[me].(locked := false)];
      seen := seen + [Moment(procs[me], locks)];
    }

    /** The second half, when the processor is back: the channel is left and `lock` held again. */
    method Resume(me: int, lock: int)
      requires 0 <= me < |procs| && !procs[me].locked && lock !in locks
      modifies this`procs, this`locks
      ensures procs == old(procs)[me := old(procs)[me].(chan := 0, locked := lock == -1)]
      ensures locks == if lock == -1 then old(locks) else old(locks) + {lock}
    {
      procs := procs[me := procs[me].(locked := true)];
      procs := procs[me := procs[me].(chan := 0)];
      if lock != -1 {
        procs := procs[me := procs[me].(locked := false)];
        locks := locks + {lock};
      }
    }

    /** wakeup: every process parked on the channel, and no other. */
    method Wakeup(chan: int)
      requires NoLocks(procs)
      modifies this`procs
      ensures |procs| == |old(procs)| && forall i :: 0 <= i < |procs| ==> procs[i] == Woken(old(procs)[i], chan)
    {
      var i := 0;
      while i < |procs|
        invariant 0 <= i <= |procs| == |old(procs)|
        invariant forall j :: 0 <= j < i ==> procs[j] == Woken(old(procs)[j], chan)
        invariant forall j :: i <= j < |procs| ==> procs[j] == old(procs)[j]
      {
        procs := procs[i := procs[i].(locked := true)];
        if procs[i].waiting && procs[i].chan == chan {
          procs := procs[i := procs[i].(waiting := false)];
          procs := procs[i := procs[i].(ready := true, normal := true)];
        }
        procs := procs[i := procs[i].(locked := false)];
        i := i + 1;
      }
    }

    /** scheduler: NULL (-1) exactly when nobody is runnable, otherwise the first runnable process
        cyclically after the last one, with its lock and no other held. */
    method Schedule() returns (r: int)
      requires Valid() && NoLocks(procs)
      modifies this
      ensures Valid() && (r == -1 <==> forall j :: 0 <= j < |old(procs)| ==> !Runnable(old(procs)[j]))
      ensures r == -1 ==> procs == old(procs) && last == old(last)
      ensures r != -1 ==> FirstAfter(old(procs), old(last), r) && last == r
      ensures r != -1 ==> procs == old(procs)[r := old(procs)[r].(locked := true)]
    {
      var i := 0;
      if last != -1 {
        i := last + 1;
        while i < |procs|
          invariant last < i <= |procs| && procs == old(procs) && last == old(last)
          invariant forall j :: last < j < i ==> !Runnable(procs[j])
        {
          procs := procs[i := procs[i].(locked := true)];
          if procs[i].ready && procs[i].normal && !procs[i].running {
            last := i;
            return i;
          }
          procs := procs[i := procs[i].(locked := false)];
          i := i + 1;
        }
      }
      i := 0;
      while i < |procs|
        invariant 0 <= i <= |procs| && procs == old(procs) && last == old(last)
        invariant forall j :: 0 <= j < i ==> !Runnable(procs[j])
        invariant last != -1 ==> forall j :: last < j < |procs| ==> !Runnable(procs[j])
      {
        procs := procs[i := procs[i].(locked := true)];
        if procs[i].ready && procs[i].normal && !procs[i].running {
          last := i;
          return i;
        }
        procs := procs[i := procs[i].(locked := false)];
        if i == last {
          break;
        }
        i := i + 1;
      }
      return -1;
    }
  }

  // ----------------------------------------------------------------------- fairness

  /** A schedule: at each pick the statuses of the same list of processes, and who was picked. */
  ghost predicate Picks(statuses: seq<seq<Pcb>>, picked: seq<int>, last: int)
    decreases |statuses|
  {
    && |picked| == |statuses|
    && (statuses != [] ==> FirstAfter(statuses[0], last, picked[0]) && Picks(statuses[1..], picked[1..], picked[0]))
  }

  /** Every pick of another process brings a runnable process closer to the front. */
  lemma Closer(s: seq<Pcb>, last: int, r: int, p: int)
    requires FirstAfter(s, last, r) && -1 <= last < |s| && 0 <= p < |s| && Runnable(s[p]) && r != p
    ensures 0 <= Rank(r, |s|, p) < Rank(last, |s|, p)
  {
  }

  /** A process that stays runnable is picked within as many picks as there are processes. */
  lemma {:induction false} Fair(statuses: seq<seq<Pcb>>, picked: seq<int>, last: int, n: int, p: int)
    requires Picks(statuses, picked, last) && -1 <= last < n && 0 <= p < n
    requires forall k :: 0 <= k < |statuses| ==> |statuses[k]| == n && Runnable(statuses[k][p])
    requires |statuses| > Rank(last, n, p)
    ensures exists k :: 0 <= k <= Rank(last, n, p) && picked[k] == p
    decreases |statuses|
  {
    if picked[0] != p {
      Closer(statuses[0], last, picked[0], p);
      Fair(statuses[1..], picked[1..], picked[0], n, p);
      var k :| 0 <= k <= Rank(picked[0], n, p) && picked[1..][k] == p;
      assert picked[k + 1] == p;
    }
  }

  /** Within one round of the list. */
  lemma FairRound(statuses: seq<seq<Pcb>>, picked: seq<int>, last: int, n: int, p: int)
    requires Picks(statuses, picked, last) && -1 <= last < n && 0 <= p < n && |statuses| == n
    requires forall k :: 0 <= k < |statuses| ==> |statuses[k]| == n && Runnable(statuses[k][p])
    ensures exists k :: 0 <= k < n && picked[k] == p
  {
    Fair(statuses, picked, last, n, p);
    var k :| 0 <= k <= Rank(last, n, p) && picked[k] == p;
  }
}
