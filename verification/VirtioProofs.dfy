/** What every run of disk requests keeps. */
module VirtioProofs {
  import opened VirtioSpec
  import opened Sets

  // -------------------------------------------------------------- at most two requests

  lemma ChainCard(c: Chain)
    requires ChainOk(c)
    ensures |ChainSet(c)| == 3 && ChainSet(c) <= AllDescs()
  {
  }

  /** Eight descriptors are not enough for three requests. */
  lemma NoThree(s: Sys, q: int, r: int, t: int)
    requires Owners(s) && q in s.reqs && r in s.reqs && t in s.reqs && q != r && q != t && r != t
    requires s.reqs[q].Issued? && s.reqs[r].Issued?
    ensures !s.reqs[t].Issued?
  {
    if s.reqs[t].Issued? {
      var a, b, c := ChainSet(s.reqs[q].chain), ChainSet(s.reqs[r].chain), ChainSet(s.reqs[t].chain);
      assert ReqOk(s, s.reqs[q]) && ReqOk(s, s.reqs[r]) && ReqOk(s, s.reqs[t]);
      ChainCard(s.reqs[q].chain);
      ChainCard(s.reqs[r].chain);
      ChainCard(s.reqs[t].chain);
      assert Apart(s.reqs[q], s.reqs[r]) && Apart(s.reqs[q], s.reqs[t]) && Apart(s.reqs[r], s.reqs[t]);
      NineDescs(a, b, c);
    }
  }

  lemma NineDescs(a: set<int>, b: set<int>, c: set<int>)
    requires |a| == 3 && |b| == 3 && |c| == 3 && a !! b && a !! c && b !! c
    ensures !(a + b + c <= AllDescs())
  {
    assert |a + b| == 6;
    assert (a + b) !! c;
    assert |a + b + c| == 9;
    if a + b + c <= AllDescs() { SmallerSet(a + b + c, AllDescs()); }
  }

  /** So no ring ever holds more than two entries. */
  lemma ShortList(s: Sys, heads: seq<int>, phase: Phase)
    requires Owners(s) && Lists(s.reqs, heads, phase)
    ensures |heads| <= 2
  {
    if |heads| > 2 {
      assert heads[0] in heads && heads[1] in heads && heads[2] in heads;
      var q :| At(s.reqs, q, heads[0], phase);
      var r :| At(s.reqs, r, heads[1], phase);
      var t :| At(s.reqs, t, heads[2], phase);
      NoThree(s, q, r, t);
    }
  }

  // ------------------------------------------------------------------ phases and lists

  predicate InPhase(r: Req, phase: Phase) {
    r.Issued? && r.phase == phase
  }

  /** As far as this phase goes nothing changed. */
  ghost predicate SamePhase(reqs: map<int, Req>, reqs': map<int, Req>, phase: Phase) {
    && reqs.Keys == reqs'.Keys
    && forall q :: q in reqs ==> SameReq(reqs[q], reqs'[q], phase)
  }

  predicate SameReq(a: Req, b: Req, phase: Phase) {
    (InPhase(a, phase) <==> InPhase(b, phase)) && (InPhase(a, phase) ==> a.chain == b.chain)
  }

  lemma SameLists(reqs: map<int, Req>, reqs': map<int, Req>, heads: seq<int>, phase: Phase)
    requires SamePhase(reqs, reqs', phase) && Lists(reqs, heads, phase)
    ensures Lists(reqs', heads, phase)
  {
    forall h | h in heads
      ensures exists q :: At(reqs', q, h, phase)
    {
      var q :| At(reqs, q, h, phase);
      assert SameReq(reqs[q], reqs'[q], phase);
      assert At(reqs', q, h, phase);
    }
    forall q | q in reqs' && InPhase(reqs'[q], phase)
      ensures reqs'[q].chain.head in heads
    {
      assert SameReq(reqs[q], reqs'[q], phase);
    }
  }

  lemma SameFlying(reqs: map<int, Req>, reqs': map<int, Req>, heads: set<int>)
    requires SamePhase(reqs, reqs', Taken) && Flying(reqs, heads)
    ensures Flying(reqs', heads)
  {
    forall h | h in heads
      ensures exists q :: At(reqs', q, h, Taken)
    {
      var q :| At(reqs, q, h, Taken);
      assert SameReq(reqs[q], reqs'[q], Taken);
      assert At(reqs', q, h, Taken);
    }
    forall q | q in reqs' && InPhase(reqs'[q], Taken)
      ensures reqs'[q].chain.head in heads
    {
      assert SameReq(reqs[q], reqs'[q], Taken);
    }
  }

  /** Moving a request takes it off the list of its old phase. */
  lemma LeaveList(reqs: map<int, Req>, heads: seq<int>, from: Phase, to: Phase)
    requires Lists(reqs, heads, from) && heads != [] && from != to
    ensures Lists(Move(reqs, heads[0], from, to), heads[1..], from)
  {
    var reqs', rest := Move(reqs, heads[0], from, to), heads[1..];
    forall h | h in rest
      ensures exists q :: At(reqs', q, h, from)
    {
      assert h in heads && h != heads[0];
      var q :| At(reqs, q, h, from);
      assert At(reqs', q, h, from);
    }
    forall q | q in reqs' && InPhase(reqs'[q], from)
      ensures reqs'[q].chain.head in rest
    {
      assert reqs[q] == reqs'[q];
    }
  }

  /** And puts it on the list of its new one. */
  lemma EnterList(reqs: map<int, Req>, heads: seq<int>, head: int, from: Phase, to: Phase)
    requires Lists(reqs, heads, to) && head !in heads && from != to && exists q :: At(reqs, q, head, from)
    ensures Lists(Move(reqs, head, from, to), heads + [head], to)
  {
    var reqs', all := Move(reqs, head, from, to), heads + [head];
    forall h | h in all
      ensures exists q :: At(reqs', q, h, to)
    {
      var q :| At(reqs, q, h, if h in heads then to else from);
      assert At(reqs', q, h, to);
    }
    forall q | q in reqs' && InPhase(reqs'[q], to)
      ensures reqs'[q].chain.head in all
    {
      assert reqs'[q] == Moved(reqs[q], head, from, to);
    }
  }

  lemma TakeOff(reqs: map<int, Req>, heads: set<int>, head: int)
    requires Flying(reqs, heads) && exists q :: At(reqs, q, head, Queued)
    ensures Flying(Move(reqs, head, Queued, Taken), heads + {head})
  {
    var reqs' := Move(reqs, head, Queued, Taken);
    forall h | h in heads + {head}
      ensures exists q :: At(reqs', q, h, Taken)
    {
      var q :| At(reqs, q, h, if h in heads then Taken else Queued);
      assert At(reqs', q, h, Taken);
    }
    forall q | q in reqs' && InPhase(reqs'[q], Taken)
      ensures reqs'[q].chain.head in heads + {head}
    {
      assert reqs'[q] == Moved(reqs[q], head, Queued, Taken);
    }
  }

  lemma Land(reqs: map<int, Req>, heads: set<int>, head: int)
    requires Flying(reqs, heads)
    ensures Flying(Move(reqs, head, Taken, Used), heads - {head})
  {
    var reqs' := Move(reqs, head, Taken, Used);
    forall h | h in heads - {head}
      ensures exists q :: At(reqs', q, h, Taken)
    {
      var q :| At(reqs, q, h, Taken);
      assert At(reqs', q, h, Taken);
    }
    forall q | q in reqs' && InPhase(reqs'[q], Taken)
      ensures reqs'[q].chain.head in heads - {head}
    {
      assert reqs'[q] == Moved(reqs[q], head, Taken, Used);
    }
  }

  lemma MoveSame(reqs: map<int, Req>, head: int, from: Phase, to: Phase, phase: Phase)
    requires phase != from && phase != to
    ensures SamePhase(reqs, Move(reqs, head, from, to), phase)
  {
  }

  /** Two requests never have the same head. */
  lemma OneOwner(s: Sys, q: int, r: int, head: int)
    requires Owners(s) && q in s.reqs && r in s.reqs && s.reqs[q].Issued? && s.reqs[r].Issued?
    requires s.reqs[q].chain.head == head && s.reqs[r].chain.head == head
    ensures q == r
  {
    if q != r { HeadsDiffer(s, q, r); }
  }

  lemma HeadsDiffer(s: Sys, q: int, r: int)
    requires Owners(s) && q in s.reqs && r in s.reqs && s.reqs[q].Issued? && s.reqs[r].Issued? && q != r
    ensures s.reqs[q].chain.head != s.reqs[r].chain.head
  {
    assert Apart(s.reqs[q], s.reqs[r]);
    assert s.reqs[q].chain.head in ChainSet(s.reqs[q].chain) && s.reqs[r].chain.head in ChainSet(s.reqs[r].chain);
  }

  /** A head is on one list only. */
  lemma OnOneList(s: Sys, heads: seq<int>, phase: Phase, q: int)
    requires Owners(s) && Lists(s.reqs, heads, phase) && q in s.reqs && s.reqs[q].Issued? && s.reqs[q].phase != phase
    ensures s.reqs[q].chain.head !in heads
  {
    if s.reqs[q].chain.head in heads {
      var r :| At(s.reqs, r, s.reqs[q].chain.head, phase);
      OneOwner(s, q, r, s.reqs[q].chain.head);
    }
  }

  // ------------------------------------------------------------------------ the rings

  lemma RingLength(ring: seq<int>, from: int, heads: seq<int>)
    requires InRing(ring, from, heads)
    ensures |ring| == QUEUE_NUM && 0 <= from
  {
  }

  lemma RingPush(ring: seq<int>, from: int, heads: seq<int>, head: int)
    requires InRing(ring, from, heads) && |heads| < QUEUE_NUM
    ensures InRing(ring[(from + |heads|) % QUEUE_NUM := head], from, heads + [head])
  {
    var ring', heads' := ring[(from + |heads|) % QUEUE_NUM := head], heads + [head];
    forall k | 0 <= k < |heads'|
      ensures ring'[(from + k) % QUEUE_NUM] == heads'[k]
    {
      if k < |heads| {
        OtherSlot(from + k, from + |heads|);
        assert ring[(from + k) % QUEUE_NUM] == heads[k];
      }
    }
  }

  lemma OtherSlot(a: int, b: int)
    requires 0 <= a < b < a + QUEUE_NUM
    ensures a % QUEUE_NUM != b % QUEUE_NUM
  {
  }

  lemma RingPop(ring: seq<int>, from: int, heads: seq<int>)
    requires InRing(ring, from, heads) && heads != []
    ensures ring[from % QUEUE_NUM] == heads[0] && InRing(ring, from + 1, heads[1..])
  {
    forall k | 0 <= k < |heads| - 1
      ensures ring[(from + 1 + k) % QUEUE_NUM] == heads[1..][k]
    {
      assert ring[(from + (k + 1)) % QUEUE_NUM] == heads[k + 1];
    }
    assert ring[(from + 0) % QUEUE_NUM] == heads[0];
  }

  /** The same requests own the same chains. */
  ghost predicate SameChains(reqs: map<int, Req>, reqs': map<int, Req>) {
    forall q :: q in reqs && reqs[q].Issued? ==> q in reqs' && reqs'[q].Issued? && reqs'[q].chain == reqs[q].chain
  }

  lemma StillOwned(s: Sys, s': Sys)
    requires NoLeak(s) && s'.descs <= s.descs && SameChains(s.reqs, s'.reqs)
    ensures NoLeak(s')
  {
    forall i | i in s'.descs
      ensures exists q :: Owns(s'.reqs, q, i)
    {
      var q :| Owns(s.reqs, q, i);
      assert Owns(s'.reqs, q, i);
    }
  }

  lemma MoveChains(reqs: map<int, Req>, head: int, from: Phase, to: Phase)
    ensures SameChains(reqs, Move(reqs, head, from, to))
    ensures SameChains(reqs, WakeTrace(Move(reqs, head, from, to), head))
  {
  }

  // ------------------------------------------------------------------------- the steps

  /** Moving a request before it is done changes neither its descriptors nor its flag. */
  lemma MoveOwners(s: Sys, s': Sys, head: int, from: Phase, to: Phase)
    requires Owners(s) && from != Done && to != Done
    requires s'.descs == s.descs && s'.ok == s.ok && s'.reqs == Move(s.reqs, head, from, to)
    ensures Owners(s')
  {
    forall q | q in s'.reqs
      ensures ReqOk(s', s'.reqs[q])
    {
      assert ReqOk(s, s.reqs[q]);
    }
    forall q, r | q in s'.reqs && r in s'.reqs && q != r
      ensures Apart(s'.reqs[q], s'.reqs[r])
    {
      assert Apart(s.reqs[q], s.reqs[r]);
    }
  }

  lemma FetchInv(s: Sys)
    requires Inv(s) && Enabled(s, Fetch)
    ensures Inv(FetchOne(s))
  {
    hide Owners, Lists, Flying, Move, NoLeak, SameChains, SamePhase, InRing;
    var s' := FetchOne(s);
    RingLength(s.avail, s.fetched, s.queue);
    assert s.queue != [];
    RingPop(s.avail, s.fetched, s.queue);
    var head := s.queue[0];
    OnList(s.reqs, s.queue, Queued);
    MoveOwners(s, s', head, Queued, Taken);
    MoveChains(s.reqs, head, Queued, Taken);
    StillOwned(s, s');
    LeaveList(s.reqs, s.queue, Queued, Taken);
    TakeOff(s.reqs, s.inflight, head);
    MoveSame(s.reqs, head, Queued, Taken, Used);
    SameLists(s.reqs, s'.reqs, s.reports, Used);
  }

  lemma OnList(reqs: map<int, Req>, heads: seq<int>, phase: Phase)
    requires Lists(reqs, heads, phase) && heads != []
    ensures exists q :: At(reqs, q, heads[0], phase)
  {
    assert heads[0] in heads;
  }

  lemma ReportInv(s: Sys, head: int)
    requires Inv(s) && Enabled(s, Complete(head))
    ensures Inv(Report(s, head))
  {
    hide Owners, Lists, Move, NoLeak, SameChains, SamePhase, InRing;
    var s' := Report(s, head);
    var q :| At(s.reqs, q, head, Taken);
    OnOneList(s, s.reports, Used, q);
    ShortList(s, s.reports, Used);
    RingPush(s.used, s.total, s.reports, head);
    MoveOwners(s, s', head, Taken, Used);
    MoveChains(s.reqs, head, Taken, Used);
    StillOwned(s, s');
    EnterList(s.reqs, s.reports, head, Taken, Used);
    Land(s.reqs, s.inflight, head);
    MoveSame(s.reqs, head, Taken, Used, Queued);
    SameLists(s.reqs, s'.reqs, s.queue, Queued);
  }

  /** The handler's comparison of the two indices modulo 8 is exact: it stops exactly when every
      report was seen. */
  lemma ExactIndex(s: Sys)
    requires Inv(s)
    ensures |s.reports| <= 2 && (s.seen != s.usedIdx % QUEUE_NUM <==> s.reports != [])
    ensures s.reports != [] ==> s.used[s.seen] == s.reports[0] && 0 <= s.reports[0] < QUEUE_NUM
  {
    hide Owners, Lists;
    ShortList(s, s.reports, Used);
    if s.reports != [] {
      RingPop(s.used, s.total, s.reports);
      OnList(s.reqs, s.reports, Used);
      var q :| At(s.reqs, q, s.reports[0], Used);
      OwnsChain(s, q);
    }
  }

  lemma OwnsChain(s: Sys, q: int)
    requires Owners(s) && q in s.reqs && s.reqs[q].Issued?
    ensures ChainOk(s.reqs[q].chain) && ReqOk(s, s.reqs[q]) && 0 <= s.reqs[q].chain.head < QUEUE_NUM
  {
    assert ReqOk(s, s.reqs[q]);
  }

  lemma HandleOwners(s: Sys, s': Sys, head: int)
    requires Owners(s) && |s.ok| == QUEUE_NUM && 0 <= head < QUEUE_NUM && exists q :: At(s.reqs, q, head, Used)
    requires s'.descs == s.descs && s'.ok == s.ok[head := true] &&
      s'.reqs == WakeTrace(Move(s.reqs, head, Used, Done), head)
    ensures Owners(s')
  {
    var o :| At(s.reqs, o, head, Used);
    forall q | q in s'.reqs
      ensures ReqOk(s', s'.reqs[q])
    {
      assert ReqOk(s, s.reqs[q]);
      if s.reqs[q].Issued? && q != o { HeadsDiffer(s, q, o); }
    }
    forall q, r | q in s'.reqs && r in s'.reqs && q != r
      ensures Apart(s'.reqs[q], s'.reqs[r])
    {
      assert Apart(s.reqs[q], s.reqs[r]);
    }
  }

  lemma WakeSame(reqs: map<int, Req>, head: int, phase: Phase)
    ensures SamePhase(reqs, WakeTrace(reqs, head), phase)
  {
  }

  lemma HandleInv(s: Sys)
    requires Inv(s) && Enabled(s, Handle)
    ensures 0 <= s.used[s.seen] < QUEUE_NUM && Inv(HandleOne(s))
  {
    hide Owners, Lists, Flying, Move, WakeTrace, NoLeak, InRing, Rings;
    RingsOf(s);
    ExactIndex(s);
    HandleOwned(s);
    HandleBooks(s);
    HandleLists(s.reqs, s.reports[0], s.queue, s.inflight, s.reports);
  }

  lemma RingsOf(s: Sys)
    requires Rings(s)
    ensures |s.ok| == QUEUE_NUM && |s.used| == QUEUE_NUM && 0 <= s.seen < QUEUE_NUM
  {
  }

  lemma HandleOwned(s: Sys)
    requires Inv(s) && s.reports != [] && s.used[s.seen] == s.reports[0] && 0 <= s.reports[0] < QUEUE_NUM
    ensures Owners(HandleOne(s)) && NoLeak(HandleOne(s))
  {
    hide Owners, Lists, Flying, Move, WakeTrace, NoLeak, SameChains, InRing;
    var head, s' := s.reports[0], HandleOne(s);
    OnList(s.reqs, s.reports, Used);
    HandleOwners(s, s', head);
    MoveChains(s.reqs, head, Used, Done);
    StillOwned(s, s');
  }

  lemma HandleBooks(s: Sys)
    requires Inv(s) && s.reports != [] && s.used[s.seen] == s.reports[0] && 0 <= s.reports[0] < QUEUE_NUM
    ensures var s' := HandleOne(s);
      && Rings(s') && s'.usedIdx == s'.total + |s'.reports| && 0 <= s'.total && s'.seen == s'.total % QUEUE_NUM
      && InRing(s'.used, s'.total, s'.reports)
  {
    hide Owners, Lists, Flying, Move, WakeTrace, NoLeak, InRing;
    RingPop(s.used, s.total, s.reports);
  }

  lemma HandleLists(reqs: map<int, Req>, head: int, queue: seq<int>, inflight: set<int>, reports: seq<int>)
    requires Lists(reqs, queue, Queued) && Flying(reqs, inflight) && Lists(reqs, reports, Used)
    requires reports != [] && head == reports[0]
    ensures var reqs' := WakeTrace(Move(reqs, head, Used, Done), head);
      Lists(reqs', queue, Queued) && Flying(reqs', inflight) && Lists(reqs', reports[1..], Used)
  {
    hide Lists, Flying, Move, WakeTrace, SamePhase;
    var moved := Move(reqs, head, Used, Done);
    var reqs' := WakeTrace(moved, head);
    LeaveList(reqs, reports, Used, Done);
    MoveSame(reqs, head, Used, Done, Queued);
    MoveSame(reqs, head, Used, Done, Taken);
    SameLists(reqs, moved, queue, Queued);
    SameFlying(reqs, moved, inflight);
    WakeSame(moved, head, Queued);
    WakeSame(moved, head, Taken);
    WakeSame(moved, head, Used);
    SameLists(moved, reqs', queue, Queued);
    SameFlying(moved, reqs', inflight);
    SameLists(moved, reqs', reports[1..], Used);
  }

  /** All phases are as before. */
  ghost predicate SamePhases(reqs: map<int, Req>, reqs': map<int, Req>) {
    SamePhase(reqs, reqs', Queued) && SamePhase(reqs, reqs', Taken) && SamePhase(reqs, reqs', Used)
  }

  lemma KeepLists(s: Sys, s': Sys)
    requires Inv(s) && Owners(s') && NoLeak(s') && Rings(s') && SamePhases(s.reqs, s'.reqs)
    requires s' == s.(descs := s'.descs, reqs := s'.reqs)
    ensures Inv(s')
  {
    hide Owners, Lists, Flying, SamePhase, NoLeak;
    SameLists(s.reqs, s'.reqs, s.queue, Queued);
    SameFlying(s.reqs, s'.reqs, s.inflight);
    SameLists(s.reqs, s'.reqs, s.reports, Used);
  }

  /** Only the sleeping flags of some processes changed, and those that sleep have reason to. */
  lemma SleepInv(s: Sys, reqs': map<int, Req>)
    requires Inv(s) && reqs'.Keys == s.reqs.Keys
    requires forall q :: q in s.reqs ==> ReqOk(s, reqs'[q]) && SameButSleep(s.reqs[q], reqs'[q])
    ensures Inv(s.(reqs := reqs'))
  {
    hide Lists, Flying, NoLeak, Owners, ReqOk;
    var s' := s.(reqs := reqs');
    SleepOwners(s, reqs');
    StillOwned(s, s');
    KeepLists(s, s');
  }

  predicate SameButSleep(a: Req, b: Req) {
    if a.Issued? then b.Issued? && b.chain == a.chain && b.phase == a.phase else !b.Issued?
  }

  lemma SleepOwners(s: Sys, reqs': map<int, Req>)
    requires Owners(s) && reqs'.Keys == s.reqs.Keys
    requires forall q :: q in s.reqs ==> ReqOk(s, reqs'[q]) && SameButSleep(s.reqs[q], reqs'[q])
    ensures Owners(s.(reqs := reqs'))
  {
    var s' := s.(reqs := reqs');
    forall q | q in reqs'
      ensures ReqOk(s', reqs'[q])
    {
      assert ReqOk(s, reqs'[q]);
    }
    forall q, r | q in reqs' && r in reqs' && q != r
      ensures Apart(reqs'[q], reqs'[r])
    {
      assert Apart(s.reqs[q], s.reqs[r]);
    }
  }

  /** The request is finished: its descriptors are free again and nobody waits for descriptors. */
  lemma FinishInv(s: Sys, q: int)
    requires Inv(s) && Enabled(s, Look(q)) && s.ok[s.reqs[q].chain.head]
    ensures s.reqs[q].phase == Done && Inv(LookAt(s, q))
  {
    hide Lists, Flying, Owners, NoLeak;
    OwnsChain(s, q);
    FinishOwners(s, q);
    FinishNoLeak(s, q);
    KeepLists(s, LookAt(s, q));
  }

  lemma FinishOwners(s: Sys, q: int)
    requires Owners(s) && Rings(s) && Enabled(s, Look(q)) && s.ok[s.reqs[q].chain.head]
    ensures Owners(LookAt(s, q))
  {
    var s' := LookAt(s, q);
    forall r | r in s'.reqs
      ensures ReqOk(s', s'.reqs[r])
    {
      assert ReqOk(s, s.reqs[r]);
      if r != q { assert Apart(s.reqs[r], s.reqs[q]); }
    }
    forall r, t | r in s'.reqs && t in s'.reqs && r != t
      ensures Apart(s'.reqs[r], s'.reqs[t])
    {
      assert Apart(s.reqs[r], s.reqs[t]);
    }
  }

  lemma FinishNoLeak(s: Sys, q: int)
    requires NoLeak(s) && Rings(s) && Enabled(s, Look(q)) && s.ok[s.reqs[q].chain.head]
    ensures NoLeak(LookAt(s, q))
  {
    var s' := LookAt(s, q);
    forall i | i in s'.descs
      ensures exists r :: Owns(s'.reqs, r, i)
    {
      var r :| Owns(s.reqs, r, i);
      assert Owns(s'.reqs, r, i);
    }
  }

  lemma LookInv(s: Sys, q: int)
    requires Inv(s) && Enabled(s, Look(q))
    ensures Inv(LookAt(s, q))
  {
    if s.ok[s.reqs[q].chain.head] {
      FinishInv(s, q);
    } else {
      OwnsChain(s, q);
      var reqs' := s.reqs[q := s.reqs[q].(parked := true)];
      forall r | r in s.reqs
        ensures ReqOk(s, reqs'[r])
      {
        assert ReqOk(s, s.reqs[r]);
      }
      SleepInv(s, reqs');
    }
  }

  // ---------------------------------------------------------------- issuing a request

  lemma IssueOwners(s: Sys, q: int, c: Chain)
    requires Owners(s) && Rings(s) && Enabled(s, Try(q, c)) && |AllDescs() - s.descs| >= 3
    ensures Owners(TryAlloc(s, q, c))
  {
    var s' := TryAlloc(s, q, c);
    forall r | r in s'.reqs
      ensures ReqOk(s', s'.reqs[r])
    {
      IssueReq(s, q, c, r);
    }
    ChainCard(c);
    forall r, t | r in s'.reqs && t in s'.reqs && r != t
      ensures Apart(s'.reqs[r], s'.reqs[t])
    {
      assert Apart(s.reqs[r], s.reqs[t]) && ReqOk(s, s.reqs[r]) && ReqOk(s, s.reqs[t]);
    }
  }

  lemma IssueReq(s: Sys, q: int, c: Chain, r: int)
    requires Owners(s) && Rings(s) && Enabled(s, Try(q, c)) && |AllDescs() - s.descs| >= 3 && r in s.reqs
    ensures ReqOk(TryAlloc(s, q, c), TryAlloc(s, q, c).reqs[r])
  {
    hide AllDescs;
    assert ReqOk(s, s.reqs[r]);
    ChainRange(c);
    if r != q && s.reqs[r].Issued? {
      ChainRange(s.reqs[r].chain);
      assert c.head in ChainSet(c) && s.reqs[r].chain.head in ChainSet(s.reqs[r].chain);
    }
  }

  lemma ChainRange(c: Chain)
    requires ChainOk(c)
    ensures 0 <= c.head < QUEUE_NUM
  {
  }

  lemma NewHead(s: Sys, heads: seq<int>, phase: Phase, c: Chain)
    requires Owners(s) && Lists(s.reqs, heads, phase) && ChainSet(c) !! s.descs
    ensures c.head !in heads
  {
    assert c.head in ChainSet(c);
    forall h | h in heads
      ensures h != c.head
    {
      var r :| At(s.reqs, r, h, phase);
      OwnsChain(s, r);
      assert h in ChainSet(s.reqs[r].chain);
    }
  }

  lemma IssueList(reqs: map<int, Req>, heads: seq<int>, q: int, c: Chain)
    requires Lists(reqs, heads, Queued) && q in reqs && reqs[q].Waiting? && c.head !in heads
    ensures Lists(reqs[q := Issued(c, Queued, true)], heads + [c.head], Queued)
  {
    var reqs', all := reqs[q := Issued(c, Queued, true)], heads + [c.head];
    forall h | h in all
      ensures exists r :: At(reqs', r, h, Queued)
    {
      if h in heads {
        var r :| At(reqs, r, h, Queued);
        assert At(reqs', r, h, Queued);
      } else {
        assert At(reqs', q, h, Queued);
      }
    }
    forall r | r in reqs' && InPhase(reqs'[r], Queued)
      ensures reqs'[r].chain.head in all
    {
      assert r != q ==> reqs'[r] == reqs[r];
    }
  }

  lemma IssueSame(reqs: map<int, Req>, q: int, c: Chain, phase: Phase)
    requires q in reqs && reqs[q].Waiting? && phase != Queued
    ensures SamePhase(reqs, reqs[q := Issued(c, Queued, true)], phase)
  {
  }

  lemma IssueNoLeak(s: Sys, q: int, c: Chain)
    requires NoLeak(s) && Rings(s) && Enabled(s, Try(q, c)) && |AllDescs() - s.descs| >= 3
    ensures NoLeak(TryAlloc(s, q, c))
  {
    hide AllDescs, ChainSet;
    var s' := TryAlloc(s, q, c);
    forall i | i in s'.descs
      ensures exists r :: Owns(s'.reqs, r, i)
    {
      if i in s.descs {
        var r :| Owns(s.reqs, r, i);
        assert Owns(s'.reqs, r, i);
      } else {
        assert Owns(s'.reqs, q, i);
      }
    }
  }

  lemma IssueInv(s: Sys, q: int, c: Chain)
    requires Inv(s) && Enabled(s, Try(q, c)) && |AllDescs() - s.descs| >= 3
    ensures Inv(TryAlloc(s, q, c))
  {
    hide Owners, Lists, Flying, SamePhase, InRing, NoLeak;
    var s' := TryAlloc(s, q, c);
    IssueOwners(s, q, c);
    IssueNoLeak(s, q, c);
    IssueSame(s.reqs, q, c, Taken);
    IssueSame(s.reqs, q, c, Used);
    ShortList(s, s.queue, Queued);
    NewHead(s, s.queue, Queued, c);
    IssueList(s.reqs, s.queue, q, c);
    RingPush(s.avail, s.fetched, s.queue, c.head);
    SameFlying(s.reqs, s'.reqs, s.inflight);
    SameLists(s.reqs, s'.reqs, s.reports, Used);
  }

  lemma TryInv(s: Sys, q: int, c: Chain)
    requires Inv(s) && Enabled(s, Try(q, c))
    ensures Inv(TryAlloc(s, q, c))
  {
    if |AllDescs() - s.descs| >= 3 {
      IssueInv(s, q, c);
    } else {
      var reqs' := TryAlloc(s, q, c).reqs;
      forall r | r in s.reqs
        ensures ReqOk(s, reqs'[r])
      {
        assert ReqOk(s, s.reqs[r]);
      }
      SleepInv(s, reqs');
    }
  }

  lemma IdleInv(s: Sys, step: Step)
    requires Inv(s) && Enabled(s, step) && (step.Begin? || step.Spurious?)
    ensures Inv(Apply(s, step))
  {
    var reqs' := Apply(s, step).reqs;
    forall r | r in s.reqs
      ensures ReqOk(s, reqs'[r])
    {
      assert ReqOk(s, s.reqs[r]);
    }
    SleepInv(s, reqs');
  }

  lemma StepInv(s: Sys, step: Step)
    requires Inv(s) && Enabled(s, step)
    ensures Rings(s) && Inv(Apply(s, step))
  {
    hide Owners, Lists, Flying;
    match step
    case Begin(q) => IdleInv(s, step);
    case Try(q, c) => TryInv(s, q, c);
    case Fetch => FetchInv(s);
    case Complete(head) => ReportInv(s, head);
    case Handle => HandleInv(s);
    case Look(q) => LookInv(s, q);
    case Spurious(q) => IdleInv(s, step);
  }

  // ------------------------------------------------------------------------------- runs

  ghost predicate Runs(s: Sys, steps: seq<Step>)
    decreases |steps|
  {
    steps == [] || (Rings(s) && Enabled(s, steps[0]) && Runs(Apply(s, steps[0]), steps[1..]))
  }

  /** Steps each of which is possible when it comes. */
  ghost predicate Possible(s: Sys, steps: seq<Step>)
    decreases |steps|
  {
    steps == [] || (Enabled(s, steps[0]) && (Rings(s) ==> Possible(Apply(s, steps[0]), steps[1..])))
  }

  /** They make a run: that the rings are as they should be is no condition on them. */
  lemma {:induction false} PossibleRuns(s: Sys, steps: seq<Step>)
    requires Inv(s) && Possible(s, steps)
    ensures Runs(s, steps)
    decreases |steps|
  {
    hide Inv, Rings, Enabled, Apply;
    if steps != [] {
      StepInv(s, steps[0]);
      PossibleRuns(Apply(s, steps[0]), steps[1..]);
    }
  }

  ghost function After(s: Sys, steps: seq<Step>): Sys
    requires Runs(s, steps)
    decreases |steps|
  {
    if steps == [] then s else After(Apply(s, steps[0]), steps[1..])
  }

  /** The queue after its setup: all zero. */
  ghost predicate Initial(s: Sys) {
    && Rings(s) && s.descs == {} && s.availIdx == 0 && s.fetched == 0 && s.usedIdx == 0 && s.seen == 0 && s.total == 0
    && s.inflight == {} && s.queue == [] && s.reports == [] && forall q :: q in s.reqs ==> s.reqs[q] == Idle
  }

  lemma {:induction false} RunInv(s: Sys, steps: seq<Step>)
    requires Inv(s) && Runs(s, steps)
    ensures Inv(After(s, steps))
    decreases |steps|
  {
    hide Inv, Apply, Enabled;
    if steps != [] {
      StepInv(s, steps[0]);
      RunInv(Apply(s, steps[0]), steps[1..]);
    }
  }

  lemma InitialInv(s: Sys)
    requires Initial(s)
    ensures Inv(s)
  {
  }

  /** In every run: live requests own disjoint descriptors, so there are at most two. */
  lemma AtMostTwo(s: Sys, steps: seq<Step>, q: int, r: int, t: int)
    requires Initial(s) && Runs(s, steps) && q != r && q != t && r != t
    requires var u := After(s, steps);
      q in u.reqs && r in u.reqs && t in u.reqs && u.reqs[q].Issued? && u.reqs[r].Issued?
    ensures var u := After(s, steps); ChainSet(u.reqs[q].chain) !! ChainSet(u.reqs[r].chain) && !u.reqs[t].Issued?
  {
    hide Runs, After, Initial;
    InitialInv(s);
    RunInv(s, steps);
    var u := After(s, steps);
    assert Apart(u.reqs[q], u.reqs[r]);
    NoThree(u, q, r, t);
  }

  /** virtio_disk_rw returns only after the device reported this very request: the flag it looks at
      is set exactly then.  Until then it sleeps, and once it is set it does not. */
  lemma OwnCompletion(s: Sys, steps: seq<Step>, q: int)
    requires Initial(s) && Runs(s, steps)
    requires q in After(s, steps).reqs && After(s, steps).reqs[q].Issued?
    ensures var u := After(s, steps); var r := u.reqs[q];
      0 <= r.chain.head < QUEUE_NUM == |u.ok| && (u.ok[r.chain.head] <==> r.phase == Done)
    ensures var u := After(s, steps); u.reqs[q].parked ==> u.reqs[q].phase != Done
  {
    hide Runs, After, Initial;
    InitialInv(s);
    RunInv(s, steps);
    OwnsChain(After(s, steps), q);
  }

  /** Every report is seen once and in order, and the handler's test for more is exact. */
  lemma SeenOnce(s: Sys, steps: seq<Step>)
    requires Initial(s) && Runs(s, steps)
    ensures var u := After(s, steps); u.total + |u.reports| == u.usedIdx && |u.reports| <= 2
    ensures var u := After(s, steps); Rings(u) && (u.seen != u.usedIdx % QUEUE_NUM <==> u.total != u.usedIdx)
    ensures var u := After(s, steps); u.total != u.usedIdx ==> exists q :: At(u.reqs, q, u.used[u.seen], Used)
  {
    hide Runs, After, Initial;
    InitialInv(s);
    RunInv(s, steps);
    var u := After(s, steps);
    ExactIndex(u);
    if u.reports != [] { OnList(u.reqs, u.reports, Used); }
  }

  /** A process waits for descriptors only while two requests are live, whose end will wake it. */
  lemma WaitersWait(s: Sys, steps: seq<Step>, q: int)
    requires Initial(s) && Runs(s, steps)
    requires q in After(s, steps).reqs && After(s, steps).reqs[q] == Waiting(true)
    ensures var u := After(s, steps);
      exists r, t :: r != t && r in u.reqs && t in u.reqs && u.reqs[r].Issued? && u.reqs[t].Issued?
  {
    hide Runs, After, Initial;
    InitialInv(s);
    RunInv(s, steps);
    var u := After(s, steps);
    assert ReqOk(u, u.reqs[q]);
    TwoLive(u);
  }

  lemma TwoLive(u: Sys)
    requires Owners(u) && NoLeak(u) && |AllDescs() - u.descs| < 3
    ensures exists r, t :: r != t && r in u.reqs && t in u.reqs && u.reqs[r].Issued? && u.reqs[t].Issued?
  {
    hide Owners;
    DescsSubset(u);
    assert AllDescs() - u.descs + u.descs == AllDescs();
    var i := MemberOf(u.descs);
    var r :| Owns(u.reqs, r, i);
    OwnsChain(u, r);
    ChainCard(u.reqs[r].chain);
    var rest := u.descs - ChainSet(u.reqs[r].chain);
    assert rest + ChainSet(u.reqs[r].chain) >= u.descs;
    SmallerSet(u.descs, rest + ChainSet(u.reqs[r].chain));
    var j := MemberOf(rest);
    var t :| Owns(u.reqs, t, j);
    assert r != t;
  }

  lemma MemberOf(s: set<int>) returns (i: int)
    requires |s| > 0
    ensures i in s
  {
    HasMember(s);
    i :| i in s;
  }

  lemma DescsSubset(u: Sys)
    requires Owners(u)
    ensures u.descs <= AllDescs() && |AllDescs()| == 8
  {
  }
}
