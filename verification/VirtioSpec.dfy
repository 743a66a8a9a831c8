/** Driver, device and interrupt handler of kernel/dev/virtio around the split ring of section 2.7 of
    VirtIO 1.2, as steps.  A step of a process runs from taking the disk lock to returning or going
    to sleep; the device moves at any time and in any order. */
module VirtioSpec {
  const QUEUE_NUM := 8

  function AllDescs(): set<int> {
    {0, 1, 2, 3, 4, 5, 6, 7}
  }

  /** The three descriptors of a request: header, data, status. */
  datatype Chain = Chain(head: int, data: int, status: int)

  function ChainSet(c: Chain): set<int> {
    {c.head, c.data, c.status}
  }

  predicate ChainOk(c: Chain) {
    && c.head in AllDescs() && c.data in AllDescs() && c.status in AllDescs()
    && c.head != c.data && c.head != c.status && c.data != c.status
  }

  /** Where a request is: offered in the avail ring, taken by the device, reported in the used ring,
      or its report was seen by the interrupt handler. */
  datatype Phase = Queued | Taken | Used | Done

  /** What a process is doing: nothing, waiting for descriptors, or waiting for its request. */
  datatype Req = Idle | Waiting(parked: bool) | Issued(chain: Chain, phase: Phase, parked: bool)

  datatype Sys = Sys(
    descs: set<int>,           // bits 0 to 7 of desc_used_map
    ok: seq<bool>,             // trace[].ok
    avail: seq<int>,           // avail ring and its index
    availIdx: int,
    used: seq<int>,            // used ring and its index
    usedIdx: int,
    seen: int,                 // queue.used_idx, below 8
    reqs: map<int, Req>,
    fetched: int,              // how many entries of the avail ring the device has fetched
    inflight: set<int>,        // heads the device is working on
    queue: seq<int>,           // heads in the avail ring the device has not fetched
    reports: seq<int>,         // heads in the used ring the handler has not seen
    total: int)                // how many reports the handler has seen

  // -------------------------------------------------------------------- the requests

  function Moved(r: Req, head: int, from: Phase, to: Phase): Req {
    if r.Issued? && r.chain.head == head && r.phase == from then r.(phase := to) else r
  }

  /** The request with this head goes from one place to the next. */
  function Move(reqs: map<int, Req>, head: int, from: Phase, to: Phase): map<int, Req> {
    map q | q in reqs :: Moved(reqs[q], head, from, to)
  }

  function WokenFrom(r: Req, head: int): Req {
    if r.Issued? && r.chain.head == head then r.(parked := false) else r
  }

  /** wakeup on trace[head]. */
  function WakeTrace(reqs: map<int, Req>, head: int): map<int, Req> {
    map q | q in reqs :: WokenFrom(reqs[q], head)
  }

  function WokenWaiter(r: Req): Req {
    if r.Waiting? then Waiting(false) else r
  }

  /** wakeup on desc_used_map. */
  function WakeWaiters(reqs: map<int, Req>): map<int, Req> {
    map q | q in reqs :: WokenWaiter(reqs[q])
  }

  // ----------------------------------------------------------------------------- steps

  datatype Step =
    | Begin(q: int)
    | Try(q: int, c: Chain)
    | Fetch
    | Complete(head: int)
    | Handle
    | Look(q: int)
    | Spurious(q: int)

  predicate Rings(s: Sys) {
    |s.ok| == QUEUE_NUM && |s.avail| == QUEUE_NUM && |s.used| == QUEUE_NUM && 0 <= s.seen < QUEUE_NUM &&
      0 <= s.usedIdx && 0 <= s.fetched <= s.availIdx
  }

  predicate Enabled(s: Sys, step: Step) {
    match step
    case Begin(q) => q in s.reqs && s.reqs[q] == Idle
    case Try(q, c) =>
      && q in s.reqs && s.reqs[q] == Waiting(false)
      && (|AllDescs() - s.descs| >= 3 ==> ChainOk(c) && ChainSet(c) !! s.descs)
    case Fetch => s.fetched != s.availIdx
    case Complete(head) => head in s.inflight
    case Handle => s.seen != s.usedIdx % QUEUE_NUM
    case Look(q) => q in s.reqs && s.reqs[q].Issued? && !s.reqs[q].parked && 0 <= s.reqs[q].chain.head < QUEUE_NUM
    case Spurious(q) => q in s.reqs && !s.reqs[q].Idle?
  }

  /** virtio_disk_rw up to its first sleep: the chain is offered to the device and the process sleeps
      on it; without three free descriptors it gives back what it got and sleeps on the map. */
  function TryAlloc(s: Sys, q: int, c: Chain): Sys
    requires Rings(s) && (|AllDescs() - s.descs| >= 3 ==> ChainOk(c))
  {
    if |AllDescs() - s.descs| >= 3 then
      s.(descs := s.descs + ChainSet(c), ok := s.ok[c.head := false],
         avail := s.avail[s.availIdx % QUEUE_NUM := c.head], availIdx := s.availIdx + 1, queue := s.queue + [c.head],
         reqs := s.reqs[q := Issued(c, Queued, true)])
    else if AllDescs() - s.descs == {} then s.(reqs := s.reqs[q := Waiting(true)])
    else s.(reqs := WakeWaiters(s.reqs)[q := Waiting(true)])
  }

  /** The device fetches the next chain the driver offered. */
  function FetchOne(s: Sys): Sys
    requires Rings(s)
  {
    var head := s.avail[s.fetched % QUEUE_NUM];
    s.(fetched := s.fetched + 1, queue := if s.queue == [] then [] else s.queue[1..],
       inflight := s.inflight + {head}, reqs := Move(s.reqs, head, Queued, Taken))
  }

  /** The device reports a chain. */
  function Report(s: Sys, head: int): Sys
    requires Rings(s)
  {
    s.(used := s.used[s.usedIdx % QUEUE_NUM := head], usedIdx := s.usedIdx + 1, reports := s.reports + [head],
       inflight := s.inflight - {head}, reqs := Move(s.reqs, head, Taken, Used))
  }

  /** One turn of the interrupt handler. */
  function HandleOne(s: Sys): Sys
    requires Rings(s) && 0 <= s.used[s.seen] < QUEUE_NUM
  {
    var head := s.used[s.seen];
    s.(ok := s.ok[head := true], seen := (s.seen + 1) % QUEUE_NUM, total := s.total + 1,
       reports := if s.reports == [] then [] else s.reports[1..],
       reqs := WakeTrace(Move(s.reqs, head, Used, Done), head))
  }

  /** The process looks at its own ok flag: done, or to sleep again. */
  function LookAt(s: Sys, q: int): Sys
    requires Rings(s) && q in s.reqs && s.reqs[q].Issued? && 0 <= s.reqs[q].chain.head < QUEUE_NUM
  {
    var r := s.reqs[q];
    if s.ok[r.chain.head]
    then s.(descs := s.descs - ChainSet(r.chain), reqs := WakeWaiters(s.reqs)[q := Idle])
    else s.(reqs := s.reqs[q := r.(parked := true)])
  }

  function Apply(s: Sys, step: Step): Sys
    requires Rings(s) && Enabled(s, step)
  {
    match step
    case Begin(q) => s.(reqs := s.reqs[q := Waiting(false)])
    case Try(q, c) => TryAlloc(s, q, c)
    case Fetch => FetchOne(s)
    case Complete(head) => Report(s, head)
    case Handle => if 0 <= s.used[s.seen] < QUEUE_NUM then HandleOne(s) else s
    case Look(q) => LookAt(s, q)
    case Spurious(q) => s.(reqs := s.reqs[q := s.reqs[q].(parked := false)])
  }

  // ------------------------------------------------------------------------- invariant

  /** The request with this head, in this phase. */
  predicate At(reqs: map<int, Req>, q: int, head: int, phase: Phase) {
    q in reqs && reqs[q].Issued? && reqs[q].chain.head == head && reqs[q].phase == phase
  }

  /** A request owns its descriptors, its ok flag says whether its report was seen, and it sleeps only
      while it was not. */
  predicate ReqOk(s: Sys, r: Req) {
    match r
    case Idle => true
    case Waiting(parked) => parked ==> |AllDescs() - s.descs| < 3
    case Issued(c, phase, parked) =>
      && ChainOk(c) && ChainSet(c) <= s.descs && |s.ok| == QUEUE_NUM
      && (s.ok[c.head] <==> phase == Done) && (parked ==> phase != Done)
  }

  ghost predicate Owners(s: Sys) {
    && s.descs <= AllDescs()
    && (forall q :: q in s.reqs ==> ReqOk(s, s.reqs[q]))
    && (forall q, r :: q in s.reqs && r in s.reqs && q != r ==> Apart(s.reqs[q], s.reqs[r]))
  }

  predicate Apart(a: Req, b: Req) {
    a.Issued? && b.Issued? ==> ChainSet(a.chain) !! ChainSet(b.chain)
  }

  predicate Distinct(s: seq<int>) {
    forall i, j :: 0 <= i < j < |s| ==> s[i] != s[j]
  }

  /** The heads on a list are those of the requests in one phase, each once. */
  ghost predicate Lists(reqs: map<int, Req>, heads: seq<int>, phase: Phase) {
    && Distinct(heads)
    && (forall h :: h in heads ==> exists q :: At(reqs, q, h, phase))
    && (forall q :: q in reqs && reqs[q].Issued? && reqs[q].phase == phase ==> reqs[q].chain.head in heads)
  }

  /** The heads in flight are those of the taken requests. */
  ghost predicate Flying(reqs: map<int, Req>, heads: set<int>) {
    && (forall h :: h in heads ==> exists q :: At(reqs, q, h, Taken))
    && (forall q :: q in reqs && reqs[q].Issued? && reqs[q].phase == Taken ==> reqs[q].chain.head in heads)
  }

  /** The ring entries from `from` on hold the list. */
  predicate InRing(ring: seq<int>, from: int, heads: seq<int>) {
    |ring| == QUEUE_NUM && 0 <= from && |heads| <= QUEUE_NUM && forall k :: 0 <= k < |heads| ==>
      ring[(from + k) % QUEUE_NUM] == heads[k]
  }

  predicate Owns(reqs: map<int, Req>, q: int, i: int) {
    q in reqs && reqs[q].Issued? && i in ChainSet(reqs[q].chain)
  }

  /** Every descriptor in use belongs to a request. */
  ghost predicate NoLeak(s: Sys) {
    forall i :: i in s.descs ==> exists q :: Owns(s.reqs, q, i)
  }

  ghost predicate Inv(s: Sys) {
    && Rings(s) && Owners(s) && NoLeak(s)
    && Lists(s.reqs, s.queue, Queued) && Flying(s.reqs, s.inflight) && Lists(s.reqs, s.reports, Used)
    && s.availIdx == s.fetched + |s.queue| && InRing(s.avail, s.fetched, s.queue)
    && s.usedIdx == s.total + |s.reports| && 0 <= s.total && s.seen == s.total % QUEUE_NUM
    && InRing(s.used, s.total, s.reports)
  }
}
