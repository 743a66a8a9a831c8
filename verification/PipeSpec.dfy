/** The pipe of kernel/dev/pipe/pipe.c as steps of its processes.  One step runs from taking the
    pipe lock to giving it back, by returning or by going to sleep. */
module PipeSpec {
  const PIPE_SIZE := 512

  /** The fields of pipe_t. */
  datatype Pipe = Pipe(nread: int, nwrite: int, readOpen: bool, writeOpen: bool, data: seq<int>)

  predicate Fits(p: Pipe) {
    0 <= p.nread <= p.nwrite <= p.nread + PIPE_SIZE && |p.data| == PIPE_SIZE
  }

  /** The ring holds the bytes of the stream `w` that were written and not yet read. */
  ghost predicate Ring(p: Pipe, w: seq<int>) {
    Fits(p) && p.nwrite == |w| && forall k :: p.nread <= k < p.nwrite ==> SlotOk(p, w, k)
  }

  predicate SlotOk(p: Pipe, w: seq<int>, k: int)
    requires Fits(p) && p.nwrite == |w| && p.nread <= k < p.nwrite
  {
    p.data[k % PIPE_SIZE] == w[k]
  }

  // ---------------------------------------------------------------------- the copy loops

  /** How many bytes a read of `len` takes. */
  function Count(p: Pipe, len: nat): int
    requires Fits(p)
  {
    if len < p.nwrite - p.nread then len else p.nwrite - p.nread
  }

  /** The next `n` bytes of the ring. */
  function Peek(p: Pipe, n: int): seq<int>
    requires Fits(p) && 0 <= n <= p.nwrite - p.nread
  {
    seq(n, i requires 0 <= i < n => p.data[(p.nread + i) % PIPE_SIZE])
  }

  /** How many bytes a write of `len` more bytes can put in. */
  function Room(p: Pipe, len: int): int
    requires Fits(p)
  {
    if len < p.nread + PIPE_SIZE - p.nwrite then (if len < 0 then 0 else len) else p.nread + PIPE_SIZE - p.nwrite
  }

  function PutByte(p: Pipe, c: int): Pipe
    requires Fits(p)
  {
    p.(data := p.data[p.nwrite % PIPE_SIZE := c], nwrite := p.nwrite + 1)
  }

  /** The ring after the bytes `s` were put in one by one. */
  function Filled(p: Pipe, s: seq<int>): (r: Pipe)
    requires Fits(p) && |s| <= p.nread + PIPE_SIZE - p.nwrite
    ensures Fits(r) && r.nread == p.nread && r.nwrite == p.nwrite + |s| && r.readOpen == p.readOpen &&
      r.writeOpen == p.writeOpen
    decreases |s|
  {
    if s == [] then p else PutByte(Filled(p, s[..|s| - 1]), s[|s| - 1])
  }

  /** A read takes the next bytes of the stream, in order. */
  lemma PeekStream(p: Pipe, w: seq<int>, n: int)
    requires Ring(p, w) && 0 <= n <= p.nwrite - p.nread
    ensures Peek(p, n) == w[p.nread..p.nread + n]
    ensures Ring(p.(nread := p.nread + n), w)
  {
    var q := p.(nread := p.nread + n);
    forall i | 0 <= i < n
      ensures Peek(p, n)[i] == w[p.nread + i]
    {
      assert SlotOk(p, w, p.nread + i);
    }
    forall k | q.nread <= k < q.nwrite
      ensures SlotOk(q, w, k)
    {
      assert SlotOk(p, w, k);
    }
  }

  lemma ModDistinct(a: int, b: int)
    requires 0 <= a < b < a + PIPE_SIZE
    ensures a % PIPE_SIZE != b % PIPE_SIZE
  {
  }

  lemma PutByteRing(p: Pipe, w: seq<int>, c: int)
    requires Ring(p, w) && p.nwrite < p.nread + PIPE_SIZE
    ensures Ring(PutByte(p, c), w + [c])
  {
    var q := PutByte(p, c);
    forall k | q.nread <= k < q.nwrite
      ensures SlotOk(q, w + [c], k)
    {
      if k < p.nwrite {
        assert SlotOk(p, w, k);
        ModDistinct(k, p.nwrite);
      }
    }
  }

  /** A write appends its bytes to the stream; it overwrites nothing that is still to be read. */
  lemma {:induction false} FilledRing(p: Pipe, w: seq<int>, s: seq<int>)
    requires Ring(p, w) && |s| <= p.nread + PIPE_SIZE - p.nwrite
    ensures Ring(Filled(p, s), w + s)
    decreases |s|
  {
    if s == [] {
      assert w + s == w;
    } else {
      FilledRing(p, w, s[..|s| - 1]);
      PutByteRing(Filled(p, s[..|s| - 1]), w + s[..|s| - 1], s[|s| - 1]);
      assert w + s == w + s[..|s| - 1] + [s[|s| - 1]];
    }
  }

  // -------------------------------------------------------------------------- processes

  /** What a process is doing to the pipe: how much it still wants, or what it writes and how far
      it is. */
  datatype Op = Read(len: nat) | Write(buf: seq<int>, i: int)

  datatype Proc = Idle | Active(op: Op, parked: bool)

  /** The pipe, the processes, and what went through so far. */
  datatype Sys = Sys(pipe: Pipe, procs: map<int, Proc>, written: seq<int>, consumed: seq<int>)

  /** wakeup on one of the two channels: every process asleep there is ready again. */
  function Wake(procs: map<int, Proc>, readers: bool): map<int, Proc> {
    map q | q in procs :: WakeOne(procs[q], readers)
  }

  function WakeOne(a: Proc, readers: bool): Proc {
    if a.Active? && a.op.Read? == readers then a.(parked := false) else a
  }

  datatype Step =
    | Call(q: int, op: Op)
    | Run(q: int)
    | CloseRead
    | CloseWrite
    | Spurious(q: int)

  predicate OnEnd(a: Proc, readers: bool) {
    a.Active? && a.op.Read? == readers
  }

  /** Nobody is inside an operation on this end. */
  predicate Free(procs: map<int, Proc>, readers: bool) {
    forall q :: q in procs ==> !OnEnd(procs[q], readers)
  }

  /** A process calls an operation only on an end that is open, and an end is closed only when no
      process is inside an operation on it: each holds a reference to the file. */
  predicate Enabled(s: Sys, step: Step) {
    match step
    case Call(q, op) =>
      && q in s.procs && s.procs[q] == Idle
      && (op.Read? ==> s.pipe.readOpen) && (op.Write? ==> s.pipe.writeOpen && op.i == 0)
    case Run(q) => q in s.procs && s.procs[q].Active? && !s.procs[q].parked
    case CloseRead => s.pipe.readOpen && Free(s.procs, true)
    case CloseWrite => s.pipe.writeOpen && Free(s.procs, false)
    case Spurious(q) => q in s.procs && s.procs[q].Active?
  }

  /** A turn of pipe_read: asleep while the pipe is empty and the write end open. */
  function RunRead(s: Sys, q: int, len: nat): Sys
    requires Fits(s.pipe)
  {
    var p := s.pipe;
    if p.nread == p.nwrite && p.writeOpen then s.(procs := s.procs[q := Active(Read(len), true)])
    else
      var n := Count(p, len);
      s.(pipe := p.(nread := p.nread + n), procs := Wake(s.procs[q := Idle], false),
        consumed := s.consumed + Peek(p, n))
  }

  /** A turn of pipe_write from byte `i` on: asleep while the pipe is full and the read end open. */
  function RunWrite(s: Sys, q: int, buf: seq<int>, i: int): Sys
    requires Fits(s.pipe) && 0 <= i <= |buf|
  {
    var n := Room(s.pipe, |buf| - i);
    var bytes := buf[i..i + n];
    var s' := s.(pipe := Filled(s.pipe, bytes), written := s.written + bytes);
    if i + n == |buf| then s'.(procs := Wake(s.procs[q := Idle], true))
    else if !s.pipe.readOpen then s'.(procs := s.procs[q := Idle])
    else s'.(procs := Wake(s.procs[q := Active(Write(buf, i + n), true)], true))
  }

  function Apply(s: Sys, step: Step): Sys
    requires Fits(s.pipe) && Enabled(s, step)
  {
    match step
    case Call(q, op) => s.(procs := s.procs[q := Active(op, false)])
    case Run(q) =>
      (match s.procs[q].op
       case Read(len) => RunRead(s, q, len)
       case Write(buf, i) => if 0 <= i <= |buf| then RunWrite(s, q, buf, i) else s)
    case CloseRead => s.(pipe := s.pipe.(readOpen := false), procs := Wake(s.procs, false))
    case CloseWrite => s.(pipe := s.pipe.(writeOpen := false), procs := Wake(s.procs, true))
    case Spurious(q) => s.(procs := s.procs[q := s.procs[q].(parked := false)])
  }

  // -------------------------------------------------------------------------- invariant

  /** A parked process has a reason to be: a reader only when the pipe is empty and can still be
      written, a writer only when it is full and can still be read. */
  predicate ProcOk(p: Pipe, a: Proc) {
    a.Active? ==>
      match a.op
      case Read(_) => p.readOpen && (a.parked ==> p.nread == p.nwrite && p.writeOpen)
      case Write(buf, i) =>
        p.writeOpen && 0 <= i <= |buf| && (a.parked ==> p.nwrite == p.nread + PIPE_SIZE && p.readOpen)
  }

  ghost predicate ProcsOk(p: Pipe, procs: map<int, Proc>) {
    forall q :: q in procs ==> ProcOk(p, procs[q])
  }

  ghost predicate Inv(s: Sys) {
    Ring(s.pipe, s.written) && s.consumed == s.written[..s.pipe.nread] && ProcsOk(s.pipe, s.procs)
  }
}
