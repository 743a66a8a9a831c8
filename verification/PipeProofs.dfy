/** What every run of a pipe keeps: bytes come out in the order they went in, and nobody sleeps who
    could go on. */
module PipeProofs {
  import opened PipeSpec

  // --------------------------------------------------------------- the processes of a step

  /** Waking one side keeps the other side's reasons to sleep; the woken side needs none. */
  lemma WakeOk(p: Pipe, p': Pipe, procs: map<int, Proc>, readers: bool)
    requires forall q :: q in procs ==> ProcOk(p', WakeOne(procs[q], readers))
    ensures ProcsOk(p', Wake(procs, readers))
  {
  }

  lemma RunReadInv(s: Sys, q: int)
    requires Inv(s) && Enabled(s, Run(q)) && s.procs[q].op.Read?
    ensures Inv(RunRead(s, q, s.procs[q].op.len))
  {
    hide Ring;
    var p, len := s.pipe, s.procs[q].op.len;
    assert ProcOk(p, s.procs[q]);
    RingFits(p, s.written);
    if !(p.nread == p.nwrite && p.writeOpen) {
      var n := Count(p, len);
      var p' := p.(nread := p.nread + n);
      PeekStream(p, s.written, n);
      assert s.written[..p.nread] + s.written[p.nread..p.nread + n] == s.written[..p.nread + n];
      var procs := s.procs[q := Idle];
      forall r | r in procs
        ensures ProcOk(p', WakeOne(procs[r], false))
      {
        assert r != q ==> ProcOk(p, s.procs[r]);
      }
      WakeOk(p, p', procs, false);
    }
  }

  lemma RunWriteInv(s: Sys, q: int)
    requires Inv(s) && Enabled(s, Run(q)) && s.procs[q].op.Write?
    ensures 0 <= s.procs[q].op.i <= |s.procs[q].op.buf|
    ensures Inv(RunWrite(s, q, s.procs[q].op.buf, s.procs[q].op.i))
  {
    hide Ring, Filled;
    var p, buf, i := s.pipe, s.procs[q].op.buf, s.procs[q].op.i;
    assert ProcOk(p, s.procs[q]);
    RingFits(p, s.written);
    var n := Room(p, |buf| - i);
    var bytes := buf[i..i + n];
    FilledRing(p, s.written, bytes);
    var p' := Filled(p, bytes);
    assert (s.written + bytes)[..p.nread] == s.written[..p.nread];
    var procs := if i + n == |buf| || !p.readOpen then s.procs[q := Idle]
      else s.procs[q := Active(Write(buf, i + n), true)];
    forall r | r in procs
      ensures ProcOk(p', WakeOne(procs[r], true)) && (!p.readOpen ==> ProcOk(p', procs[r]))
    {
      assert r != q ==> ProcOk(p, s.procs[r]);
    }
    WakeOk(p, p', procs, true);
  }

  lemma RingFits(p: Pipe, w: seq<int>)
    requires Ring(p, w)
    ensures Fits(p) && p.nwrite == |w|
  {
  }

  lemma CloseInv(s: Sys, step: Step)
    requires Inv(s) && Enabled(s, step) && (step.CloseRead? || step.CloseWrite?)
    ensures Fits(s.pipe) && Inv(Apply(s, step))
  {
    var s' := Apply(s, step);
    assert Ring(s'.pipe, s.written) by {
      forall k | s.pipe.nread <= k < s.pipe.nwrite
        ensures SlotOk(s'.pipe, s.written, k)
      {
        assert SlotOk(s.pipe, s.written, k);
      }
    }
    var readers := step.CloseWrite?;
    forall r | r in s.procs
      ensures ProcOk(s'.pipe, WakeOne(s.procs[r], readers))
    {
      assert ProcOk(s.pipe, s.procs[r]) && !OnEnd(s.procs[r], step.CloseRead?);
    }
    WakeOk(s.pipe, s'.pipe, s.procs, readers);
  }

  lemma StepInv(s: Sys, step: Step)
    requires Inv(s) && Enabled(s, step)
    ensures Fits(s.pipe) && Inv(Apply(s, step))
  {
    hide Ring;
    RingFits(s.pipe, s.written);
    match step
    case Call(q, op) => assert Apply(s, step).pipe == s.pipe;
    case Run(q) =>
      assert ProcOk(s.pipe, s.procs[q]);
      if s.procs[q].op.Read? { RunReadInv(s, q); } else { RunWriteInv(s, q); }
    case Spurious(q) => assert ProcOk(s.pipe, s.procs[q]);
    case CloseRead => CloseInv(s, step);
    case CloseWrite => CloseInv(s, step);
  }

  // ------------------------------------------------------------------------------- runs

  ghost predicate Runs(s: Sys, steps: seq<Step>)
    decreases |steps|
  {
    steps == [] || (Fits(s.pipe) && Enabled(s, steps[0]) && Runs(Apply(s, steps[0]), steps[1..]))
  }

  /** Steps each of which is possible when it comes. */
  ghost predicate Possible(s: Sys, steps: seq<Step>)
    decreases |steps|
  {
    steps == [] || (Enabled(s, steps[0]) && (Fits(s.pipe) ==> Possible(Apply(s, steps[0]), steps[1..])))
  }

  /** They make a run: that the buffer is as it should be is no condition on them. */
  lemma {:induction false} PossibleRuns(s: Sys, steps: seq<Step>)
    requires Inv(s) && Possible(s, steps)
    ensures Runs(s, steps)
    decreases |steps|
  {
    hide Inv, Fits, Enabled, Apply;
    if steps != [] {
      StepInv(s, steps[0]);
      PossibleRuns(Apply(s, steps[0]), steps[1..]);
    }
  }

  ghost function After(s: Sys, steps: seq<Step>): Sys
    requires Runs(s, steps)
    decreases |steps|
  {
    if steps == [] then s else After(Apply(s, steps[0]), steps[1..])
  }

  /** pipe_create: both ends open, nothing in the ring, every process idle. */
  ghost predicate Initial(s: Sys) {
    && s.pipe.nread == 0 && s.pipe.nwrite == 0 && s.pipe.readOpen && s.pipe.writeOpen && |s.pipe.data| == PIPE_SIZE
    && s.written == [] && s.consumed == [] && forall q :: q in s.procs ==> s.procs[q] == Idle
  }

  lemma {:induction false} RunInv(s: Sys, steps: seq<Step>)
    requires Inv(s) && Runs(s, steps)
    ensures Inv(After(s, steps))
    decreases |steps|
  {
    hide Inv, Apply, Enabled;
    if steps != [] {
      StepInv(s, steps[0]);
      RunInv(Apply(s, steps[0]), steps[1..]);
    }
  }

  /** First in, first out, with any number of readers and writers: what was read is the beginning
      of what was written, and at most 512 bytes are in between. */
  lemma FirstInFirstOut(s: Sys, steps: seq<Step>)
    requires Initial(s) && Runs(s, steps)
    ensures var t := After(s, steps);
      && t.consumed <= t.written && |t.consumed| == t.pipe.nread && |t.written| == t.pipe.nwrite
      && |t.written| - |t.consumed| <= PIPE_SIZE
  {
    hide Runs, After;
    assert Inv(s);
    RunInv(s, steps);
  }

  /** No lost wakeup: whoever sleeps could not go on if woken, and the other side can. */
  lemma NoLostWakeup(s: Sys, steps: seq<Step>, q: int)
    requires Initial(s) && Runs(s, steps)
    requires q in After(s, steps).procs && After(s, steps).procs[q].Active? && After(s, steps).procs[q].parked
    ensures var t := After(s, steps); Fits(t.pipe) && Inv(t)
    ensures var t := After(s, steps); t.procs[q].op.Read? ==>
      t.pipe.nread == t.pipe.nwrite && t.pipe.writeOpen && t.pipe.readOpen
    ensures var t := After(s, steps); t.procs[q].op.Write? ==>
      t.pipe.nwrite == t.pipe.nread + PIPE_SIZE && t.pipe.readOpen && t.pipe.writeOpen
    ensures var t := After(s, steps); forall r :: r in t.procs && t.procs[r].Active? && t.procs[r].parked ==>
      t.procs[r].op.Read? == t.procs[q].op.Read?
  {
    hide Runs, After;
    assert Inv(s);
    RunInv(s, steps);
    var t := After(s, steps);
    assert ProcOk(t.pipe, t.procs[q]);
    forall r | r in t.procs && t.procs[r].Active? && t.procs[r].parked
      ensures t.procs[r].op.Read? == t.procs[q].op.Read?
    {
      assert ProcOk(t.pipe, t.procs[r]);
    }
  }

  /** When both ends are closed, and the pipe is freed, no process is inside an operation on it. */
  lemma FreedIsIdle(s: Sys, steps: seq<Step>, q: int)
    requires Initial(s) && Runs(s, steps) && q in After(s, steps).procs
    requires !After(s, steps).pipe.readOpen && !After(s, steps).pipe.writeOpen
    ensures After(s, steps).procs[q] == Idle
  {
    hide Runs, After;
    assert Inv(s);
    RunInv(s, steps);
    var t := After(s, steps);
    assert ProcOk(t.pipe, t.procs[q]);
  }

  /** A read that returns has taken the next bytes of the stream: as many as it asked for, or all there
      are.  It returns nothing for a request of some bytes exactly when the write end is closed and
      everything was read. */
  lemma ReadReturns(s: Sys, steps: seq<Step>, q: int)
    requires Initial(s) && Runs(s, steps)
    requires var t := After(s, steps);
      Enabled(t, Run(q)) && t.procs[q].op.Read? && Fits(t.pipe) && Apply(t, Run(q)).procs[q] == Idle
    ensures var t := After(s, steps); var t' := Apply(t, Run(q)); var n := |t'.consumed| - |t.consumed|;
      && t.consumed <= t'.consumed <= t.written == t'.written
      && n <= t.procs[q].op.len && (n == t.procs[q].op.len || t'.consumed == t'.written)
      && (t.procs[q].op.len > 0 ==> (n == 0 <==> !t.pipe.writeOpen && t.consumed == t.written))
  {
    hide Runs, After;
    assert Inv(s);
    RunInv(s, steps);
    var t := After(s, steps);
    PeekStream(t.pipe, t.written, Count(t.pipe, t.procs[q].op.len));
  }

  // ----------------------------------------------------------------- what a write puts in

  /** What process `q` has put on the stream since its last call, `put` being that so far. */
  ghost function PutBy(s: Sys, step: Step, q: int, put: seq<int>): seq<int>
    requires Fits(s.pipe) && Enabled(s, step)
  {
    var s' := Apply(s, step);
    if step.Call? && step.q == q then []
    else if step.Run? && step.q == q && |s.written| <= |s'.written| then put + s'.written[|s.written|..]
    else put
  }

  ghost function PutAfter(s: Sys, steps: seq<Step>, q: int, put: seq<int>): seq<int>
    requires Runs(s, steps)
    decreases |steps|
  {
    if steps == [] then put else PutAfter(Apply(s, steps[0]), steps[1..], q, PutBy(s, steps[0], q, put))
  }

  /** A writer has put in exactly the first `i` bytes of its buffer. */
  ghost predicate PutOk(s: Sys, q: int, put: seq<int>) {
    q in s.procs && s.procs[q].Active? && s.procs[q].op.Write? ==>
      0 <= s.procs[q].op.i <= |s.procs[q].op.buf| && put == s.procs[q].op.buf[..s.procs[q].op.i]
  }

  /** A turn of a writer puts in the next bytes of its buffer, until that is empty or the pipe full. */
  lemma WriteTurnPuts(s: Sys, q: int)
    requires Inv(s) && Enabled(s, Run(q)) && s.procs[q].op.Write?
    ensures Fits(s.pipe) && 0 <= s.procs[q].op.i <= |s.procs[q].op.buf|
    ensures var s', buf, i := Apply(s, Run(q)), s.procs[q].op.buf, s.procs[q].op.i;
      && s.written <= s'.written && i + |s'.written| - |s.written| <= |buf|
      && s'.written[|s.written|..] == buf[i..i + |s'.written| - |s.written|]
      && (i + |s'.written| - |s.written| == |buf| || s'.pipe.nwrite == s'.pipe.nread + PIPE_SIZE)
      && (s'.procs[q] == Idle ||
        (s.pipe.readOpen && s'.procs[q] == Active(Write(buf, i + |s'.written| - |s.written|), true)))
      && (s.pipe.readOpen ==> (s'.procs[q] == Idle <==> i + |s'.written| - |s.written| == |buf|))
  {
    hide Ring, Filled;
    RingFits(s.pipe, s.written);
    assert ProcOk(s.pipe, s.procs[q]);
  }

  /** The steps of others leave a process at what it does. */
  lemma OthersKeep(s: Sys, step: Step, q: int)
    requires Fits(s.pipe) && Enabled(s, step) && !(step.Call? && step.q == q) && !(step.Run? && step.q == q)
    requires q in Apply(s, step).procs && Apply(s, step).procs[q].Active?
    ensures q in s.procs && s.procs[q].Active? && s.procs[q].op == Apply(s, step).procs[q].op
  {
    hide Filled, Peek, Count, Room;
  }

  lemma OwnTurn(s: Sys, q: int, put: seq<int>)
    requires Inv(s) && Enabled(s, Run(q)) && PutOk(s, q, put)
    ensures Fits(s.pipe) && PutOk(Apply(s, Run(q)), q, PutBy(s, Run(q), q, put))
  {
    hide Ring, Filled;
    RingFits(s.pipe, s.written);
    if s.procs[q].op.Write? {
      WriteTurnPuts(s, q);
      var buf, i, n := s.procs[q].op.buf, s.procs[q].op.i, |Apply(s, Run(q)).written| - |s.written|;
      assert buf[..i] + buf[i..i + n] == buf[..i + n];
    }
  }

  lemma StepPuts(s: Sys, step: Step, q: int, put: seq<int>)
    requires Inv(s) && Enabled(s, step) && PutOk(s, q, put)
    ensures Fits(s.pipe) && PutOk(Apply(s, step), q, PutBy(s, step, q, put))
  {
    hide Ring, ProcsOk, Apply;
    RingFits(s.pipe, s.written);
    if step.Run? && step.q == q {
      OwnTurn(s, q, put);
    } else if step.Call? && step.q == q {
      CallStarts(s, q, step.op);
    } else if q in Apply(s, step).procs && Apply(s, step).procs[q].Active? {
      OthersKeep(s, step, q);
    }
  }

  lemma CallStarts(s: Sys, q: int, op: Op)
    requires Fits(s.pipe) && Enabled(s, Call(q, op))
    ensures PutOk(Apply(s, Call(q, op)), q, [])
  {
  }

  lemma {:induction false} RunPuts(s: Sys, steps: seq<Step>, q: int, put: seq<int>)
    requires Inv(s) && Runs(s, steps) && PutOk(s, q, put)
    ensures PutOk(After(s, steps), q, PutAfter(s, steps, q, put))
    decreases |steps|
  {
    hide Inv, Apply, Enabled, PutBy, PutOk;
    if steps != [] {
      StepInv(s, steps[0]);
      StepPuts(s, steps[0], q, put);
      RunPuts(Apply(s, steps[0]), steps[1..], q, PutBy(s, steps[0], q, put));
    }
  }

  /** A write that returns while the read end is open has put all of its bytes on the stream, in order,
      whatever the other processes did meanwhile; with the read end closed it has put in a beginning of
      them, and all unless the pipe is full. */
  lemma WriteReturns(s: Sys, steps: seq<Step>, q: int)
    requires Initial(s) && Runs(s, steps)
    requires var t := After(s, steps);
      Enabled(t, Run(q)) && t.procs[q].op.Write? && Fits(t.pipe) && Apply(t, Run(q)).procs[q] == Idle
    ensures var t := After(s, steps); var t' := Apply(t, Run(q)); var buf := t.procs[q].op.buf;
      && t.written <= t'.written
      && var put := PutAfter(s, steps, q, []) + t'.written[|t.written|..];
        && put <= buf && (t.pipe.readOpen ==> put == buf)
        && (put != buf ==> t'.pipe.nwrite == t'.pipe.nread + PIPE_SIZE)
  {
    hide Runs, After, PutAfter, Apply;
    InitialInv(s, q);
    RunInv(s, steps);
    RunPuts(s, steps, q, []);
    var t := After(s, steps);
    WriteTurnPuts(t, q);
    var buf, i, n := t.procs[q].op.buf, t.procs[q].op.i, |Apply(t, Run(q)).written| - |t.written|;
    assert buf[..i] + buf[i..i + n] == buf[..i + n];
  }

  lemma InitialInv(s: Sys, q: int)
    requires Initial(s)
    ensures Inv(s) && PutOk(s, q, [])
  {
  }
}
