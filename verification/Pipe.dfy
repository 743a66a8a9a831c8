/** The loops of kernel/dev/pipe/pipe.c on the ring buffer, each from taking the lock to returning or
    going to sleep. */
module Pipe {
  import opened PipeSpec

  /** How a turn of pipe_write ends: all written; asleep; or the read end is closed (-1). */
  datatype WriteEnd = Complete | Asleep | Broken

  class PipeBuffer {
    var nread: int
    var nwrite: int
    var readOpen: bool
    var writeOpen: bool
    const data: array<int>

    ghost function Value(): PipeSpec.Pipe
      reads this, data
    {
      PipeSpec.Pipe(nread, nwrite, readOpen, writeOpen, data[..])
    }

    ghost predicate Valid()
      reads this, data
    {
      Fits(Value())
    }

    /** The pipe that pipe_create makes. */
    constructor ()
      ensures Valid() && fresh(data) && nread == 0 && nwrite == 0 && readOpen && writeOpen
    {
      data := new int[PIPE_SIZE];
      nread, nwrite, readOpen, writeOpen := 0, 0, true, true;
    }

    /** A turn of pipe_read: it sleeps, or copies the oldest bytes into `buffer`.  It is the turn of
        process `q` in any system `sys` around this pipe. */
    method ReadTurn(buffer: array<int>, len: nat, ghost sys: Sys, ghost q: int) returns (slept: bool, n: int)
      requires Valid() && len <= buffer.Length && buffer != data && sys.pipe == Value()
      modifies this`nread, buffer
      ensures Valid() && (slept <==> old(nread == nwrite && writeOpen))
      ensures slept ==> n == 0 && Value() == old(Value()) && buffer[..] == old(buffer[..])
      ensures !slept ==> 0 <= n <= len && (n == len || nread == nwrite)
      ensures !slept ==> Value() == old(Value()).(nread := old(nread) + n)
      ensures !slept ==> buffer[..n] == Peek(old(Value()), n) && buffer[n..] == old(buffer[n..])
      ensures var t := RunRead(sys, q, len);
        && t.pipe == Value() && t.consumed == sys.consumed + buffer[..n] && t.written == sys.written
        && t.procs[q] == if slept then Active(Read(len), true) else Idle
    {
      n := 0;
      slept := nread == nwrite && writeOpen;
      if slept {
        return;
      }
      while n < len
        invariant 0 <= n <= len && n <= nwrite - old(nread) && nread == old(nread) + n
        invariant forall k :: 0 <= k < n ==> buffer[k] == data[(old(nread) + k) % PIPE_SIZE]
        invariant buffer[n..] == old(buffer[..])[n..]
      {
        if nread == nwrite {
          break;
        }
        var c := data[nread % PIPE_SIZE];
        nread := nread + 1;
        buffer[n] := c;
        n := n + 1;
      }
    }

    /** A turn of pipe_write from byte `start` of `buf` on. */
    method WriteTurn(buf: seq<int>, start: nat, ghost sys: Sys, ghost q: int) returns (i: int, end: WriteEnd)
      requires Valid() && start <= |buf| && sys.pipe == Value()
      modifies this`nwrite, data
      ensures Valid() && start <= i <= |buf| && (i == |buf| || nwrite == nread + PIPE_SIZE)
      ensures nwrite == old(nwrite) + i - start && Value() == Filled(old(Value()), buf[start..i])
      ensures end == (if i == |buf| then Complete else if readOpen then Asleep else Broken)
      ensures var t := RunWrite(sys, q, buf, start);
        && t.pipe == Value() && t.written == sys.written + buf[start..i] && t.consumed == sys.consumed
        && t.procs[q] == if end == Asleep then Active(Write(buf, i), true) else Idle
    {
      i := start;
      assert buf[start..i] == [];
      ghost var was := Value();
      while i < |buf|
        invariant start <= i <= |buf| && i - start <= Room(was, |buf| - start)
        invariant readOpen == was.readOpen && i - start <= was.nread + PIPE_SIZE - was.nwrite
        invariant Value() == Filled(was, buf[start..i])
      {
        if nwrite == nread + PIPE_SIZE {
          if !readOpen {
            return i, Broken;
          }
          return i, Asleep;
        }
        data[nwrite % PIPE_SIZE] := buf[i];
        nwrite := nwrite + 1;
        i := i + 1;
        assert buf[start..i][..i - 1 - start] == buf[start..i - 1];
      }
      end := Complete;
    }

    /** pipe_close: the pipe is freed with its second end. */
    method Close(writer: bool) returns (freed: bool)
      requires Valid()
      modifies this`readOpen, this`writeOpen
      ensures Valid() && Value() == if writer then old(Value()).(writeOpen := false)
        else old(Value()).(readOpen := false)
      ensures freed <==> !readOpen && !writeOpen
    {
      if writer {
        writeOpen := false;
      } else {
        readOpen := false;
      }
      freed := !readOpen && !writeOpen;
    }
  }

  /** pipe_create; `memory` says whether kmalloc has a block for the pipe. */
  method PipeCreate(memory: bool) returns (r: int, pipe: PipeBuffer?)
    ensures r == (if memory then 0 else -1) && (pipe == null <==> r == -1)
    ensures pipe != null ==> fresh(pipe) && fresh(pipe.data) && pipe.Valid()
    ensures pipe != null ==> pipe.nread == pipe.nwrite == 0 && pipe.readOpen && pipe.writeOpen
  {
    if !memory {
      return -1, null;
    }
    pipe := new PipeBuffer();
    r := 0;
  }
}
