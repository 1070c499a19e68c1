/** Unnamed pipes: one attempt under the pipe lock for each end, and the byte stream any number of
    interleaved calls produce. */
module Pipe {
  import opened Common
  import opened RingBuffer

  const PIPE_SIZE: nat := 65536

  newtype byte = x: int | 0 <= x < 256

  /** What the lock protects. */
  datatype Inner = Inner(contents: seq<byte>, closedByReader: bool, closedByWriter: bool)

  datatype Outcome =
    | Done(data: seq<byte>)   // bytes accepted by a write, or delivered by a read
    | Epipe
    | Eagain
    | Wait                    // go to sleep and try again

  /** One attempt of `PipeWriter::write` under the lock.  The closure of the slow path reports a
      nonblocking miss as zero bytes. */
  function TryWrite(s: Inner, data: seq<byte>, nonblock: bool, slow: bool): (Inner, Outcome)
    requires |s.contents| <= PIPE_SIZE
  {
    if s.closedByReader then (s, Epipe)
    else
      var n := Min(|data|, PIPE_SIZE - |s.contents|);
      (s.(contents := s.contents + data[..n]),
       if n > 0 then Done(data[..n]) else if !nonblock then Wait else if slow then Done([]) else Eagain)
  }

  /** One attempt of `PipeReader::read` under the lock. */
  function TryRead(s: Inner, len: nat, nonblock: bool): (Inner, Outcome) {
    var n := Min(len, |s.contents|);
    (s.(contents := s.contents[n..]),
     if n > 0 then Done(s.contents[..n]) else if s.closedByWriter then Done([])
     else if nonblock then Eagain else Wait)
  }

  class SharedPipe {
    const ring: Ring<byte>
    var closedByReader: bool
    var closedByWriter: bool

    ghost predicate Valid()
      reads this, ring
    {
      ring.Valid() && ring.cap == PIPE_SIZE
    }

    ghost function State(): Inner
      requires Valid()
      reads this, ring, ring.buf
    {
      Inner(ring.Contents(), closedByReader, closedByWriter)
    }

    constructor ()
      ensures Valid() && fresh(ring) && fresh(ring.buf) && State() == Inner([], false, false)
    {
      ring := new Ring<byte>(PIPE_SIZE);
      closedByReader, closedByWriter := false, false;
    }

    /** The fast path and the closure of the slow path differ only for a nonblocking miss and in
        the test that skips the copy when the ring is full. */
    method Write(data: seq<byte>, nonblock: bool, slow: bool) returns (r: Outcome)
      requires Valid()
      modifies ring, ring.buf
      ensures Valid()
      ensures |old(State()).contents| <= PIPE_SIZE
      ensures (State(), r) == TryWrite(old(State()), data, nonblock, slow)
    {
      ring.FlagsMeanEmptyAndFull();
      if closedByReader {
        return Epipe;
      }
      var n := 0;
      if slow || ring.IsWritable() {
        n := ring.CopyIn(data);
        if n > 0 {
          return Done(data[..n]);
        }
      }
      assert ring.Contents() == old(ring.Contents()) + data[..0];
      return if !nonblock then Wait else if slow then Done([]) else Eagain;
    }

    method Read(len: nat, nonblock: bool) returns (r: Outcome)
      requires Valid()
      modifies ring
      ensures Valid()
      ensures (State(), r) == TryRead(old(State()), len, nonblock)
    {
      var out := ring.CopyOut(len);
      ghost var before := old(ring.Contents());
      assert out == before[..|out|] && ring.Contents() == before[|out|..];
      if |out| > 0 {
        return Done(out);
      }
      if closedByWriter {
        return Done([]);
      }
      return if nonblock then Eagain else Wait;
    }

    method DropWriter()
      requires Valid()
      modifies this`closedByWriter
      ensures Valid() && State() == old(State()).(closedByWriter := true)
    {
      closedByWriter := true;
    }

    method DropReader()
      requires Valid()
      modifies this`closedByReader
      ensures Valid() && State() == old(State()).(closedByReader := true)
    {
      closedByReader := true;
    }
  }

  // ---- Any interleaving of any number of calls ----

  /** One lock hold by some caller.  With one object per end, no write attempt follows the
      writer's drop and no read attempt the reader's. */
  datatype Step =
    | Write(data: seq<byte>, nonblock: bool, slow: bool)
    | Read(len: nat, nonblock: bool)
    | DropWriter
    | DropReader

  /** The pipe together with everything ever accepted and delivered. */
  datatype History = History(pipe: Inner, accepted: seq<byte>, delivered: seq<byte>)

  const START: History := History(Inner([], false, false), [], [])

  predicate Enabled(h: History, step: Step) {
    match step
    case Write(_, _, _) => |h.pipe.contents| <= PIPE_SIZE && !h.pipe.closedByWriter
    case Read(_, _) => !h.pipe.closedByReader
    case DropWriter => !h.pipe.closedByWriter
    case DropReader => !h.pipe.closedByReader
  }

  function Result(h: History, step: Step): Outcome
    requires Enabled(h, step)
  {
    match step
    case Write(data, nonblock, slow) => TryWrite(h.pipe, data, nonblock, slow).1
    case Read(len, nonblock) => TryRead(h.pipe, len, nonblock).1
    case _ => Done([])
  }

  function Moved(r: Outcome): seq<byte> {
    if r.Done? then r.data else []
  }

  function Next(h: History, step: Step): History
    requires Enabled(h, step)
  {
    match step
    case Write(data, nonblock, slow) =>
      h.(pipe := TryWrite(h.pipe, data, nonblock, slow).0, accepted := h.accepted + Moved(Result(h, step)))
    case Read(len, nonblock) =>
      h.(pipe := TryRead(h.pipe, len, nonblock).0, delivered := h.delivered + Moved(Result(h, step)))
    case DropWriter => h.(pipe := h.pipe.(closedByWriter := true))
    case DropReader => h.(pipe := h.pipe.(closedByReader := true))
  }

  ghost predicate IsRun(trace: seq<History>, steps: seq<Step>) {
    && |trace| == |steps| + 1
    && trace[0] == START
    && forall i :: 0 <= i < |steps| ==> Enabled(trace[i], steps[i]) && trace[i + 1] == Next(trace[i], steps[i])
  }

  predicate Intact(h: History) {
    h.delivered + h.pipe.contents == h.accepted && |h.pipe.contents| <= PIPE_SIZE
  }

  lemma WriteKeepsIntact(h: History, step: Step)
    requires Intact(h) && Enabled(h, step) && step.Write?
    ensures Intact(Next(h, step))
  {
    var n := Min(|step.data|, PIPE_SIZE - |h.pipe.contents|);
    Regroup(h.delivered, h.pipe.contents, step.data[..n]);
    assert n == 0 ==> step.data[..n] == [];
  }

  lemma ReadKeepsIntact(h: History, step: Step)
    requires Intact(h) && Enabled(h, step) && step.Read?
    ensures Intact(Next(h, step))
  {
    var n := Min(step.len, |h.pipe.contents|);
    var got, rest := h.pipe.contents[..n], h.pipe.contents[n..];
    assert h.pipe.contents == got + rest;
    Regroup(h.delivered, got, rest);
    assert n == 0 ==> got == [];
  }

  lemma StepKeepsIntact(h: History, step: Step)
    requires Intact(h) && Enabled(h, step)
    ensures Intact(Next(h, step))
  {
    match step {
      case Write(_, _, _) => WriteKeepsIntact(h, step);
      case Read(_, _) => ReadKeepsIntact(h, step);
      case _ =>
    }
  }

  /** Stream integrity: bytes come out in the order they went in, none lost, none invented, and
      the ring never holds more than its size. */
  lemma {:induction false} StreamIntegrity(trace: seq<History>, steps: seq<Step>, n: nat)
    requires IsRun(trace, steps) && n < |trace|
    ensures trace[n].delivered + trace[n].pipe.contents == trace[n].accepted
    ensures |trace[n].pipe.contents| <= PIPE_SIZE
  {
    if n > 0 {
      StreamIntegrity(trace, steps, n - 1);
      StepKeepsIntact(trace[n - 1], steps[n - 1]);
    }
  }

  /** A call that completes with data moved exactly as much as was possible, from the front of the
      caller's data or of the stream.  A zero-length transfer never completes with data. */
  lemma CallsMoveTheMostPossible(trace: seq<History>, steps: seq<Step>, n: nat)
    requires IsRun(trace, steps) && n < |steps|
    ensures steps[n].Write? && !trace[n].pipe.closedByReader ==>
              var room := PIPE_SIZE - |trace[n].pipe.contents|;
              var k := Min(|steps[n].data|, room);
              && trace[n + 1].accepted == trace[n].accepted + steps[n].data[..k]
              && (Result(trace[n], steps[n]) == Done(steps[n].data[..k]) <==> k > 0 || (steps[n].nonblock && steps[n].slow))
    ensures steps[n].Read? ==>
              var k := Min(steps[n].len, |trace[n].pipe.contents|);
              && trace[n + 1].delivered == trace[n].delivered + trace[n].pipe.contents[..k]
              && (k > 0 ==> Result(trace[n], steps[n]) == Done(trace[n].pipe.contents[..k]))
              && trace[n].delivered + trace[n].pipe.contents[..k] <= trace[n].accepted
  {
    StreamIntegrity(trace, steps, n);
  }

  lemma {:induction false} ClosedStaysClosed(trace: seq<History>, steps: seq<Step>, i: nat, j: nat)
    requires IsRun(trace, steps) && i <= j < |trace|
    ensures trace[i].pipe.closedByWriter ==>
              trace[j].pipe.closedByWriter && trace[j].accepted == trace[i].accepted
    ensures trace[i].pipe.closedByReader ==>
              trace[j].pipe.closedByReader && trace[j].accepted == trace[i].accepted
    decreases j
  {
    if i < j {
      ClosedStaysClosed(trace, steps, i, j - 1);
    }
  }

  lemma {:induction false} DeliveredGrows(trace: seq<History>, steps: seq<Step>, i: nat, j: nat)
    requires IsRun(trace, steps) && i <= j < |trace|
    ensures |trace[i].delivered| <= |trace[j].delivered|
    decreases j
  {
    if i < j {
      DeliveredGrows(trace, steps, i, j - 1);
    }
  }

  /** End of stream: a read of positive length that returns zero bytes happens only after the
      writer dropped and everything accepted was delivered, and every later read returns zero too. */
  lemma EndOfStream(trace: seq<History>, steps: seq<Step>, i: nat, j: nat)
    requires IsRun(trace, steps) && i <= j < |steps|
    requires steps[i].Read? && steps[i].len > 0 && Result(trace[i], steps[i]) == Done([])
    ensures trace[i].pipe.closedByWriter && trace[i].delivered == trace[i].accepted
    ensures steps[j].Read? ==> Result(trace[j], steps[j]) == Done([])
    ensures trace[j].delivered == trace[j].accepted == trace[i].accepted
  {
    StreamIntegrity(trace, steps, i);
    StreamIntegrity(trace, steps, j);
    ClosedStaysClosed(trace, steps, i, j);
    DeliveredGrows(trace, steps, i, j);
    assert trace[i].pipe.contents == [];
    assert trace[j].pipe.contents == [];
  }

  /** Once the reader has dropped, no write on either path accepts a byte: all fail with EPIPE. */
  lemma BrokenPipe(trace: seq<History>, steps: seq<Step>, i: nat, j: nat)
    requires IsRun(trace, steps) && i < j < |steps| && steps[i].DropReader? && steps[j].Write?
    ensures Result(trace[j], steps[j]) == Epipe && trace[j + 1].accepted == trace[i].accepted
  {
    ClosedStaysClosed(trace, steps, i + 1, j);
  }

  // ---- What an attempt answers ----

  ghost predicate Before(steps: seq<Step>, n: nat, step: Step) {
    exists i :: 0 <= i < n <= |steps| && steps[i] == step
  }

  /** The flags are set exactly by the drops. */
  lemma {:induction false} FlagsAreDrops(trace: seq<History>, steps: seq<Step>, n: nat)
    requires IsRun(trace, steps) && n < |trace|
    ensures trace[n].pipe.closedByWriter <==> Before(steps, n, DropWriter)
    ensures trace[n].pipe.closedByReader <==> Before(steps, n, DropReader)
  {
    if n > 0 {
      FlagsAreDrops(trace, steps, n - 1);
      FlagsStep(trace[n - 1], steps[n - 1]);
      BeforeStep(steps, n - 1, DropWriter);
      BeforeStep(steps, n - 1, DropReader);
    }
  }

  lemma FlagsStep(h: History, step: Step)
    requires Enabled(h, step)
    ensures Next(h, step).pipe.closedByWriter <==> h.pipe.closedByWriter || step == DropWriter
    ensures Next(h, step).pipe.closedByReader <==> h.pipe.closedByReader || step == DropReader
  {
  }

  lemma BeforeStep(steps: seq<Step>, n: nat, step: Step)
    requires n < |steps|
    ensures Before(steps, n + 1, step) <==> Before(steps, n, step) || steps[n] == step
  {
  }

  /** Bytes accepted and not delivered yet. */
  function Waiting(h: History): int {
    |h.accepted| - |h.delivered|
  }

  /** What a read answers: data while there is some; with nothing to give, end of stream once the
      writer has dropped, EAGAIN to a nonblocking caller, and sleep otherwise. */
  lemma ReadAnswers(trace: seq<History>, steps: seq<Step>, n: nat)
    requires IsRun(trace, steps) && n < |steps| && steps[n].Read?
    ensures var r, step := Result(trace[n], steps[n]), steps[n];
            var nothing := step.len == 0 || Waiting(trace[n]) == 0;
            var ended := Before(steps, n, DropWriter);
            && (r.Done? && r.data != [] <==> !nothing)
            && (r == Done([]) <==> nothing && ended)
            && (r == Eagain <==> nothing && !ended && step.nonblock)
            && (r == Wait <==> nothing && !ended && !step.nonblock)
  {
    StreamIntegrity(trace, steps, n);
    FlagsAreDrops(trace, steps, n);
  }

  /** What a write answers: EPIPE once the reader has dropped; otherwise the accepted bytes; with
      nothing accepted, sleep for a blocking caller, and for a nonblocking one EAGAIN on the fast
      path and zero bytes on the slow path. */
  lemma WriteAnswers(trace: seq<History>, steps: seq<Step>, n: nat)
    requires IsRun(trace, steps) && n < |steps| && steps[n].Write?
    ensures var r, step := Result(trace[n], steps[n]), steps[n];
            var broken := Before(steps, n, DropReader);
            var stuck := !broken && (step.data == [] || Waiting(trace[n]) == PIPE_SIZE);
            && (r == Epipe <==> broken)
            && (r.Done? && r.data != [] <==> !broken && !stuck)
            && (r == Wait <==> stuck && !step.nonblock)
            && (r == Eagain <==> stuck && step.nonblock && !step.slow)
            && (r == Done([]) <==> stuck && step.nonblock && step.slow)
  {
    StreamIntegrity(trace, steps, n);
    FlagsAreDrops(trace, steps, n);
  }

  /** The other direction of end of stream: once the writer has dropped and every accepted byte was
      delivered, every read from then on returns zero bytes. */
  lemma EndOfStreamReached(trace: seq<History>, steps: seq<Step>, i: nat, j: nat)
    requires IsRun(trace, steps) && i <= j < |steps| && steps[j].Read?
    requires Before(steps, i, DropWriter) && trace[i].delivered == trace[i].accepted
    ensures Result(trace[j], steps[j]) == Done([])
  {
    FlagsAreDrops(trace, steps, i);
    StreamIntegrity(trace, steps, i);
    StreamIntegrity(trace, steps, j);
    ClosedStaysClosed(trace, steps, i, j);
    DeliveredGrows(trace, steps, i, j);
    ReadAnswers(trace, steps, j);
    FlagsAreDrops(trace, steps, j);
  }
}
