/** The host side of a driver session: line framing over chunked pipes, and exit attestation. */
module Transport {
  import opened Basics

  const MAX_RESULT_BYTES := 8 * 1024
  const MAX_INSTRUCTION_BYTES := 32 * 1024
  const NEWLINE: Byte := 10

  /** The categories of a closed transport failure. */
  datatype Failure =
    | ClockFailure | DeadlineExpired
    | StdoutRead | StdoutEof | StdoutOversize
    | ReadinessFraming | ResultFraming
    | InstructionFraming | InstructionWrite | InstructionPartialWrite | InstructionClose
    | StdinClose | StdinCloseAmbiguous
    | ExpectedExitInvalid | ProcessWaitTimeout | ProcessWait | ProcessPoll | TerminationAmbiguous
    | PipeRead | PipeOversize | ExtraStdout | StderrPresent | NonzeroExit

  datatype Result<T> = Ok(value: T) | Err(failure: Failure)

  // ---------- The environment, which may behave in any of these ways ----------

  /** What the next read of a pipe does: give at least one byte if there is one, and no more than `size`;
      fail; or not become readable before the deadline. */
  datatype ReadEvent = Chunk(size: nat) | ReadFails | NotReady

  class Pipe {
    var unread: seq<Byte>
    var events: seq<ReadEvent>

    constructor (bytes: seq<Byte>, events: seq<ReadEvent>)
      ensures unread == bytes && this.events == events
    {
      unread, this.events := bytes, events;
    }

    method Ready() returns (ready: bool)
      modifies this`events
    {
      ready := true;
      if events != [] && events[0].NotReady? {
        events, ready := events[1..], false;
      }
    }

    /** `os.read`: some prefix of what is unread, empty only at end of file or when nothing is asked for. */
    method Read(limit: nat) returns (r: Option<seq<Byte>>)
      modifies this
      ensures r.None? ==> unread == old(unread)
      ensures r.Some? ==> old(unread) == r.value + unread && |r.value| <= limit
      ensures r.Some? && r.value == [] && limit > 0 ==> old(unread) == []
    {
      var size := limit;
      if events != [] {
        if events[0].ReadFails? {
          events := events[1..];
          return None;
        }
        size := if events[0].Chunk? && 0 < events[0].size < limit then events[0].size else limit;
        events := events[1..];
      }
      if size > |unread| {
        size := |unread|;
      }
      r := Some(unread[..size]);
      unread := unread[size..];
    }
  }

  /** Standard input of the driver: a write may be short or fail, and closing may fail or not take. */
  class Sink {
    var received: seq<Byte>
    var closed: bool
    const accepts: Option<nat>
    const closes: Option<bool>

    constructor (accepts: Option<nat>, closes: Option<bool>)
      ensures received == [] && !closed
    {
      received, closed, this.accepts, this.closes := [], false, accepts, closes;
    }

    method Write(payload: seq<Byte>) returns (written: Option<nat>)
      modifies this`received
      ensures written.None? ==> received == old(received)
      ensures written.Some? ==> written.value <= |payload| && received == old(received) + payload[..written.value]
    {
      if accepts.None? {
        return None;
      }
      var n := if accepts.value <= |payload| then accepts.value else |payload|;
      received := received + payload[..n];
      return Some(n);
    }

    method Close() returns (ok: bool)
      modifies this`closed
    {
      ok := closes.Some?;
      closed := closes.Some? && closes.value;
    }
  }

  /** Readings of the monotonic clock; `None` is a failure, and so is running out of readings. */
  class Clock {
    var readings: seq<Option<int>>

    constructor (readings: seq<Option<int>>) {
      this.readings := readings;
    }

    /** `remaining_seconds`: whether the deadline still lies ahead. */
    method Remaining(deadlineNs: int) returns (r: Result<int>)
      modifies this
      ensures r.Ok? ==> r.value > 0
      ensures r.Err? ==> r.failure in {ClockFailure, DeadlineExpired}
    {
      if readings == [] || readings[0].None? {
        return Err(ClockFailure);
      }
      var now := readings[0].value;
      readings := readings[1..];
      if now < 0 {
        return Err(ClockFailure);
      }
      return if deadlineNs - now <= 0 then Err(DeadlineExpired) else Ok(deadlineNs - now);
    }
  }

  datatype WaitOutcome = Exited(code: int) | WaitTimesOut | WaitFails | NoCode

  // ---------- Lines ----------

  function Concat(lines: seq<seq<Byte>>): seq<Byte> {
    if lines == [] then [] else Concat(lines[..|lines| - 1]) + lines[|lines| - 1]
  }

  lemma ConcatAppend(lines: seq<seq<Byte>>, line: seq<Byte>)
    ensures Concat(lines + [line]) == Concat(lines) + line
  {
    assert (lines + [line])[..|lines|] == lines;
  }

  lemma Regroup(a: seq<Byte>, b: seq<Byte>, c: seq<Byte>, d: seq<Byte>)
    ensures a + ((b + c) + d) == (a + b) + (c + d)
    ensures (b + c) + d == b + (c + d)
  {
  }

  /** A nonempty line of at most `limit` bytes whose only newline is its last byte. */
  predicate IsLine(line: seq<Byte>, limit: nat) {
    && 0 < |line| <= limit
    && line[|line| - 1] == NEWLINE
    && forall k | 0 <= k < |line| - 1 :: line[k] != NEWLINE
  }

  function Newlines(s: seq<Byte>): nat {
    if s == [] then 0 else Newlines(s[1..]) + if s[0] == NEWLINE then 1 else 0
  }

  lemma {:induction false} NewlinesZero(s: seq<Byte>)
    ensures Newlines(s) == 0 <==> NEWLINE !in s
  {
    if s != [] {
      NewlinesZero(s[1..]);
      assert s == [s[0]] + s[1..];
    }
  }

  lemma {:induction false} NewlinesOfFront(s: seq<Byte>)
    requires s != [] && s[|s| - 1] == NEWLINE
    ensures Newlines(s) == 1 + Newlines(s[..|s| - 1])
  {
    if |s| > 1 {
      NewlinesOfFront(s[1..]);
      assert s[1..][..|s| - 2] == s[..|s| - 1][1..];
    }
  }

  /** The framing tests made on a line say exactly that it is one line. */
  lemma FramingIsIsLine(s: seq<Byte>, limit: nat)
    ensures IsLine(s, limit) <==> s != [] && |s| <= limit && s[|s| - 1] == NEWLINE && Newlines(s) == 1
  {
    if s != [] && s[|s| - 1] == NEWLINE {
      NewlinesOfFront(s);
      NewlinesZero(s[..|s| - 1]);
      var front := s[..|s| - 1];
      assert NEWLINE !in front <==> forall k | 0 <= k < |front| :: front[k] != NEWLINE;
      assert forall k | 0 <= k < |front| :: front[k] == s[k];
    }
  }

  lemma LineLimit(s: seq<Byte>, limit: nat)
    requires IsLine(s, |s|)
    ensures IsLine(s, limit) <==> |s| <= limit
  {
  }

  function IndexOfNewline(s: seq<Byte>): (k: nat)
    requires NEWLINE in s
    ensures k < |s| && s[k] == NEWLINE && forall j | 0 <= j < k :: s[j] != NEWLINE
  {
    if s[0] == NEWLINE then 0 else 1 + IndexOfNewline(s[1..])
  }

  // ---------- The session ----------

  class DriverSession {
    const stdout: Pipe
    const stderr: Pipe
    const stdin: Sink
    const exit: WaitOutcome
    const polled: Option<int>
    var pendingStdout: seq<Byte>

    /** Everything the driver ever wrote to its standard output, and the lines taken from it so far. */
    ghost const stream: seq<Byte>
    ghost var taken: seq<seq<Byte>>

    ghost predicate Valid()
      reads this, stdout
    {
      && stdout != stderr
      && stream == Concat(taken) + (pendingStdout + stdout.unread)
      && |pendingStdout| <= MAX_RESULT_BYTES + 1
    }

    constructor (stdout: Pipe, stderr: Pipe, stdin: Sink, exit: WaitOutcome, polled: Option<int>)
      requires stdout != stderr
      ensures Valid() && pendingStdout == [] && taken == [] && stream == stdout.unread
      ensures this.stdout == stdout && this.stderr == stderr && this.stdin == stdin
    {
      this.stdout, this.stderr, this.stdin := stdout, stderr, stdin;
      this.exit, this.polled := exit, polled;
      pendingStdout := [];
      stream, taken := stdout.unread, [];
    }

    /** One line, however the stream is chunked; bytes read beyond it stay pending. */
    method ReadLine(deadlineNs: int, clock: Clock) returns (r: Result<seq<Byte>>)
      requires Valid()
      modifies this, stdout, clock
      ensures Valid()
      ensures r.Ok? ==> IsLine(r.value, |r.value|) && taken == old(taken) + [r.value]
      ensures r.Ok? && |r.value| > MAX_RESULT_BYTES ==> |r.value| == MAX_RESULT_BYTES + 1 && r.value == old(pendingStdout)
      ensures r.Ok? ==> old(pendingStdout + stdout.unread) == r.value + (pendingStdout + stdout.unread)
      ensures r.Ok? && |old(pendingStdout)| <= MAX_RESULT_BYTES ==> |pendingStdout| <= MAX_RESULT_BYTES
      ensures r.Err? ==> r.failure in {ClockFailure, DeadlineExpired, StdoutRead, StdoutEof, StdoutOversize}
      ensures r.Err? ==> taken == old(taken) && old(pendingStdout + stdout.unread) == pendingStdout + stdout.unread
    {
      hide Concat;
      ghost var total := pendingStdout + stdout.unread;
      while NEWLINE !in pendingStdout
        invariant taken == old(taken) && pendingStdout + stdout.unread == total
        invariant |pendingStdout| <= MAX_RESULT_BYTES + 1
        invariant |pendingStdout| <= MAX_RESULT_BYTES || pendingStdout == old(pendingStdout)
        decreases |stdout.unread|
      {
        var timeout := clock.Remaining(deadlineNs);
        if timeout.Err? {
          return Err(timeout.failure);
        }
        var ready := stdout.Ready();
        if !ready {
          return Err(DeadlineExpired);
        }
        var chunk := stdout.Read(MAX_RESULT_BYTES + 1 - |pendingStdout|);
        if chunk.None? {
          return Err(StdoutRead);
        }
        if chunk.value == [] {
          assert chunk.value + stdout.unread == stdout.unread;
          return Err(StdoutEof);
        }
        assert (pendingStdout + chunk.value) + stdout.unread == pendingStdout + (chunk.value + stdout.unread);
        pendingStdout := pendingStdout + chunk.value;
        if |pendingStdout| > MAX_RESULT_BYTES {
          return Err(StdoutOversize);
        }
      }
      var newline := IndexOfNewline(pendingStdout) + 1;
      var payload, rest := pendingStdout[..newline], pendingStdout[newline..];
      assert pendingStdout == payload + rest;
      ConcatAppend(taken, payload);
      Regroup(Concat(taken), payload, rest, stdout.unread);
      pendingStdout := rest;
      taken := taken + [payload];
      return Ok(payload);
    }

    method ReadFramed(framing: Failure, deadlineNs: int, clock: Clock) returns (r: Result<seq<Byte>>)
      requires Valid()
      modifies this, stdout, clock
      ensures Valid()
      ensures r.Ok? && |old(pendingStdout)| <= MAX_RESULT_BYTES ==> |pendingStdout| <= MAX_RESULT_BYTES
      ensures r.Ok? ==> IsLine(r.value, MAX_RESULT_BYTES) && taken == old(taken) + [r.value]
      ensures r == Err(framing) && framing !in {ClockFailure, DeadlineExpired, StdoutRead, StdoutEof, StdoutOversize} ==>
        |old(pendingStdout)| == MAX_RESULT_BYTES + 1 && IsLine(old(pendingStdout), MAX_RESULT_BYTES + 1)
    {
      hide Concat, Newlines, IsLine;
      var before := clock.Remaining(deadlineNs);
      if before.Err? {
        return Err(before.failure);
      }
      r := ReadLine(deadlineNs, clock);
      if r.Err? {
        return;
      }
      var after := clock.Remaining(deadlineNs);
      if after.Err? {
        return Err(after.failure);
      }
      FramingIsIsLine(r.value, MAX_RESULT_BYTES);
      LineLimit(r.value, MAX_RESULT_BYTES);
      if r.value == [] || |r.value| > MAX_RESULT_BYTES || r.value[|r.value| - 1] != NEWLINE || Newlines(r.value) != 1 {
        return Err(framing);
      }
    }

    /** A framing error can only follow a line that an earlier oversize refusal left pending. */
    method ReadReadinessRecord(deadlineNs: int, clock: Clock) returns (r: Result<seq<Byte>>)
      requires Valid()
      modifies this, stdout, clock
      ensures Valid()
      ensures r.Ok? && |old(pendingStdout)| <= MAX_RESULT_BYTES ==> |pendingStdout| <= MAX_RESULT_BYTES
      ensures r.Ok? ==> IsLine(r.value, MAX_RESULT_BYTES) && taken == old(taken) + [r.value]
      ensures r == Err(ReadinessFraming) ==>
        |old(pendingStdout)| == MAX_RESULT_BYTES + 1 && IsLine(old(pendingStdout), MAX_RESULT_BYTES + 1)
    {
      r := ReadFramed(ReadinessFraming, deadlineNs, clock);
    }

    method ReadDriverResult(deadlineNs: int, clock: Clock) returns (r: Result<seq<Byte>>)
      requires Valid()
      modifies this, stdout, clock
      ensures Valid()
      ensures r.Ok? && |old(pendingStdout)| <= MAX_RESULT_BYTES ==> |pendingStdout| <= MAX_RESULT_BYTES
      ensures r.Ok? ==> IsLine(r.value, MAX_RESULT_BYTES) && taken == old(taken) + [r.value]
      ensures r == Err(ResultFraming) ==>
        |old(pendingStdout)| == MAX_RESULT_BYTES + 1 && IsLine(old(pendingStdout), MAX_RESULT_BYTES + 1)
    {
      r := ReadFramed(ResultFraming, deadlineNs, clock);
    }

    method CloseInstructionStream() returns (r: Result<()>)
      modifies stdin
      ensures r.Ok? ==> stdin.closed
      ensures stdin.received == old(stdin.received)
    {
      var ok := stdin.Close();
      if !ok {
        return Err(StdinClose);
      }
      return if !stdin.closed then Err(StdinCloseAmbiguous) else Ok(());
    }

    /** The one instruction write: success means the driver was sent exactly these bytes, then end of file. */
    method WriteInstruction(payload: seq<Byte>, deadlineNs: int, clock: Clock) returns (r: Result<()>)
      modifies stdin, clock
      ensures r.Ok? ==> IsLine(payload, MAX_INSTRUCTION_BYTES)
      ensures r.Ok? ==> stdin.received == old(stdin.received) + payload && stdin.closed
      ensures !IsLine(payload, MAX_INSTRUCTION_BYTES) ==> stdin.received == old(stdin.received)
    {
      var before := clock.Remaining(deadlineNs);
      if before.Err? {
        return Err(before.failure);
      }
      FramingIsIsLine(payload, MAX_INSTRUCTION_BYTES);
      if payload == [] || |payload| > MAX_INSTRUCTION_BYTES || payload[|payload| - 1] != NEWLINE || Newlines(payload) != 1 {
        return Err(InstructionFraming);
      }
      var written := stdin.Write(payload);
      if written.None? {
        return Err(InstructionWrite);
      }
      if written.value != |payload| {
        return Err(InstructionPartialWrite);
      }
      assert payload[..|payload|] == payload;
      var after := clock.Remaining(deadlineNs);
      if after.Err? {
        return Err(after.failure);
      }
      var closed := CloseInstructionStream();
      return if closed.Err? then Err(InstructionClose) else Ok(());
    }

    /** The exit checks shared by the two attestations. */
    method ReapedCode(deadlineNs: int, clock: Clock) returns (r: Result<int>)
      modifies clock
      ensures r.Ok? ==> exit == Exited(r.value) && polled == Some(r.value)
    {
      var before := clock.Remaining(deadlineNs);
      if before.Err? {
        return Err(before.failure);
      }
      if exit.WaitTimesOut? {
        return Err(ProcessWaitTimeout);
      }
      if exit.WaitFails? {
        return Err(ProcessWait);
      }
      var after := clock.Remaining(deadlineNs);
      if after.Err? {
        return Err(after.failure);
      }
      if polled.None? {
        return Err(ProcessPoll);
      }
      if exit.NoCode? || polled.value != exit.code {
        return Err(TerminationAmbiguous);
      }
      return Ok(exit.code);
    }

    /** Success after `limit` bytes were allowed means nothing was left on either pipe. */
    method RequireSilence(limit: int, expectedExitCode: int, code: int) returns (r: Result<int>)
      requires Valid() && limit >= -1
      modifies this, stdout, stderr
      ensures r.Ok? ==> Valid() && r.value == expectedExitCode == code
      ensures r.Ok? ==> stream == Concat(taken) && stderr.unread == [] && pendingStdout == []
      ensures taken == old(taken)
    {
      var rest := pendingStdout;
      ghost var all := stdout.unread;
      pendingStdout := [];
      var more := ReadRemainder(stdout, limit);
      if more.Err? {
        return Err(more.failure);
      }
      var noise := ReadRemainder(stderr, MAX_RESULT_BYTES);
      if noise.Err? {
        return Err(noise.failure);
      }
      if rest + more.value != [] {
        return Err(ExtraStdout);
      }
      if noise.value != [] {
        return Err(StderrPresent);
      }
      if code != expectedExitCode {
        return Err(NonzeroExit);
      }
      assert rest == [] && more.value == [];
      assert stream == Concat(taken) + ([] + []);
      assert Concat(taken) + ([] + []) == Concat(taken);
      return Ok(code);
    }

    method AttestDriverResultExit(expectedExitCode: int, deadlineNs: int, clock: Clock) returns (r: Result<int>)
      requires Valid()
      modifies this, stdout, stderr, clock
      ensures r.Ok? ==> Valid() && r.value == expectedExitCode && r.value in {0, 1}
      ensures r.Ok? ==> exit == Exited(r.value) && polled == Some(r.value)
      ensures r.Ok? ==> stream == Concat(taken) && stderr.unread == [] && pendingStdout == []
      ensures taken == old(taken)
    {
      if expectedExitCode !in {0, 1} {
        return Err(ExpectedExitInvalid);
      }
      var code := ReapedCode(deadlineNs, clock);
      if code.Err? {
        return Err(code.failure);
      }
      var limit := MAX_RESULT_BYTES - |pendingStdout|;
      r := RequireSilence(if limit > 0 then limit else 0, expectedExitCode, code.value);
    }

    method AttestCancelledExit(deadlineNs: int, clock: Clock) returns (r: Result<int>)
      requires Valid()
      modifies this, stdout, stderr, clock
      ensures r.Ok? ==> Valid() && r.value == 0
      ensures r.Ok? ==> exit == Exited(0) && polled == Some(0)
      ensures r.Ok? ==> stream == Concat(taken) && stderr.unread == [] && pendingStdout == []
      ensures taken == old(taken)
    {
      var code := ReapedCode(deadlineNs, clock);
      if code.Err? {
        return Err(code.failure);
      }
      r := RequireSilence(MAX_RESULT_BYTES - |pendingStdout|, 0, code.value);
    }
  }

  /** At most `limit` bytes may remain; an empty answer means end of file. */
  method ReadRemainder(pipe: Pipe, limit: int) returns (r: Result<seq<Byte>>)
    requires limit >= -1
    modifies pipe
    ensures r.Ok? ==> old(pipe.unread) == r.value + pipe.unread && |r.value| <= limit
    ensures r.Ok? && r.value == [] ==> pipe.unread == []
  {
    var payload := pipe.Read(limit + 1);
    if payload.None? {
      return Err(PipeRead);
    }
    if |payload.value| > limit {
      return Err(PipeOversize);
    }
    return Ok(payload.value);
  }

  // ---------- Whole sessions ----------

  /** A commanded session that passes every step: the driver wrote the readiness line and the result line
      and nothing else, was sent exactly the instruction, and exited as expected. */
  method CommandedSession(s: DriverSession, instruction: seq<Byte>, expectedExitCode: int, deadlineNs: int, clock: Clock)
    returns (r: Result<(seq<Byte>, seq<Byte>)>)
    requires s.Valid() && s.pendingStdout == [] && s.taken == [] && s.stdin.received == []
    modifies s, s.stdout, s.stderr, s.stdin, clock
    ensures r.Ok? ==>
      && s.stream == r.value.0 + r.value.1
      && IsLine(r.value.0, MAX_RESULT_BYTES) && IsLine(r.value.1, MAX_RESULT_BYTES)
      && s.stderr.unread == []
      && s.stdin.received == instruction && s.stdin.closed && IsLine(instruction, MAX_INSTRUCTION_BYTES)
      && s.exit == Exited(expectedExitCode)
  {
    var ready := s.ReadReadinessRecord(deadlineNs, clock);
    if ready.Err? {
      return Err(ready.failure);
    }
    var wrote := s.WriteInstruction(instruction, deadlineNs, clock);
    if wrote.Err? {
      return Err(wrote.failure);
    }
    assert [] + instruction == instruction;
    var result := s.ReadDriverResult(deadlineNs, clock);
    if result.Err? {
      return Err(result.failure);
    }
    assert s.taken == [ready.value, result.value];
    var exit := s.AttestDriverResultExit(expectedExitCode, deadlineNs, clock);
    if exit.Err? {
      return Err(exit.failure);
    }
    TwoLines(ready.value, result.value);
    return Ok((ready.value, result.value));
  }

  /** A cancelled session that passes every step: the driver wrote the readiness line only and was sent nothing. */
  method CancelledSession(s: DriverSession, deadlineNs: int, clock: Clock) returns (r: Result<seq<Byte>>)
    requires s.Valid() && s.pendingStdout == [] && s.taken == [] && s.stdin.received == []
    modifies s, s.stdout, s.stderr, s.stdin, clock
    ensures r.Ok? ==>
      && s.stream == r.value && IsLine(r.value, MAX_RESULT_BYTES)
      && s.stderr.unread == [] && s.stdin.received == [] && s.stdin.closed && s.exit == Exited(0)
  {
    var ready := s.ReadReadinessRecord(deadlineNs, clock);
    if ready.Err? {
      return Err(ready.failure);
    }
    var closed := s.CloseInstructionStream();
    if closed.Err? {
      return Err(closed.failure);
    }
    assert s.taken == [ready.value];
    var exit := s.AttestCancelledExit(deadlineNs, clock);
    if exit.Err? {
      return Err(exit.failure);
    }
    TwoLines(ready.value, []);
    return Ok(ready.value);
  }

  lemma TwoLines(a: seq<Byte>, b: seq<Byte>)
    ensures Concat([a]) == a && Concat([a, b]) == a + b
  {
    assert [a][..0] == [] && [a, b][..1] == [a];
  }

  // ---------- The framing of a stream is unique ----------

  /** Cutting a stream into lines can be done in one way only, so what a session returns does not
      depend on how the stream was chunked. */
  lemma {:induction false} LinesAreDetermined(xs: seq<seq<Byte>>, ys: seq<seq<Byte>>, p: seq<Byte>, q: seq<Byte>)
    requires forall k | 0 <= k < |xs| :: IsLine(xs[k], |xs[k]|)
    requires forall k | 0 <= k < |ys| :: IsLine(ys[k], |ys[k]|)
    requires ConcatFront(xs) + p == ConcatFront(ys) + q && |xs| <= |ys|
    ensures xs == ys[..|xs|]
  {
    if xs != [] {
      var s := ConcatFront(xs) + p;
      var a, b := xs[0], ys[0];
      assert s == a + (ConcatFront(xs[1..]) + p);
      assert s == b + (ConcatFront(ys[1..]) + q);
      FirstNewlineIsUnique(s, |a| - 1, |b| - 1);
      assert a == s[..|a|] == b;
      assert ConcatFront(xs[1..]) + p == s[|a|..] == ConcatFront(ys[1..]) + q;
      LinesAreDetermined(xs[1..], ys[1..], p, q);
      assert xs == [a] + xs[1..] && ys == [b] + ys[1..];
    }
  }

  lemma FirstNewlineIsUnique(s: seq<Byte>, m: nat, n: nat)
    requires m < |s| && s[m] == NEWLINE && forall k | 0 <= k < m :: s[k] != NEWLINE
    requires n < |s| && s[n] == NEWLINE && forall k | 0 <= k < n :: s[k] != NEWLINE
    ensures m == n
  {
  }

  function ConcatFront(lines: seq<seq<Byte>>): seq<Byte> {
    if lines == [] then [] else lines[0] + ConcatFront(lines[1..])
  }

  lemma {:induction false} ConcatIsConcatFront(lines: seq<seq<Byte>>)
    ensures Concat(lines) == ConcatFront(lines)
  {
    if |lines| > 1 {
      var n := |lines| - 1;
      ConcatIsConcatFront(lines[1..]);
      ConcatIsConcatFront(lines[..n]);
      ConcatIsConcatFront(lines[1..n]);
      assert lines[1..][..n - 1] == lines[1..n] && lines[..n][1..] == lines[1..n];
    } else if |lines| == 1 {
      assert lines[..0] == [] && lines[1..] == [];
    }
  }

  /** Two sessions that took lines from the same stream took the same lines, as far as both went. */
  lemma SameStreamSameLines(xs: seq<seq<Byte>>, ys: seq<seq<Byte>>, p: seq<Byte>, q: seq<Byte>)
    requires forall k | 0 <= k < |xs| :: IsLine(xs[k], |xs[k]|)
    requires forall k | 0 <= k < |ys| :: IsLine(ys[k], |ys[k]|)
    requires Concat(xs) + p == Concat(ys) + q && |xs| <= |ys|
    ensures xs == ys[..|xs|]
  {
    ConcatIsConcatFront(xs);
    ConcatIsConcatFront(ys);
    LinesAreDetermined(xs, ys, p, q);
  }
}
