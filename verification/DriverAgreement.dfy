/** The two ends of a driver session agree: what the host reads is what the driver meant. */
module DriverAgreement {
  import opened Basics
  import opened Utf8
  import opened Json
  import P = DriverProtocol
  import I = DriverInstruction
  import R = RequestDriver
  import T = Transport

  lemma RecordIsOneLine(r: P.Record)
    ensures var line := P.RecordBytes(r); line != [] && T.IsLine(line, |line|)
  {
    R.LineBytes(P.RecordJson(r));
  }

  /** A stream that starts with one line and is two lines long starts with that very line. */
  lemma FirstLineIsUnique(line: seq<Byte>, rest: seq<Byte>, a: seq<Byte>, b: seq<Byte>)
    requires T.IsLine(line, |line|) && T.IsLine(a, |a|)
    requires line + rest == a + b
    ensures a == line && b == rest
  {
    var s := line + rest;
    assert forall k | 0 <= k < |line| :: s[k] == line[k];
    assert forall k | 0 <= k < |a| :: (a + b)[k] == a[k];
    T.FirstNewlineIsUnique(s, |line| - 1, |a| - 1);
    assert a == s[..|a|] && line == s[..|line|];
    assert b == s[|a|..] && rest == s[|line|..];
  }

  lemma PrefixIsWhole(line: seq<Byte>, prefix: seq<Byte>)
    requires T.IsLine(line, |line|) && T.IsLine(prefix, |prefix|) && prefix <= line
    ensures prefix == line
  {
    assert prefix[|prefix| - 1] == line[|prefix| - 1];
  }

  lemma NotTwoLines(line: seq<Byte>, a: seq<Byte>, b: seq<Byte>)
    requires T.IsLine(line, |line|) && T.IsLine(a, |a|) && T.IsLine(b, |b|)
    ensures !(a + b <= line)
  {
    assert (a + b)[|a| - 1] == T.NEWLINE;
  }

  /** Two lines read back are the readiness record and the result record of this run, byte for byte: the driver
      took exactly the instruction it was sent and made exactly one request, and says truthfully how it went. */
  lemma TwoLinesAreTheRecords(h: R.Host, i: I.Instruction, a: seq<Byte>, b: seq<Byte>)
    requires h.Accounted() && h.NothingElseWritten() && P.ShortNames(h.policy)
    requires h.output == a + b && T.IsLine(a, |a|) && T.IsLine(b, |b|)
    requires h.input == R.Bytes(Encode(I.InstructionText(i)))
    ensures h.Contained() && h.requests == [i]
    ensures P.ParseResultBytes(a, h.track, h.policy) == Some(h.FirstLine())
    ensures P.ParseResultBytes(b, h.track, h.policy) == Some(h.LastLine())
  {
    hide *;
    var first := h.FirstLine();
    RecordIsOneLine(first);
    NotTwoLines(P.RecordBytes(first), a, b);
    if |h.trace| < 3 {
      ShortTraces(h);
      assert false;
    }
    TakenIs(h, i);
    LastLineWritten(h, i, a, b);
    var last := h.LastLine();
    R.ValidatedFits(first, h.policy);
    R.ValidatedFits(last, h.policy);
    ValidatedParses(first, h.policy);
    ValidatedParses(last, h.policy);
    LinesAreOfTrack(h);
  }

  lemma ValidatedParses(r: P.Record, policy: P.Policy)
    ensures R.Validated(r, policy) == P.ParseResultBytes(P.RecordBytes(r), r.track, policy)
  {
  }

  lemma LinesAreOfTrack(h: R.Host)
    requires h.Contained()
    ensures h.FirstLine().track == h.track && h.LastLine().track == h.track
  {
  }

  /** A run that got as far as a request got there with the instruction it was sent. */
  lemma TakenIs(h: R.Host, i: I.Instruction)
    requires h.Accounted() && |h.trace| >= 3 && h.input == R.Bytes(Encode(I.InstructionText(i)))
    ensures h.requests == [i] && h.trace[..3] == R.Asking(h.FirstLine(), i) && |h.trace| <= 4
    ensures R.Validated(h.FirstLine(), h.policy).Some?
    ensures |h.trace| == 4 ==> h.Contained() && h.trace[3] == R.Line(h.LastLine()) && R.Validated(h.LastLine(), h.policy).Some?
  {
    hide P.RecordBytes, P.ParseResultBytes, I.ParseInstructionBytes, R.LinesIn, h.Contained, h.Observed, Encode, R.Validated;
    var taken := h.trace[1].instruction;
    I.ParsesExactlyInstructionBytes(h.input.content, h.track, h.looksLikeJws, taken);
    InstructionBytesInjective(i, taken);
    assert h.trace[..3] == R.Asking(h.FirstLine(), i);
    hide R.SentIn;
    R.TraceAsked(h.FirstLine(), i);
    if |h.trace| == 4 {
      assert h.trace == R.Asking(h.FirstLine(), i) + [h.trace[3]];
      R.TraceAppend(R.Asking(h.FirstLine(), i), h.trace[3]);
    } else {
      assert h.trace == R.Asking(h.FirstLine(), i);
    }
  }

  lemma LastLineWritten(h: R.Host, i: I.Instruction, a: seq<Byte>, b: seq<Byte>)
    requires h.NothingElseWritten() && 3 <= |h.trace| <= 4 && h.trace[..3] == R.Asking(h.FirstLine(), i)
    requires |h.trace| == 4 ==> h.Contained() && h.trace[3] == R.Line(h.LastLine()) && R.Validated(h.LastLine(), h.policy).Some?
    requires h.output == a + b && T.IsLine(a, |a|) && T.IsLine(b, |b|)
    ensures h.Contained() && R.Validated(h.LastLine(), h.policy).Some?
    ensures a == P.RecordBytes(h.FirstLine()) && b == P.RecordBytes(h.LastLine())
  {
    hide P.RecordBytes, R.Validated, h.Contained, h.Observed, h.FirstLine, R.LinesIn, R.SentIn, T.IsLine;
    var first := h.FirstLine();
    var asked := R.Asking(first, i);
    var line := P.RecordBytes(first);
    R.TraceAsked(first, i);
    RecordIsOneLine(first);
    if |h.trace| == 3 {
      assert h.trace == asked;
      NotTwoLines(line, a, b);
      assert h.output != line;
      var rest := h.output[|line|..];
      assert h.output == line + rest;
      FirstLineIsUnique(line, rest, a, b);
      RecordIsOneLine(h.LastLine());
      AfterPrefix(line, rest, P.RecordBytes(h.LastLine()));
      PrefixIsWhole(P.RecordBytes(h.LastLine()), rest);
    } else {
      var last := h.LastLine();
      assert h.trace == asked + [R.Line(last)];
      R.TraceAppend(asked, R.Line(last));
      FirstLineIsUnique(line, P.RecordBytes(last), a, b);
    }
  }

  lemma AfterPrefix(line: seq<Byte>, rest: seq<Byte>, last: seq<Byte>)
    requires line + rest <= line + last
    ensures rest <= last
  {
    assert (line + last)[|line|..] == last;
    assert (line + rest)[|line|..] == rest;
    forall k | 0 <= k < |rest| ensures rest[k] == last[k] {
      assert (line + rest)[|line| + k] == (line + last)[|line| + k];
    }
  }

  lemma ShortTraces(h: R.Host)
    requires h.Accounted() && h.NothingElseWritten() && |h.trace| < 3
    ensures h.output <= P.RecordBytes(h.FirstLine())
  {
    hide P.RecordBytes, R.SentIn, R.LinesIn;
    R.TracesSoFar(h.FirstLine());
    if |h.trace| == 1 {
      assert h.trace == [R.Line(h.FirstLine())];
    } else if |h.trace| == 2 {
      var one := [R.Line(h.FirstLine())];
      assert h.trace == one + [h.trace[1]];
      R.TraceAppend(one, h.trace[1]);
    }
  }

  lemma InstructionBytesInjective(a: I.Instruction, b: I.Instruction)
    requires Encode(I.InstructionText(a)) == Encode(I.InstructionText(b))
    ensures a == b
  {
    DecodeOfEncoded(I.InstructionText(a));
    DecodeOfEncoded(I.InstructionText(b));
    I.InstructionTextInjective(a, b);
  }

  /** One line read back and then nothing, from a run that exited with 0, is the readiness record of a run that
      saw its input end and made no request. */
  lemma OneLineIsCancelled(h: R.Host, a: seq<Byte>)
    requires h.Accounted() && h.NothingElseWritten() && h.Succeeded() && P.ShortNames(h.policy)
    requires h.output == a && T.IsLine(a, |a|)
    ensures h.requests == [] && h.input == R.Bytes([])
    ensures P.ParseResultBytes(a, h.track, h.policy) == Some(h.FirstLine())
  {
    hide P.RecordBytes, P.ParseResultBytes, I.ParseInstructionBytes, R.SentIn, R.LinesIn, h.Contained, h.Observed;
    var first := h.FirstLine();
    R.TracesSoFar(first);
    if |h.trace| == 4 {
      var i := h.trace[1].instruction;
      R.TraceAsked(first, i);
      assert h.trace == R.Asking(first, i) + [h.trace[3]];
      R.TraceAppend(R.Asking(first, i), h.trace[3]);
      RecordIsOneLine(first);
      RecordIsOneLine(h.LastLine());
      NotTwoLines(a, P.RecordBytes(first), P.RecordBytes(h.LastLine()));
      assert false;
    } else {
      assert h.trace == [R.Line(first), R.EndOfInput];
    }
  }
}
