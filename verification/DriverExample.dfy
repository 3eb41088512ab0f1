/** One driver run in full: the readiness line, one instruction, one request and its result. */
module DriverExample {
  import opened Basics
  import opened Utf8
  import opened DriverProtocol
  import opened DriverInstruction
  import opened RequestDriver
  import S = InstructionSize

  /** Every scan is clean, and no error has a name. */
  function OpenPolicy(): Policy {
    Policy(map[], j => true)
  }

  function Order(): Instruction {
    Instruction(CredentialPolicyBaseline, "Bearer token", "v3b1-" + seq(64, k => '0'), None)
  }

  function Digest(): string {
    seq(64, k => 'a')
  }

  lemma OrderIsValid()
    ensures ValidInstruction(Order(), s => false)
  {
    assert "Bearer token"[..7] == "Bearer " && "Bearer token"[7..] == "token";
    assert forall k | 7 <= k < 12 :: "Bearer token"[k] == "token"[k - 7];
    var run := "v3b1-" + seq(64, k => '0');
    assert run[..5] == "v3b1-" && forall k | 5 <= k < 69 :: run[k] == '0';
  }

  lemma OrderIsRead()
    ensures ParseInstructionBytes(Encode(InstructionText(Order())), CredentialPolicyBaseline, s => false) == Some(Order())
  {
    OrderIsValid();
    hide ValidInstruction, InstructionText, Encode, ParseInstructionBytes;
    S.InstructionFits(Order(), s => false);
    ParsesExactlyInstructionBytes(Encode(InstructionText(Order())), CredentialPolicyBaseline, s => false, Order());
  }

  lemma RecordIsUsed(r: Record)
    requires FactsHold(r, OpenPolicy())
    ensures Validated(r, OpenPolicy()) == Some(r)
  {
    hide Validated, FactsHold;
    ValidatedExactly(r, OpenPolicy());
  }

  lemma DigestIsSha256()
    ensures IsSha256(Digest())
  {
  }

  /** A clock that counts calls from one, a connection that answers 200, and the whole instruction on standard input: the
      driver writes exactly two lines, sends exactly that instruction, and exits with zero. */
  method OneRun() returns (exit: Exit, output: seq<Byte>, requests: seq<Instruction>)
    ensures exit == Code(0) && requests == [Order()]
    ensures output == RecordBytes(Readiness(CredentialPolicyBaseline, 1, 2))
                    + RecordBytes(Complete(CredentialPolicyBaseline, 1, 3, 4, 200, Digest()))
  {
    OrderIsRead();
    DigestIsSha256();
    hide ParseInstructionBytes, InstructionText, Encode, RecordBytes, Validated, IsSha256, Digest, Order;
    ghost var first := Readiness(CredentialPolicyBaseline, 1, 2);
    ghost var last := Complete(CredentialPolicyBaseline, 1, 3, 4, 200, Digest());
    RecordIsUsed(first);
    RecordIsUsed(last);
    var host := new Host(
      CredentialPolicyBaseline, OpenPolicy(), s => false, n => n + 1, Returns(()), Returns(()), Returns(()),
      Returns(Response(Some(200), Some(Digest()))), Returns(Body(Some(0), Some(Some(0)))),
      Bytes(Encode(InstructionText(Order()))), [], []);
    assert host.Contained() && host.FirstLine() == first;
    host.ObservedMeans(1, 3, 4);
    assert host.LastLine() == last;
    exit := host.Execute();
    output, requests := host.output, host.requests;
    ghost var trace := host.trace;
    assert |trace| == 4;
    TraceAsked(first, Order());
    assert trace == Asking(first, Order()) + [Line(last)];
    TraceAppend(Asking(first, Order()), Line(last));
  }

  /** The same driver with nothing on standard input: one line, no request, and zero. */
  method NoOrder() returns (exit: Exit, output: seq<Byte>, requests: seq<Instruction>)
    ensures exit == Code(0) && requests == [] && output == RecordBytes(Readiness(CredentialPolicyBaseline, 1, 2))
  {
    hide ParseInstructionBytes, InstructionText, Encode, RecordBytes, Validated, IsSha256, Digest, Order;
    ghost var first := Readiness(CredentialPolicyBaseline, 1, 2);
    RecordIsUsed(first);
    EmptyInput(CredentialPolicyBaseline, s => false);
    var host := new Host(
      CredentialPolicyBaseline, OpenPolicy(), s => false, n => n + 1, Returns(()), Returns(()), Returns(()),
      Returns(Response(Some(200), Some(Digest()))), Returns(Body(Some(0), Some(Some(0)))), Bytes([]), [], []);
    assert host.FirstLine() == first;
    exit := host.Execute();
    output, requests := host.output, host.requests;
    TracesSoFar(first);
    assert host.trace == [Line(first), EndOfInput];
  }
}
