/** The single-byte acknowledgement handshake of the SCP protocol
    (AbstractSshMessage.sendAck / waitForAck). The channel's input is the
    sequence of bytes the remote side has sent and not yet been read. */
module AckProtocol {
  import opened Outcomes
  import opened Text

  /** The acknowledgement byte sequence: a single zero. */
  const Ack: seq<Byte> := [0]

  /** `sendAck`: write the acknowledgement after what has been sent so far. */
  function SendAck(out: seq<Byte>): (r: seq<Byte>)
    ensures |r| == |out| + 1
    ensures r[..|out|] == out
    ensures r[|out|] == 0
  {
    out + Ack
  }

  /** `InputStream.read()`: the next byte, or -1 once the stream is
      exhausted (and it stays exhausted). */
  function Read(input: seq<Byte>): (r: (int, seq<Byte>))
    ensures |input| == 0 ==> r == (-1, [])
    ensures |input| > 0 ==> r == (input[0], input[1..])
  {
    if |input| == 0 then (-1, []) else (input[0], input[1..])
  }

  /** The diagnostic text following a non-zero code, and the input left
      unread after it. */
  datatype Diagnostic = Diagnostic(text: seq<Byte>, rest: seq<Byte>)

  /** The diagnostic read loop: accumulate bytes until a newline, a zero
      byte or end of stream. The text is the input up to (excluding) that
      terminator, the terminator is consumed, and nothing after it is read. */
  function ReadDiagnostic(input: seq<Byte>): (d: Diagnostic)
    ensures d.text <= input
    ensures 0 !in d.text && Newline !in d.text
    ensures |d.text| == |input| ==> d.rest == []
    ensures |d.text| < |input| ==>
              (input[|d.text|] == 0 || input[|d.text|] == Newline) && d.rest == input[|d.text| + 1..]
  {
    var (c, rest) := Read(input);
    if c > 0 && c != Newline as int then
      var d := ReadDiagnostic(rest);
      Diagnostic([c as Byte] + d.text, d.rest)
    else
      Diagnostic([], rest)
  }

  /** The failure message for a non-zero, non-end-of-stream code. */
  function ErrorMessage(code: Byte, diagnostic: string): string
    requires code != 0
  {
    if code == 1 then "server indicated an error: " + diagnostic
    else if code == 2 then "server indicated a fatal error: " + diagnostic
    else "unknown response, code " + Decimal(code) + " message: " + diagnostic
  }

  const NoResponse: string := "No response from server"

  /** What waitForAck did and the input left unread. */
  datatype AckResult = AckResult(outcome: Outcome, rest: seq<Byte>)

  /** `waitForAck`: read one code byte; 0 is success, end of stream is "no
      response", any other code reads a diagnostic and fails with a message
      that depends on whether the code is 1, 2 or something else (see
      AckFailureMessages). It reads from the input only, never writes, and
      always consumes at least the code byte when there is one. */
  function WaitForAck(input: seq<Byte>): (r: AckResult)
    ensures r.outcome.Completed? <==> |input| > 0 && input[0] == 0
    ensures r.outcome.Completed? ==> r.rest == input[1..]
    ensures |input| == 0 ==> r == AckResult(Threw(SshException(NoResponse)), [])
    ensures r.outcome.Threw? ==> r.outcome.failure.SshException?
    ensures |input| > 0 ==> |r.rest| < |input|
  {
    var (b, rest) := Read(input);
    if b == -1 then
      AckResult(Threw(SshException(NoResponse)), rest)
    else if b != 0 then
      var d := ReadDiagnostic(rest);
      AckResult(Threw(SshException(ErrorMessage(b, Chars(d.text)))), d.rest)
    else
      AckResult(Completed, rest)
  }

  /** The failure waitForAck reports for a non-zero code: the diagnostic
      read after the code, prefixed by a message chosen by the code, and the
      input after the diagnostic's terminator is left unread. */
  lemma AckFailureMessages(input: seq<Byte>)
    requires |input| > 0 && input[0] != 0
    ensures var d := ReadDiagnostic(input[1..]);
            var r := WaitForAck(input);
            && r.rest == d.rest
            && (input[0] == 1 ==>
                  r.outcome == Threw(SshException("server indicated an error: " + Chars(d.text))))
            && (input[0] == 2 ==>
                  r.outcome == Threw(SshException("server indicated a fatal error: " + Chars(d.text))))
            && (input[0] > 2 ==>
                  r.outcome == Threw(SshException("unknown response, code " + Decimal(input[0])
                                                  + " message: " + Chars(d.text))))
  {
  }

  /** The acknowledgement this side sends is one the peer's waitForAck
      accepts, consuming just that byte. */
  lemma SentAckIsAccepted(out: seq<Byte>, rest: seq<Byte>)
    ensures WaitForAck(SendAck(out)[|out|..] + rest) == AckResult(Completed, rest)
  {
    assert SendAck(out)[|out|..] + rest == [0] + rest;
  }

  /** A reply the remote side can send at a checkpoint, as the protocol
      describes it: acknowledgement, error, fatal error, or some other code,
      each non-zero code followed by a newline-terminated diagnostic. */
  datatype Reply =
    | Acknowledge
    | Error(text: seq<Byte>)
    | FatalError(text: seq<Byte>)
    | Unknown(code: Byte, text: seq<Byte>)

  /** The diagnostic contains no terminator and an unknown code is really
      none of 0, 1, 2. */
  predicate WellFormed(r: Reply) {
    match r
    case Acknowledge => true
    case Error(t) => 0 !in t && Newline !in t
    case FatalError(t) => 0 !in t && Newline !in t
    case Unknown(c, t) => c > 2 && 0 !in t && Newline !in t
  }

  /** The bytes the remote side sends for a reply. */
  function EncodeReply(r: Reply): seq<Byte> {
    match r
    case Acknowledge => [0]
    case Error(t) => [1] + t + [Newline]
    case FatalError(t) => [2] + t + [Newline]
    case Unknown(c, t) => [c] + t + [Newline]
  }

  /** How the sender is meant to react to each reply. */
  function Reaction(r: Reply): Outcome {
    match r
    case Acknowledge => Completed
    case Error(t) => Threw(SshException("server indicated an error: " + Chars(t)))
    case FatalError(t) => Threw(SshException("server indicated a fatal error: " + Chars(t)))
    case Unknown(c, t) =>
      Threw(SshException("unknown response, code " + Decimal(c) + " message: " + Chars(t)))
  }

  /** Diagnostic text free of terminators is read through in full, and the
      loop continues on what follows it. */
  lemma {:induction false} ReadDiagnosticThrough(t: seq<Byte>, tail: seq<Byte>)
    requires 0 !in t && Newline !in t
    ensures ReadDiagnostic(t + tail)
              == Diagnostic(t + ReadDiagnostic(tail).text, ReadDiagnostic(tail).rest)
  {
    if |t| > 0 {
      assert (t + tail)[1..] == t[1..] + tail;
      ReadDiagnosticThrough(t[1..], tail);
      assert t == [t[0]] + t[1..];
    } else {
      assert t + tail == tail;
    }
  }

  /** A non-zero code followed by a terminator-free diagnostic and a
      newline is read as the failure for that code and text, and nothing
      after the newline is consumed. */
  lemma DiagnosticReplyRead(code: Byte, t: seq<Byte>, rest: seq<Byte>)
    requires code != 0 && 0 !in t && Newline !in t
    ensures WaitForAck([code] + t + [Newline] + rest)
              == AckResult(Threw(SshException(ErrorMessage(code, Chars(t)))), rest)
  {
    var input := [code] + t + [Newline] + rest;
    assert input[1..] == t + ([Newline] + rest);
    AckFailureMessages(input);
    ReadDiagnosticThrough(t, [Newline] + rest);
    assert ReadDiagnostic([Newline] + rest) == Diagnostic([], rest);
    assert t + [] == t;
  }

  /** Every well-formed reply is read back by waitForAck as its intended
      reaction, and exactly the reply's bytes are consumed. */
  lemma ReplyRoundTrip(r: Reply, rest: seq<Byte>)
    requires WellFormed(r)
    ensures WaitForAck(EncodeReply(r) + rest) == AckResult(Reaction(r), rest)
  {
    match r
    case Acknowledge =>
      assert (EncodeReply(r) + rest)[1..] == rest;
    case Error(t) =>
      DiagnosticReplyRead(1, t, rest);
    case FatalError(t) =>
      DiagnosticReplyRead(2, t, rest);
    case Unknown(c, t) =>
      DiagnosticReplyRead(c, t, rest);
  }

  /** The bytes of the diagnostic "disk full". */
  const DiskFull: seq<Byte> := [100, 105, 115, 107, 32, 102, 117, 108, 108]

  /** A peer that refuses with error code 1 and the diagnostic "disk full"
      makes waitForAck fail with the recoverable-error message carrying that
      text, consuming the whole reply. */
  lemma DiskFullReply(rest: seq<Byte>)
    ensures WaitForAck([1] + DiskFull + [Newline] + rest)
              == AckResult(Threw(SshException("server indicated an error: disk full")), rest)
  {
    assert Reaction(Error(DiskFull)) == Threw(SshException("server indicated an error: disk full")) by {
      assert Chars(DiskFull) == "disk full";
      assert "server indicated an error: " + "disk full" == "server indicated an error: disk full";
    }
    assert [1] + DiskFull + [Newline] + rest == EncodeReply(Error(DiskFull)) + rest;
    ReplyRoundTrip(Error(DiskFull), rest);
  }

  /** One `InputStream.read()` call. */
  method ReadByte(input: seq<Byte>) returns (c: int, rest: seq<Byte>)
    ensures (c, rest) == Read(input)
  {
    if |input| == 0 {
      c, rest := -1, [];
    } else {
      c, rest := input[0], input[1..];
    }
  }

  /** The read loop of waitForAck as written: read the code; on a non-zero
      code append bytes to a buffer while the byte read is positive and not a
      newline. It computes exactly WaitForAck. */
  method ReadAck(input: seq<Byte>) returns (outcome: Outcome, rest: seq<Byte>)
    ensures AckResult(outcome, rest) == WaitForAck(input)
  {
    var b;
    b, rest := ReadByte(input);
    if b == -1 {
      return Threw(SshException(NoResponse)), rest;
    } else if b != 0 {
      ghost var afterCode := rest;
      var sb: seq<Byte> := [];
      var c;
      c, rest := ReadByte(rest);
      while c > 0 && c != Newline as int
        invariant 0 !in sb && Newline !in sb
        invariant c == -1 ==> afterCode == sb && rest == []
        invariant c != -1 ==> 0 <= c < 256 && afterCode == sb + [c as Byte] + rest
        decreases |afterCode| - |sb|
      {
        assert sb + [c as Byte] + rest == (sb + [c as Byte]) + rest;
        sb := sb + [c as Byte];
        c, rest := ReadByte(rest);
        assert afterCode == sb + (if c == -1 then [] else [c as Byte] + rest);
      }
      if c == -1 {
        ReadDiagnosticThrough(sb, []);
        assert sb + [] == sb;
      } else {
        ReadDiagnosticThrough(sb, [c as Byte] + rest);
        assert sb + [c as Byte] + rest == sb + ([c as Byte] + rest);
        assert ReadDiagnostic([c as Byte] + rest) == Diagnostic([], rest);
        assert sb + [] == sb;
      }
      assert ReadDiagnostic(afterCode) == Diagnostic(sb, rest);
      assert input[1..] == afterCode;
      return Threw(SshException(ErrorMessage(b as Byte, Chars(sb)))), rest;
    }
    return Completed, rest;
  }
}
