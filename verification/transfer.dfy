/** One upload of one file over an exec channel running the remote SCP
    sink (ScpToMessage). The channel is abstract: the bytes the remote side
    will send are given up front, the bytes written are collected, and the
    lifecycle of the channel and the local file is recorded as a trace. */
module ScpTo {
  import opened Outcomes
  import opened Text
  import opened LocalFiles
  import opened Events
  import opened AckProtocol
  import opened FileHeader
  import opened Payload

  /** A write to the channel's output that throws an IOException: which
      write call fails, counting from 0 (the header is write 0, the i-th
      chunk of the file is write i, the trailing acknowledgement is the
      last), and the exception's message. The failing call is taken to put
      none of its bytes on the wire; a flush counts as part of the write
      before it. */
  datatype WriteFailure = WriteFailure(call: nat, message: string)

  /** An exec channel handed out by the session: whether `connect()` fails
      (with the transport's message), the bytes the remote side sends back
      on the channel's input, and whether a write to its output fails. */
  datatype Channel = Channel(connectFailure: Option<string>, replies: seq<Byte>,
                             writeFailure: Option<WriteFailure>)

  /** An open session as the transfer sees it: asking it for an exec
      channel either yields one or fails with the transport's message. */
  datatype Session = Session(exec: Result<Channel>)

  /** A configured transfer: the local file (possibly null), the remote
      target path, the verbose flag and the log listener. */
  datatype Message = Message(localFile: Option<LocalFile>, remotePath: string,
                             verbose: bool, listener: Listener)

  /** What a transfer did: how it ended, every byte written to the channel,
      the channel input left unread, and the lifecycle trace. */
  datatype Run = Run(outcome: Outcome, sent: seq<Byte>, unread: seq<Byte>, trace: seq<Event>)

  /** A new message logs to the silent listener until told otherwise. */
  function NewMessage(localFile: Option<LocalFile>, remotePath: string, verbose: bool): (m: Message)
    ensures m.listener == NoOpListener
    ensures m.localFile == localFile && m.remotePath == remotePath && m.verbose == verbose
  {
    Message(localFile, remotePath, verbose, NoOpListener)
  }

  /** `setLogListener`: replace the listener and nothing else. */
  function SetLogListener(m: Message, l: Listener): (m': Message)
    ensures m'.listener == l
    ensures m'.localFile == m.localFile && m'.remotePath == m.remotePath && m'.verbose == m.verbose
  {
    m.(listener := l)
  }

  /** The remote command: the SCP sink ("to") mode aimed at the target path,
      which is passed on unquoted. */
  function Command(remotePath: string): (cmd: string)
    ensures |cmd| == 7 + |remotePath|
    ensures cmd[..7] == "scp -t " && cmd[7..] == remotePath
  {
    "scp -t " + remotePath
  }

  /** The header this side announces for a file: its reported length and
      its name, whether or not it can be opened. */
  function HeaderFor(file: LocalFile): seq<Byte> {
    HeaderBytes(Length(file), BaseName(file.path))
  }

  /** Write call `call` fails. */
  predicate FailsAt(w: Option<WriteFailure>, call: nat) {
    w.Some? && w.value.call == call
  }

  /** How many of `count` chunk writes (calls 1 to `count`) succeed: all of
      them, or those before the one that fails. */
  function ChunksWritten(count: nat, w: Option<WriteFailure>): (n: nat)
    ensures n <= count
    ensures n < count <==> w.Some? && 1 <= w.value.call <= count
    ensures n < count ==> w.value.call == n + 1
  {
    if w.Some? && 1 <= w.value.call <= count then w.value.call - 1 else count
  }

  /** `sendFileToRemote` on a freshly connected channel whose input, after
      the remote side's readiness acknowledgement, is `input`. Writes the
      header, waits for its acknowledgement and opens the file; a failing
      header write or acknowledgement, or a file that cannot be opened, ends
      it before the file is open. */
  function SendFileToRemote(m: Message, file: LocalFile, input: seq<Byte>, w: Option<WriteFailure>): Run {
    var header := HeaderFor(file);
    if FailsAt(w, 0) then
      Run(Threw(IoException(w.value.message)), [], input, [])
    else
      var headerAck := WaitForAck(input);
      if headerAck.outcome.Threw? then
        Run(headerAck.outcome, header, headerAck.rest, [])
      else
        match file.contents
        case Unreadable(_, reason) =>
          Run(Threw(IoException(reason)), header, headerAck.rest, [])
        case Readable(data) =>
          SendContents(m, BaseName(file.path), data, header, headerAck.rest, w)
  }

  /** The try block of sendFileToRemote and its finally, once the file is
      open: copy the file in buffer-sized chunks, send the trailing
      acknowledgement and wait for the final one. A failing write ends the
      copy with an IOException. Whatever happens, the statistics report the
      bytes copied so far (in verbose mode) and the file is closed. */
  function SendContents(m: Message, name: string, data: seq<Byte>, header: seq<Byte>,
                        input: seq<Byte>, w: Option<WriteFailure>): Run {
    var chunks := Chunks(data);
    var n := ChunksWritten(|chunks|, w);
    var written := header + Flatten(chunks[..n]);
    var trace := FileTrace(m, name, |data|, TotalLength(chunks[..n]));
    if n < |chunks| || FailsAt(w, |chunks| + 1) then
      Run(Threw(IoException(w.value.message)), written, input, trace)
    else
      var finalAck := WaitForAck(input);
      Run(finalAck.outcome, SendAck(written), finalAck.rest, trace)
  }

  /** The events of an opened file: opened; in verbose mode announced
      with its name and length before the copy and the bytes copied reported
      after it, whether the copy and the final acknowledgement succeed or
      not; and closed. */
  function FileTrace(m: Message, name: string, length: nat, totalLength: nat): seq<Event> {
    if m.verbose then
      [FileOpened, Logged(m.listener, Info, "Sending: " + name + " : " + Decimal(length)),
       StatsLogged(m.listener, totalLength), FileClosed]
    else
      [FileOpened, FileClosed]
  }

  /** `doSingleTransfer`: open an exec channel for the sink command; once
      it exists, connect it, wait for the readiness acknowledgement and send
      the file, then disconnect it whatever happened. */
  function DoSingleTransfer(m: Message, file: LocalFile, session: Session): Run {
    match session.exec
    case Err(reason) => Run(Threw(JschException(reason)), [], [], [])
    case Ok(channel) =>
      var openChannel := [ChannelOpened(Command(m.remotePath))];
      if channel.connectFailure.Some? then
        Run(Threw(JschException(channel.connectFailure.value)), [], channel.replies,
            openChannel + [ChannelDisconnected])
      else
        var ready := WaitForAck(channel.replies);
        if ready.outcome.Threw? then
          Run(ready.outcome, [], ready.rest, openChannel + [ChannelConnected, ChannelDisconnected])
        else
          var r := SendFileToRemote(m, file, ready.rest, channel.writeFailure);
          r.(trace := openChannel + [ChannelConnected] + r.trace + [ChannelDisconnected])
  }

  /** `execute`: transfer the file if there is one, otherwise do nothing. */
  function Execute(m: Message, session: Session): Run {
    match m.localFile
    case None => Run(Completed, [], [], [])
    case Some(file) => DoSingleTransfer(m, file, session)
  }

  /** The channel was obtained and connected. */
  predicate Connected(session: Session) {
    session.exec.Ok? && session.exec.value.connectFailure.None?
  }

  /** The remote side answered the three checkpoints with acknowledgements. */
  predicate ThreeAcks(replies: seq<Byte>) {
    |replies| >= 3 && replies[0] == 0 && replies[1] == 0 && replies[2] == 0
  }

  /** None of the writes a complete upload of `data` makes fails: the
      header, one per buffer's worth of data, and the trailing
      acknowledgement. */
  predicate WritesSucceed(w: Option<WriteFailure>, data: seq<Byte>) {
    w.None? || w.value.call > ChunkCount(|data|) + 1
  }

  /** Once the header is written and the file is open, the rest of the
      transfer completes exactly when every write succeeds and the final
      acknowledgement arrives. When every write succeeds, the whole file and
      the trailing acknowledgement follow what was written before, and the
      outcome and the input left are those of the final waitForAck. */
  lemma SendContentsSucceedsIff(m: Message, name: string, data: seq<Byte>, header: seq<Byte>,
                                input: seq<Byte>, w: Option<WriteFailure>)
    requires !FailsAt(w, 0)
    ensures var r := SendContents(m, name, data, header, input, w);
            r.outcome.Completed? <==> WritesSucceed(w, data) && |input| > 0 && input[0] == 0
    ensures var r := SendContents(m, name, data, header, input, w);
            WritesSucceed(w, data) ==>
              && r.sent == header + data + [0]
              && AckResult(r.outcome, r.unread) == WaitForAck(input)
  {
    ChunksCounted(data);
    var chunks := Chunks(data);
    if WritesSucceed(w, data) {
      assert chunks[..|chunks|] == chunks;
      ChunksReassemble(data);
    }
  }

  /** A transfer completes exactly when the channel connects, the file can
      be read, every write succeeds and the remote side acknowledges all
      three checkpoints. Then the channel carried the header, the file's
      bytes and one acknowledgement byte, in that order, and exactly three
      input bytes were consumed. */
  lemma TransferSucceedsIff(m: Message, file: LocalFile, session: Session)
    ensures var r := DoSingleTransfer(m, file, session);
            r.outcome.Completed? <==>
              && Connected(session) && file.contents.Readable?
              && ThreeAcks(session.exec.value.replies)
              && WritesSucceed(session.exec.value.writeFailure, file.contents.data)
    ensures var r := DoSingleTransfer(m, file, session);
            r.outcome.Completed? ==>
              && r.sent == HeaderBytes(|file.contents.data|, BaseName(file.path)) + file.contents.data + [0]
              && r.unread == session.exec.value.replies[3..]
  {
    if Connected(session) && file.contents.Readable? {
      var replies := session.exec.value.replies;
      if |replies| >= 2 && replies[0] == 0 && replies[1] == 0 && !FailsAt(session.exec.value.writeFailure, 0) {
        assert replies[1..][1..] == replies[2..];
        SendContentsSucceedsIff(m, BaseName(file.path), file.contents.data, HeaderFor(file),
                                replies[2..], session.exec.value.writeFailure);
        if |replies| >= 3 {
          assert replies[2..][1..] == replies[3..];
        }
      }
    }
  }

  /** If the remote side is not ready, nothing at all is written and the
      file is never opened; the failure is the one waitForAck reports. */
  lemma ReadyAckFailure(m: Message, file: LocalFile, session: Session)
    requires Connected(session)
    requires WaitForAck(session.exec.value.replies).outcome.Threw?
    ensures var r := DoSingleTransfer(m, file, session);
            && r.outcome == WaitForAck(session.exec.value.replies).outcome
            && r.sent == []
            && FileOpened !in r.trace
  {
  }

  /** If writing the header fails, the IOException propagates, nothing
      reached the wire, the header's acknowledgement is never read and the
      file is never opened. */
  lemma HeaderWriteFailure(m: Message, file: LocalFile, session: Session)
    requires Connected(session) && FailsAt(session.exec.value.writeFailure, 0)
    requires var replies := session.exec.value.replies;
             |replies| > 0 && replies[0] == 0
    ensures var r := DoSingleTransfer(m, file, session);
            && r.outcome == Threw(IoException(session.exec.value.writeFailure.value.message))
            && r.sent == []
            && r.unread == session.exec.value.replies[1..]
            && FileOpened !in r.trace
  {
  }

  /** If the header is rejected, the header is all that was written and the
      file is never opened. */
  lemma HeaderAckFailure(m: Message, file: LocalFile, session: Session)
    requires Connected(session) && !FailsAt(session.exec.value.writeFailure, 0)
    requires var replies := session.exec.value.replies;
             |replies| > 0 && replies[0] == 0 && WaitForAck(replies[1..]).outcome.Threw?
    ensures var r := DoSingleTransfer(m, file, session);
            && r.outcome == WaitForAck(session.exec.value.replies[1..]).outcome
            && r.sent == HeaderFor(file)
            && FileOpened !in r.trace
  {
  }

  /** A file that cannot be opened is still announced, with the length
      `File.length()` reports for it; once the header is acknowledged the
      transfer fails with the opening error, having written nothing else. */
  lemma FileOpenFailure(m: Message, file: LocalFile, session: Session)
    requires Connected(session) && file.contents.Unreadable?
    requires !FailsAt(session.exec.value.writeFailure, 0)
    requires var replies := session.exec.value.replies;
             |replies| >= 2 && replies[0] == 0 && replies[1] == 0
    ensures var r := DoSingleTransfer(m, file, session);
            && r.outcome == Threw(IoException(file.contents.reason))
            && r.sent == HeaderBytes(file.contents.reportedLength, BaseName(file.path))
            && FileOpened !in r.trace
  {
  }

  /** If the final acknowledgement fails, the whole file and the trailing
      acknowledgement were already written, and the transfer reached the
      stage where the file, copied in full, is closed. */
  lemma FinalAckFailure(m: Message, file: LocalFile, session: Session)
    requires Connected(session) && file.contents.Readable?
    requires WritesSucceed(session.exec.value.writeFailure, file.contents.data)
    requires var replies := session.exec.value.replies;
             |replies| >= 2 && replies[0] == 0 && replies[1] == 0
             && WaitForAck(replies[2..]).outcome.Threw?
    ensures var r := DoSingleTransfer(m, file, session);
            && r.outcome == WaitForAck(session.exec.value.replies[2..]).outcome
            && r.sent == HeaderFor(file) + file.contents.data + [0]
            && Progress(file, session)
               == FileSent(BaseName(file.path), |file.contents.data|, |file.contents.data|)
  {
    var replies := session.exec.value.replies;
    var data := file.contents.data;
    assert replies[1..][1..] == replies[2..];
    SendContentsSucceedsIff(m, BaseName(file.path), data, HeaderFor(file),
                            replies[2..], session.exec.value.writeFailure);
    ChunksCounted(data);
    ChunksPrefix(data, |Chunks(data)|);
    ChunksReassemble(data);
    assert Chunks(data)[..|Chunks(data)|] == Chunks(data);
  }

  /** If the write of chunk `k` fails, the IOException propagates, the
      wire carries the header and exactly the first k - 1 buffers of the
      file, the final acknowledgement is never awaited, and the transfer
      still reaches the stage where the file is closed, reporting those
      bytes as the total. */
  lemma ChunkWriteFailure(m: Message, file: LocalFile, session: Session, k: nat, message: string)
    requires Connected(session) && file.contents.Readable?
    requires session.exec.value.writeFailure == Some(WriteFailure(k, message))
    requires 1 <= k <= ChunkCount(|file.contents.data|)
    requires var replies := session.exec.value.replies;
             |replies| >= 2 && replies[0] == 0 && replies[1] == 0
    ensures (k - 1) * BufferSize < |file.contents.data|
    ensures var r := DoSingleTransfer(m, file, session);
            && r.outcome == Threw(IoException(message))
            && r.sent == HeaderFor(file) + file.contents.data[..(k - 1) * BufferSize]
            && r.unread == session.exec.value.replies[2..]
            && Progress(file, session) == FileSent(BaseName(file.path), |file.contents.data|, (k - 1) * BufferSize)
  {
    var data := file.contents.data;
    ChunksCounted(data);
    ChunkStartsInside(|data|, k - 1);
    ChunksPrefix(data, k - 1);
    assert session.exec.value.replies[1..][1..] == session.exec.value.replies[2..];
  }

  /** If the write of the trailing acknowledgement fails, the header and
      the whole file are on the wire, the final acknowledgement is never
      awaited, and the file is closed having been copied in full. */
  lemma AckWriteFailure(m: Message, file: LocalFile, session: Session, message: string)
    requires Connected(session) && file.contents.Readable?
    requires session.exec.value.writeFailure
             == Some(WriteFailure(ChunkCount(|file.contents.data|) + 1, message))
    requires var replies := session.exec.value.replies;
             |replies| >= 2 && replies[0] == 0 && replies[1] == 0
    ensures var r := DoSingleTransfer(m, file, session);
            && r.outcome == Threw(IoException(message))
            && r.sent == HeaderFor(file) + file.contents.data
            && r.unread == session.exec.value.replies[2..]
            && Progress(file, session) == FileSent(BaseName(file.path), |file.contents.data|, |file.contents.data|)
  {
    var data := file.contents.data;
    ChunksCounted(data);
    assert Chunks(data)[..|Chunks(data)|] == Chunks(data);
    ChunksReassemble(data);
    assert session.exec.value.replies[1..][1..] == session.exec.value.replies[2..];
  }

  /** The events sendFileToRemote itself records: file opening, closing
      and logging, nothing about the channel or the session. */
  predicate FileEvent(e: Event) {
    e.FileOpened? || e.FileClosed? || e.Logged? || e.StatsLogged?
  }

  /** The events of an opened file: it is opened first and closed last,
      each exactly once, with only log output for the message's listener in
      between, which includes the announcement of the name and length and
      the reported total in verbose mode and is absent otherwise; nothing
      about the channel or the session. */
  lemma FileTraceShape(m: Message, name: string, length: nat, totalLength: nat)
    ensures var t := FileTrace(m, name, length, totalLength);
            && |t| >= 2 && t[0] == FileOpened && t[|t| - 1] == FileClosed
            && Occurrences(t, FileOpened) == 1 && Occurrences(t, FileClosed) == 1
            && AllLogsTo(t, m.listener)
            && (m.verbose ==> Logged(m.listener, Info, "Sending: " + name + " : " + Decimal(length)) in t)
            && (m.verbose ==> StatsLogged(m.listener, totalLength) in t)
            && (!m.verbose ==> Silent(t))
            && forall e :: e in t ==> FileEvent(e)
  {
    var t := FileTrace(m, name, length, totalLength);
    var logs := t[1..|t| - 1];
    assert t == [FileOpened] + logs + [FileClosed];
    OccurrencesAbsent(logs, FileOpened);
    OccurrencesAbsent(logs, FileClosed);
    OccurrencesOfThree([FileOpened], logs, [FileClosed], FileOpened);
    OccurrencesOfThree([FileOpened], logs, [FileClosed], FileClosed);
    OccurrencesSingleton(FileOpened, FileClosed);
    OccurrencesSingleton(FileClosed, FileOpened);
    LogsAtEachPosition(t, m.listener);
  }

  /** How many bytes of a readable file the copy writes: those of the
      chunks before the one whose write fails, or all of them. */
  function BytesCopied(data: seq<Byte>, w: Option<WriteFailure>): nat {
    CopiedAfter(ChunksWritten(ChunkCount(|data|), w), |data|)
  }

  /** sendFileToRemote records the file events exactly when the header was
      written and accepted and the file could be opened, with the file's
      length announced and the bytes actually copied reported as the total;
      it records nothing otherwise. */
  lemma SendFileTrace(m: Message, file: LocalFile, input: seq<Byte>, w: Option<WriteFailure>)
    ensures SendFileToRemote(m, file, input, w).trace
            == if !FailsAt(w, 0) && |input| > 0 && input[0] == 0 && file.contents.Readable?
               then FileTrace(m, BaseName(file.path), Length(file), BytesCopied(file.contents.data, w))
               else []
  {
    if !FailsAt(w, 0) && |input| > 0 && input[0] == 0 && file.contents.Readable? {
      var data := file.contents.data;
      ChunksCounted(data);
      ChunksPrefix(data, ChunksWritten(|Chunks(data)|, w));
    }
  }

  /** How far a transfer gets, as far as the resources it holds are
      concerned: no channel; a channel that does not connect; a connected
      channel on which the readiness acknowledgement, the header's write or
      acknowledgement, or the opening of the file fails; or a file that is
      opened, copied (in full or up to a failing write) and closed, whatever
      happens next, with the name and length it was announced with and the
      number of bytes copied. */
  datatype Stage =
    | NoChannel
    | ConnectFailed
    | NotReady
    | HeaderUnsent
    | HeaderRejected
    | FileUnreadable
    | FileSent(name: string, length: nat, copied: nat)

  /** The stage a transfer of `file` over `session` reaches, read off the
      session, the remote side's first two reply bytes, the failing write
      and the file. */
  function Progress(file: LocalFile, session: Session): Stage {
    match session.exec
    case Err(_) => NoChannel
    case Ok(channel) =>
      var replies := channel.replies;
      if channel.connectFailure.Some? then ConnectFailed
      else if |replies| == 0 || replies[0] != 0 then NotReady
      else if FailsAt(channel.writeFailure, 0) then HeaderUnsent
      else if |replies| == 1 || replies[1] != 0 then HeaderRejected
      else
        match file.contents
        case Unreadable(_, _) => FileUnreadable
        case Readable(data) =>
          FileSent(BaseName(file.path), |data|, BytesCopied(data, channel.writeFailure))
  }

  /** The lifecycle events of a transfer that reaches `stage`: the channel,
      once it exists, is opened for the sink command, connected unless that
      fails, and disconnected; only a file that is sent adds file events,
      between the connection and the disconnection. */
  function StageTrace(m: Message, stage: Stage): seq<Event> {
    var openChannel := ChannelOpened(Command(m.remotePath));
    match stage
    case NoChannel => []
    case ConnectFailed => [openChannel, ChannelDisconnected]
    case FileSent(name, length, copied) =>
      [openChannel, ChannelConnected] + FileTrace(m, name, length, copied) + [ChannelDisconnected]
    case _ => [openChannel, ChannelConnected, ChannelDisconnected]
  }

  /** The trace of doSingleTransfer is the lifecycle of the stage it
      reaches. */
  lemma TraceByStage(m: Message, file: LocalFile, session: Session)
    ensures DoSingleTransfer(m, file, session).trace == StageTrace(m, Progress(file, session))
  {
    if Connected(session) {
      var replies := session.exec.value.replies;
      if |replies| > 0 && replies[0] == 0 {
        var input := replies[1..];
        assert WaitForAck(replies).rest == input;
        SendFileTrace(m, file, input, session.exec.value.writeFailure);
      }
    }
  }

  /** Around events that do not touch the channel, a connected channel is
      opened first and disconnected last, each exactly once, and the counts
      of the file events are those of the middle part. */
  lemma ChannelBracket(cmd: string, steps: seq<Event>)
    requires ChannelOpened(cmd) !in steps && ChannelDisconnected !in steps
    ensures var t := [ChannelOpened(cmd), ChannelConnected] + steps + [ChannelDisconnected];
            && Occurrences(t, ChannelOpened(cmd)) == 1
            && Occurrences(t, ChannelDisconnected) == 1
            && Occurrences(t, FileOpened) == Occurrences(steps, FileOpened)
            && Occurrences(t, FileClosed) == Occurrences(steps, FileClosed)
  {
    var head := [ChannelOpened(cmd), ChannelConnected];
    var tail := [ChannelDisconnected];
    forall e
      ensures Occurrences(head, e) == (if e == ChannelOpened(cmd) || e == ChannelConnected then 1 else 0)
      ensures Occurrences(tail, e) == (if e == ChannelDisconnected then 1 else 0)
    {
      assert head == [ChannelOpened(cmd)] + [ChannelConnected];
      OccurrencesConcat([ChannelOpened(cmd)], [ChannelConnected], e);
      OccurrencesSingleton(ChannelOpened(cmd), e);
      OccurrencesSingleton(ChannelConnected, e);
      OccurrencesSingleton(ChannelDisconnected, e);
    }
    OccurrencesAbsent(steps, ChannelOpened(cmd));
    OccurrencesAbsent(steps, ChannelDisconnected);
    OccurrencesOfThree(head, steps, tail, ChannelOpened(cmd));
    OccurrencesOfThree(head, steps, tail, ChannelDisconnected);
    OccurrencesOfThree(head, steps, tail, FileOpened);
    OccurrencesOfThree(head, steps, tail, FileClosed);
  }

  /** Once the exec channel exists it is opened first, disconnected last,
      and each exactly once, whatever stage the transfer reaches; without a
      channel nothing is recorded. */
  lemma ChannelReleasedOnce(m: Message, stage: Stage)
    ensures var t := StageTrace(m, stage);
            var cmd := Command(m.remotePath);
            && (stage == NoChannel <==> |t| == 0)
            && (stage != NoChannel ==>
                  && t[0] == ChannelOpened(cmd) && t[|t| - 1] == ChannelDisconnected
                  && Occurrences(t, ChannelOpened(cmd)) == 1
                  && Occurrences(t, ChannelDisconnected) == 1)
  {
    var cmd := Command(m.remotePath);
    match stage
    case NoChannel =>
    case ConnectFailed =>
      assert StageTrace(m, stage) == [ChannelOpened(cmd)] + [ChannelDisconnected];
      OccurrencesConcat([ChannelOpened(cmd)], [ChannelDisconnected], ChannelOpened(cmd));
      OccurrencesConcat([ChannelOpened(cmd)], [ChannelDisconnected], ChannelDisconnected);
      OccurrencesSingleton(ChannelOpened(cmd), ChannelDisconnected);
      OccurrencesSingleton(ChannelDisconnected, ChannelOpened(cmd));
    case FileSent(name, length, copied) =>
      var files := FileTrace(m, name, length, copied);
      assert StageTrace(m, stage) == [ChannelOpened(cmd), ChannelConnected] + files + [ChannelDisconnected];
      FileTraceShape(m, name, length, copied);
      ChannelBracket(cmd, files);
    case _ =>
      ChannelBracket(cmd, []);
      assert StageTrace(m, stage) == [ChannelOpened(cmd), ChannelConnected] + [] + [ChannelDisconnected];
  }

  /** A transfer records nothing about the session, and a channel release
      is always its last event. */
  lemma NoSessionEvents(m: Message, stage: Stage)
    ensures var t := StageTrace(m, stage);
            && SessionOpened !in t && SessionDisconnected !in t
            && (ChannelDisconnected in t ==> t[|t| - 1] == ChannelDisconnected)
  {
    if stage.FileSent? {
      FileTraceShape(m, stage.name, stage.length, stage.copied);
    }
  }

  /** The local file is opened exactly when the transfer reaches FileSent,
      then exactly once, and closed exactly as often as it is opened: after
      the opening and before the channel goes away. */
  lemma FileClosedOnce(m: Message, stage: Stage)
    ensures var t := StageTrace(m, stage);
            && Occurrences(t, FileOpened) == Occurrences(t, FileClosed) == (if stage.FileSent? then 1 else 0)
            && (stage.FileSent? ==>
                  Before(t, FileOpened, FileClosed) && Before(t, FileClosed, ChannelDisconnected))
  {
    var t := StageTrace(m, stage);
    if stage.FileSent? {
      var cmd := Command(m.remotePath);
      var files := FileTrace(m, stage.name, stage.length, stage.copied);
      assert t == [ChannelOpened(cmd), ChannelConnected] + files + [ChannelDisconnected];
      FileTraceShape(m, stage.name, stage.length, stage.copied);
      ChannelBracket(cmd, files);
      assert t[2] == FileOpened && t[|t| - 2] == FileClosed && t[|t| - 1] == ChannelDisconnected;
    } else {
      OccurrencesAbsent(t, FileOpened);
      OccurrencesAbsent(t, FileClosed);
    }
  }

  /** All log output goes to the message's listener; a transfer that is
      not verbose logs nothing, and a verbose one that opens the file
      reports the bytes actually copied as the total, even when a write
      failed part way. */
  lemma LogsReachListener(m: Message, stage: Stage)
    ensures var t := StageTrace(m, stage);
            && AllLogsTo(t, m.listener)
            && (!m.verbose ==> Silent(t))
            && (m.verbose && stage.FileSent? ==> StatsLogged(m.listener, stage.copied) in t)
  {
    var t := StageTrace(m, stage);
    if stage.FileSent? {
      var head := [ChannelOpened(Command(m.remotePath)), ChannelConnected];
      var files := FileTrace(m, stage.name, stage.length, stage.copied);
      assert t == head + files + [ChannelDisconnected];
      FileTraceShape(m, stage.name, stage.length, stage.copied);
      LogsConcat(head, files, m.listener);
      LogsConcat(head + files, [ChannelDisconnected], m.listener);
    } else {
      LogsAtEachPosition(t, m.listener);
    }
  }

  /** `execute` records nothing about sessions, and any channel release in
      its trace is the last event. */
  lemma ExecuteTrace(m: Message, session: Session)
    ensures var t := Execute(m, session).trace;
            && SessionOpened !in t && SessionDisconnected !in t
            && (ChannelDisconnected in t ==> t[|t| - 1] == ChannelDisconnected)
  {
    if m.localFile.Some? {
      var file := m.localFile.value;
      TraceByStage(m, file, session);
      NoSessionEvents(m, Progress(file, session));
    }
  }

  /** A ten-byte file "dir/f.txt" sent to a peer that acknowledges all
      three checkpoints: the transfer completes, the wire carries the header
      for "f.txt" with size 10, the data and the trailing acknowledgement,
      and the file is sent under that name and length. */
  lemma TenByteTransferScenario(m: Message, data: seq<Byte>)
    requires |data| == 10
    ensures var file := LocalFile("dir/f.txt", Readable(data));
            var session := Session(Ok(Channel(None, [0, 0, 0], None)));
            var r := DoSingleTransfer(m, file, session);
            && r.outcome == Completed
            && r.sent == HeaderBytes(10, "f.txt") + data + [0]
            && r.unread == []
            && Progress(file, session) == FileSent("f.txt", 10, 10)
  {
    var file := LocalFile("dir/f.txt", Readable(data));
    var session := Session(Ok(Channel(None, [0, 0, 0], None)));
    BaseNameExample();
    TransferSucceedsIff(m, file, session);
  }

  /** A verbose transfer of a 3000-byte file whose second chunk write fails:
      the wire carries the header and the first 1024 bytes, the statistics
      report those 1024 bytes, and the file is still closed exactly once,
      before the channel is released. */
  lemma InterruptedCopyScenario(m: Message, data: seq<Byte>)
    requires m.verbose && |data| == 3000
    ensures var file := LocalFile("f.bin", Readable(data));
            var session := Session(Ok(Channel(None, [0, 0], Some(WriteFailure(2, "Broken pipe")))));
            var r := DoSingleTransfer(m, file, session);
            && r.outcome == Threw(IoException("Broken pipe"))
            && r.sent == HeaderFor(file) + data[..1024]
            && StatsLogged(m.listener, 1024) in r.trace
            && Occurrences(r.trace, FileClosed) == 1
            && Before(r.trace, FileClosed, ChannelDisconnected)
  {
    var file := LocalFile("f.bin", Readable(data));
    var session := Session(Ok(Channel(None, [0, 0], Some(WriteFailure(2, "Broken pipe")))));
    ChunkWriteFailure(m, file, session, 2, "Broken pipe");
    TraceByStage(m, file, session);
    var stage := Progress(file, session);
    FileClosedOnce(m, stage);
    LogsReachListener(m, stage);
  }

  /** "dir/f.txt" is sent under the name "f.txt". */
  lemma BaseNameExample()
    ensures BaseName("dir/f.txt") == "f.txt"
  {
    assert "dir/f.txt"[..8] == "dir/f.tx";
    assert "dir/f.tx"[..7] == "dir/f.t";
    assert "dir/f.t"[..6] == "dir/f.";
    assert "dir/f."[..5] == "dir/f";
    assert "dir/f"[..4] == "dir/";
  }

  /** `execute` without a local file opens no channel and writes nothing. */
  lemma ExecuteWithoutFile(m: Message, session: Session)
    requires m.localFile.None?
    ensures Execute(m, session) == Run(Completed, [], [], [])
  {
  }
}
