/** The upload front end (Scp): its configuration, and one upload that
    opens a session, runs a transfer on it and always disconnects it. */
module ScpClient {
  import opened Outcomes
  import opened Text
  import opened LocalFiles
  import opened Events
  import opened AckProtocol
  import opened FileHeader
  import opened ScpTo

  /** The configuration an upload uses: the remote target directory, the
      verbose flag and the optional log listener. Host, port and credentials
      only matter to opening the session, which is abstract here. */
  datatype Scp = Scp(remoteDirectory: string, verbose: bool, listener: Option<Listener>)

  /** A fresh client: uploads go to the login directory, quietly, with no
      listener. */
  function NewScp(): Scp {
    Scp(".", false, None)
  }

  /** The result of a configuration call: whether it threw, and the
      configuration afterwards. */
  datatype Configured = Configured(outcome: Outcome, scp: Scp)

  /** `setRemoteDirectory`: a null directory is refused with a
      NullPointerException and the previous one stays; any other value is
      stored exactly as given. */
  function SetRemoteDirectory(scp: Scp, dir: Option<string>): (c: Configured)
    ensures c.outcome.Completed? <==> dir.Some?
    ensures dir.None? ==> c.outcome == Threw(NullPointerException) && c.scp == scp
    ensures dir.Some? ==> c.scp.remoteDirectory == dir.value
    ensures c.scp.verbose == scp.verbose && c.scp.listener == scp.listener
  {
    match dir
    case None => Configured(Threw(NullPointerException), scp)
    case Some(d) => Configured(Completed, scp.(remoteDirectory := d))
  }

  /** `setListener`: configure the log listener. `Optional.of` refuses a
      null listener with a NullPointerException and the previous one stays;
      any other listener becomes the configured one. */
  function SetListener(scp: Scp, l: Option<Listener>): (c: Configured)
    ensures c.outcome.Completed? <==> l.Some?
    ensures l.None? ==> c.outcome == Threw(NullPointerException) && c.scp == scp
    ensures l.Some? ==> c.scp.listener == l
    ensures c.scp.remoteDirectory == scp.remoteDirectory && c.scp.verbose == scp.verbose
  {
    match l
    case None => Configured(Threw(NullPointerException), scp)
    case Some(_) => Configured(Completed, scp.(listener := l))
  }

  /** `setVerbose`: configure the verbose flag. */
  function SetVerbose(scp: Scp, verbose: bool): (s: Scp)
    ensures s.verbose == verbose
    ensures s.remoteDirectory == scp.remoteDirectory && s.listener == scp.listener
  {
    scp.(verbose := verbose)
  }

  /** The listener a message built from this configuration ends up with. */
  function EffectiveListener(scp: Scp): Listener {
    match scp.listener
    case Some(l) => l
    case None => NoOpListener
  }

  /** The transfer message upload builds: the file, the configured target
      directory and verbosity, and the configured listener if there is one. */
  function MessageFor(scp: Scp, file: Option<LocalFile>): Message {
    var message := NewMessage(file, scp.remoteDirectory, scp.verbose);
    if scp.listener.Some? then SetLogListener(message, scp.listener.value) else message
  }

  /** `upload`: open a session (which may fail, with the transport's
      message), run the transfer on it, and disconnect the session whatever
      the transfer did. A session that was never opened is not disconnected. */
  function Upload(scp: Scp, file: Option<LocalFile>, openSession: Result<Session>): Run {
    match openSession
    case Err(reason) => Run(Threw(JschException(reason)), [], [], [])
    case Ok(session) =>
      var r := Execute(MessageFor(scp, file), session);
      r.(trace := [SessionOpened] + r.trace + [SessionDisconnected])
  }

  /** The message carries the configured listener when there is one and
      keeps the silent default otherwise; target and verbosity come from the
      configuration. */
  lemma MessageCarriesConfiguration(scp: Scp, file: Option<LocalFile>)
    ensures var m := MessageFor(scp, file);
            && (scp.listener.Some? ==> m.listener == scp.listener.value)
            && (scp.listener.None? ==> m.listener == NoOpListener)
            && m.localFile == file && m.remotePath == scp.remoteDirectory && m.verbose == scp.verbose
  {
  }

  /** Once the session is open it is disconnected exactly once, as the
      last step, whether the transfer succeeds or fails; the transfer's
      outcome and wire traffic are passed on unchanged, and any channel is
      released before the session. */
  lemma SessionReleasedOnce(scp: Scp, file: Option<LocalFile>, session: Session)
    ensures var r := Upload(scp, file, Ok(session));
            && r.trace[0] == SessionOpened
            && r.trace[|r.trace| - 1] == SessionDisconnected
            && Occurrences(r.trace, SessionOpened) == 1
            && Occurrences(r.trace, SessionDisconnected) == 1
            && (ChannelDisconnected in r.trace ==> Before(r.trace, ChannelDisconnected, SessionDisconnected))
    ensures var r := Upload(scp, file, Ok(session));
            var e := Execute(MessageFor(scp, file), session);
            r.outcome == e.outcome && r.sent == e.sent && r.unread == e.unread
  {
    var r := Upload(scp, file, Ok(session));
    var e := Execute(MessageFor(scp, file), session).trace;
    ExecuteTrace(MessageFor(scp, file), session);
    assert r.trace == [SessionOpened] + e + [SessionDisconnected];
    OccurrencesAbsent(e, SessionOpened);
    OccurrencesAbsent(e, SessionDisconnected);
    OccurrencesOfThree([SessionOpened], e, [SessionDisconnected], SessionOpened);
    OccurrencesOfThree([SessionOpened], e, [SessionDisconnected], SessionDisconnected);
    OccurrencesSingleton(SessionOpened, SessionDisconnected);
    OccurrencesSingleton(SessionDisconnected, SessionOpened);
    if ChannelDisconnected in r.trace {
      assert ChannelDisconnected in e;
      assert r.trace[|r.trace| - 2] == e[|e| - 1];
    }
  }

  /** If the session cannot be opened, the failure propagates and nothing
      else happens: no channel, no bytes, no disconnect. */
  lemma SessionFailurePropagates(scp: Scp, file: Option<LocalFile>, reason: string)
    ensures Upload(scp, file, Err(reason)) == Run(Threw(JschException(reason)), [], [], [])
  {
  }

  /** Every log event of an upload reaches the configured listener, or the
      silent default when none is configured; a transfer that is not verbose
      logs nothing. */
  lemma ListenerPropagation(scp: Scp, file: Option<LocalFile>, openSession: Result<Session>)
    ensures AllLogsTo(Upload(scp, file, openSession).trace, EffectiveListener(scp))
    ensures !scp.verbose ==> Silent(Upload(scp, file, openSession).trace)
  {
    if openSession.Ok? {
      var m := MessageFor(scp, file);
      var inner := Execute(m, openSession.value).trace;
      var t := Upload(scp, file, openSession).trace;
      assert t == [SessionOpened] + inner + [SessionDisconnected];
      if file.Some? {
        TraceByStage(m, file.value, openSession.value);
        LogsReachListener(m, Progress(file.value, openSession.value));
      }
      LogsConcat([SessionOpened], inner, EffectiveListener(scp));
      LogsConcat([SessionOpened] + inner, [SessionDisconnected], EffectiveListener(scp));
    }
  }

  /** The channel an upload opens runs the sink command for the configured
      remote directory. */
  lemma UploadCommand(scp: Scp, file: LocalFile, session: Session)
    requires session.exec.Ok?
    ensures Upload(scp, Some(file), Ok(session)).trace[1] == ChannelOpened("scp -t " + scp.remoteDirectory)
  {
    var m := MessageFor(scp, Some(file));
    TraceByStage(m, file, session);
    ChannelReleasedOnce(m, Progress(file, session));
  }

  /** A fresh client targets "."; setting a null directory keeps it, and
      the command then still aims at ".". */
  lemma DefaultDirectory(file: LocalFile, session: Session)
    requires session.exec.Ok?
    ensures NewScp().remoteDirectory == "."
    ensures SetRemoteDirectory(NewScp(), None).scp.remoteDirectory == "."
    ensures Upload(NewScp(), Some(file), Ok(session)).trace[1] == ChannelOpened("scp -t .")
  {
    UploadCommand(NewScp(), file, session);
  }

  /** Uploading without a file still opens and disconnects the session but
      opens no channel and writes nothing. */
  lemma UploadWithoutFile(scp: Scp, session: Session)
    ensures Upload(scp, None, Ok(session)) == Run(Completed, [], [], [SessionOpened, SessionDisconnected])
  {
  }
}
