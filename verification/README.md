# SCP sink-mode upload, modelled in Dafny

This project models the upload path of a small JSch-based SCP client.
`Scp.upload` opens an SSH session and builds an `ScpToMessage` from the
client's configuration: remote directory, verbose flag and optional log
listener. It runs the message and always disconnects the session.

The message opens an exec channel running `scp -t <remotePath>` and waits
for the remote sink's readiness acknowledgement. It then sends the header
line `C0644 <size> <name>\n` and waits for its acknowledgement. Next it
copies the file through a 1024-byte buffer, sends a single zero byte, and
waits for the final acknowledgement. On every path the model covers, the
channel is disconnected and an opened file is closed.

The acknowledgement primitives of `AbstractSshMessage` are pure
functions. `waitForAck` maps the channel's unread input to an outcome and
the input left unread. `sendAck` appends the single byte 0 to what has
been written.

The model is functional:

- The channel's input is the sequence of bytes the remote side sends. End
  of stream is `-1`.
- Everything written to the channel is collected in `Run.sent`.
- Java exceptions are values (`Outcomes.Outcome`, `Outcomes.Failure`).
- The lifecycle of session, channel, local file and log listener is a
  trace of `Events.Event` values.

Modules, following the program's structure:

- `Outcomes`: option, result and exception values.
- `Text`: bytes, the character/byte conversions, and decimal rendering of
  numbers.
- `LocalFiles`: `java.io.File`'s `length()` and `getName()`.
- `AckProtocol`: `ACK`, `sendAck`, `waitForAck`, including the read loop as
  a method.
- `FileHeader`: the header control line and how a sink reads it.
- `Payload`: the buffered copy loop.
- `Events`: the lifecycle trace and counting over it.
- `ScpTo`: `ScpToMessage`, i.e. `execute`, `doSingleTransfer` and
  `sendFileToRemote`.
- `ScpClient`: the `Scp` configuration and `upload`.

A file that cannot be opened is still announced. The code calls
`localFile.length()`, which reports 0 when nothing exists at the path and
the size on disk when the file exists but is not readable. It writes the
header with that length, waits for the header's acknowledgement, and only
then fails when `FileInputStream` cannot open the file
(`ScpTo.FileOpenFailure`).

A write to the channel can fail with an IOException. The model names the
failing write by its position: the header, one of the file's chunks, or
the trailing acknowledgement. Provided the log calls return normally, the
`finally` blocks still log the bytes copied so far, close the file and
disconnect the channel.

## Model

| member | source | states |
|---|---|---|
| AckProtocol.SendAck | src/main/java/com/pressassociation/AbstractSshMessage.java:66-69 | exactly one byte, 0, is appended to what was written, and the earlier output is untouched |
| AckProtocol.WaitForAck | src/main/java/com/pressassociation/AbstractSshMessage.java:79-106 | succeeds iff the first byte is 0, and then consumes exactly that byte; end of stream fails with "No response from server" and leaves nothing; every failure is an SSHException; at least the code byte is consumed |
| AckProtocol.ReadDiagnostic | src/main/java/com/pressassociation/AbstractSshMessage.java:90-96 | the diagnostic is the longest prefix free of 0 and newline; the terminator that stops it is consumed and nothing after it is read; at end of stream nothing is left |
| AckProtocol.AckFailureMessages | src/main/java/com/pressassociation/AbstractSshMessage.java:89-104 | for a non-zero code the failure is "server indicated an error: ", "server indicated a fatal error: " or "unknown response, code <b> message: " followed by the diagnostic, for code 1, 2 and any other code; the input after the diagnostic is left unread |
| AckProtocol.SentAckIsAccepted | src/main/java/com/pressassociation/AbstractSshMessage.java:79-89 | the byte sendAck writes is accepted by a peer's waitForAck, which consumes only that byte |
| AckProtocol.ReadDiagnosticThrough | src/main/java/com/pressassociation/AbstractSshMessage.java:92-96 | a terminator-free diagnostic is read through in full and reading goes on with what follows |
| AckProtocol.DiagnosticReplyRead | src/main/java/com/pressassociation/AbstractSshMessage.java:89-104 | a non-zero code, terminator-free text and a newline fail with that code's message carrying the text, and consume exactly those bytes |
| AckProtocol.ReplyRoundTrip | src/main/java/com/pressassociation/AbstractSshMessage.java:79-106 | every well-formed reply (ack, error, fatal error, unknown code with a diagnostic) is decoded as its intended reaction, consuming exactly the reply |
| AckProtocol.DiskFullReply | src/main/java/com/pressassociation/AbstractSshMessage.java:98-99 | code 1 with "disk full" fails with "server indicated an error: disk full" |
| AckProtocol.ReadAck | src/main/java/com/pressassociation/AbstractSshMessage.java:79-106 | the imperative read loop, with a StringBuilder-style buffer, computes exactly WaitForAck's outcome and remaining input |
| Text.Decimal | src/main/java/com/pressassociation/ScpToMessage.java:76 | the decimal rendering of a size is a non-empty string of digits with no leading zero |
| Text.ParseDecimalOfDecimal | src/main/java/com/pressassociation/ScpToMessage.java:76 | the rendering loses nothing: parsing it back gives the number |
| Text.CharsOfLatin1 | src/main/java/com/pressassociation/ScpToMessage.java:80 | a string whose characters fit in one byte is read back unchanged from its bytes |
| LocalFiles.BaseNameIsLastSegment | src/main/java/com/pressassociation/ScpToMessage.java:74-77 | the name sent is the path's last segment: a suffix without '/', and either the whole path or preceded by '/' |
| FileHeader.HeaderLine | src/main/java/com/pressassociation/ScpToMessage.java:76-78 | the header starts with "C0644 ", ends with a newline, and is 8 characters longer than the decimal size and the name together; HeaderLineRoundTrip gives its content |
| FileHeader.HeaderLineRoundTrip | src/main/java/com/pressassociation/ScpToMessage.java:74-78 | a sink reading the header gets back mode 0644, the size and the name, for any name without a newline |
| FileHeader.HeaderBytesRoundTrip | src/main/java/com/pressassociation/ScpToMessage.java:76-80 | the same round trip holds for the bytes written to the channel, for names that fit in one byte per character |
| FileHeader.ReportHeaderExample | src/main/java/com/pressassociation/ScpToMessage.java:76-78 | a 4096-byte report.xml is announced as "C0644 4096 report.xml\n" |
| Payload.ReadCount | src/main/java/com/pressassociation/ScpToMessage.java:96-98 | a read returns -1 exactly at end of file, and otherwise between 1 and 1024 bytes, short only at the end |
| Payload.Chunks | src/main/java/com/pressassociation/ScpToMessage.java:87-102 | every chunk the loop writes is non-empty and at most one buffer long |
| Payload.ChunksReassemble | src/main/java/com/pressassociation/ScpToMessage.java:95-102 | the chunks written one after the other are exactly the file, and their total is the file's length |
| Payload.ChunksCounted | src/main/java/com/pressassociation/ScpToMessage.java:95-102 | the loop writes one chunk per 1024 bytes of the file, rounding up |
| Payload.ChunksPrefix | src/main/java/com/pressassociation/ScpToMessage.java:95-102 | after j chunk writes the wire holds exactly the first j buffers of the file, or all of it, and totalLength counts exactly those bytes |
| Payload.ReadInto | src/main/java/com/pressassociation/ScpToMessage.java:96 | a read fills the buffer's prefix with the next bytes of the file, as many as ReadCount says |
| Payload.CopyPayload | src/main/java/com/pressassociation/ScpToMessage.java:87-102 | the copy loop appends exactly the file's bytes to the output, with no truncation or padding, and totalLength is the file's length |
| ScpTo.NewMessage | src/main/java/com/pressassociation/ScpToMessage.java:25-29 | a new message holds the given file, path and verbosity and logs to the silent default listener |
| ScpTo.SetLogListener | src/main/java/com/pressassociation/AbstractSshMessage.java:121-123 | the listener is replaced and nothing else changes |
| ScpTo.Command | src/main/java/com/pressassociation/ScpToMessage.java:55 | the command is "scp -t " followed by the unquoted remote path |
| ScpTo.TransferSucceedsIff | src/main/java/com/pressassociation/ScpToMessage.java:54-113 | a transfer completes iff the channel connects, the file is readable, no write fails and all three checkpoints are acknowledged; then the output is header, file bytes, 0, in that order, and exactly three input bytes were consumed |
| ScpTo.ReadyAckFailure | src/main/java/com/pressassociation/ScpToMessage.java:62-65 | if the readiness acknowledgement fails, that failure propagates, nothing is written and the file is never opened |
| ScpTo.HeaderAckFailure | src/main/java/com/pressassociation/ScpToMessage.java:80-86 | if the header's acknowledgement fails, that failure propagates, only the header was written and the file is never opened |
| ScpTo.HeaderWriteFailure | src/main/java/com/pressassociation/ScpToMessage.java:80-83 | if writing the header fails, the IOException propagates, nothing reached the wire, the header's acknowledgement is never read and the file is never opened |
| ScpTo.SendContentsSucceedsIff | src/main/java/com/pressassociation/ScpToMessage.java:91-112 | once the file is open, the rest completes iff every chunk write and the trailing write succeed and the final acknowledgement arrives; with every write succeeding, the file's bytes and a 0 follow the header and the final waitForAck decides the outcome |
| ScpTo.ChunkWriteFailure | src/main/java/com/pressassociation/ScpToMessage.java:95-112 | if the write of chunk k fails, the IOException propagates, the wire carries the header and exactly the first k - 1 buffers of the file, the final acknowledgement is never awaited, and the file still reaches the closing stage with that many bytes reported |
| ScpTo.AckWriteFailure | src/main/java/com/pressassociation/ScpToMessage.java:103-112 | if writing the trailing acknowledgement fails, the header and the whole file are on the wire, the final acknowledgement is never awaited, and the fully copied file is closed |
| ScpTo.FileOpenFailure | src/main/java/com/pressassociation/ScpToMessage.java:75-86 | a file that cannot be opened is announced with the length File.length() reports for it, and once the header is acknowledged the transfer fails with the opening error, having written only that header |
| ScpTo.FinalAckFailure | src/main/java/com/pressassociation/ScpToMessage.java:95-111 | if the final acknowledgement fails after every write succeeded, that failure propagates, the header, the whole file and the trailing 0 were written, and the transfer reached the stage where the fully copied file is closed |
| ScpTo.FileTraceShape | src/main/java/com/pressassociation/ScpToMessage.java:86-112 | an opened file is opened first and closed last, once each, with only log output to the message's listener in between: the "Sending: name : length" announcement and the total when verbose, nothing otherwise |
| ScpTo.SendFileTrace | src/main/java/com/pressassociation/ScpToMessage.java:80-112 | the file events are recorded exactly when the header was written and accepted and the file could be opened, announcing the file's length and reporting the bytes actually copied |
| ScpTo.TraceByStage | src/main/java/com/pressassociation/ScpToMessage.java:54-71 | the trace of a transfer is the lifecycle of the stage it reaches, which depends only on the session, the first two reply bytes, the failing write and the file |
| ScpTo.ChannelBracket | src/main/java/com/pressassociation/ScpToMessage.java:56-70 | around events that do not touch the channel, the channel is opened and disconnected once each, and file events are counted as in the middle part |
| ScpTo.ChannelReleasedOnce | src/main/java/com/pressassociation/ScpToMessage.java:56-70 | once the exec channel exists, it is opened first and disconnected last, once each, at every stage, including a failed connect, a rejected acknowledgement and a failed write; with no channel nothing is recorded |
| ScpTo.FileClosedOnce | src/main/java/com/pressassociation/ScpToMessage.java:86-112 | the file is opened iff the transfer gets past the header acknowledgement and the file is readable, and then it is opened and closed once each, closed after opening and before the channel is released, whether the copy, the trailing write or the final acknowledgement fails or not |
| ScpTo.NoSessionEvents | src/main/java/com/pressassociation/ScpToMessage.java:54-71 | a transfer touches no session, and a channel release is its last event |
| ScpTo.LogsReachListener | src/main/java/com/pressassociation/ScpToMessage.java:92-110 | all log output goes to the message's listener; a quiet transfer logs nothing; a verbose one that opens the file reports the bytes actually copied as the total, even after a failed write |
| ScpTo.ExecuteTrace | src/main/java/com/pressassociation/ScpToMessage.java:48-52 | execute records no session events, and a channel release is its last event |
| ScpTo.ExecuteWithoutFile | src/main/java/com/pressassociation/ScpToMessage.java:48-52 | with a null file, execute completes, opens no channel and writes nothing |
| ScpTo.TenByteTransferScenario | src/main/java/com/pressassociation/ScpToMessage.java:54-113 | sending ten bytes from "dir/f.txt" to a peer that acknowledges three times writes the header for "f.txt" with size 10, the bytes and a 0, and consumes all replies |
| ScpTo.InterruptedCopyScenario | src/main/java/com/pressassociation/ScpToMessage.java:95-112 | a verbose transfer of 3000 bytes whose second chunk write fails writes the header and the first 1024 bytes, reports 1024 bytes, and closes the file once, before the channel is released |
| ScpTo.BaseNameExample | src/main/java/com/pressassociation/ScpToMessage.java:77 | "dir/f.txt" is sent as "f.txt" |
| ScpClient.SetRemoteDirectory | src/main/java/com/pressassociation/Scp.java:28-30 | a null directory throws NullPointerException and the configuration is unchanged; any other value is stored as given; the other settings are untouched |
| ScpClient.SetListener | src/main/java/com/pressassociation/SSHBase.java:177-179 | a null listener throws NullPointerException and the configuration is unchanged; any other becomes the configured listener; the other settings are untouched |
| ScpClient.SetVerbose | src/main/java/com/pressassociation/SSHBase.java:62-64 | the verbose flag is set and nothing else changes |
| ScpClient.MessageCarriesConfiguration | src/main/java/com/pressassociation/Scp.java:43-46 | the message gets the configured listener iff one is configured, otherwise the silent default, and it gets the configured directory and verbosity |
| ScpClient.SessionReleasedOnce | src/main/java/com/pressassociation/Scp.java:40-52 | an opened session is disconnected exactly once, as the last event, whatever the transfer does, including every modelled failure; the transfer's outcome and traffic pass through unchanged, and a channel is released before the session |
| ScpClient.SessionFailurePropagates | src/main/java/com/pressassociation/Scp.java:40-52 | if the session cannot be opened, the failure propagates and nothing else happens, not even a disconnect |
| ScpClient.ListenerPropagation | src/main/java/com/pressassociation/Scp.java:43-47 | every log event the transfer of an upload records reaches the configured listener, or the silent default; a transfer that is not verbose logs nothing |
| ScpClient.UploadCommand | src/main/java/com/pressassociation/Scp.java:43 | the channel an upload opens runs "scp -t " followed by the configured remote directory |
| ScpClient.DefaultDirectory | src/main/java/com/pressassociation/Scp.java:13-30 | a fresh client targets "."; a rejected null keeps it, and the command is "scp -t ." |
| ScpClient.UploadWithoutFile | src/main/java/com/pressassociation/Scp.java:39-53 | uploading a null file opens and disconnects the session and does nothing else |

## Left out

- Opening the session (`SSHBase.openSession`, host keys, credentials and `SSHUserInfo`) is not part of this model. It is a parameter that yields a session or fails with the transport's message.
- The JSch session and channel are reduced to what the transfer observes. Asking for an exec channel may fail. `connect()` may fail. The channel carries scripted reply bytes, and one of its writes may fail. Whatever the remote side would compute is not modelled.
- A failing write is taken to put none of its bytes on the wire. A failed flush is not a separate failure point. The flush after the header (ScpToMessage.java:81) takes the path of a failed header write. The flush after the copy (line 103) takes the path of a failed trailing acknowledgement.
- An IOException from reading the channel's input is not modelled. It would take the path of a failed acknowledgement at that point, with an IOException instead of an SSHException.
- An IOException from `fis.read` is not modelled. It would take the path of a failed chunk write: the copy stops, the bytes so far are reported, and the file is closed.
- Exceptions from `getOutputStream`/`getInputStream`, `fis.close` and `disconnect` are not modelled. Those calls always succeed in the model. On a failing path, a throwing `close` or `disconnect` would only replace the exception in flight. On the success path, a `fis.close` that throws after the final acknowledgement (ScpToMessage.java line 111) would turn a completed transfer into an IOException. The model does not represent that outcome.
- `logStats` (durations, floating-point rates, `NumberFormat` and locale) and `System.currentTimeMillis` are left out. Timing and formatting have no protocol meaning. The stats message is the event `StatsLogged(listener, totalLength)`.
- Text.Latin1: the platform default charset of `String.getBytes()` is taken to be ISO-8859-1, so a name with characters above U+00FF is not encoded as the platform would encode it.
- LocalFiles.BaseName: `java.io.File` path normalisation (separators other than '/', trailing separators) is not modelled. The name is the text after the last '/'.
- The file is assumed not to change during the upload. For a readable file, `length()` and the bytes read are taken from the same contents.
- Payload.ReadCount: `FileInputStream.read` may return fewer bytes than the buffer and the file allow. The model reads a full buffer until the last chunk. When no write fails, the bytes written are the same. When a write fails, the model's chunk k starts at byte (k - 1) * 1024.
- ScpTo.TransferSucceedsIff: the `long` counters (file size, `totalLength`) are unbounded. Overflow past 2^63 - 1 bytes is not modelled.
- AckProtocol.WaitForAck: its contract does not name the three failure messages. AckFailureMessages states them per code, and ReplyRoundTrip states them for every well-formed reply.
- Log calls are recorded as trace events naming their listener. The listener's own behaviour is external code.
- ScpTo.FileClosedOnce: assumes every log call returns normally. In the code, `logStats` (ScpToMessage.java line 109) runs before `fis.close()` (line 111) in the same `finally` block. A listener that throws from `log` (AbstractSshMessage.java line 155) therefore skips the close and leaves the stream open. The model does not represent a throwing listener.
- ScpClient.ListenerPropagation: the messages `openSession` itself logs ("Using known hosts", "Connecting to host:port", and JSch's own log when verbose) are part of opening the session, which is not modelled, so they are not in the trace.
