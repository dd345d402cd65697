# Verified model of the AnyTLS session layer and the tunnel parsers

This project models, in Dafny, the parts of the repository that decide whether bytes and
connections survive: the AnyTLS session layer in `anytls/`, and the hand-written protocol code of the
tunnel core in `core/aether/src/`. `dafny verify dfyconfig.toml` checks all of it.

Code that changes state step by step is written as classes and methods with loops, each proved
against a function or predicate of its inputs. Concurrent code is written as a step relation: one step
is what one thread does between two points where another may run (a lock section, the winner's part of
a `Once`, a channel handoff, a timer). "In every run" below means for every finite sequence of steps,
and so every interleaving.

| module | what it models |
|---|---|
| `Bytes`, `Varint` | big-endian integers, sequences, QUIC variable-length integers (section 16 of RFC 9000) |
| `StringMap`, `Padding`, `SchemeText` | the settings text, the padding scheme, the sizes drawn from it, and its text read back |
| `Frames`, `Records`, `Writer`, `PacketLines` | frames, the cut of a write into padded records, the start-up buffer and the connection, and which line of the scheme cuts which write |
| `Receiver`, `Commands`, `Handshake` | the receive loop with every command, what the commands do to a session field by field, and the exchange of settings |
| `Traces`, `Delivery`, `Multiplex`, `ClientToServer`, `Duplex`, `StreamLife`, `EagerServer` | client session, wire and server loop as one system, in both directions: the end-to-end theorems, when a stream is there and open in terms of the steps of a run, and what a server loses that writes too soon |
| `Pipe`, `PipeCalls`, `Deadline` | the synchronous pipe under a stream, its single calls, and its replaceable deadline channel |
| `LoopPipe`, `EndToEnd`, `EndToEndDown` | a stream's pipe as the receive loop writes it, and the end-to-end theorems carried through it to the last reader, on the server and on the client |
| `Lifecycle`, `SessionEvents`, `Watchdog` | closing against opening streams, what has run and what is in the map in terms of the steps, and the stream-open watcher |
| `IdleList`, `Pool`, `PoolEvents` | the idle list as a class, the pool under concurrency, and when a session is returned and idle |
| `Capsules`, `Sent`, `Datagram` | CONNECT-IP capsules (RFC 9297, RFC 9484), what each means on the wire, and HTTP/3 datagrams |
| `Checksum`, `Dns`, `DnsReply` | UDP over IPv4 with Internet checksums (RFC 1071), and the DNS probe carried in it |
| `Sni`, `HttpHead` | the ClientHello scanner, and the chunked search for the end of a request head |
| `Mim` | the nested tunnel's reconnect loop and its blame of the two hops |

## Assumptions

- A frame carries at most 65535 bytes of data and a padding size is a check mark or lies in 1..65535;
  beyond that the 16-bit length field wraps. `Frames.RoundTripIffWellFramed` shows the bound is exact,
  and `Padding.SchemeDrawsFit` gives the condition on a scheme.
- A connection that failed a write stays broken. A session opens fewer than 2^32 streams.
- The digest of a scheme (MD5 in the source) is an arbitrary function.
- Time, randomness, dial results and what the peer sends are arbitrary choices of a step or parameters.

## What the proofs found

- The count `writeConn` returns for a successful write is the length of its argument plus whatever the
  start-up buffer held (anytls/proxy/session/session.go:424-426, 486): it equals the input length
  exactly when that buffer was empty or the session is still buffering. Both callers ignore the count.
- `OpenStream` puts a stream into the client's map only after it sent the SYN
  (anytls/proxy/session/session.go:157-168). A server that answers before it has read anything from the
  stream can lose its first bytes, and the client then sees the later ones. One that reads first cannot,
  and the repository's own server does (anytls/cmd/server/inbound_tcp.go:70).
- After `Close`'s sweep an id can come back into the stream map, because the SYN branch
  (anytls/proxy/session/session.go:216-228) does not look whether the session died: the map stays empty
  exactly in the runs in which no SYN is handled after the sweep. And a SYN under an id the client uses
  next can take the client's own stream out of the map before the sweep: an inserted stream stays
  accounted for, however the run goes on, exactly when at its insertion every other stream with its id
  is past its removal from the map. So only a SYN naming the id before the insertion can do harm.
- A watcher that was cancelled by a SYNACK can still close the session (anytls/util/deadline.go:13-17):
  when its goroutine had already left the select by the timeout case, or when the select itself chooses
  the timeout although the cancellation is there as well.
- A stream that is closed, and gets to its hook, before `CreateStream` has assigned that hook
  (anytls/proxy/session/client.go:98-110) leaves an open session that is never idle nor lent again.
- A closed session can come back to the idle list (anytls/proxy/session/client.go:111-128): exactly in
  the runs in which a stream returns it after its own hook has run.
- The QUIC carrier pushes every read of one poll before it drains (core/aether/src/quic.rs:774-780), and
  `push` drops everything when the cap is passed: five full reads in one poll are lost,
  although each of them is a whole capsule well below the cap.
- A bare IP packet that starts 0x40 0x00, followed by something that again looks like a packet, loses
  those two bytes (core/aether/src/masque.rs:124-135).
- `build_udp_ipv4` cuts its two length fields to 16 bits: the IPv4 total length is right up to 65507
  payload bytes, the UDP length, the UDP checksum and the parser up to 65527.
- The nested loop's warning speaks of failures "in a row", but an inner failure between two outer ones
  does not reset the counter; and its comment says that the remembered inner edge goes first, which
  holds only if the pool does not hold it further back (core/aether/src/main.rs:3787-3825).

## Model

| member | source | states |
|---|---|---|
| ClientToServer.DeliveredIsPrefixOfWritten | anytls/proxy/session/session.go:135-208 | in every run of one client session against the server's loop, with any padding drawn, any interleaving of opens, writes and closes on any streams, and the connection breaking anywhere, the bytes handed to a stream are a prefix of the bytes written on that stream |
| ClientToServer.AllWrittenIsDelivered | anytls/proxy/session/session.go:195-203 | once the server has read the whole of an unbroken wire and the start-up buffer is flushed, a stream whose pipe is open has received everything written on it |
| StreamLife.UndisturbedGetsAll | anytls/proxy/session/session.go:135-228 | in terms of the steps alone: once an unbroken, flushed wire is read, a stream whose SYN was submitted, and which no FIN, delete, pipe close or short push disturbed after it was opened, is open on the server and has been handed exactly the bytes of the client's writes on it |
| StreamLife.InMapIff | anytls/proxy/session/session.go:209-259 | in every run a stream is in the server's map if and only if its SYN was handled and since then neither a FIN for it was handled nor the server deleted it |
| StreamLife.OpenIff | anytls/proxy/session/session.go:195-228 | and its pipe is open if and only if, besides, nobody closed it and it took every push in full |
| StreamLife.SubmittedIs | anytls/proxy/session/session.go:81-171 | in every run the frames submitted are one for each start, open, write, close and answer of the client, in order |
| EndToEnd.ReadIsPrefixOfWritten | anytls/proxy/session/session.go:195-203 | with the stream's pipe and its readers in the system: in every run the bytes that reads on the server returned are a prefix of the bytes the client wrote on the stream |
| EndToEnd.AllWrittenIsRead | anytls/proxy/pipe/io_pipe.go:52-106 | once an unbroken wire is read, the buffer flushed and the loop in no write, a stream whose pipe is open has had exactly the bytes written on it read |
| EndToEndDown.ReadIsPrefixOfWritten | anytls/proxy/session/session.go:195-203 | the same towards the client, beside all its own traffic: if the server wrote on the stream only while the client had it in its map, the bytes that the client's reads returned are a prefix of the bytes the server wrote on it, and exactly those once an unbroken wire is read, the loop is in no write and the pipe is open |
| EndToEndDown.PatientServerIsRead | anytls/cmd/server/inbound_tcp.go:70 | and so they are whenever the server reads from the stream before it writes on it |
| LoopPipe.MoveKeeps | anytls/proxy/pipe/io_pipe.go:80-106 | whatever readers, closes and deadlines do while the loop writes a push, the pipe has consumed what came before it and the push stands where its write stands |
| LoopPipe.PushCanBegin | anytls/proxy/pipe/io_pipe.go:82-92 | between pushes the loop can always turn to the next one, whose data is then what is written, whole, or refused if the pipe is closed |
| LoopPipe.ReadSoFar | anytls/proxy/pipe/io_pipe.go:52-106 | what was read from the pipe is a prefix of the stream's payload at any time, and what the loop handed over between its writes |
| ClientToServer.PaddingIsTransparent | anytls/proxy/session/session.go:418-493 | at every point of every unbroken run, the frames parsed from all bytes sent, without waste frames, followed by those in the start-up buffer, are exactly the frames submitted, and so are their encodings |
| Duplex.DeliveredIsPrefixOfWritten | anytls/proxy/session/session.go:135-208 | the other direction, beside the whole first one, stream by stream: if the server wrote on a stream only while the client had it in its map, the bytes the client's loop hands to it are a prefix of the bytes the server wrote on it, all of them once an unbroken wire is read and the pipe is open |
| Duplex.PatientServerIsSafe | anytls/cmd/server/inbound_tcp.go:70 | a server that writes on a stream only after reading something from it never writes too soon, so the same holds |
| StreamLife.InClientsMapIff | anytls/proxy/session/session.go:157-171 | on the client, whatever the server sends: a stream is in the map if and only if OpenStream inserted it and since then no FIN, no error acknowledgement while its pipe was open, and no delete of its own side came |
| StreamLife.OpenThereIff | anytls/proxy/session/session.go:195-259 | the same for its pipe, with pipe closes and short pushes |
| StreamLife.SentIs | anytls/proxy/session/session.go:378-406 | the frames the server sent are one for each of its writes and control frames, in order, up to where the connection broke |
| StreamLife.UndisturbedGetsAllBack | anytls/proxy/session/session.go:157-208 | an undisturbed stream that was inserted before the server wrote on it has been handed exactly the bytes of the server's writes on it, once the client has read an unbroken wire |
| EagerServer.EagerServerLosesBytes | anytls/proxy/session/session.go:157-171 | from every fresh session and for all settings and data: a run in which the server writes that data on a stream the client is just opening, and the client gets later bytes without it |
| EagerServer.WritingTooSoonCanLoseBytes | anytls/proxy/session/session.go:157-171 | every run so far in which the server knows a stream the client has not put into its map, on an unbroken wire the client has read, goes on so that a write on that stream is lost and later bytes arrive |
| Duplex.StepKeepsInv | anytls/proxy/session/session.go:135-406 | one step of either side keeps the invariant of both directions, for every stream the server does not write on too soon |
| ClientToServer.BrokenWireIsPrefix | anytls/proxy/session/session.go:441-491 | whatever a failed write left on the wire, its complete frames without padding are still a prefix of the frames submitted |
| ClientToServer.NoMissingSettingsAlert | anytls/proxy/session/session.go:209-215 | at every frame the server reads in every run: a SYN finds the settings received, so the alert branch is never entered, and the first frame is the settings |
| ClientToServer.SettingsComeFirst | anytls/proxy/session/session.go:81-97 | the first frame on the wire is the client's settings and no alert was written |
| Multiplex.StepKeepsInv | anytls/proxy/session/session.go:135-493 | one step of any thread keeps the invariant that ties wire, buffer, traces and the server's streams together |
| Traces.NonWasteFacts | anytls/proxy/session/session.go:260-267 | dropping waste frames changes neither the streams announced, nor any stream's payload, nor whether each stream is announced once and before its data |
| Traces.NoPayloadBeforeAnnounced | anytls/proxy/session/session.go:157-168 | in an orderly frame sequence a stream that was never announced carries no payload |
| Frames.ParseAllPrefix | anytls/proxy/session/session.go:187-366 | on any delivered prefix of an encoded frame sequence the complete frames read are a prefix of those sent, their bytes a prefix of those delivered, and all are read once every byte is there |
| Frames.RoundTripIffWellFramed | anytls/proxy/session/session.go:378-406 | a frame is read back exactly when its data fits 16 bits and its command is one that reads data |
| Records.CutCarriesPayload | anytls/proxy/session/session.go:432-487 | for all payloads and sizes, the records concatenate to the payload followed by whole waste frames |
| Records.RecordLengths | anytls/proxy/session/session.go:432-481 | the length of the record each size makes, from the payload left: l if r > l or 0 < r < l-7, r if l-7 <= r <= l, l+7 if r = 0 |
| Records.LeftoverLength | anytls/proxy/session/session.go:482-487 | a record past all the sizes is the last, and is exactly the payload the sizes left |
| Records.RecordCount | anytls/proxy/session/session.go:434-440 | there are as many records as sizes before the first check mark reached with no payload left; without one, as many as sizes, and one more exactly if payload is left |
| Writer.ClientSession.WriteConn | anytls/proxy/session/session.go:418-493 | the sizes of a padded write are drawn from the scheme's line for the packet just counted; the new buffer, padding switch and counter, and what the connection took: all the attempted records, or a prefix of their bytes if it broke; the returned count with the flushed buffer |
| PacketLines.LineByNumber | anytls/proxy/session/session.go:432-435 | in every run of a session's writes under changing schemes: the n-th write that goes out is padded if and only if no write up to it reached the stop of its scheme; then it is cut at sizes drawn from line n of the scheme in force, otherwise it is one plain record |
| PacketLines.OneScheme | anytls/proxy/session/session.go:432-490 | while the scheme stays the same, exactly the writes numbered below its stop are padded |
| Writer.ClientSession.WriteRecords | anytls/proxy/session/session.go:433-487 | the loop over the sizes hands the connection exactly the records of the cut, or a prefix of their bytes, and counts the payload without the padding |
| Writer.ClientSession.WriteControlFrame | anytls/proxy/session/session.go:395-416 | writes the frame's encoding, returns its data length, and closes the session exactly when the write fails |
| Writer.ClientSession.WriteDataFrame | anytls/proxy/session/session.go:378-393 | writes a push frame and returns the length of the data, or 0 on failure, without closing the session |
| Writer.ClientSession.Run | anytls/proxy/session/session.go:81-98 | the settings frame is the first thing in the start-up buffer and nothing is sent |
| Receiver.Session.RecvLoop | anytls/proxy/session/session.go:174-365 | the loop handles a prefix of the frames the input parses to, all of them unless one makes it return or it finds the session closed before reading the next; its state is the fold of the handlers over them, and the session ends closed |
| Commands.StreamsAfter | anytls/proxy/session/session.go:193-259 | for every frame and stream: it is in the map afterwards exactly if an accepted SYN opened it, or it was there and neither a FIN nor an error acknowledgement removed it; and open exactly if, besides, its pipe took all of a push |
| Commands.SynOpens | anytls/proxy/session/session.go:209-228 | an accepted SYN puts its stream into the map with an open pipe and nothing handed over, and touches nothing else; one for a stream already there changes nothing |
| Commands.AnswersAndEnds | anytls/proxy/session/session.go:209-365 | for every frame: the frames the loop writes are its replies as far as the writes succeed, and the loop ends exactly if a write failed, an alert came with a text, or a SYN came before the settings |
| Commands.HeartbeatsAreAnswered | anytls/proxy/session/session.go:335-338 | while the loop goes on, its heartbeat responses are those it had written before, followed by one for each request handled, in order and under its id |
| Commands.EndedIff | anytls/proxy/session/session.go:174-365 | over any list of frames: the loop has ended exactly if one of them ended it |
| Commands.SchemeIsLastAdopted | anytls/proxy/session/session.go:320-334 | a client's scheme is that of the last update whose text parses, and a server's never changes |
| Commands.SettingsReceivedIff | anytls/proxy/session/session.go:269-277 | a server has the settings exactly if a settings frame with a text was among the frames |
| Commands.VersionIsLastAnnounced | anytls/proxy/session/session.go:291-356 | the peer's version is the last one announced, cut to a byte; a server takes only versions from 2 on |
| Delivery.PushHands | anytls/proxy/session/session.go:195-208 | a push changes no other stream; its own is handed some prefix of the data if its pipe is open and nothing otherwise, and stays open only if it took all |
| Delivery.SynTracks | anytls/proxy/session/session.go:209-228 | the stream a SYN creates starts with no payload behind it, and every other stream stays in step with its payload |
| Delivery.SettingsGreet | anytls/proxy/session/session.go:268-304 | whatever the settings say and wherever a write fails, the server has the settings afterwards exactly if they were not empty or it had them before, and it alerts nobody |
| StringMap.RoundTripIffClean | anytls/util/string_map.go:9-27 | in every iteration order of the map, the settings text reads back to the same map exactly when no key holds '=' or a newline and no value a newline |
| StringMap.FromBytes | anytls/util/string_map.go:17-27 | the loop over the lines builds the map the text stands for, later lines overriding earlier ones |
| StringMap.ToBytes | anytls/util/string_map.go:9-15 | the text lists every key exactly once, in the order the map iterates, and reads back to the map exactly when keys and values are clean |
| StringMap.DigitsItoa | anytls/proxy/padding/padding.go:67 | reading the decimal form of a number gives the number |
| StringMap.AtoiOfItoa | anytls/proxy/padding/padding.go:57 | a decimal text, bare or with either sign, gives its number exactly as far as 64 bits hold it |
| Padding.Store.UpdatePaddingScheme | anytls/proxy/padding/padding.go:40-64 | the stored scheme is replaced exactly when the text parses, and is always one parsed from its own text |
| Padding.GenerateRecordPayloadSizes | anytls/proxy/padding/padding.go:66-96 | every list it returns is a draw the scheme's line allows, item by item |
| Padding.DrawsItemByItem | anytls/proxy/padding/padding.go:66-96 | what is drawn, position by position: a check mark for a mark, a size in the range without its upper bound for a range, unless its bounds are equal |
| SchemeText.SchemeReadsBack | anytls/proxy/padding/padding.go:48-96 | for every scheme and every order of its lines: the text written out is taken up with exactly its stop, cut to 32 bits, and for every packet exactly the ranges and marks of its line |
| SchemeText.TokenOfRange | anytls/proxy/padding/padding.go:70-91 | two bounds make a range in either order, and none unless both are positive |
| Padding.SchemeDrawsFit | anytls/proxy/padding/padding.go:66-96 | if no range of the scheme reaches past 65535, every size ever drawn is a check mark or lies in 1..65535 |
| Handshake.ClientAdoptsServerScheme | anytls/proxy/session/session.go:276-336 | the exchange over the wire: both sides learn version 2, and the client ends with exactly the server's scheme if and only if the digests differed or the texts were the same |
| Handshake.ServerAnswers | anytls/proxy/session/session.go:276-304 | for every iteration order of the client's settings, the exact frames and state of the server's answer |
| Pipe.BytesReadAreBytesConsumed | anytls/proxy/pipe/io_pipe.go:52-106 | in every run of any number of readers and writers, the bytes readers copied are, in order, those the returned writes reported plus what was taken of the write in progress; a write without error consumed everything |
| PipeCalls.ReadTakes | anytls/proxy/pipe/io_pipe.go:60-65 | in every run, a read that gets a slice takes exactly the smaller of the room it was called with and what the writer has left, from where the last reader stopped; nothing only if it has no room or the write was of nothing |
| PipeCalls.AckFinishesIff | anytls/proxy/pipe/io_pipe.go:93-106 | a write returns all its bytes without an error exactly when a read leaves nothing of the data it was called with; otherwise it offers the rest |
| PipeCalls.HandoffGoesThrough | anytls/proxy/pipe/io_pipe.go:60-106 | whenever a writer offers and a reader selects, the three steps of the handoff are possible, and their outcome |
| PipeCalls.ReadErrorIs | anytls/proxy/pipe/io_pipe.go:52-72 | the error of every failed read, from the steps before it: the deadline, or on a closed pipe what the write end was first closed with, end of file if that was no error, and the closed-pipe error once the read end was closed too |
| PipeCalls.WriteErrorIs | anytls/proxy/pipe/io_pipe.go:82-106 | the same for a write, with the count of what readers took of it |
| Pipe.BusyReaderHasWaitingWriter | anytls/proxy/pipe/io_pipe.go:61-98 | at most one reader is between the two channels; the writer whose slice it has waits for it and its buffer still holds the data, so it is never read after the write returned |
| Pipe.WaitingWriterHasBusyReader | anytls/proxy/pipe/io_pipe.go:94-98 | a writer waits for a count only while its reader owes it one, and it is the one that holds the mutex |
| Pipe.CloseErrors | anytls/proxy/pipe/io_pipe.go:73-133 | every failed read or write reports the deadline, the other end's stored close error, or, if this end was closed, the closed-pipe error |
| Pipe.FirstErrorWins | anytls/proxy/pipe/io_pipe.go:18-36 | a stored close error is never replaced and a closed pipe stays closed |
| Deadline.NoDoubleClose | anytls/proxy/pipe/deadline.go:25-58 | in every interleaving of Set, timers and callbacks, a callback's read of the field and its close being two steps, no channel is closed twice |
| Deadline.CallbackClosesWhatWaitersHold | anytls/proxy/pipe/deadline.go:45-52 | whatever happens between a callback's read of the field and its close, it closes the channel its timer was armed for, which is the one every unreleased waiter holds |
| Deadline.WaitingSetIsWoken | anytls/proxy/pipe/deadline.go:29-31 | whenever Set waits for a fired timer, the channel is closed, or the callback can close it next, or can read the field next and then close it |
| Deadline.SetTakesEffect | anytls/proxy/pipe/deadline.go:34-58 | after Set the channel is closed exactly for a past time and a timer is armed for it exactly for a future one, and no other timer is live |
| Deadline.PassedIff | anytls/proxy/pipe/deadline.go:25-65 | in every run the current channel is closed if and only if a timer's callback ran or a past time was set, and no other time was set since |
| Deadline.HeldIff | anytls/proxy/pipe/deadline.go:61-65 | in every run the channels waiters hold are exactly those current when one of them asked, and a closed one stays closed |
| Deadline.OpenChannelIsCurrent | anytls/proxy/pipe/deadline.go:61-65 | an unreleased waiter always holds the current channel |
| Lifecycle.HooksRunAtMostOnce | anytls/proxy/session/stream.go:68-100 | the session's hook and each stream's hook run at most once in every run |
| SessionEvents.HookRanIff | anytls/proxy/session/stream.go:68-100 | in every run a stream's hook has run, once, if and only if the thread closing the stream or the sweep reached it when it had been installed; it is still to run exactly if it was installed and not reached since |
| SessionEvents.InMapIff | anytls/proxy/session/session.go:110-259 | in every run an id is in the client's map if and only if OpenStream or a SYN put it there and since then no FIN, no close of a stream under that id, and no end of the sweep took it out |
| SessionEvents.DeletesIffOpen | anytls/proxy/session/session.go:367-376 | a closing stream takes its id out of the map before its hook runs if and only if the session had not begun to close when it looked |
| Lifecycle.SweptMapStaysEmptyIff | anytls/proxy/session/session.go:110-133 | in every run the stream map is empty at every point from the sweep on if and only if no SYN is handled after the sweep |
| Lifecycle.OnlySynsFillTheSweptMap | anytls/proxy/session/session.go:216-228 | after the sweep an id is in the stream map only if a SYN named it, and only for a stream created after the sweep |
| Lifecycle.InsertedIsAccounted | anytls/proxy/session/session.go:163-171 | unless a SYN named its id before it was inserted, a stream OpenStream inserted is at any time closed, about to be closed by the receive loop, or in the map for the sweep to find |
| Lifecycle.SweptStreamsAreClosed | anytls/proxy/session/session.go:124-130 | under the same condition, after the sweep every inserted stream is closed or about to be closed by the receive loop |
| Lifecycle.InsertIsSafeIff | anytls/proxy/session/session.go:163-171 | in every run with no other condition: a stream just inserted stays accounted for in every continuation, and equally is closed by the end of the sweep in every continuation, if and only if every other stream with its id is past its removal from the map |
| Lifecycle.SynAfterSweepStays | anytls/proxy/session/session.go:216-228 | a run in which a SYN handled after the sweep leaves a stream in the map |
| Lifecycle.SynCanHideStream | anytls/proxy/session/session.go:367-376 | a run in which a SYN under the client's next id makes an open stream vanish from the map |
| Watchdog.ArmedIsHeld | anytls/proxy/session/session.go:146-155 | at most one watcher is armed, and it is the one held in `synDone` |
| Watchdog.ArmsIff | anytls/proxy/session/session.go:146-155 | an open arms a watcher, cancelling the one before, if and only if it is not the session's first and the last server settings named version 2; otherwise it leaves the watchers alone |
| Watchdog.AckDisarms | anytls/proxy/session/session.go:229-235 | a SYNACK cancels the armed watcher and no watcher is held afterwards |
| Watchdog.ClosesUnackedIffArmed | anytls/proxy/session/session.go:229-235 | a watcher that closes the session has timed out; it was still armed if and only if no SYNACK was processed since it was armed and no later open replaced it |
| Watchdog.AckedWatcherCanClose | anytls/util/deadline.go:8-25 | a run in which a watcher closes the session after its SYNACK was processed |
| Pool.LentOnceAndNeverIdle | anytls/proxy/session/client.go:70-149 | in every run a session is lent to at most one stream and never while it is idle |
| Pool.IdleAtMostOnce | anytls/proxy/session/client.go:123-128 | a session is in the idle list at most once |
| Pool.TakesNewest | anytls/proxy/session/client.go:140-149 | the session handed out is the idle one with the largest sequence number, nobody held it, and the new stream is its only holder |
| PoolEvents.IdleIff | anytls/proxy/session/client.go:111-234 | in every run a session is idle if and only if a stream returned it and since then it was not lent, its own hook did not drop it and every cleanup kept it |
| PoolEvents.HookReturnsIff | anytls/proxy/session/client.go:111-128 | a stream's hook goes on to return the session if and only if the session is open, sessions are reused and the client was not closed before; otherwise the session is closed then |
| PoolEvents.StrandsIff | anytls/proxy/session/client.go:98-128 | a dying stream runs its hook if the hook was installed by then, before or after the stream died, and strands its session otherwise |
| PoolEvents.LateHookReturns | anytls/proxy/session/client.go:98-149 | a run in which a hook installed after the stream's death still returns the session, and the next stream gets it |
| Pool.NoSessionIsLost | anytls/proxy/session/client.go:70-181 | in every run a session is neither idle, lent, closed nor taken by a cleanup if and only if its stream died before its hook was set and nobody closed or cleaned it |
| Pool.StrandedForGood | anytls/proxy/session/client.go:98-110 | once that has happened, however the run goes on the session is never idle nor lent again |
| Pool.EarlyDeathStrands | anytls/proxy/session/client.go:98-110 | a run in which it happens |
| Pool.DeadNeverIdleIff | anytls/proxy/session/client.go:111-128 | in every run a session whose hook has run is idle at no point if and only if no stream returns a session after that session's hook has run |
| Pool.DeadIdleWasReturnedLate | anytls/proxy/session/client.go:111-128 | session by session: one whose hook has run is idle only if a stream returned it after that |
| Pool.ClosedSessionCanBeIdle | anytls/proxy/session/client.go:111-128 | a run in which that happens |
| IdleList.Client.IdleCleanupExpTime | anytls/proxy/session/client.go:205-242 | the pass that removes in place closes and keeps exactly the sessions the rule says, in order, refreshing only expired ones |
| IdleList.CleanupPartitions | anytls/proxy/session/client.go:213-234 | kept and closed sessions partition the list, every closed one had expired, and min(size, minIdleSession) remain |
| IdleList.ClosedIffEnoughKept | anytls/proxy/session/client.go:222-233 | an expired session is closed exactly when at least minIdleSession newer ones were kept before it |
| IdleList.Client.GetIdleSession | anytls/proxy/session/client.go:140-149 | takes the newest idle session off the list and leaves the other entries as they are |
| IdleList.Client.PutIdleSession | anytls/proxy/session/client.go:123-127 | afterwards the list holds the session with the time given and the other entries as they were, in order |
| IdleList.InsertFacts | anytls/proxy/session/client.go:123-127 | returning a session keeps the list ordered and adds just that session |
| Capsules.BatchingIsIndependent | core/aether/src/quic.rs:770-782 | however the encoding of any sequence of well-formed capsules is cut into chunks, and however many chunks are pushed before each drain, exactly that sequence comes out, as long as what is buffered before a drain stays within the cap |
| Sent.SentIsReceived | core/aether/src/quic.rs:770-822 | with the capsules sent given as such, in any spelling: however their encodings are cut into chunks and batches within the cap, exactly those capsules come out, in order |
| Sent.InterpretsIff | core/aether/src/masque.rs:195-210 | which capsule a kind and value mean, in both directions: a datagram its packet, an address request itself, an address or route list the very list spelled out, any other kind itself with its value |
| Sent.OneComesOut | core/aether/src/masque.rs:176-210 | a capsule in front of the buffer is the one found, and a drain yields it first |
| Sent.MalformedEndsTheDrain | core/aether/src/quic.rs:795-822 | a complete capsule that means nothing is taken off and ends the drain |
| Capsules.ShortBatchesAreSafe | core/aether/src/masque.rs:157-174 | for that it is enough that no batch on top of an unfinished capsule passes the cap |
| Capsules.FiveFullReadsAreLost | core/aether/src/quic.rs:770-782 | five full reads, each a whole datagram capsule, pushed before one drain, are all lost; drained one by one, all received |
| Capsules.PushesJoinIff | core/aether/src/masque.rs:164-174 | any number of pushes leaves the buffer followed by all the chunks if and only if together they stay within the cap |
| Capsules.FeedAll | core/aether/src/quic.rs:774-780 | the parser object, pushed and drained batch by batch, yields and keeps exactly what the receiving function says |
| Capsules.ChunkingIsIndependent | core/aether/src/masque_h2.rs:622-626 | the same with a drain after every chunk |
| Capsules.ChunksSoFar | core/aether/src/masque.rs:164-210 | after any prefix, drained chunk by chunk, exactly the capsules completed have come out and the buffer is a proper prefix of the next one |
| Capsules.DrainPrefix | core/aether/src/quic.rs:795-822 | draining any prefix of an encoded sequence yields the capsules it completes and leaves a proper prefix of one more |
| Capsules.CapsuleParser.Next | core/aether/src/masque.rs:176-210 | leaves the buffer alone until a capsule is complete; then takes off exactly that capsule, also when its value is malformed |
| Capsules.AddressesRoundTrip | core/aether/src/masque.rs:218-242 | the address list parser returns exactly the encoded list, in order |
| Capsules.RoutesRoundTrip | core/aether/src/masque.rs:244-268 | the route list parser returns exactly the encoded list, in order |
| Capsules.ParseAddressAssign | core/aether/src/masque.rs:218-242 | the cursor loop computes the recursive list reader, errors included |
| Varint.GetPut | core/aether/src/masque.rs:270-280 | a varint of the chosen length reads back, whatever follows it |
| Varint.PutIsShortest | core/aether/src/masque.rs:270-280 | no other encoding that reads as the value is shorter than the one written |
| Datagram.DecodeEncode | core/aether/src/masque.rs:52-89 | a packet sent on stream s and read as t arrives whole if s/4 = t/4 and is not ours otherwise, for every 64-bit stream id |
| Datagram.StripBare | core/aether/src/masque.rs:119-148 | a bare IP packet comes back unchanged exactly unless it is the one form that reads as framed |
| Datagram.StripFramed | core/aether/src/masque.rs:119-148 | a packet behind a zero context id always comes back |
| Datagram.StripsExactly | core/aether/src/masque.rs:119-148 | for every payload: what comes back is an IP packet behind a zero context id of any length, or else the payload itself if it looks like one |
| Checksum.BuildUdpIpv4 | core/aether/src/exitip.rs:160-202 | as long as the sum fits 32 bits, the bytes pushed and patched step by step are the packet with both checksums filled in |
| Checksum.OnesComplementSum | core/aether/src/exitip.rs:136-146 | adds the big-endian 16-bit words, an odd last byte as a high byte |
| Checksum.Fold | core/aether/src/exitip.rs:148-153 | the folding loop ends and gives the complement of the sum's residue modulo 65535 |
| Checksum.BuiltHeaderChecks | core/aether/src/exitip.rs:170-183 | the IPv4 header of every built packet sums to all ones |
| Checksum.BuiltDatagramChecksIff | core/aether/src/exitip.rs:185-201 | for every payload, odd lengths and the zero substitution included: the datagram with its pseudo-header sums to all ones exactly if the length wraps a multiple of 65535 times, so up to four gigabytes exactly for payloads up to 65527 bytes; the field is never zero |
| Checksum.PayloadComesBackIff | core/aether/src/exitip.rs:206-233 | the parser returns exactly the payload if and only if address and both ports are those of the packet and the payload is at most 65527 bytes |
| Checksum.AcceptsExactly | core/aether/src/exitip.rs:206-233 | for every packet whatever, the parser returns this payload if and only if the packet is an unfragmented UDP datagram carrying it from that source to that port, behind an IPv4 header with any options |
| Checksum.TotalLengthIff | core/aether/src/exitip.rs:167-173 | the IPv4 total length is the packet's length exactly for payloads up to 65507 bytes |
| Dns.MatchesExactlyEchoes | core/aether/src/exitip.rs:236-281 | the reply check accepts a message if and only if it is a response with our id that repeats our one question, up to case |
| Dns.QuestionMatches | core/aether/src/exitip.rs:236-281 | the label loop decides exactly that check |
| Dns.SameLetterIff | core/aether/src/exitip.rs:236-281 | two bytes of a name count as the same exactly if they are equal or the two cases of one ASCII letter |
| Dns.BuildQuery | core/aether/src/exitip.rs:115-134 | the loop over the labels writes one question, long labels clipped and empty ones left out |
| Dns.OwnQueryMatchesIff | core/aether/src/exitip.rs:115-134 | our query sent back as a response is recognised exactly when no label is longer than 63 bytes |
| DnsReply.TextOnceComplete | core/aether/src/exitip.rs:284-352 | however much of a reply is there, and whatever follows: no text until its first TXT record is complete, then exactly the joined strings of that record; any names, compressed or not, any records before it |
| DnsReply.FirstTxtRecord | core/aether/src/exitip.rs:306-352 | the three loops with their offsets compute the record reader, never reading out of bounds |
| DnsReply.SkipName | core/aether/src/exitip.rs:284-299 | the loop ends exactly behind the name, or fails where the message ends first |
| DnsReply.ReplyComesBack | core/aether/src/exitip.rs:100-111 | a reply to the question, built into a packet from the resolver to the probe's port, is parsed, recognised and read to its text |
| Sni.FindsExactlyHellos | core/aether/src/sniff.rs:114-183 | the scanner finds a raw host in exactly the bytes that begin with a ClientHello up to an extension naming it, for any session id, suites, compression and preceding extensions |
| Sni.FoundOnceComplete | core/aether/src/sniff.rs:114-183 | on any prefix of such a ClientHello nothing is found until that extension is complete, and from then on its host, whatever follows |
| Sni.Stable | core/aether/src/sniff.rs:114-183 | once a host is found, appended bytes never change it |
| Sni.TlsSni | core/aether/src/sniff.rs:114-183 | the cursor steps and nested loops compute the scanner, never reading out of bounds |
| HttpHead.ReadHead | core/aether/src/socks.rs:1417-1446 | for every chunking, head and pipelined part concatenate to all bytes read and are cut where a full search for the first blank line cuts; "too large", "closed" and a read error only when no blank line was read; the buffer never exceeds the limit by more than one chunk |
| HttpHead.RescanFindsFirst | core/aether/src/socks.rs:1432-1438 | searching the new bytes and the three-byte overlap finds what a full search finds |
| HttpHead.ChunkingIsIndependent | core/aether/src/socks.rs:1417-1446 | a head that ends within the limit is returned exactly, whatever the chunks; one that ends more than a chunk beyond it is refused |
| Mim.RescanIffTwoStrikes | core/aether/src/main.rs:3776-3890 | in every run, once an outer edge is chosen, a scan starts if and only if that edge has failed twice as the outer hop with no completed session in between |
| Mim.RescanIffDiedTwice | core/aether/src/main.rs:3776-3890 | the same in terms of what the network did: a scan starts exactly after two turns whose weather killed the present outer edge, with no cleanly ended session and no new edge in between |
| Mim.InnerFailuresNeverRescan | core/aether/src/main.rs:3881-3889 | any number of inner failures and completed sessions neither starts a scan nor changes the outer edge |
| Mim.RescansIff | core/aether/src/main.rs:3795-3819 | every turn, from the log of the turns before it: whether it scans, which edge it uses or that the scan found none, which inner edges it tries |
| Mim.OnlyTheDeadHopPays | core/aether/src/main.rs:3540-3758 | exactly when a session's end is blamed on the outer hop; a completed session names an inner edge that served |
| Mim.EndedIff | core/aether/src/main.rs:3571-3758 | a session counts as completed through an edge if and only if the outer hop was up with its stack, that edge was the first eligible one to serve, and the session ended cleanly |
| Mim.EndingByWeather | core/aether/src/main.rs:3540-3758 | each of the three endings exactly by what the network did |
| Mim.RememberedIff | core/aether/src/main.rs:3866-3889 | the inner edge remembered is the one of a completed session after which only outer failures came |
| Mim.CandidatesExactly | core/aether/src/main.rs:3822-3845 | the inner edges tried, with and without pinned edges and with an empty pool |
| Mim.RunMim | core/aether/src/main.rs:3776-3893 | the loop with its four variables does what the log function says |
| Mim.RememberedEdgeIsFirstIff | core/aether/src/main.rs:3822-3832 | the remembered inner edge is always tried, and tried first exactly when the pool does not hold it further back |
| Mim.InnerFailureDoesNotForgive | core/aether/src/main.rs:3872-3889 | a run in which two outer failures with an inner one between them start a scan |

## Left out

- ClientToServer.AllWrittenIsDelivered: says what has arrived at a point of a run; that the server eventually reads it is not stated, since steps carry no fairness.
- Writer.ClientSession.WriteConn: does not state the count of a failed write, which no caller reads.
- Receiver.Session.RecvLoop: runs alone, so other threads' changes to the stream map between frames are steps of `Multiplex`; the deferred recover, the goroutine a SYN starts and the log lines; the SYNACK's effect on the watcher is in `Watchdog`.
- Padding.NewFactory: MD5 is a parameter; the debug environment variable that ignores a new scheme is not modelled.
- Capsules.CapsuleParser.DrainCapsules: collects the capsules where the source sends assigned addresses to a channel and logs the rest.
- Checksum.BuildUdpIpv4: inputs whose sum overflows 32 bits, where a build with overflow checks stops; none with at most 130000 payload bytes does (`Checksum.ShortSumsFit`).
- Dns.BuildQuery: names are byte strings; the random id and port of a probe are parameters.
- DnsReply.ReplyComesBack: ends with the joined text; trimming it and parsing it as an address are not modelled.
- DnsReply.FirstTxtRecord: returns the joined bytes; decoding them as UTF-8 and parsing an address are not modelled.
- Sni.TlsSni: the plausibility check of the host name is an arbitrary function, so the bytes it judges are exact but its rules are not modelled; nor is the Host header scan.
- Mim.RunMim: saving the outer edge to disk, delays, and how a session moves traffic.
- `Client.Close`'s loop over the sessions map is one `Cancel` and any number of `CloseSession` steps of `Pool`; the map itself is not modelled.
- Streams' own deadlines, addresses and handshake reports (anytls/proxy/session/stream.go:102-164).
- The SOCKS5 UDP header and request-line parsers, byte conservation through the proxy after a sniff, DNS caching, the user-space network stack, routing, fragmentation, probing, account, configuration and FFI code.
- Sockets, TLS, QUIC, HTTP/2, the skip list and buffer libraries: a byte queue, an ordered list and byte sequences stand for them.
