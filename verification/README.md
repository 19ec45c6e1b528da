# VeloxVPN: a verified model of the session, relay and configuration core

VeloxVPN is a proxy server and client with three tunnel protocols and a small admin service. This project models the
parts of it whose behaviour spans many steps, and proves what they promise over all inputs, all interleavings and all
runs:

* **AnyTLS** (`src/proxy/anytls.rs`): many logical streams over one byte pipe. The frame codec, the server's reader loop
  and stream handlers as a state machine over every interleaving, the chunked reader, the client's sending and receiving
  tasks, and the tunnel from end to end.
* **TUIC** (`src/proxy/tuic.rs`): the commands and the packet codec, out-of-order reassembly, the authentication gate shared by
  three loops, the double-checked session table, the TCP relay, and the client's routing of replies.
* **Configuration** (`src/config.rs`, `src/web/mod.rs`): validation, automatic ports, loading, starting listeners with
  bind retries, committing a candidate with rollback, and the whole life of a node.
* **Rate limiter** (`src/web/mod.rs`) against the full history of admissions.
* **VLESS header** (`src/proxy/vless.rs`) and **addresses** (`src/proxy/address.rs`) underneath.

## How it is laid out

State that several tasks share is a state machine: a `Step` over events and a `Run` over any sequence of them; an event
that is not enabled changes nothing, so every sequence is a run and a lemma about `Run` is a lemma about every
interleaving. Code that changes an object in place is a class whose methods are proved equal to the step functions
(`AnyTlsConn.Conn`, `ChunkedRead.ChunkedReader`, `TuicReassembly.FragmentMap`, `TuicSessions.SessionTable`,
`Listeners.Node`, `RateLimit.RateLimiter`, `TuicClient.UdpClient`). What the outside world decides (a bind, a save, a dial, DNS, the clock, random draws) is a
parameter.

| files | contents |
|---|---|
| `Bytes`, `Utf8` | byte sequences, big-endian fields, flattening; `from_utf8_lossy` written out |
| `Address`, `ChunkedRead` | address blocks under each protocol's tags; the chunked reader and reading addresses off it |
| `AnyTlsFrames`, `AnyTlsServer`, `AnyTlsReader`, `AnyTlsHandler`, `AnyTlsUpload`, `AnyTlsDownload`, `AnyTlsConn`, `AnyTlsDial`, `AnyTlsEndToEnd`, `AnyTlsCompletion`, `SharedWriter`, `AnyTlsWire`, `AnyTlsReuse` | AnyTLS |
| `TuicPacket`, `TuicReassembly`, `TuicSessions`, `TuicGate`, `TuicGateRuns`, `TuicRelays`, `TuicStreams`, `TuicCommands`, `TuicClient`, `TuicEndToEnd` | TUIC |
| `Vless` | the VLESS header and its handler |
| `Config`, `Load`, `Listeners`, `ListenerSafety`, `Commits` | configuration, loading, listeners, commit |
| `RateLimit` | the limiter |

`dafny verify dfyconfig.toml` checks everything.

## What is not true of the code

Where a promise one would expect fails, the model keeps the code as it is, the failure is a lemma, and so is the exact
condition under which the promise holds:

* An address whose host is longer than 255 bytes does not survive its length byte, for exactly those hosts
  (`Address.EncodeThenParse`, `Vless.HeaderRoundTrip`, `TuicPacket.PacketRoundTrip`); an AnyTLS tunnel to such a host never
  dials it (`AnyTlsEndToEnd.LongHostIsMisdialled`). A frame of 65536 bytes or more is not read back as sent, for exactly
  those frames (`AnyTlsFrames.FrameRoundTrip`); the server sends one exactly when a dial fails with that much error text
  (`AnyTlsDownload.OutFitsExactlyWhen`).
* Reusing an AnyTLS stream id while an old handler can still relay mixes the old upstream's bytes into the new stream
  (`AnyTlsDownload.ReusedIdMixesDownloads`). A reopened id is isolated exactly when no earlier incarnation of it is relaying,
  dialling, or holds a complete target address (`AnyTlsReuse.ReuseIsolatedExactlyWhen`).
* A TUIC packet on a uni stream that arrives before the authentication command is fatal: the loop waits for a flag only
  it could set (`TuicGate.PacketBeforeAuthenticationIsFatal`). `TuicGateRuns.AuthenticatesExactlyWhen` says which sequences of
  commands authenticate.
* One authentication ends only one wait, that of the loop that has waited longest; the other can only run out of time and
  close the authenticated connection (`TuicGateRuns.SecondWaiterIsStuck`, `TuicGateRuns.SecondWaiterClosesConnection`). What
  waits is handled exactly if as many authentications are accepted as its place in the queue
  (`TuicGateRuns.WaiterHandledExactlyWhen`, `TuicGateRuns.EarlyWaiterHandledExactlyWhen`).
* After a dissociate the old socket's reader runs on, so an association that comes back has two
  (`TuicSessions.DissociateLeavesReader`); without a dissociate it never has (`TuicSessions.OneSocketUnlessDissociated`).
* Duplicate fragments are counted as new ones, and a total of zero never completes (`TuicReassembly.DuplicateCounts`,
  `TuicReassembly.ZeroTotalNeverCompletes`). Reassembly is right whatever the fragments carry exactly when every id is in
  range and occurs once (`TuicReassembly.ReassemblyExactlyWhen`).
* TUIC association ids wrap: a session loses its route exactly when the next one with its id, 65536 openings later, inserts
  its own (`TuicClient.RouteLastsIdSpace`).
* The VLESS reader does not skip addons (`Vless.AddonsAreNotSkipped`): a header that carries them is read right exactly when
  there are none (`Vless.AddonsExactlyWhenNone`).
* The comment on `commit_config` (`src/web/mod.rs:678-679`) says a failed save restores the previous configuration. Memory
  and listeners always are; the disk is not if starting the candidate had to move a port, which saves the candidate
  (`src/web/mod.rs:185`). `Commits.RejectedCandidateCanStayOnDisk` is such a case and `Commits.SyncAfterCommit` gives the
  causes that are needed, and enough.
* Preflight contests the sockets of other listeners, so a candidate that hands a running inbound's socket to an inbound of
  another name, as in a swap or a rename, is refused whenever a bound socket cannot be bound again
  (`Commits.TakeoverIsRefused`). A valid candidate passes exactly when it takes over no running listener's socket under
  another name (`Commits.PreflightExactlyWhen`). The handlers change one inbound at a time and do not ask for it.

## Model

| member | source | states |
|---|---|---|
| AnyTlsEndToEnd.UploadEndToEnd | src/proxy/anytls.rs:112-258 | For every interleaving of reader loop and handlers, every chunking and any cut of the connection: the target decoded is the one dialled, what is written to it is a prefix of the payload, and all of it once the FIN has been handled and the copy has ended, unless some chunk came upon 64 waiting ones or a handler that had returned. |
| AnyTlsEndToEnd.UploadOverTheWire | src/proxy/anytls.rs:112-258 | The same from the client's bytes: the server is given any byte prefix of what the client wrote, behind the digest and padding. |
| AnyTlsReader.RejectedExactlyWhen | src/proxy/anytls.rs:151-158 | In every run a stream is cut off exactly if a non-empty chunk for it came, while it was open, upon 64 waiting chunks or a handler that had returned. |
| AnyTlsReader.ChunkIsQueued | src/proxy/anytls.rs:150-158 | Any other chunk for an open stream ends up last in its queue. |
| AnyTlsReader.OpenExactlyWhen | src/proxy/anytls.rs:150-178 | In every run a stream is open exactly while none of its chunks was refused, no FIN has come for it and the loop goes on. |
| AnyTlsReader.EndsExactlyWhen | src/proxy/anytls.rs:135-163 | In every run the loop is over exactly if the connection has ended or a SYN has come with no settings before it; then every stream is closed. |
| AnyTlsReader.SynOpensExactlyWhen | src/proxy/anytls.rs:159-174 | After settings a SYN opens a fresh stream exactly if none of its id is open, whatever other streams there are, and leaves those alone. |
| AnyTlsReader.SynHasStream | src/proxy/anytls.rs:159-174 | In every run each SYN handled after settings has its stream. |
| AnyTlsReader.LoopAnswers | src/proxy/anytls.rs:149-203 | In every run the loop answers each frame with exactly what it asks for: padding scheme and server settings, heartbeat response, alert, FIN for a refused chunk, and nothing else. |
| AnyTlsReader.VersionExactlyWhen | src/proxy/anytls.rs:179-197 | In every run the peer's version is 2 exactly if settings of version 2 or more have been handled. |
| AnyTlsReader.DialIsAnswered | src/proxy/anytls.rs:223-236 | In every run the peer is told how a dial went, once, exactly if it speaks version 2; success starts the copy back, failure ends the handler. |
| AnyTlsHandler.CanReadTarget | src/proxy/anytls.rs:215-222 | From every reachable state a handler can read its target to the end: a complete address is dialled, an unsupported one ends it, an incomplete one ends it once nothing more can come. |
| AnyTlsHandler.CanDrain | src/proxy/anytls.rs:253-255 | From every reachable state a relaying handler can write on everything that was queued for it. |
| AnyTlsHandler.CanSendBack | src/proxy/anytls.rs:237-252 | From every reachable state whatever upstream delivers, in reads of up to 32768 bytes, can be sent on. |
| AnyTlsHandler.CanFinish | src/proxy/anytls.rs:237-258 | From every reachable state a relaying handler whose stream is closed can come to its end, everything upstream and everything sent back, with a FIN behind it. |
| AnyTlsHandler.CanFinishAfterFailure | src/proxy/anytls.rs:237-258 | The same if the copy to upstream fails: what upstream delivers is still sent back before the handler ends. |
| AnyTlsHandler.ReturnedIsQuiet | src/proxy/anytls.rs:209-258 | In every run nothing is copied back before the dial has succeeded, and a handler that has returned sends no more. |
| AnyTlsEndToEnd.DownloadEndToEnd | src/proxy/anytls.rs:426-453 | The client puts out a prefix of what its own upstream delivered, and exactly that once it has every frame, unless a chunk of the upload came upon 64 waiting ones or a handler that had returned. |
| AnyTlsWire.DownloadOverTheWire | src/proxy/anytls.rs:53-63 | The same with the lock taken into account: for every run of the server, every order in which its tasks get the lock and every cutting of their writes, the client puts out a prefix of what its upstream delivered, and all of it once it has the whole wire and the handler has sent its frames, unless the upload was refused. |
| AnyTlsWire.WireIsolation | src/proxy/anytls.rs:237-252 | The same for any stream whose id was opened once, among any others. |
| AnyTlsWire.ReadOffTheWire | src/proxy/anytls.rs:53-63 | For any programs of frames in which one task alone sends data under an id: any bytes of the wire decode to a prefix of that task's data, and the whole wire to all of it once the task is done and nobody else sent FIN. |
| AnyTlsWire.RunPrograms | src/proxy/anytls.rs:237-252 | In every run a handler sends what its upstream delivered and then FIN, all under its own id, and the reader loop sends no data and FIN only for a stream it refused. |
| AnyTlsEndToEnd.LongHostIsMisdialled | src/proxy/address.rs:84-89 | The other half of the precondition: with a host over 255 bytes no run on the client's frames ever dials the target asked for. |
| AnyTlsEndToEnd.LongHostIsMisdialledOverTheWire | src/proxy/address.rs:84-89 | The same from the client's bytes, also when the block is too long for a frame and its length field cuts it. |
| AnyTlsCompletion.TunnelCanComplete | src/proxy/anytls.rs:112-258 | For every target whose host fits and every payload some run dials it, writes the whole payload and ends cleanly, so what is said of finished uploads is never empty. |
| AnyTlsCompletion.DeliveredTunnelCanComplete | src/proxy/anytls.rs:112-258 | From every reachable state in which all of the client's frames have been handled, none refused and nothing dialled yet, some continuation dials the target, writes the whole payload, sends back whatever comes, and ends. |
| AnyTlsEndToEnd.OneIncarnation | src/proxy/anytls.rs:394-401 | The frames of one tunnel open at most one stream, by their second frame. |
| AnyTlsUpload.StreamIsolation | src/proxy/anytls.rs:149-178 | In every run each incarnation was opened by its own SYN after settings, reads in order a prefix of the data for its id between that SYN and the next FIN, loses none of it unless a chunk was refused, and never has more than 64 chunks queued. |
| AnyTlsUpload.UploadIsTail | src/proxy/anytls.rs:209-258 | In every run nothing reaches a target before an address is decoded; afterwards a prefix of the bytes behind the address does, and all of them if the copy ended at the end of the stream with nothing refused. |
| AnyTlsUpload.OneOpenIncarnation | src/proxy/anytls.rs:164-178 | At most one incarnation of an id is ever open. |
| AnyTlsUpload.SeenIsDelivered | src/proxy/anytls.rs:135-204 | The frames handled are those delivered, in order, all of them until the loop ends. |
| AnyTlsUpload.RunKeeps | src/proxy/anytls.rs:130-258 | The invariant behind these holds after every run: conservation of queued bytes, a table of exactly the open incarnations, each with its history. |
| AnyTlsUpload.PushKeeps | src/proxy/anytls.rs:150-158 | Queueing a chunk, or refusing it and closing the stream, keeps the invariant. |
| AnyTlsDownload.DownloadIsolation | src/proxy/anytls.rs:237-252 | For an id opened once, the data frames sent under it are what its own upstream delivered, in order, and its FIN follows the end of its upstream. |
| AnyTlsDownload.ReusedIdMixesDownloads | src/proxy/anytls.rs:164-178 | A run in which the bytes of an old incarnation's upstream are sent under an id that was opened again. |
| AnyTlsReuse.ReuseIsolatedExactlyWhen | src/proxy/anytls.rs:164-178 | For a SYN that opens an id anew in any reachable state: in every continuation what is sent under the id is its own upstream's, exactly if no earlier incarnation of the id can still send. |
| AnyTlsReuse.SilentActs | src/proxy/anytls.rs:209-258 | A closed handler that can no longer send sends nothing and never will. |
| AnyTlsReuse.ReachesRelay | src/proxy/anytls.rs:215-252 | A closed handler that can still send has a continuation of its own steps in which it relays. |
| AnyTlsDownload.OutFits | src/proxy/anytls.rs:44-51 | Every frame the server sends fits its length field, provided dial errors have less than 65536 bytes of text. |
| AnyTlsDownload.OutFitsExactlyWhen | src/proxy/anytls.rs:225-230 | Every frame fits exactly if no dial fails with 65536 bytes of error text or more that the peer is told. |
| AnyTlsConn.Conn.HandleFrame | src/proxy/anytls.rs:149-203 | One pass of the loop body is exactly one delivery step of the state machine. |
| AnyTlsConn.Conn.HandleConn | src/proxy/anytls.rs:112-206 | Without the right digest, or with its padding cut short, nothing happens; with it, whatever the padding, the connection is a run of the state machine on exactly the frames decoded behind it, up to a SYN before any settings, and it succeeds unless it ends inside the data of a frame. |
| AnyTlsConn.Authenticate | src/proxy/anytls.rs:116-128 | Lets through exactly the inputs that are the digest, a length, a padding of that length and a session, and gives that session. |
| AnyTlsConn.SessionExactlyWhen | src/proxy/anytls.rs:116-128 | The session bytes are exactly those behind the digest and a padding of the length given before it. |
| AnyTlsConn.Conn.FrameLoop | src/proxy/anytls.rs:135-204 | The loop over the session's bytes handles exactly the decoded frames, up to a SYN before any settings, and no partial one; it fails exactly if the bytes end inside the data of a frame. |
| AnyTlsConn.Conn.TrySend | src/proxy/anytls.rs:151-152 | Queues a chunk, or fails with nothing changed when the queue holds 64 or its reader is gone. |
| AnyTlsDial.Dial | src/proxy/anytls.rs:374-423 | However the payload is cut, what the client writes is the digest, an empty padding, and frames (settings, SYN 1, the target block, chunks, FIN) from which a reader of its stream gets exactly the target block and the payload. |
| AnyTlsDial.Receive | src/proxy/anytls.rs:425-453 | Handles exactly the frames before the first FIN of its stream or the first data the local pipe does not take: puts out the data of its stream among them and answers each heartbeat among them once. |
| AnyTlsDial.OnFrame | src/proxy/anytls.rs:439-450 | What one frame does: data of its stream for the local pipe, exactly one answer to a heartbeat, the end at FIN or when the pipe refuses. |
| AnyTlsFrames.FrameRoundTrip | src/proxy/anytls.rs:44-51 | A frame is read back as written, whatever follows, exactly when its data has less than 65536 bytes. |
| AnyTlsFrames.DecodePrefix | src/proxy/anytls.rs:135-147 | Decoding an encoded stream gives its frames; decoding any byte prefix gives a prefix of the frames and less than one frame left over. |
| AnyTlsFrames.DecodeThenEncode | src/proxy/anytls.rs:135-147 | Any bytes are read as the frames they are made of and an unfinished rest; nothing is skipped or made up. |
| AnyTlsFrames.FrameOnTheWire | src/proxy/anytls.rs:44-51 | The bytes of a frame one by one, numbers from their highest byte down. |
| AnyTlsFrames.StreamDataConcat | src/proxy/anytls.rs:149-178 | The reference for both directions, the data for an id up to its FIN, splits over concatenation. |
| SharedWriter.WholeFrames | src/proxy/anytls.rs:53-63 | Under any interleaving of tasks and partial writes the wire is whole frames in lock order and a piece of at most one more; each task's frames keep their order. |
| SharedWriter.PeerSeesWholeFrames | src/proxy/anytls.rs:53-63 | At every moment the peer decodes exactly the frames sent, plus the current one if all its bytes are out. |
| SharedWriter.HolderCanFinish | src/proxy/anytls.rs:53-63 | While the connection takes bytes, whoever has the lock can write the rest of its frame and release it. |
| SharedWriter.TaskCanSend | src/proxy/anytls.rs:53-63 | And then any task that has a frame to send can send it whole. |
| Bytes.ConstantTimeEqDecidesEquality | src/util.rs:55-63 | Folding the differing bits of all bytes into one decides equality. |
| ChunkedRead.ChunkedReader.PollRead | src/proxy/anytls.rs:312-339 | The poll loop computes the reference poll, terminating on the number of queued chunks. |
| ChunkedRead.ChunkedReader.PollBytes | src/proxy/anytls.rs:312-339 | A poll with room takes a piece off the front of the flat stream; an empty answer means the stream has ended and is drained. |
| ChunkedRead.PollConserves | src/proxy/anytls.rs:318-338 | No poll loses, adds or reorders a byte. |
| ChunkedRead.ChunkedReader.ReadExact | src/proxy/anytls.rs:65-69 | Reads exactly the next n bytes over any chunking, or fails exactly when fewer are left. |
| ChunkedRead.ChunkedReader.ReadAddr | src/proxy/anytls.rs:260-293 | Reading an address off chunks gives what parsing the flat bytes gives: same address, same unread bytes, same failure; under the TUIC tags this is `read_addr` too. |
| ChunkedRead.ChunkedReader.ReadDomain | src/proxy/tuic.rs:542-554 | The same for the domain branch, with the length byte deciding how much is read. |
| Address.EncodeThenParse | src/proxy/address.rs:26-91 | Encoding then parsing is the identity and consumes exactly the block, whatever follows, exactly for hosts of at most 255 bytes. |
| Address.AddrOnTheWire | src/proxy/address.rs:66-91 | The bytes of an address block under each protocol's tags. |
| Address.ParseThenEncode | src/proxy/address.rs:26-91 | Parsing then encoding restores the consumed bytes exactly when the domain bytes were valid UTF-8. |
| Address.ParseIsPrefixStable | src/proxy/address.rs:26-64 | A successful parse depends on nothing behind the block. |
| Address.DemandMeetsParse | src/proxy/anytls.rs:260-293 | Reading no more than each read asks for leaves the parse undecided until the block is complete, and then decides it. |
| Address.ByteVec.EncodeWithPort | src/proxy/address.rs:67-91 | Appends the block and the port and nothing else. |
| Utf8.LossyFixesExactlyValidText | src/proxy/address.rs:48 | The lossy conversion changes nothing exactly on valid UTF-8. |
| Utf8.ValidExactlyWhen | src/proxy/address.rs:48 | Text is valid exactly if it is the encoding of a sequence of Unicode scalar values. |
| Utf8.ReplacedPiece | src/proxy/address.rs:48 | What one replacement character stands for is the longest piece that begins an encoding, or one byte that begins none. |
| Utf8.LossyOfCut | src/proxy/address.rs:48 | Cutting valid text keeps every whole code point before the cut and puts one replacement character for the one that was cut. |
| Utf8.LossyGrows | src/proxy/address.rs:48 | The lossy conversion never shortens. |
| TuicPacket.PacketRoundTrip | src/proxy/tuic.rs:107-185 | Parsing a packet body gives the packet back, trailing bytes or not, exactly for hosts of at most 255 bytes and data of less than 65536. |
| TuicPacket.ParsedWasThere | src/proxy/tuic.rs:107-128 | Whatever is parsed was there: each number at its place, a complete address, and as many bytes as the size says. |
| TuicPacket.SendTo | src/proxy/tuic.rs:692-709 | Refuses exactly data that cannot be sized; otherwise what it sends parses to the packet, exactly for hosts that fit. |
| TuicPacket.Reply | src/proxy/tuic.rs:450-488 | What both server senders emit parses to the reply: same association, source and bytes. |
| TuicReassembly.ReassemblyInAnyOrder | src/proxy/tuic.rs:394-406 | The fragments of one packet, each once, in any order and interleaved with anything, complete exactly once, on the last to arrive, with the payload in id order; the key is then free. |
| TuicReassembly.ReassemblyExactlyWhen | src/proxy/tuic.rs:394-406 | For arrivals under a key that agree on their number, with anything in between: the payload completed is right whatever the fragments carry, exactly if every id is in range and occurs once. |
| TuicReassembly.JoinsExactlyWhen | src/proxy/tuic.rs:401-402 | Sorting by id and joining is right whatever the fragments carry, exactly for those ids. |
| TuicReassembly.ArrivalsComplete | src/proxy/tuic.rs:397-405 | Whatever their ids, as many arrivals as they say complete exactly once, on the last, with what sorting and joining gives. |
| TuicReassembly.EveryNthCompletes | src/proxy/tuic.rs:397-405 | Of any number of arrivals under a key that say there are n, every n-th completes what sorting and joining the last n gives, and no other completes anything. |
| TuicReassembly.ArrivalsExactly | src/proxy/tuic.rs:394-406 | For any arrivals, agreeing or not: what waits under a key is what came since its last completion, and an arrival completes exactly if it makes them as many as it says itself. |
| TuicReassembly.CompletesExactlyWhen | src/proxy/tuic.rs:394-406 | The same of any single arrival. |
| TuicReassembly.SortIsStable | src/proxy/tuic.rs:400-402 | Sorting gives the same fragments by increasing id, those of one id in the order they came. |
| TuicReassembly.KeysAreIndependent | src/proxy/tuic.rs:397-398 | What is kept and completed for a key depends only on that key's arrivals. |
| TuicReassembly.ShuffledJoins | src/proxy/tuic.rs:401-402 | Sorting by id and joining gives the payload whatever the order of arrival. |
| TuicReassembly.FragmentMap.AcceptFragment | src/proxy/tuic.rs:396-406 | One arrival at the map is exactly one step of the reference. |
| TuicReassembly.ZeroTotalNeverCompletes | src/proxy/tuic.rs:400 | Fragments with total zero pile up and never complete. |
| TuicReassembly.DuplicateCounts | src/proxy/tuic.rs:399-400 | Two copies of one fragment of two complete a wrong payload. |
| TuicGate.AuthenticationSafety | src/proxy/tuic.rs:237-317 | In every run of the three loops the flag is set exactly when an authentication with the configured uuid and token was read; before that no relay, session or fragment exists; waits ended by a notification, loops picked and a stored notification are together at most as many as the authentications accepted. |
| TuicGate.AuthenticationStays | src/proxy/tuic.rs:288 | The flag never resets. |
| TuicGateRuns.AuthenticatedPacketIsSent | src/proxy/tuic.rs:384-392 | Behind the gate an unfragmented packet for an installed session goes out on that session's socket, address and bytes unchanged, whatever the other loops and callers do between the steps of its relay. |
| TuicGateRuns.EarlyArrivalIsNotLost | src/proxy/tuic.rs:346-361 | The first to wait is picked by the authentication, and whatever others do until its loop runs on, its TCP relay then starts, or the relay of its packet does. |
| TuicGateRuns.LateWaiterIsNotLost | src/proxy/tuic.rs:231-254 | A loop that found the flag unset but had not begun to wait when the authentication came runs on at once when it does: the notification is kept for it. |
| TuicStreams.TcpExactly | src/proxy/tuic.rs:231-254 | In every run the TCP relays started are exactly the streams met by a free loop behind the gate and those that waited and were notified. |
| TuicStreams.NoStreamIsLost | src/proxy/tuic.rs:231-254 | In every run each accepted TCP stream has been started or is held at the gate; at most one is lost, and then the loop is over. |
| TuicStreams.PacketStartsRelay | src/proxy/tuic.rs:296-317 | Behind the gate any packet that parses starts its relay, and any other is passed over without a trace. |
| TuicStreams.CanRelay | src/proxy/tuic.rs:377-440 | From every reachable state a packet being relayed can be relayed to the end on a socket installed for its association, existing or new: its datagram sent, or its fragment added and what it completes sent. |
| TuicStreams.FailedSessionFreesLoop | src/proxy/tuic.rs:384-387 | A packet whose session cannot be had is dropped and its loop is free again. |
| TuicStreams.DissociateRemoves | src/proxy/tuic.rs:319-324 | A dissociate takes exactly its association out of the table, authenticated or not. |
| TuicStreams.SocketStays | src/proxy/tuic.rs:412-440 | In every run an association keeps its socket until it is dissociated. |
| TuicStreams.TimeoutCloses | src/proxy/tuic.rs:237-244 | A wait that runs out closes the connection and ends its loop, and a closed connection ends every free one. |
| TuicCommands.ReadUni | src/proxy/tuic.rs:271-326 | Reading a uni stream, cut into chunks anywhere, gives the command its bytes are. |
| TuicCommands.CommandsAreRead | src/proxy/tuic.rs:271-373 | The bytes of an authentication, a packet and a dissociate are read as those, with the values in them. |
| TuicCommands.NothingElseIsRead | src/proxy/tuic.rs:271-373 | No other bytes are a command of either loop. |
| TuicCommands.HandleTcp | src/proxy/tuic.rs:510-536 | Exactly for a complete connect request its target is dialled, and then the bytes behind the request are relayed to it and its own back. |
| TuicCommands.TcpEndToEnd | src/proxy/tuic.rs:657-667 | What `open_tcp` writes and the payload behind it are to the server a request for that target with that payload, exactly if the host fits its length byte. |
| TuicGate.PacketBeforeAuthenticationIsFatal | src/proxy/tuic.rs:295-307 | A packet read by the uni loop before the authentication leaves the connection unauthenticated and idle in every continuation. |
| TuicGateRuns.AuthenticatesExactlyWhen | src/proxy/tuic.rs:237-307 | A connection is authenticated exactly if the right command was sent while no packet had gone out on a uni stream before it and no wait for an earlier datagram or TCP stream had run out. |
| TuicGateRuns.WaiterHandledExactlyWhen | src/proxy/tuic.rs:289 | A wait at place i of the notifier's queue, in any state and any continuation in which it does not run out, gets to run on exactly if more than i authentications are accepted. |
| TuicGateRuns.EarlyWaiterHandledExactlyWhen | src/proxy/tuic.rs:237-306 | In the client's terms: of what a connection waits over before it authenticates, the i-th to begin waiting is handled exactly if more than i authentications are accepted while it waits; with one, the first and no other. |
| TuicGateRuns.SecondWaiterIsStuck | src/proxy/tuic.rs:289 | A waiting loop that has not been picked waits on, or its wait runs out and closes the connection, as long as no further authentication is accepted. |
| TuicGateRuns.TwoAuthenticationsPickBoth | src/proxy/tuic.rs:289 | Two authentications accepted while two loops wait pick both, even before either has run on. |
| TuicGateRuns.SecondWaiterClosesConnection | src/proxy/tuic.rs:237-244 | The run with one authentication in which the second wait closes the authenticated connection. |
| TuicGate.FragmentsReassemble | src/proxy/tuic.rs:394-410 | Reassembly in any order holds on a live connection, with both packet loops feeding one map. |
| TuicRelays.DatagramsAccounted | src/proxy/tuic.rs:377-410 | In every run the datagrams sent are, in the order of the sends and not of the fragments, those of relays that had a payload, their own or the one their fragment completed, and resolved: each to its packet's address on a socket installed for its association. No relay sends twice, every one with a payload has been sent or given up or is in a loop's hands, and every packet is one that came in. |
| TuicRelays.EveryDatagramIsJustified | src/proxy/tuic.rs:377-410 | Any datagram sent has a packet that came in to answer for its address, its socket and its data or reassembled payload. |
| TuicEndToEnd.UdpUploadEndToEnd | src/proxy/tuic.rs:692-709 | The bytes the client's `send_to` writes for a host that fits, read as a uni stream or a datagram, go out from the association's socket to that target with the same data, whatever else the connection does meanwhile. |
| TuicEndToEnd.UdpReplyEndToEnd | src/proxy/tuic.rs:450-459 | What the server's reader writes for a datagram is queued, with its source and bytes, for the client session that owns the association, if it has room. |
| TuicGate.RunRelays | src/proxy/tuic.rs:377-410 | A connection's session table and fragment map are at all times runs of their own machines. |
| TuicSessions.OneReaderPerSocket | src/proxy/tuic.rs:412-440 | In every run an installed socket has exactly one reader once its installer is done; a socket that lost the race has none. |
| TuicSessions.CallersGetInstalledSockets | src/proxy/tuic.rs:418-439 | Whoever gets a socket gets one installed for its own association, and no two associations share one. |
| TuicSessions.RacersAgree | src/proxy/tuic.rs:427-430 | Of the callers that called since the association was last dissociated, or whose socket was installed since, all that return a socket return the same one, the one in the table. |
| TuicSessions.OneSocketUnlessDissociated | src/proxy/tuic.rs:427-436 | In a run without a dissociate of an association at most one socket is ever installed for it. |
| TuicSessions.DissociateLeavesReader | src/proxy/tuic.rs:319-324 | A dissociate leaves the old socket and its reader as they are; an association that comes back gets a second socket with a reader of its own. |
| TuicSessions.SessionTable.GetOrInstall | src/proxy/tuic.rs:427-436 | Installs the caller's socket unless one is there, returns the installed one, and is exactly one install step of the machine. |
| TuicSessions.SessionTable.Find | src/proxy/tuic.rs:418-420 | Returns the installed socket if there is one, as one lookup step of the machine. |
| TuicSessions.SessionTable.Remove | src/proxy/tuic.rs:319-324 | A dissociate, as one step of the machine. |
| TuicClient.ReplyIsolation | src/proxy/tuic.rs:629-654 | In every run a session receives, in order and unchanged, the replies that arrived for it and found room, and no others; none is lost exactly if each found the session held and fewer than 256 waiting. |
| TuicClient.RouteLastsIdSpace | src/proxy/tuic.rs:671-680 | If nobody takes 65536 openings to insert its route, a session keeps its own exactly until a later session with its id inserts one, at the earliest 65536 openings later. |
| TuicClient.RouteIsLastInserted | src/proxy/tuic.rs:671-674 | In every run, however fetches and insertions interleave, an id is routed to the session that inserted its route last. |
| TuicClient.SessionsInOrder | src/proxy/tuic.rs:671-672 | In every run sessions have the ids 1, 2, 3, ... in the order they fetch them, wrapping at 65536, and are held until dropped. |
| TuicClient.RoutedExactlyWhen | src/proxy/tuic.rs:633-651 | A datagram is routed exactly if it is a complete packet command from an address or from a name that resolves. |
| TuicClient.ReplyIsRouted | src/proxy/tuic.rs:641-647 | The server's reply to an association is routed to it with its source and bytes. |
| TuicClient.UdpClient.OpenUdp | src/proxy/tuic.rs:671-680 | Fetches the next id and, after anything other tasks do meanwhile, inserts the route, which then names the new session. |
| TuicClient.UdpClient.OnDatagram | src/proxy/tuic.rs:634-651 | One pass of the datagram reader is exactly one arrival step. |
| Vless.HeaderRoundTrip | src/proxy/vless.rs:23-99 | A header is read back as written, leaving exactly the payload, by a server with the same uuid and for hosts of at most 255 bytes, and in no other case; another uuid is rejected as such. |
| Vless.AddonsAreNotSkipped | src/proxy/vless.rs:63 | The addons length has no influence on what is read. |
| Vless.AddonsExactlyWhenNone | src/proxy/vless.rs:49-99 | A header that carries addons is read right, target and length, exactly when there are none after all, the uuids agree and the host fits. |
| Vless.AcceptsExactlyWhen | src/proxy/vless.rs:49-99 | Exactly which bytes are accepted, and with which target and length: version 0, the server's uuid, command 1, a known tag and a complete address. |
| Vless.OthersAreRejected | src/proxy/vless.rs:49-99 | Every other version, command and address tag is rejected as such. |
| Vless.ReadVlessHeader | src/proxy/vless.rs:49-99 | Reading the header off any chunking gives what parsing its bytes gives, with the same bytes left unread; it is accepted exactly if it is a complete TCP request with the server's uuid. |
| Vless.EncodeHeader | src/proxy/vless.rs:23-46 | Appends exactly the header of the target. |
| Vless.HandleStream | src/proxy/vless.rs:102-154 | Something happens exactly for a TCP request in time: it dials the target in it, confirms only after the dial, and only then relays, the bytes behind the header to the target and the target's to the client: all of them, or as many as were written when a limit or a failing write cut that direction short. |
| Config.Validate | src/config.rs:360-432 | Succeeds exactly on valid configurations: distinct non-blank names, distinct non-zero sockets, settings each protocol needs. |
| Config.ValidExactlyWhen | src/config.rs:360-432 | The rules one by one: a web address, fit inbounds (a visible name, a port, the protocol's settings), no two of one name or one socket. |
| Config.CheckSettings | src/config.rs:377-428 | Exactly which settings each protocol accepts. |
| Config.UuidExactlyWhen | src/config.rs:379-385 | What is taken for a UUID is exactly 32 hexadecimal digits in one of four ways of writing them. |
| Config.ChooseAvailablePort | src/config.rs:516-538 | The first of 256 draws that is neither selected nor taken; fails exactly when there is none. |
| Config.ChooseFinds | src/config.rs:516-538 | A port is chosen exactly when some draw is usable. |
| Config.AssignMissingPorts | src/config.rs:449-470 | Computes the reference assignment and reports a change exactly when a port was missing. |
| Config.AssignMissingKeeps | src/config.rs:449-470 | Every inbound that had a port is untouched, and no new port collides with any other. |
| Config.AssignExactly | src/config.rs:449-470 | Each missing port becomes the first of its draws that is free and clear of all others; it fails exactly if some inbound has no such draw. |
| Config.ReassignAutoPort | src/config.rs:473-493 | Computes the reference reassignment; nothing changes on an error. |
| Config.ReassignMoves | src/config.rs:473-493 | Only the named automatic inbound moves, to where no other inbound is. |
| Config.FilledIsValid | src/config.rs:330-342 | With missing ports assigned the configuration is valid exactly when nothing but ports was wrong with it. |
| Config.MovedStaysValid | src/web/mod.rs:111-127 | Moving one automatic port keeps a configuration valid, though it is not validated again. |
| Config.InboundIndex | src/config.rs:495-497 | The first inbound of that name, or none if there is none. |
| Load.LoadOrCreate | src/config.rs:251-346 | The imperative load is the reference load, on every disk content and environment. |
| Load.LoadKeeps | src/config.rs:251-346 | Success gives a valid complete configuration that differs from the file only where something was missing, with all sockets free at one look, and the disk holds it; failure leaves the file alone. |
| Load.LoadGenerates | src/config.rs:282-345 | Exactly what a successful load generates, only where it was missing, and that it writes the file exactly when there was no file or something was missing, and then without the plaintext password. |
| Load.LoadSucceedsExactlyWhen | src/config.rs:251-346 | A load succeeds exactly if nothing but ports is wrong with what is read, a first draw of ports and some look succeed, what is missing can be generated, and the file can be written if there is anything to write. |
| Load.RetryExactlyWhen | src/config.rs:331-342 | The retry succeeds exactly if some look finds every socket free and every draw before it found ports; without ports of its own only the first look counts. |
| Load.LoadedPorts | src/config.rs:331-342 | The ports a load gives out are those drawn just before the first look that finds every socket free. |
| Load.LoadIsStable | src/config.rs:263-346 | Loading again returns what was stored or reports that its sockets are taken; no port, path, token or hash changes and nothing is written. |
| Load.OccupiedPortIsReported | src/config.rs:331-342 | A port that was already there and stays taken makes the load fail; it is never replaced. |
| Load.RetryKeeps | src/config.rs:331-341 | Drawing ports again keeps the configuration valid, though it is not validated again, and touches only ports missing at the start. |
| Load.RetryPorts | src/config.rs:331-342 | The retry loop computes the reference retry. |
| Listeners.Node.SpawnAll | src/web/mod.rs:92-199 | Starting all inbounds computes the reference outcome: listeners, memory, disk and result. |
| Listeners.StartInbound | src/web/mod.rs:111-127 | The bind-and-retry loop of one inbound computes the reference attempt, at most 16 retries and only on an automatic port. |
| Listeners.Node.CommitConfig | src/web/mod.rs:680-698 | Committing computes the reference commit: memory, disk, listeners and verdict. |
| Listeners.Node.RestartInbounds | src/web/mod.rs:351-354 | Stops everything, then starts everything. |
| Listeners.PreflightInbounds | src/web/mod.rs:704-749 | Succeeds exactly when every changed candidate's probe starts and stops. |
| ListenerSafety.SpawnAgrees | src/web/mod.rs:92-199 | From no listeners: true means exactly that every inbound runs; each listener runs on the port memory gives its inbound; memory changes only in automatic ports, only if all run, and then the disk holds it. |
| ListenerSafety.StartOneKeeps | src/web/mod.rs:111-127 | However often one inbound is retried, the inbounds stay valid, only its automatic port moves, and its listener is on the port it ended with. |
| ListenerSafety.StartsExactlyWhen | src/web/mod.rs:110-127 | An automatic inbound comes up exactly when one of its 17 attempts does and every earlier one found its port taken and a free one to move to; a fixed one has only its first attempt. |
| ListenerSafety.RunsExactlyWhen | src/web/mod.rs:98-174 | Starting all inbounds: each one runs exactly by its own attempts, clear of the sockets of the others, whatever became of those; all run exactly if each does. |
| ListenerSafety.SpawnRunsExactly | src/web/mod.rs:98-199 | What runs in the end: if no port moved, exactly the inbounds that came up; if one did, all of them if all came up and the ports could be saved, and otherwise none. |
| ListenerSafety.StartsOnPort | src/web/mod.rs:110-127 | An inbound ends on its own port if its first attempt succeeds, and otherwise on the first usable draw of the attempt before the one that does. |
| ListenerSafety.MergeIsWorking | src/web/mod.rs:179-184 | Copying the ports back by name gives exactly the inbounds that were started. |
| Commits.CommitKeeps | src/web/mod.rs:680-749 | All or nothing: the candidate, saved and all running, or the previous configuration, either up to automatic ports; a refused candidate leaves no trace. |
| Commits.CommitDisk | src/web/mod.rs:680-698 | Exactly what the disk holds after any commit. |
| Commits.SyncAfterCommit | src/web/mod.rs:680-698 | A disk in step with memory stays so, with exactly one exception, given by its causes: the final save fails after the first start brought everything up, moved a port and saved it, and the rollback's start saves none. |
| Commits.RestartByCauses | src/web/mod.rs:351-354 | A restart succeeds, and moves ports in memory, exactly by what its starts found and whether moved ports could be saved. |
| Commits.RejectedCandidateCanStayOnDisk | src/web/mod.rs:678-697 | The exception happens: an error, memory restored, and the rejected candidate on disk. |
| Commits.CommitSucceeds | src/web/mod.rs:680-698 | If nothing goes wrong, the candidate runs and is saved to the letter. |
| Commits.CommitFailsExactlyWhen | src/web/mod.rs:680-698 | A commit that is not refused succeeds, or fails with which error, exactly by the candidate's own attempts and the two saves. |
| Commits.RollbackRestores | src/web/mod.rs:686-697 | If it fails and the previous inbounds can be started again, memory is the previous configuration to the letter and all of it runs. |
| Commits.ProbeSparesOwnSocket | src/web/mod.rs:700-721 | A probe never contests the socket the listener of the same name holds. |
| Commits.ProbedExactlyWhen | src/web/mod.rs:704-723 | Exactly the inbounds that are not there already are probed, as they are or, on a socket kept by name, on a port of the system's choosing. |
| Commits.FailedProbeRefuses | src/web/mod.rs:724-747 | Any probe that does not start, or does not stop again, refuses the commit without a trace. |
| Commits.TakeoverIsRefused | src/web/mod.rs:709-745 | A candidate that gives a running inbound's socket to an inbound of another name is refused without a trace. |
| Commits.PreflightExactlyWhen | src/web/mod.rs:704-756 | If probes fail exactly on sockets that running listeners hold, preflight passes exactly the candidates that take over no such socket under another name. |
| Commits.RefusedExactlyWhen | src/web/mod.rs:680-684 | So a commit is refused without a trace exactly for an invalid candidate or one that takes over, with the error that belongs to each. |
| Commits.RequestsKeep | src/web/mod.rs:487-506 | Over any sequence of requests, commits, new subscriptions and account changes, listeners agree with a valid memory; if the commits' final saves work, the disk keeps in step. |
| Commits.PlaintextIsNeverWritten | src/config.rs:349-358 | Whatever is requested, no plaintext password is ever written to disk. |
| Listeners.Node.RegenerateSubscription | src/web/mod.rs:758-773 | Exactly the subscription's path and token change, and only once they are saved, without the plaintext password. |
| Listeners.Node.ChangeAccount | src/web/mod.rs:487-506 | Exactly which answer is given (password too short, old password wrong, hash or save failed), and that exactly the user name and password hash change, only once they are saved. |
| Commits.LifetimeKeeps | src/config.rs:251-346 | From load through start and any requests the same holds, and a later load finds the configuration that ran. |
| RateLimit.RateLimiter.Allow | src/web/mod.rs:55-69 | Admits exactly when the number of all times ever admitted that lie less than a window ago is below the limit. |
| RateLimit.Serve | src/web/mod.rs:55-69 | Any run on a monotone clock admits what the full-history specification admits. |
| RateLimit.NeverTooMany | src/web/mod.rs:55-69 | Of any limit + 1 consecutive admissions the first and the last are at least a window apart. |
| RateLimit.PruneKeepsRecent | src/web/mod.rs:57-63 | On admissions in order of time, what pruning keeps is exactly what is recent. |
| RateLimit.RecentCounts | src/web/mod.rs:57-63 | What the specification counts are the admissions less than a window ago. |

## Left out

- TLS, QUIC, SHA-256, Argon2 and keying material: digests, hashes and tokens are parameters.
- Sockets, DNS, timeouts and the scheduler: nondeterministic results and events. That a step can be taken is proved; that it ever is, is not claimed.
- Parsing the version out of the settings text (`src/proxy/anytls.rs:181-189`): the parsed version is part of the event.
- Failing writes in the AnyTLS state machine: there every frame sent is recorded in order; partial writes and a writer that dies are in the byte-level machine of `SharedWriter`.
- `AnyTlsConn.Conn`: stream handlers are the actions of the state machine rather than methods of their own; the reading part of a handler is `ChunkedRead.ChunkedReader`.
- `TuicGate`: the three TUIC loops are a state machine only, without an imperative twin; its events are the commands that do something, read off the bytes by `TuicCommands`. A wait polls its notification before its timer, so one that has been picked does not time out.
- The choice between datagram and uni stream for a reply (`src/proxy/tuic.rs:461-473`): both send the same bytes.
- `Config` is a value that methods return anew; the settings of an inbound that do not concern its socket are grouped in one record, outbounds are not part of this model, and whether the web listen text is a socket address is a flag of the configuration.
- Config.AssignMissingPorts: on an error the original has already assigned some ports in place; its callers drop that copy, so the result is left unspecified here.
- Load.LoadOrCreate: the bootstrap password file and the certificate files are flags of the environment.
- The permission change after the file is replaced (`src/config.rs:356-357`): a save replaces the file or leaves it.
- Cloudflare tunnels, which save on their own (`src/web/mod.rs:208-330`), the event log and the runtime status.
- Admin handlers run one at a time; the original lets them race on the configuration.
- Cleaning up unfinished fragments, and liveness of waiting for authentication: the code promises neither. What arrivals under one key that disagree on their number do is stated (`TuicReassembly.ArrivalsExactly`), but there is no payload they promise.
- HTTP routing, sessions, headers, the UI, subscription texts and health checks.
