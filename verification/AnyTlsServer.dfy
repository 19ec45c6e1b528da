/**
 One AnyTLS server connection as a state machine: the reader loop of `handle_conn` and any number of stream handlers,
 interleaved at the points where they touch shared state. A run is any sequence of events; an event that is not
 enabled changes nothing.
*/
module AnyTlsServer {
  import opened Bytes
  import opened Address
  import opened ChunkedRead
  import opened AnyTlsFrames

  const STREAM_QUEUE_CAPACITY := 64

  datatype Phase = Target | Dialing | Relaying | CopyDone | Returned
  datatype UpTask = NotStarted | Running | Ended

  /** One incarnation of a stream: its queue, its handler task and the task copying back from upstream. */
  datatype Chan = Chan(
    sid: u32,
    born: nat,                     // index of its SYN among the frames processed
    accepted: seq<seq<byte>>,      // every chunk the reader loop managed to queue
    open: bool,                    // the sender is still in the stream table
    rejected: bool,                // a chunk was refused and the stream removed
    queue: seq<seq<byte>>,
    pending: seq<byte>,            // unread part of the chunk being read
    read: seq<byte>,               // everything the handler has read
    header: nat,                   // how much of it was the target address
    target: Option<Addr>,
    phase: Phase,
    upstream: seq<byte>,           // everything written to the target
    eof: bool,                     // the copy to upstream saw the end of the stream
    upTask: UpTask,
    downloaded: seq<seq<byte>>     // everything read back from the target
  )

  datatype Server = Server(
    gotSettings: bool,
    peerVersion: byte,
    streams: map<u32, nat>,        // stream id to its live incarnation
    chans: seq<Chan>,
    out: seq<Frame>,               // frames sent to the client, in order
    seen: seq<Frame>,              // frames the reader loop has processed
    ended: bool
  )

  datatype Action =
    | Poll(room: nat)                   // the handler polls its reader
    | Dialed(error: Option<seq<byte>>)  // connect() resolves
    | Write(n: nat)                     // io::copy writes n more bytes upstream
    | CopyEof                           // io::copy finishes at the end of the stream
    | CopyError                         // io::copy fails
    | UpRead(data: seq<byte>)           // the upstream side delivers bytes
    | UpEnd                             // the upstream side is over
    | Return                            // the handler task ends

  datatype Event =
    | Deliver(frame: Frame, version: byte)   // the reader loop handles a frame; version is what its settings parse to
    | Disconnect                             // the reader loop cannot read another frame
    | Handler(chan: nat, action: Action)

  function Init(): Server { Server(false, 0, map[], [], [], [], false) }

  function NewChan(sid: u32, born: nat): Chan {
    Chan(sid, born, [], true, false, [], [], [], 0, None, Target, [], false, NotStarted, [])
  }

  // ---- The reader loop ----

  const ALERT_TEXT := Ascii("client did not send its settings")
  const SETTINGS_REPLY := Ascii("v=2\n")
  const DEFAULT_PADDING_SCHEME := Ascii(
    "stop=8\n0=30-30\n1=100-400\n2=400-500,c,500-1000,c,500-1000,c,500-1000,c,500-1000\n3=9-9,500-1000\n4=500-1000\n5=500-1000\n6=500-1000\n7=500-1000\n")

  function CloseAll(chans: seq<Chan>): (r: seq<Chan>)
    ensures |r| == |chans|
    ensures forall c | 0 <= c < |r| :: r[c] == chans[c].(open := false)
  {
    seq(|chans|, c requires 0 <= c < |chans| => chans[c].(open := false))
  }

  // Leaving the loop drops the stream table and with it every sender.
  function HangUp(s: Server): Server {
    s.(ended := true, streams := map[], chans := CloseAll(s.chans))
  }

  function Push(s: Server, f: Frame): Server {
    if f.sid !in s.streams || f.data == [] || s.streams[f.sid] >= |s.chans| then s else
    var c := s.streams[f.sid];
    var ch := s.chans[c];
    if |ch.queue| < STREAM_QUEUE_CAPACITY && !ch.phase.Returned? then
      s.(chans := s.chans[c := ch.(queue := ch.queue + [f.data], accepted := ch.accepted + [f.data])])
    else
      s.(chans := s.chans[c := ch.(open := false, rejected := true)],
         streams := s.streams - {f.sid},
         out := s.out + [Frame(CMD_FIN, f.sid, [])])
  }

  function Syn(s: Server, f: Frame): Server
    requires s.seen != []
  {
    if !s.gotSettings then HangUp(s.(out := s.out + [Frame(CMD_ALERT, 0, ALERT_TEXT)]))
    else if f.sid in s.streams then s
    else s.(chans := s.chans + [NewChan(f.sid, |s.seen| - 1)],
            streams := s.streams[f.sid := |s.chans|])
  }

  function Fin(s: Server, f: Frame): Server {
    if f.sid !in s.streams || s.streams[f.sid] >= |s.chans| then s else
    var c := s.streams[f.sid];
    s.(chans := s.chans[c := s.chans[c].(open := false)], streams := s.streams - {f.sid})
  }

  function Settings(s: Server, version: byte): Server {
    var reply := [Frame(CMD_UPDATE_PADDING, 0, DEFAULT_PADDING_SCHEME)];
    if version >= 2 then
      s.(gotSettings := true, peerVersion := 2,
         out := s.out + reply + [Frame(CMD_SERVER_SETTINGS, 0, SETTINGS_REPLY)])
    else s.(gotSettings := true, out := s.out + reply)
  }

  // One pass of the loop body, the frame already recorded in `seen`.
  function Dispatch(s: Server, f: Frame, version: byte): Server
    requires s.seen != []
  {
    if f.cmd == CMD_PSH then Push(s, f)
    else if f.cmd == CMD_SYN then Syn(s, f)
    else if f.cmd == CMD_FIN then Fin(s, f)
    else if f.cmd == CMD_SETTINGS then Settings(s, version)
    else if f.cmd == CMD_HEART_REQUEST then s.(out := s.out + [Frame(CMD_HEART_RESPONSE, f.sid, [])])
    else s
  }

  // ---- A stream handler ----

  datatype Acted = Acted(chan: Chan, frames: seq<Frame>)

  // read_socksaddr asks for exactly what the read in progress still wants; io::copy takes whatever is there.
  function PollChan(ch: Chan, room: nat): Chan {
    if ch.phase.Target? then
      var p := PollQueue(ch.pending, ch.queue, !ch.open, Demand(SOCKS, ch.read));
      var next := ch.(pending := p.pending, queue := p.queue);
      if p.poll.Pending? then next
      else if p.poll.data == [] then next.(phase := Returned)
      else TargetBytes(next.(read := ch.read + p.poll.data))
    else if ch.phase.Relaying? && room > 0 then
      var p := PollQueue(ch.pending, ch.queue, !ch.open, room);
      ch.(pending := p.pending, queue := p.queue, read := ch.read + if p.poll.Ready? then p.poll.data else [])
    else ch
  }

  function TargetBytes(ch: Chan): Chan {
    if Demand(SOCKS, ch.read) > 0 then ch
    else match ParseAddr(SOCKS, ch.read)
      case Ok(a, _) => ch.(phase := Dialing, target := Some(a), header := |ch.read|)
      case Err(_) => ch.(phase := Returned)
  }

  function Unwritten(ch: Chan): nat {
    if ch.header + |ch.upstream| <= |ch.read| then |ch.read| - ch.header - |ch.upstream| else 0
  }

  function Act(ch: Chan, a: Action, version: byte): Acted {
    match a
    case Poll(room) => Acted(PollChan(ch, room), [])
    case Dialed(error) =>
      if !ch.phase.Dialing? then Acted(ch, [])
      else if error.Some? then
        Acted(ch.(phase := Returned), if version >= 2 then [Frame(CMD_SYNACK, ch.sid, error.value)] else [])
      else
        Acted(ch.(phase := Relaying, upTask := Running), if version >= 2 then [Frame(CMD_SYNACK, ch.sid, [])] else [])
    case Write(n) =>
      if ch.phase.Relaying? && n <= Unwritten(ch) && ch.header + |ch.upstream| <= |ch.read| then
        var at := ch.header + |ch.upstream|;
        Acted(ch.(upstream := ch.upstream + ch.read[at..at + n]), [])
      else Acted(ch, [])
    case CopyEof =>
      if ch.phase.Relaying? && !ch.open && ch.pending == [] && ch.queue == [] && Unwritten(ch) == 0 then
        Acted(ch.(phase := CopyDone, eof := true), [])
      else Acted(ch, [])
    case CopyError =>
      if ch.phase.Relaying? then Acted(ch.(phase := CopyDone), []) else Acted(ch, [])
    case UpRead(data) =>
      if ch.upTask.Running? && 0 < |data| <= RELAY_BUFFER_SIZE then
        Acted(ch.(downloaded := ch.downloaded + [data]), [Frame(CMD_PSH, ch.sid, data)])
      else Acted(ch, [])
    case UpEnd =>
      if ch.upTask.Running? then Acted(ch.(upTask := Ended), [Frame(CMD_FIN, ch.sid, [])]) else Acted(ch, [])
    case Return =>
      if ch.phase.CopyDone? && ch.upTask.Ended? then Acted(ch.(phase := Returned), []) else Acted(ch, [])
  }

  // ---- Runs ----

  function Step(s: Server, e: Event): Server {
    match e
    case Deliver(f, version) => if s.ended then s else Dispatch(s.(seen := s.seen + [f]), f, version)
    case Disconnect => if s.ended then s else HangUp(s)
    case Handler(c, a) =>
      if c >= |s.chans| then s else
      var r := Act(s.chans[c], a, s.peerVersion);
      s.(chans := s.chans[c := r.chan], out := s.out + r.frames)
  }

  function Run(s: Server, es: seq<Event>): Server {
    if es == [] then s else Step(Run(s, es[..|es| - 1]), es[|es| - 1])
  }

  // The frames the reader loop was given, in order.
  function Delivered(es: seq<Event>): seq<Frame> {
    if es == [] then [] else
    var e := es[|es| - 1];
    Delivered(es[..|es| - 1]) + if e.Deliver? then [e.frame] else []
  }

  lemma {:induction false} RunConcat(s: Server, a: seq<Event>, b: seq<Event>)
    ensures Run(s, a + b) == Run(Run(s, a), b)
    ensures Delivered(a + b) == Delivered(a) + Delivered(b)
  {
    if b == [] {
      assert a + b == a;
    } else {
      var k := |b| - 1;
      RunConcat(s, a, b[..k]);
      LastEvent(s, a, b, k);
    }
  }

  lemma LastEvent(s: Server, a: seq<Event>, b: seq<Event>, k: nat)
    requires |b| == k + 1
    ensures Run(s, a + b) == Step(Run(s, a + b[..k]), b[k])
    ensures Delivered(a + b) == Delivered(a + b[..k]) + if b[k].Deliver? then [b[k].frame] else []
  {
    assert (a + b)[..|a + b| - 1] == a + b[..k];
  }

  lemma Then(es: seq<Event>, s: Server, e: Event) returns (es': seq<Event>, s': Server)
    requires s == Run(Init(), es)
    ensures es' == es + [e] && s' == Step(s, e) == Run(Init(), es')
    ensures Delivered(es') == Delivered(es) + if e.Deliver? then [e.frame] else []
  {
    es', s' := es + [e], Step(s, e);
    assert es'[..|es'| - 1] == es;
  }
}
