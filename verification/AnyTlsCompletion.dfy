/** Every tunnel can run to completion: the promises about finished uploads are not about runs that never happen. */
module AnyTlsCompletion {
  import opened Bytes
  import opened Address
  import opened ChunkedRead
  import opened AnyTlsFrames
  import opened AnyTlsServer
  import opened AnyTlsDownload
  import opened AnyTlsDial
  import opened AnyTlsUpload
  import E = AnyTlsEndToEnd
  import H = AnyTlsHandler
  import R = AnyTlsReader

  // A block read part by part: each read asks for bytes of the block, until it is complete.
  lemma DemandWithin(block: seq<byte>, k: nat)
    requires ParseAddr(SOCKS, block).Ok? && ParseAddr(SOCKS, block).used == |block| && k < |block|
    ensures 0 < Demand(SOCKS, block[..k]) <= |block| - k
    ensures Demand(SOCKS, block) == 0
  {
  }

  // A server serving one stream, its target not yet known or known.
  predicate OneStream(s: Server, ch: Chan) {
    s.gotSettings && !s.ended && s.peerVersion == 2 && s.streams == map[SID := 0] && s.chans == [ch] && ch.open && ch.sid == SID
  }

  // The next part of the block.
  lemma ReadsPart(es: seq<Event>, s: Server, ch: Chan, block: seq<byte>, k: nat)
    returns (es': seq<Event>, s': Server, n: nat)
    requires s == Run(Init(), es) && OneStream(s, ch) && ch.phase.Target? && k < |block|
    requires ParseAddr(SOCKS, block).Ok? && ParseAddr(SOCKS, block).used == |block| && ch.read == block[..k]
    requires (ch.queue == [] && ch.pending == block[k..]) || (ch.queue == [block[k..]] && ch.pending == [])
    ensures s' == Run(Init(), es') && Delivered(es') == Delivered(es) && 0 < n <= |block| - k
    ensures s' == s.(chans := [TargetBytes(ch.(read := block[..k + n], pending := block[k + n..], queue := []))])
  {
    DemandWithin(block, k);
    n := Demand(SOCKS, block[..k]);
    es', s' := TargetPoll(es, s, block[..k], block[k..], ch.queue, n);
    assert block[..k] + block[k..][..n] == block[..k + n] && block[k..][n..] == block[k + n..];
  }

  lemma {:induction false} ReadsTarget(es: seq<Event>, s: Server, ch: Chan, block: seq<byte>, k: nat, a: Addr)
    returns (es': seq<Event>, s': Server)
    requires s == Run(Init(), es) && OneStream(s, ch) && ch.phase.Target? && k < |block|
    requires ParseAddr(SOCKS, block) == Ok(a, |block|) && ch.read == block[..k]
    requires (ch.queue == [] && ch.pending == block[k..]) || (ch.queue == [block[k..]] && ch.pending == [])
    ensures s' == Run(Init(), es') && Delivered(es') == Delivered(es)
    ensures s' == s.(chans := [Known(ch, block, a)])
    decreases |block| - k
  {
    var n: nat;
    es', s', n := ReadsPart(es, s, ch, block, k);
    var next := ch.(read := block[..k + n], pending := block[k + n..], queue := []);
    if k + n < |block| {
      DemandWithin(block, k + n);
      es', s' := ReadsTarget(es', s', next, block, k + n, a);
    } else {
      LastPart(ch, block, k, a);
      assert block[..k + n] == block && block[k + n..] == [];
    }
  }

  // The target known and about to be dialled.
  function Known(ch: Chan, block: seq<byte>, a: Addr): Chan {
    ch.(read := block, pending := [], queue := [], phase := Dialing, target := Some(a), header := |block|)
  }

  lemma LastPart(ch: Chan, block: seq<byte>, k: nat, a: Addr)
    requires ParseAddr(SOCKS, block) == Ok(a, |block|) && k < |block|
    ensures TargetBytes(ch.(read := block, pending := [], queue := [])) == Known(ch, block, a)
  {
    DemandWithin(block, k);
  }

  lemma DialConfirmed(es: seq<Event>, s: Server, ch: Chan) returns (es': seq<Event>, s': Server)
    requires s == Run(Init(), es) && OneStream(s, ch) && ch.phase.Dialing?
    ensures s' == Run(Init(), es') && Delivered(es') == Delivered(es) && s'.seen == s.seen
    ensures OneStream(s', ch.(phase := Relaying, upTask := Running))
  {
    es', s' := Then(es, s, Handler(0, Dialed(None)));
  }

  // Nothing in flight: all that was sent has been read, and all that was read behind the target has been written.
  predicate Settled(ch: Chan) {
    ch.phase.Relaying? && ch.queue == [] && ch.pending == [] && ch.header + |ch.upstream| == |ch.read| && !ch.rejected
  }

  function Relayed(ch: Chan, data: seq<byte>): Chan {
    ch.(accepted := ch.accepted + [data], read := ch.read + data, upstream := ch.upstream + data)
  }

  // A chunk delivered into an empty queue.
  lemma ChunkQueued(es: seq<Event>, s: Server, ch: Chan, data: seq<byte>) returns (es': seq<Event>, s': Server)
    requires s == Run(Init(), es) && OneStream(s, ch) && Settled(ch) && data != []
    ensures s' == Run(Init(), es') && Delivered(es') == Delivered(es) + [Frame(CMD_PSH, SID, data)]
    ensures s'.seen == s.seen + [Frame(CMD_PSH, SID, data)]
    ensures OneStream(s', ch.(queue := [data], accepted := ch.accepted + [data]))
  {
    es', s' := Then(es, s, Deliver(Frame(CMD_PSH, SID, data), 2));
    assert ch.queue + [data] == [data];
  }

  // The queued chunk read.
  lemma ChunkRead(es: seq<Event>, s: Server, ch: Chan, data: seq<byte>) returns (es': seq<Event>, s': Server)
    requires s == Run(Init(), es) && OneStream(s, ch) && ch.phase.Relaying? && data != []
    requires ch.queue == [data] && ch.pending == []
    ensures s' == Run(Init(), es') && Delivered(es') == Delivered(es) && s'.seen == s.seen
    ensures OneStream(s', ch.(queue := [], read := ch.read + data))
  {
    PollsWhole(data);
    es', s' := Then(es, s, Handler(0, Poll(|data|)));
  }

  // What was read written.
  lemma ChunkWritten(es: seq<Event>, s: Server, ch: Chan, data: seq<byte>) returns (es': seq<Event>, s': Server)
    requires s == Run(Init(), es) && OneStream(s, ch) && ch.phase.Relaying?
    requires ch.header + |ch.upstream| + |data| == |ch.read| && ch.read[ch.header + |ch.upstream|..] == data
    ensures s' == Run(Init(), es') && Delivered(es') == Delivered(es) && s'.seen == s.seen
    ensures OneStream(s', ch.(upstream := ch.upstream + data))
  {
    es', s' := Then(es, s, Handler(0, Write(|data|)));
    var at := ch.header + |ch.upstream|;
    assert ch.read[at..at + |data|] == data;
  }

  // One chunk delivered, read and written.
  lemma RelaysChunk(es: seq<Event>, s: Server, ch: Chan, data: seq<byte>) returns (es': seq<Event>, s': Server)
    requires s == Run(Init(), es) && OneStream(s, ch) && Settled(ch) && data != []
    ensures s' == Run(Init(), es') && Delivered(es') == Delivered(es) + [Frame(CMD_PSH, SID, data)]
    ensures OneStream(s', Relayed(ch, data)) && Settled(Relayed(ch, data))
    ensures s'.seen == s.seen + [Frame(CMD_PSH, SID, data)]
  {
    es', s' := ChunkQueued(es, s, ch, data);
    var queued := ch.(queue := [data], accepted := ch.accepted + [data]);
    es', s' := ChunkRead(es', s', queued, data);
    es', s' := ChunkWritten(es', s', queued.(queue := [], read := ch.read + data), data);
  }

  lemma PollsWhole(data: seq<byte>)
    requires data != []
    ensures PollQueue([], [data], false, |data|) == Polled(Ready(data), [], [])
  {
    assert data[..|data|] == data && data[|data|..] == [];
    assert [data][1..] == [];
  }

  lemma {:induction false} RelaysAll(es: seq<Event>, s: Server, ch: Chan, chunks: seq<seq<byte>>)
    returns (es': seq<Event>, s': Server, ch': Chan)
    requires s == Run(Init(), es) && OneStream(s, ch) && Settled(ch) && RelayChunks(chunks)
    ensures s' == Run(Init(), es') && Delivered(es') == Delivered(es) + PushFrames(chunks)
    ensures OneStream(s', ch') && Settled(ch') && s'.seen == s.seen + PushFrames(chunks)
    ensures ch'.upstream == ch.upstream + Flatten(chunks) && ch'.target == ch.target
    decreases |chunks|
  {
    es', s', ch' := es, s, ch;
    if chunks == [] {
      assert PushFrames(chunks) == [];
    } else {
      es', s' := RelaysChunk(es, s, ch, chunks[0]);
      ch' := Relayed(ch, chunks[0]);
      es', s', ch' := RelaysAll(es', s', ch', chunks[1..]);
      FirstPush(chunks, s.seen, Delivered(es));
      Assoc(ch.upstream, chunks[0], Flatten(chunks[1..]));
    }
  }

  lemma FirstPush(chunks: seq<seq<byte>>, a: seq<Frame>, b: seq<Frame>)
    requires chunks != []
    ensures var first := [Frame(CMD_PSH, SID, chunks[0])];
            && a + first + PushFrames(chunks[1..]) == a + PushFrames(chunks)
            && b + first + PushFrames(chunks[1..]) == b + PushFrames(chunks)
  {
    assert PushFrames(chunks) == [Frame(CMD_PSH, SID, chunks[0])] + PushFrames(chunks[1..]);
  }

  // The opening handled, the target read and dialled.
  lemma Opens(target: Addr) returns (es: seq<Event>, s: Server, ch: Chan)
    requires ShortHost(target)
    ensures s == Run(Init(), es) && Delivered(es) == Opening(target) == s.seen
    ensures OneStream(s, ch) && Settled(ch) && ch.upstream == [] && ch.target == Some(target)
  {
    var block := Encode(SOCKS, target);
    EncodeThenParse(SOCKS, target, []);
    assert block + [] == block;
    var queued: Chan;
    es, s, queued := TargetQueued(block);
    assert block[0..] == block && block[..0] == [];
    es, s := ReadsTarget(es, s, queued, block, 0, target);
    es, s := DialConfirmed(es, s, Known(queued, block, target));
    ch := s.chans[0];
  }

  lemma TargetQueued(block: seq<byte>) returns (es: seq<Event>, s: Server, ch: Chan)
    requires block != []
    ensures s == Run(Init(), es) && OneStream(s, ch)
    ensures Delivered(es) == [Frame(CMD_SETTINGS, 0, SETTINGS), Frame(CMD_SYN, SID, []), Frame(CMD_PSH, SID, block)] == s.seen
    ensures ch == NewChan(SID, 1).(queue := [block], accepted := [block])
  {
    es, s := Then([], Init(), Deliver(Frame(CMD_SETTINGS, 0, SETTINGS), 2));
    es, s := Then(es, s, Deliver(Frame(CMD_SYN, SID, []), 2));
    ch := NewChan(SID, 1);
    assert s.chans == [ch];
    es, s := Then(es, s, Deliver(Frame(CMD_PSH, SID, block), 2));
    assert ch.queue + [block] == [block];
    ch := ch.(queue := [block], accepted := [block]);
    assert s.chans == [ch];
  }

  // For every target whose host fits and every payload, some run receives all of the client's frames, ends the copy at the
  // end of the stream with nothing refused, and has dialled the target and written the payload.
  lemma TunnelCanComplete(target: Addr, chunks: seq<seq<byte>>) returns (es: seq<Event>)
    requires ShortHost(target) && RelayChunks(chunks)
    ensures var s := Run(Init(), es);
            var fs := Opening(target) + PushFrames(chunks) + [Frame(CMD_FIN, SID, [])];
            && ClientFrames(fs, target, chunks) && Delivered(es) == fs == s.seen
            && |s.chans| == 1 && s.chans[0].eof && !s.chans[0].rejected
            && s.chans[0].target == Some(target) && s.chans[0].upstream == Flatten(chunks)
  {
    var s: Server, ch: Chan;
    es, s, ch := Opens(target);
    es, s, ch := RelaysAll(es, s, ch, chunks);
    es, s := Then(es, s, Deliver(Frame(CMD_FIN, SID, []), 2));
    assert s.chans == [ch.(open := false)];
    es, s := Then(es, s, Handler(0, CopyEof));
    assert s.chans == [ch.(open := false, phase := CopyDone, eof := true)];
    Complete(s.seen, target, chunks);
  }

  // ---- From any point on ----

  lemma {:induction false} KeptWasThere(fs: seq<Frame>, f: Frame)
    requires f in WithoutReplies(fs)
    ensures f in fs
  {
    if f != fs[0] {
      KeptWasThere(fs[1..], f);
    }
  }

  lemma FinWasSent(fs: seq<Frame>, target: Addr, chunks: seq<seq<byte>>)
    requires ClientFrames(fs, target, chunks)
    ensures HasFin(fs, SID)
  {
    var fin := Frame(CMD_FIN, SID, []);
    assert (PushFrames(chunks) + [fin])[|chunks|] == fin;
    KeptWasThere(fs[3..], fin);
    var i :| 0 <= i < |fs[3..]| && fs[3..][i] == fin;
    assert Ends(fs[i + 3], SID);
  }

  // All of the client's frames handled and none refused: its one stream is closed, and was given the block and the payload.
  lemma AllGiven(es: seq<Event>, fs: seq<Frame>, target: Addr, chunks: seq<seq<byte>>, s: Server)
    requires s == Run(Init(), es) && ClientFrames(fs, target, chunks) && s.seen == fs == Delivered(es) && !R.SomeRefused(es, 0)
    ensures |s.chans| == 1 && !s.chans[0].open && s.chans[0].sid == SID
    ensures Flatten(s.chans[0].accepted) == Encode(SOCKS, target) + Flatten(chunks)
  {
    SeenIsDelivered(es);
    SeenWithin(es, fs, target, chunks);
    var ch := s.chans[0];
    R.RejectedExactlyWhen(es, 0);
    RunKeeps(es);
    assert HistoryInv(ch, s.seen, s.ended);
    FinWasSent(fs, target, chunks);
    E.FinBehindOpening(s.seen, fs, target);
    E.ReceivedWithinSent(s.seen, fs, target, chunks);
  }

  // The stream has been opened, by frame 1.
  lemma SeenWithin(es: seq<Event>, fs: seq<Frame>, target: Addr, chunks: seq<seq<byte>>)
    requires ClientFrames(fs, target, chunks) && Run(Init(), es).seen == fs && Delivered(es) <= fs
    ensures var s := Run(Init(), es);
            |s.chans| == 1 && s.chans[0].born == 1 && s.chans[0].sid == SID
  {
    var s := Run(Init(), es);
    assert fs[0] == fs[..3][0] && fs[1] == fs[..3][1];
    assert s.seen[..1][0].cmd == CMD_SETTINGS;
    R.SynHasStream(es, 1);
    SeenIsDelivered(es);
    E.OneIncarnation(es, fs, target, chunks);
  }

  // Reading the target if that is not done, and dialling it.
  lemma ReachesRelay(es: seq<Event>, fs: seq<Frame>, target: Addr, chunks: seq<seq<byte>>, s: Server)
    returns (es': seq<Event>, s': Server)
    requires s == Run(Init(), es) && ClientFrames(fs, target, chunks) && ShortHost(target)
    requires s.seen == fs == Delivered(es) && !R.SomeRefused(es, 0)
    requires |s.chans| == 1 && (s.chans[0].phase.Target? || s.chans[0].phase.Dialing?)
    ensures s' == Run(Init(), es') && Delivered(es') == Delivered(es) && |s'.chans| == 1
    ensures var ch := s'.chans[0];
            && ch.phase.Relaying? && ch.upTask.Running? && !ch.open && ch.sid == SID && ch.target == Some(target)
            && ch.header == |Encode(SOCKS, target)| && Flatten(ch.accepted) == Encode(SOCKS, target) + Flatten(chunks)
  {
    es', s' := es, s;
    AllGiven(es, fs, target, chunks, s);
    EncodeThenParse(SOCKS, target, Flatten(chunks));
    if s.chans[0].phase.Target? {
      es', s' := H.CanReadTarget(es, s, 0);
    } else {
      TargetKnown(es, fs, target, chunks, s);
    }
    var ch := s'.chans[0];
    var r := Act(ch, Dialed(None), s'.peerVersion);
    es', s' := H.Acts(es', s', 0, Dialed(None), r);
  }

  lemma TargetKnown(es: seq<Event>, fs: seq<Frame>, target: Addr, chunks: seq<seq<byte>>, s: Server)
    requires s == Run(Init(), es) && ClientFrames(fs, target, chunks) && ShortHost(target)
    requires s.seen == fs == Delivered(es) && !R.SomeRefused(es, 0)
    requires |s.chans| == 1 && s.chans[0].phase.Dialing?
    ensures s.chans[0].target == Some(target) && s.chans[0].header == |Encode(SOCKS, target)|
  {
    AllGiven(es, fs, target, chunks, s);
    RunKeeps(es);
    var ch := s.chans[0];
    assert Targeted(ch) && Flows(ch.accepted, ch.read, ch.pending, ch.queue);
    TargetIsStable(ch, Flatten(ch.accepted));
    EncodeThenParse(SOCKS, target, Flatten(chunks));
  }

  // From every reachable state in which all of the client's frames have been handled, none of them refused, and the handler has
  // not dialled yet, whatever was queued meanwhile: some continuation dials the target, writes all of the payload to it, sends
  // back whatever it delivers, and comes to an end.
  lemma DeliveredTunnelCanComplete(es: seq<Event>, fs: seq<Frame>, target: Addr, chunks: seq<seq<byte>>, datas: seq<seq<byte>>)
    returns (es': seq<Event>)
    requires ClientFrames(fs, target, chunks) && ShortHost(target)
    requires Run(Init(), es).seen == fs == Delivered(es) && !R.SomeRefused(es, 0)
    requires forall ch | ch in Run(Init(), es).chans :: ch.phase.Target? || ch.phase.Dialing?
    requires H.Reads(datas)
    ensures var s := Run(Init(), es');
            && Delivered(es') == Delivered(es) && |s.chans| == 1
            && s.chans[0].target == Some(target) && s.chans[0].upstream == Flatten(chunks) && s.chans[0].eof
            && s.chans[0].phase.Returned? && |datas| < |s.out|
            && s.out[|s.out| - |datas| - 1..] == H.Pushes(SID, datas) + [Frame(3, SID, [])]
  {
    var s := Run(Init(), es);
    AllGiven(es, fs, target, chunks, s);
    var relaying: Server;
    es', relaying := ReachesRelay(es, fs, target, chunks, s);
    var ch := relaying.chans[0];
    es', s := H.CanFinish(es', relaying, 0, datas);
    assert Flatten(ch.accepted)[ch.header..] == Flatten(chunks);
    var sent := H.Pushes(SID, datas) + [Frame(3, SID, [])];
    assert s.out == relaying.out + sent;
    assert s.out[|s.out| - |datas| - 1..] == sent;
  }
}
