/** What the AnyTLS reader loop does with every frame, in terms of the frames before it and the queues it finds. */
module AnyTlsReader {
  import opened Bytes
  import opened Address
  import opened AnyTlsFrames
  import opened AnyTlsServer
  import opened AnyTlsUpload

  // ---- Which chunks are refused ----

  // The event brings a chunk for incarnation c while that is open.
  predicate ChunkFor(s: Server, e: Event, c: nat) {
    && e.Deliver? && e.frame.cmd == 2 && e.frame.data != [] && !s.ended
    && c < |s.chans| && s.chans[c].open && e.frame.sid == s.chans[c].sid
  }

  predicate NoRoom(ch: Chan) { |ch.queue| >= 64 || ch.phase.Returned? }

  // The k-th event is a chunk for c that finds 64 waiting, or the handler gone.
  ghost predicate RefusedAt(es: seq<Event>, c: nat, k: nat) {
    && k < |es| && c < |Run(Init(), es[..k]).chans|
    && ChunkFor(Run(Init(), es[..k]), es[k], c) && NoRoom(Run(Init(), es[..k]).chans[c])
  }

  ghost predicate SomeRefused(es: seq<Event>, c: nat) { exists k: nat :: RefusedAt(es, c, k) }

  lemma RefusedSnoc(before: seq<Event>, e: Event, c: nat, s: Server)
    requires s == Run(Init(), before)
    ensures SomeRefused(before + [e], c) <==> SomeRefused(before, c) || (ChunkFor(s, e, c) && NoRoom(s.chans[c]))
  {
    var es := before + [e];
    assert es[..|before|] == before && es[|before|] == e;
    assert forall k: nat | k < |before| :: es[..k] == before[..k] && es[k] == before[k];
    if k: nat :| RefusedAt(before, c, k) {
      assert RefusedAt(es, c, k);
    }
    if ChunkFor(s, e, c) && NoRoom(s.chans[c]) {
      assert RefusedAt(es, c, |before|);
    }
    if k: nat :| RefusedAt(es, c, k) {
      assert k < |before| ==> RefusedAt(before, c, k);
    }
  }

  // What becomes of a chunk: last in the queue if there is room, or else the stream's end.
  lemma ChunkHandled(s: Server, e: Event, c: nat, t: Server)
    requires Inv(s) && ChunkFor(s, e, c) && t == Step(s, e)
    ensures var ch, data := s.chans[c], e.frame.data;
            if NoRoom(ch) then
              && t.chans == s.chans[c := ch.(open := false, rejected := true)]
              && t.out == s.out + [Frame(3, ch.sid, [])]
            else
              && t.chans == s.chans[c := ch.(queue := ch.queue + [data], accepted := ch.accepted + [data])]
              && t.out == s.out
  {
    assert s.streams[e.frame.sid] == c;
  }

  lemma HandlerRejectsNothing(s: Server, e: Event, c: nat)
    requires e.Handler? && c < |s.chans|
    ensures c < |Step(s, e).chans| && Step(s, e).chans[c].rejected == s.chans[c].rejected
    ensures |Step(s, e).chans| == |s.chans|
  {
    if e.chan == c {
      ActKeepsHistory(s.chans[c], e.action, s.peerVersion);
    }
  }

  lemma PushForAnother(s: Server, f: Frame, c: nat)
    requires TableInv(s.streams, s.chans) && c < |s.chans| && !(s.chans[c].open && f.sid == s.chans[c].sid && f.data != [])
    ensures Push(s, f).chans[c].rejected == s.chans[c].rejected
  {
  }

  lemma OthersRejectNone(s: Server, f: Frame, version: byte, c: nat)
    requires s.seen != [] && f.cmd != CMD_PSH && c < |Dispatch(s, f, version).chans|
    ensures Dispatch(s, f, version).chans[c].rejected <==> c < |s.chans| && s.chans[c].rejected
  {
  }

  // No other event refuses anything.
  lemma OthersRejectNothing(s: Server, e: Event, c: nat)
    requires Inv(s) && !e.Handler? && !ChunkFor(s, e, c) && c < |Step(s, e).chans|
    ensures Step(s, e).chans[c].rejected <==> c < |s.chans| && s.chans[c].rejected
  {
    if e.Deliver? && !s.ended {
      var seen := s.(seen := s.seen + [e.frame]);
      if e.frame.cmd == CMD_PSH {
        PushForAnother(seen, e.frame, c);
      } else {
        OthersRejectNone(seen, e.frame, e.version, c);
      }
    }
  }

  lemma StepRejects(s: Server, e: Event, c: nat)
    requires Inv(s) && c < |Step(s, e).chans|
    ensures Step(s, e).chans[c].rejected <==> (c < |s.chans| && s.chans[c].rejected) || (ChunkFor(s, e, c) && NoRoom(s.chans[c]))
  {
    if e.Handler? {
      if c < |s.chans| {
        HandlerRejectsNothing(s, e, c);
      }
    } else if ChunkFor(s, e, c) {
      ChunkHandled(s, e, c, Step(s, e));
    } else {
      OthersRejectNothing(s, e, c);
    }
  }

  // In every run a stream is cut off exactly if a chunk for it came, while it was open, upon 64 waiting chunks or a handler
  // that had returned.
  lemma {:induction false} RejectedExactlyWhen(es: seq<Event>, c: nat)
    ensures c < |Run(Init(), es).chans| && Run(Init(), es).chans[c].rejected <==> SomeRefused(es, c)
  {
    if es != [] {
      var before, e := es[..|es| - 1], es[|es| - 1];
      var s := Run(Init(), before);
      RejectedExactlyWhen(before, c);
      RunKeeps(before);
      assert es == before + [e];
      RefusedSnoc(before, e, c, s);
      if c < |Step(s, e).chans| {
        StepRejects(s, e, c);
      } else {
        ChansGrow(s, e);
      }
    }
  }

  lemma ChansGrow(s: Server, e: Event)
    ensures |s.chans| <= |Step(s, e).chans|
  {
  }

  // And every other chunk for an open stream ends up last in its queue.
  lemma ChunkIsQueued(es: seq<Event>, e: Event, c: nat)
    requires ChunkFor(Run(Init(), es), e, c) && !NoRoom(Run(Init(), es).chans[c])
    ensures var ch := Run(Init(), es).chans[c];
            && |Run(Init(), es + [e]).chans| == |Run(Init(), es).chans|
            && Run(Init(), es + [e]).chans[c] == ch.(queue := ch.queue + [e.frame.data], accepted := ch.accepted + [e.frame.data])
  {
    RunKeeps(es);
    RunSnoc(es, e);
    ChunkHandled(Run(Init(), es), e, c, Step(Run(Init(), es), e));
  }

  lemma RunSnoc(es: seq<Event>, e: Event)
    ensures Run(Init(), es + [e]) == Step(Run(Init(), es), e)
    ensures Delivered(es + [e]) == Delivered(es) + if e.Deliver? then [e.frame] else []
  {
    assert (es + [e])[..|es|] == es;
  }

  // ---- When the loop is over ----

  // The connection is gone, or a SYN has come with no settings before it.
  ghost predicate Over(es: seq<Event>) {
    es != [] && (Over(es[..|es| - 1]) || es[|es| - 1].Disconnect?
                 || (es[|es| - 1].Deliver? && es[|es| - 1].frame.cmd == 1 && !HasSettings(Delivered(es[..|es| - 1]))))
  }

  lemma OverSnoc(es: seq<Event>, e: Event)
    ensures Over(es + [e]) <==> Over(es) || e.Disconnect? || (e.Deliver? && e.frame.cmd == 1 && !HasSettings(Delivered(es)))
  {
    assert (es + [e])[..|es|] == es;
  }

  // The loop ends exactly then, and with it every stream: no sender is left.
  lemma {:induction false} EndsExactlyWhen(es: seq<Event>)
    ensures Run(Init(), es).ended <==> Over(es)
    ensures Over(es) ==> forall c | 0 <= c < |Run(Init(), es).chans| :: !Run(Init(), es).chans[c].open
  {
    if es != [] {
      var before, e := es[..|es| - 1], es[|es| - 1];
      var s := Run(Init(), before);
      EndsExactlyWhen(before);
      RunKeeps(before);
      SeenIsDelivered(before);
      StepEnds(s, e);
    }
  }

  lemma DispatchEnds(s: Server, f: Frame, version: byte)
    requires s.seen != [] && !s.ended
    ensures var t := Dispatch(s, f, version);
            && (t.ended <==> f.cmd == 1 && !s.gotSettings)
            && (t.ended ==> forall c | 0 <= c < |t.chans| :: !t.chans[c].open)
  {
  }

  lemma StepEnds(s: Server, e: Event)
    requires Inv(s) && (s.ended ==> forall c | 0 <= c < |s.chans| :: !s.chans[c].open)
    ensures var t := Step(s, e);
            && (t.ended <==> s.ended || e.Disconnect? || (e.Deliver? && e.frame.cmd == 1 && !HasSettings(s.seen)))
            && (t.ended ==> forall c | 0 <= c < |t.chans| :: !t.chans[c].open)
  {
    match e {
      case Deliver(f, version) =>
        if !s.ended {
          DispatchEnds(s.(seen := s.seen + [f]), f, version);
        }
      case Disconnect =>
      case Handler(c, a) =>
        if c < |s.chans| {
          ActKeepsHistory(s.chans[c], a, s.peerVersion);
        }
    }
  }

  // In every run a stream is open exactly while none of its chunks was refused, no FIN has come for it and the loop goes on.
  lemma OpenExactlyWhen(es: seq<Event>, c: nat)
    requires c < |Run(Init(), es).chans|
    ensures var s := Run(Init(), es);
            && s.chans[c].born < |s.seen|
            && (s.chans[c].open <==>
                  !Over(es) && !SomeRefused(es, c) && !HasFin(s.seen[s.chans[c].born + 1..], s.chans[c].sid))
  {
    RunKeeps(es);
    EndsExactlyWhen(es);
    RejectedExactlyWhen(es, c);
    assert HistoryInv(Run(Init(), es).chans[c], Run(Init(), es).seen, Run(Init(), es).ended);
  }

  // ---- What the loop opens ----

  ghost predicate SomeOpen(s: Server, sid: u32) { exists c :: 0 <= c < |s.chans| && s.chans[c].open && s.chans[c].sid == sid }

  // A stream as its SYN makes it.
  predicate JustOpened(ch: Chan, sid: u32, born: nat) {
    && ch.sid == sid && ch.born == born && ch.open && !ch.rejected && ch.phase.Target? && ch.target.None? && ch.upTask.NotStarted?
    && ch.accepted == [] && ch.queue == [] && ch.pending == [] && ch.read == [] && ch.header == 0 && ch.upstream == []
    && ch.downloaded == [] && !ch.eof
  }

  // After settings a SYN opens a stream exactly if none of its id is open, whatever other streams there are; the rest stay as
  // they were.
  lemma SynOpensExactlyWhen(es: seq<Event>, sid: u32, data: seq<byte>, version: byte)
    requires !Over(es) && HasSettings(Delivered(es))
    ensures var s, t := Run(Init(), es), Run(Init(), es + [Deliver(Frame(1, sid, data), version)]);
            && t.out == s.out && !t.ended
            && if SomeOpen(s, sid) then t.chans == s.chans
               else |t.chans| == |s.chans| + 1 && t.chans[..|s.chans|] == s.chans
                    && JustOpened(t.chans[|s.chans|], sid, |Delivered(es)|)
  {
    RunKeeps(es);
    SeenIsDelivered(es);
    EndsExactlyWhen(es);
    RunSnoc(es, Deliver(Frame(1, sid, data), version));
    var s := Run(Init(), es);
    if sid in s.streams {
      assert s.chans[s.streams[sid]].open;
    }
  }

  ghost predicate SameBirths(s: Server, t: Server) {
    |s.chans| <= |t.chans| && forall c | 0 <= c < |s.chans| :: t.chans[c].sid == s.chans[c].sid && t.chans[c].born == s.chans[c].born
  }

  lemma DispatchKeepsBirths(s: Server, f: Frame, version: byte)
    requires s.seen != []
    ensures SameBirths(s, Dispatch(s, f, version))
  {
  }

  lemma StepKeepsBirths(s: Server, e: Event)
    ensures SameBirths(s, Step(s, e))
  {
    match e {
      case Deliver(f, version) =>
        if !s.ended {
          DispatchKeepsBirths(s.(seen := s.seen + [f]), f, version);
        }
      case Disconnect =>
      case Handler(c, a) =>
        if c < |s.chans| {
          ActKeepsHistory(s.chans[c], a, s.peerVersion);
        }
    }
  }

  // The incarnation that a SYN has opened, or found open.
  ghost predicate BornBy(s: Server, sid: u32, i: nat) {
    exists c :: 0 <= c < |s.chans| && s.chans[c].sid == sid && s.chans[c].born <= i
  }

  lemma BirthsStay(s: Server, t: Server, sid: u32, i: nat)
    requires SameBirths(s, t) && BornBy(s, sid, i)
    ensures BornBy(t, sid, i)
  {
    var c :| 0 <= c < |s.chans| && s.chans[c].sid == sid && s.chans[c].born <= i;
    assert t.chans[c].sid == sid;
  }

  lemma SynIsBorn(s: Server, e: Event)
    requires Inv(s) && !s.ended && e.Deliver? && e.frame.cmd == 1 && HasSettings(s.seen)
    ensures BornBy(Step(s, e), e.frame.sid, |s.seen|)
  {
    var t := Step(s, e);
    if e.frame.sid in s.streams {
      var c := s.streams[e.frame.sid];
      assert HistoryInv(s.chans[c], s.seen, s.ended) && t.chans[c] == s.chans[c];
    } else {
      assert t.chans[|s.chans|] == NewChan(e.frame.sid, |s.seen|);
    }
  }

  // In every run each SYN handled after settings has its stream.
  lemma {:induction false} SynHasStream(es: seq<Event>, i: nat)
    requires i < |Run(Init(), es).seen| && Run(Init(), es).seen[i].cmd == 1 && HasSettings(Run(Init(), es).seen[..i])
    ensures BornBy(Run(Init(), es), Run(Init(), es).seen[i].sid, i)
  {
    var before, e := es[..|es| - 1], es[|es| - 1];
    var s := Run(Init(), before);
    RunKeeps(before);
    SeenMoves(s, e);
    if i < |s.seen| {
      assert Step(s, e).seen[..i] == s.seen[..i];
      SynHasStream(before, i);
      StepKeepsBirths(s, e);
      BirthsStay(s, Step(s, e), s.seen[i].sid, i);
    } else {
      assert Step(s, e).seen[..i] == s.seen;
      SynIsBorn(s, e);
    }
  }

  lemma SeenMoves(s: Server, e: Event)
    ensures Step(s, e).seen == if e.Deliver? && !s.ended then s.seen + [e.frame] else s.seen
  {
  }

  // ---- What the loop answers ----

  // The answer to a frame, given whether settings came before.
  function Answer(f: Frame, version: byte, settings: bool): seq<Frame> {
    if f.cmd == 1 && !settings then [Frame(5, 0, Ascii("client did not send its settings"))]
    else if f.cmd == 4 && version >= 2 then [Frame(6, 0, DEFAULT_PADDING_SCHEME), Frame(10, 0, Ascii("v=2\n"))]
    else if f.cmd == 4 then [Frame(6, 0, DEFAULT_PADDING_SCHEME)]
    else if f.cmd == 8 then [Frame(9, f.sid, [])]
    else []
  }

  // The FIN for a chunk that is refused.
  ghost predicate Refuses(s: Server, e: Event) {
    exists c :: 0 <= c < |s.chans| && ChunkFor(s, e, c) && NoRoom(s.chans[c])
  }

  lemma ChunkAnswered(s: Server, e: Event)
    requires Inv(s) && !s.ended && e.Deliver? && e.frame.cmd == 2
    ensures Step(s, e).out == s.out + if Refuses(s, e) then [Frame(3, e.frame.sid, [])] else []
  {
    if e.frame.data != [] && e.frame.sid in s.streams {
      var c := s.streams[e.frame.sid];
      assert ChunkFor(s, e, c);
      ChunkHandled(s, e, c, Step(s, e));
      assert Refuses(s, e) <==> NoRoom(s.chans[c]);
    } else {
      assert !Refuses(s, e);
    }
  }

  lemma OthersAnswered(s: Server, f: Frame, version: byte)
    requires s.seen != [] && f.cmd != 2
    ensures Dispatch(s, f, version).out == s.out + Answer(f, version, s.gotSettings)
  {
  }

  // In every run the loop answers each frame it handles with exactly that, and nothing else is sent but by handlers.
  lemma LoopAnswers(es: seq<Event>, f: Frame, version: byte)
    requires !Over(es)
    ensures var s, e := Run(Init(), es), Deliver(f, version);
            Run(Init(), es + [e]).out
            == s.out + if Refuses(s, e) then [Frame(3, f.sid, [])] else Answer(f, version, HasSettings(Delivered(es)))
  {
    var s := Run(Init(), es);
    RunKeeps(es);
    SeenIsDelivered(es);
    EndsExactlyWhen(es);
    RunSnoc(es, Deliver(f, version));
    if f.cmd == 2 {
      ChunkAnswered(s, Deliver(f, version));
    } else {
      OthersAnswered(s.(seen := s.seen + [f]), f, version);
    }
  }

  lemma SilentWhenOver(es: seq<Event>, e: Event)
    requires !e.Handler? && (Over(es) || e.Disconnect?)
    ensures Run(Init(), es + [e]).out == Run(Init(), es).out
  {
    EndsExactlyWhen(es);
    RunSnoc(es, e);
  }

  // ---- What the peer is told of dials ----

  // Settings with version 2 or more have been handled.
  ghost predicate Speaks2(es: seq<Event>) {
    es != [] && (Speaks2(es[..|es| - 1])
                 || (!Over(es[..|es| - 1]) && es[|es| - 1].Deliver? && es[|es| - 1].frame.cmd == 4 && es[|es| - 1].version >= 2))
  }

  lemma {:induction false} VersionExactlyWhen(es: seq<Event>)
    ensures Run(Init(), es).peerVersion == if Speaks2(es) then 2 else 0
  {
    if es != [] {
      VersionExactlyWhen(es[..|es| - 1]);
      EndsExactlyWhen(es[..|es| - 1]);
    }
  }

  // In every run the peer is told how a dial went, once, by an empty SYNACK or the error's text, exactly if it speaks version 2;
  // on success the copy back starts, on failure the handler is gone.
  lemma DialIsAnswered(es: seq<Event>, c: nat, error: Option<seq<byte>>)
    requires c < |Run(Init(), es).chans| && Run(Init(), es).chans[c].phase.Dialing?
    ensures var s, t := Run(Init(), es), Run(Init(), es + [Handler(c, Dialed(error))]);
            && t.out == (if Speaks2(es) then s.out + [Frame(7, s.chans[c].sid, if error.Some? then error.value else [])] else s.out)
            && t.chans == s.chans[c := if error.Some? then s.chans[c].(phase := Returned)
                                       else s.chans[c].(phase := Relaying, upTask := Running)]
  {
    VersionExactlyWhen(es);
    RunSnoc(es, Handler(c, Dialed(error)));
  }
}
