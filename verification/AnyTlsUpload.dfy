/** What every run of an AnyTLS server connection keeps on the way from the client to the targets. */
module AnyTlsUpload {
  import opened Bytes
  import opened Address
  import opened ChunkedRead
  import opened AnyTlsFrames
  import opened AnyTlsServer

  // ---- What every run keeps: the way up ----

  // Every queued byte is read, about to be read, or still queued.
  ghost predicate Flows(accepted: seq<seq<byte>>, read: seq<byte>, pending: seq<byte>, queue: seq<seq<byte>>) {
    Flatten(accepted) == read + (pending + Flatten(queue))
  }

  // Upstream is written only behind a parsed target, with what followed it.
  ghost predicate Targeted(ch: Chan) {
    && (ch.target.None? ==> ch.upstream == [] && !ch.eof)
    && (ch.phase.Target? ==> ch.target.None? && Demand(SOCKS, ch.read) > 0)
    && (ch.phase.Dialing? || ch.phase.Relaying? || ch.phase.CopyDone? ==> ch.target.Some?)
    && (ch.target.Some? ==>
          && ch.header <= |ch.read|
          && ParseAddr(SOCKS, ch.read[..ch.header]) == Ok(ch.target.value, ch.header)
          && ch.upstream <= ch.read[ch.header..])
  }

  ghost predicate UploadInv(ch: Chan) {
    && Flows(ch.accepted, ch.read, ch.pending, ch.queue)
    && |ch.queue| <= STREAM_QUEUE_CAPACITY
    && Targeted(ch)
    && (ch.eof ==> && !ch.open && (ch.phase.CopyDone? || ch.phase.Returned?) && ch.target.Some?
                   && ch.upstream == ch.read[ch.header..] && ch.read == Flatten(ch.accepted))
  }

  lemma PollFlows(accepted: seq<seq<byte>>, read: seq<byte>, pending: seq<byte>, queue: seq<seq<byte>>,
                  closed: bool, room: nat)
    requires Flows(accepted, read, pending, queue) && room > 0
    ensures var p := PollQueue(pending, queue, closed, room);
            var d := if p.poll.Ready? then p.poll.data else [];
            Flows(accepted, read + d, p.pending, p.queue) && |p.queue| <= |queue| && |d| <= room
  {
    var p := PollQueue(pending, queue, closed, room);
    PollConserves(pending, queue, closed, room);
    var d := if p.poll.Ready? then p.poll.data else [];
    assert (read + d) + (p.pending + Flatten(p.queue)) == read + (d + p.pending + Flatten(p.queue));
  }

  lemma TargetBytesKeeps(ch: Chan, d: seq<byte>)
    requires ch.phase.Target? && Targeted(ch) && !ch.eof && 0 < |d| <= Demand(SOCKS, ch.read)
    ensures Targeted(TargetBytes(ch.(read := ch.read + d)))
  {
    DemandMeetsParse(SOCKS, ch.read, d);
    assert (ch.read + d)[..|ch.read + d|] == ch.read + d;
  }

  lemma RelayBytesKeeps(ch: Chan, d: seq<byte>)
    requires ch.phase.Relaying? && Targeted(ch)
    ensures Targeted(ch.(read := ch.read + d))
  {
    assert (ch.read + d)[..ch.header] == ch.read[..ch.header];
    assert (ch.read + d)[ch.header..] == ch.read[ch.header..] + d;
  }

  lemma PollKeeps(ch: Chan, room: nat)
    requires UploadInv(ch)
    ensures UploadInv(PollChan(ch, room))
  {
    if ch.phase.Target? || (ch.phase.Relaying? && room > 0) {
      var want := if ch.phase.Target? then Demand(SOCKS, ch.read) else room;
      var p := PollQueue(ch.pending, ch.queue, !ch.open, want);
      PollFlows(ch.accepted, ch.read, ch.pending, ch.queue, !ch.open, want);
      var d := if p.poll.Ready? then p.poll.data else [];
      assert ch.read + [] == ch.read;
      if ch.phase.Relaying? {
        RelayBytesKeeps(ch, d);
      } else if d != [] {
        TargetBytesKeeps(ch.(pending := p.pending, queue := p.queue), d);
      }
    }
  }

  lemma WriteKeeps(ch: Chan, at: nat, n: nat)
    requires UploadInv(ch) && ch.phase.Relaying? && at == ch.header + |ch.upstream| && at + n <= |ch.read|
    ensures UploadInv(ch.(upstream := ch.upstream + ch.read[at..at + n]))
  {
    assert ch.upstream + ch.read[at..at + n] == ch.read[ch.header..][..|ch.upstream| + n];
  }

  lemma CopyEofKeeps(ch: Chan)
    requires UploadInv(ch) && ch.phase.Relaying? && !ch.open && ch.pending == [] && ch.queue == [] && Unwritten(ch) == 0
    ensures UploadInv(ch.(phase := CopyDone, eof := true))
  {
    assert ch.read + ([] + Flatten([])) == ch.read;
    assert ch.upstream == ch.read[ch.header..];
  }

  // Neither the target nor what was read and written changes.
  ghost predicate MovesPhase(ch: Chan, next: Chan) {
    && next == ch.(phase := next.phase, upTask := next.upTask, downloaded := next.downloaded)
    && (next.phase == ch.phase || next.phase.Returned?
        || (ch.phase.Dialing? && next.phase.Relaying?) || (ch.phase.Relaying? && next.phase.CopyDone?))
  }

  lemma PhaseKeeps(ch: Chan, next: Chan)
    requires UploadInv(ch) && MovesPhase(ch, next)
    ensures UploadInv(next)
  {
  }

  lemma OtherActsMovePhase(ch: Chan, a: Action, version: byte)
    requires !a.Poll? && !a.Write? && !a.CopyEof?
    ensures MovesPhase(ch, Act(ch, a, version).chan)
  {
  }

  lemma ActWrites(ch: Chan, n: nat, version: byte)
    requires UploadInv(ch)
    ensures UploadInv(Act(ch, Write(n), version).chan)
  {
    if ch.phase.Relaying? && n <= Unwritten(ch) {
      WriteKeeps(ch, ch.header + |ch.upstream|, n);
    }
  }

  lemma ActEndsCopy(ch: Chan, version: byte)
    requires UploadInv(ch)
    ensures UploadInv(Act(ch, CopyEof, version).chan)
  {
    if ch.phase.Relaying? && !ch.open && ch.pending == [] && ch.queue == [] && Unwritten(ch) == 0 {
      CopyEofKeeps(ch);
    }
  }

  lemma ActKeepsUpload(ch: Chan, a: Action, version: byte)
    requires UploadInv(ch)
    ensures UploadInv(Act(ch, a, version).chan)
  {
    match a {
      case Poll(room) => PollKeeps(ch, room);
      case Write(n) => ActWrites(ch, n, version);
      case CopyEof => ActEndsCopy(ch, version);
      case _ =>
        OtherActsMovePhase(ch, a, version);
        PhaseKeeps(ch, Act(ch, a, version).chan);
    }
  }

  // ---- What every run keeps: isolation ----

  predicate HasSettings(fs: seq<Frame>) { exists i | 0 <= i < |fs| :: fs[i].cmd == CMD_SETTINGS }

  // An incarnation was opened by its own SYN, after settings, and has queued a prefix of its stream's data since:
  // all of it unless a chunk was refused.
  ghost predicate HistoryInv(ch: Chan, seen: seq<Frame>, ended: bool) {
    && ch.born < |seen|
    && seen[ch.born].cmd == CMD_SYN && seen[ch.born].sid == ch.sid
    && HasSettings(seen[..ch.born])
    && var since := seen[ch.born + 1..];
       && ch.accepted <= StreamData(since, ch.sid)
       && (!ch.rejected ==> ch.accepted == StreamData(since, ch.sid))
       && (ch.open ==> !ch.rejected && !HasFin(since, ch.sid))
       && (!ch.open && !ch.rejected && !ended ==> HasFin(since, ch.sid))
  }

  // The stream table holds exactly the open incarnations, each under its own id.
  ghost predicate TableInv(streams: map<u32, nat>, chans: seq<Chan>) {
    && (forall sid | sid in streams ::
          streams[sid] < |chans| && chans[streams[sid]].sid == sid && chans[streams[sid]].open)
    && (forall c | 0 <= c < |chans| && chans[c].open ::
          chans[c].sid in streams && streams[chans[c].sid] == c)
  }

  ghost predicate Inv(s: Server) {
    && TableInv(s.streams, s.chans)
    && (s.gotSettings <==> HasSettings(s.seen))
    && (s.chans != [] ==> s.gotSettings)
    && (forall c | 0 <= c < |s.chans| :: UploadInv(s.chans[c]) && HistoryInv(s.chans[c], s.seen, s.ended))
    && (forall c, d | 0 <= c < d < |s.chans| :: s.chans[c].born < s.chans[d].born)
  }

  // A frame that is not for an open incarnation leaves its history as it was.
  lemma SeenGrows(ch: Chan, seen: seq<Frame>, f: Frame)
    requires HistoryInv(ch, seen, false)
    requires ch.open ==> Carried(f, ch.sid) == [] && !Ends(f, ch.sid)
    ensures HistoryInv(ch, seen + [f], false)
  {
    assert (seen + [f])[ch.born + 1..] == seen[ch.born + 1..] + [f];
    assert (seen + [f])[..ch.born] == seen[..ch.born];
    StreamDataSnoc(seen[ch.born + 1..], f, ch.sid);
  }

  // The three things a frame can do to the open incarnation it is for.
  lemma OpenChanSees(ch: Chan, seen: seq<Frame>, f: Frame, next: Chan)
    requires HistoryInv(ch, seen, false) && ch.open && f.sid == ch.sid
    requires || (f.cmd == CMD_PSH && f.data != [] && next == ch.(queue := next.queue, accepted := ch.accepted + [f.data]))
             || (f.cmd == CMD_PSH && f.data != [] && next == ch.(open := false, rejected := true))
             || (f.cmd == CMD_FIN && next == ch.(open := false))
    ensures HistoryInv(next, seen + [f], false)
  {
    assert (seen + [f])[ch.born + 1..] == seen[ch.born + 1..] + [f];
    assert (seen + [f])[..ch.born] == seen[..ch.born];
    StreamDataSnoc(seen[ch.born + 1..], f, ch.sid);
  }

  lemma SettingsGrow(seen: seq<Frame>, f: Frame)
    ensures HasSettings(seen + [f]) <==> HasSettings(seen) || f.cmd == CMD_SETTINGS
  {
    if HasSettings(seen) {
      var i :| 0 <= i < |seen| && seen[i].cmd == CMD_SETTINGS;
      assert (seen + [f])[i].cmd == CMD_SETTINGS;
    }
    if f.cmd == CMD_SETTINGS {
      assert (seen + [f])[|seen|].cmd == CMD_SETTINGS;
    }
  }

  // All incarnations but `c` meet a frame that is not for them.
  lemma OthersSee(s: Server, f: Frame, c: nat)
    requires Inv(s) && !s.ended
    requires (Carried(f, f.sid) != [] || f.cmd == CMD_FIN) && f.sid in s.streams ==> c == s.streams[f.sid]
    ensures forall d | 0 <= d < |s.chans| && d != c :: HistoryInv(s.chans[d], s.seen + [f], false)
  {
    forall d | 0 <= d < |s.chans| && d != c
      ensures HistoryInv(s.chans[d], s.seen + [f], false)
    {
      SeenGrows(s.chans[d], s.seen, f);
    }
  }

  lemma TableReplace(streams: map<u32, nat>, chans: seq<Chan>, c: nat, next: Chan)
    requires TableInv(streams, chans) && c < |chans|
    requires next.sid == chans[c].sid && next.open == chans[c].open
    ensures TableInv(streams, chans[c := next])
  {
  }

  lemma TableRemove(streams: map<u32, nat>, chans: seq<Chan>, sid: u32, next: Chan)
    requires TableInv(streams, chans) && sid in streams
    requires next.sid == sid && !next.open
    ensures TableInv(streams - {sid}, chans[streams[sid] := next])
  {
  }

  lemma TableAdd(streams: map<u32, nat>, chans: seq<Chan>, ch: Chan)
    requires TableInv(streams, chans) && ch.sid !in streams && ch.open
    ensures TableInv(streams[ch.sid := |chans|], chans + [ch])
  {
  }

  lemma QueueKeeps(ch: Chan, data: seq<byte>)
    requires UploadInv(ch) && |ch.queue| < STREAM_QUEUE_CAPACITY && ch.open
    ensures UploadInv(ch.(queue := ch.queue + [data], accepted := ch.accepted + [data]))
  {
    FlattenSnoc(ch.accepted, data);
    FlattenSnoc(ch.queue, data);
    assert ch.read + (ch.pending + (Flatten(ch.queue) + data)) == (ch.read + (ch.pending + Flatten(ch.queue))) + data;
  }

  lemma CloseKeeps(ch: Chan, rejected: bool)
    requires UploadInv(ch)
    ensures UploadInv(ch.(open := false, rejected := rejected))
  {
  }

  // One incarnation replaced, and its table entry with it: the invariant, put together.
  lemma Replaced(s: Server, f: Frame, c: nat, next: Chan, t: Server)
    requires Inv(s) && !s.ended && c < |s.chans| && next.born == s.chans[c].born
    requires t.chans == s.chans[c := next] && t.seen == s.seen + [f] && !t.ended && t.gotSettings == s.gotSettings
    requires f.cmd != CMD_SETTINGS
    requires TableInv(t.streams, t.chans) && UploadInv(next) && HistoryInv(next, t.seen, false)
    requires forall d | 0 <= d < |s.chans| && d != c :: HistoryInv(s.chans[d], t.seen, false)
    ensures Inv(t)
  {
    SettingsGrow(s.seen, f);
  }

  lemma Untouched(s: Server, f: Frame, t: Server)
    requires Inv(s) && !s.ended
    requires t.chans == s.chans && t.streams == s.streams && t.seen == s.seen + [f] && !t.ended
    requires t.gotSettings == (s.gotSettings || f.cmd == CMD_SETTINGS)
    requires forall d | 0 <= d < |s.chans| :: HistoryInv(s.chans[d], t.seen, false)
    ensures Inv(t)
  {
    SettingsGrow(s.seen, f);
  }

  lemma PushKeeps(s: Server, f: Frame)
    requires Inv(s) && !s.ended && f.cmd == CMD_PSH
    ensures Inv(Push(s.(seen := s.seen + [f]), f))
  {
    var t := Push(s.(seen := s.seen + [f]), f);
    if f.sid !in s.streams || f.data == [] {
      OthersSee(s, f, |s.chans|);
      Untouched(s, f, t);
    } else {
      var c := s.streams[f.sid];
      var ch, next := s.chans[c], t.chans[c];
      OthersSee(s, f, c);
      OpenChanSees(ch, s.seen, f, next);
      if next.open {
        QueueKeeps(ch, f.data);
        TableReplace(s.streams, s.chans, c, next);
      } else {
        CloseKeeps(ch, true);
        TableRemove(s.streams, s.chans, f.sid, next);
      }
      Replaced(s, f, c, next, t);
    }
  }

  lemma FinKeeps(s: Server, f: Frame)
    requires Inv(s) && !s.ended && f.cmd == CMD_FIN
    ensures Inv(Fin(s.(seen := s.seen + [f]), f))
  {
    var t := Fin(s.(seen := s.seen + [f]), f);
    if f.sid !in s.streams {
      OthersSee(s, f, |s.chans|);
      Untouched(s, f, t);
    } else {
      var c := s.streams[f.sid];
      var ch, next := s.chans[c], t.chans[c];
      OthersSee(s, f, c);
      OpenChanSees(ch, s.seen, f, next);
      CloseKeeps(ch, ch.rejected);
      TableRemove(s.streams, s.chans, f.sid, next);
      Replaced(s, f, c, next, t);
    }
  }

  lemma HangUpKeeps(s: Server)
    requires Inv(s)
    ensures Inv(HangUp(s))
  {
    forall c | 0 <= c < |s.chans|
      ensures UploadInv(HangUp(s).chans[c]) && HistoryInv(HangUp(s).chans[c], s.seen, true)
    {
      CloseKeeps(s.chans[c], s.chans[c].rejected);
    }
  }

  lemma NewChanKeeps(seen: seq<Frame>, f: Frame)
    requires f.cmd == CMD_SYN && HasSettings(seen)
    ensures var ch := NewChan(f.sid, |seen|);
            UploadInv(ch) && HistoryInv(ch, seen + [f], false)
  {
    assert (seen + [f])[..|seen|] == seen;
    assert (seen + [f])[|seen| + 1..] == [];
  }

  lemma SynChans(s: Server, f: Frame, t: Server)
    requires Inv(s) && !s.ended && f.cmd == CMD_SYN && s.gotSettings
    requires t.chans == s.chans + [NewChan(f.sid, |s.seen|)] && t.seen == s.seen + [f]
    ensures forall c | 0 <= c < |t.chans| :: UploadInv(t.chans[c]) && HistoryInv(t.chans[c], t.seen, false)
  {
    OthersSee(s, f, |s.chans|);
    NewChanKeeps(s.seen, f);
    forall c | 0 <= c < |t.chans|
      ensures UploadInv(t.chans[c]) && HistoryInv(t.chans[c], t.seen, false)
    {
      assert c < |s.chans| ==> t.chans[c] == s.chans[c];
    }
  }

  lemma SynBorns(s: Server, f: Frame, t: Server)
    requires Inv(s) && t.chans == s.chans + [NewChan(f.sid, |s.seen|)]
    ensures forall c, d | 0 <= c < d < |t.chans| :: t.chans[c].born < t.chans[d].born
  {
    forall c | 0 <= c < |s.chans|
      ensures t.chans[c] == s.chans[c] && s.chans[c].born < |s.seen|
    {
      assert HistoryInv(s.chans[c], s.seen, s.ended);
    }
  }

  lemma SynOpens(s: Server, f: Frame, t: Server)
    requires Inv(s) && !s.ended && f.cmd == CMD_SYN && s.gotSettings && f.sid !in s.streams
    requires t.chans == s.chans + [NewChan(f.sid, |s.seen|)] && t.streams == s.streams[f.sid := |s.chans|]
    requires t.seen == s.seen + [f] && !t.ended && t.gotSettings
    ensures Inv(t)
  {
    SettingsGrow(s.seen, f);
    TableAdd(s.streams, s.chans, NewChan(f.sid, |s.seen|));
    SynChans(s, f, t);
    SynBorns(s, f, t);
  }

  lemma SynKeeps(s: Server, f: Frame)
    requires Inv(s) && !s.ended && f.cmd == CMD_SYN
    ensures Inv(Syn(s.(seen := s.seen + [f]), f))
  {
    var t := Syn(s.(seen := s.seen + [f]), f);
    if !s.gotSettings {
      SettingsGrow(s.seen, f);
      assert s.chans == [];
    } else if f.sid in s.streams {
      OthersSee(s, f, |s.chans|);
      Untouched(s, f, t);
    } else {
      SynOpens(s, f, t);
    }
  }

  lemma OtherFramesTouchNoStream(s: Server, f: Frame, version: byte)
    requires s.seen != [] && f.cmd != CMD_PSH && f.cmd != CMD_SYN && f.cmd != CMD_FIN
    ensures var t := Dispatch(s, f, version);
            && t.chans == s.chans && t.streams == s.streams && t.seen == s.seen && t.ended == s.ended
            && t.gotSettings == (s.gotSettings || f.cmd == CMD_SETTINGS)
  {
  }

  lemma OtherFrameKeeps(s: Server, f: Frame, version: byte)
    requires Inv(s) && !s.ended && f.cmd != CMD_PSH && f.cmd != CMD_SYN && f.cmd != CMD_FIN
    ensures Inv(Dispatch(s.(seen := s.seen + [f]), f, version))
  {
    var t := Dispatch(s.(seen := s.seen + [f]), f, version);
    OtherFramesTouchNoStream(s.(seen := s.seen + [f]), f, version);
    OthersSee(s, f, |s.chans|);
    Untouched(s, f, t);
  }

  lemma DispatchKeeps(s: Server, f: Frame, version: byte)
    requires Inv(s) && !s.ended
    ensures Inv(Dispatch(s.(seen := s.seen + [f]), f, version))
  {
    if f.cmd == CMD_PSH {
      PushKeeps(s, f);
    } else if f.cmd == CMD_SYN {
      SynKeeps(s, f);
    } else if f.cmd == CMD_FIN {
      FinKeeps(s, f);
    } else {
      OtherFrameKeeps(s, f, version);
    }
  }

  // The part of an incarnation that only the reader loop writes.
  predicate SameHistory(ch: Chan, next: Chan) {
    && next.sid == ch.sid && next.born == ch.born && next.accepted == ch.accepted
    && next.open == ch.open && next.rejected == ch.rejected
  }

  lemma PollKeepsHistory(ch: Chan, room: nat)
    ensures SameHistory(ch, PollChan(ch, room))
  {
  }

  lemma OthersKeepHistory(ch: Chan, a: Action, version: byte)
    requires !a.Poll?
    ensures SameHistory(ch, Act(ch, a, version).chan)
  {
  }

  lemma ActKeepsHistory(ch: Chan, a: Action, version: byte)
    ensures SameHistory(ch, Act(ch, a, version).chan)
  {
    match a {
      case Poll(room) => PollKeepsHistory(ch, room);
      case _ => OthersKeepHistory(ch, a, version);
    }
  }

  lemma SameHistoryKeeps(ch: Chan, next: Chan, seen: seq<Frame>, ended: bool)
    requires HistoryInv(ch, seen, ended) && SameHistory(ch, next)
    ensures HistoryInv(next, seen, ended)
  {
  }

  lemma HandlerReplaced(s: Server, c: nat, next: Chan, out: seq<Frame>)
    requires Inv(s) && c < |s.chans| && SameHistory(s.chans[c], next) && UploadInv(next)
    ensures Inv(s.(chans := s.chans[c := next], out := out))
  {
    var chans := s.chans[c := next];
    TableReplace(s.streams, s.chans, c, next);
    SameHistoryKeeps(s.chans[c], next, s.seen, s.ended);
    forall d | 0 <= d < |chans|
      ensures UploadInv(chans[d]) && HistoryInv(chans[d], s.seen, s.ended) && chans[d].born == s.chans[d].born
    {
      assert d != c ==> chans[d] == s.chans[d];
    }
  }

  lemma StepKeeps(s: Server, e: Event)
    requires Inv(s)
    ensures Inv(Step(s, e))
  {
    match e {
      case Deliver(f, version) =>
        if !s.ended {
          DispatchKeeps(s, f, version);
        }
      case Disconnect =>
        HangUpKeeps(s);
      case Handler(c, a) =>
        if c < |s.chans| {
          var r := Act(s.chans[c], a, s.peerVersion);
          ActKeepsUpload(s.chans[c], a, s.peerVersion);
          ActKeepsHistory(s.chans[c], a, s.peerVersion);
          HandlerReplaced(s, c, r.chan, s.out + r.frames);
        }
    }
  }

  lemma {:induction false} RunKeeps(es: seq<Event>)
    ensures Inv(Run(Init(), es))
  {
    if es != [] {
      RunKeeps(es[..|es| - 1]);
      StepKeeps(Run(Init(), es[..|es| - 1]), es[|es| - 1]);
    }
  }

  lemma RunTable(es: seq<Event>)
    ensures TableInv(Run(Init(), es).streams, Run(Init(), es).chans)
  {
    RunKeeps(es);
  }

  lemma {:induction false} SeenIsDelivered(es: seq<Event>)
    ensures var s := Run(Init(), es);
            s.seen <= Delivered(es) && (!s.ended ==> s.seen == Delivered(es))
  {
    if es != [] {
      SeenIsDelivered(es[..|es| - 1]);
    }
  }

  // The data the client sent to this incarnation: under its id, since its SYN, before the next FIN.
  function OwnData(seen: seq<Frame>, ch: Chan): seq<seq<byte>> {
    if ch.born < |seen| then StreamData(seen[ch.born + 1..], ch.sid) else []
  }

  // Stream isolation, for every run: incarnation c was opened by its own SYN, after the client's settings; what its
  // handler has read is, in order, a prefix of its own data, and all of that data is queued or read unless a chunk
  // was refused; its queue never exceeds 64 chunks.
  lemma StreamIsolation(es: seq<Event>, c: nat)
    requires c < |Run(Init(), es).chans|
    ensures var s := Run(Init(), es);
            var ch := s.chans[c];
            && s.seen <= Delivered(es)
            && (!s.ended ==> s.seen == Delivered(es))
            && ch.born < |s.seen|
            && s.seen[ch.born].cmd == CMD_SYN && s.seen[ch.born].sid == ch.sid
            && HasSettings(s.seen[..ch.born])
            && ch.read <= Flatten(OwnData(s.seen, ch))
            && (!ch.rejected ==> ch.read + (ch.pending + Flatten(ch.queue)) == Flatten(OwnData(s.seen, ch)))
            && |ch.queue| <= 64
  {
    RunKeeps(es);
    SeenIsDelivered(es);
    var s := Run(Init(), es);
    FlattenPrefix(s.chans[c].accepted, OwnData(s.seen, s.chans[c]));
  }

  // At most one incarnation of a stream id is ever open.
  lemma OneOpenIncarnation(es: seq<Event>, c: nat, d: nat)
    requires var s := Run(Init(), es);
             c < |s.chans| && d < |s.chans| && s.chans[c].open && s.chans[d].open && s.chans[c].sid == s.chans[d].sid
    ensures c == d
  {
    RunKeeps(es);
  }

  lemma TargetIsStable(ch: Chan, stream: seq<byte>)
    requires Targeted(ch) && ch.target.Some? && ch.read <= stream
    ensures ParseAddr(SOCKS, stream) == Ok(ch.target.value, ch.header)
    ensures ch.header <= |stream| && ch.upstream <= stream[ch.header..]
  {
    var head := ch.read[..ch.header];
    assert head[..ch.header] == head;
    ParseIsPrefixStable(SOCKS, head, stream);
    assert ch.read[ch.header..] <= stream[ch.header..];
  }

  // What reaches the target, for every run: nothing before an address is decoded, then a prefix of the bytes behind
  // the address; once the copy has ended at the end of the stream with nothing refused, all of them.
  lemma UploadIsTail(es: seq<Event>, c: nat)
    requires c < |Run(Init(), es).chans|
    ensures var s := Run(Init(), es);
            var ch := s.chans[c];
            var stream := Flatten(OwnData(s.seen, ch));
            && (ch.target.None? ==> ch.upstream == [] && !ch.eof)
            && (ch.target.Some? ==>
                  && ParseAddr(SOCKS, stream) == Ok(ch.target.value, ch.header)
                  && ch.header <= |stream|
                  && ch.upstream <= stream[ch.header..]
                  && (ch.eof && !ch.rejected ==> ch.upstream == stream[ch.header..]))
  {
    RunKeeps(es);
    StreamIsolation(es, c);
    var s := Run(Init(), es);
    if s.chans[c].target.Some? {
      TargetIsStable(s.chans[c], Flatten(OwnData(s.seen, s.chans[c])));
    }
  }
}
