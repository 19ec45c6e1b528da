/** What every run of an AnyTLS server connection keeps on the way from the targets back to the client. */
module AnyTlsDownload {
  import opened Bytes
  import opened Address
  import opened ChunkedRead
  import opened AnyTlsFrames
  import opened AnyTlsServer
  import opened AnyTlsUpload

  // ---- What every run keeps: the way down ----

  predicate Only(chans: seq<Chan>, c: nat) {
    c < |chans| && forall d | 0 <= d < |chans| && d != c :: chans[d].sid != chans[c].sid
  }

  predicate Absent(chans: seq<Chan>, sid: u32) {
    forall d | 0 <= d < |chans| :: chans[d].sid != sid
  }

  // Frames sent under a stream id that was opened once carry what its upstream side delivered: all of it until the
  // first FIN, and that FIN is the upstream side's own unless the stream was cut off.
  ghost predicate DownloadOk(ch: Chan, out: seq<Frame>) {
    && (ch.phase.Target? || ch.phase.Dialing? ==> ch.upTask.NotStarted?)
    && StreamData(out, ch.sid) <= ch.downloaded
    && (!HasFin(out, ch.sid) ==> StreamData(out, ch.sid) == ch.downloaded)
    && (!ch.rejected ==> StreamData(out, ch.sid) == ch.downloaded && (HasFin(out, ch.sid) <==> ch.upTask.Ended?))
  }

  ghost predicate DownloadInv(chans: seq<Chan>, out: seq<Frame>) {
    && (forall c: nat | Only(chans, c) :: DownloadOk(chans[c], out))
    && (forall sid: u32 | Absent(chans, sid) :: StreamData(out, sid) == [] && !HasFin(out, sid))
  }

  predicate Quiet(f: Frame) { f.cmd != CMD_PSH && f.cmd != CMD_FIN }

  lemma QuietFrame(chans: seq<Chan>, out: seq<Frame>, f: Frame)
    requires DownloadInv(chans, out) && Quiet(f)
    ensures DownloadInv(chans, out + [f])
  {
    forall sid: u32
      ensures StreamData(out + [f], sid) == StreamData(out, sid) && (HasFin(out + [f], sid) <==> HasFin(out, sid))
    {
      StreamDataSnoc(out, f, sid);
    }
    forall c: nat | Only(chans, c)
      ensures DownloadOk(chans[c], out + [f])
    {
      assert DownloadOk(chans[c], out);
      assert StreamData(out + [f], chans[c].sid) == StreamData(out, chans[c].sid);
    }
  }

  // Incarnation c changes, perhaps sending one frame under its own id.
  lemma ChanSends(chans: seq<Chan>, out: seq<Frame>, c: nat, next: Chan, frames: seq<Frame>)
    requires DownloadInv(chans, out) && c < |chans| && next.sid == chans[c].sid
    requires |frames| <= 1 && (frames != [] ==> frames[0].sid == next.sid)
    requires DownloadOk(chans[c], out) ==> DownloadOk(next, out + frames)
    ensures DownloadInv(chans[c := next], out + frames)
  {
    var chans', out' := chans[c := next], out + frames;
    forall sid: u32 | sid != next.sid
      ensures StreamData(out', sid) == StreamData(out, sid) && (HasFin(out', sid) <==> HasFin(out, sid))
    {
      if frames != [] {
        StreamDataSnoc(out, frames[0], sid);
        assert frames == [frames[0]];
      } else {
        assert out' == out;
      }
    }
    forall d: nat | Only(chans', d)
      ensures DownloadOk(chans'[d], out')
    {
      assert Only(chans, d) by {
        assert forall k | 0 <= k < |chans| :: chans[k].sid == chans'[k].sid;
      }
    }
    forall sid: u32 | Absent(chans', sid)
      ensures StreamData(out', sid) == [] && !HasFin(out', sid)
    {
      assert chans'[c].sid == next.sid;
      assert Absent(chans, sid) by {
        assert forall k | 0 <= k < |chans| :: chans[k].sid == chans'[k].sid;
      }
    }
  }

  // What an action may do to the way down: nothing, answer the dial, pass on bytes, or end.
  predicate SendShape(ch: Chan, next: Chan, frames: seq<Frame>) {
    && next.sid == ch.sid && next.rejected == ch.rejected
    && (next.phase.Target? || next.phase.Dialing? ==> ch.phase.Target? || ch.phase.Dialing?)
    && |frames| <= 1 && (forall i | 0 <= i < |frames| :: frames[i].sid == ch.sid)
    && if frames == [] || frames[0].cmd == CMD_SYNACK then
         && next.downloaded == ch.downloaded
         && (next.upTask == ch.upTask || (ch.phase.Dialing? && next.phase.Relaying? && next.upTask.Running?))
       else if frames[0].cmd == CMD_PSH then
         && frames[0].data != [] && next.downloaded == ch.downloaded + [frames[0].data]
         && ch.upTask.Running? && next.upTask.Running?
       else
         && frames[0].cmd == CMD_FIN && next.downloaded == ch.downloaded
         && ch.upTask.Running? && next.upTask.Ended?
  }

  lemma PollShape(ch: Chan, room: nat)
    ensures SendShape(ch, PollChan(ch, room), [])
  {
  }

  lemma OtherShape(ch: Chan, a: Action, version: byte)
    requires !a.Poll?
    ensures SendShape(ch, Act(ch, a, version).chan, Act(ch, a, version).frames)
  {
  }

  lemma ActShape(ch: Chan, a: Action, version: byte)
    ensures SendShape(ch, Act(ch, a, version).chan, Act(ch, a, version).frames)
  {
    match a {
      case Poll(room) => PollShape(ch, room);
      case _ => OtherShape(ch, a, version);
    }
  }

  lemma SendsKeep(ch: Chan, next: Chan, out: seq<Frame>, frames: seq<Frame>)
    requires DownloadOk(ch, out) && SendShape(ch, next, frames)
    ensures DownloadOk(next, out + frames)
  {
    if frames == [] {
      assert out + frames == out;
    } else {
      StreamDataSnoc(out, frames[0], ch.sid);
      assert frames == [frames[0]];
    }
  }

  lemma ChansClose(chans: seq<Chan>, out: seq<Frame>)
    requires DownloadInv(chans, out)
    ensures DownloadInv(CloseAll(chans), out)
  {
    var chans' := CloseAll(chans);
    forall c: nat | Only(chans', c)
      ensures DownloadOk(chans'[c], out)
    {
      assert Only(chans, c) by {
        assert forall k | 0 <= k < |chans| :: chans[k].sid == chans'[k].sid;
      }
    }
    forall sid: u32 | Absent(chans', sid)
      ensures Absent(chans, sid)
    {
      assert forall k | 0 <= k < |chans| :: chans[k].sid == chans'[k].sid;
    }
  }

  lemma ChanOpens(chans: seq<Chan>, out: seq<Frame>, ch: Chan)
    requires DownloadInv(chans, out)
    requires ch.downloaded == [] && ch.upTask.NotStarted? && !ch.rejected
    ensures DownloadInv(chans + [ch], out)
  {
    var chans' := chans + [ch];
    forall c: nat | Only(chans', c)
      ensures DownloadOk(chans'[c], out)
    {
      if c == |chans| {
        assert Absent(chans, ch.sid) by {
          assert forall k | 0 <= k < |chans| :: chans'[k] == chans[k];
        }
      } else {
        assert Only(chans, c) by {
          assert forall k | 0 <= k < |chans| :: chans'[k] == chans[k];
        }
      }
    }
    forall sid: u32 | Absent(chans', sid)
      ensures Absent(chans, sid)
    {
      assert forall k | 0 <= k < |chans| :: chans'[k] == chans[k];
    }
  }

  lemma PushSends(s: Server, f: Frame)
    requires TableInv(s.streams, s.chans) && DownloadInv(s.chans, s.out)
    ensures var t := Push(s, f);
            DownloadInv(t.chans, t.out)
  {
    var t := Push(s, f);
    if f.sid in s.streams && f.data != [] {
      var c := s.streams[f.sid];
      var fin := Frame(CMD_FIN, f.sid, []);
      if t.out == s.out {
        assert s.out + [] == s.out;
        ChanSends(s.chans, s.out, c, t.chans[c], []);
      } else {
        StreamDataSnoc(s.out, fin, f.sid);
        ChanSends(s.chans, s.out, c, t.chans[c], [fin]);
      }
    }
  }

  lemma DispatchSends(s: Server, f: Frame, version: byte)
    requires TableInv(s.streams, s.chans) && DownloadInv(s.chans, s.out) && s.seen != []
    ensures var t := Dispatch(s, f, version);
            DownloadInv(t.chans, t.out)
  {
    if f.cmd == CMD_PSH {
      PushSends(s, f);
    } else if f.cmd == CMD_SYN {
      if !s.gotSettings {
        QuietFrame(s.chans, s.out, Frame(CMD_ALERT, 0, ALERT_TEXT));
        ChansClose(s.chans, s.out + [Frame(CMD_ALERT, 0, ALERT_TEXT)]);
      } else if f.sid !in s.streams {
        ChanOpens(s.chans, s.out, NewChan(f.sid, |s.seen| - 1));
      }
    } else if f.cmd == CMD_FIN {
      if f.sid in s.streams {
        var c := s.streams[f.sid];
        assert s.out + [] == s.out;
        ChanSends(s.chans, s.out, c, s.chans[c].(open := false), []);
      }
    } else if f.cmd == CMD_SETTINGS {
      var first, second := Frame(CMD_UPDATE_PADDING, 0, DEFAULT_PADDING_SCHEME), Frame(CMD_SERVER_SETTINGS, 0, SETTINGS_REPLY);
      QuietFrame(s.chans, s.out, first);
      QuietFrame(s.chans, s.out + [first], second);
    } else if f.cmd == CMD_HEART_REQUEST {
      QuietFrame(s.chans, s.out, Frame(CMD_HEART_RESPONSE, f.sid, []));
    }
  }

  lemma HandlerSends(chans: seq<Chan>, out: seq<Frame>, c: nat, a: Action, version: byte)
    requires DownloadInv(chans, out) && c < |chans|
    ensures var r := Act(chans[c], a, version);
            DownloadInv(chans[c := r.chan], out + r.frames)
  {
    var r := Act(chans[c], a, version);
    ActShape(chans[c], a, version);
    if DownloadOk(chans[c], out) {
      SendsKeep(chans[c], r.chan, out, r.frames);
    }
    ChanSends(chans, out, c, r.chan, r.frames);
  }

  lemma StepSends(s: Server, e: Event)
    requires Inv(s) && DownloadInv(s.chans, s.out)
    ensures DownloadInv(Step(s, e).chans, Step(s, e).out)
  {
    match e {
      case Deliver(f, version) =>
        if !s.ended {
          DispatchSends(s.(seen := s.seen + [f]), f, version);
        }
      case Disconnect =>
        ChansClose(s.chans, s.out);
      case Handler(c, a) =>
        if c < |s.chans| {
          HandlerSends(s.chans, s.out, c, a, s.peerVersion);
        }
    }
  }

  lemma {:induction false} RunSends(es: seq<Event>)
    ensures DownloadInv(Run(Init(), es).chans, Run(Init(), es).out)
  {
    if es != [] {
      RunKeeps(es[..|es| - 1]);
      RunSends(es[..|es| - 1]);
      StepSends(Run(Init(), es[..|es| - 1]), es[|es| - 1]);
    }
  }

  // ---- Every frame sent fits its length field ----

  // The only frame of unbounded size is the answer to a failed dial, which carries the error text.
  predicate ErrorFits(e: Event) {
    e.Handler? && e.action.Dialed? && e.action.error.Some? ==> |e.action.error.value| < 0x1_0000
  }

  lemma ActFits(ch: Chan, a: Action, version: byte)
    requires ErrorFits(Handler(0, a))
    ensures AllFit(Act(ch, a, version).frames)
  {
  }

  lemma DispatchFits(s: Server, f: Frame, version: byte)
    requires AllFit(s.out) && s.seen != []
    ensures AllFit(Dispatch(s, f, version).out)
  {
  }

  lemma {:induction false} OutFits(es: seq<Event>)
    requires forall i | 0 <= i < |es| :: ErrorFits(es[i])
    ensures AllFit(Run(Init(), es).out)
  {
    if es != [] {
      OutFits(es[..|es| - 1]);
      var s := Run(Init(), es[..|es| - 1]);
      match es[|es| - 1] {
        case Deliver(f, version) =>
          if !s.ended {
            DispatchFits(s.(seen := s.seen + [f]), f, version);
          }
        case Disconnect =>
        case Handler(c, a) =>
          assert ErrorFits(es[|es| - 1]);
          if c < |s.chans| {
            ActFits(s.chans[c], a, s.peerVersion);
          }
      }
    }
  }

  // A dial fails, the peer is told, and the text of the error is too long for a frame.
  predicate SendsLongError(s: Server, e: Event) {
    && e.Handler? && e.chan < |s.chans| && s.chans[e.chan].phase.Dialing? && s.peerVersion >= 2
    && e.action.Dialed? && e.action.error.Some? && |e.action.error.value| >= 0x1_0000
  }

  lemma StepFits(s: Server, e: Event)
    ensures AllFit(Step(s, e).out) <==> AllFit(s.out) && !SendsLongError(s, e)
  {
    var t := Step(s, e);
    if e.Deliver? && !s.ended {
      DispatchAddsFitting(s.(seen := s.seen + [e.frame]), e.frame, e.version);
    } else if e.Handler? && e.chan < |s.chans| {
      ActFitsExactlyWhen(s.chans[e.chan], e.action, s.peerVersion);
      AppendFits(s.out, Act(s.chans[e.chan], e.action, s.peerVersion).frames);
    }
  }

  lemma AppendFits(a: seq<Frame>, b: seq<Frame>)
    ensures AllFit(a + b) <==> AllFit(a) && AllFit(b)
  {
    assert forall i | 0 <= i < |a| :: (a + b)[i] == a[i];
    assert forall i | 0 <= i < |b| :: (a + b)[|a| + i] == b[i];
  }

  lemma DispatchAddsFitting(s: Server, f: Frame, version: byte)
    requires s.seen != []
    ensures AllFit(Dispatch(s, f, version).out) <==> AllFit(s.out)
  {
    var t := Dispatch(s, f, version);
    if AllFit(s.out) {
      DispatchFits(s, f, version);
    }
    assert s.out <= t.out;
    AppendFits(s.out, t.out[|s.out|..]);
    assert t.out == s.out + t.out[|s.out|..];
  }

  lemma ActFitsExactlyWhen(ch: Chan, a: Action, version: byte)
    ensures AllFit(Act(ch, a, version).frames) <==>
              !(ch.phase.Dialing? && version >= 2 && a.Dialed? && a.error.Some? && |a.error.value| >= 0x1_0000)
  {
    if ErrorFits(Handler(0, a)) {
      ActFits(ch, a, version);
    } else if ch.phase.Dialing? && version >= 2 {
      assert !Fits(Act(ch, a, version).frames[0]);
    }
  }

  ghost predicate LongErrorAt(es: seq<Event>, k: nat) {
    k < |es| && SendsLongError(Run(Init(), es[..k]), es[k])
  }

  ghost predicate SomeLongError(es: seq<Event>) { exists k: nat :: LongErrorAt(es, k) }

  lemma LongErrorSnoc(before: seq<Event>, e: Event)
    ensures SomeLongError(before + [e]) <==> SomeLongError(before) || SendsLongError(Run(Init(), before), e)
  {
    var es := before + [e];
    assert es[..|before|] == before;
    assert forall k: nat | k < |before| :: es[..k] == before[..k] && es[k] == before[k];
    if k: nat :| LongErrorAt(before, k) {
      assert LongErrorAt(es, k);
    }
    if SendsLongError(Run(Init(), before), e) {
      assert LongErrorAt(es, |before|);
    }
    if k: nat :| LongErrorAt(es, k) {
      assert k < |before| ==> LongErrorAt(before, k);
    }
  }

  // Every frame sent fits exactly if no dial fails with a text of 65536 bytes or more that the peer is told.
  lemma {:induction false} OutFitsExactlyWhen(es: seq<Event>)
    ensures AllFit(Run(Init(), es).out) <==> !SomeLongError(es)
  {
    if es != [] {
      var before, e := es[..|es| - 1], es[|es| - 1];
      OutFitsExactlyWhen(before);
      StepFits(Run(Init(), before), e);
      assert es == before + [e];
      LongErrorSnoc(before, e);
    }
  }

  // Download isolation, for every run: the data frames sent under an id that was opened once, up to their FIN, are
  // what its own upstream delivered, in order; all of it unless a chunk of the way up was refused.
  lemma DownloadIsolation(es: seq<Event>, c: nat)
    requires Only(Run(Init(), es).chans, c)
    ensures var s := Run(Init(), es);
            var ch := s.chans[c];
            && StreamData(s.out, ch.sid) <= ch.downloaded
            && (!ch.rejected ==> StreamData(s.out, ch.sid) == ch.downloaded)
            && (!ch.rejected ==> (HasFin(s.out, ch.sid) <==> ch.upTask.Ended?))
  {
    RunSends(es);
  }

  function LocalBlock(): seq<byte> { [0x01, 127, 0, 0, 1, 0, 80] }

  lemma LocalBlockReads()
    ensures var b := LocalBlock();
            && |b| == 7 && Demand(SOCKS, []) == 1 && Demand(SOCKS, b[..1]) == 4 && Demand(SOCKS, b[..5]) == 2
            && Demand(SOCKS, b) == 0 && ParseAddr(SOCKS, b).Ok?
            && b[..1] + b[1..][..4] == b[..5] && b[1..][4..] == b[5..] && b[..5] + b[5..][..2] == b && b[5..][2..] == []
  {
  }

  lemma FirstSyn() returns (es: seq<Event>, s: Server)
    ensures s == Run(Init(), es)
    ensures s.gotSettings && !s.ended && s.peerVersion == 0 && s.streams == map[5 := 0] && s.chans == [NewChan(5, 1)]
    ensures |s.seen| == 2 && s.out == [Frame(CMD_UPDATE_PADDING, 0, DEFAULT_PADDING_SCHEME)]
  {
    es, s := Then([], Init(), Deliver(Frame(CMD_SETTINGS, 0, []), 0));
    es, s := Then(es, s, Deliver(Frame(CMD_SYN, 5, []), 0));
  }

  // Stream 5 has been opened and its target, 127.0.0.1:80, is queued.
  lemma StreamOpens() returns (es: seq<Event>, s: Server)
    ensures s == Run(Init(), es)
    ensures s.gotSettings && !s.ended && s.peerVersion == 0 && s.streams == map[5 := 0]
    ensures s.chans == [NewChan(5, 1).(queue := [LocalBlock()], accepted := [LocalBlock()])]
    ensures s.out == [Frame(CMD_UPDATE_PADDING, 0, DEFAULT_PADDING_SCHEME)]
  {
    es, s := FirstSyn();
    es, s := Then(es, s, Deliver(Frame(CMD_PSH, 5, LocalBlock()), 0));
    assert s.chans[0].queue == [LocalBlock()] && s.chans[0].accepted == [LocalBlock()];
  }

  // A run in which stream 5 dials its target and starts relaying.
  lemma RelayStarts() returns (es: seq<Event>, s: Server)
    ensures s == Run(Init(), es)
    ensures s.gotSettings && !s.ended && s.streams == map[5 := 0]
    ensures |s.chans| == 1 && s.chans[0].sid == 5 && s.chans[0].upTask.Running?
    ensures s.out == [Frame(CMD_UPDATE_PADDING, 0, DEFAULT_PADDING_SCHEME)]
  {
    LocalBlockReads();
    var b := LocalBlock();
    es, s := StreamOpens();
    es, s := TargetPoll(es, s, [], b, [b], 1);
    es, s := TargetPoll(es, s, b[..1], b[1..], [], 4);
    es, s := TargetPoll(es, s, b[..5], b[5..], [], 2);
    es, s := DialSucceeds(es, s);
  }

  lemma DialSucceeds(es: seq<Event>, s: Server) returns (es': seq<Event>, s': Server)
    requires s == Run(Init(), es) && |s.chans| == 1 && s.chans[0].phase.Dialing? && s.peerVersion < 2
    ensures s' == Run(Init(), es') && s' == s.(chans := [s.chans[0].(phase := Relaying, upTask := Running)])
    ensures Delivered(es') == Delivered(es)
  {
    es', s' := Then(es, s, Handler(0, Dialed(None)));
    assert s'.out == s.out;
  }

  // The handler's next read while the target is still coming in.
  lemma TargetPoll(es: seq<Event>, s: Server, got: seq<byte>, rest: seq<byte>, queue: seq<seq<byte>>, n: nat)
    returns (es': seq<Event>, s': Server)
    requires s == Run(Init(), es) && |s.chans| == 1
    requires var ch := s.chans[0];
             && ch.phase.Target? && ch.open && ch.read == got && ch.queue == queue
             && ((queue == [] && ch.pending == rest) || (queue == [rest] && ch.pending == []))
    requires 0 < n == Demand(SOCKS, got) <= |rest|
    ensures s' == Run(Init(), es')
    ensures s' == s.(chans := [TargetBytes(s.chans[0].(read := got + rest[..n], pending := rest[n..], queue := []))])
    ensures Delivered(es') == Delivered(es)
  {
    es', s' := Then(es, s, Handler(0, Poll(n)));
    assert PollQueue([], [rest], false, n) == PollQueue(rest, [], false, n);
    assert s'.out == s.out;
  }

  // Reusing an id breaks that: a handler that outlives its FIN keeps sending under the id, and its upstream's bytes
  // land in the incarnation opened afterwards.
  lemma ReusedIdMixesDownloads() returns (es: seq<Event>)
    ensures var s := Run(Init(), es);
            |s.chans| == 2 && s.streams == map[5 := 1] && s.chans[1].downloaded == []
            && StreamData(s.out, 5) == [[42]]
  {
    var s: Server;
    es, s := RelayStarts();
    es, s := Then(es, s, Deliver(Frame(CMD_FIN, 5, []), 0));
    es, s := Then(es, s, Deliver(Frame(CMD_SYN, 5, []), 0));
    assert s.streams == map[5 := 1];
    es, s := Then(es, s, Handler(0, UpRead([42])));
    OneChunkSent(Frame(CMD_UPDATE_PADDING, 0, DEFAULT_PADDING_SCHEME), s.out);
  }

  lemma OneChunkSent(first: Frame, out: seq<Frame>)
    requires Quiet(first) && out == [first] + [Frame(CMD_PSH, 5, [42])]
    ensures StreamData(out, 5) == [[42]]
  {
    StreamDataSnoc([], first, 5);
    assert [] + [first] == [first];
    StreamDataSnoc([first], Frame(CMD_PSH, 5, [42]), 5);
  }
}
