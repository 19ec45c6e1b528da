/** Reusing a stream id: exactly when the new incarnation's download is its own. */
module AnyTlsReuse {
  import opened Bytes
  import opened Address
  import opened ChunkedRead
  import opened AnyTlsFrames
  import opened AnyTlsServer
  import opened AnyTlsUpload
  import opened AnyTlsDownload
  import opened AnyTlsWire

  // The handler relays from upstream, or may yet come to: it is dialling, or what it has been given completes an address.
  predicate CanStillSend(ch: Chan) {
    || ch.upTask.Running? || ch.phase.Dialing?
    || (ch.phase.Target? && ParseAddr(SOCKS, ch.read + (ch.pending + Flatten(ch.queue))).Ok?)
  }

  // A stream of the same id has been opened after incarnation n.
  predicate Reopened(s: Server, n: nat)
    requires n < |s.chans|
  {
    exists d :: n < d < |s.chans| && s.chans[d].sid == s.chans[n].sid
  }

  // What has been sent under the id of incarnation n, from output position o on, is what its own upstream delivered.
  ghost predicate Isolated(s: Server, n: nat, o: nat)
    requires n < |s.chans| && o <= |s.out|
  {
    var ch := s.chans[n];
    && StreamData(s.out[o..], ch.sid) <= ch.downloaded
    && (!ch.rejected ==> StreamData(s.out[o..], ch.sid) == ch.downloaded)
  }

  // It stays so in every continuation, as long as the id is not opened again.
  ghost predicate AlwaysIsolated(s: Server, n: nat, o: nat) {
    forall es :: var t := Run(s, es);
                 n < |t.chans| && o <= |t.out| && (Reopened(t, n) || Isolated(t, n, o))
  }

  // ---- A handler that can no longer send never will ----

  lemma ParsedMeansNoDemand(b: seq<byte>)
    requires ParseAddr(SOCKS, b).Ok?
    ensures Demand(SOCKS, b) == 0 && ParseAddr(SOCKS, b).used <= |b|
  {
  }

  // One poll for the target moves bytes from what is left to what is read, and the sum stays the same.
  lemma TargetPollMoves(ch: Chan) returns (d: seq<byte>, rest: seq<byte>)
    requires UploadInv(ch) && ch.phase.Target? && !ch.open
    ensures rest == PollChan(ch, 0).pending + Flatten(PollChan(ch, 0).queue)
    ensures d + rest == ch.pending + Flatten(ch.queue) && |d| <= Demand(SOCKS, ch.read)
    ensures d == [] ==> PollChan(ch, 0).phase.Returned? && ch.pending + Flatten(ch.queue) == []
    ensures d != [] ==> PollChan(ch, 0).read == ch.read + d
                        && PollChan(ch, 0).phase == TargetBytes(ch.(read := ch.read + d)).phase
  {
    var want := Demand(SOCKS, ch.read);
    var p := PollQueue(ch.pending, ch.queue, true, want);
    PollConserves(ch.pending, ch.queue, true, want);
    d := if p.poll.Ready? then p.poll.data else [];
    rest := p.pending + Flatten(p.queue);
    Assoc(d, p.pending, Flatten(p.queue));
    TargetPolled(ch, p, d);
  }

  lemma TargetPolled(ch: Chan, p: Polled, d: seq<byte>)
    requires ch.phase.Target? && !ch.open && p == PollQueue(ch.pending, ch.queue, true, Demand(SOCKS, ch.read))
    requires p.poll.Ready? && d == p.poll.data
    ensures var next := PollChan(ch, 0);
            && next.pending == p.pending && next.queue == p.queue
            && (d == [] ==> next.phase.Returned?)
            && (d != [] ==> next.read == ch.read + d && next.phase == TargetBytes(ch.(read := ch.read + d)).phase)
  {
  }

  // Whether an address is complete is decided by the bytes it takes.
  lemma DialsOnlyIfComplete(ch: Chan, d: seq<byte>, rest: seq<byte>)
    requires ch.phase.Target? && 0 < |d| <= Demand(SOCKS, ch.read)
    ensures TargetBytes(ch.(read := ch.read + d)).phase.Dialing? ==> ParseAddr(SOCKS, ch.read + (d + rest)).Ok?
    ensures ParseAddr(SOCKS, ch.read + (d + rest)).Ok? ==>
              var phase := TargetBytes(ch.(read := ch.read + d)).phase;
              phase.Dialing? || phase.Target?
  {
    DemandMeetsParse(SOCKS, ch.read, d);
    Assoc(ch.read, d, rest);
    var got := ch.read + d;
    if ParseAddr(SOCKS, got).Ok? {
      assert got[..ParseAddr(SOCKS, got).used] == got;
      ParseIsPrefixStable(SOCKS, got, got + rest);
    }
    if ParseAddr(SOCKS, got).Err? && ParseAddr(SOCKS, got).error.Unsupported? {
      assert (got + rest)[0] == got[0];
    }
  }

  lemma SilentPoll(ch: Chan)
    requires UploadInv(ch) && ch.phase.Target? && !ch.open && !CanStillSend(ch)
    ensures !CanStillSend(PollChan(ch, 0))
  {
    var d, rest := TargetPollMoves(ch);
    if d != [] {
      DialsOnlyIfComplete(ch, d, rest);
      Assoc(ch.read, d, rest);
    }
  }

  lemma SilentActs(ch: Chan, a: Action, version: byte)
    requires UploadInv(ch) && !ch.open && !CanStillSend(ch)
    ensures var r := Act(ch, a, version);
            r.frames == [] && !CanStillSend(r.chan) && !r.chan.open && r.chan.sid == ch.sid
  {
    ActKeepsHistory(ch, a, version);
    if a.Poll? && ch.phase.Target? {
      SilentPoll(ch);
    }
  }

  // ---- What the reader loop does ----

  predicate RefusesOpen(s: Server, t: Server, sid: u32) {
    sid in s.streams && s.streams[sid] < |t.chans| && t.chans[s.streams[sid]].rejected
  }

  // Incarnations already closed are left alone; no data is sent, and FIN only for the open stream it refuses.
  ghost predicate ReaderSpares(s: Server, t: Server) {
    && |s.chans| <= |t.chans| && s.out <= t.out
    && (forall c | 0 <= c < |s.chans| && !s.chans[c].open :: t.chans[c] == s.chans[c])
    && (forall i | |s.out| <= i < |t.out| ::
          && t.out[i].cmd != CMD_PSH
          && (t.out[i].cmd == CMD_FIN ==> RefusesOpen(s, t, t.out[i].sid)))
  }

  lemma PushSpares(s: Server, f: Frame)
    requires TableInv(s.streams, s.chans)
    ensures ReaderSpares(s, Push(s, f))
  {
  }

  lemma SynSpares(s: Server, f: Frame)
    requires s.seen != []
    ensures ReaderSpares(s, Syn(s, f))
  {
  }

  lemma FinSpares(s: Server, f: Frame)
    requires TableInv(s.streams, s.chans)
    ensures ReaderSpares(s, Fin(s, f))
  {
  }

  lemma RestSpares(s: Server, f: Frame, version: byte)
    requires s.seen != [] && f.cmd != CMD_PSH && f.cmd != CMD_SYN && f.cmd != CMD_FIN
    ensures ReaderSpares(s, Dispatch(s, f, version))
  {
  }

  lemma DispatchSpares(s: Server, f: Frame, version: byte)
    requires s.seen != [] && TableInv(s.streams, s.chans)
    ensures ReaderSpares(s, Dispatch(s, f, version))
  {
    if f.cmd == CMD_PSH {
      PushSpares(s, f);
    } else if f.cmd == CMD_SYN {
      SynSpares(s, f);
    } else if f.cmd == CMD_FIN {
      FinSpares(s, f);
    } else {
      RestSpares(s, f, version);
    }
  }

  lemma ReaderStepSpares(s: Server, e: Event)
    requires !e.Handler? && TableInv(s.streams, s.chans)
    ensures ReaderSpares(s, Step(s, e))
  {
    if e.Deliver? && !s.ended {
      DispatchSpares(s.(seen := s.seen + [e.frame]), e.frame, e.version);
    }
  }

  // ---- The new incarnation ----

  // Every earlier incarnation of the id is closed and can no longer send.
  ghost predicate Silent(chans: seq<Chan>, n: nat)
    requires n <= |chans|
  {
    n < |chans| ==> forall d | 0 <= d < n && chans[d].sid == chans[n].sid :: !chans[d].open && !CanStillSend(chans[d])
  }

  ghost predicate Fresh(s: Server, n: nat, o: nat) {
    && n < |s.chans| && o <= |s.out|
    && (Reopened(s, n) || (DownloadOk(s.chans[n], s.out[o..]) && Silent(s.chans, n)))
  }

  lemma NoDataAdded(out: seq<Frame>, frames: seq<Frame>, sid: u32)
    requires forall i | 0 <= i < |frames| :: frames[i].cmd != CMD_PSH
    ensures StreamData(out + frames, sid) == StreamData(out, sid)
    ensures HasFin(out + frames, sid) <==> HasFin(out, sid) || HasFin(frames, sid)
  {
    StreamDataConcat(out, frames, sid);
    NoData(frames, sid);
    FinConcat(out, frames, sid);
  }

  lemma FinConcat(a: seq<Frame>, b: seq<Frame>, sid: u32)
    ensures HasFin(a + b, sid) <==> HasFin(a, sid) || HasFin(b, sid)
  {
    if HasFin(a, sid) {
      var i :| 0 <= i < |a| && Ends(a[i], sid);
      assert Ends((a + b)[i], sid);
    }
    if HasFin(b, sid) {
      var i :| 0 <= i < |b| && Ends(b[i], sid);
      assert Ends((a + b)[|a| + i], sid);
    }
  }

  // A reader step, seen by the new incarnation.
  lemma ReaderKeepsDownload(ch: Chan, next: Chan, out: seq<Frame>, frames: seq<Frame>)
    requires DownloadOk(ch, out)
    requires next.sid == ch.sid && next.downloaded == ch.downloaded && next.upTask == ch.upTask && next.phase == ch.phase
    requires ch.rejected ==> next.rejected
    requires forall i | 0 <= i < |frames| :: frames[i].cmd != CMD_PSH && (Ends(frames[i], ch.sid) ==> next.rejected)
    ensures DownloadOk(next, out + frames)
  {
    NoDataAdded(out, frames, ch.sid);
  }

  lemma NewFramesSpare(s: Server, t: Server, n: nat)
    requires ReaderSpares(s, t) && TableInv(s.streams, s.chans)
    requires n < |s.chans| && !Reopened(s, n) && Silent(s.chans, n)
    ensures forall i | 0 <= i < |t.out| - |s.out| ::
              var f := t.out[|s.out|..][i];
              f.cmd != CMD_PSH && (Ends(f, s.chans[n].sid) ==> t.chans[n].rejected)
  {
    forall i | 0 <= i < |t.out| - |s.out|
      ensures var f := t.out[|s.out|..][i];
              f.cmd != CMD_PSH && (Ends(f, s.chans[n].sid) ==> t.chans[n].rejected)
    {
      assert t.out[|s.out|..][i] == t.out[|s.out| + i];
      if Ends(t.out[|s.out| + i], s.chans[n].sid) {
        OpenIsLast(s, n);
      }
    }
  }

  lemma ReaderSeen(s: Server, t: Server, n: nat, o: nat)
    requires ReaderMoves(s, t) && ReaderSpares(s, t) && TableInv(s.streams, s.chans)
    requires n < |s.chans| && o <= |s.out| && !Reopened(s, n) && DownloadOk(s.chans[n], s.out[o..]) && Silent(s.chans, n)
    ensures DownloadOk(t.chans[n], t.out[o..]) && Silent(t.chans, n)
  {
    NewFramesSpare(s, t, n);
    var frames := t.out[|s.out|..];
    assert t.out[o..] == s.out[o..] + frames;
    ReaderKeepsDownload(s.chans[n], t.chans[n], s.out[o..], frames);
  }

  lemma ReaderKeepsFresh(s: Server, e: Event, n: nat, o: nat, t: Server)
    requires !e.Handler? && TableInv(s.streams, s.chans) && Fresh(s, n, o) && t == Step(s, e)
    ensures Fresh(t, n, o)
  {
    ReaderStep(s, e);
    ReaderStepSpares(s, e);
    if Reopened(s, n) {
      var d :| n < d < |s.chans| && s.chans[d].sid == s.chans[n].sid;
      assert t.chans[d].sid == t.chans[n].sid;
    } else {
      ReaderSeen(s, t, n, o);
    }
  }

  // The open incarnation of the id can only be the new one.
  lemma OpenIsLast(s: Server, n: nat)
    requires TableInv(s.streams, s.chans) && n < |s.chans| && !Reopened(s, n) && Silent(s.chans, n)
    requires s.chans[n].sid in s.streams
    ensures s.streams[s.chans[n].sid] == n
  {
    var c := s.streams[s.chans[n].sid];
    assert c <= n;
  }

  lemma StillReopened(s: Server, c: nat, next: Chan, n: nat, t: Server)
    requires n < |s.chans| && c < |s.chans| && next.sid == s.chans[c].sid && t.chans == s.chans[c := next]
    ensures Reopened(t, n) <==> Reopened(s, n)
  {
    assert forall d | 0 <= d < |s.chans| :: t.chans[d].sid == s.chans[d].sid;
    if Reopened(s, n) {
      var d :| n < d < |s.chans| && s.chans[d].sid == s.chans[n].sid;
      assert t.chans[d].sid == t.chans[n].sid;
    }
  }

  // The new incarnation's own handler.
  lemma OwnActs(chans: seq<Chan>, out: seq<Frame>, n: nat, next: Chan, frames: seq<Frame>)
    requires n < |chans| && DownloadOk(chans[n], out) && Silent(chans, n) && SendShape(chans[n], next, frames)
    ensures DownloadOk(next, out + frames) && Silent(chans[n := next], n)
  {
    SendsKeep(chans[n], next, out, frames);
  }

  // Another handler: silent under the same id, or sending under its own.
  lemma OtherActs(chans: seq<Chan>, out: seq<Frame>, c: nat, n: nat, next: Chan, frames: seq<Frame>)
    requires n < |chans| && c < |chans| && c != n && DownloadOk(chans[n], out) && Silent(chans, n)
    requires SendShape(chans[c], next, frames)
    requires chans[c].sid == chans[n].sid ==> c < n && frames == [] && !CanStillSend(next) && !next.open
    ensures DownloadOk(chans[n], out + frames) && Silent(chans[c := next], n)
  {
    OtherSends(chans[n], out, frames);
  }

  lemma OtherHandler(s: Server, c: nat, a: Action, n: nat, o: nat, r: Acted)
    requires Inv(s) && n < |s.chans| && c < |s.chans| && c != n && o <= |s.out| && !Reopened(s, n)
    requires DownloadOk(s.chans[n], s.out[o..]) && Silent(s.chans, n) && r == Act(s.chans[c], a, s.peerVersion)
    requires SendShape(s.chans[c], r.chan, r.frames)
    ensures DownloadOk(s.chans[n], s.out[o..] + r.frames) && Silent(s.chans[c := r.chan], n)
  {
    if s.chans[c].sid == s.chans[n].sid {
      assert c < n;
      SilentActs(s.chans[c], a, s.peerVersion);
    }
    OtherActs(s.chans, s.out[o..], c, n, r.chan, r.frames);
  }

  lemma HandlerKeepsFresh(s: Server, c: nat, a: Action, n: nat, o: nat, r: Acted, t: Server)
    requires Inv(s) && Fresh(s, n, o) && c < |s.chans| && r == Act(s.chans[c], a, s.peerVersion)
    requires t.chans == s.chans[c := r.chan] && t.out == s.out + r.frames
    ensures Fresh(t, n, o)
  {
    ActShape(s.chans[c], a, s.peerVersion);
    StillReopened(s, c, r.chan, n, t);
    if !Reopened(s, n) {
      assert t.out[o..] == s.out[o..] + r.frames;
      if c == n {
        OwnActs(s.chans, s.out[o..], n, r.chan, r.frames);
      } else {
        OtherHandler(s, c, a, n, o, r);
      }
    }
  }

  lemma OtherSends(ch: Chan, out: seq<Frame>, frames: seq<Frame>)
    requires DownloadOk(ch, out) && |frames| <= 1 && (frames != [] ==> frames[0].sid != ch.sid)
    ensures DownloadOk(ch, out + frames)
  {
    if frames == [] {
      assert out + frames == out;
    } else {
      StreamDataSnoc(out, frames[0], ch.sid);
      assert frames == [frames[0]];
    }
  }

  lemma StepKeepsFresh(s: Server, e: Event, n: nat, o: nat)
    requires Inv(s) && Fresh(s, n, o)
    ensures Fresh(Step(s, e), n, o)
  {
    if !e.Handler? {
      ReaderKeepsFresh(s, e, n, o, Step(s, e));
    } else if e.chan < |s.chans| {
      HandlerKeepsFresh(s, e.chan, e.action, n, o, Act(s.chans[e.chan], e.action, s.peerVersion), Step(s, e));
    }
  }

  lemma {:induction false} RunKeepsFresh(s: Server, es: seq<Event>, n: nat, o: nat)
    requires Inv(s) && Fresh(s, n, o)
    ensures Inv(Run(s, es)) && Fresh(Run(s, es), n, o)
  {
    if es != [] {
      RunKeepsFresh(s, es[..|es| - 1], n, o);
      StepKeeps(Run(s, es[..|es| - 1]), es[|es| - 1]);
      StepKeepsFresh(Run(s, es[..|es| - 1]), es[|es| - 1], n, o);
    }
  }

  // ---- A handler that can still send may do so ----

  // Only incarnation d has moved, and nothing but answers to dials has been sent.
  ghost predicate OnlyMoves(s: Server, t: Server, d: nat) {
    && d < |s.chans| && |t.chans| == |s.chans| && t.chans[d].sid == s.chans[d].sid
    && (forall c | 0 <= c < |s.chans| && c != d :: t.chans[c] == s.chans[c])
    && s.out <= t.out && (forall i | |s.out| <= i < |t.out| :: Quiet(t.out[i]))
  }

  lemma OneEvent(s: Server, e: Event, rest: seq<Event>)
    ensures Run(s, [e] + rest) == Run(Step(s, e), rest)
  {
    RunConcat(s, [e], rest);
    assert [e][..0] == [];
    assert Run(s, [e]) == Step(Run(s, []), e);
  }

  lemma PollTowardsDial(ch: Chan)
    requires UploadInv(ch) && ch.phase.Target? && !ch.open && CanStillSend(ch) && !ch.upTask.Running?
    ensures var next := PollChan(ch, 0);
            && CanStillSend(next) && !next.open && next.sid == ch.sid && (next.phase.Target? || next.phase.Dialing?)
            && next.upTask == ch.upTask
            && |next.pending + Flatten(next.queue)| < |ch.pending + Flatten(ch.queue)|
  {
    var d, rest := TargetPollMoves(ch);
    ParsedMeansNoDemand(ch.read + (ch.pending + Flatten(ch.queue)));
    assert ch.read + [] == ch.read;
    if d != [] {
      DialsOnlyIfComplete(ch, d, rest);
      Assoc(ch.read, d, rest);
    }
  }

  lemma DialTowardsRelay(s: Server, d: nat) returns (es: seq<Event>)
    requires d < |s.chans| && s.chans[d].phase.Dialing?
    ensures OnlyMoves(s, Run(s, es), d) && Run(s, es).chans[d].upTask.Running?
  {
    es := [Handler(d, Dialed(None))];
    OneEvent(s, es[0], []);
    assert [es[0]] + [] == es;
  }

  lemma PollMovesOnly(s: Server, d: nat)
    requires d < |s.chans|
    ensures var u := Step(s, Handler(d, Poll(0)));
            u.chans == s.chans[d := PollChan(s.chans[d], 0)] && u.out == s.out
  {
    assert s.out + [] == s.out;
  }

  lemma MovesAfter(s: Server, u: Server, t: Server, d: nat)
    requires d < |s.chans| && |u.chans| == |s.chans| && u.out == s.out && u.chans[d].sid == s.chans[d].sid
    requires u.chans == s.chans[d := u.chans[d]] && OnlyMoves(u, t, d)
    ensures OnlyMoves(s, t, d)
  {
  }

  lemma {:induction false} ReachesRelay(s: Server, d: nat) returns (es: seq<Event>)
    requires Inv(s) && d < |s.chans| && !s.chans[d].open && CanStillSend(s.chans[d])
    ensures OnlyMoves(s, Run(s, es), d) && Run(s, es).chans[d].upTask.Running?
    decreases |s.chans[d].pending + Flatten(s.chans[d].queue)|
  {
    if s.chans[d].upTask.Running? {
      es := [];
    } else if s.chans[d].phase.Dialing? {
      es := DialTowardsRelay(s, d);
    } else {
      var e := Handler(d, Poll(0));
      var u := Step(s, e);
      PollTowardsDial(s.chans[d]);
      PollMovesOnly(s, d);
      StepKeeps(s, e);
      es := ReachesRelay(u, d);
      MovesAfter(s, u, Run(u, es), d);
      OneEvent(s, e, es);
      es := [e] + es;
    }
  }

  lemma {:induction false} QuietCarriesNothing(fs: seq<Frame>, sid: u32)
    requires forall i | 0 <= i < |fs| :: Quiet(fs[i])
    ensures StreamData(fs, sid) == [] && !HasFin(fs, sid)
  {
    NoData(fs, sid);
  }

  // Bytes of the old upstream, under the new incarnation's id.
  lemma OldBytesMix(s: Server, u: Server, t: Server, n: nat, o: nat, d: nat)
    requires OnlyMoves(s, u, d) && d < n && n + 1 == |s.chans| && o == |s.out| && s.chans[n].downloaded == []
    requires s.chans[d].sid == s.chans[n].sid && |t.chans| == |u.chans| && t.chans[n] == u.chans[n]
    requires t.out == u.out + [Frame(CMD_PSH, s.chans[n].sid, [42])]
    ensures o <= |t.out| && !Reopened(t, n) && !Isolated(t, n, o)
  {
    var psh := Frame(CMD_PSH, s.chans[n].sid, [42]);
    assert t.out[o..] == u.out[o..] + [psh];
    assert forall i | 0 <= i < |u.out[o..]| :: u.out[o..][i] == u.out[o + i];
    QuietCarriesNothing(u.out[o..], psh.sid);
    StreamDataSnoc(u.out[o..], psh, psh.sid);
  }

  lemma UpstreamDelivers(u: Server, d: nat) returns (t: Server)
    requires d < |u.chans| && u.chans[d].upTask.Running?
    ensures t == Run(u, [Handler(d, UpRead([42]))]) && t.out == u.out + [Frame(CMD_PSH, u.chans[d].sid, [42])]
    ensures |t.chans| == |u.chans| && forall c | 0 <= c < |u.chans| && c != d :: t.chans[c] == u.chans[c]
  {
    var e := Handler(d, UpRead([42]));
    OneEvent(u, e, []);
    assert [e] + [] == [e];
    t := Step(u, e);
  }

  lemma OldBytesArrive(s: Server, n: nat, o: nat, d: nat) returns (es: seq<Event>)
    requires Inv(s) && d < n && n + 1 == |s.chans| && o == |s.out| && s.chans[n].downloaded == []
    requires s.chans[d].sid == s.chans[n].sid && !s.chans[d].open && CanStillSend(s.chans[d])
    ensures var t := Run(s, es);
            n < |t.chans| && o <= |t.out| && !Reopened(t, n) && !Isolated(t, n, o)
  {
    es := ReachesRelay(s, d);
    var u := Run(s, es);
    var t := UpstreamDelivers(u, d);
    OldBytesMix(s, u, t, n, o, d);
    RunConcat(s, es, [Handler(d, UpRead([42]))]);
    es := es + [Handler(d, UpRead([42]))];
  }

  // ---- Exactly when ----

  lemma Opened(s: Server, f: Frame, version: byte)
    requires s.gotSettings && !s.ended && f.cmd == CMD_SYN && f.sid !in s.streams
    ensures var t := Step(s, Deliver(f, version));
            t.chans == s.chans + [NewChan(f.sid, |s.seen|)] && t.out == s.out
  {
  }

  // A SYN that opens an id anew, in any reachable state: in every continuation in which the id is not opened yet again, what
  // is sent under it is its own upstream's, exactly if no earlier incarnation of the id can still send.
  lemma ReuseIsolatedExactlyWhen(before: seq<Event>, sid: u32, data: seq<byte>, version: byte)
    requires var s := Run(Init(), before);
             s.gotSettings && !s.ended && sid !in s.streams
    ensures var s := Run(Init(), before);
            AlwaysIsolated(Step(s, Deliver(Frame(CMD_SYN, sid, data), version)), |s.chans|, |s.out|)
            <==> !exists d :: 0 <= d < |s.chans| && s.chans[d].sid == sid && CanStillSend(s.chans[d])
  {
    var s := Run(Init(), before);
    var e := Deliver(Frame(CMD_SYN, sid, data), version);
    var t, n, o := Step(s, e), |s.chans|, |s.out|;
    RunKeeps(before);
    StepKeeps(s, e);
    Opened(s, e.frame, version);
    assert forall d | 0 <= d < n :: t.chans[d] == s.chans[d];
    assert forall d | 0 <= d < n && s.chans[d].sid == sid :: !s.chans[d].open;
    if d :| 0 <= d < n && s.chans[d].sid == sid && CanStillSend(s.chans[d]) {
      var es := OldBytesArrive(t, n, o, d);
      assert !AlwaysIsolated(t, n, o);
    } else {
      StaysIsolated(t, n, o);
    }
  }

  lemma StaysIsolated(t: Server, n: nat, o: nat)
    requires Inv(t) && n + 1 == |t.chans| && o == |t.out| && Silent(t.chans, n)
    requires t.chans[n].downloaded == [] && t.chans[n].upTask.NotStarted? && !t.chans[n].rejected
    ensures AlwaysIsolated(t, n, o)
  {
    assert t.out[o..] == [];
    assert Fresh(t, n, o);
    forall es
      ensures var u := Run(t, es);
              n < |u.chans| && o <= |u.out| && (Reopened(u, n) || Isolated(u, n, o))
    {
      RunKeepsFresh(t, es, n, o);
    }
  }
}
