/**
 The server's frames on the shared wire. Handlers and reader loop each send in their own order, and the lock and the socket
 decide how these orders mix and where the bytes are cut.
*/
module AnyTlsWire {
  import opened Bytes
  import opened AnyTlsFrames
  import opened AnyTlsServer
  import opened AnyTlsUpload
  import opened AnyTlsDownload
  import opened AnyTlsDial
  import opened AnyTlsEndToEnd
  import opened AnyTlsReader
  import opened Address
  import W = SharedWriter

  // ---- What each task sends in a run ----

  // Task 0 is the reader loop, task c + 1 the handler of incarnation c with its copy from upstream.
  function TaskOf(e: Event): nat { if e.Handler? then e.chan + 1 else 0 }

  function NewFrames(s: Server, e: Event): seq<Frame> {
    var out := Step(s, e).out;
    if |s.out| <= |out| then out[|s.out|..] else []
  }

  function Program(es: seq<Event>, t: nat): seq<Frame> {
    if es == [] then [] else
    var before, e := es[..|es| - 1], es[|es| - 1];
    Program(before, t) + if TaskOf(e) == t then NewFrames(Run(Init(), before), e) else []
  }

  function Programs(es: seq<Event>): seq<seq<Frame>> {
    seq(|Run(Init(), es).chans| + 1, t requires 0 <= t => Program(es, t))
  }

  // A handler's frames are its own stream's: what its upstream delivered, then FIN.
  ghost predicate HandlerProgram(ch: Chan, p: seq<Frame>) {
    && (forall i | 0 <= i < |p| :: p[i].sid == ch.sid)
    && StreamData(p, ch.sid) == ch.downloaded && (HasFin(p, ch.sid) <==> ch.upTask.Ended?)
    && (ch.phase.Target? || ch.phase.Dialing? ==> ch.upTask.NotStarted?)
  }

  // The reader loop sends no data, and FIN only for a stream it refused.
  ghost predicate ReaderProgram(chans: seq<Chan>, p: seq<Frame>) {
    forall i | 0 <= i < |p| :: p[i].cmd != CMD_PSH && (p[i].cmd == CMD_FIN ==> Refused(chans, p[i].sid))
  }

  ghost predicate Refused(chans: seq<Chan>, sid: u32) {
    exists c :: 0 <= c < |chans| && chans[c].sid == sid && chans[c].rejected
  }

  ghost predicate ProgramsOk(s: Server, es: seq<Event>) {
    && ReaderProgram(s.chans, Program(es, 0))
    && (forall c | 0 <= c < |s.chans| :: HandlerProgram(s.chans[c], Program(es, c + 1)))
    && (forall t: nat | t > |s.chans| :: Program(es, t) == [])
  }

  lemma ActProgram(ch: Chan, next: Chan, p: seq<Frame>, frames: seq<Frame>)
    requires HandlerProgram(ch, p) && SendShape(ch, next, frames)
    ensures HandlerProgram(next, p + frames)
  {
    if frames == [] {
      assert p + frames == p;
    } else {
      StreamDataSnoc(p, frames[0], ch.sid);
      assert frames == [frames[0]];
    }
  }

  // What the reader loop does to incarnations already there: opens and refuses, and no more.
  ghost predicate ReaderMoves(s: Server, t: Server) {
    && |s.chans| <= |t.chans|
    && (forall c | 0 <= c < |s.chans| ::
          && t.chans[c].sid == s.chans[c].sid && t.chans[c].downloaded == s.chans[c].downloaded
          && t.chans[c].upTask == s.chans[c].upTask && t.chans[c].phase == s.chans[c].phase
          && (s.chans[c].rejected ==> t.chans[c].rejected))
    && (forall c | |s.chans| <= c < |t.chans| :: t.chans[c].downloaded == [] && t.chans[c].upTask.NotStarted?)
  }

  ghost predicate ReaderMovesTo(s: Server, t: Server) {
    ReaderMoves(s, t) && s.out <= t.out && ReaderProgram(t.chans, t.out[|s.out|..])
  }

  lemma PushMoves(s: Server, f: Frame)
    requires TableInv(s.streams, s.chans)
    ensures ReaderMovesTo(s, Push(s, f))
  {
    var t := Push(s, f);
    if f.sid in s.streams && f.data != [] && t.out != s.out {
      var c := s.streams[f.sid];
      assert t.chans[c].sid == f.sid && t.chans[c].rejected;
      assert t.out[|s.out|..] == [Frame(CMD_FIN, f.sid, [])];
    }
  }

  lemma SynMoves(s: Server, f: Frame)
    requires s.seen != []
    ensures ReaderMovesTo(s, Syn(s, f))
  {
  }

  lemma FinMoves(s: Server, f: Frame)
    requires TableInv(s.streams, s.chans)
    ensures ReaderMovesTo(s, Fin(s, f))
  {
  }

  lemma OthersMove(s: Server, f: Frame, version: byte)
    requires s.seen != [] && f.cmd != CMD_PSH && f.cmd != CMD_SYN && f.cmd != CMD_FIN
    ensures ReaderMovesTo(s, Dispatch(s, f, version))
  {
  }

  lemma DispatchMoves(s: Server, f: Frame, version: byte)
    requires s.seen != [] && TableInv(s.streams, s.chans)
    ensures ReaderMovesTo(s, Dispatch(s, f, version))
  {
    if f.cmd == CMD_PSH {
      PushMoves(s, f);
    } else if f.cmd == CMD_SYN {
      SynMoves(s, f);
    } else if f.cmd == CMD_FIN {
      FinMoves(s, f);
    } else {
      OthersMove(s, f, version);
    }
  }

  lemma ReaderStep(s: Server, e: Event)
    requires !e.Handler? && TableInv(s.streams, s.chans)
    ensures ReaderMovesTo(s, Step(s, e))
  {
    if e.Deliver? && !s.ended {
      DispatchMoves(s.(seen := s.seen + [e.frame]), e.frame, e.version);
    }
  }

  lemma ReaderProgramGrows(s: Server, t: Server, p: seq<Frame>, frames: seq<Frame>)
    requires ReaderProgram(s.chans, p) && ReaderMoves(s, t) && ReaderProgram(t.chans, frames)
    ensures ReaderProgram(t.chans, p + frames)
  {
    forall i | 0 <= i < |p| && p[i].cmd == CMD_FIN
      ensures Refused(t.chans, p[i].sid)
    {
      var c :| 0 <= c < |s.chans| && s.chans[c].sid == p[i].sid && s.chans[c].rejected;
      assert t.chans[c].rejected;
    }
  }

  lemma ReaderKeepsPrograms(es: seq<Event>, e: Event, s: Server)
    requires s == Run(Init(), es) && TableInv(s.streams, s.chans) && ProgramsOk(s, es) && !e.Handler?
    ensures ProgramsOk(Step(s, e), es + [e])
  {
    var t := Step(s, e);
    ReaderStep(s, e);
    ProgramSnoc(es, e, s);
    ReaderProgramGrows(s, t, Program(es, 0), NewFrames(s, e));
    forall c | 0 <= c < |t.chans|
      ensures HandlerProgram(t.chans[c], Program(es + [e], c + 1))
    {
      assert Program(es + [e], c + 1) == Program(es, c + 1);
    }
  }

  lemma ProgramSnoc(es: seq<Event>, e: Event, s: Server)
    requires s == Run(Init(), es)
    ensures forall u: nat :: Program(es + [e], u) == Program(es, u) + if u == TaskOf(e) then NewFrames(s, e) else []
  {
    assert (es + [e])[..|es|] == es;
  }

  lemma HandlerFrames(s: Server, e: Event)
    requires e.Handler? && e.chan < |s.chans|
    ensures var r := Act(s.chans[e.chan], e.action, s.peerVersion);
            NewFrames(s, e) == r.frames && Step(s, e).chans == s.chans[e.chan := r.chan]
  {
  }

  lemma ActKeepsProgram(ch: Chan, a: Action, version: byte, p: seq<Frame>, r: Acted)
    requires HandlerProgram(ch, p) && r == Act(ch, a, version)
    ensures HandlerProgram(r.chan, p + r.frames) && r.chan.sid == ch.sid && r.chan.rejected == ch.rejected
  {
    ActShape(ch, a, version);
    ActProgram(ch, r.chan, p, r.frames);
  }

  lemma HandlerSnoc(es: seq<Event>, e: Event, s: Server, r: Acted)
    requires s == Run(Init(), es) && e.Handler? && e.chan < |s.chans| && r == Act(s.chans[e.chan], e.action, s.peerVersion)
    ensures forall u: nat :: Program(es + [e], u) == Program(es, u) + if u == e.chan + 1 then r.frames else []
    ensures Step(s, e).chans == s.chans[e.chan := r.chan]
  {
    ProgramSnoc(es, e, s);
    HandlerFrames(s, e);
  }

  lemma ActedPrograms(es: seq<Event>, es': seq<Event>, s: Server, c: nat, a: Action, r: Acted, t: Server)
    requires ProgramsOk(s, es) && c < |s.chans| && r == Act(s.chans[c], a, s.peerVersion) && t.chans == s.chans[c := r.chan]
    requires forall u: nat :: Program(es', u) == Program(es, u) + if u == c + 1 then r.frames else []
    ensures ProgramsOk(t, es')
  {
    ActKeepsProgram(s.chans[c], a, s.peerVersion, Program(es, c + 1), r);
    HandlerReplaces(s, c, r.chan, r.frames, es, es', t);
  }

  lemma SamePrograms(s: Server, es: seq<Event>, es': seq<Event>)
    requires ProgramsOk(s, es) && forall u: nat :: Program(es', u) == Program(es, u)
    ensures ProgramsOk(s, es')
  {
  }

  lemma HandlerKeepsPrograms(es: seq<Event>, e: Event, s: Server)
    requires s == Run(Init(), es) && ProgramsOk(s, es) && e.Handler?
    ensures ProgramsOk(Step(s, e), es + [e])
  {
    if e.chan < |s.chans| {
      var r := Act(s.chans[e.chan], e.action, s.peerVersion);
      HandlerSnoc(es, e, s, r);
      ActedPrograms(es, es + [e], s, e.chan, e.action, r, Step(s, e));
    } else {
      ProgramSnoc(es, e, s);
      assert NewFrames(s, e) == [];
      SamePrograms(s, es, es + [e]);
    }
  }

  lemma HandlerReplaces(s: Server, c: nat, next: Chan, frames: seq<Frame>, es: seq<Event>, es': seq<Event>, t: Server)
    requires ProgramsOk(s, es) && c < |s.chans| && t.chans == s.chans[c := next]
    requires next.sid == s.chans[c].sid && next.rejected == s.chans[c].rejected
    requires HandlerProgram(next, Program(es, c + 1) + frames)
    requires forall u: nat :: Program(es', u) == Program(es, u) + if u == c + 1 then frames else []
    ensures ProgramsOk(t, es')
  {
    SameRefused(s.chans, c, next, Program(es, 0));
    assert Program(es', 0) == Program(es, 0);
    forall d | 0 <= d < |t.chans|
      ensures HandlerProgram(t.chans[d], Program(es', d + 1))
    {
      if d != c {
        assert Program(es', d + 1) == Program(es, d + 1) && t.chans[d] == s.chans[d];
      }
    }
  }

  lemma SameRefused(chans: seq<Chan>, c: nat, next: Chan, p: seq<Frame>)
    requires c < |chans| && next.sid == chans[c].sid && next.rejected == chans[c].rejected && ReaderProgram(chans, p)
    ensures ReaderProgram(chans[c := next], p)
  {
    forall i | 0 <= i < |p| && p[i].cmd == CMD_FIN
      ensures Refused(chans[c := next], p[i].sid)
    {
      var d :| 0 <= d < |chans| && chans[d].sid == p[i].sid && chans[d].rejected;
      assert chans[c := next][d].sid == p[i].sid && chans[c := next][d].rejected;
    }
  }

  lemma {:induction false} RunPrograms(es: seq<Event>)
    ensures ProgramsOk(Run(Init(), es), es)
  {
    if es != [] {
      var before, e := es[..|es| - 1], es[|es| - 1];
      RunPrograms(before);
      RunKeeps(before);
      assert es == before + [e];
      if e.Handler? {
        HandlerKeepsPrograms(before, e, Run(Init(), before));
      } else {
        ReaderKeepsPrograms(before, e, Run(Init(), before));
      }
    }
  }

  // What a task sends is among what the server sends.
  lemma {:induction false} ProgramInOut(es: seq<Event>, t: nat, i: nat)
    requires i < |Program(es, t)|
    ensures Program(es, t)[i] in Run(Init(), es).out
  {
    var before, e := es[..|es| - 1], es[|es| - 1];
    var s := Run(Init(), before);
    OutGrows(s, e);
    if i < |Program(before, t)| {
      ProgramInOut(before, t, i);
    } else {
      assert Program(es, t)[i] == NewFrames(s, e)[i - |Program(before, t)|];
    }
  }

  lemma OutGrows(s: Server, e: Event)
    ensures s.out <= Step(s, e).out
  {
  }

  lemma ProgramsFit(es: seq<Event>)
    requires forall i | 0 <= i < |es| :: ErrorFits(es[i])
    ensures forall t | 0 <= t < |Programs(es)| :: AllFit(Programs(es)[t])
  {
    OutFits(es);
    forall t: nat, i: nat | t < |Programs(es)| && i < |Programs(es)[t]|
      ensures Fits(Programs(es)[t][i])
    {
      ProgramInOut(es, t, i);
    }
  }

  // ---- One task's stream among the others ----

  // Nobody but task t sends data under sid.
  ghost predicate OwnsData(done: seq<(nat, Frame)>, t: nat, sid: u32) {
    forall i | 0 <= i < |done| && done[i].0 != t :: !(done[i].1.cmd == CMD_PSH && done[i].1.sid == sid)
  }

  // Nor FIN.
  ghost predicate OwnsFin(done: seq<(nat, Frame)>, t: nat, sid: u32) {
    forall i | 0 <= i < |done| && done[i].0 != t :: !Ends(done[i].1, sid)
  }

  // Mixing in other tasks' frames leaves a stream's data as its task sent it, up to a FIN from elsewhere.
  ghost predicate Mixed(all: seq<Frame>, own: seq<Frame>, sid: u32, alone: bool) {
    && StreamData(all, sid) <= StreamData(own, sid)
    && (HasFin(own, sid) ==> HasFin(all, sid))
    && (!HasFin(all, sid) || alone ==> StreamData(all, sid) == StreamData(own, sid))
    && (alone ==> (HasFin(all, sid) <==> HasFin(own, sid)))
  }

  lemma {:induction false} StreamAmongOthers(done: seq<(nat, Frame)>, t: nat, sid: u32)
    requires OwnsData(done, t, sid)
    ensures Mixed(W.Frames(done), W.SentBy(done, t), sid, OwnsFin(done, t, sid))
  {
    if done == [] {
      assert W.Frames(done) == [];
    } else {
      var before, last := done[..|done| - 1], done[|done| - 1];
      OwnsBefore(done, t, sid);
      StreamAmongOthers(before, t, sid);
      assert W.Frames(done) == W.Frames(before) + [last.1];
      MixedNext(W.Frames(before), W.SentBy(before, t), sid, OwnsFin(before, t, sid), OwnsFin(done, t, sid), last.0 == t, last.1);
    }
  }

  lemma OwnsBefore(done: seq<(nat, Frame)>, t: nat, sid: u32)
    requires done != [] && OwnsData(done, t, sid)
    ensures var before, last := done[..|done| - 1], done[|done| - 1];
            && OwnsData(before, t, sid) && (last.0 != t ==> !(last.1.cmd == CMD_PSH && last.1.sid == sid))
            && (OwnsFin(done, t, sid) ==> OwnsFin(before, t, sid) && (last.0 != t ==> !Ends(last.1, sid)))
  {
    assert forall i | 0 <= i < |done| - 1 :: done[..|done| - 1][i] == done[i];
  }

  lemma MixedNext(all: seq<Frame>, own: seq<Frame>, sid: u32, was: bool, alone: bool, mine: bool, f: Frame)
    requires Mixed(all, own, sid, was) && (alone ==> was && (!mine ==> !Ends(f, sid)))
    requires !mine ==> !(f.cmd == CMD_PSH && f.sid == sid)
    ensures Mixed(all + [f], own + if mine then [f] else [], sid, alone)
  {
    StreamDataSnoc(all, f, sid);
    StreamDataSnoc(own, f, sid);
    assert own + [] == own;
  }

  // ---- Decoded from the wire ----

  // What is on the wire or on its way there: the frames sent, and the one in hand.
  function Taken(w: W.Writer): seq<(nat, Frame)> {
    w.done + if w.holder.Some? then [(w.holder.value.task, w.holder.value.frame)] else []
  }

  lemma TakenFrames(programs: seq<seq<Frame>>, ws: seq<W.Event>)
    ensures var w := W.Run(W.Init(programs), ws);
            && w.wire <= EncodeAll(W.Frames(Taken(w)))
            && (forall t | 0 <= t < |programs| :: W.SentBy(Taken(w), t) <= programs[t])
            && (forall i | 0 <= i < |Taken(w)| :: Taken(w)[i].0 < |programs| && Taken(w)[i].1 in programs[Taken(w)[i].0])
  {
    W.RunKeeps(programs, ws);
    var w := W.Run(W.Init(programs), ws);
    if w.holder.Some? {
      var h := w.holder.value;
      W.HandBelongs(w, programs);
      W.FramesSnoc(w.done, h.task, h.frame);
      EncodeAllSnoc(W.Frames(w.done), h.frame);
      forall t | 0 <= t < |programs|
        ensures W.SentBy(Taken(w), t) <= programs[t]
      {
        W.SentBySnoc(w.done, t, h.task, h.frame);
        Assoc(W.SentBy(w.done, t), W.InHand(w, t), w.todo[t]);
      }
    } else {
      assert Taken(w) == w.done;
    }
  }

  // For every run of the writer over any programs in which only task t sends data under sid: whatever bytes of the wire have
  // come in, a reader of sid gets a prefix of what t's program carries; and all of it from the whole wire once that program
  // has been sent, if nobody else sends FIN for sid.
  lemma ReadOffTheWire(programs: seq<seq<Frame>>, ws: seq<W.Event>, t: nat, sid: u32, input: seq<byte>)
    requires t < |programs| && forall u | 0 <= u < |programs| :: AllFit(programs[u])
    requires forall u | 0 <= u < |programs| && u != t ::
               forall i | 0 <= i < |programs[u]| :: !(programs[u][i].cmd == CMD_PSH && programs[u][i].sid == sid)
    requires input <= W.Run(W.Init(programs), ws).wire
    ensures var w := W.Run(W.Init(programs), ws);
            && StreamData(Decode(input).frames, sid) <= StreamData(programs[t], sid)
            && (input == w.wire && W.SentBy(w.done, t) == programs[t]
                && (forall u | 0 <= u < |programs| && u != t :: !HasFin(programs[u], sid)) ==>
                  StreamData(Decode(input).frames, sid) == StreamData(programs[t], sid))
  {
    var w := W.Run(W.Init(programs), ws);
    TakenFrames(programs, ws);
    ReadsPrefix(programs, w, t, sid, input);
    if input == w.wire && W.SentBy(w.done, t) == programs[t] && (forall u | 0 <= u < |programs| && u != t :: !HasFin(programs[u], sid)) {
      ReadsAll(programs, ws, t, sid);
    }
  }

  lemma ReadsPrefix(programs: seq<seq<Frame>>, w: W.Writer, t: nat, sid: u32, input: seq<byte>)
    requires t < |programs| && forall u | 0 <= u < |programs| :: AllFit(programs[u])
    requires forall u | 0 <= u < |programs| && u != t ::
               forall i | 0 <= i < |programs[u]| :: !(programs[u][i].cmd == CMD_PSH && programs[u][i].sid == sid)
    requires input <= w.wire <= EncodeAll(W.Frames(Taken(w))) && W.SentBy(Taken(w), t) <= programs[t]
    requires forall i | 0 <= i < |Taken(w)| :: Taken(w)[i].0 < |programs| && Taken(w)[i].1 in programs[Taken(w)[i].0]
    ensures StreamData(Decode(input).frames, sid) <= StreamData(programs[t], sid)
  {
    var all := W.Frames(Taken(w));
    assert OwnsData(Taken(w), t, sid);
    assert AllFit(all);
    DecodePrefix(all, input);
    StreamDataMonotone(Decode(input).frames, all, sid);
    StreamAmongOthers(Taken(w), t, sid);
    StreamDataMonotone(W.SentBy(Taken(w), t), programs[t], sid);
  }

  lemma ReadsAll(programs: seq<seq<Frame>>, ws: seq<W.Event>, t: nat, sid: u32)
    requires t < |programs| && forall u | 0 <= u < |programs| :: AllFit(programs[u])
    requires forall u | 0 <= u < |programs| && u != t ::
               (forall i | 0 <= i < |programs[u]| :: !(programs[u][i].cmd == CMD_PSH && programs[u][i].sid == sid))
               && !HasFin(programs[u], sid)
    requires W.SentBy(W.Run(W.Init(programs), ws).done, t) == programs[t]
    ensures StreamData(programs[t], sid) <= StreamData(Decode(W.Run(W.Init(programs), ws).wire).frames, sid)
  {
    var w := W.Run(W.Init(programs), ws);
    W.RunKeeps(programs, ws);
    W.PeerSeesWholeFrames(programs, ws);
    assert OwnsData(w.done, t, sid) && OwnsFin(w.done, t, sid);
    StreamAmongOthers(w.done, t, sid);
    StreamDataMonotone(W.Frames(w.done), Decode(w.wire).frames, sid);
  }

  // ---- The tunnel's download, over the wire ----

  // Download isolation on the wire, for every run of the server and every run of the writer over what its tasks send: the
  // bytes decoded under an id opened once are a prefix of what its own upstream delivered; and all of it from the whole wire
  // once its handler's frames have been sent, unless the reader loop refused the stream.
  lemma WireIsolation(es: seq<Event>, ws: seq<W.Event>, c: nat, input: seq<byte>)
    requires Only(Run(Init(), es).chans, c) && forall i | 0 <= i < |es| :: ErrorFits(es[i])
    requires input <= W.Run(W.Init(Programs(es)), ws).wire
    ensures var ch := Run(Init(), es).chans[c];
            var w := W.Run(W.Init(Programs(es)), ws);
            && StreamData(Decode(input).frames, ch.sid) <= ch.downloaded
            && (!SomeRefused(es, c) && input == w.wire && W.SentBy(w.done, c + 1) == Program(es, c + 1) ==>
                  StreamData(Decode(input).frames, ch.sid) == ch.downloaded)
  {
    var s := Run(Init(), es);
    var ch := s.chans[c];
    var programs: seq<seq<Frame>> := Programs(es);
    RunPrograms(es);
    RejectedExactlyWhen(es, c);
    ProgramsFit(es);
    forall u: nat, i: nat | u < |programs| && u != c + 1 && i < |programs[u]|
      ensures !(programs[u][i].cmd == CMD_PSH && programs[u][i].sid == ch.sid)
      ensures !ch.rejected ==> !Ends(programs[u][i], ch.sid)
    {
      OthersProgram(s, es, c, u, i);
    }
    assert HandlerProgram(ch, programs[c + 1]);
    ReadOffTheWire(programs, ws, c + 1, ch.sid, input);
  }

  lemma OthersProgram(s: Server, es: seq<Event>, c: nat, u: nat, i: nat)
    requires ProgramsOk(s, es) && Only(s.chans, c) && u <= |s.chans| && u != c + 1 && i < |Program(es, u)|
    ensures var f, ch := Program(es, u)[i], s.chans[c];
            && !(f.cmd == CMD_PSH && f.sid == ch.sid)
            && (!ch.rejected ==> !Ends(f, ch.sid))
  {
    var f, ch := Program(es, u)[i], s.chans[c];
    if u > 0 {
      assert HandlerProgram(s.chans[u - 1], Program(es, u)) && f.sid == s.chans[u - 1].sid;
    } else if f.cmd == CMD_FIN && f.sid == ch.sid {
      var d :| 0 <= d < |s.chans| && s.chans[d].sid == f.sid && s.chans[d].rejected;
      assert d == c;
    }
  }

  // End to end, download, with nothing taken for granted about the order in which the server's tasks get the lock, or where
  // their writes are cut: the client, given any bytes that have come out of the wire, puts out a prefix of what the target sent
  // back, and exactly that once it has all of the wire, the handler has sent its frames, and nothing of the upload was refused.
  lemma DownloadOverTheWire(es: seq<Event>, ws: seq<W.Event>, fs: seq<Frame>, target: Addr, chunks: seq<seq<byte>>,
                            input: seq<byte>)
    requires ClientFrames(fs, target, chunks) && Delivered(es) <= fs
    requires (forall i | 0 <= i < |es| :: ErrorFits(es[i])) && input <= W.Run(W.Init(Programs(es)), ws).wire
    ensures var s := Run(Init(), es);
            var w := W.Run(W.Init(Programs(es)), ws);
            && |s.chans| <= 1
            && (s.chans == [] ==> Output(input) == [])
            && (s.chans != [] ==> Output(input) <= Flatten(s.chans[0].downloaded))
            && (s.chans != [] && !SomeRefused(es, 0) && input == w.wire && W.SentBy(w.done, 1) == Program(es, 1) ==>
                  Output(input) == Flatten(s.chans[0].downloaded))
  {
    OneIncarnation(es, fs, target, chunks);
    RejectedExactlyWhen(es, 0);
    if Run(Init(), es).chans == [] {
      NothingUnder(es, ws, input);
    } else {
      OneUnder(es, ws, input);
    }
  }

  lemma OneUnder(es: seq<Event>, ws: seq<W.Event>, input: seq<byte>)
    requires |Run(Init(), es).chans| == 1 && Run(Init(), es).chans[0].sid == SID
    requires (forall i | 0 <= i < |es| :: ErrorFits(es[i])) && input <= W.Run(W.Init(Programs(es)), ws).wire
    ensures var ch := Run(Init(), es).chans[0];
            var w := W.Run(W.Init(Programs(es)), ws);
            && Output(input) <= Flatten(ch.downloaded)
            && (!SomeRefused(es, 0) && input == w.wire && W.SentBy(w.done, 1) == Program(es, 1) ==>
                  Output(input) == Flatten(ch.downloaded))
  {
    WireIsolation(es, ws, 0, input);
    FlattenPrefix(StreamData(Decode(input).frames, SID), Run(Init(), es).chans[0].downloaded);
  }

  lemma NothingUnder(es: seq<Event>, ws: seq<W.Event>, input: seq<byte>)
    requires Run(Init(), es).chans == [] && forall i | 0 <= i < |es| :: ErrorFits(es[i])
    requires input <= W.Run(W.Init(Programs(es)), ws).wire
    ensures StreamData(Decode(input).frames, SID) == []
  {
    RunPrograms(es);
    ProgramsFit(es);
    var p: seq<Frame> := Programs(es)[0];
    assert forall i | 0 <= i < |p| :: p[i].cmd != CMD_PSH;
    ReadOffTheWire(Programs(es), ws, 0, SID, input);
    NoData(p, SID);
  }

  lemma {:induction false} NoData(p: seq<Frame>, sid: u32)
    requires forall i | 0 <= i < |p| :: p[i].cmd != CMD_PSH
    ensures StreamData(p, sid) == []
  {
    if p != [] {
      NoData(p[1..], sid);
    }
  }
}
