/** What an AnyTLS stream handler can always still do: read its target, write on what it was given, and come to an end. */
module AnyTlsHandler {
  import opened Bytes
  import opened Address
  import opened ChunkedRead
  import opened AnyTlsFrames
  import opened AnyTlsServer
  import opened AnyTlsUpload

  // What the handler was given and has not read.
  function Unread(ch: Chan): seq<byte> { ch.pending + Flatten(ch.queue) }

  // Only incarnation c has moved, to `next`, and only by its own doing; the frames are what it sent.
  ghost predicate Moved(s: Server, t: Server, c: nat, next: Chan, frames: seq<Frame>) {
    c < |s.chans| && t == s.(chans := s.chans[c := next], out := s.out + frames)
  }

  lemma Acts(es: seq<Event>, s: Server, c: nat, a: Action, r: Acted) returns (es': seq<Event>, s': Server)
    requires s == Run(Init(), es) && c < |s.chans| && r == Act(s.chans[c], a, s.peerVersion)
    ensures s' == Run(Init(), es') && Delivered(es') == Delivered(es) && Moved(s, s', c, r.chan, r.frames)
  {
    es', s' := Then(es, s, Handler(c, a));
  }

  lemma MovedOn(s: Server, t: Server, u: Server, c: nat, x: Chan, y: Chan, f: seq<Frame>, g: seq<Frame>)
    requires Moved(s, t, c, x, f) && Moved(t, u, c, y, g)
    ensures Moved(s, u, c, y, f + g)
  {
    Assoc(s.out, f, g);
  }

  // ---- The target ----

  // A poll for the target takes what is demanded of what is there, and what it has then read decides.
  lemma TargetPoll(ch: Chan) returns (d: seq<byte>)
    requires UploadInv(ch) && ch.phase.Target?
    ensures var next := PollChan(ch, 0);
            && d + Unread(next) == Unread(ch) && |d| <= Demand(SOCKS, ch.read)
            && (d == [] <==> Unread(ch) == [])
            && (d == [] ==> next == ch.(pending := [], queue := [], phase := if ch.open then ch.phase else Returned))
            && (d != [] ==> next == TargetBytes(ch.(pending := next.pending, queue := next.queue, read := ch.read + d)))
  {
    var p := PollQueue(ch.pending, ch.queue, !ch.open, Demand(SOCKS, ch.read));
    PollConserves(ch.pending, ch.queue, !ch.open, Demand(SOCKS, ch.read));
    d := if p.poll.Ready? then p.poll.data else [];
    Assoc(d, p.pending, Flatten(p.queue));
  }

  // Where reading the target ends, given everything the handler will ever be given.
  ghost predicate TargetRead(ch: Chan, next: Chan, all: seq<byte>) {
    && next.accepted == ch.accepted && next.open == ch.open && next.sid == ch.sid && next.upTask == ch.upTask
    && match ParseAddr(SOCKS, all)
       case Ok(a, used) => next.phase.Dialing? && next.target == Some(a) && next.header == used
       case Err(Unsupported(_)) => next.phase.Returned?
       case Err(_) => if ch.open then next.phase.Target? && next.read == all else next.phase.Returned?
  }

  // One poll: the end of reading the target, or a part of it.
  lemma TargetStep(ch: Chan, next: Chan)
    requires UploadInv(ch) && ch.phase.Target? && next == PollChan(ch, 0)
    ensures || TargetRead(ch, next, Flatten(ch.accepted))
            || (next.phase.Target? && |Unread(next)| < |Unread(ch)|
                && next.accepted == ch.accepted && next.open == ch.open && next.sid == ch.sid && next.upTask == ch.upTask)
  {
    var d := TargetPoll(ch);
    if d == [] {
      NothingMore(ch);
    } else {
      PartRead(ch, d, Unread(next));
    }
  }

  // From every reachable state: a handler still reading its target can read on to the end of it. A complete address is
  // dialled, an unsupported one ends the handler, and so does an incomplete one once nothing more can come.
  lemma {:induction false} CanReadTarget(es: seq<Event>, s: Server, c: nat) returns (es': seq<Event>, s': Server)
    requires s == Run(Init(), es) && c < |s.chans| && s.chans[c].phase.Target?
    ensures s' == Run(Init(), es') && Delivered(es') == Delivered(es) && |s'.chans| == |s.chans|
    ensures Moved(s, s', c, s'.chans[c], []) && TargetRead(s.chans[c], s'.chans[c], Flatten(s.chans[c].accepted))
    decreases |Unread(s.chans[c])|
  {
    RunKeeps(es);
    var ch, next := s.chans[c], PollChan(s.chans[c], 0);
    es', s' := Acts(es, s, c, Poll(0), Acted(next, []));
    TargetStep(ch, next);
    if !TargetRead(ch, next, Flatten(ch.accepted)) {
      var more: Server;
      es', more := CanReadTarget(es', s', c);
      MovedOn(s, s', more, c, next, more.chans[c], [], []);
      s' := more;
    }
  }

  // Nothing is left and the address is not complete.
  lemma NothingMore(ch: Chan)
    requires UploadInv(ch) && ch.phase.Target? && Unread(ch) == []
    ensures Flatten(ch.accepted) == ch.read
    ensures ParseAddr(SOCKS, ch.read).Err? && !ParseAddr(SOCKS, ch.read).error.Unsupported?
  {
    assert ch.read + [] == ch.read;
  }

  // After part d of what was unread, `rest` being left: decided by the bytes read, or still undecided.
  lemma PartRead(ch: Chan, d: seq<byte>, rest: seq<byte>)
    requires UploadInv(ch) && ch.phase.Target? && d != [] && |d| <= Demand(SOCKS, ch.read) && d + rest == Unread(ch)
    ensures var all, r := Flatten(ch.accepted), TargetBytes(ch.(read := ch.read + d));
            match r.phase
            case Dialing => ParseAddr(SOCKS, all) == Ok(r.target.value, r.header) && r.target.Some?
            case Returned => ParseAddr(SOCKS, all).Err? && ParseAddr(SOCKS, all).error.Unsupported?
            case _ => r.phase.Target?
  {
    var got, all := ch.read + d, Flatten(ch.accepted);
    DemandMeetsParse(SOCKS, ch.read, d);
    Assoc(ch.read, d, rest);
    assert all == got + rest;
    if ParseAddr(SOCKS, got).Ok? {
      assert got[..ParseAddr(SOCKS, got).used] == got;
      ParseIsPrefixStable(SOCKS, got, all);
    } else if ParseAddr(SOCKS, got).error.Unsupported? {
      assert all[0] == got[0];
    }
  }

  // ---- The way up ----

  lemma RelayPoll(ch: Chan, room: nat) returns (d: seq<byte>)
    requires UploadInv(ch) && ch.phase.Relaying? && room > 0
    ensures var next := PollChan(ch, room);
            && next == ch.(pending := next.pending, queue := next.queue, read := ch.read + d)
            && d + Unread(next) == Unread(ch) && |d| <= room
            && (d == [] ==> next.pending == [] && next.queue == [])
  {
    var p := PollQueue(ch.pending, ch.queue, !ch.open, room);
    PollConserves(ch.pending, ch.queue, !ch.open, room);
    d := if p.poll.Ready? then p.poll.data else [];
    Assoc(d, p.pending, Flatten(p.queue));
    assert ch.read + [] == ch.read;
  }

  function AllRead(ch: Chan): Chan { ch.(pending := [], queue := [], read := Flatten(ch.accepted)) }

  lemma {:induction false} CanRead(es: seq<Event>, s: Server, c: nat) returns (es': seq<Event>, s': Server)
    requires s == Run(Init(), es) && c < |s.chans| && s.chans[c].phase.Relaying?
    ensures s' == Run(Init(), es') && Delivered(es') == Delivered(es) && Moved(s, s', c, AllRead(s.chans[c]), [])
    decreases |Unread(s.chans[c])|
  {
    RunKeeps(es);
    var ch := s.chans[c];
    var next := PollChan(ch, 1);
    var d := RelayPoll(ch, 1);
    es', s' := Acts(es, s, c, Poll(1), Acted(next, []));
    if d == [] {
      assert ch.read + [] == ch.read && [] + Flatten([]) == [];
    } else {
      var more: Server;
      es', more := CanRead(es', s', c);
      MovedOn(s, s', more, c, next, AllRead(next), [], []);
      s' := more;
    }
  }

  // Everything it was given behind the target is upstream.
  function AllWritten(ch: Chan): Chan
    requires ch.header <= |Flatten(ch.accepted)|
  {
    AllRead(ch).(upstream := Flatten(ch.accepted)[ch.header..])
  }

  // From every reachable state: a relaying handler can write on everything that was queued for it.
  lemma CanDrain(es: seq<Event>, s: Server, c: nat) returns (es': seq<Event>, s': Server)
    requires s == Run(Init(), es) && c < |s.chans| && s.chans[c].phase.Relaying?
    ensures s' == Run(Init(), es') && Delivered(es') == Delivered(es)
    ensures s.chans[c].header <= |Flatten(s.chans[c].accepted)| && Moved(s, s', c, AllWritten(s.chans[c]), [])
  {
    RunKeeps(es);
    var all: Server;
    es', all := CanRead(es, s, c);
    RunKeeps(es');
    var ch := all.chans[c];
    var r := Act(ch, Write(Unwritten(ch)), all.peerVersion);
    WritesRest(ch);
    es', s' := Acts(es', all, c, Write(Unwritten(ch)), r);
    MovedOn(s, all, s', c, ch, r.chan, [], []);
  }

  lemma WritesRest(ch: Chan)
    requires UploadInv(ch) && ch.phase.Relaying?
    ensures forall version :: Act(ch, Write(Unwritten(ch)), version) == Acted(ch.(upstream := ch.read[ch.header..]), [])
  {
    var at := ch.header + |ch.upstream|;
    assert ch.upstream + ch.read[at..] == ch.read[ch.header..];
    assert at + Unwritten(ch) == |ch.read| && ch.read[at..at + Unwritten(ch)] == ch.read[at..];
  }

  // ---- The way down, and the end ----

  // What the copy back can read at a time.
  predicate Reads(datas: seq<seq<byte>>) { forall i | 0 <= i < |datas| :: 0 < |datas[i]| <= 32768 }

  function Pushes(sid: u32, datas: seq<seq<byte>>): seq<Frame> {
    seq(|datas|, i requires 0 <= i < |datas| => Frame(2, sid, datas[i]))
  }

  lemma SendsBackOne(es: seq<Event>, s: Server, c: nat, data: seq<byte>) returns (es': seq<Event>, s': Server)
    requires s == Run(Init(), es) && c < |s.chans| && s.chans[c].upTask.Running? && 0 < |data| <= 32768
    ensures s' == Run(Init(), es') && Delivered(es') == Delivered(es)
    ensures Moved(s, s', c, s.chans[c].(downloaded := s.chans[c].downloaded + [data]), [Frame(2, s.chans[c].sid, data)])
  {
    var r := Acted(s.chans[c].(downloaded := s.chans[c].downloaded + [data]), [Frame(2, s.chans[c].sid, data)]);
    es', s' := Acts(es, s, c, UpRead(data), r);
  }

  // From every reachable state: whatever upstream delivers, however much, is sent on read by read.
  lemma {:induction false} CanSendBack(es: seq<Event>, s: Server, c: nat, datas: seq<seq<byte>>) returns (es': seq<Event>, s': Server)
    requires s == Run(Init(), es) && c < |s.chans| && s.chans[c].upTask.Running? && Reads(datas)
    ensures s' == Run(Init(), es') && Delivered(es') == Delivered(es)
    ensures Moved(s, s', c, s.chans[c].(downloaded := s.chans[c].downloaded + datas), Pushes(s.chans[c].sid, datas))
    decreases |datas|
  {
    es', s' := es, s;
    var ch, n := s.chans[c], |datas|;
    if datas == [] {
      assert ch.downloaded + datas == ch.downloaded && s.out + Pushes(ch.sid, datas) == s.out;
    } else {
      var before: Server;
      es', before := CanSendBack(es, s, c, datas[..n - 1]);
      es', s' := SendsBackOne(es', before, c, datas[n - 1]);
      MovedOn(s, before, s', c, before.chans[c], s'.chans[c], Pushes(ch.sid, datas[..n - 1]), [Frame(2, ch.sid, datas[n - 1])]);
      LastPush(ch, datas, n - 1);
    }
  }

  lemma LastPush(ch: Chan, datas: seq<seq<byte>>, k: nat)
    requires |datas| == k + 1
    ensures ch.downloaded + datas[..k] + [datas[k]] == ch.downloaded + datas
    ensures Pushes(ch.sid, datas[..k]) + [Frame(2, ch.sid, datas[k])] == Pushes(ch.sid, datas)
  {
    assert datas[..k] + [datas[k]] == datas;
    Assoc(ch.downloaded, datas[..k], [datas[k]]);
  }

  // The handler when it is done.
  function Finished(ch: Chan, datas: seq<seq<byte>>): Chan
    requires ch.header <= |Flatten(ch.accepted)|
  {
    AllWritten(ch).(phase := Returned, eof := true, upTask := Ended, downloaded := ch.downloaded + datas)
  }

  lemma CopyEnds(es: seq<Event>, s: Server, c: nat) returns (es': seq<Event>, s': Server)
    requires s == Run(Init(), es) && c < |s.chans| && s.chans[c].phase.Relaying? && !s.chans[c].open
    ensures s' == Run(Init(), es') && Delivered(es') == Delivered(es) && s.chans[c].header <= |Flatten(s.chans[c].accepted)|
    ensures Moved(s, s', c, AllWritten(s.chans[c]).(phase := CopyDone, eof := true), [])
  {
    var all: Server;
    es', all := CanDrain(es, s, c);
    var r := Acted(all.chans[c].(phase := CopyDone, eof := true), []);
    es', s' := Acts(es', all, c, CopyEof, r);
    MovedOn(s, all, s', c, all.chans[c], r.chan, [], []);
  }

  lemma CanEnd(es: seq<Event>, s: Server, c: nat, datas: seq<seq<byte>>) returns (es': seq<Event>, s': Server)
    requires s == Run(Init(), es) && c < |s.chans| && s.chans[c].phase.CopyDone? && s.chans[c].upTask.Running? && Reads(datas)
    ensures s' == Run(Init(), es') && Delivered(es') == Delivered(es)
    ensures Moved(s, s', c, s.chans[c].(phase := Returned, upTask := Ended, downloaded := s.chans[c].downloaded + datas),
                  Pushes(s.chans[c].sid, datas) + [Frame(3, s.chans[c].sid, [])])
  {
    var pushes, fin := Pushes(s.chans[c].sid, datas), [Frame(3, s.chans[c].sid, [])];
    var sent: Server, ended: Server;
    es', sent := CanSendBack(es, s, c, datas);
    es', ended := Acts(es', sent, c, UpEnd, Acted(sent.chans[c].(upTask := Ended), fin));
    MovedOn(s, sent, ended, c, sent.chans[c], ended.chans[c], pushes, fin);
    es', s' := Acts(es', ended, c, Return, Acted(ended.chans[c].(phase := Returned), []));
    MovedOn(s, ended, s', c, ended.chans[c], s'.chans[c], pushes + fin, []);
    assert pushes + fin + [] == pushes + fin;
  }

  // From every reachable state: once its stream has been closed, a relaying handler can come to its end, with everything that
  // was queued for it upstream, and whatever its upstream still delivers sent back and followed by a FIN.
  lemma CanFinish(es: seq<Event>, s: Server, c: nat, datas: seq<seq<byte>>) returns (es': seq<Event>, s': Server)
    requires s == Run(Init(), es) && c < |s.chans| && s.chans[c].phase.Relaying? && !s.chans[c].open
    requires s.chans[c].upTask.Running? && Reads(datas)
    ensures s' == Run(Init(), es') && Delivered(es') == Delivered(es) && s.chans[c].header <= |Flatten(s.chans[c].accepted)|
    ensures Moved(s, s', c, Finished(s.chans[c], datas), Pushes(s.chans[c].sid, datas) + [Frame(3, s.chans[c].sid, [])])
  {
    var copied: Server;
    es', copied := CopyEnds(es, s, c);
    es', s' := CanEnd(es', copied, c, datas);
    var frames := Pushes(s.chans[c].sid, datas) + [Frame(3, s.chans[c].sid, [])];
    MovedOn(s, copied, s', c, copied.chans[c], s'.chans[c], [], frames);
    assert [] + frames == frames;
  }

  // The same if the copy to upstream fails, closed or not: what was not written is lost, what upstream delivers is still sent
  // back, and then the handler ends.
  lemma CanFinishAfterFailure(es: seq<Event>, s: Server, c: nat, datas: seq<seq<byte>>) returns (es': seq<Event>, s': Server)
    requires s == Run(Init(), es) && c < |s.chans| && s.chans[c].phase.Relaying? && s.chans[c].upTask.Running? && Reads(datas)
    ensures s' == Run(Init(), es') && Delivered(es') == Delivered(es)
    ensures Moved(s, s', c, s.chans[c].(phase := Returned, upTask := Ended, downloaded := s.chans[c].downloaded + datas),
                  Pushes(s.chans[c].sid, datas) + [Frame(3, s.chans[c].sid, [])])
  {
    var failed: Server;
    es', failed := Acts(es, s, c, CopyError, Acted(s.chans[c].(phase := CopyDone), []));
    es', s' := CanEnd(es', failed, c, datas);
    var frames := Pushes(s.chans[c].sid, datas) + [Frame(3, s.chans[c].sid, [])];
    MovedOn(s, failed, s', c, failed.chans[c], s'.chans[c], [], frames);
    assert [] + frames == frames;
  }

  // ---- When a handler is over ----

  // In every run: before its target is dialled nothing has been started back, and a handler that has returned sends no more.
  ghost predicate Quieted(ch: Chan) {
    && (ch.phase.Target? || ch.phase.Dialing? ==> ch.upTask.NotStarted?)
    && (ch.phase.Returned? ==> !ch.upTask.Running?)
    && (ch.phase.Relaying? || ch.phase.CopyDone? ==> !ch.upTask.NotStarted?)
  }

  lemma PollQuiets(ch: Chan, room: nat)
    requires Quieted(ch)
    ensures Quieted(PollChan(ch, room))
  {
  }

  lemma ActQuiets(ch: Chan, a: Action, version: byte)
    requires Quieted(ch)
    ensures Quieted(Act(ch, a, version).chan)
  {
    if a.Poll? {
      PollQuiets(ch, a.room);
    }
  }

  lemma DispatchQuiets(s: Server, f: Frame, version: byte)
    requires s.seen != [] && forall c | 0 <= c < |s.chans| :: Quieted(s.chans[c])
    ensures forall c | 0 <= c < |Dispatch(s, f, version).chans| :: Quieted(Dispatch(s, f, version).chans[c])
  {
  }

  lemma {:induction false} ReturnedIsQuiet(es: seq<Event>)
    ensures forall c | 0 <= c < |Run(Init(), es).chans| :: Quieted(Run(Init(), es).chans[c])
  {
    if es != [] {
      var s := Run(Init(), es[..|es| - 1]);
      ReturnedIsQuiet(es[..|es| - 1]);
      match es[|es| - 1] {
        case Deliver(f, version) =>
          if !s.ended {
            DispatchQuiets(s.(seen := s.seen + [f]), f, version);
          }
        case Disconnect =>
        case Handler(c, a) =>
          if c < |s.chans| {
            ActQuiets(s.chans[c], a, s.peerVersion);
          }
      }
    }
  }
}
