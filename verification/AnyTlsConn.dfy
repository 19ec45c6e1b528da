/** The server side of one AnyTLS connection as the program runs it: authentication, then the frame loop. */
module AnyTlsConn {
  import opened Bytes
  import opened AnyTlsFrames
  import opened AnyTlsServer
  import opened AnyTlsUpload

  const DIGEST := 32

  // The bytes behind the authentication block `[digest][padding length:2][padding]`, if the block is complete and
  // its digest is the expected one.
  function SessionBytes(digest: seq<byte>, input: seq<byte>): Option<seq<byte>> {
    if |input| < DIGEST || input[..DIGEST] != digest || |input| < DIGEST + 2 then None else
    var start := DIGEST + 2 + U16Of(input[DIGEST..DIGEST + 2]) as int;
    if |input| < start then None else Some(input[start..])
  }

  // The input is the digest, a padding of the length that is given before it, and the session.
  ghost predicate SentBehind(digest: seq<byte>, input: seq<byte>, session: seq<byte>) {
    exists pad: seq<byte> :: |pad| < 0x1_0000 && input == digest + U16Bytes(|pad|) + pad + session
  }

  // Those are exactly the bytes behind a padding of the length the block gives.
  lemma SessionExactlyWhen(digest: seq<byte>, input: seq<byte>, session: seq<byte>)
    requires |digest| == 32
    ensures SessionBytes(digest, input) == Some(session) <==> SentBehind(digest, input, session)
  {
    if SessionBytes(digest, input) == Some(session) {
      var n := U16Of(input[32..34]);
      var pad := input[34..34 + n];
      assert U16Bytes(n) == input[32..34];
      assert input == digest + U16Bytes(|pad|) + pad + session;
    }
    forall pad: seq<byte> | |pad| < 0x1_0000 && input == digest + U16Bytes(|pad|) + pad + session
      ensures SessionBytes(digest, input) == Some(session)
    {
      BehindPadding(digest, pad, session, input);
    }
  }

  // The first half of `handle_conn`: the session bytes, if the client knows the digest and its padding is there.
  method Authenticate(digest: seq<byte>, input: seq<byte>) returns (session: Option<seq<byte>>)
    requires |digest| == 32
    ensures |input| < 32 || input[..32] != digest ==> session.None?
    ensures session.Some? ==> SentBehind(digest, input, session.value)
    ensures forall s: seq<byte> | SentBehind(digest, input, s) :: session == Some(s)
  {
    if |input| < DIGEST {
      session := None;
    } else {
      ConstantTimeEqDecidesEquality(input[..DIGEST], digest);
      if !ConstantTimeEq(input[..DIGEST], digest) || |input| < DIGEST + 2 {
        session := None;
      } else {
        var padding: nat := U16Of(input[DIGEST..DIGEST + 2]);
        session := if |input| < DIGEST + 2 + padding then None else Some(input[DIGEST + 2 + padding..]);
      }
    }
    assert session == SessionBytes(digest, input);
    forall s: seq<byte>
      ensures session == Some(s) <==> SentBehind(digest, input, s)
    {
      SessionExactlyWhen(digest, input, s);
    }
  }

  lemma BehindPadding(digest: seq<byte>, pad: seq<byte>, session: seq<byte>, input: seq<byte>)
    requires |digest| == 32 && |pad| < 0x1_0000 && input == digest + U16Bytes(|pad|) + pad + session
    ensures SessionBytes(digest, input) == Some(session)
  {
    assert input[..32] == digest && input[32..34] == U16Bytes(|pad|);
    assert input[34 + |pad|..] == session;
  }

  // The frames the loop handles: all of them, or those up to a SYN with no settings before it.
  function Heard(fs: seq<Frame>): seq<Frame> {
    if fs == [] || fs[0].cmd == 4 then fs
    else if fs[0].cmd == 1 then [fs[0]]
    else [fs[0]] + Heard(fs[1..])
  }

  predicate HungUp(fs: seq<Frame>) {
    fs != [] && fs[0].cmd != 4 && (fs[0].cmd == 1 || HungUp(fs[1..]))
  }

  // What is still to be handled, given whether settings came.
  function StillHeard(fs: seq<Frame>, settings: bool): seq<Frame> { if settings then fs else Heard(fs) }

  lemma DecodedNext(rest: seq<byte>)
    requires Whole(rest)
    ensures var d := Decode(rest[FrameSize(rest)..]);
            Decode(rest).frames == [FirstFrame(rest)] + d.frames && Decode(rest).rest == d.rest
  {
  }

  lemma HeardNext(f: Frame, more: seq<Frame>, settings: bool)
    ensures StillHeard([f] + more, settings)
         == if f.cmd == 1 && !settings then [f] else [f] + StillHeard(more, settings || f.cmd == 4)
    ensures !settings && f.cmd == 1 ==> HungUp([f] + more)
    ensures !settings && f.cmd != 1 && f.cmd != 4 ==> (HungUp([f] + more) <==> HungUp(more))
    ensures !settings && f.cmd == 4 ==> !HungUp([f] + more)
  {
    assert ([f] + more)[1..] == more;
  }

  class Conn {
    var gotSettings: bool
    var peerVersion: byte
    var streams: map<u32, nat>
    var chans: seq<Chan>
    var out: seq<Frame>
    var seen: seq<Frame>
    var ended: bool

    ghost function State(): Server
      reads this
    {
      Server(gotSettings, peerVersion, streams, chans, out, seen, ended)
    }

    constructor ()
      ensures State() == Init()
    {
      gotSettings, peerVersion, streams, chans, out, seen, ended := false, 0, map[], [], [], [], false;
    }

    method SendFrame(cmd: byte, sid: u32, data: seq<byte>)
      modifies this`out
      ensures out == old(out) + [Frame(cmd, sid, data)]
    {
      out := out + [Frame(cmd, sid, data)];
    }

    // Returning from the loop drops the table of senders.
    method DropSenders()
      modifies this`streams, this`chans, this`ended
      ensures State() == HangUp(old(State()))
    {
      streams := map[];
      chans := CloseAll(chans);
      ended := true;
    }

    // tokio's try_send: refused when the queue is full or the receiver is gone.
    method TrySend(c: nat, data: seq<byte>) returns (sent: bool)
      requires c < |chans|
      modifies this`chans
      ensures sent <==> |old(chans)[c].queue| < 64 && !old(chans)[c].phase.Returned?
      ensures !sent ==> chans == old(chans)
      ensures sent ==>
                var ch := old(chans)[c];
                chans == old(chans)[c := ch.(queue := ch.queue + [data], accepted := ch.accepted + [data])]
    {
      var ch := chans[c];
      sent := |ch.queue| < STREAM_QUEUE_CAPACITY && !ch.phase.Returned?;
      if sent {
        chans := chans[c := ch.(queue := ch.queue + [data], accepted := ch.accepted + [data])];
      }
    }

    // One pass of the loop body.
    method HandleFrame(f: Frame, version: byte)
      requires !ended && TableInv(streams, chans)
      modifies this
      ensures State() == Step(old(State()), Deliver(f, version))
    {
      seen := seen + [f];
      if f.cmd == CMD_PSH {
        if f.sid in streams {
          var c := streams[f.sid];
          if f.data != [] {
            var sent := TrySend(c, f.data);
            if !sent {
              streams := streams - {f.sid};
              chans := chans[c := chans[c].(open := false, rejected := true)];
              SendFrame(CMD_FIN, f.sid, []);
            }
          }
        }
      } else if f.cmd == CMD_SYN {
        if !gotSettings {
          SendFrame(CMD_ALERT, 0, ALERT_TEXT);
          DropSenders();
          return;
        }
        if f.sid in streams {
          return;
        }
        streams := streams[f.sid := |chans|];
        chans := chans + [NewChan(f.sid, |seen| - 1)];
      } else if f.cmd == CMD_FIN {
        if f.sid in streams {
          var c := streams[f.sid];
          chans := chans[c := chans[c].(open := false)];
          streams := streams - {f.sid};
        }
      } else if f.cmd == CMD_SETTINGS {
        gotSettings := true;
        SendFrame(CMD_UPDATE_PADDING, 0, DEFAULT_PADDING_SCHEME);
        if version >= 2 {
          peerVersion := 2;
          SendFrame(CMD_SERVER_SETTINGS, 0, SETTINGS_REPLY);
        }
      } else if f.cmd == CMD_HEART_REQUEST {
        SendFrame(CMD_HEART_RESPONSE, f.sid, []);
      }
    }

    // What the stream handlers do while the reader loop waits: any actions, in any order.
    method RunHandlers(acts: seq<(nat, Action)>, ghost es: seq<Event>) returns (ghost es': seq<Event>)
      requires State() == Run(Init(), es)
      modifies this
      ensures State() == Run(Init(), es') && Delivered(es') == Delivered(es)
      ensures ended == old(ended) && gotSettings == old(gotSettings)
    {
      es' := es;
      for i := 0 to |acts|
        invariant State() == Run(Init(), es') && Delivered(es') == Delivered(es)
        invariant ended == old(ended) && gotSettings == old(gotSettings)
      {
        var (c, a) := acts[i];
        if c < |chans| {
          var r := Act(chans[c], a, peerVersion);
          chans := chans[c := r.chan];
          out := out + r.frames;
        }
        var _, _ := Then(es', Run(Init(), es'), Handler(c, a));
        es' := es' + [Handler(c, a)];
      }
    }

    // One frame taken off the wire and handled, as an event of the run.
    method NextFrame(f: Frame, version: byte, ghost es: seq<Event>) returns (ghost es': seq<Event>)
      requires State() == Run(Init(), es) && !ended
      modifies this
      ensures State() == Run(Init(), es') && Delivered(es') == Delivered(es) + [f]
      ensures ended <==> f.cmd == 1 && !old(gotSettings)
      ensures gotSettings <==> old(gotSettings) || f.cmd == 4
    {
      RunTable(es);
      ghost var s;
      es', s := Then(es, State(), Deliver(f, version));
      HandleFrame(f, version);
    }

    // The frame loop over the session's bytes. It handles exactly the frames it should, and succeeds unless the connection ends
    // inside the data of a frame.
    method FrameLoop(session: seq<byte>, version: nat -> byte, others: nat -> seq<(nat, Action)>)
      returns (ok: bool, ghost es: seq<Event>)
      requires State() == Init()
      modifies this
      ensures State() == Run(Init(), es) && ended
      ensures Delivered(es) == Heard(Decode(session).frames)
      ensures ok <==> HungUp(Decode(session).frames) || |Decode(session).rest| < 7
    {
      es := [];
      ghost var all := Decode(session);
      var rest := session;
      var i := 0;
      while true
        invariant State() == Run(Init(), es) && !ended && all.rest == Decode(rest).rest
        invariant Heard(all.frames) == Delivered(es) + StillHeard(Decode(rest).frames, gotSettings)
        invariant HungUp(all.frames) <==> !gotSettings && HungUp(Decode(rest).frames)
        decreases |rest|
      {
        es := RunHandlers(others(i), es);
        if !Whole(rest) {
          // The header is missing and the loop breaks, or the data is and the method fails: the loop is over.
          ok := |rest| < HEADER;
          es := Stop(es);
          return;
        }
        var next := rest[FrameSize(rest)..];
        DecodedNext(rest);
        HeardNext(FirstFrame(rest), Decode(next).frames, gotSettings);
        Assoc(Delivered(es), [FirstFrame(rest)], StillHeard(Decode(next).frames, gotSettings || FirstFrame(rest).cmd == 4));
        es := NextFrame(FirstFrame(rest), version(i), es);
        if ended {
          return true, es;
        }
        rest := next;
        i := i + 1;
      }
    }

    method Stop(ghost es: seq<Event>) returns (ghost es': seq<Event>)
      requires State() == Run(Init(), es) && !ended
      modifies this
      ensures State() == Run(Init(), es') && Delivered(es') == Delivered(es) && ended
    {
      es' := es + [Disconnect];
      assert es'[..|es|] == es;
      DropSenders();
    }

    // `handle_conn` on a connection whose peer sends `input` and then closes. Between frames the handlers do
    // `others(i)`; `version(i)` is the version number in frame i if it holds settings. Nothing happens without the
    // right digest, or if the padding is cut short; with it, whatever the padding, the outcome is a run of the state machine on
    // the frames behind it.
    method HandleConn(digest: seq<byte>, input: seq<byte>, version: nat -> byte, others: nat -> seq<(nat, Action)>)
      returns (ok: bool, ghost es: seq<Event>)
      requires |digest| == 32 && State() == Init()
      modifies this
      ensures State() == Run(Init(), es)
      ensures |input| < 32 || input[..32] != digest ==> !ok && es == [] && State() == Init()
      ensures (forall session: seq<byte> :: !SentBehind(digest, input, session)) ==> !ok && es == [] && State() == Init()
      ensures forall session: seq<byte> | SentBehind(digest, input, session) ::
                && ended && Delivered(es) == Heard(Decode(session).frames)
                && (ok <==> HungUp(Decode(session).frames) || |Decode(session).rest| < 7)
    {
      var session := Authenticate(digest, input);
      if session.None? {
        return false, [];
      }
      ok, es := FrameLoop(session.value, version, others);
    }
  }
}
