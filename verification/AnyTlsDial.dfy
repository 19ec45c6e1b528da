/** The AnyTLS client: what `dial` writes, and the task that reads what comes back. */
module AnyTlsDial {
  import opened Bytes
  import opened Address
  import opened AnyTlsFrames

  const SID: u32 := 1
  const SETTINGS := Ascii("v=2\nclient=veloxvpn/0.2.0\npadding-md5=00000000000000000000000000000000\n")

  function Opening(target: Addr): seq<Frame> {
    [Frame(CMD_SETTINGS, 0, SETTINGS), Frame(CMD_SYN, SID, []), Frame(CMD_PSH, SID, Encode(SOCKS, target))]
  }

  function PushFrames(chunks: seq<seq<byte>>): seq<Frame> {
    seq(|chunks|, i requires 0 <= i < |chunks| => Frame(CMD_PSH, SID, chunks[i]))
  }

  // Chunks as the relay buffer cuts them.
  predicate RelayChunks(chunks: seq<seq<byte>>) {
    forall i | 0 <= i < |chunks| :: 0 < |chunks[i]| <= RELAY_BUFFER_SIZE
  }

  // The replies to heartbeats that the receiving task slips in between.
  function WithoutReplies(fs: seq<Frame>): seq<Frame> {
    if fs == [] then []
    else (if fs[0].cmd == CMD_HEART_RESPONSE then [] else [fs[0]]) + WithoutReplies(fs[1..])
  }

  // Everything one tunnel may put on the wire: the opening, then the payload in chunks and a FIN, with heartbeat
  // replies anywhere among them.
  ghost predicate ClientFrames(fs: seq<Frame>, target: Addr, chunks: seq<seq<byte>>) {
    && |fs| >= 3 && fs[..3] == Opening(target)
    && WithoutReplies(fs[3..]) == PushFrames(chunks) + [Frame(CMD_FIN, SID, [])]
    && RelayChunks(chunks)
    && (forall i | 3 <= i < |fs| && fs[i].cmd == CMD_HEART_RESPONSE :: fs[i].data == [])
  }

  // ---- What those frames carry ----

  lemma {:induction false} RepliesCarryNothing(fs: seq<Frame>, sid: u32)
    ensures StreamData(WithoutReplies(fs), sid) == StreamData(fs, sid)
  {
    if fs == [] {
    } else if fs[0].cmd == CMD_HEART_RESPONSE {
      RepliesCarryNothing(fs[1..], sid);
      assert WithoutReplies(fs) == WithoutReplies(fs[1..]);
    } else {
      RepliesCarryNothing(fs[1..], sid);
      assert WithoutReplies(fs)[1..] == WithoutReplies(fs[1..]);
    }
  }

  lemma {:induction false} PushedData(chunks: seq<seq<byte>>)
    requires RelayChunks(chunks)
    ensures StreamData(PushFrames(chunks) + [Frame(CMD_FIN, SID, [])], SID) == chunks
  {
    var fs := PushFrames(chunks) + [Frame(CMD_FIN, SID, [])];
    if chunks != [] {
      PushedData(chunks[1..]);
      assert fs[1..] == PushFrames(chunks[1..]) + [Frame(CMD_FIN, SID, [])];
    }
  }

  // The client's data for its stream: the target block, then the payload chunks.
  lemma ClientData(fs: seq<Frame>, target: Addr, chunks: seq<seq<byte>>)
    requires ClientFrames(fs, target, chunks)
    ensures StreamData(fs[2..], SID) == [Encode(SOCKS, target)] + chunks
    ensures Flatten(StreamData(fs[2..], SID)) == Encode(SOCKS, target) + Flatten(chunks)
  {
    RepliesCarryNothing(fs[3..], SID);
    PushedData(chunks);
    assert fs[2] == fs[..3][2] == Frame(CMD_PSH, SID, Encode(SOCKS, target));
    assert fs[2..][1..] == fs[3..];
    assert ([Encode(SOCKS, target)] + chunks)[1..] == chunks;
  }

  lemma {:induction false} KeptFrames(fs: seq<Frame>, i: nat)
    requires i < |fs| && fs[i].cmd != CMD_HEART_RESPONSE
    ensures fs[i] in WithoutReplies(fs)
  {
    if i > 0 {
      KeptFrames(fs[1..], i - 1);
    }
  }

  // Behind the opening there is nothing but chunks, FIN and replies, none longer than the relay buffer.
  lemma TailFrame(fs: seq<Frame>, target: Addr, chunks: seq<seq<byte>>, i: nat)
    requires ClientFrames(fs, target, chunks) && 3 <= i < |fs|
    ensures fs[i].cmd in {CMD_PSH, CMD_FIN, CMD_HEART_RESPONSE} && |fs[i].data| <= RELAY_BUFFER_SIZE
  {
    if fs[i].cmd != CMD_HEART_RESPONSE {
      KeptFrames(fs[3..], i - 3);
      assert fs[3..][i - 3] == fs[i];
      assert forall g | g in PushFrames(chunks) + [Frame(CMD_FIN, SID, [])] ::
          g.cmd in {CMD_PSH, CMD_FIN} && |g.data| <= RELAY_BUFFER_SIZE;
    }
  }

  // Every frame of the client fits its length field.
  lemma ClientFits(fs: seq<Frame>, target: Addr, chunks: seq<seq<byte>>)
    requires ClientFrames(fs, target, chunks) && |Encode(SOCKS, target)| < 0x1_0000
    ensures AllFit(fs)
  {
    forall i | 0 <= i < |fs|
      ensures Fits(fs[i])
    {
      if i < 3 {
        assert fs[i] == fs[..3][i];
      } else {
        TailFrame(fs, target, chunks, i);
      }
    }
  }

  // What a reader of its own stream gets out of the bytes b.
  function Output(b: seq<byte>): seq<byte> {
    Flatten(StreamData(Decode(b).frames, SID))
  }

  // A reader of the client's bytes gets the target block and the payload.
  lemma ClientOutput(fs: seq<Frame>, target: Addr, chunks: seq<seq<byte>>)
    requires ClientFrames(fs, target, chunks) && ShortHost(target)
    ensures Output(EncodeAll(fs)) == Encode(SOCKS, target) + Flatten(chunks)
  {
    ClientFits(fs, target, chunks);
    DecodePrefix(fs, EncodeAll(fs));
    ClientData(fs, target, chunks);
    OpeningCarriesNothing(fs, target);
  }

  lemma OpeningCarriesNothing(fs: seq<Frame>, target: Addr)
    requires |fs| >= 3 && fs[..3] == Opening(target)
    ensures StreamData(fs, SID) == StreamData(fs[2..], SID)
  {
    assert fs[0] == fs[..3][0] && fs[1] == fs[..3][1];
    assert StreamData(fs, SID) == StreamData(fs[1..], SID);
    assert fs[1..][1..] == fs[2..];
  }

  // ---- Writing ----

  /** The locked write half: each call sends one whole frame. */
  class Wire {
    var bytes: seq<byte>
    ghost var frames: seq<Frame>
    ghost const prefix: seq<byte>

    ghost predicate Valid()
      reads this
    {
      bytes == prefix + EncodeAll(frames)
    }

    constructor (start: seq<byte>)
      ensures prefix == start && frames == [] && Valid()
    {
      bytes, frames, prefix := start, [], start;
    }

    method SendFrame(cmd: byte, sid: u32, data: seq<byte>)
      requires Valid()
      modifies this
      ensures Valid() && frames == old(frames) + [Frame(cmd, sid, data)]
    {
      var f := Frame(cmd, sid, data);
      bytes := bytes + EncodeFrame(f);
      EncodeAllSnoc(frames, f);
      assert prefix + EncodeAll(frames) + EncodeFrame(f) == prefix + (EncodeAll(frames) + EncodeFrame(f));
      frames := frames + [f];
    }
  }

  // `dial` and its sending task: the digest and an empty padding, the opening, then the payload read from the caller
  // in pieces of `sizes(i)` bytes (at most the relay buffer), then FIN.
  method Dial(digest: seq<byte>, target: Addr, payload: seq<byte>, sizes: nat -> nat)
    returns (wire: seq<byte>, ghost fs: seq<Frame>, ghost chunks: seq<seq<byte>>)
    ensures wire == digest + [0, 0] + EncodeAll(fs)
    ensures |fs| >= 3 && fs[0].cmd == 4 && fs[0].data == SETTINGS
    ensures fs[1] == Frame(1, 1, []) && fs[2] == Frame(2, 1, Encode(SOCKS, target))
    ensures ClientFrames(fs, target, chunks) && Flatten(chunks) == payload
    ensures digest + [0, 0] <= wire
    ensures ShortHost(target) ==> Output(wire[|digest| + 2..]) == Encode(SOCKS, target) + payload
  {
    var w := new Wire(digest + [0, 0]);
    w.SendFrame(CMD_SETTINGS, 0, SETTINGS);
    w.SendFrame(CMD_SYN, SID, []);
    w.SendFrame(CMD_PSH, SID, Encode(SOCKS, target));
    assert w.frames == Opening(target);
    chunks := [];
    assert PushFrames(chunks) == [];
    var rest, i := payload, 0;
    while rest != []
      invariant w.Valid() && w.prefix == digest + [0, 0] && w.frames == Opening(target) + PushFrames(chunks)
      invariant RelayChunks(chunks) && Flatten(chunks) + rest == payload
      decreases |rest|
    {
      var n := sizes(i);
      n := if n == 0 then 1 else if n > RELAY_BUFFER_SIZE then RELAY_BUFFER_SIZE else n;
      n := if n > |rest| then |rest| else n;
      w.SendFrame(CMD_PSH, SID, rest[..n]);
      NextChunk(target, chunks, rest, n);
      chunks := chunks + [rest[..n]];
      rest, i := rest[n..], i + 1;
    }
    assert Flatten(chunks) == payload;
    w.SendFrame(CMD_FIN, SID, []);
    wire, fs := w.bytes, w.frames;
    Complete(fs, target, chunks);
    assert wire[|digest| + 2..] == EncodeAll(fs);
    if ShortHost(target) {
      ClientOutput(fs, target, chunks);
    }
  }

  lemma NextChunk(target: Addr, chunks: seq<seq<byte>>, rest: seq<byte>, n: nat)
    requires n <= |rest|
    ensures Opening(target) + PushFrames(chunks) + [Frame(CMD_PSH, SID, rest[..n])]
         == Opening(target) + PushFrames(chunks + [rest[..n]])
    ensures Flatten(chunks + [rest[..n]]) + rest[n..] == Flatten(chunks) + rest
  {
    FlattenSnoc(chunks, rest[..n]);
    assert Flatten(chunks) + rest[..n] + rest[n..] == Flatten(chunks) + (rest[..n] + rest[n..]);
    assert rest[..n] + rest[n..] == rest;
    assert PushFrames(chunks) + [Frame(CMD_PSH, SID, rest[..n])] == PushFrames(chunks + [rest[..n]]);
  }

  lemma Complete(fs: seq<Frame>, target: Addr, chunks: seq<seq<byte>>)
    requires fs == Opening(target) + PushFrames(chunks) + [Frame(CMD_FIN, SID, [])] && RelayChunks(chunks)
    ensures ClientFrames(fs, target, chunks)
  {
    assert fs[..3] == Opening(target);
    assert fs[3..] == PushFrames(chunks) + [Frame(CMD_FIN, SID, [])];
    NoRepliesToDrop(fs[3..]);
  }

  lemma {:induction false} NoRepliesToDrop(fs: seq<Frame>)
    requires forall i | 0 <= i < |fs| :: fs[i].cmd != CMD_HEART_RESPONSE
    ensures WithoutReplies(fs) == fs
  {
    if fs != [] {
      NoRepliesToDrop(fs[1..]);
    }
  }

  // ---- Reading ----

  // The receiving task is over: FIN has come, or data for the local pipe that it does not take.
  predicate Stops(f: Frame, accepted: bool) {
    f.sid == 1 && (f.cmd == 3 || (f.cmd == 2 && !accepted))
  }

  // It handles the first k frames.
  ghost predicate EndsAt(fs: seq<Frame>, accepts: nat -> bool, k: nat) {
    && k <= |fs| && (forall j: nat | j < k :: !Stops(fs[j], accepts(j)))
    && (k < |fs| ==> Stops(fs[k], accepts(k)))
  }

  // One answer to every heartbeat.
  function HeartAnswers(fs: seq<Frame>): seq<Frame> {
    if fs == [] then [] else
    var last := fs[|fs| - 1];
    if last.cmd == 8 then HeartAnswers(fs[..|fs| - 1]) + [Frame(9, last.sid, [])] else HeartAnswers(fs[..|fs| - 1])
  }

  // What the receiving task does with one frame: bytes for the local pipe, frames to answer with, whether it goes on.
  method OnFrame(f: Frame, accepts: bool) returns (out: seq<byte>, answer: seq<Frame>, more: bool)
    ensures more <==> !Stops(f, accepts)
    ensures out == if more && f.cmd == 2 && f.sid == 1 then f.data else []
    ensures answer == if f.cmd == 8 then [Frame(9, f.sid, [])] else []
  {
    out, answer, more := [], [], true;
    if f.cmd == CMD_PSH && f.sid == SID {
      if accepts {
        out := f.data;
      } else {
        more := false;
      }
    } else if f.cmd == CMD_FIN && f.sid == SID {
      more := false;
    } else if f.cmd == CMD_HEART_REQUEST {
      answer := [Frame(CMD_HEART_RESPONSE, f.sid, [])];
    }
  }

  // The receiving task: whole frames in, the data of its own stream out until FIN, each heartbeat answered once. `accepts(i)`
  // says whether the local pipe takes the i-th frame's data; k frames are handled.
  method Receive(input: seq<byte>, accepts: nat -> bool) returns (output: seq<byte>, replies: seq<Frame>, ghost k: nat)
    ensures EndsAt(Decode(input).frames, accepts, k)
    ensures output == Flatten(StreamData(Decode(input).frames[..k], SID)) && replies == HeartAnswers(Decode(input).frames[..k])
    ensures output <= Output(input)
    ensures (forall i: nat :: accepts(i)) ==> output == Output(input)
  {
    output, replies, k := [], [], 0;
    var rest, i: nat := input, 0;
    ghost var fs := Decode(input).frames;
    while true
      invariant k == i <= |fs| && fs[k..] == Decode(rest).frames
      invariant forall j: nat | j < k :: !Stops(fs[j], accepts(j))
      invariant output == Flatten(StreamData(fs[..k], SID)) && replies == HeartAnswers(fs[..k])
      decreases |rest|
    {
      var taken := TakeFrame(rest);
      if taken.None? {
        assert |fs| == k;
        break;
      }
      var (f, next) := taken.value;
      assert f == fs[k..][0] == fs[k] && Decode(next).frames == fs[k..][1..] == fs[k + 1..];
      var out, answer, more := OnFrame(f, accepts(i));
      if !more {
        break;
      }
      OneHandled(fs, accepts, k, out);
      output, replies := output + out, replies + answer;
      rest, i, k := next, i + 1, k + 1;
    }
    UpToTheEnd(fs, accepts, k);
  }

  // No frame handled ends the stream.
  lemma NoFinHandled(fs: seq<Frame>, accepts: nat -> bool, k: nat)
    requires k <= |fs| && forall j: nat | j < k :: !Stops(fs[j], accepts(j))
    ensures !HasFin(fs[..k], SID)
  {
  }

  lemma OneHandled(fs: seq<Frame>, accepts: nat -> bool, k: nat, out: seq<byte>)
    requires k < |fs| && forall j: nat | j <= k :: !Stops(fs[j], accepts(j))
    requires out == if fs[k].cmd == 2 && fs[k].sid == 1 then fs[k].data else []
    ensures Flatten(StreamData(fs[..k + 1], SID)) == Flatten(StreamData(fs[..k], SID)) + out
    ensures HeartAnswers(fs[..k + 1]) == HeartAnswers(fs[..k]) + if fs[k].cmd == 8 then [Frame(9, fs[k].sid, [])] else []
  {
    assert fs[..k + 1] == fs[..k] + [fs[k]];
    assert fs[..k + 1][..k] == fs[..k];
    StreamDataSnoc(fs[..k], fs[k], SID);
    NoFinHandled(fs, accepts, k);
    var own := StreamData(fs[..k], SID);
    if Carried(fs[k], SID) == [] {
      assert own + [] == own && Flatten(own) + [] == Flatten(own);
    } else {
      FlattenSnoc(own, fs[k].data);
    }
  }

  lemma UpToTheEnd(fs: seq<Frame>, accepts: nat -> bool, k: nat)
    requires EndsAt(fs, accepts, k)
    ensures Flatten(StreamData(fs[..k], SID)) <= Flatten(StreamData(fs, SID))
    ensures (forall i: nat :: accepts(i)) ==> StreamData(fs[..k], SID) == StreamData(fs, SID)
  {
    StreamDataMonotone(fs[..k], fs, SID);
    FlattenPrefix(StreamData(fs[..k], SID), StreamData(fs, SID));
    if forall i: nat :: accepts(i) {
      NoFinHandled(fs, accepts, k);
      assert fs == fs[..k] + fs[k..];
      StreamDataConcat(fs[..k], fs[k..], SID);
      assert StreamData(fs[k..], SID) == [];
    }
  }

  // Header and data of the next frame, or None when the connection ends before both are there.
  method TakeFrame(rest: seq<byte>) returns (r: Option<(Frame, seq<byte>)>)
    ensures r.None? ==> Decode(rest).frames == []
    ensures r.Some? ==> |r.value.1| < |rest| && Decode(rest).frames == [r.value.0] + Decode(r.value.1).frames
  {
    if Whole(rest) {
      return Some((FirstFrame(rest), rest[FrameSize(rest)..]));
    }
    return None;
  }
}
