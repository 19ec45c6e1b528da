/** The AnyTLS session frame `[cmd][stream id:4][length:2][data]` and streams of them. */
module AnyTlsFrames {
  import opened Bytes

  const CMD_WASTE: byte := 0
  const CMD_SYN: byte := 1
  const CMD_PSH: byte := 2
  const CMD_FIN: byte := 3
  const CMD_SETTINGS: byte := 4
  const CMD_ALERT: byte := 5
  const CMD_UPDATE_PADDING: byte := 6
  const CMD_SYNACK: byte := 7
  const CMD_HEART_REQUEST: byte := 8
  const CMD_HEART_RESPONSE: byte := 9
  const CMD_SERVER_SETTINGS: byte := 10

  const HEADER := 7
  const RELAY_BUFFER_SIZE := 32 * 1024

  datatype Frame = Frame(cmd: byte, sid: u32, data: seq<byte>)

  // The length field is `data.len() as u16`, so longer data does not fit.
  predicate Fits(f: Frame) { |f.data| < 0x1_0000 }

  predicate AllFit(fs: seq<Frame>) { forall i | 0 <= i < |fs| :: Fits(fs[i]) }

  function Header(cmd: byte, sid: u32, len: u16): (h: seq<byte>)
    ensures |h| == HEADER
  {
    [cmd] + U32Bytes(sid) + U16Bytes(len)
  }

  function EncodeFrame(f: Frame): seq<byte> {
    Header(f.cmd, f.sid, |f.data| % 0x1_0000) + f.data
  }

  function EncodeAll(fs: seq<Frame>): seq<byte> {
    if fs == [] then [] else EncodeFrame(fs[0]) + EncodeAll(fs[1..])
  }

  // Length of the frame at the front of b, once its header is there.
  function FrameSize(b: seq<byte>): (n: nat)
    requires HEADER <= |b|
    ensures n >= HEADER
  {
    HEADER + U16Of(b[5..7]) as int
  }

  predicate Whole(b: seq<byte>) {
    HEADER <= |b| && FrameSize(b) <= |b|
  }

  function FirstFrame(b: seq<byte>): Frame
    requires Whole(b)
  {
    Frame(b[0], U32Of(b[1..5]), b[HEADER..FrameSize(b)])
  }

  datatype Decoded = Decoded(frames: seq<Frame>, rest: seq<byte>)

  // Every whole frame at the front of the stream, and the unfinished piece behind them.
  function Decode(b: seq<byte>): Decoded {
    if !Whole(b) then Decoded([], b) else
    var d := Decode(b[FrameSize(b)..]);
    Decoded([FirstFrame(b)] + d.frames, d.rest)
  }

  lemma HeaderReads(cmd: byte, sid: u32, len: u16, tail: seq<byte>)
    ensures var b := Header(cmd, sid, len) + tail;
            b[0] == cmd && U32Of(b[1..5]) == sid && FrameSize(b) == HEADER + len as int
  {
    var b := Header(cmd, sid, len) + tail;
    U32RoundTrip(sid);
    assert b[1..5] == U32Bytes(sid);
    assert b[5..7] == U16Bytes(len);
  }

  // A frame is read back as written, whatever follows it, exactly when its length fits the length field.
  lemma FrameRoundTrip(f: Frame, tail: seq<byte>)
    ensures var b := EncodeFrame(f) + tail;
            Whole(b) && FirstFrame(b) == f && b[FrameSize(b)..] == tail <==> Fits(f)
  {
    var b := EncodeFrame(f) + tail;
    var len := |f.data| % 0x1_0000;
    HeaderReads(f.cmd, f.sid, len, f.data + tail);
    assert b == Header(f.cmd, f.sid, len) + (f.data + tail);
    assert b[HEADER..HEADER + len] == f.data[..len];
    if Fits(f) {
      assert b[HEADER + len..] == tail;
    } else {
      assert |FirstFrame(b).data| == len < |f.data|;
    }
  }

  lemma DecodeStep(f: Frame, tail: seq<byte>)
    requires Fits(f)
    ensures Decode(EncodeFrame(f) + tail) == Decoded([f] + Decode(tail).frames, Decode(tail).rest)
  {
    FrameRoundTrip(f, tail);
  }

  lemma {:induction false} EncodeAllConcat(a: seq<Frame>, b: seq<Frame>)
    ensures EncodeAll(a + b) == EncodeAll(a) + EncodeAll(b)
  {
    if a == [] {
      assert a + b == b;
    } else {
      assert (a + b)[1..] == a[1..] + b;
      EncodeAllConcat(a[1..], b);
    }
  }

  lemma EncodeAllSnoc(fs: seq<Frame>, f: Frame)
    ensures EncodeAll(fs + [f]) == EncodeAll(fs) + EncodeFrame(f)
  {
    EncodeAllConcat(fs, [f]);
    assert EncodeAll([f]) == EncodeFrame(f) + EncodeAll([]);
  }

  // What decoding a byte prefix of an encoded stream may yield: a prefix of the frames, and a rest that is less than
  // the next frame.
  ghost predicate CleanCut(fs: seq<Frame>, p: seq<byte>, d: Decoded) {
    && d.frames <= fs
    && p == EncodeAll(d.frames) + d.rest
    && (if |d.frames| == |fs| then d.rest == [] else d.rest < EncodeFrame(fs[|d.frames|]))
  }

  lemma CleanCutStep(fs: seq<Frame>, q: seq<byte>, d: Decoded)
    requires fs != [] && CleanCut(fs[1..], q, d)
    ensures CleanCut(fs, EncodeFrame(fs[0]) + q, Decoded([fs[0]] + d.frames, d.rest))
  {
    var frames := [fs[0]] + d.frames;
    assert frames[1..] == d.frames;
    assert EncodeAll(frames) + d.rest == EncodeFrame(fs[0]) + (EncodeAll(d.frames) + d.rest);
  }

  // Decoding an encoded stream gives back its frames; decoding any byte prefix of it gives a prefix of the frames,
  // and nothing partial is ever dispatched.
  lemma {:induction false} DecodePrefix(fs: seq<Frame>, p: seq<byte>)
    requires AllFit(fs) && p <= EncodeAll(fs)
    ensures CleanCut(fs, p, Decode(p))
    ensures p == EncodeAll(fs) ==> Decode(p) == Decoded(fs, [])
  {
    if fs == [] {
    } else if |EncodeFrame(fs[0])| <= |p| {
      var q := p[|EncodeFrame(fs[0])|..];
      assert p == EncodeFrame(fs[0]) + q;
      assert q <= EncodeAll(fs[1..]);
      DecodeStep(fs[0], q);
      DecodePrefix(fs[1..], q);
      CleanCutStep(fs, q, Decode(q));
    } else {
      CutFrameIsNotWhole(fs[0], p);
    }
  }

  lemma CutFrameIsNotWhole(f: Frame, p: seq<byte>)
    requires Fits(f) && p < EncodeFrame(f)
    ensures !Whole(p)
  {
    if HEADER <= |p| {
      assert p[5..7] == EncodeFrame(f)[5..7];
      HeaderReads(f.cmd, f.sid, |f.data|, f.data);
    }
  }

  // On the wire: the command, the stream id and the length from the highest byte down, and the data.
  lemma FrameOnTheWire(f: Frame)
    ensures var sid: int, len: int := f.sid, |f.data| % 0x1_0000;
            EncodeFrame(f) == [f.cmd, sid / 0x100_0000, sid / 0x1_0000 % 0x100, sid / 0x100 % 0x100, sid % 0x100,
                               len / 0x100, len % 0x100] + f.data
  {
    U32Digits(f.sid);
  }

  lemma FirstFrameWritten(b: seq<byte>)
    requires Whole(b)
    ensures EncodeFrame(FirstFrame(b)) == b[..FrameSize(b)] && Fits(FirstFrame(b))
    ensures b == EncodeFrame(FirstFrame(b)) + b[FrameSize(b)..]
  {
    U32Back(b[1..5]);
    U16Back(b[5..7]);
    var f := FirstFrame(b);
    assert |f.data| == U16Of(b[5..7]);
    assert Header(f.cmd, f.sid, |f.data|) == b[..7];
    assert b[..FrameSize(b)] == b[..7] + f.data;
    assert b == b[..FrameSize(b)] + b[FrameSize(b)..];
  }

  // The bytes are those of the frames and an unfinished rest.
  ghost predicate WrittenAs(b: seq<byte>, d: Decoded) {
    && EncodeAll(d.frames) + d.rest == b && AllFit(d.frames)
    && (|d.rest| < 7 || |d.rest| < 7 + d.rest[5] as int * 0x100 + d.rest[6] as int)
  }

  lemma WrittenNext(f: Frame, tail: seq<byte>, d: Decoded)
    requires WrittenAs(tail, d) && Fits(f)
    ensures WrittenAs(EncodeFrame(f) + tail, Decoded([f] + d.frames, d.rest))
  {
    assert ([f] + d.frames)[1..] == d.frames;
    Assoc(EncodeFrame(f), EncodeAll(d.frames), d.rest);
  }

  // Whatever comes in is read as the frames it is made of and an unfinished rest; nothing is skipped or made up.
  lemma {:induction false} DecodeThenEncode(b: seq<byte>)
    ensures WrittenAs(b, Decode(b))
  {
    if Whole(b) {
      var tail := b[FrameSize(b)..];
      FirstFrameWritten(b);
      DecodeThenEncode(tail);
      WrittenNext(FirstFrame(b), tail, Decode(tail));
    }
  }

  // ---- The data one stream carries ----

  predicate Ends(f: Frame, sid: u32) { f.cmd == CMD_FIN && f.sid == sid }

  predicate HasFin(fs: seq<Frame>, sid: u32) { exists i | 0 <= i < |fs| :: Ends(fs[i], sid) }

  // The non-empty data chunks addressed to stream sid before its first FIN: the reference for both directions.
  function StreamData(fs: seq<Frame>, sid: u32): seq<seq<byte>> {
    if fs == [] || Ends(fs[0], sid) then []
    else Carried(fs[0], sid) + StreamData(fs[1..], sid)
  }

  function Carried(f: Frame, sid: u32): seq<seq<byte>> {
    if f.cmd == CMD_PSH && f.sid == sid && f.data != [] then [f.data] else []
  }

  lemma FinFirstOrLater(fs: seq<Frame>, sid: u32)
    requires fs != []
    ensures HasFin(fs, sid) <==> Ends(fs[0], sid) || HasFin(fs[1..], sid)
  {
    if HasFin(fs, sid) {
      var i :| 0 <= i < |fs| && Ends(fs[i], sid);
      assert i > 0 ==> Ends(fs[1..][i - 1], sid);
    }
    if HasFin(fs[1..], sid) {
      var i :| 0 <= i < |fs[1..]| && Ends(fs[1..][i], sid);
      assert Ends(fs[i + 1], sid);
    }
  }

  lemma {:induction false} StreamDataConcat(fs: seq<Frame>, gs: seq<Frame>, sid: u32)
    ensures StreamData(fs + gs, sid)
         == StreamData(fs, sid) + if HasFin(fs, sid) then [] else StreamData(gs, sid)
  {
    if fs == [] {
      assert fs + gs == gs;
    } else {
      assert (fs + gs)[1..] == fs[1..] + gs;
      StreamDataConcat(fs[1..], gs, sid);
      FinFirstOrLater(fs, sid);
    }
  }

  lemma StreamDataSnoc(fs: seq<Frame>, f: Frame, sid: u32)
    ensures StreamData(fs + [f], sid) == StreamData(fs, sid) + if HasFin(fs, sid) then [] else StreamData([f], sid)
    ensures StreamData([f], sid) == Carried(f, sid)
    ensures HasFin(fs + [f], sid) <==> HasFin(fs, sid) || Ends(f, sid)
  {
    StreamDataConcat(fs, [f], sid);
    assert StreamData([f][1..], sid) == [];
    if HasFin(fs, sid) {
      var i :| 0 <= i < |fs| && Ends(fs[i], sid);
      assert Ends((fs + [f])[i], sid);
    }
    if Ends(f, sid) {
      assert Ends((fs + [f])[|fs|], sid);
    }
  }

  lemma StreamDataMonotone(fs: seq<Frame>, gs: seq<Frame>, sid: u32)
    requires fs <= gs
    ensures StreamData(fs, sid) <= StreamData(gs, sid)
  {
    assert gs == fs + gs[|fs|..];
    StreamDataConcat(fs, gs[|fs|..], sid);
  }
}
