/** The tunnel as a whole: what the client of `dial` writes against what the target receives, and back. */
module AnyTlsEndToEnd {
  import opened Bytes
  import opened Utf8
  import opened Address
  import opened AnyTlsFrames
  import opened AnyTlsServer
  import opened AnyTlsUpload
  import opened AnyTlsDownload
  import opened AnyTlsDial
  import opened AnyTlsConn
  import opened AnyTlsReader

  // The one SYN is the second frame.
  lemma OneSyn(fs: seq<Frame>, target: Addr, chunks: seq<seq<byte>>, i: nat)
    requires ClientFrames(fs, target, chunks) && i < |fs| && fs[i].cmd == CMD_SYN
    ensures i == 1 && fs[i].sid == SID
  {
    assert fs[0] == fs[..3][0] && fs[1] == fs[..3][1] && fs[2] == fs[..3][2];
    if i >= 3 {
      TailFrame(fs, target, chunks, i);
    }
  }

  // The tunnel's only incarnation, in any run the client's frames can drive.
  lemma OneIncarnation(es: seq<Event>, fs: seq<Frame>, target: Addr, chunks: seq<seq<byte>>)
    requires ClientFrames(fs, target, chunks) && Delivered(es) <= fs
    ensures var s := Run(Init(), es);
            && |s.chans| <= 1
            && (s.chans != [] ==> s.chans[0].born == 1 && s.chans[0].sid == SID && |s.seen| >= 2)
  {
    var s := Run(Init(), es);
    RunKeeps(es);
    SeenIsDelivered(es);
    assert |s.chans| > 1 ==> s.chans[0].born < s.chans[1].born;
    forall c | 0 <= c < |s.chans|
      ensures s.chans[c].born == 1 && s.chans[c].sid == SID
    {
      OneSyn(fs, target, chunks, s.chans[c].born);
    }
  }

  // End to end, upload. Whatever the interleaving of reader loop and stream handler, and wherever the connection is
  // cut: the target decoded is the one dialled, the bytes written to it are a prefix of the payload, and they are the
  // whole payload once the copy ends at the end of the stream with the FIN handled, unless some chunk came upon 64 waiting
  // ones or a handler that had returned.
  lemma UploadEndToEnd(es: seq<Event>, fs: seq<Frame>, target: Addr, chunks: seq<seq<byte>>, c: nat)
    requires ClientFrames(fs, target, chunks) && ShortHost(target) && Delivered(es) <= fs
    requires c < |Run(Init(), es).chans|
    ensures var s := Run(Init(), es);
            var ch := s.chans[c];
            && (ch.target.Some? ==> ch.target.value == target)
            && ch.upstream <= Flatten(chunks)
            && (ch.eof && !SomeRefused(es, c) && HasFin(s.seen, SID) ==> ch.upstream == Flatten(chunks))
  {
    OneIncarnation(es, fs, target, chunks);
    RejectedExactlyWhen(es, c);
    UploadIsTail(es, c);
    SeenIsDelivered(es);
    var s := Run(Init(), es);
    UploadOf(s.seen, s.chans[c], fs, target, chunks);
  }

  // For a host that does not fit its length byte the same run dials something else, if anything.
  lemma LongHostIsMisdialled(es: seq<Event>, fs: seq<Frame>, target: Addr, chunks: seq<seq<byte>>, c: nat)
    requires ClientFrames(fs, target, chunks) && !ShortHost(target) && Delivered(es) <= fs
    requires c < |Run(Init(), es).chans|
    ensures Run(Init(), es).chans[c].target != Some(target)
  {
    OneIncarnation(es, fs, target, chunks);
    UploadIsTail(es, c);
    SeenIsDelivered(es);
    var s := Run(Init(), es);
    MisdialOf(s.seen, s.chans[c], fs, target, chunks);
  }

  // A parsed host is at most three times as long as the 255 bytes its length byte allows.
  lemma ParsedHostIsShort(b: seq<byte>, got: Addr, header: nat)
    requires ParseAddr(SOCKS, b) == Ok(got, header) && got.Domain?
    ensures |got.host| <= 3 * 0xFF
  {
    LossyBounded(b[2..2 + b[1] as int]);
  }

  lemma SomeTargetParsed(es: seq<Event>, c: nat)
    requires c < |Run(Init(), es).chans| && Run(Init(), es).chans[c].target.Some?
    ensures var target := Run(Init(), es).chans[c].target.value;
            target.Domain? ==> |target.host| <= 3 * 0xFF
  {
    RunKeeps(es);
    var ch := Run(Init(), es).chans[c];
    if ch.target.value.Domain? {
      ParsedHostIsShort(ch.read[..ch.header], ch.target.value, ch.header);
    }
  }

  // The same from bytes to bytes, where a block too long for a frame is cut by its length field too.
  lemma LongHostIsMisdialledOverTheWire(es: seq<Event>, digest: seq<byte>, fs: seq<Frame>, target: Addr, chunks: seq<seq<byte>>,
                                        input: seq<byte>, session: seq<byte>, c: nat)
    requires ClientFrames(fs, target, chunks) && !ShortHost(target) && |digest| == 32
    requires input <= digest + [0, 0] + EncodeAll(fs) && SentBehind(digest, input, session)
    requires Delivered(es) <= Decode(session).frames
    requires c < |Run(Init(), es).chans|
    ensures Run(Init(), es).chans[c].target != Some(target)
  {
    if |Encode(SOCKS, target)| < 0x1_0000 {
      SessionWithinSent(digest, EncodeAll(fs), input, session);
      ClientFits(fs, target, chunks);
      DecodePrefix(fs, session);
      LongHostIsMisdialled(es, fs, target, chunks, c);
    } else if Run(Init(), es).chans[c].target.Some? {
      SomeTargetParsed(es, c);
    }
  }

  lemma MisdialOf(seen: seq<Frame>, ch: Chan, fs: seq<Frame>, target: Addr, chunks: seq<seq<byte>>)
    requires ClientFrames(fs, target, chunks) && !ShortHost(target) && seen <= fs && |seen| >= 2
    requires ch.born == 1 && ch.sid == SID
    requires ch.target.Some? ==>
               && ParseAddr(SOCKS, Flatten(OwnData(seen, ch))) == Ok(ch.target.value, ch.header)
               && ch.header <= |Flatten(OwnData(seen, ch))|
    ensures ch.target != Some(target)
  {
    ReceivedWithinSent(seen, fs, target, chunks);
    assert OwnData(seen, ch) == StreamData(seen[2..], SID);
    if ch.target.Some? {
      OtherTarget(target, Flatten(chunks), Flatten(OwnData(seen, ch)), ch.target.value, ch.header);
    }
  }

  lemma OtherTarget(target: Addr, payload: seq<byte>, stream: seq<byte>, got: Addr, header: nat)
    requires !ShortHost(target) && stream <= Encode(SOCKS, target) + payload
    requires ParseAddr(SOCKS, stream) == Ok(got, header) && header <= |stream|
    ensures got != target
  {
    ParseIsPrefixStable(SOCKS, stream, Encode(SOCKS, target) + payload);
    EncodeThenParse(SOCKS, target, payload);
  }

  lemma UploadOf(seen: seq<Frame>, ch: Chan, fs: seq<Frame>, target: Addr, chunks: seq<seq<byte>>)
    requires ClientFrames(fs, target, chunks) && ShortHost(target) && seen <= fs && |seen| >= 2
    requires ch.born == 1 && ch.sid == SID && (ch.target.None? ==> ch.upstream == [] && !ch.eof)
    requires ch.target.Some? ==>
               var stream := Flatten(OwnData(seen, ch));
               && ParseAddr(SOCKS, stream) == Ok(ch.target.value, ch.header)
               && ch.header <= |stream|
               && ch.upstream <= stream[ch.header..]
               && (ch.eof && !ch.rejected ==> ch.upstream == stream[ch.header..])
    ensures ch.target.Some? ==> ch.target.value == target
    ensures ch.upstream <= Flatten(chunks)
    ensures ch.eof && !ch.rejected && HasFin(seen, SID) ==> ch.upstream == Flatten(chunks)
  {
    ReceivedWithinSent(seen, fs, target, chunks);
    assert OwnData(seen, ch) == StreamData(seen[2..], SID);
    if ch.target.Some? {
      var stream := Flatten(OwnData(seen, ch));
      TargetWasDialled(target, Flatten(chunks), stream, ch.target.value, ch.header);
      BehindTheBlock(Encode(SOCKS, target), Flatten(chunks), stream, ch.upstream);
    }
  }

  lemma ReceivedWithinSent(seen: seq<Frame>, fs: seq<Frame>, target: Addr, chunks: seq<seq<byte>>)
    requires ClientFrames(fs, target, chunks) && seen <= fs && |seen| >= 2
    ensures Flatten(StreamData(seen[2..], SID)) <= Encode(SOCKS, target) + Flatten(chunks)
    ensures HasFin(seen, SID) ==> Flatten(StreamData(seen[2..], SID)) == Encode(SOCKS, target) + Flatten(chunks)
  {
    ClientData(fs, target, chunks);
    if HasFin(seen, SID) {
      FinBehindOpening(seen, fs, target);
    }
    DataWithin(seen[2..], fs[2..]);
  }

  lemma DataWithin(some: seq<Frame>, all: seq<Frame>)
    requires some <= all
    ensures Flatten(StreamData(some, SID)) <= Flatten(StreamData(all, SID))
    ensures HasFin(some, SID) ==> StreamData(some, SID) == StreamData(all, SID)
  {
    assert all == some + all[|some|..];
    StreamDataConcat(some, all[|some|..], SID);
    FlattenPrefix(StreamData(some, SID), StreamData(all, SID));
  }

  lemma FinBehindOpening(seen: seq<Frame>, fs: seq<Frame>, target: Addr)
    requires |fs| >= 3 && fs[..3] == Opening(target) && seen <= fs && |seen| >= 2 && HasFin(seen, SID)
    ensures HasFin(seen[2..], SID)
  {
    var i :| 0 <= i < |seen| && Ends(seen[i], SID);
    assert seen[0] == fs[..3][0] && seen[1] == fs[..3][1];
    assert Ends(seen[2..][i - 2], SID);
  }

  lemma BehindTheBlock(block: seq<byte>, payload: seq<byte>, stream: seq<byte>, up: seq<byte>)
    requires stream <= block + payload && |block| <= |stream| && up <= stream[|block|..]
    ensures up <= payload
    ensures stream == block + payload && up == stream[|block|..] ==> up == payload
  {
    assert stream[|block|..] <= payload;
  }

  // A target parsed off a prefix of the client's stream is the client's target.
  lemma TargetWasDialled(target: Addr, payload: seq<byte>, stream: seq<byte>, got: Addr, header: nat)
    requires ShortHost(target) && stream <= Encode(SOCKS, target) + payload
    requires ParseAddr(SOCKS, stream) == Ok(got, header) && header <= |stream|
    ensures got == target && header == |Encode(SOCKS, target)|
  {
    EncodeThenParse(SOCKS, target, payload);
    ParseIsPrefixStable(SOCKS, stream, Encode(SOCKS, target) + payload);
  }

  lemma SessionWithinSent(digest: seq<byte>, sent: seq<byte>, input: seq<byte>, session: seq<byte>)
    requires |digest| == 32 && input <= digest + [0, 0] + sent && SentBehind(digest, input, session)
    ensures session <= sent
  {
    SessionExactlyWhen(digest, input, session);
    assert input[32..34] == [0, 0];
    assert session == input[34..];
  }

  // The same from bytes to bytes: the server is given any prefix of what the client wrote.
  lemma UploadOverTheWire(es: seq<Event>, digest: seq<byte>, fs: seq<Frame>, target: Addr, chunks: seq<seq<byte>>,
                          input: seq<byte>, session: seq<byte>, c: nat)
    requires ClientFrames(fs, target, chunks) && ShortHost(target) && |digest| == 32
    requires input <= digest + [0, 0] + EncodeAll(fs) && SentBehind(digest, input, session)
    requires Delivered(es) <= Decode(session).frames
    requires c < |Run(Init(), es).chans|
    ensures Delivered(es) <= fs
    ensures var s := Run(Init(), es);
            var ch := s.chans[c];
            && (ch.target.Some? ==> ch.target.value == target)
            && ch.upstream <= Flatten(chunks)
            && (ch.eof && !SomeRefused(es, c) && HasFin(s.seen, SID) ==> ch.upstream == Flatten(chunks))
  {
    SessionWithinSent(digest, EncodeAll(fs), input, session);
    ClientFits(fs, target, chunks);
    DecodePrefix(fs, session);
    UploadEndToEnd(es, fs, target, chunks, c);
  }

  // End to end, download. The client is given any byte prefix of the frames the server sent: it puts out a prefix of
  // what the target sent back, and exactly that once it has every frame and no chunk of the upload was refused.
  lemma DownloadEndToEnd(es: seq<Event>, fs: seq<Frame>, target: Addr, chunks: seq<seq<byte>>, input: seq<byte>)
    requires ClientFrames(fs, target, chunks) && Delivered(es) <= fs
    requires (forall i | 0 <= i < |es| :: ErrorFits(es[i])) && input <= EncodeAll(Run(Init(), es).out)
    ensures var s := Run(Init(), es);
            && |s.chans| <= 1
            && (s.chans == [] ==> Output(input) == [])
            && (s.chans != [] ==> Output(input) <= Flatten(s.chans[0].downloaded))
            && (s.chans != [] && !SomeRefused(es, 0) && input == EncodeAll(s.out) ==>
                  Output(input) == Flatten(s.chans[0].downloaded))
  {
    var s := Run(Init(), es);
    RejectedExactlyWhen(es, 0);
    OneIncarnation(es, fs, target, chunks);
    OutFits(es);
    DecodePrefix(s.out, input);
    var got := Decode(input).frames;
    StreamDataMonotone(got, s.out, SID);
    if s.chans == [] {
      RunSends(es);
      assert Absent(s.chans, SID);
      assert StreamData(got, SID) == [];
    } else {
      assert Only(s.chans, 0);
      DownloadIsolation(es, 0);
      FlattenPrefix(StreamData(got, SID), s.chans[0].downloaded);
    }
  }
}
