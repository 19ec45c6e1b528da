/** The TUIC `Packet` command: its body, its parser, and the senders on both sides. */
module TuicPacket {
  import opened Bytes
  import opened Utf8
  import opened Address

  const VER: byte := 0x05
  const CMD_PACKET: byte := 0x02

  datatype Packet = Packet(assoc: u16, pkt: u16, total: byte, id: byte, addr: Addr, data: seq<byte>)

  // What the length byte of the host and the 16-bit size can express.
  predicate Sendable(p: Packet) {
    ShortHost(p.addr) && |p.data| < 0x1_0000
  }

  function Head(p: Packet): (h: seq<byte>)
    ensures |h| == 8
  {
    U16Bytes(p.assoc) + U16Bytes(p.pkt) + [p.total, p.id] + U16Bytes(|p.data| % 0x1_0000)
  }

  function Body(p: Packet): seq<byte> {
    Head(p) + (Encode(TUIC, p.addr) + p.data)
  }

  function ParsePacket(b: seq<byte>): Option<Packet> {
    if |b| < 8 then None else
    var size := U16Of(b[6..8]) as int;
    match ParseAddr(TUIC, b[8..])
    case Err(_) => None
    case Ok(addr, used) =>
      if |b| < 8 + used + size then None
      else Some(Packet(U16Of(b[..2]), U16Of(b[2..4]), b[4], b[5], addr, b[8 + used..8 + used + size]))
  }

  lemma HeadReads(p: Packet, rest: seq<byte>)
    ensures var b := Head(p) + rest;
            && U16Of(b[..2]) == p.assoc && U16Of(b[2..4]) == p.pkt && b[4] == p.total && b[5] == p.id
            && U16Of(b[6..8]) == |p.data| % 0x1_0000 && b[8..] == rest
  {
    var b := Head(p) + rest;
    assert b[..2] == U16Bytes(p.assoc);
    assert b[2..4] == U16Bytes(p.pkt);
    assert b[6..8] == U16Bytes(|p.data| % 0x1_0000);
  }

  lemma ParseAfterHead(p: Packet, tail: seq<byte>, used: nat)
    requires ParseAddr(TUIC, tail) == Ok(p.addr, used)
    requires used + |p.data| <= |tail| && tail[used..used + |p.data|] == p.data
    ensures ParsePacket(Head(p) + tail) == Some(p.(data := p.data[..|p.data| % 0x1_0000]))
  {
    var b, size := Head(p) + tail, |p.data| % 0x1_0000;
    HeadReads(p, tail);
    assert b[8 + used..8 + used + size] == tail[used..used + size];
    assert tail[used..used + size] == p.data[..size];
  }

  lemma ParseLongHost(p: Packet, tail: seq<byte>)
    requires ParseAddr(TUIC, tail).Ok? ==> ParseAddr(TUIC, tail).addr != p.addr
    ensures ParsePacket(Head(p) + tail) != Some(p)
  {
    HeadReads(p, tail);
  }

  lemma Middle(a: seq<byte>, b: seq<byte>, c: seq<byte>)
    ensures (a + (b + c))[|a|..|a| + |b|] == b
  {
  }

  lemma ParseShortHost(p: Packet, block: seq<byte>, rest: seq<byte>)
    requires ShortHost(p.addr) && block == Encode(TUIC, p.addr)
    ensures ParsePacket(Head(p) + (block + (p.data + rest))) == Some(p.(data := p.data[..|p.data| % 0x1_0000]))
  {
    EncodeThenParse(TUIC, p.addr, p.data + rest);
    Middle(block, p.data, rest);
    ParseAfterHead(p, block + (p.data + rest), |block|);
  }

  // The parser inverts the body, trailing bytes or not, exactly for the packets the format can express.
  lemma PacketRoundTrip(p: Packet, rest: seq<byte>)
    ensures ParsePacket(Body(p) + rest) == Some(p) <==> Sendable(p)
  {
    var block := Encode(TUIC, p.addr);
    Assoc(Head(p), block + p.data, rest);
    Assoc(block, p.data, rest);
    if ShortHost(p.addr) {
      ParseShortHost(p, block, rest);
      var kept := p.data[..|p.data| % 0x1_0000];
      assert kept == p.data <==> |p.data| < 0x1_0000;
    } else {
      EncodeThenParse(TUIC, p.addr, p.data + rest);
      ParseLongHost(p, block + (p.data + rest));
    }
  }

  // Whatever is parsed was there: the numbers from their high bytes down, a complete address, and as many bytes as they say.
  lemma ParsedWasThere(b: seq<byte>, p: Packet)
    requires ParsePacket(b) == Some(p)
    ensures |b| >= 8 && ParseAddr(TUIC, b[8..]).Ok? && ParseAddr(TUIC, b[8..]).addr == p.addr
    ensures var at := 8 + ParseAddr(TUIC, b[8..]).used;
            && b[..6] == [p.assoc / 0x100, p.assoc % 0x100, p.pkt / 0x100, p.pkt % 0x100, p.total, p.id]
            && |p.data| == b[6] as int * 0x100 + b[7] as int && at + |p.data| <= |b| && p.data == b[at..at + |p.data|]
  {
  }

  // `TuicUdp::send_to`: one unfragmented packet, or an error for data that cannot be sized.
  method SendTo(assoc: u16, target: Addr, data: seq<byte>) returns (r: Option<seq<byte>>)
    ensures r.None? <==> |data| > 0xFFFF
    ensures r.Some? ==> r.value == [5, 2, assoc / 0x100, assoc % 0x100, 0, 0, 1, 0, |data| / 0x100, |data| % 0x100]
                                   + Encode(TUIC, target) + data
    ensures r.Some? ==>
              (ParsePacket(r.value[2..]) == Some(Packet(assoc, 0, 1, 0, target, data)) <==> ShortHost(target))
  {
    if |data| > 0xFFFF {
      return None;
    }
    var out := WritePacket(assoc, target, data);
    ghost var p := Packet(assoc, 0, 1, 0, target, data);
    PacketRoundTrip(p, []);
    assert out[2..] == Body(p) + [];
    OnTheWire(assoc, target, data);
    return Some(out);
  }

  // `spawn_udp_reader` and `send_udp_uni`: a datagram of at most 65535 bytes from a socket address, relayed back.
  method Reply(assoc: u16, src: Addr, data: seq<byte>) returns (out: seq<byte>)
    requires !src.Domain? && |data| <= 0xFFFF
    ensures out == [5, 2, assoc / 0x100, assoc % 0x100, 0, 0, 1, 0, |data| / 0x100, |data| % 0x100] + Encode(TUIC, src) + data
    ensures ParsePacket(out[2..]) == Some(Packet(assoc, 0, 1, 0, src, data))
  {
    out := WritePacket(assoc, src, data);
    ghost var p := Packet(assoc, 0, 1, 0, src, data);
    PacketRoundTrip(p, []);
    assert out[2..] == Body(p) + [];
    OnTheWire(assoc, src, data);
  }

  lemma OnTheWire(assoc: u16, addr: Addr, data: seq<byte>)
    requires |data| <= 0xFFFF
    ensures [VER, CMD_PACKET] + Body(Packet(assoc, 0, 1, 0, addr, data))
         == [5, 2, assoc / 0x100, assoc % 0x100, 0, 0, 1, 0, |data| / 0x100, |data| % 0x100] + Encode(TUIC, addr) + data
  {
    var n := |data|;
    var head: seq<byte> := [assoc / 0x100, assoc % 0x100, 0, 0, 1, 0, n / 0x100, n % 0x100];
    assert Head(Packet(assoc, 0, 1, 0, addr, data)) == head;
    assert [VER, CMD_PACKET] + head == [5, 2, assoc / 0x100, assoc % 0x100, 0, 0, 1, 0, n / 0x100, n % 0x100];
    Assoc([VER, CMD_PACKET], head, Encode(TUIC, addr) + data);
    Assoc([VER, CMD_PACKET] + head, Encode(TUIC, addr), data);
  }

  // The byte pushes all three senders share.
  method WritePacket(assoc: u16, addr: Addr, data: seq<byte>) returns (out: seq<byte>)
    ensures out == [VER, CMD_PACKET] + Body(Packet(assoc, 0, 1, 0, addr, data))
  {
    var v := new ByteVec();
    v.Push(VER);
    v.Push(CMD_PACKET);
    assert v.bytes == [VER, CMD_PACKET];
    WriteHead(v, assoc, addr, data);
    v.EncodeWithPort(TUIC, addr);
    v.Extend(data);
    out := v.bytes;
    ghost var head, block := Head(Packet(assoc, 0, 1, 0, addr, data)), Encode(TUIC, addr);
    Assoc([VER, CMD_PACKET] + head, block, data);
    Assoc([VER, CMD_PACKET], head, block + data);
  }

  method WriteHead(v: ByteVec, assoc: u16, addr: Addr, data: seq<byte>)
    modifies v
    ensures v.bytes == old(v.bytes) + Head(Packet(assoc, 0, 1, 0, addr, data))
  {
    ghost var start, a, b, c := v.bytes, U16Bytes(assoc), U16Bytes(0), U16Bytes(|data| % 0x1_0000);
    v.Extend(U16Bytes(assoc));
    v.Extend(U16Bytes(0));
    Assoc(start, a, b);
    v.Push(1);
    v.Push(0);
    Assoc(start + (a + b), [1], [0]);
    assert [1] + [0] == [1, 0 as byte];
    Assoc(start, a + b, [1, 0]);
    v.Extend(U16Bytes(|data| % 0x1_0000));
    Assoc(start, a + b + [1, 0], c);
  }
}
