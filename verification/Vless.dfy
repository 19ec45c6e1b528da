/** The VLESS request header `[0][uuid:16][addons length][command][port:2][tag][address]`. */
module Vless {
  import opened Bytes
  import opened Utf8
  import opened Address
  import opened ChunkedRead

  type Uuid = s: seq<byte> | |s| == 16 witness seq(16, i => 0)

  function Header(uuid: Uuid, target: Addr): seq<byte> {
    [0x00] + uuid + [0x00, 0x01] + U16Bytes(target.port) + AddrBlock(VLESS, target)
  }

  method EncodeHeader(uuid: Uuid, target: Addr, out: ByteVec)
    modifies out
    ensures out.bytes == old(out.bytes) + Header(uuid, target)
    ensures Header(uuid, target) == [0] + uuid + [0, 1, target.port / 0x100, target.port % 0x100] + AddrBlock(VLESS, target)
  {
    ghost var start := out.bytes;
    out.Push(0x00);
    out.Extend(uuid);
    out.Push(0x00);
    out.Push(0x01);
    out.Extend(U16Bytes(target.port));
    assert out.bytes == start + ([0x00] + uuid + [0x00, 0x01] + U16Bytes(target.port));
    out.EncodeAddr(VLESS, target);
    Assoc(start, [0x00] + uuid + [0x00, 0x01] + U16Bytes(target.port), AddrBlock(VLESS, target));
  }

  datatype HeaderError = Eof | BadVersion(v: byte) | UuidMismatch | BadCommand(c: byte) | BadTag(t: byte)
  datatype Read<+T> = Got(value: T, used: nat) | Rejected(error: HeaderError)

  // The address behind the port.
  function ParseTarget(b: seq<byte>, port: u16): Read<Addr> {
    if b == [] then Rejected(Eof)
    else if b[0] == VLESS.ipv4 then
      if |b| < 5 then Rejected(Eof) else Got(Ipv4(b[1..5], port), 5)
    else if b[0] == VLESS.domain then
      if |b| < 2 || |b| < 2 + b[1] as int then Rejected(Eof)
      else Got(Domain(Lossy(b[2..2 + b[1] as int]), port), 2 + b[1] as int)
    else if b[0] == VLESS.ipv6 then
      if |b| < 17 then Rejected(Eof) else Got(Ipv6(b[1..17], port), 17)
    else Rejected(BadTag(b[0]))
  }

  // The whole header, with the checks in the order the reader makes them. Byte 17, the addons length, is read and
  // ignored.
  function ParseHeader(uuid: Uuid, b: seq<byte>): Read<Addr> {
    if |b| < 1 then Rejected(Eof)
    else if b[0] != 0x00 then Rejected(BadVersion(b[0]))
    else if |b| < 17 then Rejected(Eof)
    else if b[1..17] != uuid then Rejected(UuidMismatch)
    else if |b| < 19 then Rejected(Eof)
    else if b[18] != 0x01 then Rejected(BadCommand(b[18]))
    else if |b| < 21 then Rejected(Eof)
    else match ParseTarget(b[21..], U16Of(b[19..21]))
      case Got(a, used) => Got(a, 21 + used)
      case Rejected(e) => Rejected(e)
  }

  lemma TargetRoundTrip(a: Addr, rest: seq<byte>)
    requires ShortHost(a)
    ensures ParseTarget(AddrBlock(VLESS, a) + rest, a.port) == Got(a, |AddrBlock(VLESS, a)|)
  {
    var b := AddrBlock(VLESS, a) + rest;
    match a {
      case Ipv4(o, _) => assert b[1..5] == o;
      case Ipv6(o, _) => assert b[1..17] == o;
      case Domain(h, _) =>
        assert b[1] == |h| && b[2..2 + |h|] == h;
        LossyFixesExactlyValidText(h);
    }
  }

  lemma ParsedHost(b: seq<byte>, port: u16, r: Read<Addr>)
    requires r == ParseTarget(b, port) && r.Got? && b[0] == VLESS.domain
    ensures |b| >= 2 + b[1] as int
    ensures r.value.Domain? && r.value.host == Lossy(b[2..2 + b[1] as int])
  {
  }

  lemma LongTarget(a: Addr, rest: seq<byte>)
    requires !ShortHost(a)
    ensures var r := ParseTarget(AddrBlock(VLESS, a) + rest, a.port);
            r.Got? ==> r.value != a
  {
    var b := AddrBlock(VLESS, a) + rest;
    var r := ParseTarget(b, a.port);
    DomainLayout(VLESS.domain, a.host, rest);
    if r.Got? {
      ParsedHost(b, a.port, r);
      LongHostIsLost(a.host, b[2..2 + b[1] as int]);
    }
  }

  lemma HeaderReads(uuid: Uuid, port: u16, rest: seq<byte>)
    ensures var b := [0x00] + uuid + [0x00, 0x01] + U16Bytes(port) + rest;
            && |b| >= 21 && b[0] == 0x00 && b[1..17] == uuid && b[18] == 0x01 && U16Of(b[19..21]) == port
            && b[21..] == rest
  {
    var b := [0x00] + uuid + [0x00, 0x01] + U16Bytes(port) + rest;
    assert b[19..21] == U16Bytes(port);
  }

  // A header is read back as written, leaving exactly what follows it, by a server with the same uuid and for a host
  // of at most 255 bytes, and in no other case; a server with another uuid rejects it as such.
  lemma HeaderRoundTrip(client: Uuid, server: Uuid, target: Addr, payload: seq<byte>)
    ensures var r := ParseHeader(server, Header(client, target) + payload);
            && (r.Got? && r.value == target <==> client == server && ShortHost(target))
            && (r.Got? && r.value == target ==> r.used == |Header(client, target)|)
            && (client != server ==> r == Rejected(UuidMismatch))
  {
    var block := AddrBlock(VLESS, target);
    HeaderReads(client, target.port, block + payload);
    Assoc([0x00] + client + [0x00, 0x01] + U16Bytes(target.port), block, payload);
    if ShortHost(target) {
      TargetRoundTrip(target, payload);
    } else {
      LongTarget(target, payload);
    }
  }

  // ---- Exactly which headers are accepted ----

  // A TCP request of the client with this uuid, complete with its target: version 0, uuid, any addons length, command 1, port,
  // and one of three addresses.
  predicate TcpRequest(uuid: Uuid, b: seq<byte>) {
    && |b| >= 22 && b[0] == 0 && b[1..17] == uuid && b[18] == 1
    && ((b[21] == 1 && |b| >= 26) || (b[21] == 2 && |b| >= 23 && |b| >= 23 + b[22] as int) || (b[21] == 3 && |b| >= 38))
  }

  // Its target.
  function TargetOf(uuid: Uuid, b: seq<byte>): Addr
    requires TcpRequest(uuid, b)
  {
    var port := b[19] as int * 0x100 + b[20] as int;
    if b[21] == 1 then Ipv4(b[22..26], port)
    else if b[21] == 2 then Domain(Lossy(b[23..23 + b[22] as int]), port)
    else Ipv6(b[22..38], port)
  }

  function HeaderEnd(uuid: Uuid, b: seq<byte>): nat
    requires TcpRequest(uuid, b)
  {
    if b[21] == 1 then 26 else if b[21] == 2 then 23 + b[22] as int else 38
  }

  // A header is accepted exactly if it is a TCP request with the server's uuid, and then with its target and length.
  lemma AcceptsExactlyWhen(uuid: Uuid, b: seq<byte>)
    ensures ParseHeader(uuid, b).Got? <==> TcpRequest(uuid, b)
    ensures TcpRequest(uuid, b) ==> ParseHeader(uuid, b) == Got(TargetOf(uuid, b), HeaderEnd(uuid, b))
  {
    if |b| >= 22 && b[0] == 0 && b[1..17] == uuid && b[18] == 1 {
      TargetAccepted(b[21..], U16Of(b[19..21]));
      assert b[21..][0] == b[21] && (|b| >= 23 ==> b[21..][1] == b[22]);
      if b[21] == 1 && |b| >= 26 {
        SliceOfRest(b, 1, 5);
      } else if b[21] == 2 && |b| >= 23 && |b| >= 23 + b[22] as int {
        SliceOfRest(b, 2, 2 + b[22] as int);
      } else if b[21] == 3 && |b| >= 38 {
        SliceOfRest(b, 1, 17);
      }
    }
  }

  lemma SliceOfRest(b: seq<byte>, lo: nat, hi: nat)
    requires lo <= hi && 21 + hi <= |b|
    ensures b[21..][lo..hi] == b[21 + lo..21 + hi]
  {
  }

  lemma TargetAccepted(b: seq<byte>, port: u16)
    requires b != []
    ensures ParseTarget(b, port).Got? <==>
              || (b[0] == 1 && |b| >= 5)
              || (b[0] == 2 && |b| >= 2 && |b| >= 2 + b[1] as int)
              || (b[0] == 3 && |b| >= 17)
    ensures b[0] == 1 && |b| >= 5 ==> ParseTarget(b, port) == Got(Ipv4(b[1..5], port), 5)
    ensures b[0] == 2 && |b| >= 2 && |b| >= 2 + b[1] as int ==>
              ParseTarget(b, port) == Got(Domain(Lossy(b[2..2 + b[1] as int]), port), 2 + b[1] as int)
    ensures b[0] == 3 && |b| >= 17 ==> ParseTarget(b, port) == Got(Ipv6(b[1..17], port), 17)
  {
  }

  // Every other version, command (UDP among them) and address tag is rejected as such.
  lemma OthersAreRejected(uuid: Uuid, v: byte, addons: byte, c: byte, hi: byte, lo: byte, tag: byte, rest: seq<byte>)
    ensures v != 0 ==> ParseHeader(uuid, [v] + rest) == Rejected(BadVersion(v))
    ensures c != 1 ==> ParseHeader(uuid, [0] + uuid + [addons, c] + rest) == Rejected(BadCommand(c))
    ensures tag == 0 || tag > 3 ==> ParseHeader(uuid, [0] + uuid + [addons, 1, hi, lo, tag] + rest) == Rejected(BadTag(tag))
  {
    var b, d := [0] + uuid + [addons, c] + rest, [0] + uuid + [addons, 1, hi, lo, tag] + rest;
    assert b[1..17] == uuid && b[18] == c;
    assert d[1..17] == uuid && d[18] == 1 && d[21..][0] == d[21] == tag;
  }

  // The addons length has no influence: a header that does carry addons is read as if they were the command and on.
  lemma AddonsAreNotSkipped(uuid: Uuid, addons: byte, rest: seq<byte>)
    ensures ParseHeader(uuid, [0x00] + uuid + [addons] + rest) == ParseHeader(uuid, [0x00] + uuid + [0x00] + rest)
  {
    var b, c := [0x00] + uuid + [addons] + rest, [0x00] + uuid + [0x00] + rest;
    assert b[1..17] == uuid == c[1..17];
    assert forall i | 18 <= i < |b| :: b[i] == c[i];
    if |b| >= 21 {
      assert b[19..21] == c[19..21] && b[21..] == c[21..];
    }
  }

  // The header of a client that does send addons.
  function HeaderWithAddons(uuid: Uuid, addons: seq<byte>, target: Addr): seq<byte>
    requires |addons| < 0x100
  {
    [0x00] + uuid + [|addons|] + addons + [0x01] + U16Bytes(target.port) + AddrBlock(VLESS, target)
  }

  // A target read from among other bytes never takes more bytes than the block of a host so long that it fits.
  lemma BlockLength(b: seq<byte>, port: u16, a: Addr, n: nat)
    requires ParseTarget(b, port) == Got(a, n)
    ensures n <= |AddrBlock(VLESS, a)|
    ensures !ShortHost(a) ==> n < |AddrBlock(VLESS, a)|
  {
    if a.Domain? {
      LossyGrows(b[2..2 + b[1] as int]);
    }
  }

  lemma ParsedFrom(uuid: Uuid, b: seq<byte>, a: Addr, n: nat)
    requires ParseHeader(uuid, b) == Got(a, n)
    ensures |b| >= 21 && n >= 21 && ParseTarget(b[21..], U16Of(b[19..21])) == Got(a, n - 21)
  {
  }

  // A header with addons is read right, target and length, exactly when there are no addons after all, the server has the
  // same uuid and the host fits.
  lemma AddonsExactlyWhenNone(client: Uuid, server: Uuid, addons: seq<byte>, target: Addr, payload: seq<byte>)
    requires |addons| < 0x100
    ensures var h := HeaderWithAddons(client, addons, target);
            ParseHeader(server, h + payload) == Got(target, |h|) <==> addons == [] && client == server && ShortHost(target)
  {
    var h := HeaderWithAddons(client, addons, target);
    HeaderRoundTrip(client, server, target, payload);
    if addons == [] {
      assert [0x00] + client + [0] + [] + [0x01] == [0x00] + client + [0x00, 0x01];
      assert h == Header(client, target);
    } else if ParseHeader(server, h + payload) == Got(target, |h|) {
      ParsedFrom(server, h + payload, target, |h|);
      BlockLength((h + payload)[21..], U16Of((h + payload)[19..21]), target, |h| - 21);
    }
  }

  // What reading the header off a stream does, against parsing its bytes.
  ghost predicate ReadsLike(p: Read<Addr>, all: seq<byte>, r: Read<Addr>, rest: seq<byte>) {
    r == p && (p.Got? ==> p.used <= |all| && rest == all[p.used..])
  }

  method ReadTarget(r: ChunkedReader, port: u16) returns (t: Read<Addr>)
    requires r.Valid()
    modifies r, r.rx
    ensures r.Valid() && ReadsLike(ParseTarget(old(r.Contents()), port), old(r.Contents()), t, r.Contents())
  {
    ghost var all := r.Contents();
    var tag := r.ReadExact(1);
    if tag.None? {
      return Rejected(Eof);
    }
    if tag.value[0] == VLESS.ipv4 {
      var b := r.ReadExact(4);
      assert b.Some? ==> b.value == all[1..5] && all[1..][4..] == all[5..];
      t := if b.None? then Rejected(Eof) else Got(Ipv4(b.value, port), 5);
    } else if tag.value[0] == VLESS.domain {
      t := ReadDomain(r, port, all);
    } else if tag.value[0] == VLESS.ipv6 {
      var b := r.ReadExact(16);
      assert b.Some? ==> b.value == all[1..17] && all[1..][16..] == all[17..];
      t := if b.None? then Rejected(Eof) else Got(Ipv6(b.value, port), 17);
    } else {
      t := Rejected(BadTag(tag.value[0]));
    }
  }

  method ReadDomain(r: ChunkedReader, port: u16, ghost all: seq<byte>) returns (t: Read<Addr>)
    requires r.Valid() && all != [] && all[0] == VLESS.domain && r.Contents() == all[1..]
    modifies r, r.rx
    ensures r.Valid() && ReadsLike(ParseTarget(all, port), all, t, r.Contents())
  {
    var len := r.ReadExact(1);
    if len.None? {
      return Rejected(Eof);
    }
    var n: nat := len.value[0];
    assert n == all[1] && r.Contents() == all[2..];
    var dom := r.ReadExact(n);
    if dom.None? {
      return Rejected(Eof);
    }
    assert dom.value == all[2..2 + n] && r.Contents() == all[2 + n..];
    t := Got(Domain(Lossy(dom.value), port), 2 + n);
  }

  method ReadVlessHeader(r: ChunkedReader, uuid: Uuid) returns (t: Read<Addr>)
    requires r.Valid()
    modifies r, r.rx
    ensures r.Valid() && ReadsLike(ParseHeader(uuid, old(r.Contents())), old(r.Contents()), t, r.Contents())
    ensures t.Got? <==> TcpRequest(uuid, old(r.Contents()))
  {
    ghost var all := r.Contents();
    AcceptsExactlyWhen(uuid, all);
    var version := r.ReadExact(1);
    if version.None? {
      return Rejected(Eof);
    }
    if version.value[0] != 0x00 {
      return Rejected(BadVersion(version.value[0]));
    }
    var peer := r.ReadExact(16);
    if peer.None? {
      return Rejected(Eof);
    }
    assert peer.value == all[1..17] && r.Contents() == all[17..];
    if peer.value != uuid {
      return Rejected(UuidMismatch);
    }
    t := ReadRequest(r, all, uuid);
  }

  // Addons length, command, port and target.
  method ReadRequest(r: ChunkedReader, ghost all: seq<byte>, ghost uuid: Uuid) returns (t: Read<Addr>)
    requires r.Valid() && |all| >= 17 && all[0] == 0x00 && all[1..17] == uuid && r.Contents() == all[17..]
    modifies r, r.rx
    ensures r.Valid() && ReadsLike(ParseHeader(uuid, all), all, t, r.Contents())
  {
    var addons := r.ReadExact(1);
    if addons.None? {
      return Rejected(Eof);
    }
    assert r.Contents() == all[18..];
    var cmd := r.ReadExact(1);
    if cmd.None? {
      return Rejected(Eof);
    }
    assert cmd.value == [all[18]] && r.Contents() == all[19..];
    if cmd.value[0] != 0x01 {
      return Rejected(BadCommand(cmd.value[0]));
    }
    t := ReadPortAndTarget(r, all, uuid);
  }

  method ReadPortAndTarget(r: ChunkedReader, ghost all: seq<byte>, ghost uuid: Uuid) returns (t: Read<Addr>)
    requires r.Valid() && |all| >= 19 && all[0] == 0x00 && all[1..17] == uuid && all[18] == 0x01
    requires r.Contents() == all[19..]
    modifies r, r.rx
    ensures r.Valid() && ReadsLike(ParseHeader(uuid, all), all, t, r.Contents())
  {
    var port := r.ReadExact(2);
    if port.None? {
      return Rejected(Eof);
    }
    assert port.value == all[19..21] && r.Contents() == all[21..];
    var target := ReadTarget(r, U16Of(port.value));
    match target {
      case Got(a, used) =>
        assert all[21..][used..] == all[21 + used..];
        t := Got(a, 21 + used);
      case Rejected(e) => t := Rejected(e);
    }
  }

  // ---- handle_stream ----

  datatype Effect = Dialed(target: Addr) | Confirmed | Relayed(up: seq<byte>, down: seq<byte>)

  // One direction of the relay: the bytes copied up to the end of the stream, or until something cuts the copy short, the relay limit
  // or a write that fails, after `cut` bytes have been written.
  method Copy(r: ChunkedReader, cut: Option<nat>) returns (data: seq<byte>)
    requires r.Valid()
    modifies r, r.rx
    ensures r.Valid() && data <= old(r.Contents())
    ensures cut.None? ==> data == old(r.Contents())
    ensures cut.Some? ==> |data| == if cut.value < |old(r.Contents())| then cut.value else |old(r.Contents())|
  {
    data := [];
    ghost var all := r.Contents();
    while cut.None? || |data| < cut.value
      invariant r.Valid() && data + r.Contents() == all
      invariant cut.Some? ==> |data| <= cut.value
      decreases |r.rx.later| + (if r.rx.closed then 0 else 1), |r.Contents()|
    {
      var room := if cut.Some? && cut.value - |data| < 8192 then cut.value - |data| else 8192;
      var p := r.PollBytes(room);
      match p {
        case Ready(d) =>
          Assoc(data, d, r.Contents());
          if d == [] {
            return;
          }
          data := data + d;
        case Pending =>
          r.rx.Await();
      }
    }
  }

  // A copy gives all of the stream, or the first bytes of it if it is cut short.
  predicate CopyOf(data: seq<byte>, all: seq<byte>, cut: Option<nat>) {
    data <= all && |data| == if cut.Some? && cut.value < |all| then cut.value else |all|
  }

  // What the connection does to the world: nothing for a bad header or one that does not come in time; otherwise it dials,
  // where `dials` is false if that fails or takes too long; the client is told only once the dial has succeeded; only then
  // are bytes relayed, the client's without the header to the target and the target's to the client: all of them, unless a
  // direction is cut short, and then the first ones.
  method HandleStream(r: ChunkedReader, upstream: ChunkedReader, uuid: Uuid, inTime: bool, dials: Addr -> bool, told: bool,
                      upCut: Option<nat>, downCut: Option<nat>)
    returns (effects: seq<Effect>)
    requires r.Valid() && upstream.Valid() && {r, r.rx} !! {upstream, upstream.rx}
    modifies r, r.rx, upstream, upstream.rx
    ensures effects != [] <==> inTime && TcpRequest(uuid, old(r.Contents()))
    ensures var all, back := old(r.Contents()), old(upstream.Contents());
            inTime && TcpRequest(uuid, all) ==>
              var t := TargetOf(uuid, all);
              if !dials(t) || !told then effects == [Dialed(t)]
              else
                && |effects| == 3 && effects[..2] == [Dialed(t), Confirmed] && effects[2].Relayed?
                && CopyOf(effects[2].up, all[HeaderEnd(uuid, all)..], upCut) && CopyOf(effects[2].down, back, downCut)
  {
    if !inTime {
      return [];
    }
    AcceptsExactlyWhen(uuid, r.Contents());
    var header := ReadVlessHeader(r, uuid);
    if header.Rejected? {
      return [];
    }
    effects := [Dialed(header.value)];
    if !dials(header.value) {
      return;
    }
    if !told {
      return;
    }
    var up := Copy(r, upCut);
    var down := Copy(upstream, downCut);
    effects := [Dialed(header.value), Confirmed, Relayed(up, down)];
  }
}
