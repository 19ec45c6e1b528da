/**
 Target addresses and their wire blocks `[tag][address][port]` (RFC 1928, section 5). The three protocols share
 the layout and differ only in the tag values, so the tags are a parameter.
*/
module Address {
  import opened Bytes
  import opened Utf8

  type Octets4 = s: seq<byte> | |s| == 4 witness [0, 0, 0, 0]
  type Octets16 = s: seq<byte> | |s| == 16 witness seq(16, i => 0)

  datatype Addr =
    | Ipv4(octets4: Octets4, port: u16)
    | Ipv6(octets16: Octets16, port: u16)
    | Domain(host: Text, port: u16)

  datatype TagSet = TagSet(ipv4: byte, domain: byte, ipv6: byte)
  type Tags = t: TagSet | t.ipv4 != t.domain && t.ipv4 != t.ipv6 && t.domain != t.ipv6 witness TagSet(1, 3, 4)

  const SOCKS: Tags := TagSet(0x01, 0x03, 0x04)
  const TUIC: Tags := TagSet(0x01, 0x00, 0x02)
  const VLESS: Tags := TagSet(0x01, 0x02, 0x03)

  datatype AddrError = Empty | Short | Unsupported(tag: byte)
  datatype Parsed = Ok(addr: Addr, used: nat) | Err(error: AddrError)

  // The length byte of a domain is written with `len() as u8`, so only these hosts survive encoding.
  predicate ShortHost(a: Addr) {
    a.Domain? ==> |a.host| <= 0xFF
  }

  // ---- Encoding ----

  function AddrBlock(tags: Tags, a: Addr): seq<byte> {
    match a
    case Ipv4(o, _) => [tags.ipv4] + o
    case Ipv6(o, _) => [tags.ipv6] + o
    case Domain(h, _) => [tags.domain, |h| % 0x100] + h
  }

  function Encode(tags: Tags, a: Addr): seq<byte> {
    AddrBlock(tags, a) + U16Bytes(a.port)
  }

  /** A growing byte vector: the `&mut Vec<u8>` that the encoders append to. */
  class ByteVec {
    var bytes: seq<byte>

    constructor ()
      ensures bytes == []
    {
      bytes := [];
    }

    method Push(b: byte)
      modifies this
      ensures bytes == old(bytes) + [b]
    {
      bytes := bytes + [b];
    }

    method Extend(s: seq<byte>)
      modifies this
      ensures bytes == old(bytes) + s
    {
      bytes := bytes + s;
    }

    // Address part only: `Addr::encode_addr`, and the address arms of the TUIC and VLESS encoders.
    method EncodeAddr(tags: Tags, a: Addr)
      modifies this
      ensures bytes == old(bytes) + AddrBlock(tags, a)
    {
      match a {
        case Ipv4(o, _) =>
          Push(tags.ipv4);
          Extend(o);
        case Ipv6(o, _) =>
          Push(tags.ipv6);
          Extend(o);
        case Domain(h, _) =>
          Push(tags.domain);
          Push(|h| % 0x100);
          Extend(h);
          assert bytes == old(bytes) + ([tags.domain, |h| % 0x100] + h);
      }
    }

    method EncodeWithPort(tags: Tags, a: Addr)
      modifies this
      ensures bytes == old(bytes) + Encode(tags, a)
    {
      EncodeAddr(tags, a);
      Extend(U16Bytes(a.port));
    }
  }

  // On the wire: the tag, the address, and the port from its high byte down; the tags are those of each protocol.
  lemma AddrOnTheWire(a: Addr)
    ensures var port := [a.port / 0x100, a.port % 0x100];
            match a
            case Ipv4(o, _) => Encode(SOCKS, a) == Encode(TUIC, a) == Encode(VLESS, a) == [1] + o + port
            case Ipv6(o, _) =>
              Encode(SOCKS, a) == [4] + o + port && Encode(TUIC, a) == [2] + o + port && Encode(VLESS, a) == [3] + o + port
            case Domain(h, _) =>
              && Encode(SOCKS, a) == [3, |h| % 0x100] + h + port && Encode(TUIC, a) == [0, |h| % 0x100] + h + port
              && Encode(VLESS, a) == [2, |h| % 0x100] + h + port
  {
  }

  // ---- Parsing a buffer ----

  function ParseAddr(tags: Tags, b: seq<byte>): Parsed {
    if b == [] then Err(Empty)
    else if b[0] == tags.ipv4 then
      if |b| < 7 then Err(Short) else Ok(Ipv4(b[1..5], U16Of(b[5..7])), 7)
    else if b[0] == tags.domain then
      if |b| < 2 then Err(Short) else
      var len: int := b[1];
      if |b| < 2 + len + 2 then Err(Short)
      else Ok(Domain(Lossy(b[2..2 + len]), U16Of(b[2 + len..4 + len])), 2 + len + 2)
    else if b[0] == tags.ipv6 then
      if |b| < 19 then Err(Short) else Ok(Ipv6(b[1..17], U16Of(b[17..19])), 19)
    else Err(Unsupported(b[0]))
  }

  lemma ParseIpv4(tags: Tags, o: Octets4, p: u16, rest: seq<byte>)
    ensures ParseAddr(tags, Encode(tags, Ipv4(o, p)) + rest) == Ok(Ipv4(o, p), 7)
  {
    var b := Encode(tags, Ipv4(o, p)) + rest;
    assert b[1..5] == o;
    assert b[5..7] == U16Bytes(p);
  }

  lemma ParseIpv6(tags: Tags, o: Octets16, p: u16, rest: seq<byte>)
    ensures ParseAddr(tags, Encode(tags, Ipv6(o, p)) + rest) == Ok(Ipv6(o, p), 19)
  {
    var b := Encode(tags, Ipv6(o, p)) + rest;
    assert b[1..17] == o;
    assert b[17..19] == U16Bytes(p);
  }

  lemma ParseShortDomain(tags: Tags, h: Text, p: u16, rest: seq<byte>)
    requires |h| <= 0xFF
    ensures ParseAddr(tags, Encode(tags, Domain(h, p)) + rest) == Ok(Domain(h, p), 4 + |h|)
  {
    var b := Encode(tags, Domain(h, p)) + rest;
    assert b[1] == |h|;
    assert b[2..2 + |h|] == h;
    assert b[2 + |h|..4 + |h|] == U16Bytes(p);
    LossyFixesExactlyValidText(h);
  }

  lemma DomainLayout(tag: byte, h: seq<byte>, tail: seq<byte>)
    ensures var b, len := [tag, |h| % 0x100] + h + tail, |h| % 0x100;
            |b| >= 2 + |h| && b[0] == tag && b[1] == len && b[2..2 + len] == h[..len]
  {
  }

  lemma ParsedHost(tags: Tags, b: seq<byte>, r: Parsed)
    requires r == ParseAddr(tags, b) && r.Ok? && b[0] == tags.domain
    ensures |b| >= 2 + b[1] as int
    ensures r.addr.Domain? && r.addr.host == Lossy(b[2..2 + b[1] as int])
  {
  }

  lemma LongHostIsLost(h: Text, cut: seq<byte>)
    requires |h| > 0xFF && cut == h[..|h| % 0x100]
    ensures |Lossy(cut)| < |h|
  {
    var k := |h| % 0x100;
    LossyOfCut(h, k);
    assert |h[..WholePart(h, k)]| <= k && |Lossy(cut)| <= k + 3;
  }

  lemma ParseLongDomain(tags: Tags, a: Addr, rest: seq<byte>)
    requires !ShortHost(a)
    ensures ParseAddr(tags, Encode(tags, a) + rest).Ok? ==> ParseAddr(tags, Encode(tags, a) + rest).addr != a
  {
    var b := Encode(tags, a) + rest;
    var r := ParseAddr(tags, b);
    Assoc(AddrBlock(tags, a), U16Bytes(a.port), rest);
    DomainLayout(tags.domain, a.host, U16Bytes(a.port) + rest);
    if r.Ok? {
      ParsedHost(tags, b, r);
      LongHostIsLost(a.host, b[2..2 + b[1] as int]);
    }
  }

  // Encoding then parsing gives the address back, whatever follows the block, exactly for hosts of at most 255 bytes;
  // then it consumes exactly the block.
  lemma EncodeThenParse(tags: Tags, a: Addr, rest: seq<byte>)
    ensures var r := ParseAddr(tags, Encode(tags, a) + rest);
            r.Ok? && r.addr == a <==> ShortHost(a)
    ensures ShortHost(a) ==> ParseAddr(tags, Encode(tags, a) + rest) == Ok(a, |Encode(tags, a)|)
  {
    if !ShortHost(a) {
      ParseLongDomain(tags, a, rest);
    } else {
      match a {
        case Ipv4(o, p) => ParseIpv4(tags, o, p, rest);
        case Ipv6(o, p) => ParseIpv6(tags, o, p, rest);
        case Domain(h, p) => ParseShortDomain(tags, h, p, rest);
      }
    }
  }

  // The bytes a successful parse consumed, laid out field by field.
  lemma Consumed(tags: Tags, b: seq<byte>)
    requires ParseAddr(tags, b).Ok?
    ensures var r := ParseAddr(tags, b);
            && r.used <= |b|
            && b[..r.used] == (match r.addr
                               case Ipv4(o, p) => [tags.ipv4] + o + U16Bytes(p)
                               case Ipv6(o, p) => [tags.ipv6] + o + U16Bytes(p)
                               case Domain(_, p) => [tags.domain, b[1]] + b[2..2 + b[1] as int] + U16Bytes(p))
  {
    var used := ParseAddr(tags, b).used;
    var t := b[used - 2..used];
    assert U16Bytes(U16Of(t)) == t;
  }

  lemma DomainBytesInjective(tag: byte, x: seq<byte>, y: seq<byte>, port: seq<byte>)
    ensures [tag, |x| % 0x100] + x + port == [tag, |y| % 0x100] + y + port <==> x == y
  {
    var e, f := [tag, |x| % 0x100] + x + port, [tag, |y| % 0x100] + y + port;
    if e == f {
      assert |x| == |y|;
      assert e[2..2 + |x|] == x;
      assert f[2..2 + |y|] == y;
    }
  }

  lemma EncodeLossyDomain(tags: Tags, a: Addr, dom: seq<byte>)
    requires a.Domain? && a.host == Lossy(dom)
    ensures Encode(tags, a) == [tags.domain, |dom| % 0x100] + dom + U16Bytes(a.port) <==> ValidUtf8(dom)
  {
    DomainBytesInjective(tags.domain, a.host, dom, U16Bytes(a.port));
    LossyFixesExactlyValidText(dom);
  }

  lemma ConsumedDomain(tags: Tags, b: seq<byte>)
    requires ParseAddr(tags, b).Ok? && ParseAddr(tags, b).addr.Domain?
    ensures var r := ParseAddr(tags, b);
            && r.used <= |b| && r.used == 4 + b[1] as int && r.addr.host == Lossy(b[2..2 + b[1] as int])
            && b[..r.used] == [tags.domain, |b[2..2 + b[1] as int]| % 0x100] + b[2..2 + b[1] as int] + U16Bytes(r.addr.port)
  {
    Consumed(tags, b);
    var dom := b[2..2 + b[1] as int];
    assert |dom| % 0x100 == b[1];
  }

  // Parsing then encoding restores the consumed bytes exactly when the domain bytes were valid UTF-8.
  lemma ParseThenEncode(tags: Tags, b: seq<byte>)
    requires ParseAddr(tags, b).Ok?
    ensures ParseAddr(tags, b).used <= |b|
    ensures var r := ParseAddr(tags, b);
            Encode(tags, r.addr) == b[..r.used] <==> (r.addr.Domain? ==> ValidUtf8(b[2..2 + b[1] as int]))
  {
    var a := ParseAddr(tags, b).addr;
    if a.Domain? {
      ConsumedDomain(tags, b);
      EncodeLossyDomain(tags, a, b[2..2 + b[1] as int]);
    } else {
      Consumed(tags, b);
      assert Encode(tags, a) == AddrBlock(tags, a) + U16Bytes(a.port);
    }
  }

  // A successful parse is decided by the bytes it consumes: what follows cannot change it.
  lemma ParseIsPrefixStable(tags: Tags, b: seq<byte>, c: seq<byte>)
    requires ParseAddr(tags, b).Ok? && b[..ParseAddr(tags, b).used] <= c
    ensures ParseAddr(tags, c) == ParseAddr(tags, b)
  {
    var used := ParseAddr(tags, b).used;
    assert forall i | 0 <= i < used :: c[i] == b[..used][i] == b[i];
    if b[0] == tags.ipv4 {
      assert c[1..5] == b[1..5] && c[5..7] == b[5..7];
    } else if b[0] == tags.domain {
      var len := b[1];
      assert c[2..2 + len] == b[2..2 + len] && c[2 + len..4 + len] == b[2 + len..4 + len];
    } else {
      assert c[1..17] == b[1..17] && c[17..19] == b[17..19];
    }
  }

  // ---- Reading from a stream ----

  // How many bytes the `read_exact` in progress still wants once `got` has been read; zero when reading is over.
  function Demand(tags: Tags, got: seq<byte>): (n: nat)
    ensures n <= 0xFF
  {
    if got == [] then 1
    else if got[0] == tags.ipv4 then Until(got, 5, 7)
    else if got[0] == tags.domain then
      if |got| < 2 then 1 else Until(got, 2 + got[1] as int, 4 + got[1] as int)
    else if got[0] == tags.ipv6 then Until(got, 17, 19)
    else 0
  }

  // Reads up to byte `address`, then up to byte `port`.
  function Until(got: seq<byte>, address: nat, port: nat): nat {
    if |got| < address then address - |got| else if |got| < port then port - |got| else 0
  }

  // Reading no more than demanded keeps the parse undecided, and it is decided exactly when nothing more is wanted:
  // then the bytes read are the whole block, or the one byte of an unsupported tag.
  lemma DemandMeetsParse(tags: Tags, got: seq<byte>, d: seq<byte>)
    requires 0 < |d| <= Demand(tags, got)
    ensures ParseAddr(tags, got).Err? && !ParseAddr(tags, got).error.Unsupported?
    ensures Demand(tags, got + d) > 0 ==> ParseAddr(tags, got + d) == Err(Short)
    ensures Demand(tags, got + d) == 0 ==>
              || (ParseAddr(tags, got + d).Ok? && ParseAddr(tags, got + d).used == |got + d|)
              || (|got + d| == 1 && ParseAddr(tags, got + d) == Err(Unsupported(d[0])))
  {
  }
}
