/** The TUIC commands on the wire, and the TCP relay behind `Connect`. */
module TuicCommands {
  import opened Bytes
  import opened Address
  import opened ChunkedRead
  import opened TuicPacket
  import opened TuicGate
  import V = Vless

  const CMD_AUTH: byte := 0x00
  const CMD_CONNECT: byte := 0x01
  const CMD_DISSOCIATE: byte := 0x03

  // ---- Uni streams and datagrams ----

  // The command a uni stream carries, if it is one that does something.
  function UniCommand(b: seq<byte>): Option<Event> {
    if |b| < 2 || b[0] != VER then None
    else if b[1] == CMD_AUTH && |b| >= 50 then Some(Authenticate(b[2..18], b[18..50]))
    else if b[1] == CMD_PACKET then Some(PacketIn(Uni, b[2..]))
    else if b[1] == CMD_DISSOCIATE && |b| >= 4 then Some(Dissociate(Uni, U16Of(b[2..4])))
    else None
  }

  function DatagramCommand(b: seq<byte>): Option<Event> {
    if |b| < 2 || b[0] != VER then None
    else if b[1] == CMD_PACKET then Some(PacketIn(Datagram, b[2..]))
    else if b[1] == CMD_DISSOCIATE && |b| >= 4 then Some(Dissociate(Datagram, U16Of(b[2..4])))
    else None
  }

  // One pass of the uni loop up to the command it acts on.
  method ReadUni(r: ChunkedReader) returns (e: Option<Event>)
    requires r.Valid()
    modifies r, r.rx
    ensures e == UniCommand(old(r.Contents()))
  {
    ghost var all := r.Contents();
    var cmd := r.ReadExact(2);
    if cmd.None? || cmd.value[0] != VER {
      return None;
    }
    assert cmd.value[1] == all[1] && r.Contents() == all[2..];
    if cmd.value[1] == CMD_AUTH {
      var rest := r.ReadExact(48);
      if rest.None? {
        return None;
      }
      assert rest.value[..16] == all[2..18] && rest.value[16..] == all[18..50];
      return Some(Authenticate(rest.value[..16], rest.value[16..]));
    } else if cmd.value[1] == CMD_PACKET {
      var body := V.Copy(r, None);
      return Some(PacketIn(Uni, body));
    } else if cmd.value[1] == CMD_DISSOCIATE {
      var assoc := r.ReadExact(2);
      if assoc.None? {
        return None;
      }
      assert assoc.value == all[2..4];
      return Some(Dissociate(Uni, U16Of(assoc.value)));
    }
    return None;
  }

  // What the commands look like: an authentication is a uuid and a token of 32 bytes, a packet its body, a dissociate the id from
  // its high byte down. Only the uni loop reads authentications; trailing bytes of short commands are ignored.
  lemma CommandsAreRead(uuid: seq<byte>, token: seq<byte>, body: seq<byte>, assoc: u16, rest: seq<byte>)
    requires |uuid| == 16 && |token| == 32
    ensures UniCommand([5, 0] + uuid + token + rest) == Some(Authenticate(uuid, token))
    ensures DatagramCommand([5, 0] + uuid + token + rest) == None
    ensures UniCommand([5, 2] + body) == Some(PacketIn(Uni, body)) && DatagramCommand([5, 2] + body) == Some(PacketIn(Datagram, body))
    ensures UniCommand([5, 3, assoc / 0x100, assoc % 0x100] + rest) == Some(Dissociate(Uni, assoc))
    ensures DatagramCommand([5, 3, assoc / 0x100, assoc % 0x100] + rest) == Some(Dissociate(Datagram, assoc))
  {
    var a, d := [5, 0] + uuid + token + rest, [5, 3, assoc / 0x100, assoc % 0x100] + rest;
    assert a[2..18] == uuid && a[18..50] == token;
    assert d[2..4] == U16Bytes(assoc);
    assert ([5, 2] + body)[2..] == body;
  }

  // And nothing else is a command.
  lemma NothingElseIsRead(b: seq<byte>)
    ensures UniCommand(b).Some? <==>
              |b| >= 2 && b[0] == 5 && ((b[1] == 0 && |b| >= 50) || b[1] == 2 || (b[1] == 3 && |b| >= 4))
    ensures DatagramCommand(b).Some? <==> |b| >= 2 && b[0] == 5 && (b[1] == 2 || (b[1] == 3 && |b| >= 4))
  {
  }

  // ---- TCP ----

  // `open_tcp`.
  method WriteConnect(target: Addr) returns (out: seq<byte>)
    ensures out == [5, 1] + Encode(TUIC, target)
  {
    var v := new ByteVec();
    v.Push(VER);
    v.Push(CMD_CONNECT);
    v.EncodeWithPort(TUIC, target);
    out := v.bytes;
  }

  // A complete request for a TCP relay.
  predicate ConnectRequest(b: seq<byte>) {
    |b| >= 2 && b[0] == 5 && b[1] == 1 && ParseAddr(TUIC, b[2..]).Ok?
  }

  // `handle_tcp`: nothing happens for anything but a complete request. For one its target is dialled, and if that succeeds bytes
  // are relayed, those behind the request to the target and the target's back: all of them, or the first ones if a copy is cut
  // short.
  method HandleTcp(recv: ChunkedReader, upstream: ChunkedReader, dials: Addr -> bool, upCut: Option<nat>, downCut: Option<nat>)
    returns (effects: seq<V.Effect>)
    requires recv.Valid() && upstream.Valid() && {recv, recv.rx} !! {upstream, upstream.rx}
    modifies recv, recv.rx, upstream, upstream.rx
    ensures effects != [] <==> ConnectRequest(old(recv.Contents()))
    ensures var all, back := old(recv.Contents()), old(upstream.Contents());
            ConnectRequest(all) ==>
              var p := ParseAddr(TUIC, all[2..]);
              && effects[0] == V.Dialed(p.addr)
              && if !dials(p.addr) then |effects| == 1
                 else
                   && |effects| == 2 && effects[1].Relayed? && 2 + p.used <= |all|
                   && V.CopyOf(effects[1].up, all[2 + p.used..], upCut) && V.CopyOf(effects[1].down, back, downCut)
  {
    ghost var all := recv.Contents();
    var ver := recv.ReadExact(1);
    if ver.None? {
      return [];
    }
    var cmd := recv.ReadExact(1);
    if cmd.None? {
      return [];
    }
    assert ver.value[0] == all[0] && cmd.value[0] == all[1] && recv.Contents() == all[2..];
    if ver.value[0] != VER || cmd.value[0] != CMD_CONNECT {
      return [];
    }
    var target := recv.ReadAddr(TUIC);
    if target.Failed? {
      return [];
    }
    effects := [V.Dialed(target.addr)];
    if !dials(target.addr) {
      return;
    }
    assert recv.Contents() == all[2 + ParseAddr(TUIC, all[2..]).used..];
    var up := V.Copy(recv, upCut);
    var down := V.Copy(upstream, downCut);
    effects := [V.Dialed(target.addr), V.Relayed(up, down)];
  }

  // What `open_tcp` and then the payload are to `handle_tcp`: a request for exactly the target, with exactly the payload behind it,
  // if and only if the host fits its length byte.
  lemma TcpEndToEnd(target: Addr, payload: seq<byte>)
    ensures var b := [5, 1] + Encode(TUIC, target) + payload;
            && (ConnectRequest(b) && ParseAddr(TUIC, b[2..]).addr == target <==> ShortHost(target))
            && (ShortHost(target) ==> b[2 + ParseAddr(TUIC, b[2..]).used..] == payload)
  {
    var b := [5, 1] + Encode(TUIC, target) + payload;
    EncodeThenParse(TUIC, target, payload);
    Assoc([5, 1], Encode(TUIC, target), payload);
    assert b[2..] == Encode(TUIC, target) + payload;
  }
}
