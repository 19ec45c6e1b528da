/** UDP through TUIC, from the client's call to the datagram the server sends, and from a reply to the session it is for. */
module TuicEndToEnd {
  import opened Bytes
  import opened Address
  import opened TuicPacket
  import opened TuicGate
  import opened TuicGateRuns
  import opened TuicCommands
  import C = TuicClient
  import S = TuicSessions

  // The packet a client's `send_to` writes.
  function Outbound(assoc: u16, target: Addr, data: seq<byte>): Packet {
    Packet(assoc, 0, 1, 0, target, data)
  }

  // The command the bytes are to the loop that gets them.
  function CommandOn(on: Which, b: seq<byte>): Option<Event> {
    if on.Uni? then UniCommand(b) else DatagramCommand(b)
  }

  // What the client sends to a target whose host fits goes out, unchanged, from the association's socket to that target,
  // whatever other loops and callers do between the steps of its relay.
  lemma UdpUploadEndToEnd(g: Gate, on: Which, assoc: u16, target: Addr, data: seq<byte>, wire: seq<byte>, e: Event,
                          a: seq<Event>, b: seq<Event>, c: seq<Event>, found: Gate, sending: Gate, u: Gate)
    requires g.flags.auth && !g.flags.closed && !on.Bi? && LoopOf(g, on).Idle? && assoc in g.work.sessions.table
    requires ShortHost(target) && |data| <= 0xFFFF && CommandOn(on, wire) == Some(e)
    requires wire == [5, 2, assoc / 0x100, assoc % 0x100, 0, 0, 1, 0, |data| / 0x100, |data| % 0x100] + Encode(TUIC, target) + data
    requires LeavesAlone(a, on, |g.work.sessions.callers|, assoc) && LeavesAlone(b, on, |g.work.sessions.callers|, assoc)
    requires forall k | 0 <= k < |c| :: !(c[k].Send? && c[k].on == on)
    requires found == Step(Run(Step(g, e), a), Session(S.Lookup(|g.work.sessions.callers|)))
    requires sending == Step(Run(found, b), Collect(on)) && u == Run(sending, c)
    ensures Step(u, Send(on, true)).work.sent == u.work.sent + [Sent(g.work.sessions.table[assoc], target, data)]
  {
    var p := Outbound(assoc, target, data);
    OnTheWire(assoc, target, data);
    var body := ([VER, CMD_PACKET] + Body(p))[2..];
    assert e == PacketIn(on, body) && body == Body(p);
    PacketRoundTrip(p, []);
    assert Body(p) + [] == Body(p);
    AuthenticatedPacketIsSent(g, on, body, p, a, b, c, found, sending, u);
  }

  // What the server's reader writes for a datagram from src is queued, unchanged, for the session that owns the association,
  // if it has room.
  lemma UdpReplyEndToEnd(before: seq<C.Event>, h: nat, src: Addr, data: seq<byte>, dns: Option<Addr>)
    requires h < |C.Run(before).sessions| && !src.Domain? && |data| <= 0xFFFF
    requires C.Owner(before, C.IdOf(h)) == Some(h) && C.Room(C.Run(before), h)
    ensures var reply := [VER, CMD_PACKET] + Body(Outbound(C.IdOf(h), src, data));
            var s, t := C.Run(before).sessions[h], C.Step(C.Run(before), C.Arrive(reply, dns)).sessions[h];
            t.received + t.queue == s.received + s.queue + [C.Reply(src, data)]
  {
    C.ReplyIsRouted(C.IdOf(h), src, data, dns);
    C.RunKeepsTable(before);
    C.StepGives(C.Run(before), before, C.Arrive([VER, CMD_PACKET] + Body(Outbound(C.IdOf(h), src, data)), dns), h);
  }
}
