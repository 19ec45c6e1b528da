/** Every datagram a TUIC connection sends, accounted for: whose packet caused it, on which socket, and with what payload. */
module TuicRelays {
  import opened Bytes
  import opened TuicPacket
  import opened TuicReassembly
  import opened TuicGate
  import S = TuicSessions

  // The fragments among finished relays, in order.
  function Fragmented(rs: seq<Relayed>): seq<Packet> {
    if rs == [] then [] else
    var last := rs[|rs| - 1].packet;
    Fragmented(rs[..|rs| - 1]) + if last.total == 1 then [] else [last]
  }

  // What relay n had to send: its own data, or what its fragment completed.
  function Payload(rs: seq<Relayed>, completed: seq<Option<seq<byte>>>, n: nat): Option<seq<byte>>
    requires n < |rs|
  {
    var i := |Fragmented(rs[..n])|;
    if rs[n].packet.total == 1 then Some(rs[n].packet.data)
    else if i < |completed| then completed[i]
    else None
  }

  // The datagram relay n is to send, if it has a payload.
  function DatagramOf(rs: seq<Relayed>, completed: seq<Option<seq<byte>>>, n: nat): Option<Sent>
    requires n < |rs|
  {
    var payload := Payload(rs, completed, n);
    if payload.None? then None else Some(Sent(rs[n].socket, rs[n].packet.addr, payload.value))
  }

  // What the sends, in their order, have sent.
  function Outgoing(rs: seq<Relayed>, completed: seq<Option<seq<byte>>>, sends: seq<Finish>): seq<Sent> {
    if sends == [] then [] else
    var last := sends[|sends| - 1];
    var before := Outgoing(rs, completed, sends[..|sends| - 1]);
    if last.resolved && last.relay < |rs| && DatagramOf(rs, completed, last.relay).Some?
    then before + [DatagramOf(rs, completed, last.relay).value] else before
  }

  // The packet came in one of the events.
  ghost predicate Received(es: seq<Event>, p: Packet) {
    exists k :: 0 <= k < |es| && es[k].PacketIn? && ParsePacket(es[k].body) == Some(p)
  }

  ghost predicate Brought(es: seq<Event>, body: seq<byte>) {
    exists k :: 0 <= k < |es| && es[k].PacketIn? && es[k].body == body
  }

  // The socket was installed for the packet's association.
  ghost predicate OwnSocket(s: S.Sessions, socket: nat, p: Packet) {
    socket < |s.sockets| && s.sockets[socket].installed == Some(p.assoc)
  }

  ghost predicate LoopOk(l: Loop, bi: bool, s: S.Sessions, es: seq<Event>) {
    && (l.Busy? ==> !bi && l.caller < |s.callers| && s.callers[l.caller].assoc == l.packet.assoc && Received(es, l.packet))
    && ((l.Checked? || l.Waiting? || l.Notified?) && !bi ==> Brought(es, l.body))
  }

  ghost predicate RelayOk(r: Relayed, s: S.Sessions, es: seq<Event>) {
    OwnSocket(s, r.socket, r.packet) && Received(es, r.packet)
  }

  ghost predicate Ok(g: Gate, es: seq<Event>) {
    && LoopOk(g.uni, false, g.work.sessions, es) && LoopOk(g.datagram, false, g.work.sessions, es)
    && LoopOk(g.bi, true, g.work.sessions, es)
    && (forall n | 0 <= n < |g.work.relays| :: RelayOk(g.work.relays[n], g.work.sessions, es))
  }

  // ---- Sockets and callers stay what they are ----

  ghost predicate Grows(s: S.Sessions, t: S.Sessions) {
    && |s.callers| <= |t.callers| && |s.sockets| <= |t.sockets|
    && (forall i | 0 <= i < |s.callers| :: t.callers[i].assoc == s.callers[i].assoc)
    && (forall k | 0 <= k < |s.sockets| && s.sockets[k].installed.Some? :: t.sockets[k].installed == s.sockets[k].installed)
  }

  lemma SessionGrows(s: S.Sessions, e: S.Event)
    requires S.Inv(s)
    ensures Grows(s, S.Step(s, e))
  {
    if e.Install? && e.caller < |s.callers| && s.callers[e.caller].progress.Installing? {
      var mine := s.callers[e.caller].progress.socket;
      assert S.CallerOk(s, e.caller) && S.SocketOk(s, mine);
    }
  }

  lemma OkGrows(l: Loop, bi: bool, s: S.Sessions, t: S.Sessions, es: seq<Event>, e: Event)
    requires LoopOk(l, bi, s, es) && Grows(s, t)
    ensures LoopOk(l, bi, t, es + [e])
  {
    assert forall k | 0 <= k < |es| :: (es + [e])[k] == es[k];
    if l.Busy? {
      ReceivedGrows(es, e, l.packet);
    }
    if (l.Checked? || l.Waiting? || l.Notified?) && !bi {
      var k :| 0 <= k < |es| && es[k].PacketIn? && es[k].body == l.body;
      assert (es + [e])[k] == es[k];
    }
  }

  lemma ReceivedGrows(es: seq<Event>, e: Event, p: Packet)
    requires Received(es, p)
    ensures Received(es + [e], p)
  {
    var k :| 0 <= k < |es| && es[k].PacketIn? && ParsePacket(es[k].body) == Some(p);
    assert (es + [e])[k] == es[k];
  }

  lemma RelaysGrow(rs: seq<Relayed>, s: S.Sessions, t: S.Sessions, es: seq<Event>, e: Event)
    requires forall n | 0 <= n < |rs| :: RelayOk(rs[n], s, es)
    requires Grows(s, t)
    ensures forall n | 0 <= n < |rs| :: RelayOk(rs[n], t, es + [e])
  {
    forall n | 0 <= n < |rs|
      ensures RelayOk(rs[n], t, es + [e])
    {
      assert RelayOk(rs[n], s, es);
      ReceivedGrows(es, e, rs[n].packet);
    }
  }

  // ---- One step ----

  // What a step does to loops and relays.
  ghost predicate Moves(g: Gate, e: Event, t: Gate, on: Which) {
    var l, m := LoopOf(g, on), LoopOf(t, on);
    || m == l || m.Idle? || m.Stopped? || m.Sending?
    || (m.Checked? && (on.Bi? || (e.PacketIn? && e.body == m.body)))
    || (m.Waiting? && l == Checked(m.body)) || (m.Notified? && (l == Checked(m.body) || l == Waiting(m.body)))
    || (m.Busy? && !on.Bi? && t.work.sessions == S.Step(g.work.sessions, S.Call(m.packet.assoc))
        && m.caller == |g.work.sessions.callers|
        && ((e.PacketIn? && ParsePacket(e.body) == Some(m.packet)) || (l.Notified? && ParsePacket(l.body) == Some(m.packet))))
  }

  lemma StepMoves(g: Gate, e: Event, on: Which)
    ensures Moves(g, e, Step(g, e), on)
  {
  }

  lemma SessionsMove(g: Gate, e: Event)
    ensures var t := Step(g, e);
            t.work.sessions == g.work.sessions || exists x: S.Event :: t.work.sessions == S.Step(g.work.sessions, x)
  {
    WorkMoves(g, e);
  }

  // A step adds at most one relay: that of a busy loop whose caller has its socket.
  ghost predicate Finishes(g: Gate, t: Gate) {
    || t.work.relays == g.work.relays
    || (exists on: Which ::
          var l := LoopOf(g, on);
          && l.Busy? && l.caller < |g.work.sessions.callers| && g.work.sessions.callers[l.caller].progress.Has?
          && t.work.sessions == g.work.sessions
          && t.work.relays == g.work.relays + [Relayed(l.packet, g.work.sessions.callers[l.caller].progress.socket)])
  }

  lemma StepFinishes(g: Gate, e: Event)
    ensures Finishes(g, Step(g, e))
  {
    if e.Collect? {
      var l := LoopOf(g, e.on);
      if l.Busy? && l.caller < |g.work.sessions.callers| && g.work.sessions.callers[l.caller].progress.Has? {
        var t := Step(g, e);
        assert t.work.relays == g.work.relays + [Relayed(l.packet, g.work.sessions.callers[l.caller].progress.socket)];
      }
    }
  }

  lemma LoopStays(g: Gate, e: Event, es: seq<Event>, on: Which)
    requires LoopOk(LoopOf(g, on), on.Bi?, g.work.sessions, es) && Grows(g.work.sessions, Step(g, e).work.sessions)
    ensures LoopOk(LoopOf(Step(g, e), on), on.Bi?, Step(g, e).work.sessions, es + [e])
  {
    StepMoves(g, e, on);
    var l, m := LoopOf(g, on), LoopOf(Step(g, e), on);
    assert (es + [e])[|es|] == e;
    if m == l {
      OkGrows(l, on.Bi?, g.work.sessions, Step(g, e).work.sessions, es, e);
    } else if (l.Checked? || l.Waiting? || l.Notified?) && !on.Bi? {
      var k :| 0 <= k < |es| && es[k].PacketIn? && es[k].body == l.body;
      assert (es + [e])[k] == es[k];
    }
  }

  lemma StepOk(g: Gate, e: Event, es: seq<Event>)
    requires Ok(g, es) && S.Inv(g.work.sessions)
    ensures Ok(Step(g, e), es + [e])
  {
    var t := Step(g, e);
    SessionsMove(g, e);
    if x: S.Event :| t.work.sessions == S.Step(g.work.sessions, x) {
      SessionGrows(g.work.sessions, x);
    }
    LoopStays(g, e, es, Uni);
    LoopStays(g, e, es, Datagram);
    LoopStays(g, e, es, Bi);
    RelaysGrow(g.work.relays, g.work.sessions, t.work.sessions, es, e);
    StepFinishes(g, e);
    if t.work.relays != g.work.relays {
      var on: Which :|
        var l := LoopOf(g, on);
        && l.Busy? && l.caller < |g.work.sessions.callers| && g.work.sessions.callers[l.caller].progress.Has?
        && t.work.sessions == g.work.sessions
        && t.work.relays == g.work.relays + [Relayed(l.packet, g.work.sessions.callers[l.caller].progress.socket)];
      LastRelayOk(g, es, e, on);
    }
  }

  lemma LastRelayOk(g: Gate, es: seq<Event>, e: Event, on: Which)
    requires S.Inv(g.work.sessions) && LoopOk(LoopOf(g, on), on.Bi?, g.work.sessions, es) && LoopOf(g, on).Busy?
    requires g.work.sessions.callers[LoopOf(g, on).caller].progress.Has?
    ensures var l := LoopOf(g, on);
            && OwnSocket(g.work.sessions, g.work.sessions.callers[l.caller].progress.socket, l.packet)
            && Received(es + [e], l.packet)
  {
    assert S.CallerOk(g.work.sessions, LoopOf(g, on).caller);
    ReceivedGrows(es, e, LoopOf(g, on).packet);
  }

  // ---- The account ----

  // Relay n has been resolved or given up.
  predicate Done(sends: seq<Finish>, n: nat) { exists k :: 0 <= k < |sends| && sends[k].relay == n }

  predicate InHand(g: Gate, on: Which, n: nat) { LoopOf(g, on).Sending? && LoopOf(g, on).relay == n }

  ghost predicate SomeHand(g: Gate, n: nat) { exists on: Which :: InHand(g, on, n) }

  // A loop about to send has its relay's datagram, and nobody else has it or has sent it.
  ghost predicate HandOk(g: Gate, on: Which) {
    LoopOf(g, on).Sending? ==>
      var n, w := LoopOf(g, on).relay, g.work;
      && n < |w.relays| && DatagramOf(w.relays, w.completed, n) == Some(LoopOf(g, on).out) && !Done(w.sends, n)
      && forall o: Which :: InHand(g, o, n) ==> o == on
  }

  // Every relay that has a datagram has been sent or given up once, or is in some loop's hands.
  ghost predicate Accounted(g: Gate) {
    var w := g.work;
    && w.arrivals == Fragmented(w.relays) && |w.completed| == |w.arrivals|
    && (forall k | 0 <= k < |w.sends| ::
          w.sends[k].relay < |w.relays| && DatagramOf(w.relays, w.completed, w.sends[k].relay).Some?)
    && (forall k, m | 0 <= k < m < |w.sends| :: w.sends[k].relay != w.sends[m].relay)
    && (forall on: Which :: HandOk(g, on))
    && (forall n: nat | n < |w.relays| && DatagramOf(w.relays, w.completed, n).Some? :: Done(w.sends, n) || SomeHand(g, n))
    && w.sent == Outgoing(w.relays, w.completed, w.sends)
  }

  lemma FragmentedSnoc(rs: seq<Relayed>, r: Relayed)
    ensures Fragmented(rs + [r]) == Fragmented(rs) + if r.packet.total == 1 then [] else [r.packet]
  {
    assert (rs + [r])[..|rs|] == rs;
  }

  lemma {:induction false} FragmentIndex(rs: seq<Relayed>, n: nat)
    requires n < |rs|
    ensures |Fragmented(rs[..n])| + (if rs[n].packet.total == 1 then 0 else 1) <= |Fragmented(rs)|
  {
    var before := rs[..|rs| - 1];
    if n < |rs| - 1 {
      FragmentIndex(before, n);
      assert before[..n] == rs[..n];
    }
  }

  // A relay's datagram is settled once and for all.
  lemma DatagramStays(rs: seq<Relayed>, completed: seq<Option<seq<byte>>>, r: Relayed, more: seq<Option<seq<byte>>>, n: nat)
    requires n < |rs| && |Fragmented(rs)| == |completed| && completed <= more
    ensures DatagramOf(rs + [r], more, n) == DatagramOf(rs, completed, n)
  {
    FragmentIndex(rs, n);
    assert (rs + [r])[..n] == rs[..n];
  }

  lemma {:induction false} OutgoingStays(rs: seq<Relayed>, completed: seq<Option<seq<byte>>>, r: Relayed,
                                         more: seq<Option<seq<byte>>>, sends: seq<Finish>)
    requires |Fragmented(rs)| == |completed| && completed <= more
    requires forall k | 0 <= k < |sends| :: sends[k].relay < |rs|
    ensures Outgoing(rs + [r], more, sends) == Outgoing(rs, completed, sends)
  {
    if sends != [] {
      OutgoingStays(rs, completed, r, more, sends[..|sends| - 1]);
      DatagramStays(rs, completed, r, more, sends[|sends| - 1].relay);
    }
  }

  // The last relay's datagram: its own data, or what its fragment completed.
  lemma LastDatagram(rs: seq<Relayed>, completed: seq<Option<seq<byte>>>, r: Relayed, ready: Option<seq<byte>>)
    requires |Fragmented(rs)| == |completed|
    ensures var more := if r.packet.total == 1 then completed else completed + [ready];
            var payload := if r.packet.total == 1 then Some(r.packet.data) else ready;
            DatagramOf(rs + [r], more, |rs|)
            == if payload.None? then None else Some(Sent(r.socket, r.packet.addr, payload.value))
  {
    assert (rs + [r])[..|rs|] == rs;
  }

  // Collecting, as the account sees it: one more relay, and its datagram in the loop's hands if it has one.
  ghost predicate Collects(g: Gate, t: Gate, on: Which, r: Relayed, more: seq<Option<seq<byte>>>) {
    var w, n := g.work, |g.work.relays|;
    && LoopOf(g, on).Busy? && (forall o: Which | o != on :: LoopOf(t, o) == LoopOf(g, o))
    && t.work.relays == w.relays + [r] && t.work.completed == more && w.completed <= more
    && t.work.arrivals == Fragmented(t.work.relays) && |more| == |t.work.arrivals|
    && t.work.sends == w.sends && t.work.sent == w.sent
    && (match DatagramOf(t.work.relays, more, n)
        case Some(d) => LoopOf(t, on) == Sending(n, d)
        case None => LoopOf(t, on).Idle?)
  }

  lemma PacketCollects(g: Gate, on: Which, p: Packet, socket: nat)
    requires Accounted(g) && LoopOf(g, on).Busy?
    ensures var t := CollectPacket(g, on, p, socket);
            Collects(g, t, on, Relayed(p, socket), t.work.completed)
  {
    var w := g.work;
    FragmentedSnoc(w.relays, Relayed(p, socket));
    LastDatagram(w.relays, w.completed, Relayed(p, socket), Accept(w.fragments, p).ready);
  }

  lemma HandsAfterCollect(g: Gate, t: Gate, on: Which, r: Relayed, more: seq<Option<seq<byte>>>)
    requires Accounted(g) && Collects(g, t, on, r, more)
    ensures forall o: Which :: HandOk(t, o)
  {
    var w, n := g.work, |g.work.relays|;
    assert !Done(w.sends, n);
    forall o: Which
      ensures HandOk(t, o)
    {
      assert HandOk(g, o);
      if o != on && LoopOf(g, o).Sending? {
        DatagramStays(w.relays, w.completed, r, more, LoopOf(g, o).relay);
        forall x: Which | InHand(t, x, LoopOf(g, o).relay)
          ensures x == o
        {
          assert x != on ==> InHand(g, x, LoopOf(g, o).relay);
        }
      }
      if o == on && LoopOf(t, on).Sending? {
        forall x: Which | InHand(t, x, n)
          ensures x == on
        {
          assert HandOk(g, x);
        }
      }
    }
  }

  lemma SettledAfterCollect(g: Gate, t: Gate, on: Which, r: Relayed, more: seq<Option<seq<byte>>>)
    requires Accounted(g) && Collects(g, t, on, r, more)
    ensures forall m: nat | m < |t.work.relays| && DatagramOf(t.work.relays, more, m).Some? :: Done(t.work.sends, m) || SomeHand(t, m)
  {
    var w := g.work;
    forall m: nat | m < |t.work.relays| && DatagramOf(t.work.relays, more, m).Some?
      ensures Done(t.work.sends, m) || SomeHand(t, m)
    {
      if m == |w.relays| {
        assert InHand(t, on, m);
      } else {
        DatagramStays(w.relays, w.completed, r, more, m);
        if !Done(w.sends, m) {
          var o: Which :| InHand(g, o, m);
          assert InHand(t, o, m);
        }
      }
    }
  }

  lemma CollectAccounted(g: Gate, t: Gate, on: Which, r: Relayed, more: seq<Option<seq<byte>>>)
    requires Accounted(g) && Collects(g, t, on, r, more)
    ensures Accounted(t)
  {
    var w := g.work;
    HandsAfterCollect(g, t, on, r, more);
    SettledAfterCollect(g, t, on, r, more);
    OutgoingStays(w.relays, w.completed, r, more, w.sends);
    forall k | 0 <= k < |w.sends|
      ensures DatagramOf(t.work.relays, more, w.sends[k].relay).Some?
    {
      DatagramStays(w.relays, w.completed, r, more, w.sends[k].relay);
    }
  }

  lemma DoneSnoc(sends: seq<Finish>, f: Finish)
    ensures forall n: nat :: Done(sends + [f], n) <==> Done(sends, n) || f.relay == n
  {
    forall n: nat
      ensures Done(sends + [f], n) <==> Done(sends, n) || f.relay == n
    {
      if Done(sends, n) {
        var k :| 0 <= k < |sends| && sends[k].relay == n;
        assert (sends + [f])[k].relay == n;
      }
      if f.relay == n {
        assert (sends + [f])[|sends|].relay == n;
      }
    }
  }

  // Sending, as the account sees it.
  ghost predicate Finishing(g: Gate, t: Gate, on: Which, resolved: bool) {
    var l := LoopOf(g, on);
    && l.Sending? && LoopOf(t, on).Idle? && (forall o: Which | o != on :: LoopOf(t, o) == LoopOf(g, o))
    && t.work.relays == g.work.relays && t.work.completed == g.work.completed && t.work.arrivals == g.work.arrivals
    && t.work.sends == g.work.sends + [Finish(l.relay, resolved)]
    && t.work.sent == g.work.sent + if resolved then [l.out] else []
  }

  lemma SendAccounted(g: Gate, t: Gate, on: Which, resolved: bool)
    requires Accounted(g) && Finishing(g, t, on, resolved)
    ensures Accounted(t)
  {
    var w, n := g.work, LoopOf(g, on).relay;
    var f := Finish(n, resolved);
    assert HandOk(g, on);
    DoneSnoc(w.sends, f);
    HandsAfterSend(g, t, on, resolved);
    assert (w.sends + [f])[..|w.sends|] == w.sends;
    assert forall k | 0 <= k < |w.sends| :: w.sends[k].relay != n;
    forall m: nat | m < |w.relays| && DatagramOf(w.relays, w.completed, m).Some?
      ensures Done(t.work.sends, m) || SomeHand(t, m)
    {
      if !Done(w.sends, m) && m != n {
        var o: Which :| InHand(g, o, m);
        assert InHand(t, o, m);
      }
    }
  }

  lemma HandsAfterSend(g: Gate, t: Gate, on: Which, resolved: bool)
    requires Accounted(g) && Finishing(g, t, on, resolved)
    ensures forall o: Which :: HandOk(t, o)
  {
    DoneSnoc(g.work.sends, Finish(LoopOf(g, on).relay, resolved));
    forall o: Which
      ensures HandOk(t, o)
    {
      assert HandOk(g, o) && HandOk(g, on);
      if o != on && LoopOf(g, o).Sending? {
        assert InHand(g, o, LoopOf(g, o).relay);
        forall x: Which | InHand(t, x, LoopOf(g, o).relay)
          ensures x == o
        {
          assert InHand(g, x, LoopOf(g, o).relay);
        }
      }
    }
  }

  // Any other step leaves the account alone.
  ghost predicate Apart(g: Gate, t: Gate) {
    && t.work.relays == g.work.relays && t.work.completed == g.work.completed && t.work.arrivals == g.work.arrivals
    && t.work.sends == g.work.sends && t.work.sent == g.work.sent
    && forall o: Which :: LoopOf(t, o) == LoopOf(g, o) || (!LoopOf(t, o).Sending? && !LoopOf(g, o).Sending?)
  }

  lemma ApartAccounted(g: Gate, t: Gate)
    requires Accounted(g) && Apart(g, t)
    ensures Accounted(t)
  {
    assert forall o: Which, n: nat :: InHand(t, o, n) <==> InHand(g, o, n);
    forall o: Which
      ensures HandOk(t, o)
    {
      assert HandOk(g, o);
    }
    forall m: nat | SomeHand(g, m)
      ensures SomeHand(t, m)
    {
      var o: Which :| InHand(g, o, m);
      assert InHand(t, o, m);
    }
  }

  lemma StepIsApart(g: Gate, e: Event)
    requires !e.Send?
    requires e.Collect? ==> !(LoopOf(g, e.on).Busy? && LoopOf(g, e.on).caller < |g.work.sessions.callers|
                              && g.work.sessions.callers[LoopOf(g, e.on).caller].progress.Has?)
    ensures Apart(g, Step(g, e))
  {
  }

  lemma StepAccounted(g: Gate, e: Event)
    requires Accounted(g)
    ensures Accounted(Step(g, e))
  {
    var l := if e.Collect? || e.Send? then LoopOf(g, e.on) else Idle;
    if e.Collect? && l.Busy? && l.caller < |g.work.sessions.callers| && g.work.sessions.callers[l.caller].progress.Has? {
      var socket := g.work.sessions.callers[l.caller].progress.socket;
      PacketCollects(g, e.on, l.packet, socket);
      CollectAccounted(g, Step(g, e), e.on, Relayed(l.packet, socket), Step(g, e).work.completed);
    } else if e.Send? {
      if l.Sending? {
        assert Finishing(g, Step(g, e), e.on, e.resolved);
        SendAccounted(g, Step(g, e), e.on, e.resolved);
      }
    } else {
      StepIsApart(g, e);
      ApartAccounted(g, Step(g, e));
    }
  }

  lemma StepKeepsAccount(g: Gate, e: Event, es: seq<Event>)
    requires Accounted(g) && Ok(g, es) && RelayInv(g.work)
    ensures Accounted(Step(g, e)) && Ok(Step(g, e), es + [e])
  {
    S.RunKeeps(S.Init(), g.work.log);
    StepOk(g, e, es);
    StepAccounted(g, e);
  }

  lemma {:induction false} RunAccounted(secret: Secret, es: seq<Event>)
    ensures Accounted(Run(Init(secret), es)) && Ok(Run(Init(secret), es), es)
  {
    if es != [] {
      var before, e := es[..|es| - 1], es[|es| - 1];
      RunAccounted(secret, before);
      RunRelays(secret, before);
      assert es == before + [e];
      StepKeepsAccount(Run(Init(secret), before), e, before);
    }
  }

  // In every run the datagrams sent are, in the order of the sends, those of relays that had a payload, their own or the one
  // their fragment completed, and whose target resolved: each to the address of the packet that caused it, on a socket
  // installed for that packet's association. No relay sends twice; every one that has a payload has been sent or given up, or
  // some loop is about to; and every packet is one that came in.
  lemma DatagramsAccounted(secret: Secret, es: seq<Event>)
    ensures var g := Run(Init(secret), es);
            var w := g.work;
            && w.sent == Outgoing(w.relays, w.completed, w.sends)
            && (forall k, m | 0 <= k < m < |w.sends| :: w.sends[k].relay != w.sends[m].relay)
            && (forall n: nat | n < |w.relays| && DatagramOf(w.relays, w.completed, n).Some? :: Done(w.sends, n) || SomeHand(g, n))
            && w.arrivals == Fragmented(w.relays) && w.completed == Feed(map[], w.arrivals).done
            && (forall n | 0 <= n < |w.relays| ::
                  OwnSocket(w.sessions, w.relays[n].socket, w.relays[n].packet) && Received(es, w.relays[n].packet))
  {
    RunAccounted(secret, es);
    RunRelays(secret, es);
    var w := Run(Init(secret), es).work;
    assert forall n | 0 <= n < |w.relays| :: RelayOk(w.relays[n], w.sessions, es);
  }

  lemma {:induction false} OutgoingFrom(rs: seq<Relayed>, completed: seq<Option<seq<byte>>>, sends: seq<Finish>, x: Sent)
    returns (n: nat)
    requires x in Outgoing(rs, completed, sends)
    ensures n < |rs| && DatagramOf(rs, completed, n) == Some(x)
  {
    var last, before := sends[|sends| - 1], sends[..|sends| - 1];
    if x in Outgoing(rs, completed, before) {
      n := OutgoingFrom(rs, completed, before, x);
    } else {
      n := last.relay;
    }
  }

  // So any single datagram has a packet that came in to answer for it.
  lemma EveryDatagramIsJustified(secret: Secret, es: seq<Event>, x: Sent)
    requires x in Run(Init(secret), es).work.sent
    ensures var w := Run(Init(secret), es).work;
            exists n | 0 <= n < |w.relays| ::
              var p := w.relays[n].packet;
              && Received(es, p) && OwnSocket(w.sessions, x.socket, p) && x.addr == p.addr
              && Payload(w.relays, w.completed, n) == Some(x.data)
  {
    DatagramsAccounted(secret, es);
    var w := Run(Init(secret), es).work;
    var n := OutgoingFrom(w.relays, w.completed, w.sends, x);
    assert Received(es, w.relays[n].packet);
  }
}
