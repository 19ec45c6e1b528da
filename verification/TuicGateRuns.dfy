/** What the authentication gate of a TUIC connection lets through, when it opens, and what waiting at it costs. */
module TuicGateRuns {
  import opened Bytes
  import opened TuicPacket
  import opened TuicGate
  import S = TuicSessions

  // ---- Behind the gate ----

  // Nothing in es is a step of this loop, of its caller n, or a dissociate of its association.
  predicate LeavesAlone(es: seq<Event>, on: Which, n: nat, assoc: u16) {
    forall k | 0 <= k < |es| ::
      && !(es[k].Collect? && es[k].on == on)
      && !(es[k].Session? && StepOf(es[k].step, n))
      && !(es[k].Dissociate? && es[k].assoc == assoc)
  }

  predicate StepOf(e: S.Event, n: nat) {
    match e
    case Lookup(i) => i == n
    case Bind(i, _) => i == n
    case Install(i) => i == n
    case Spawn(i) => i == n
    case _ => false
  }

  // A loop in the middle of relaying p, and the association's entry in the session table.
  ghost predicate RelayingOn(g: Gate, on: Which, n: nat, p: Packet, progress: S.Progress, socket: nat) {
    && LoopOf(g, on) == Busy(n, p) && n < |g.work.sessions.callers| && g.work.sessions.callers[n] == S.Caller(p.assoc, progress)
    && p.assoc in g.work.sessions.table && g.work.sessions.table[p.assoc] == socket
  }

  lemma SessionLeavesAlone(s: S.Sessions, e: S.Event, n: nat, assoc: u16)
    requires n < |s.callers| && !StepOf(e, n) && e != S.Dissociate(assoc) && assoc in s.table
    ensures var t := S.Step(s, e);
            && n < |t.callers| && t.callers[n] == s.callers[n]
            && assoc in t.table && t.table[assoc] == s.table[assoc]
  {
  }

  lemma StepLeavesAlone(g: Gate, e: Event, on: Which, n: nat, p: Packet, progress: S.Progress, socket: nat)
    requires RelayingOn(g, on, n, p, progress, socket) && LeavesAlone([e], on, n, p.assoc)
    ensures RelayingOn(Step(g, e), on, n, p, progress, socket)
  {
    assert [e][0] == e;
    match e {
      case Session(step) =>
        if !step.Call? && !step.Dissociate? {
          SessionLeavesAlone(g.work.sessions, step, n, p.assoc);
        }
      case Dissociate(_, assoc) => SessionLeavesAlone(g.work.sessions, S.Dissociate(assoc), n, p.assoc);
      case _ =>
    }
  }

  lemma {:induction false} RunLeavesAlone(g: Gate, es: seq<Event>, on: Which, n: nat, p: Packet, progress: S.Progress, socket: nat)
    requires RelayingOn(g, on, n, p, progress, socket) && LeavesAlone(es, on, n, p.assoc)
    ensures RelayingOn(Run(g, es), on, n, p, progress, socket)
  {
    if es != [] {
      RunLeavesAlone(g, es[..|es| - 1], on, n, p, progress, socket);
      StepLeavesAlone(Run(g, es[..|es| - 1]), es[|es| - 1], on, n, p, progress, socket);
    }
  }

  lemma StartsRelaying(g: Gate, on: Which, body: seq<byte>, p: Packet)
    requires g.flags.auth && !g.flags.closed && !on.Bi? && LoopOf(g, on).Idle?
    requires ParsePacket(body) == Some(p) && p.assoc in g.work.sessions.table
    ensures RelayingOn(Step(g, PacketIn(on, body)), on, |g.work.sessions.callers|, p, S.Looking, g.work.sessions.table[p.assoc])
  {
  }

  lemma FindsSocket(g: Gate, on: Which, n: nat, p: Packet, socket: nat)
    requires RelayingOn(g, on, n, p, S.Looking, socket)
    ensures RelayingOn(Step(g, Session(S.Lookup(n))), on, n, p, S.Has(socket), socket)
  {
  }

  lemma SendsPacket(g: Gate, on: Which, n: nat, p: Packet, socket: nat)
    requires RelayingOn(g, on, n, p, S.Has(socket), socket) && p.total == 1
    ensures LoopOf(Step(g, Collect(on)), on) == Sending(|g.work.relays|, Sent(socket, p.addr, p.data))
    ensures Step(g, Collect(on)).work.fragments == g.work.fragments
  {
  }

  lemma StepKeepsSending(g: Gate, e: Event, on: Which, relay: nat, out: Sent)
    requires LoopOf(g, on) == Sending(relay, out) && !(e.Send? && e.on == on)
    ensures LoopOf(Step(g, e), on) == Sending(relay, out)
  {
  }

  lemma {:induction false} KeepsSending(g: Gate, es: seq<Event>, on: Which, relay: nat, out: Sent)
    requires LoopOf(g, on) == Sending(relay, out) && forall k | 0 <= k < |es| :: !(es[k].Send? && es[k].on == on)
    ensures LoopOf(Run(g, es), on) == Sending(relay, out)
  {
    if es != [] {
      KeepsSending(g, es[..|es| - 1], on, relay, out);
      StepKeepsSending(Run(g, es[..|es| - 1]), es[|es| - 1], on, relay, out);
    }
  }

  // Once authenticated, an unfragmented packet for an installed session goes out on its socket, unchanged, whatever other
  // loops and callers do between the steps of its relay: up to the lookup (a), to the end of it (b), and while the target is
  // resolved (c).
  lemma AuthenticatedPacketIsSent(g: Gate, on: Which, body: seq<byte>, p: Packet, a: seq<Event>, b: seq<Event>, c: seq<Event>,
                                  found: Gate, sending: Gate, u: Gate)
    requires g.flags.auth && !g.flags.closed && !on.Bi? && LoopOf(g, on).Idle?
    requires ParsePacket(body) == Some(p) && p.total == 1 && p.assoc in g.work.sessions.table
    requires LeavesAlone(a, on, |g.work.sessions.callers|, p.assoc) && LeavesAlone(b, on, |g.work.sessions.callers|, p.assoc)
    requires forall k | 0 <= k < |c| :: !(c[k].Send? && c[k].on == on)
    requires found == Step(Run(Step(g, PacketIn(on, body)), a), Session(S.Lookup(|g.work.sessions.callers|)))
    requires sending == Step(Run(found, b), Collect(on)) && u == Run(sending, c)
    ensures var t := Step(u, Send(on, true));
            && t.work.sent == u.work.sent + [Sent(g.work.sessions.table[p.assoc], p.addr, p.data)]
            && LoopOf(t, on).Idle?
  {
    var n, socket := |g.work.sessions.callers|, g.work.sessions.table[p.assoc];
    RelayFindsSocket(g, on, body, p, a, found);
    RunLeavesAlone(found, b, on, n, p, S.Has(socket), socket);
    SendsPacket(Run(found, b), on, n, p, socket);
    KeepsSending(sending, c, on, |Run(found, b).work.relays|, Sent(socket, p.addr, p.data));
    SendsOff(u, on, |Run(found, b).work.relays|, Sent(socket, p.addr, p.data));
  }

  lemma RelayFindsSocket(g: Gate, on: Which, body: seq<byte>, p: Packet, a: seq<Event>, found: Gate)
    requires g.flags.auth && !g.flags.closed && !on.Bi? && LoopOf(g, on).Idle?
    requires ParsePacket(body) == Some(p) && p.assoc in g.work.sessions.table
    requires LeavesAlone(a, on, |g.work.sessions.callers|, p.assoc)
    requires found == Step(Run(Step(g, PacketIn(on, body)), a), Session(S.Lookup(|g.work.sessions.callers|)))
    ensures var socket := g.work.sessions.table[p.assoc];
            RelayingOn(found, on, |g.work.sessions.callers|, p, S.Has(socket), socket)
  {
    var n, socket := |g.work.sessions.callers|, g.work.sessions.table[p.assoc];
    var busy := Step(g, PacketIn(on, body));
    StartsRelaying(g, on, body, p);
    RunLeavesAlone(busy, a, on, n, p, S.Looking, socket);
    FindsSocket(Run(busy, a), on, n, p, socket);
  }

  lemma SendsOff(u: Gate, on: Which, relay: nat, out: Sent)
    requires LoopOf(u, on) == Sending(relay, out)
    ensures Step(u, Send(on, true)).work.sent == u.work.sent + [out] && LoopOf(Step(u, Send(on, true)), on).Idle?
  {
  }

  // ---- The notifier's queue ----

  predicate Distinct(q: seq<Which>) { forall i, j | 0 <= i < j < |q| :: q[i] != q[j] }

  // The queue holds exactly the waiting loops, each once; a notification is stored only while nobody waits.
  ghost predicate QueueInv(g: Gate) {
    && Distinct(g.flags.queue)
    && (forall on: Which :: on in g.flags.queue <==> LoopOf(g, on).Waiting?)
    && (g.flags.stored ==> g.flags.queue == [])
  }

  // Leaving the queue moves those behind up, and nobody else.
  lemma {:induction false} WithoutLeaves(q: seq<Which>, on: Which)
    requires Distinct(q)
    ensures Distinct(Without(q, on)) && forall o: Which :: o in Without(q, on) <==> o in q && o != on
    ensures |Without(q, on)| <= |q|
  {
    if q != [] {
      var tail, left := q[1..], Without(q[1..], on);
      assert q == [q[0]] + tail;
      WithoutLeaves(tail, on);
      if q[0] == on {
        assert forall i | 0 <= i < |tail| :: tail[i] == q[i + 1];
        assert on !in tail;
      } else {
        assert Without(q, on) == [q[0]] + left && q[0] !in tail;
      }
    }
  }

  lemma {:induction false} WithoutMovesUp(q: seq<Which>, on: Which, i: nat)
    requires Distinct(q) && i < |q| && q[i] != on
    ensures exists j :: 0 <= j <= i && j < |Without(q, on)| && Without(q, on)[j] == q[i]
  {
    if q[0] == on {
      assert Without(q, on)[i - 1] == q[i];
    } else if i == 0 {
      assert Without(q, on)[0] == q[0];
    } else {
      WithoutMovesUp(q[1..], on, i - 1);
      var j :| 0 <= j <= i - 1 && j < |Without(q[1..], on)| && Without(q[1..], on)[j] == q[1..][i - 1];
      assert Without(q, on)[j + 1] == q[i];
    }
  }

  lemma TailLeaves(q: seq<Which>)
    requires Distinct(q) && q != []
    ensures Distinct(q[1..]) && forall o: Which :: o in q[1..] <==> o in q && o != q[0]
  {
    assert q == [q[0]] + q[1..];
  }

  lemma AuthenticatedKeepsQueue(g: Gate)
    requires QueueInv(g)
    ensures QueueInv(Authenticated(g))
  {
    if g.flags.queue != [] {
      TailLeaves(g.flags.queue);
      assert LoopOf(g, g.flags.queue[0]).Waiting?;
      assert Authenticated(g).flags.queue == g.flags.queue[1..];
      assert forall o: Which | o != g.flags.queue[0] :: LoopOf(Authenticated(g), o) == LoopOf(g, o);
    }
  }

  lemma RegisteredKeepsQueue(g: Gate, on: Which)
    requires QueueInv(g)
    ensures QueueInv(Registered(g, on))
  {
  }

  lemma TimedOutKeepsQueue(g: Gate, on: Which)
    requires QueueInv(g)
    ensures QueueInv(TimedOut(g, on))
  {
    WithoutLeaves(g.flags.queue, on);
    if g.flags.stored {
      assert Without(g.flags.queue, on) == [];
    }
  }

  lemma OthersKeepLoop(g: Gate, e: Event, on: Which)
    requires !e.Authenticate? && !e.Register? && !e.Timeout?
    ensures LoopOf(Step(g, e), on).Waiting? <==> LoopOf(g, on).Waiting?
  {
  }

  lemma OthersKeepFlags(g: Gate, e: Event)
    requires !e.Authenticate? && !e.Register? && !e.Timeout?
    ensures Step(g, e).flags.queue == g.flags.queue && Step(g, e).flags.stored == g.flags.stored
  {
  }

  lemma OthersKeepQueue(g: Gate, e: Event)
    requires QueueInv(g) && !e.Authenticate? && !e.Register? && !e.Timeout?
    ensures QueueInv(Step(g, e))
  {
    forall on: Which
      ensures LoopOf(Step(g, e), on).Waiting? <==> LoopOf(g, on).Waiting?
    {
      OthersKeepLoop(g, e, on);
    }
    OthersKeepFlags(g, e);
  }

  lemma StepKeepsQueue(g: Gate, e: Event)
    requires QueueInv(g)
    ensures QueueInv(Step(g, e))
  {
    match e {
      case Authenticate(_, _) =>
        if Accepted(g, e) {
          AuthenticatedKeepsQueue(g);
        }
      case Register(on) => RegisteredKeepsQueue(g, on);
      case Timeout(on) => TimedOutKeepsQueue(g, on);
      case _ => OthersKeepQueue(g, e);
    }
  }

  lemma {:induction false} RunKeepsQueue(g: Gate, es: seq<Event>)
    requires QueueInv(g)
    ensures QueueInv(Run(g, es))
  {
    if es != [] {
      RunKeepsQueue(g, es[..|es| - 1]);
      StepKeepsQueue(Run(g, es[..|es| - 1]), es[|es| - 1]);
    }
  }

  // ---- A notified loop runs on ----

  lemma StepStaysNotified(g: Gate, e: Event, on: Which, body: seq<byte>)
    requires LoopOf(g, on) == Notified(body) && e != Wake(on)
    ensures LoopOf(Step(g, e), on) == Notified(body)
  {
  }

  lemma {:induction false} StaysNotified(g: Gate, es: seq<Event>, on: Which, body: seq<byte>)
    requires LoopOf(g, on) == Notified(body) && forall k | 0 <= k < |es| :: es[k] != Wake(on)
    ensures LoopOf(Run(g, es), on) == Notified(body)
  {
    if es != [] {
      StaysNotified(g, es[..|es| - 1], on, body);
      StepStaysNotified(Run(g, es[..|es| - 1]), es[|es| - 1], on, body);
    }
  }

  // A TCP relay has started, or the relay of the packet has begun; what cannot be parsed is passed over.
  ghost predicate Started(u: Gate, t: Gate, on: Which, body: seq<byte>) {
    if on.Bi? then t.work == u.work.(tcp := u.work.tcp + 1) && t.bi.Idle?
    else match ParsePacket(body)
      case None => t.work == u.work && LoopOf(t, on).Idle?
      case Some(p) =>
        && LoopOf(t, on) == Busy(|u.work.sessions.callers|, p)
        && t.work.sessions == u.work.sessions.(callers := u.work.sessions.callers + [S.Caller(p.assoc, S.Looking)])
        && t.work == u.work.(sessions := t.work.sessions, log := t.work.log)
  }

  lemma NotifiedGoesOn(u: Gate, on: Which, body: seq<byte>)
    requires LoopOf(u, on) == Notified(body) && u.flags.auth
    ensures Started(u, Step(u, Wake(on)), on, body)
  {
  }

  lemma HeadIsNotified(g: Gate, on: Which, body: seq<byte>)
    requires LoopOf(g, on) == Waiting(body) && g.flags.queue != [] && g.flags.queue[0] == on
    ensures LoopOf(Authenticated(g), on) == Notified(body) && Authenticated(g).flags.auth
  {
  }

  // A datagram or a TCP stream that arrives before the authentication is not lost if it has waited longest: the authentication
  // picks its loop, and whatever others do until the loop runs on, its TCP relay then starts, or the relay of its packet.
  lemma EarlyArrivalIsNotLost(g: Gate, on: Which, body: seq<byte>, es: seq<Event>, t: Gate, u: Gate)
    requires LoopOf(g, on) == Waiting(body) && g.flags.queue != [] && g.flags.queue[0] == on
    requires Accepted(g, Authenticate(g.secret.uuid, g.secret.token)) && forall k | 0 <= k < |es| :: es[k] != Wake(on)
    requires t == Step(g, Authenticate(g.secret.uuid, g.secret.token)) && u == Run(t, es)
    ensures u.flags.auth && Started(u, Step(u, Wake(on)), on, body)
  {
    HeadIsNotified(g, on, body);
    StaysNotified(t, es, on, body);
    AuthenticationStays(t, es);
    NotifiedGoesOn(u, on, body);
  }

  // Nor is one whose loop found the flag unset and had not begun to wait when the authentication came upon an empty queue: the
  // notification is kept for the next loop that begins to wait, and whatever happens before that, this one then runs on at once.
  lemma LateWaiterIsNotLost(g: Gate, on: Which, body: seq<byte>, es: seq<Event>, t: Gate, u: Gate)
    requires LoopOf(g, on) == Checked(body) && g.flags.queue == []
    requires Accepted(g, Authenticate(g.secret.uuid, g.secret.token)) && forall k | 0 <= k < |es| :: !es[k].Register?
    requires t == Step(g, Authenticate(g.secret.uuid, g.secret.token)) && u == Run(t, es)
    ensures LoopOf(Step(u, Register(on)), on) == Notified(body) && Step(u, Register(on)).flags.auth
    ensures Started(Step(u, Register(on)), Step(Step(u, Register(on)), Wake(on)), on, body)
  {
    StaysStored(t, es, on, body);
    NotifiedGoesOn(Step(u, Register(on)), on, body);
  }

  predicate StoredFor(g: Gate, on: Which, body: seq<byte>) {
    LoopOf(g, on) == Checked(body) && g.flags.stored && g.flags.auth && g.flags.queue == []
  }

  lemma StoredStep(g: Gate, e: Event, on: Which, body: seq<byte>)
    requires StoredFor(g, on, body) && !e.Register?
    ensures StoredFor(Step(g, e), on, body)
  {
  }

  lemma {:induction false} StaysStored(g: Gate, es: seq<Event>, on: Which, body: seq<byte>)
    requires StoredFor(g, on, body) && forall k | 0 <= k < |es| :: !es[k].Register?
    ensures StoredFor(Run(g, es), on, body)
  {
    if es != [] {
      StaysStored(g, es[..|es| - 1], on, body);
      StoredStep(Run(g, es[..|es| - 1]), es[|es| - 1], on, body);
    }
  }

  // ---- Exactly when a connection authenticates ----

  // Before any authentication, this event ends the chance of one: a packet on a uni stream, or the end of a wait for
  // something that arrived before.
  ghost predicate Shuts(before: seq<Event>, e: Event) {
    || (e.PacketIn? && e.on.Uni?)
    || (e == Timeout(Datagram) && Waited(before, Datagram))
    || (e == Timeout(Bi) && Waited(before, Bi))
  }

  predicate ArrivesFor(e: Event, on: Which) {
    if on.Bi? then e.Connect? else e.PacketIn? && e.on == on
  }

  // Something has arrived for the loop; and the loop has begun to wait over it.
  predicate Arrived(es: seq<Event>, on: Which) {
    es != [] && (Arrived(es[..|es| - 1], on) || ArrivesFor(es[|es| - 1], on))
  }

  predicate Waited(es: seq<Event>, on: Which) {
    es != [] && (Waited(es[..|es| - 1], on) || (es[|es| - 1] == Register(on) && Arrived(es[..|es| - 1], on)))
  }

  predicate BeginsToWait(before: seq<Event>, e: Event) {
    e.Register? && Arrived(before, e.on) && !Waited(before, e.on)
  }

  // The loops that have begun to wait, in that order.
  function Order(es: seq<Event>): seq<Which> {
    if es == [] then [] else
    var before, e := es[..|es| - 1], es[|es| - 1];
    if BeginsToWait(before, e) then Order(before) + [e.on] else Order(before)
  }

  lemma HistorySnoc(before: seq<Event>, e: Event)
    ensures forall on: Which :: Arrived(before + [e], on) <==> Arrived(before, on) || ArrivesFor(e, on)
    ensures forall on: Which :: Waited(before + [e], on) <==> Waited(before, on) || (e == Register(on) && Arrived(before, on))
    ensures Order(before + [e]) == if BeginsToWait(before, e) then Order(before) + [e.on] else Order(before)
  {
    assert (before + [e])[..|before|] == before;
  }

  ghost predicate Shut(es: seq<Event>) {
    exists k: nat :: k < |es| && Shuts(es[..k], es[k])
  }

  ghost predicate InTime(secret: Secret, es: seq<Event>, k: nat) {
    k < |es| && es[k] == Authenticate(secret.uuid, secret.token) && !Shut(es[..k])
  }

  lemma ShutSnoc(before: seq<Event>, e: Event)
    ensures Shut(before + [e]) <==> Shut(before) || Shuts(before, e)
  {
    var es := before + [e];
    assert es[..|before|] == before && es[|before|] == e;
    assert forall k: nat | k < |before| :: es[..k] == before[..k] && es[k] == before[k];
    if Shut(before) {
      var k: nat :| k < |before| && Shuts(before[..k], before[k]);
      assert Shuts(es[..k], es[k]);
    }
    if Shuts(before, e) {
      assert Shuts(es[..|before|], es[|before|]);
    }
    if Shut(es) {
      var k: nat :| k < |es| && Shuts(es[..k], es[k]);
      assert k < |before| ==> Shuts(before[..k], before[k]);
    }
  }

  lemma InTimeSnoc(secret: Secret, before: seq<Event>, e: Event)
    ensures (exists k: nat :: InTime(secret, before + [e], k)) <==>
              (exists k: nat :: InTime(secret, before, k)) || (e == Authenticate(secret.uuid, secret.token) && !Shut(before))
  {
    var es := before + [e];
    assert es[..|before|] == before && es[|before|] == e;
    assert forall k: nat | k < |before| :: es[..k] == before[..k] && es[k] == before[k];
    if k: nat :| InTime(secret, before, k) {
      assert InTime(secret, es, k);
    }
    if e == Authenticate(secret.uuid, secret.token) && !Shut(before) {
      assert InTime(secret, es, |before|);
    }
    if k: nat :| InTime(secret, es, k) {
      assert k < |before| ==> InTime(secret, before, k);
    }
  }

  // A loop before authentication.
  predicate Early(l: Loop, arrived: bool, waited: bool) {
    if waited then l.Waiting? else if arrived then l.Checked? else l.Idle?
  }

  // Where a connection is while no authentication has come in time.
  ghost predicate NotYet(g: Gate, es: seq<Event>) {
    && !g.flags.auth && Outstanding(g) == 0
    && if Shut(es) then g.flags.closed || g.uni.Checked? || g.uni.Waiting? || g.uni.Stopped?
       else && g.uni.Idle? && !g.flags.closed && g.flags.queue == Order(es)
            && Early(g.datagram, Arrived(es, Datagram), Waited(es, Datagram))
            && Early(g.bi, Arrived(es, Bi), Waited(es, Bi))
  }

  lemma StepNotYet(g: Gate, before: seq<Event>, e: Event)
    requires NotYet(g, before) && !(e == Authenticate(g.secret.uuid, g.secret.token) && !Shut(before))
    ensures NotYet(Step(g, e), before + [e])
  {
    ShutSnoc(before, e);
    HistorySnoc(before, e);
    if Shut(before + [e]) {
      StepShut(g, before, e);
    } else {
      StepOpen(g, before, e);
    }
  }

  predicate StuckOrClosed(g: Gate) {
    !g.flags.auth && Outstanding(g) == 0 && (g.flags.closed || g.uni.Checked? || g.uni.Waiting? || g.uni.Stopped?)
  }

  lemma StaysShut(g: Gate, e: Event)
    requires StuckOrClosed(g)
    ensures StuckOrClosed(Step(g, e))
  {
  }

  lemma ShutsNow(g: Gate, e: Event)
    requires !g.flags.auth && Outstanding(g) == 0 && g.uni.Idle? && !g.flags.closed
    requires || (e.PacketIn? && e.on.Uni?) || (e == Timeout(Datagram) && g.datagram.Waiting?)
             || (e == Timeout(Bi) && g.bi.Waiting?)
    ensures StuckOrClosed(Step(g, e))
  {
  }

  lemma StepShut(g: Gate, before: seq<Event>, e: Event)
    requires NotYet(g, before) && (Shut(before) || Shuts(before, e))
    ensures StuckOrClosed(Step(g, e))
  {
    if Shut(before) {
      StaysShut(g, e);
    } else {
      ShutsNow(g, e);
    }
  }

  // An open gate, in terms of what has happened to each loop.
  predicate Open(g: Gate, queue: seq<Which>, dArrived: bool, dWaited: bool, bArrived: bool, bWaited: bool) {
    && !g.flags.auth && Outstanding(g) == 0 && g.uni.Idle? && !g.flags.closed && g.flags.queue == queue
    && Early(g.datagram, dArrived, dWaited) && Early(g.bi, bArrived, bWaited)
  }

  lemma OpenMoves(g: Gate, e: Event, dArrived: bool, dWaited: bool, bArrived: bool, bWaited: bool)
    requires Open(g, g.flags.queue, dArrived, dWaited, bArrived, bWaited)
    requires e != Authenticate(g.secret.uuid, g.secret.token) && !(e.PacketIn? && e.on.Uni?)
    requires !(e == Timeout(Datagram) && dWaited) && !(e == Timeout(Bi) && bWaited)
    ensures var registers := (e == Register(Datagram) && dArrived && !dWaited) || (e == Register(Bi) && bArrived && !bWaited);
            Open(Step(g, e), if registers then g.flags.queue + [e.on] else g.flags.queue,
                 dArrived || ArrivesFor(e, Datagram), dWaited || (e == Register(Datagram) && dArrived),
                 bArrived || ArrivesFor(e, Bi), bWaited || (e == Register(Bi) && bArrived))
  {
  }

  lemma StepOpen(g: Gate, before: seq<Event>, e: Event)
    requires NotYet(g, before) && !Shut(before) && !Shuts(before, e)
    requires e != Authenticate(g.secret.uuid, g.secret.token)
    ensures Open(Step(g, e),
                 if BeginsToWait(before, e) then Order(before) + [e.on] else Order(before),
                 Arrived(before, Datagram) || ArrivesFor(e, Datagram),
                 Waited(before, Datagram) || (e == Register(Datagram) && Arrived(before, Datagram)),
                 Arrived(before, Bi) || ArrivesFor(e, Bi), Waited(before, Bi) || (e == Register(Bi) && Arrived(before, Bi)))
  {
    UniNeverArrived(before);
    OpenMoves(g, e, Arrived(before, Datagram), Waited(before, Datagram), Arrived(before, Bi), Waited(before, Bi));
  }

  lemma {:induction false} UniNeverArrived(es: seq<Event>)
    requires !Shut(es)
    ensures !Arrived(es, Uni)
  {
    if es != [] {
      var before, e := es[..|es| - 1], es[|es| - 1];
      assert es == before + [e];
      ShutSnoc(before, e);
      UniNeverArrived(before);
    }
  }

  // In the client's own terms: a connection is authenticated exactly if the right command was sent while no packet had gone
  // out on a uni stream before it and no wait for an earlier datagram or TCP stream had run out.
  lemma {:induction false} AuthenticatesExactlyWhen(secret: Secret, es: seq<Event>)
    ensures Run(Init(secret), es).flags.auth <==> exists k: nat :: InTime(secret, es, k)
    ensures Run(Init(secret), es).secret == secret
    ensures !Run(Init(secret), es).flags.auth ==> NotYet(Run(Init(secret), es), es)
  {
    if es != [] {
      var before, e := es[..|es| - 1], es[|es| - 1];
      var g := Run(Init(secret), before);
      AuthenticatesExactlyWhen(secret, before);
      assert es == before + [e];
      InTimeSnoc(secret, before, e);
      FlagMoves(g, e);
      if !g.flags.auth {
        if e == Authenticate(secret.uuid, secret.token) && !Shut(before) {
          assert Accepted(g, e);
        } else {
          StepNotYet(g, before, e);
        }
      }
    }
  }

  // ---- Exactly which waits an authentication ends ----

  // How many of the events es are accepted authentications.
  function Accepts(g: Gate, es: seq<Event>): nat {
    if es == [] then 0
    else Accepts(g, es[..|es| - 1]) + if Accepted(Run(g, es[..|es| - 1]), es[|es| - 1]) then 1 else 0
  }

  // Somewhere in es the loop, picked by a notification, runs on with what it waited over.
  predicate Handled(g: Gate, es: seq<Event>, on: Which, body: seq<byte>) {
    es != [] && (Handled(g, es[..|es| - 1], on, body)
                 || (es[|es| - 1] == Wake(on) && LoopOf(Run(g, es[..|es| - 1]), on) == Notified(body)))
  }

  // Waiting at place i, or further up if somebody in front gave up, which closed the connection.
  ghost predicate AtPlace(g: Gate, on: Which, body: seq<byte>, i: nat) {
    && LoopOf(g, on) == Waiting(body)
    && exists j :: 0 <= j <= i && j < |g.flags.queue| && g.flags.queue[j] == on && (j < i ==> g.flags.closed)
  }

  lemma AcceptMovesUp(g: Gate, on: Which, body: seq<byte>, i: nat)
    requires QueueInv(g) && AtPlace(g, on, body, i) && !g.flags.closed
    ensures i == 0 ==> LoopOf(Authenticated(g), on) == Notified(body)
    ensures i > 0 ==> AtPlace(Authenticated(g), on, body, i - 1)
  {
    if i == 0 {
      HeadIsNotified(g, on, body);
    } else {
      assert g.flags.queue[0] != g.flags.queue[i];
      assert Authenticated(g).flags.queue[i - 1] == on;
    }
  }

  lemma TimeoutMovesUp(g: Gate, other: Which, on: Which, body: seq<byte>, i: nat)
    requires QueueInv(g) && AtPlace(g, on, body, i) && other != on
    ensures AtPlace(TimedOut(g, other), on, body, i)
  {
    if LoopOf(g, other).Waiting? {
      var j :| 0 <= j <= i && j < |g.flags.queue| && g.flags.queue[j] == on;
      WithoutMovesUp(g.flags.queue, other, j);
    }
  }

  lemma OthersKeepPlace(g: Gate, e: Event, on: Which, body: seq<byte>, i: nat)
    requires AtPlace(g, on, body, i) && !Accepted(g, e) && !e.Timeout?
    ensures AtPlace(Step(g, e), on, body, i)
  {
    var j :| 0 <= j <= i && j < |g.flags.queue| && g.flags.queue[j] == on && (j < i ==> g.flags.closed);
    assert Step(g, e).flags.queue[j] == on;
  }

  lemma StepMovesUp(g: Gate, e: Event, on: Which, body: seq<byte>, i: nat)
    requires QueueInv(g) && AtPlace(g, on, body, i) && e != Timeout(on)
    ensures var t := Step(g, e);
            if !Accepted(g, e) then AtPlace(t, on, body, i)
            else if i == 0 then LoopOf(t, on) == Notified(body)
            else AtPlace(t, on, body, i - 1)
  {
    if Accepted(g, e) {
      AcceptMovesUp(g, on, body, i);
    } else if e.Timeout? {
      TimeoutMovesUp(g, e.on, on, body, i);
    } else {
      OthersKeepPlace(g, e, on, body, i);
    }
  }

  // After n accepted authentications: still waiting, n places further up, or picked, and by now perhaps handled.
  ghost predicate Progress(t: Gate, handled: bool, on: Which, body: seq<byte>, i: nat, n: nat) {
    if n <= i then AtPlace(t, on, body, i - n) && !handled
    else handled || LoopOf(t, on) == Notified(body)
  }

  lemma StepProgress(t: Gate, e: Event, handled: bool, on: Which, body: seq<byte>, i: nat, n: nat)
    requires QueueInv(t) && Progress(t, handled, on, body, i, n) && e != Timeout(on)
    ensures Progress(Step(t, e), handled || (e == Wake(on) && LoopOf(t, on) == Notified(body)), on, body, i,
                     n + if Accepted(t, e) then 1 else 0)
  {
    if n <= i {
      StepMovesUp(t, e, on, body, i - n);
    } else if !handled && e != Wake(on) {
      StepStaysNotified(t, e, on, body);
    }
  }

  lemma {:induction false} RunProgress(g: Gate, es: seq<Event>, on: Which, body: seq<byte>, i: nat)
    requires QueueInv(g) && AtPlace(g, on, body, i) && forall k | 0 <= k < |es| :: es[k] != Timeout(on)
    ensures Progress(Run(g, es), Handled(g, es, on, body), on, body, i, Accepts(g, es))
  {
    if es != [] {
      var before, e := es[..|es| - 1], es[|es| - 1];
      RunProgress(g, before, on, body, i);
      RunKeepsQueue(g, before);
      StepProgress(Run(g, before), e, Handled(g, before, on, body), on, body, i, Accepts(g, before));
    }
  }

  // A wait at place i of the queue, in any state and any continuation in which it does not run out: its loop gets to run on,
  // by now or at once, exactly if more than i authentications have been accepted.
  lemma WaiterHandledExactlyWhen(g: Gate, es: seq<Event>, on: Which, body: seq<byte>, i: nat)
    requires QueueInv(g) && LoopOf(g, on) == Waiting(body) && i < |g.flags.queue| && g.flags.queue[i] == on
    requires forall k | 0 <= k < |es| :: es[k] != Timeout(on)
    ensures Handled(g, es + [Wake(on)], on, body) <==> Accepts(g, es) > i
  {
    RunProgress(g, es, on, body, i);
    assert (es + [Wake(on)])[..|es|] == es;
  }

  lemma InitialQueue(secret: Secret)
    ensures QueueInv(Init(secret))
  {
    assert forall on: Which :: !LoopOf(Init(secret), on).Waiting?;
  }

  // In the client's terms: of the datagram and the TCP stream that a connection waits over when it authenticates, the i-th to
  // begin waiting is handled exactly if more than i authentications come to be accepted while it waits; with one
  // authentication that is the first, and no other.
  lemma EarlyWaiterHandledExactlyWhen(secret: Secret, before: seq<Event>, es: seq<Event>, i: nat)
    requires !Run(Init(secret), before).flags.auth && !Shut(before) && i < |Order(before)|
    requires forall k | 0 <= k < |es| :: es[k] != Timeout(Order(before)[i])
    ensures var g, on := Run(Init(secret), before), Order(before)[i];
            && LoopOf(g, on).Waiting?
            && (Handled(g, es + [Wake(on)], on, LoopOf(g, on).body) <==> Accepts(g, es) > i)
  {
    var g, on := Run(Init(secret), before), Order(before)[i];
    AuthenticatesExactlyWhen(secret, before);
    InitialQueue(secret);
    RunKeepsQueue(Init(secret), before);
    assert g.flags.queue == Order(before);
    assert on in g.flags.queue;
    WaiterHandledExactlyWhen(g, es, on, LoopOf(g, on).body, i);
  }

  // So without a further accepted authentication a loop that is not picked waits on, or its wait runs out and closes the
  // connection, authenticated or not.
  ghost predicate Stuck(g: Gate, on: Which, l: Loop) {
    LoopOf(g, on) == l || (LoopOf(g, on).Stopped? && g.flags.closed)
  }

  lemma StuckStep(g: Gate, e: Event, on: Which, l: Loop)
    requires l.Waiting? && Stuck(g, on, l) && !Accepted(g, e)
    ensures Stuck(Step(g, e), on, l)
  {
  }

  lemma {:induction false} SecondWaiterIsStuck(g: Gate, on: Which, es: seq<Event>)
    requires LoopOf(g, on).Waiting? && Accepts(g, es) == 0
    ensures Stuck(Run(g, es), on, LoopOf(g, on))
  {
    if es != [] {
      SecondWaiterIsStuck(g, on, es[..|es| - 1]);
      StuckStep(Run(g, es[..|es| - 1]), es[|es| - 1], on, LoopOf(g, on));
    }
  }

  // A datagram and a TCP stream that arrive, in this order, before the authentication.
  function BothWait(secret: Secret, body: seq<byte>): Gate {
    Step(Step(Step(Step(Init(secret), PacketIn(Datagram, body)), Register(Datagram)), Connect), Register(Bi))
  }

  // It happens: the datagram's loop is picked, and the other's wait closes the authenticated connection.
  lemma SecondWaiterClosesConnection(secret: Secret, body: seq<byte>)
    ensures var picked := Step(BothWait(secret, body), Authenticate(secret.uuid, secret.token));
            && picked.flags.auth && !picked.flags.closed && picked.datagram.Notified? && picked.bi.Waiting?
            && Step(picked, Timeout(Bi)).flags.closed && Step(picked, Timeout(Bi)).bi.Stopped?
  {
    var both := BothWait(secret, body);
    assert both.flags.queue == [Datagram, Bi];
    assert Accepted(both, Authenticate(secret.uuid, secret.token));
  }

  // A second authentication picks the second loop, even before the first has run on.
  lemma TwoAuthenticationsPickBoth(secret: Secret, body: seq<byte>)
    ensures var auth := Authenticate(secret.uuid, secret.token);
            var picked := Step(Step(BothWait(secret, body), auth), auth);
            picked.datagram.Notified? && picked.bi.Notified? && picked.flags.auths == 2 && !picked.flags.stored
  {
    var both := BothWait(secret, body);
    assert both.flags.queue == [Datagram, Bi];
    assert both.flags.queue[1..] == [Bi];
    assert Accepted(both, Authenticate(secret.uuid, secret.token));
  }
}
