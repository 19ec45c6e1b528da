/** Everything that gets past the gate of a TUIC connection starts what it is for: TCP streams, packets and dissociates. */
module TuicStreams {
  import opened Bytes
  import opened TuicPacket
  import opened TuicReassembly
  import opened TuicGate
  import opened TuicRelays
  import S = TuicSessions

  // ---- TCP streams ----

  // A stream met by a free loop behind the gate, or one that waited and was notified.
  predicate StartsTcp(g: Gate, e: Event) {
    g.flags.auth && ((e == Connect && g.bi.Idle? && !g.flags.closed) || (e == Wake(Bi) && g.bi.Notified?))
  }

  function TcpStarts(g: Gate, es: seq<Event>): nat {
    if es == [] then 0 else
    var before, e := es[..|es| - 1], es[|es| - 1];
    TcpStarts(g, before) + if StartsTcp(Run(g, before), e) then 1 else 0
  }

  lemma StepStartsTcp(g: Gate, e: Event)
    ensures Step(g, e).work.tcp == g.work.tcp + if StartsTcp(g, e) then 1 else 0
    ensures StartsTcp(g, e) ==> Step(g, e).bi.Idle?
  {
  }

  // In every run the TCP relays started are exactly those; a loop that has started one is free for the next.
  lemma {:induction false} TcpExactly(g: Gate, es: seq<Event>)
    ensures Run(g, es).work.tcp == g.work.tcp + TcpStarts(g, es)
  {
    if es != [] {
      TcpExactly(g, es[..|es| - 1]);
      StepStartsTcp(Run(g, es[..|es| - 1]), es[|es| - 1]);
    }
  }

  // The TCP streams the connection has accepted.
  function Streams(g: Gate, es: seq<Event>): nat {
    if es == [] then 0 else
    var before, e := es[..|es| - 1], es[|es| - 1];
    Streams(g, before) + if e == Connect && Run(g, before).bi.Idle? && !Run(g, before).flags.closed then 1 else 0
  }

  function Held(l: Loop): nat { if l.Checked? || l.Waiting? || l.Notified? then 1 else 0 }

  function Lost(l: Loop): nat { if l.Stopped? then 1 else 0 }

  // Each of them has been started, or is held at the gate; at most one is lost, and then the loop is over.
  lemma {:induction false} NoStreamIsLost(secret: Secret, es: seq<Event>)
    ensures var g := Run(Init(secret), es);
            g.work.tcp + Held(g.bi) <= Streams(Init(secret), es) <= g.work.tcp + Held(g.bi) + Lost(g.bi)
    ensures !Run(Init(secret), es).bi.Busy? && !Run(Init(secret), es).bi.Sending?
  {
    if es != [] {
      NoStreamIsLost(secret, es[..|es| - 1]);
      StreamStep(Run(Init(secret), es[..|es| - 1]), es[|es| - 1]);
    }
  }

  lemma StreamStep(g: Gate, e: Event)
    requires !g.bi.Busy? && !g.bi.Sending?
    ensures var t := Step(g, e);
            && !t.bi.Busy? && !t.bi.Sending?
            && var more := if e == Connect && g.bi.Idle? && !g.flags.closed then 1 else 0;
               && t.work.tcp + Held(t.bi) <= g.work.tcp + Held(g.bi) + more
               && g.work.tcp + Held(g.bi) + Lost(g.bi) + more <= t.work.tcp + Held(t.bi) + Lost(t.bi)
  {
  }

  // ---- Packets ----

  // Behind the gate a free loop starts relaying any packet that can be parsed, and passes over any other; nothing else changes.
  lemma PacketStartsRelay(g: Gate, on: Which, body: seq<byte>)
    requires g.flags.auth && !g.flags.closed && !on.Bi? && LoopOf(g, on).Idle?
    ensures var t := Step(g, PacketIn(on, body));
            match ParsePacket(body)
            case None => t == g
            case Some(p) =>
              && t == SetLoop(g, on, Busy(|g.work.sessions.callers|, p)).(work := t.work)
              && t.work == g.work.(sessions := t.work.sessions, log := t.work.log)
              && t.work.sessions.callers == g.work.sessions.callers + [S.Caller(p.assoc, S.Looking)]
              && t.work.sessions.table == g.work.sessions.table && t.work.sessions.sockets == g.work.sessions.sockets
  {
  }

  lemma Then(secret: Secret, es: seq<Event>, g: Gate, e: Event) returns (es': seq<Event>, g': Gate)
    requires g == Run(Init(secret), es)
    ensures es' == es + [e] && g' == Step(g, e) == Run(Init(secret), es')
  {
    es', g' := es + [e], Step(g, e);
    assert es'[..|es|] == es;
  }

  // How far a caller is from its socket.
  function Distance(p: S.Progress): nat {
    match p case Looking => 4 case Binding => 3 case Installing(_) => 2 case Spawning(_) => 1 case _ => 0
  }

  // The caller's own next step.
  function NextStep(p: S.Progress, n: nat): S.Event {
    match p case Looking => S.Lookup(n) case Binding => S.Bind(n, true) case Installing(_) => S.Install(n) case _ => S.Spawn(n)
  }

  lemma NextIsCloser(s: S.Sessions, n: nat)
    requires S.Inv(s) && n < |s.callers| && Distance(s.callers[n].progress) > 0
    ensures var t := S.Step(s, NextStep(s.callers[n].progress, n));
            && n < |t.callers| && t.callers[n].assoc == s.callers[n].assoc
            && Distance(t.callers[n].progress) < Distance(s.callers[n].progress) && !t.callers[n].progress.Failed?
  {
    assert S.CallerOk(s, n);
  }

  // Nothing but the session table has changed.
  ghost predicate OnlySessions(g: Gate, t: Gate) {
    t == g.(work := g.work.(sessions := t.work.sessions, log := t.work.log))
  }

  lemma SessionThen(secret: Secret, es: seq<Event>, g: Gate, step: S.Event) returns (es': seq<Event>, g': Gate)
    requires g == Run(Init(secret), es) && !step.Call? && !step.Dissociate?
    ensures g' == Run(Init(secret), es') && OnlySessions(g, g') && g'.work.sessions == S.Step(g.work.sessions, step)
  {
    es', g' := Then(secret, es, g, Session(step));
  }

  lemma CloserThen(secret: Secret, es: seq<Event>, g: Gate, n: nat) returns (es': seq<Event>, g': Gate)
    requires g == Run(Init(secret), es) && n < |g.work.sessions.callers| && Distance(g.work.sessions.callers[n].progress) > 0
    ensures g' == Run(Init(secret), es') && OnlySessions(g, g') && n < |g'.work.sessions.callers|
    ensures Distance(g'.work.sessions.callers[n].progress) < Distance(g.work.sessions.callers[n].progress)
    ensures !g'.work.sessions.callers[n].progress.Failed?
  {
    RunRelays(secret, es);
    S.RunKeeps(S.Init(), g.work.log);
    NextIsCloser(g.work.sessions, n);
    es', g' := SessionThen(secret, es, g, NextStep(g.work.sessions.callers[n].progress, n));
  }

  lemma {:induction false} CanGetSocket(secret: Secret, es: seq<Event>, g: Gate, n: nat)
    returns (es': seq<Event>, g': Gate, socket: nat)
    requires g == Run(Init(secret), es) && n < |g.work.sessions.callers| && !g.work.sessions.callers[n].progress.Failed?
    ensures g' == Run(Init(secret), es') && OnlySessions(g, g')
    ensures n < |g'.work.sessions.callers| && g'.work.sessions.callers[n].progress == S.Has(socket)
    decreases Distance(g.work.sessions.callers[n].progress)
  {
    es', g' := es, g;
    if g.work.sessions.callers[n].progress.Has? {
      socket := g.work.sessions.callers[n].progress.socket;
    } else {
      es', g' := CloserThen(secret, es, g, n);
      es', g', socket := CanGetSocket(secret, es', g', n);
    }
  }

  // What relaying p on a socket comes to: its datagram, or a fragment more and the datagram it completes.
  ghost predicate RelayedOn(w: Work, t: Work, p: Packet, socket: nat) {
    && t.relays == w.relays + [Relayed(p, socket)]
    && if p.total == 1 then t.fragments == w.fragments && t.sent == w.sent + [Sent(socket, p.addr, p.data)]
       else
         var r := Accept(w.fragments, p);
         t.fragments == r.pieces && t.sent == if r.ready.Some? then w.sent + [Sent(socket, p.addr, r.ready.value)] else w.sent
  }

  lemma CanSend(secret: Secret, es: seq<Event>, g: Gate, on: Which, n: nat, p: Packet, socket: nat)
    returns (es': seq<Event>, g': Gate)
    requires g == Run(Init(secret), es) && LoopOf(g, on) == Busy(n, p)
    requires n < |g.work.sessions.callers| && g.work.sessions.callers[n].progress == S.Has(socket)
    ensures g' == Run(Init(secret), es') && LoopOf(g', on).Idle? && RelayedOn(g.work, g'.work, p, socket)
  {
    es', g' := CollectThen(secret, es, g, on, n, p, socket);
    if LoopOf(g', on).Sending? {
      es', g' := SendThen(secret, es', g', on);
    }
  }

  lemma CollectThen(secret: Secret, es: seq<Event>, g: Gate, on: Which, n: nat, p: Packet, socket: nat)
    returns (es': seq<Event>, g': Gate)
    requires g == Run(Init(secret), es) && LoopOf(g, on) == Busy(n, p)
    requires n < |g.work.sessions.callers| && g.work.sessions.callers[n].progress == S.Has(socket)
    ensures g' == Run(Init(secret), es') && g'.work.relays == g.work.relays + [Relayed(p, socket)] && g'.work.sent == g.work.sent
    ensures var r := Accept(g.work.fragments, p);
            var ready := if p.total == 1 then Some(p.data) else r.ready;
            && g'.work.fragments == (if p.total == 1 then g.work.fragments else r.pieces)
            && LoopOf(g', on) == if ready.Some? then Sending(|g.work.relays|, Sent(socket, p.addr, ready.value)) else Idle
  {
    es', g' := Then(secret, es, g, Collect(on));
  }

  lemma SendThen(secret: Secret, es: seq<Event>, g: Gate, on: Which) returns (es': seq<Event>, g': Gate)
    requires g == Run(Init(secret), es) && LoopOf(g, on).Sending?
    ensures g' == Run(Init(secret), es') && LoopOf(g', on).Idle? && g'.work.relays == g.work.relays
    ensures g'.work.fragments == g.work.fragments && g'.work.sent == g.work.sent + [LoopOf(g, on).out]
  {
    es', g' := Then(secret, es, g, Send(on, true));
  }

  // From every reachable state: a packet being relayed can be relayed to the end, whether its association had a session or not,
  // on a socket installed for that association; and the loop is then free again.
  lemma CanRelay(secret: Secret, es: seq<Event>, on: Which, n: nat, p: Packet) returns (es': seq<Event>, socket: nat)
    requires LoopOf(Run(Init(secret), es), on) == Busy(n, p)
    requires n < |Run(Init(secret), es).work.sessions.callers| ==> !Run(Init(secret), es).work.sessions.callers[n].progress.Failed?
    ensures var g, t := Run(Init(secret), es), Run(Init(secret), es');
            LoopOf(t, on).Idle? && RelayedOn(g.work, t.work, p, socket) && OwnSocket(t.work.sessions, socket, p)
  {
    var g := Run(Init(secret), es);
    RunAccounted(secret, es);
    var t: Gate;
    es', t, socket := CanGetSocket(secret, es, g, n);
    es', t := CanSend(secret, es', t, on, n, p, socket);
    RunAccounted(secret, es');
    assert RelayOk(t.work.relays[|t.work.relays| - 1], t.work.sessions, es');
  }

  // A packet whose session cannot be had is dropped, and the loop is free again.
  lemma FailedSessionFreesLoop(g: Gate, on: Which)
    requires LoopOf(g, on).Busy? && LoopOf(g, on).caller < |g.work.sessions.callers|
    requires g.work.sessions.callers[LoopOf(g, on).caller].progress.Failed?
    ensures Step(g, Collect(on)) == SetLoop(g, on, Idle)
  {
  }

  lemma FailedBindFails(g: Gate, n: nat)
    requires n < |g.work.sessions.callers| && g.work.sessions.callers[n].progress.Binding?
    ensures Step(g, Session(S.Bind(n, false))).work.sessions.callers[n].progress.Failed?
  {
  }

  // ---- Dissociates ----

  // A free loop carries out a dissociate, authenticated or not: the association's socket leaves the table, the others stay.
  lemma DissociateRemoves(g: Gate, on: Which, assoc: u16)
    requires !on.Bi? && LoopOf(g, on).Idle? && !g.flags.closed
    ensures var t := Step(g, Dissociate(on, assoc));
            && t.work.sessions.table == g.work.sessions.table - {assoc} && t.work.sessions.callers == g.work.sessions.callers
            && t.work.sessions.sockets == g.work.sessions.sockets && OnlySessions(g, t)
  {
  }

  // And nothing else does: an association keeps the socket it has until it is dissociated.
  lemma {:induction false} SocketStays(g: Gate, es: seq<Event>, assoc: u16)
    requires assoc in g.work.sessions.table
    requires forall k | 0 <= k < |es| :: !(es[k].Dissociate? && es[k].assoc == assoc)
    ensures var t := Run(g, es);
            assoc in t.work.sessions.table && t.work.sessions.table[assoc] == g.work.sessions.table[assoc]
  {
    if es != [] {
      SocketStays(g, es[..|es| - 1], assoc);
      SocketStaysStep(Run(g, es[..|es| - 1]), es[|es| - 1], assoc);
    }
  }

  lemma SocketStaysStep(g: Gate, e: Event, assoc: u16)
    requires assoc in g.work.sessions.table && !(e.Dissociate? && e.assoc == assoc)
    ensures var t := Step(g, e);
            assoc in t.work.sessions.table && t.work.sessions.table[assoc] == g.work.sessions.table[assoc]
  {
  }

  // ---- The end ----

  // A wait that runs out closes the connection and ends its loop, and a closed connection ends every free loop.
  lemma TimeoutCloses(g: Gate, on: Which)
    requires LoopOf(g, on).Waiting?
    ensures Step(g, Timeout(on)).flags.closed && LoopOf(Step(g, Timeout(on)), on).Stopped?
    ensures forall o: Which | LoopOf(g, o).Idle? :: LoopOf(Step(Step(g, Timeout(on)), Hangup(o)), o).Stopped?
  {
  }
}
