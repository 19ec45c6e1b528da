/**
 One TUIC server connection: the uni-stream, datagram and bi-stream loops sharing the authenticated flag, the notifier,
 the session table and the fragment map, interleaved at their await points. A run is any sequence of events; an event
 that is not enabled changes nothing.
*/
module TuicGate {
  import opened Bytes
  import opened Address
  import opened TuicPacket
  import opened TuicReassembly
  import S = TuicSessions

  datatype Which = Uni | Datagram | Bi

  datatype Loop =
    | Idle                                  // accepting the next stream or datagram
    | Checked(body: seq<byte>)              // found the flag unset, about to wait
    | Waiting(body: seq<byte>)              // in the timed wait, queued at the notifier
    | Notified(body: seq<byte>)             // picked by a notification, about to run on
    | Busy(caller: nat, packet: Packet)     // inside relay_udp, getting its session
    | Sending(relay: nat, out: Sent)        // inside relay_udp, resolving the target
    | Stopped

  datatype Secret = Secret(uuid: seq<byte>, token: seq<byte>)
  datatype Sent = Sent(socket: nat, addr: Addr, data: seq<byte>)
  datatype Relayed = Relayed(packet: Packet, socket: nat)
  datatype Finish = Finish(relay: nat, resolved: bool)

  datatype Flags = Flags(
    auth: bool,
    stored: bool,                // a notify_one that found nobody waiting
    queue: seq<Which>,           // loops waiting for a notification, the oldest first
    closed: bool,
    auths: nat, wakes: nat       // authentications accepted, waits ended by a notification
  )

  datatype Work = Work(
    sessions: S.Sessions,
    log: seq<S.Event>,           // what the session table has been through
    fragments: Fragments,
    arrivals: seq<Packet>,       // fragments accepted, in order
    completed: seq<Option<seq<byte>>>,
    relays: seq<Relayed>,        // packets that got their socket, in order
    sends: seq<Finish>,          // relays that resolved their target or failed to, in order
    sent: seq<Sent>,             // datagrams sent to their targets
    tcp: nat                     // TCP relays started
  )

  // The secret is the configured uuid and the token this connection exports for it.
  datatype Gate = Gate(secret: Secret, flags: Flags, uni: Loop, datagram: Loop, bi: Loop, work: Work)

  datatype Event =
    | Authenticate(uuid: seq<byte>, token: seq<byte>)   // on a uni stream
    | PacketIn(on: Which, body: seq<byte>)              // uni stream or datagram
    | Connect                                           // a bi stream is accepted
    | Dissociate(on: Which, assoc: u16)
    | Register(on: Which)                               // the wait is polled for the first time
    | Wake(on: Which)
    | Timeout(on: Which)
    | Hangup(on: Which)                                 // accepting fails on a closed connection
    | Session(step: S.Event)                            // a relaying loop's next step in ensure_session
    | Collect(on: Which)                                // relay_udp has its socket: the fragment is added
    | Send(on: Which, resolved: bool)                   // and the target resolved, or not

  function Init(secret: Secret): Gate {
    Gate(secret, Flags(false, false, [], false, 0, 0), Idle, Idle, Idle, Work(S.Init(), [], map[], [], [], [], [], [], 0))
  }

  function LoopOf(g: Gate, on: Which): Loop {
    match on case Uni => g.uni case Datagram => g.datagram case Bi => g.bi
  }

  function SetLoop(g: Gate, on: Which, l: Loop): Gate {
    match on
    case Uni => g.(uni := l)
    case Datagram => g.(datagram := l)
    case Bi => g.(bi := l)
  }

  function SessionStep(w: Work, e: S.Event): Work {
    w.(sessions := S.Step(w.sessions, e), log := w.log + [e])
  }

  // Past the gate: a TCP relay is spawned, or the packet is parsed and its relay begins.
  function Proceed(g: Gate, on: Which, body: seq<byte>): Gate {
    if on.Bi? then SetLoop(g, on, Idle).(work := g.work.(tcp := g.work.tcp + 1))
    else match ParsePacket(body)
      case None => SetLoop(g, on, Idle)
      case Some(p) =>
        SetLoop(g, on, Busy(|g.work.sessions.callers|, p)).(work := SessionStep(g.work, S.Call(p.assoc)))
  }

  // A loop that finds the flag unset is about to wait; otherwise it goes ahead.
  function AtGate(g: Gate, on: Which, body: seq<byte>): Gate {
    if !LoopOf(g, on).Idle? || g.flags.closed then g
    else if g.flags.auth then Proceed(g, on, body)
    else SetLoop(g, on, Checked(body))
  }

  // The wait begins: a stored notification ends it at once, otherwise the loop queues.
  function Registered(g: Gate, on: Which): Gate {
    var l := LoopOf(g, on);
    if !l.Checked? then g
    else if g.flags.stored then SetLoop(g, on, Notified(l.body)).(flags := g.flags.(stored := false))
    else SetLoop(g, on, Waiting(l.body)).(flags := g.flags.(queue := g.flags.queue + [on]))
  }

  // notify_one: to the loop that has waited longest, or stored if there is none.
  function NotifyOne(g: Gate): Gate {
    if g.flags.queue == [] then g.(flags := g.flags.(stored := true)) else
    var on := g.flags.queue[0];
    var rest := g.(flags := g.flags.(queue := g.flags.queue[1..]));
    match LoopOf(g, on)
    case Waiting(body) => SetLoop(rest, on, Notified(body))
    case _ => rest
  }

  function Authenticated(g: Gate): Gate {
    NotifyOne(g.(flags := g.flags.(auth := true, auths := g.flags.auths + 1)))
  }

  // A notified loop runs on: the flag is read again, and a loop that still finds it unset gives up.
  function Woken(g: Gate, on: Which): Gate {
    if !LoopOf(g, on).Notified? then g else
    var woken := g.(flags := g.flags.(wakes := g.flags.wakes + 1));
    if g.flags.auth then Proceed(woken, on, LoopOf(g, on).body)
    else SetLoop(woken, on, if on.Bi? then Stopped else Idle)
  }

  function Without(queue: seq<Which>, on: Which): seq<Which> {
    if queue == [] then []
    else if queue[0] == on then queue[1..]
    else [queue[0]] + Without(queue[1..], on)
  }

  // A wait that was not notified runs out: the loop leaves the queue, closes the connection and returns.
  function TimedOut(g: Gate, on: Which): Gate {
    if !LoopOf(g, on).Waiting? then g
    else SetLoop(g, on, Stopped).(flags := g.flags.(closed := true, queue := Without(g.flags.queue, on)))
  }

  // relay_udp once ensure_session has returned: an unfragmented packet is to be sent; a fragment is added under the lock, and
  // what it completes is to be sent.
  function CollectPacket(g: Gate, on: Which, p: Packet, socket: nat): Gate {
    var w, n := g.work, |g.work.relays|;
    var noted := w.(relays := w.relays + [Relayed(p, socket)]);
    if p.total == 1 then SetLoop(g, on, Sending(n, Sent(socket, p.addr, p.data))).(work := noted)
    else
      var r := Accept(w.fragments, p);
      var added := noted.(fragments := r.pieces, arrivals := w.arrivals + [p], completed := w.completed + [r.ready]);
      SetLoop(g, on, if r.ready.Some? then Sending(n, Sent(socket, p.addr, r.ready.value)) else Idle).(work := added)
  }

  function Collecting(g: Gate, on: Which): Gate {
    var l := LoopOf(g, on);
    if !l.Busy? || l.caller >= |g.work.sessions.callers| then g else
    match g.work.sessions.callers[l.caller].progress
    case Has(socket) => CollectPacket(g, on, l.packet, socket)
    case Failed => SetLoop(g, on, Idle)
    case _ => g
  }

  // The target is resolved, without any lock, and the datagram sent; or not.
  function SentOff(g: Gate, on: Which, resolved: bool): Gate {
    var l := LoopOf(g, on);
    if !l.Sending? then g
    else SetLoop(g, on, Idle).(work := g.work.(
           sends := g.work.sends + [Finish(l.relay, resolved)],
           sent := g.work.sent + if resolved then [l.out] else []))
  }

  function Step(g: Gate, e: Event): Gate {
    match e
    case Authenticate(_, _) =>
      if Accepted(g, e) then Authenticated(g) else g
    case PacketIn(on, body) => if on.Bi? then g else AtGate(g, on, body)
    case Connect => AtGate(g, Bi, [])
    case Dissociate(on, assoc) =>
      if on.Bi? || !LoopOf(g, on).Idle? || g.flags.closed then g
      else g.(work := SessionStep(g.work, S.Dissociate(assoc)))
    case Register(on) => Registered(g, on)
    case Wake(on) => Woken(g, on)
    case Timeout(on) => TimedOut(g, on)
    case Hangup(on) =>
      if !LoopOf(g, on).Idle? || !g.flags.closed then g else SetLoop(g, on, Stopped)
    case Session(step) =>
      if step.Call? || step.Dissociate? then g else g.(work := SessionStep(g.work, step))
    case Collect(on) => Collecting(g, on)
    case Send(on, resolved) => SentOff(g, on, resolved)
  }

  // An authentication command that the uni loop was there to read, with the right uuid and token.
  predicate Accepted(g: Gate, e: Event) {
    e == Authenticate(g.secret.uuid, g.secret.token) && g.uni.Idle? && !g.flags.closed
  }

  function Run(g: Gate, es: seq<Event>): Gate {
    if es == [] then g else Step(Run(g, es[..|es| - 1]), es[|es| - 1])
  }

  lemma {:induction false} RunConcat(g: Gate, a: seq<Event>, b: seq<Event>)
    ensures Run(g, a + b) == Run(Run(g, a), b)
  {
    if b == [] {
      assert a + b == a;
    } else {
      var k := |b| - 1;
      RunConcat(g, a, b[..k]);
      assert (a + b)[..|a + b| - 1] == a + b[..k];
    }
  }

  // ---- Authentication safety ----

  // Nothing has been relayed, stored or even started.
  predicate Untouched(w: Work) {
    && w.sessions == S.Init() && w.fragments == map[] && w.arrivals == [] && w.completed == []
    && w.relays == [] && w.sends == [] && w.sent == [] && w.tcp == 0
  }

  predicate Relaying(g: Gate) {
    g.uni.Busy? || g.datagram.Busy? || g.bi.Busy? || g.uni.Sending? || g.datagram.Sending? || g.bi.Sending?
  }

  // Notifications given out and not yet used: to a loop, or stored.
  function Outstanding(g: Gate): nat {
    (if g.uni.Notified? then 1 else 0) + (if g.datagram.Notified? then 1 else 0) + (if g.bi.Notified? then 1 else 0)
    + (if g.flags.stored then 1 else 0)
  }

  ghost predicate AuthInv(g: Gate) {
    && (!g.flags.auth ==> Untouched(g.work) && !Relaying(g) && Outstanding(g) == 0)
    && g.flags.wakes + Outstanding(g) <= g.flags.auths
  }

  lemma EmptyTableStays(e: S.Event)
    requires !e.Call?
    ensures S.Step(S.Init(), e) == S.Init()
  {
    if e.Dissociate? {
      assert S.Init().table - {e.assoc} == map[];
    }
  }

  // Only an accepted authentication moves the flag or gives out a notification; waits use up what was given out.
  lemma FlagMoves(g: Gate, e: Event)
    ensures var t := Step(g, e);
            && t.secret == g.secret
            && (t.flags.auth <==> g.flags.auth || Accepted(g, e))
            && t.flags.auths == g.flags.auths + (if Accepted(g, e) then 1 else 0)
            && t.flags.wakes + Outstanding(t) <= g.flags.wakes + Outstanding(g) + (if Accepted(g, e) then 1 else 0)
  {
  }

  lemma StaysUntouched(g: Gate, e: Event)
    requires !g.flags.auth && Outstanding(g) == 0 && Untouched(g.work) && !Relaying(g)
    ensures Untouched(Step(g, e).work) && !Relaying(Step(g, e))
    ensures !Accepted(g, e) ==> Outstanding(Step(g, e)) == 0
  {
    match e {
      case Dissociate(_, assoc) => EmptyTableStays(S.Dissociate(assoc));
      case Session(step) =>
        if !step.Call? {
          EmptyTableStays(step);
        }
      case _ =>
    }
  }

  ghost predicate AcceptedAt(secret: Secret, es: seq<Event>, k: nat) {
    k < |es| && Accepted(Run(Init(secret), es[..k]), es[k])
  }

  ghost predicate SomeAccepted(secret: Secret, es: seq<Event>) {
    exists k: nat :: AcceptedAt(secret, es, k)
  }

  lemma AcceptedSnoc(secret: Secret, before: seq<Event>, e: Event)
    ensures SomeAccepted(secret, before + [e]) <==>
              SomeAccepted(secret, before) || Accepted(Run(Init(secret), before), e)
  {
    var es := before + [e];
    assert es[..|before|] == before;
    assert forall k: nat | k < |before| :: es[..k] == before[..k] && es[k] == before[k];
    if SomeAccepted(secret, before) {
      var k: nat :| AcceptedAt(secret, before, k);
      assert AcceptedAt(secret, es, k);
    }
    if Accepted(Run(Init(secret), before), e) {
      assert AcceptedAt(secret, es, |before|);
    }
    if SomeAccepted(secret, es) {
      var k: nat :| AcceptedAt(secret, es, k);
      assert k < |before| ==> AcceptedAt(secret, before, k);
    }
  }

  // The gate, for every run: the flag is set exactly when an authentication with the configured uuid and its token
  // has been read; until then no packet is relayed, no TCP relay starts, no session or fragment exists. Waits end by
  // notification at most as often as authentications were accepted.
  lemma {:induction false} AuthenticationSafety(secret: Secret, es: seq<Event>)
    ensures var g := Run(Init(secret), es);
            && g.secret == secret
            && (g.flags.auth <==> SomeAccepted(secret, es))
            && AuthInv(g)
  {
    if es != [] {
      var before, e := es[..|es| - 1], es[|es| - 1];
      var g := Run(Init(secret), before);
      AuthenticationSafety(secret, before);
      assert es == before + [e];
      AcceptedSnoc(secret, before, e);
      FlagMoves(g, e);
      if !g.flags.auth {
        StaysUntouched(g, e);
      }
    }
  }

  lemma StepStays(g: Gate, e: Event)
    requires g.flags.auth
    ensures Step(g, e).flags.auth
  {
  }

  // Authentication is for good.
  lemma {:induction false} AuthenticationStays(g: Gate, es: seq<Event>)
    requires g.flags.auth
    ensures Run(g, es).flags.auth
  {
    if es != [] {
      AuthenticationStays(g, es[..|es| - 1]);
      StepStays(Run(g, es[..|es| - 1]), es[|es| - 1]);
    }
  }

  // ---- What the gate costs ----

  // The uni loop is stuck at the gate, or gone, with nothing to wake it.
  predicate Deaf(g: Gate) {
    !g.flags.auth && Outstanding(g) == 0 && (g.uni.Checked? || g.uni.Waiting? || g.uni.Stopped?)
  }

  lemma DeafStep(g: Gate, e: Event)
    requires Deaf(g)
    ensures Deaf(Step(g, e))
  {
  }

  lemma {:induction false} DeafForever(g: Gate, es: seq<Event>)
    requires Deaf(g)
    ensures Deaf(Run(g, es))
  {
    if es != [] {
      DeafForever(g, es[..|es| - 1]);
      DeafStep(Run(g, es[..|es| - 1]), es[|es| - 1]);
    }
  }

  // A packet that reaches the uni loop before the authentication does is fatal, in every run: the loop waits for a flag
  // that only it could set, so the connection never authenticates and never relays anything.
  lemma PacketBeforeAuthenticationIsFatal(secret: Secret, before: seq<Event>, body: seq<byte>, after: seq<Event>)
    requires var g := Run(Init(secret), before);
             !g.flags.auth && g.uni.Idle? && !g.flags.closed
    ensures var g := Run(Init(secret), before + [PacketIn(Uni, body)] + after);
            !g.flags.auth && Untouched(g.work)
  {
    AuthenticationSafety(secret, before);
    var es := before + [PacketIn(Uni, body)];
    assert es[..|es| - 1] == before;
    DeafForever(Run(Init(secret), es), after);
    RunConcat(Init(secret), es, after);
    AuthenticationSafety(secret, es + after);
  }

  // ---- The session table and the fragment map of a connection ----

  ghost predicate RelayInv(w: Work) {
    && w.sessions == S.Run(S.Init(), w.log)
    && w.fragments == Feed(map[], w.arrivals).pieces
    && w.completed == Feed(map[], w.arrivals).done
  }

  lemma LogGrows(w: Work, e: S.Event)
    requires RelayInv(w)
    ensures RelayInv(SessionStep(w, e))
  {
    assert (w.log + [e])[..|w.log|] == w.log;
  }

  // What collecting packet p on a socket does to the work.
  predicate CollectedWork(w: Work, t: Work, p: Packet, socket: nat) {
    && t.sessions == w.sessions && t.log == w.log && t.sends == w.sends && t.sent == w.sent
    && t.relays == w.relays + [Relayed(p, socket)]
    && if p.total == 1 then t.fragments == w.fragments && t.arrivals == w.arrivals && t.completed == w.completed
       else
         var r := Accept(w.fragments, p);
         t.fragments == r.pieces && t.arrivals == w.arrivals + [p] && t.completed == w.completed + [r.ready]
  }

  lemma RelayKeeps(w: Work, t: Work, p: Packet, socket: nat)
    requires RelayInv(w) && CollectedWork(w, t, p, socket)
    ensures RelayInv(t)
  {
    FeedLast(map[], w.arrivals, p);
  }

  // A step leaves the work alone but for what it sends and starts, steps the session table, or collects a packet.
  lemma WorkMoves(g: Gate, e: Event)
    ensures var w, t := g.work, Step(g, e).work;
            || t == w.(tcp := t.tcp, sends := t.sends, sent := t.sent)
            || (exists s: S.Event :: t == SessionStep(w, s))
            || (exists p: Packet, k: nat :: CollectedWork(w, t, p, k))
  {
    if e.Collect? {
      var l := LoopOf(g, e.on);
      if l.Busy? && l.caller < |g.work.sessions.callers| && g.work.sessions.callers[l.caller].progress.Has? {
        assert CollectedWork(g.work, Step(g, e).work, l.packet, g.work.sessions.callers[l.caller].progress.socket);
      }
    }
  }

  lemma StepKeepsRelay(g: Gate, e: Event)
    requires RelayInv(g.work)
    ensures RelayInv(Step(g, e).work)
  {
    WorkMoves(g, e);
    var w, t := g.work, Step(g, e).work;
    if s: S.Event :| t == SessionStep(w, s) {
      LogGrows(w, s);
    } else if p: Packet, k: nat :| CollectedWork(w, t, p, k) {
      RelayKeeps(w, t, p, k);
    }
  }

  // Every connection's session table and fragment map are a run of theirs, so what holds of those runs holds here.
  lemma {:induction false} RunRelays(secret: Secret, es: seq<Event>)
    ensures RelayInv(Run(Init(secret), es).work)
  {
    if es != [] {
      RunRelays(secret, es[..|es| - 1]);
      StepKeepsRelay(Run(Init(secret), es[..|es| - 1]), es[|es| - 1]);
    }
  }

  // Reassembly on a live connection: if the fragments accepted under k are those of one packet, each once, then
  // whatever the order and whatever both loops relay in between, exactly the last of them to be accepted completes it.
  lemma FragmentsReassemble(secret: Secret, es: seq<Event>, k: Key, frags: seq<seq<byte>>)
    requires frags != [] && FragmentsOf(Mine(Run(Init(secret), es).work.arrivals, k), frags)
    ensures var w := Run(Init(secret), es).work;
            && ListAt(w.fragments, k) == []
            && |w.completed| == |w.arrivals|
            && forall i | 0 <= i < |w.arrivals| && KeyOf(w.arrivals[i]) == k ::
                 w.completed[i] == if Mine(w.arrivals[i + 1..], k) == [] then Some(Flatten(frags)) else None
  {
    RunRelays(secret, es);
    ReassemblyInAnyOrder(map[], Run(Init(secret), es).work.arrivals, k, frags);
  }
}
