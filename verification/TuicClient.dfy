/**
 The client's UDP sessions: association ids from a wrapping counter, and one datagram reader that routes every reply to
 the session its association id names. A run is any sequence of events.
*/
module TuicClient {
  import opened Bytes
  import opened Address
  import opened TuicPacket

  const UDP_QUEUE_CAPACITY := 256
  const IDS := 0x1_0000

  datatype Reply = Reply(from: Addr, data: seq<byte>)

  /** One `TuicUdp`: the replies waiting in its channel, and those its holder has received. */
  datatype Session = Session(assoc: u16, routed: bool, queue: seq<Reply>, received: seq<Reply>, alive: bool)

  // Routes are never removed; sessions are numbered in the order they fetch their ids.
  datatype Client = Client(next: u16, routes: map<u16, nat>, sessions: seq<Session>)

  datatype Event =
    | Fetch                                            // `open_udp` takes the next id
    | Insert(session: nat)                             // and then inserts its route
    | Arrive(datagram: seq<byte>, dns: Option<Addr>)   // dns is what a domain in it resolves to
    | Recv(session: nat)
    | Drop(session: nat)

  function Init(): Client { Client(1, map[], []) }

  // The association a datagram is for and the reply in it; anything else is skipped.
  datatype Routed = Routed(assoc: u16, reply: Reply)

  function Route(datagram: seq<byte>, dns: Option<Addr>): Option<Routed> {
    if |datagram| < 2 || datagram[0] != VER || datagram[1] != CMD_PACKET then None else
    match ParsePacket(datagram[2..])
    case None => None
    case Some(p) =>
      if !p.addr.Domain? then Some(Routed(p.assoc, Reply(p.addr, p.data)))
      else if dns.Some? then Some(Routed(p.assoc, Reply(dns.value, p.data)))
      else None
  }

  // try_send: the reply is dropped if the channel is full or its receiver gone.
  function Offer(s: Session, r: Reply): Session {
    if s.alive && |s.queue| < UDP_QUEUE_CAPACITY then s.(queue := s.queue + [r]) else s
  }

  function Take(s: Session): Session {
    if s.alive && s.queue != [] then s.(queue := s.queue[1..], received := s.received + [s.queue[0]]) else s
  }

  function Step(c: Client, e: Event): Client {
    match e
    case Fetch =>
      Client((c.next + 1) % IDS, c.routes, c.sessions + [Session(c.next, false, [], [], true)])
    case Insert(h) =>
      if h >= |c.sessions| || c.sessions[h].routed then c
      else c.(routes := c.routes[c.sessions[h].assoc := h], sessions := c.sessions[h := c.sessions[h].(routed := true)])
    case Arrive(d, dns) =>
      var r := Route(d, dns);
      if r.None? || r.value.assoc !in c.routes || c.routes[r.value.assoc] >= |c.sessions| then c else
      var h := c.routes[r.value.assoc];
      c.(sessions := c.sessions[h := Offer(c.sessions[h], r.value.reply)])
    case Recv(h) =>
      if h >= |c.sessions| then c else c.(sessions := c.sessions[h := Take(c.sessions[h])])
    case Drop(h) =>
      if h >= |c.sessions| then c else c.(sessions := c.sessions[h := c.sessions[h].(alive := false)])
  }

  function RunFrom(c: Client, es: seq<Event>): Client {
    if es == [] then c else Step(RunFrom(c, es[..|es| - 1]), es[|es| - 1])
  }

  function Run(es: seq<Event>): Client { RunFrom(Init(), es) }

  lemma {:induction false} StaysFetched(c: Client, es: seq<Event>, h: nat)
    requires h < |c.sessions| && !c.sessions[h].routed && forall k | 0 <= k < |es| :: es[k] != Insert(h)
    ensures var t := RunFrom(c, es);
            h < |t.sessions| && !t.sessions[h].routed && t.sessions[h].assoc == c.sessions[h].assoc
  {
    if es != [] {
      StaysFetched(c, es[..|es| - 1], h);
    }
  }

  /** The client as its tasks use it. */
  class UdpClient {
    var next: u16
    var routes: map<u16, nat>
    var sessions: seq<Session>

    ghost function State(): Client reads this { Client(next, routes, sessions) }

    constructor ()
      ensures State() == Init()
    {
      next, routes, sessions := 1, map[], [];
    }

    method FetchId() returns (session: nat, assoc: u16)
      modifies this`next, this`sessions
      ensures State() == Step(old(State()), Fetch)
      ensures session == |old(sessions)| && assoc == old(next)
    {
      assoc := next;
      next := (next + 1) % IDS;
      session := |sessions|;
      sessions := sessions + [Session(assoc, false, [], [], true)];
    }

    method InsertRoute(session: nat)
      requires session < |sessions| && !sessions[session].routed
      modifies this`routes, this`sessions
      ensures State() == Step(old(State()), Insert(session))
    {
      routes := routes[sessions[session].assoc := session];
      sessions := sessions[session := sessions[session].(routed := true)];
    }

    // What other tasks do in between.
    method Others(es: seq<Event>)
      modifies this
      ensures State() == RunFrom(old(State()), es)
    {
      for k := 0 to |es|
        invariant State() == RunFrom(old(State()), es[..k])
      {
        assert es[..k + 1][..k] == es[..k];
        var c := Step(Client(next, routes, sessions), es[k]);
        next, routes, sessions := c.next, c.routes, c.sessions;
      }
      assert es[..|es|] == es;
    }

    // `open_udp`: the atomic fetch, whatever others do before it gets the lock, and the insertion.
    method OpenUdp(meanwhile: seq<Event>) returns (session: nat, assoc: u16)
      requires forall k | 0 <= k < |meanwhile| :: meanwhile[k] != Insert(|sessions|)
      modifies this
      ensures session == |old(sessions)| && assoc == old(next)
      ensures State() == Step(RunFrom(Step(old(State()), Fetch), meanwhile), Insert(session))
      ensures assoc in routes && routes[assoc] == session
    {
      session, assoc := FetchId();
      StaysFetched(State(), meanwhile, session);
      Others(meanwhile);
      InsertRoute(session);
    }

    // One pass of the datagram reader.
    method OnDatagram(d: seq<byte>, dns: Option<Addr>)
      modifies this`sessions
      ensures State() == Step(old(State()), Arrive(d, dns))
    {
      if |d| < 2 || d[0] != VER || d[1] != CMD_PACKET {
        return;
      }
      var p := ParsePacket(d[2..]);
      if p.None? || p.value.assoc !in routes || routes[p.value.assoc] >= |sessions| {
        return;
      }
      var h := routes[p.value.assoc];
      var from := if p.value.addr.Domain? then dns else Some(p.value.addr);
      if from.Some? {
        var s := sessions[h];
        if s.alive && |s.queue| < UDP_QUEUE_CAPACITY {
          sessions := sessions[h := s.(queue := s.queue + [Reply(from.value, p.value.data)])];
        } else {
          assert sessions[h := s] == sessions;
        }
      }
    }

    // The holder of a session receives; None while nothing is queued.
    method Recv(session: nat) returns (r: Option<Reply>)
      requires session < |sessions| && sessions[session].alive
      modifies this`sessions
      ensures State() == Step(old(State()), Event.Recv(session))
      ensures r == if old(sessions[session].queue) == [] then None else Some(old(sessions[session].queue[0]))
      ensures r.Some? ==>
                var s := old(sessions[session]);
                sessions == old(sessions)[session := s.(queue := s.queue[1..], received := s.received + [r.value])]
    {
      var s := sessions[session];
      if s.queue == [] {
        assert sessions[session := s] == sessions;
        return None;
      }
      sessions := sessions[session := s.(queue := s.queue[1..], received := s.received + [s.queue[0]])];
      return Some(s.queue[0]);
    }
  }

  // ---- Which session an id names ----

  // Ids are given out in turn, from 1, and wrap at 65536.
  function IdOf(session: nat): u16 { (session + 1) % 65536 }

  function Fetches(es: seq<Event>): nat {
    if es == [] then 0 else Fetches(es[..|es| - 1]) + if es[|es| - 1].Fetch? then 1 else 0
  }

  // Session h has its route inserted.
  predicate Inserted(es: seq<Event>, h: nat) {
    es != [] && (Inserted(es[..|es| - 1], h) || (es[|es| - 1] == Insert(h) && h < Fetches(es[..|es| - 1])))
  }

  // The event e, coming after `before`, inserts a route for id a.
  predicate InsertsFor(before: seq<Event>, e: Event, a: u16) {
    e.Insert? && IdOf(e.session) == a && e.session < Fetches(before) && !Inserted(before, e.session)
  }

  // The session whose route for id a was inserted last.
  function Owner(es: seq<Event>, a: u16): Option<nat> {
    if es == [] then None
    else if InsertsFor(es[..|es| - 1], es[|es| - 1], a) then Some(es[|es| - 1].session)
    else Owner(es[..|es| - 1], a)
  }

  ghost predicate Table(c: Client, es: seq<Event>) {
    && |c.sessions| == Fetches(es) && c.next == IdOf(|c.sessions|)
    && (forall h | 0 <= h < |c.sessions| ::
          c.sessions[h].assoc == IdOf(h) && (c.sessions[h].routed <==> Inserted(es, h)))
    && (forall a: u16 :: Owner(es, a) == if a in c.routes then Some(c.routes[a]) else None)
    && (forall a | a in c.routes :: c.routes[a] < |c.sessions| && IdOf(c.routes[a]) == a)
  }

  lemma IdsWrap(n: nat)
    ensures IdOf(n + 65536) == IdOf(n) && (IdOf(n) + 1) % 65536 == IdOf(n + 1)
  {
  }

  lemma {:induction false} InsertedAreFetched(es: seq<Event>, h: nat)
    requires Inserted(es, h)
    ensures h < Fetches(es)
  {
    if Inserted(es[..|es| - 1], h) {
      InsertedAreFetched(es[..|es| - 1], h);
    }
  }

  lemma HistorySnoc(es: seq<Event>, e: Event)
    ensures Fetches(es + [e]) == Fetches(es) + if e.Fetch? then 1 else 0
    ensures forall h: nat :: Inserted(es + [e], h) <==> Inserted(es, h) || (e == Insert(h) && h < Fetches(es))
    ensures forall a: u16 :: Owner(es + [e], a) == if InsertsFor(es, e, a) then Some(e.session) else Owner(es, a)
  {
    assert (es + [e])[..|es|] == es;
  }

  lemma FetchKeepsTable(c: Client, es: seq<Event>)
    requires Table(c, es)
    ensures Table(Step(c, Fetch), es + [Fetch])
  {
    HistorySnoc(es, Fetch);
    IdsWrap(|c.sessions|);
    if Inserted(es, |c.sessions|) {
      InsertedAreFetched(es, |c.sessions|);
    }
  }

  lemma StepKeepsTable(c: Client, es: seq<Event>, e: Event)
    requires Table(c, es)
    ensures Table(Step(c, e), es + [e])
  {
    if e.Fetch? {
      FetchKeepsTable(c, es);
    } else {
      HistorySnoc(es, e);
    }
  }

  lemma {:induction false} RunKeepsTable(es: seq<Event>)
    ensures Table(Run(es), es)
  {
    if es != [] {
      RunKeepsTable(es[..|es| - 1]);
      assert es == es[..|es| - 1] + [es[|es| - 1]];
      StepKeepsTable(Run(es[..|es| - 1]), es[..|es| - 1], es[|es| - 1]);
    }
  }

  // In every run the sessions have the ids 1, 2, 3, ... in the order they fetch them, wrapping at 65536, and a session is held
  // until it is dropped.
  lemma SessionsInOrder(es: seq<Event>, h: nat)
    requires h < |Run(es).sessions|
    ensures var s := Run(es).sessions[h];
            && s.assoc == (h + 1) % 65536 && |Run(es).sessions| == Fetches(es)
            && (s.alive <==> !Dropped(es, h))
  {
    RunKeepsTable(es);
    AliveUntilDropped(es, h);
  }

  // Session h has been dropped.
  predicate Dropped(es: seq<Event>, h: nat) {
    es != [] && (Dropped(es[..|es| - 1], h) || (es[|es| - 1] == Drop(h) && h < Fetches(es[..|es| - 1])))
  }

  lemma {:induction false} AliveUntilDropped(es: seq<Event>, h: nat)
    ensures Dropped(es, h) ==> h < |Run(es).sessions|
    ensures h < |Run(es).sessions| ==> (Run(es).sessions[h].alive <==> !Dropped(es, h))
  {
    if es != [] {
      AliveUntilDropped(es[..|es| - 1], h);
      RunKeepsTable(es[..|es| - 1]);
    }
  }

  // In every run an id is routed to the session that inserted its route last.
  lemma RouteIsLastInserted(es: seq<Event>, a: u16)
    ensures Owner(es, a) == if a in Run(es).routes then Some(Run(es).routes[a]) else None
  {
    RunKeepsTable(es);
  }

  // Nobody is so slow that 65536 ids are fetched between fetching its own and inserting its route.
  predicate Prompt(es: seq<Event>) {
    es == [] || (Prompt(es[..|es| - 1])
                 && (es[|es| - 1].Insert? ==> Fetches(es[..|es| - 1]) <= es[|es| - 1].session + 65536))
  }

  lemma SameIdFarApart(h: nat, k: nat)
    requires IdOf(h) == IdOf(k) && h < k
    ensures h + 65536 <= k
  {
  }

  // Among prompt sessions the one inserted last is the one fetched last.
  lemma {:induction false} OwnerIsLatest(es: seq<Event>, h: nat)
    requires Prompt(es) && Inserted(es, h)
    ensures Owner(es, IdOf(h)).Some? && Inserted(es, Owner(es, IdOf(h)).value) && IdOf(Owner(es, IdOf(h)).value) == IdOf(h)
    ensures h <= Owner(es, IdOf(h)).value
  {
    var before, e := es[..|es| - 1], es[|es| - 1];
    assert es == before + [e];
    HistorySnoc(before, e);
    if Inserted(before, h) {
      OwnerIsLatest(before, h);
      InsertedAreFetched(before, h);
      if InsertsFor(before, e, IdOf(h)) && e.session < h {
        SameIdFarApart(e.session, h);
      }
    } else {
      OwnerWasInserted(before, IdOf(h));
      if Owner(before, IdOf(h)).Some? {
        assert InsertsFor(before, e, IdOf(h));
      }
    }
  }

  lemma {:induction false} OwnerWasInserted(es: seq<Event>, a: u16)
    ensures Owner(es, a).Some? ==> Inserted(es, Owner(es, a).value) && IdOf(Owner(es, a).value) == a
  {
    if es != [] {
      OwnerWasInserted(es[..|es| - 1], a);
    }
  }

  // A session keeps its route exactly until the next session with its id inserts its own, 65536 openings later; not before,
  // if everybody inserts promptly.
  lemma RouteLastsIdSpace(es: seq<Event>, h: nat)
    requires Prompt(es) && Inserted(es, h)
    ensures var c := Run(es);
            && h < |c.sessions| && c.sessions[h].assoc in c.routes
            && (c.routes[c.sessions[h].assoc] == h <==> forall k | k > h && IdOf(k) == IdOf(h) :: !Inserted(es, k))
            && (Fetches(es) <= h + 65536 ==> c.routes[c.sessions[h].assoc] == h)
  {
    RunKeepsTable(es);
    InsertedAreFetched(es, h);
    OwnerIsLatest(es, h);
    var o := Owner(es, IdOf(h)).value;
    forall k | k > h && IdOf(k) == IdOf(h) && Inserted(es, k)
      ensures o != h && Fetches(es) > h + 65536
    {
      OwnerIsLatest(es, k);
      SameIdFarApart(h, k);
      InsertedAreFetched(es, k);
    }
  }

  // ---- What a session receives ----

  // The reply in e is for session h.
  predicate IsFor(e: Event, h: nat, owner: u16 -> Option<nat>) {
    && e.Arrive? && Route(e.datagram, e.dns).Some?
    && owner(Route(e.datagram, e.dns).value.assoc) == Some(h)
  }

  function OwnerIn(es: seq<Event>): u16 -> Option<nat> {
    (a: u16) => Owner(es, a)
  }

  // The replies that arrived for session h while its id was its own, in order.
  function Addressed(es: seq<Event>, h: nat): seq<Reply> {
    if es == [] then [] else
    var before, e := es[..|es| - 1], es[|es| - 1];
    Addressed(before, h) + if IsFor(e, h, OwnerIn(before)) then [Route(e.datagram, e.dns).value.reply] else []
  }

  predicate Room(c: Client, h: nat) {
    h < |c.sessions| && c.sessions[h].alive && |c.sessions[h].queue| < 256
  }

  // Those of them that found room: the session still held, and fewer than 256 replies waiting.
  function Kept(es: seq<Event>, h: nat): seq<Reply> {
    if es == [] then [] else
    var before, e := es[..|es| - 1], es[|es| - 1];
    Kept(before, h) + if IsFor(e, h, OwnerIn(before)) && Room(Run(before), h) then [Route(e.datagram, e.dns).value.reply] else []
  }

  // a can be had from b by leaving out elements.
  predicate Subsequence<T(==)>(a: seq<T>, b: seq<T>) {
    a == [] || (b != [] && ((a[|a| - 1] == b[|b| - 1] && Subsequence(a[..|a| - 1], b[..|b| - 1]))
                            || Subsequence(a, b[..|b| - 1])))
  }

  lemma SubsequenceSnoc<T>(a: seq<T>, b: seq<T>, x: T)
    requires Subsequence(a, b)
    ensures Subsequence(a, b + [x]) && Subsequence(a + [x], b + [x])
  {
    assert (b + [x])[..|b|] == b && (a + [x])[..|a|] == a;
  }

  // Every reply for session h in es found room.
  ghost predicate AllFound(es: seq<Event>, h: nat) {
    forall k | 0 <= k < |es| && IsFor(es[k], h, OwnerIn(es[..k])) :: Room(Run(es[..k]), h)
  }

  lemma AllFoundSnoc(before: seq<Event>, e: Event, h: nat)
    ensures AllFound(before + [e], h) <==> AllFound(before, h) && (IsFor(e, h, OwnerIn(before)) ==> Room(Run(before), h))
  {
    var es := before + [e];
    assert es[..|before|] == before && es[|before|] == e;
    assert forall k | 0 <= k < |before| :: es[k] == before[k] && es[..k] == before[..k];
  }

  lemma ListsSnoc(before: seq<Event>, e: Event, h: nat)
    ensures var mine := IsFor(e, h, OwnerIn(before));
            && Addressed(before + [e], h) == Addressed(before, h) + (if mine then [Route(e.datagram, e.dns).value.reply] else [])
            && Kept(before + [e], h)
               == Kept(before, h) + (if mine && Room(Run(before), h) then [Route(e.datagram, e.dns).value.reply] else [])
  {
    assert (before + [e])[..|before|] == before;
  }

  // Nothing is lost exactly if every reply found room.
  lemma {:induction false} KeptExactlyWhen(es: seq<Event>, h: nat)
    ensures Subsequence(Kept(es, h), Addressed(es, h)) && |Kept(es, h)| <= |Addressed(es, h)|
    ensures Kept(es, h) == Addressed(es, h) <==> AllFound(es, h)
  {
    if es != [] {
      var before, e := es[..|es| - 1], es[|es| - 1];
      KeptExactlyWhen(before, h);
      assert es == before + [e];
      AllFoundSnoc(before, e, h);
      ListsSnoc(before, e, h);
      if IsFor(e, h, OwnerIn(before)) {
        OneMore(Kept(before, h), Addressed(before, h), Route(e.datagram, e.dns).value.reply, Room(Run(before), h));
      } else {
        assert Kept(es, h) == Kept(before, h) && Addressed(es, h) == Addressed(before, h);
      }
    }
  }

  lemma OneMore(kept: seq<Reply>, addressed: seq<Reply>, r: Reply, room: bool)
    requires Subsequence(kept, addressed) && |kept| <= |addressed|
    ensures var next := kept + if room then [r] else [];
            && Subsequence(next, addressed + [r]) && |next| <= |addressed + [r]|
            && (next == addressed + [r] <==> room && kept == addressed)
  {
    SubsequenceSnoc(kept, addressed, r);
    assert kept + [] == kept;
    if room && kept + [r] == addressed + [r] {
      assert (kept + [r])[..|kept|] == kept;
      assert (addressed + [r])[..|addressed|] == addressed;
    }
  }

  // One step of one session that was there before.
  lemma StepGives(c: Client, es: seq<Event>, e: Event, h: nat)
    requires Table(c, es) && h < |c.sessions|
    ensures h < |Step(c, e).sessions|
    ensures var s, t := c.sessions[h], Step(c, e).sessions[h];
            t.received + t.queue == s.received + s.queue
                                    + if IsFor(e, h, OwnerIn(es)) && Room(c, h) then [Route(e.datagram, e.dns).value.reply] else []
  {
    var s := c.sessions[h];
    if IsFor(e, h, OwnerIn(es)) {
      var r := Route(e.datagram, e.dns).value;
      assert Owner(es, r.assoc) == Some(h);
      Assoc(s.received, s.queue, [r.reply]);
    } else if e == Recv(h) && s.alive && s.queue != [] {
      assert s.received + [s.queue[0]] + s.queue[1..] == s.received + s.queue;
    } else {
      NotMine(c, es, e, h);
    }
  }

  lemma NotMine(c: Client, es: seq<Event>, e: Event, h: nat)
    requires Table(c, es) && h < |c.sessions| && !IsFor(e, h, OwnerIn(es))
    requires e == Recv(h) ==> !c.sessions[h].alive || c.sessions[h].queue == []
    ensures var s, t := c.sessions[h], Step(c, e).sessions[h];
            t.received == s.received && t.queue == s.queue
  {
    if e.Arrive? && Route(e.datagram, e.dns).Some? {
      var a := Route(e.datagram, e.dns).value.assoc;
      assert Owner(es, a) != Some(h);
    }
  }

  lemma {:induction false} NothingBeforeFetch(es: seq<Event>, h: nat)
    requires Fetches(es) <= h
    ensures Kept(es, h) == [] && Addressed(es, h) == []
  {
    if es != [] {
      var before, e := es[..|es| - 1], es[|es| - 1];
      NothingBeforeFetch(before, h);
      RunKeepsTable(before);
      if IsFor(e, h, OwnerIn(before)) {
        OwnerWasInserted(before, Route(e.datagram, e.dns).value.assoc);
        InsertedAreFetched(before, h);
      }
    }
  }

  // Reply isolation, for every run: a session receives, in order and unchanged, the replies that arrived for it and found
  // room, and no others; none is lost exactly if each of them found the session held and fewer than 256 waiting.
  lemma {:induction false} ReplyIsolation(es: seq<Event>, h: nat)
    requires h < |Run(es).sessions|
    ensures var s := Run(es).sessions[h];
            && s.received + s.queue == Kept(es, h)
            && Subsequence(Kept(es, h), Addressed(es, h))
            && (s.received + s.queue == Addressed(es, h) <==> AllFound(es, h))
  {
    KeptExactlyWhen(es, h);
    ReceivesKept(es, h);
  }

  lemma {:induction false} ReceivesKept(es: seq<Event>, h: nat)
    requires h < |Run(es).sessions|
    ensures Run(es).sessions[h].received + Run(es).sessions[h].queue == Kept(es, h)
  {
    var before, e := es[..|es| - 1], es[|es| - 1];
    RunKeepsTable(before);
    assert es == before + [e];
    ListsSnoc(before, e, h);
    if h < |Run(before).sessions| {
      ReceivesKept(before, h);
      StepGives(Run(before), before, e, h);
    } else {
      JustFetched(Run(before), before, e, h);
    }
  }

  lemma JustFetched(c: Client, es: seq<Event>, e: Event, h: nat)
    requires Table(c, es) && |c.sessions| <= h < |Step(c, e).sessions|
    ensures !e.Arrive? && Kept(es, h) == []
    ensures Step(c, e).sessions[h].received == [] && Step(c, e).sessions[h].queue == []
  {
    NothingBeforeFetch(es, h);
  }

  // A datagram is routed exactly if it is a packet command, complete, from an address or from a name that resolves.
  lemma RoutedExactlyWhen(d: seq<byte>, dns: Option<Addr>, assoc: u16, from: Addr, data: seq<byte>)
    ensures Route(d, dns) == Some(Routed(assoc, Reply(from, data))) <==>
              && |d| >= 2 && d[0] == 5 && d[1] == 2
              && exists p :: ParsePacket(d[2..]) == Some(p) && p.assoc == assoc && p.data == data
                             && (if p.addr.Domain? then dns == Some(from) else p.addr == from)
  {
    if |d| >= 2 && ParsePacket(d[2..]).Some? {
      var p := ParsePacket(d[2..]).value;
      assert ParsePacket(d[2..]) == Some(p);
    }
  }

  // The server's reply to an association is routed to it, address and bytes unchanged.
  lemma ReplyIsRouted(assoc: u16, src: Addr, data: seq<byte>, dns: Option<Addr>)
    requires !src.Domain? && |data| <= 0xFFFF
    ensures Route([VER, CMD_PACKET] + Body(Packet(assoc, 0, 1, 0, src, data)), dns) == Some(Routed(assoc, Reply(src, data)))
  {
    var p := Packet(assoc, 0, 1, 0, src, data);
    PacketRoundTrip(p, []);
    assert Body(p) + [] == Body(p);
    assert ([VER, CMD_PACKET] + Body(p))[2..] == Body(p);
  }
}
