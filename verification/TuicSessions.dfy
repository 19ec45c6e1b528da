/**
 The UDP session table of a TUIC connection: `ensure_session` with its two separate lock acquisitions, run by any
 number of callers, interleaved with each other and with dissociates.
*/
module TuicSessions {
  import opened Bytes

  datatype Progress =
    | Looking                    // before the first lock
    | Binding                    // not found: binding a socket
    | Installing(socket: nat)    // before the second lock
    | Spawning(socket: nat)      // installed, its reader not yet spawned
    | Has(socket: nat)           // returned this socket
    | Failed                     // the bind failed

  datatype Caller = Caller(assoc: u16, progress: Progress)

  /** A bound UDP socket: who bound it, the association it was installed for, and how many readers it was given. */
  datatype Socket = Socket(binder: nat, installed: Option<u16>, readers: nat)

  datatype Sessions = Sessions(table: map<u16, nat>, callers: seq<Caller>, sockets: seq<Socket>)

  datatype Event =
    | Call(assoc: u16)
    | Lookup(caller: nat)
    | Bind(caller: nat, ok: bool)
    | Install(caller: nat)
    | Spawn(caller: nat)
    | Dissociate(assoc: u16)

  function Init(): Sessions { Sessions(map[], [], []) }

  function SetProgress(s: Sessions, i: nat, p: Progress): Sessions
    requires i < |s.callers|
  {
    s.(callers := s.callers[i := s.callers[i].(progress := p)])
  }

  function Step(s: Sessions, e: Event): Sessions {
    match e
    case Call(assoc) =>
      s.(callers := s.callers + [Caller(assoc, Looking)])
    case Lookup(i) =>
      if i >= |s.callers| || !s.callers[i].progress.Looking? then s
      else if s.callers[i].assoc in s.table then SetProgress(s, i, Has(s.table[s.callers[i].assoc]))
      else SetProgress(s, i, Binding)
    case Bind(i, ok) =>
      if i >= |s.callers| || !s.callers[i].progress.Binding? then s
      else if !ok then SetProgress(s, i, Failed)
      else SetProgress(s, i, Installing(|s.sockets|)).(sockets := s.sockets + [Socket(i, None, 0)])
    case Install(i) =>
      if i >= |s.callers| || !s.callers[i].progress.Installing? then s else
      var assoc, mine := s.callers[i].assoc, s.callers[i].progress.socket;
      if assoc in s.table then SetProgress(s, i, Has(s.table[assoc]))
      else if mine >= |s.sockets| then s
      else SetProgress(s, i, Spawning(mine)).(
             table := s.table[assoc := mine], sockets := s.sockets[mine := s.sockets[mine].(installed := Some(assoc))])
    case Spawn(i) =>
      if i >= |s.callers| || !s.callers[i].progress.Spawning? || s.callers[i].progress.socket >= |s.sockets| then s else
      var mine := s.callers[i].progress.socket;
      SetProgress(s, i, Has(mine)).(
        sockets := s.sockets[mine := s.sockets[mine].(readers := s.sockets[mine].readers + 1)])
    case Dissociate(assoc) =>
      s.(table := s.table - {assoc})
  }

  function Run(s: Sessions, es: seq<Event>): Sessions {
    if es == [] then s else Step(Run(s, es[..|es| - 1]), es[|es| - 1])
  }

  /** The table behind its lock, and the callers of `ensure_session` between their two critical sections. */
  class SessionTable {
    var table: map<u16, nat>
    var callers: seq<Caller>
    var sockets: seq<Socket>

    ghost function State(): Sessions reads this { Sessions(table, callers, sockets) }

    constructor ()
      ensures State() == Init()
    {
      table, callers, sockets := map[], [], [];
    }

    // The first critical section.
    method Find(i: nat) returns (r: Option<nat>)
      requires i < |callers| && callers[i].progress.Looking?
      modifies this`callers
      ensures State() == Step(old(State()), Lookup(i))
      ensures r == if callers[i].assoc in table then Some(table[callers[i].assoc]) else None
    {
      var assoc := callers[i].assoc;
      r := if assoc in table then Some(table[assoc]) else None;
      callers := callers[i := Caller(assoc, if r.Some? then Has(r.value) else Binding)];
    }

    // The second one: installs the caller's socket unless another caller got there first; returns the one installed.
    method GetOrInstall(i: nat, assoc: u16, mine: nat) returns (socket: nat, installed: bool)
      requires i < |callers| && callers[i] == Caller(assoc, Installing(mine)) && mine < |sockets|
      modifies this
      ensures State() == Step(old(State()), Install(i))
      ensures installed <==> assoc !in old(table)
      ensures assoc in table && socket == table[assoc]
      ensures table == if installed then old(table)[assoc := mine] else old(table)
    {
      if assoc in table {
        callers := callers[i := Caller(assoc, Has(table[assoc]))];
        return table[assoc], false;
      }
      table := table[assoc := mine];
      sockets := sockets[mine := sockets[mine].(installed := Some(assoc))];
      callers := callers[i := Caller(assoc, Spawning(mine))];
      return mine, true;
    }

    // The reader of a socket just installed.
    method SpawnReader(i: nat)
      requires i < |callers| && callers[i].progress.Spawning? && callers[i].progress.socket < |sockets|
      modifies this`callers, this`sockets
      ensures State() == Step(old(State()), Spawn(i))
    {
      var mine := callers[i].progress.socket;
      sockets := sockets[mine := sockets[mine].(readers := sockets[mine].readers + 1)];
      callers := callers[i := callers[i].(progress := Has(mine))];
    }

    method Remove(assoc: u16)
      modifies this
      ensures State() == Step(old(State()), Dissociate(assoc))
    {
      table := table - {assoc};
    }

  }

  // ---- What every run keeps ----

  // A socket belongs to the caller that bound it until installed for that caller's association; it has no reader
  // before, and exactly one afterwards, except while its installer is about to spawn it.
  ghost predicate SocketOk(s: Sessions, k: nat)
    requires k < |s.sockets|
  {
    var socket := s.sockets[k];
    && socket.binder < |s.callers|
    && var p := s.callers[socket.binder].progress;
       if p == Installing(k) then socket.installed.None? && socket.readers == 0
       else if p == Spawning(k) then socket.installed == Some(s.callers[socket.binder].assoc) && socket.readers == 0
       else p.Has? && if socket.installed.None? then socket.readers == 0
       else socket.readers == 1 && socket.installed == Some(s.callers[socket.binder].assoc)
  }

  ghost predicate CallerOk(s: Sessions, i: nat)
    requires i < |s.callers|
  {
    match s.callers[i].progress
    case Installing(k) => k < |s.sockets| && s.sockets[k].binder == i
    case Spawning(k) => k < |s.sockets| && s.sockets[k].binder == i
    case Has(k) => k < |s.sockets| && s.sockets[k].installed == Some(s.callers[i].assoc)
    case _ => true
  }

  ghost predicate Inv(s: Sessions) {
    && (forall k | 0 <= k < |s.sockets| :: SocketOk(s, k))
    && (forall i | 0 <= i < |s.callers| :: CallerOk(s, i))
    && (forall a | a in s.table :: s.table[a] < |s.sockets| && s.sockets[s.table[a]].installed == Some(a))
  }

  lemma InstallKeeps(s: Sessions, i: nat)
    requires Inv(s) && i < |s.callers| && s.callers[i].progress.Installing?
    ensures Inv(Step(s, Install(i)))
  {
    var t := Step(s, Install(i));
    var assoc, mine := s.callers[i].assoc, s.callers[i].progress.socket;
    assert CallerOk(s, i) && SocketOk(s, mine);
    assert forall k | 0 <= k < |t.sockets| && k != mine :: t.sockets[k] == s.sockets[k];
    forall k | 0 <= k < |t.sockets|
      ensures SocketOk(t, k)
    {
      assert SocketOk(s, k);
    }
    forall j | 0 <= j < |t.callers|
      ensures CallerOk(t, j)
    {
      assert CallerOk(s, j);
    }
  }

  lemma SpawnKeeps(s: Sessions, i: nat)
    requires Inv(s) && i < |s.callers| && s.callers[i].progress.Spawning?
    ensures Inv(Step(s, Spawn(i)))
  {
    var t := Step(s, Spawn(i));
    assert CallerOk(s, i) && SocketOk(s, s.callers[i].progress.socket);
    forall k | 0 <= k < |t.sockets|
      ensures SocketOk(t, k)
    {
      assert SocketOk(s, k);
    }
    forall j | 0 <= j < |t.callers|
      ensures CallerOk(t, j)
    {
      assert CallerOk(s, j);
    }
  }

  lemma OthersKeep(s: Sessions, e: Event)
    requires Inv(s) && !e.Install? && !e.Spawn?
    ensures Inv(Step(s, e))
  {
    var t := Step(s, e);
    assert forall k | 0 <= k < |s.sockets| :: t.sockets[k].installed == s.sockets[k].installed;
    forall k | 0 <= k < |t.sockets|
      ensures SocketOk(t, k)
    {
      if k < |s.sockets| {
        assert SocketOk(s, k);
      }
    }
    forall j | 0 <= j < |t.callers|
      ensures CallerOk(t, j)
    {
      if j < |s.callers| {
        assert CallerOk(s, j);
      }
    }
  }

  lemma StepKeeps(s: Sessions, e: Event)
    requires Inv(s)
    ensures Inv(Step(s, e))
  {
    if e.Install? {
      if e.caller < |s.callers| && s.callers[e.caller].progress.Installing? {
        InstallKeeps(s, e.caller);
      }
    } else if e.Spawn? {
      if e.caller < |s.callers| && s.callers[e.caller].progress.Spawning? {
        SpawnKeeps(s, e.caller);
      }
    } else {
      OthersKeep(s, e);
    }
  }

  lemma {:induction false} RunKeeps(s: Sessions, es: seq<Event>)
    requires Inv(s)
    ensures Inv(Run(s, es))
  {
    if es != [] {
      RunKeeps(s, es[..|es| - 1]);
      StepKeeps(Run(s, es[..|es| - 1]), es[|es| - 1]);
    }
  }

  // One reader per installed socket, for every run: a socket that was installed has exactly one reader, unless its
  // installer has yet to spawn it; a socket that lost the race has none.
  lemma OneReaderPerSocket(es: seq<Event>, k: nat)
    requires k < |Run(Init(), es).sockets|
    ensures var s := Run(Init(), es);
            var socket := s.sockets[k];
            && socket.binder < |s.callers|
            && socket.readers == (if socket.installed.Some? && s.callers[socket.binder].progress != Spawning(k)
                                  then 1 else 0)
  {
    RunKeeps(Init(), es);
    assert SocketOk(Run(Init(), es), k);
  }

  // Every caller that gets a socket gets one installed for its own association; two associations never share one.
  lemma CallersGetInstalledSockets(es: seq<Event>, i: nat, j: nat)
    requires var s := Run(Init(), es);
             i < |s.callers| && j < |s.callers| && s.callers[i].progress.Has? && s.callers[j].progress.Has?
    ensures var s := Run(Init(), es);
            var k := s.callers[i].progress.socket;
            && k < |s.sockets| && s.sockets[k].installed == Some(s.callers[i].assoc)
            && (s.callers[j].progress.socket == k ==> s.callers[i].assoc == s.callers[j].assoc)
  {
    RunKeeps(Init(), es);
    assert CallerOk(Run(Init(), es), i) && CallerOk(Run(Init(), es), j);
  }

  // ---- Agreement since an association was last dissociated ----

  lemma {:induction false} RunConcat(s: Sessions, a: seq<Event>, b: seq<Event>)
    ensures Run(s, a + b) == Run(Run(s, a), b)
  {
    if b == [] {
      assert a + b == a;
    } else {
      RunConcat(s, a, b[..|b| - 1]);
      assert (a + b)[..|a + b| - 1] == a + b[..|b| - 1];
    }
  }

  predicate Keeps(es: seq<Event>, assoc: u16) {
    forall i | 0 <= i < |es| :: es[i] != Dissociate(assoc)
  }

  // Not installed yet when the connection was in state `base`.
  predicate New(base: Sessions, k: nat) {
    k < |base.sockets| ==> base.sockets[k].installed.None?
  }

  // Every socket installed for assoc since then is the one in the table, and so is every socket held by a caller that
  // called since then.
  ghost predicate Agreed(base: Sessions, s: Sessions, assoc: u16) {
    && (assoc in s.table ==> New(base, s.table[assoc]))
    && (forall k | 0 <= k < |s.sockets| && s.sockets[k].installed == Some(assoc) && New(base, k) ::
          assoc in s.table && s.table[assoc] == k)
    && |base.callers| <= |s.callers| && |base.sockets| <= |s.sockets|
    && (forall k | 0 <= k < |base.sockets| :: 
          && base.sockets[k].binder == s.sockets[k].binder
          && (base.sockets[k].installed.Some? ==> s.sockets[k].installed == base.sockets[k].installed))
    && (forall i | |base.callers| <= i < |s.callers| && s.callers[i].assoc == assoc ::
          s.callers[i].progress.Has? ==> New(base, s.callers[i].progress.socket))
  }

  lemma InstallAgrees(base: Sessions, s: Sessions, i: nat, assoc: u16)
    requires Inv(base) && Inv(s) && Agreed(base, s, assoc)
    ensures Agreed(base, Step(s, Install(i)), assoc)
  {
    if i < |s.callers| && s.callers[i].progress.Installing? {
      assert CallerOk(s, i) && SocketOk(s, s.callers[i].progress.socket);
    }
  }

  lemma SpawnAgrees(base: Sessions, s: Sessions, i: nat, assoc: u16)
    requires Inv(base) && Inv(s) && Agreed(base, s, assoc)
    ensures Agreed(base, Step(s, Spawn(i)), assoc)
  {
    if |base.callers| <= i < |s.callers| && s.callers[i].progress.Spawning? {
      SpawnedIsNew(base, s, i, assoc);
    }
  }

  lemma StepAgrees(base: Sessions, s: Sessions, e: Event, assoc: u16)
    requires Inv(base) && Inv(s) && Agreed(base, s, assoc) && e != Dissociate(assoc)
    ensures Agreed(base, Step(s, e), assoc)
  {
    match e {
      case Install(i) => InstallAgrees(base, s, i, assoc);
      case Spawn(i) => SpawnAgrees(base, s, i, assoc);
      case _ =>
    }
  }

  lemma SpawnedIsNew(base: Sessions, s: Sessions, i: nat, assoc: u16)
    requires Inv(base) && Inv(s) && Agreed(base, s, assoc) && |base.callers| <= i < |s.callers|
    requires s.callers[i].progress.Spawning?
    ensures New(base, s.callers[i].progress.socket)
  {
    assert CallerOk(s, i);
    var k := s.callers[i].progress.socket;
    assert k < |base.sockets| ==> SocketOk(base, k);
  }

  lemma {:induction false} RunAgrees(base: Sessions, es: seq<Event>, assoc: u16)
    requires Inv(base) && assoc !in base.table && Keeps(es, assoc)
    ensures Inv(Run(base, es)) && Agreed(base, Run(base, es), assoc)
  {
    if es != [] {
      var before, e := es[..|es| - 1], es[|es| - 1];
      RunAgrees(base, before, assoc);
      StepKeeps(Run(base, before), e);
      assert e != Dissociate(assoc);
      StepAgrees(base, Run(base, before), e, assoc);
    } else {
      NothingNew(base, assoc);
    }
  }

  lemma NothingNew(base: Sessions, assoc: u16)
    requires Inv(base) && assoc !in base.table
    ensures Agreed(base, base, assoc)
  {
  }

  // The race is harmless: of the callers that called since the association was last dissociated (or ever), however many looked,
  // bound and tried to install at once, all that return a socket return the same one, and it is the one in the table. The
  // same goes for any caller whose socket was installed since then.
  lemma RacersAgree(before: seq<Event>, since: seq<Event>, i: nat, j: nat)
    requires var base := Run(Init(), before);
             var s := Run(Init(), before + since);
             && i < |s.callers| && j < |s.callers| && s.callers[i].assoc == s.callers[j].assoc
             && s.callers[i].progress.Has? && s.callers[j].progress.Has?
             && s.callers[i].assoc !in base.table && Keeps(since, s.callers[i].assoc)
             && (i >= |base.callers| || New(base, s.callers[i].progress.socket))
             && (j >= |base.callers| || New(base, s.callers[j].progress.socket))
    ensures var s := Run(Init(), before + since);
            && s.callers[i].progress.socket == s.callers[j].progress.socket
            && s.callers[i].assoc in s.table && s.table[s.callers[i].assoc] == s.callers[i].progress.socket
  {
    RunKeeps(Init(), before);
    RunConcat(Init(), before, since);
    CallersGetInstalledSockets(before + since, i, j);
    CallersGetInstalledSockets(before + since, j, i);
    RunAgrees(Run(Init(), before), since, Run(Init(), before + since).callers[i].assoc);
  }

  // ---- Sockets of one association ----

  // Without a dissociate an association never gets a second socket.
  lemma OneSocketUnlessDissociated(es: seq<Event>, assoc: u16, k: nat, m: nat)
    requires Keeps(es, assoc) && k < |Run(Init(), es).sockets| && m < |Run(Init(), es).sockets|
    requires Run(Init(), es).sockets[k].installed == Some(assoc) && Run(Init(), es).sockets[m].installed == Some(assoc)
    ensures k == m
  {
    NothingNew(Init(), assoc);
    RunAgrees(Init(), es, assoc);
  }

  function Ensured(s: Sessions, assoc: u16): Sessions {
    var i := |s.callers|;
    Step(Step(Step(Step(Step(s, Call(assoc)), Lookup(i)), Bind(i, true)), Install(i)), Spawn(i))
  }

  // An association with no socket in the table gets a new one, with a reader of its own; the others keep theirs.
  lemma EnsuredInstalls(s: Sessions, assoc: u16)
    requires assoc !in s.table
    ensures Ensured(s, assoc).sockets == s.sockets + [Socket(|s.callers|, Some(assoc), 1)]
    ensures Ensured(s, assoc).table == s.table[assoc := |s.sockets|]
  {
    var i := |s.callers|;
    var called := Step(s, Call(assoc));
    assert called.callers[i] == Caller(assoc, Looking);
    var looked := Step(called, Lookup(i));
    assert looked.callers[i] == Caller(assoc, Binding);
    var bound := Step(looked, Bind(i, true));
    assert bound.callers[i] == Caller(assoc, Installing(|s.sockets|));
    var installed := Step(bound, Install(i));
    assert installed.callers[i] == Caller(assoc, Spawning(|s.sockets|));
  }

  // A dissociate takes the socket out of the table only: its reader runs on, and an association that comes back has two.
  lemma DissociateLeavesReader(s: Sessions, assoc: u16)
    requires assoc in s.table && s.table[assoc] < |s.sockets|
    ensures var k, t := s.table[assoc], Ensured(Step(s, Dissociate(assoc)), assoc);
            && t.sockets[k] == s.sockets[k] && t.table[assoc] == |s.sockets|
            && t.sockets[|s.sockets|] == Socket(|s.callers|, Some(assoc), 1)
  {
    EnsuredInstalls(Step(s, Dissociate(assoc)), assoc);
  }
}
