/** What replacing the configuration promises: to memory and listeners always, to the disk with one exception. */
module Commits {
  import opened Bytes
  import opened Config
  import opened Listeners
  import opened ListenerSafety
  import Load

  // The disk holds the configuration in memory, but for the plaintext password.
  ghost predicate InSync(w: World) {
    w.disk.Stored? && Load.Persisted(w.disk.config) == Load.Persisted(w.config)
  }

  predicate Refused(w: World, next: Config, env: CommitEnv) {
    !ValidConfig(next) || !PreflightOk(w.config.inbounds, next.inbounds, env.probe)
  }

  // The configuration in memory once the candidate has been started, before it is saved or rolled back.
  function Tried(w: World, next: Config, env: CommitEnv): Config {
    Restart(w.(config := next), env.first).world.config
  }

  // ---- One commit ----

  // All or nothing for memory and listeners: a commit leaves the candidate, saved and with every inbound running, or the
  // previous configuration, either up to automatic ports; what was refused leaves no trace at all.
  lemma CommitKeeps(w: World, next: Config, env: CommitEnv)
    requires ValidConfig(w.config) && Agrees(w)
    ensures var (after, v) := (Commit(w, next, env).world, Commit(w, next, env).verdict);
            && ValidConfig(after.config) && Agrees(after)
            && (v.Committed? ==> SameUpToPorts(next, after.config) && AllRun(after)
                                 && after.disk == Load.Stored(Load.Persisted(after.config)))
            && (!v.Committed? ==> SameUpToPorts(w.config, after.config))
            && (Refused(w, next, env) ==> after == w && !v.Committed? && (v.Invalid? <==> !ValidConfig(next)))
  {
    if !Refused(w, next, env) {
      RestartAgrees(w.(config := next), env.first);
      var tried := Restart(w.(config := next), env.first);
      RestartAgrees(tried.world.(config := w.config), env.rollback);
    } else {
      SameAsItself(w.config);
    }
  }

  lemma SameAsItself(c: Config)
    ensures SameUpToPorts(c, c)
  {
    assert c.(inbounds := c.inbounds) == c;
  }

  // The disk: what is in memory, if the commit or the rollback saved it; the candidate, if starting it saved the ports it
  // had to move and the commit was then rolled back because the save after it failed; otherwise what it was.
  lemma CommitDisk(w: World, next: Config, env: CommitEnv)
    requires ValidConfig(w.config) && Agrees(w)
    ensures var (after, v) := (Commit(w, next, env).world, Commit(w, next, env).verdict);
            after.disk == if v.Committed? || after.config != w.config then Load.Stored(Load.Persisted(after.config))
                          else if v.Unsaved? && Tried(w, next, env) != next then Load.Stored(Load.Persisted(Tried(w, next, env)))
                          else w.disk
  {
    if !Refused(w, next, env) {
      RestartAgrees(w.(config := next), env.first);
      var tried := Restart(w.(config := next), env.first);
      RestartAgrees(tried.world.(config := w.config), env.rollback);
    }
  }

  // What a restart leaves in memory, by its causes: the ports it moved, if everything came up and they could be saved.
  lemma RestartByCauses(w: World, env: Startup)
    requires ValidConfig(w.config)
    ensures var p := StartFrom(Pass(w.config.inbounds, map[], false, true), 0, env);
            var moved := p.changed && p.all && env.saved;
            && Restart(w, env).world.config == (if moved then w.config.(inbounds := p.inbounds) else w.config)
            && (moved ==> Restart(w, env).world.config != w.config)
            && (Restart(w, env).ok <==> p.all && (p.changed ==> env.saved))
  {
    var p := StartFrom(Pass(w.config.inbounds, map[], false, true), 0, env);
    PassKeeps(w.config.inbounds, Pass(w.config.inbounds, map[], false, true), 0, env, p);
    if p.changed {
      MergeIsWorking(w.config.inbounds, p.inbounds, 0);
      var k :| 0 <= k < |p.inbounds| && Effective(p.inbounds[k]) != Effective(w.config.inbounds[k]);
      assert w.config.(inbounds := p.inbounds).inbounds[k] != w.config.inbounds[k];
    }
  }

  // The save at the end fails after the first start brought everything up, moved a port and saved it, and the start of the
  // rollback moves and saves none; and what the first start saved is not what was there before.
  predicate LeavesCandidate(w: World, next: Config, env: CommitEnv) {
    var first := StartFrom(Pass(next.inbounds, map[], false, true), 0, env.first);
    var back := StartFrom(Pass(w.config.inbounds, map[], false, true), 0, env.rollback);
    && !Refused(w, next, env) && !env.saved
    && first.all && first.changed && env.first.saved
    && !(back.all && back.changed && env.rollback.saved)
    && Load.Persisted(next.(inbounds := first.inbounds)) != Load.Persisted(w.config)
  }

  // A disk that held the configuration in memory still does, with exactly one exception.
  lemma SyncAfterCommit(w: World, next: Config, env: CommitEnv)
    requires ValidConfig(w.config) && Agrees(w) && InSync(w)
    ensures InSync(Commit(w, next, env).world) <==> !LeavesCandidate(w, next, env)
  {
    CommitDisk(w, next, env);
    if !Refused(w, next, env) {
      RestartByCauses(w.(config := next), env.first);
      var tried := Restart(w.(config := next), env.first);
      RestartByCauses(tried.world.(config := w.config), env.rollback);
    }
  }

  // ---- The exception is real ----

  function Sample(password: string): InboundConfig {
    InboundConfig("a", AnyTls, "::", 0, Some(2000),
                  Settings(None, Some(password), None, None, None, None, None, None, None, None))
  }

  function SampleConfig(password: string): Config {
    Config(WebConfig("[::1]:1", true, "", "", "$", ""), Subscription(true, "", "", true), [Sample(password)])
  }

  function FirstThen(first: Reply, others: Reply): Tries {
    var draws: Draws := seq(TRIES, i => Draw(3000, true));
    [Try(first, draws)] + seq(BIND_RETRIES, i => Try(others, draws))
  }

  // The first attempt finds the port taken, the second succeeds on port 3000, which is saved; the save after that fails.
  function SampleEnv(): CommitEnv {
    CommitEnv((i: nat) => (p: InboundConfig) => Starts(true),
              Startup((i: nat) => FirstThen(InUse, Up(0)), true),
              false,
              Startup((i: nat) => FirstThen(Up(0), Up(0)), false))
  }

  // A commit that reports an error and restores memory, yet leaves the rejected candidate on disk.
  lemma RejectedCandidateCanStayOnDisk()
    ensures var c := SampleConfig("old");
            var w := World(c, Load.Stored(c), map["a" := 2000]);
            var r := Commit(w, SampleConfig("new"), SampleEnv());
            && ValidConfig(c) && Agrees(w) && InSync(w)
            && r.verdict == Unsaved && r.world.config == c
            && r.world.disk == Load.Stored(c.(inbounds := [WithPort(Sample("new"), 3000)]))
  {
    var c, next := SampleConfig("old"), SampleConfig("new");
    var w := World(c, Load.Stored(c), map["a" := 2000]);
    var env := SampleEnv();
    SampleIsValid("old");
    SampleIsValid("new");
    FirstSpawn(Stopped(w.(config := next)), env.first);
    SecondSpawn(World(c, Load.Stored(next.(inbounds := [WithPort(Sample("new"), 3000)])), map[]), env.rollback);
  }

  lemma SampleIsValid(password: string)
    requires password != ""
    ensures ValidConfig(SampleConfig(password))
  {
    assert "a"[0] == 'a' && !Whitespace('a');
    assert !Blank("a");
    assert SettingsOk(Sample(password));
  }

  lemma FirstSpawn(w: World, env: Startup)
    requires w.config == SampleConfig("new") && w.running == map[] && env == SampleEnv().first
    ensures var next := w.config.(inbounds := [WithPort(Sample("new"), 3000)]);
            Spawn(w, env) == Outcome(World(next, Load.Stored(next), map["a" := 3000]), true)
  {
    var inbounds := [Sample("new")];
    var moved := [WithPort(Sample("new"), 3000)];
    assert InboundIndex(inbounds, "a") == Some(0);
    assert OthersSelected(inbounds, 0) == {};
    var tries := env.tries(0);
    assert tries[0].draws[0] == Draw(3000, true);
    assert Choose(false, {}, tries[0].draws) == Some(3000);
    assert WithPort(Sample("new"), 3000).portAssigned == Some(3000);
    assert inbounds[0 := WithPort(inbounds[0], 3000)] == moved;
    assert inbounds[0].name == "a" && inbounds[0].port == 0 && !inbounds[0].typ.Tuic?;
    assert Reassign(inbounds, "a", tries[0].draws) == Some(moved);
    assert StartOne(moved, 0, tries[1..]) == Attempt(moved, Some(3000));
    assert StartOne(inbounds, 0, tries) == Attempt(moved, Some(3000));
    var p := Pass(inbounds, map[], false, true);
    assert Enter(p, 0, env) == Pass(moved, map["a" := 3000], true, true);
    assert StartFrom(p, 0, env) == Pass(moved, map["a" := 3000], true, true);
    MergeIsWorking(inbounds, moved, 0);
  }

  lemma SecondSpawn(w: World, env: Startup)
    requires w.config == SampleConfig("old") && w.running == map[] && env == SampleEnv().rollback
    ensures Spawn(w, env) == Outcome(w.(running := map["a" := 2000]), true)
  {
    var p := Pass(w.config.inbounds, map[], false, true);
    assert StartOne(p.inbounds, 0, env.tries(0)) == Attempt(p.inbounds, Some(2000));
    assert Enter(p, 0, env) == Pass(p.inbounds, map["a" := 2000], false, true);
    assert StartFrom(p, 0, env) == Pass(p.inbounds, map["a" := 2000], false, true);
  }

  // ---- When the world cooperates ----

  ghost predicate AllStart(env: Startup) { forall i: nat :: env.tries(i)[0].reply.Up? }

  lemma {:induction false} NothingMoves(p: Pass, i: nat, env: Startup)
    requires i <= |p.inbounds| && AllStart(env)
    ensures var q := StartFrom(p, i, env); q.inbounds == p.inbounds && q.changed == p.changed && q.all == p.all
    decreases |p.inbounds| - i
  {
    if i < |p.inbounds| {
      var q := Enter(p, i, env);
      assert StartOne(p.inbounds, i, env.tries(i)).inbounds == p.inbounds;
      NothingMoves(q, i + 1, env);
    }
  }

  // If nothing goes wrong, the candidate is what runs and what is saved, to the letter.
  lemma CommitSucceeds(w: World, next: Config, env: CommitEnv)
    requires !Refused(w, next, env) && AllStart(env.first) && env.saved
    ensures var r := Commit(w, next, env);
            && r.verdict == Committed && r.world.config == next && r.world.disk == Load.Stored(Load.Persisted(next))
            && Agrees(r.world) && AllRun(r.world)
  {
    NothingMoves(Pass(next.inbounds, map[], false, true), 0, env.first);
    RestartAgrees(w.(config := next), env.first);
  }

  // If a commit fails once its candidate has been tried, for whatever reason, and the previous inbounds can all be started again,
  // the previous configuration is what is in memory, to the letter, and all of it runs.
  lemma RollbackRestores(w: World, next: Config, env: CommitEnv)
    requires ValidConfig(w.config) && !Refused(w, next, env) && AllStart(env.rollback)
    requires !Commit(w, next, env).verdict.Committed?
    ensures var after := Commit(w, next, env).world;
            after.config == w.config && AllRun(after) && Agrees(after)
  {
    var tried := Restart(w.(config := next), env.first);
    NothingMoves(Pass(w.config.inbounds, map[], false, true), 0, env.rollback);
    RestartAgrees(tried.world.(config := w.config), env.rollback);
  }

  // And it fails exactly if the candidate's inbounds do not all come up with their ports saved, or the save at the end fails.
  lemma CommitFailsExactlyWhen(w: World, next: Config, env: CommitEnv, q: Pass)
    requires !Refused(w, next, env) && ValidConfig(next) && q == StartFrom(Pass(next.inbounds, map[], false, true), 0, env.first)
    ensures |q.inbounds| == |next.inbounds|
    ensures var up := forall k: nat | k < |next.inbounds| ::
              ComesUp(next.inbounds[k], env.first.tries(k), Around(next.inbounds, q.inbounds, k));
            var runs := up && (SomeMoved(next.inbounds, q.inbounds) ==> env.first.saved);
            Commit(w, next, env).verdict == if runs && env.saved then Committed else if runs then Unsaved else Conflict
  {
    var base := next.inbounds;
    PassKeeps(base, Pass(base, map[], false, true), 0, env.first, q);
    if base != [] {
      RunsExactlyWhen(base, env.first, q, 0);
    }
    RestartByCauses(w.(config := next), env.first);
    assert q.changed <==> SomeMoved(base, q.inbounds);
  }

  // ---- Preflight ----

  predicate OnSocketOf(prior: InboundConfig, candidate: InboundConfig) {
    && prior.name == candidate.name && prior.listen == candidate.listen && (prior.typ.Tuic? <==> candidate.typ.Tuic?)
    && Effective(prior) == Effective(candidate)
  }

  // Exactly the inbounds that are not there already are probed: as they are, or, if they keep the listen address, port and
  // transport of the one of their name, on a port of the system's choosing.
  lemma ProbedExactlyWhen(previous: seq<InboundConfig>, candidate: InboundConfig)
    requires DistinctNames(previous)
    ensures ProbeOf(previous, candidate).Some? <==> candidate !in previous
    ensures candidate !in previous ==>
              var onSameSocket := (exists j :: 0 <= j < |previous| && OnSocketOf(previous[j], candidate));
              ProbeOf(previous, candidate) == Some(if onSameSocket then candidate.(port := 0, portAssigned := None) else candidate)
  {
    var prior := InboundIndex(previous, candidate.name);
    if candidate in previous {
      var j :| 0 <= j < |previous| && previous[j] == candidate;
      OwnIndex(previous, j);
    }
    forall j | 0 <= j < |previous| && previous[j].name == candidate.name
      ensures prior == Some(j)
    {
      OwnIndex(previous, j);
    }
  }

  // And a commit with any probe that does not start, or does not stop again, is refused without a trace.
  lemma FailedProbeRefuses(w: World, next: Config, env: CommitEnv, i: nat)
    requires ValidConfig(next) && i < |next.inbounds| && ProbeOf(w.config.inbounds, next.inbounds[i]).Some?
    requires env.probe(i)(ProbeOf(w.config.inbounds, next.inbounds[i]).value) != Starts(true)
    ensures Commit(w, next, env) == Commitment(w, Conflict)
  {
  }

  // The probe of a candidate never contests the socket that the listener of the same name already holds.
  lemma ProbeSparesOwnSocket(previous: seq<InboundConfig>, candidate: InboundConfig, j: nat)
    requires ValidInbounds(previous) && InboundIndex(previous, candidate.name) == Some(j)
    requires ProbeOf(previous, candidate).Some?
    ensures var p := ProbeOf(previous, candidate).value;
            !SameSocket(previous[j], p) && p == candidate.(port := p.port, portAssigned := p.portAssigned)
  {
    assert InboundOk(previous[j]);
  }

  // But it contests the sockets of the other listeners. If a socket in use cannot be bound, a candidate that hands a
  // running inbound's socket to an inbound of another name is refused: two inbounds cannot swap ports, and an inbound
  // cannot be renamed and keep its port.
  lemma TakeoverIsRefused(w: World, next: Config, env: CommitEnv, i: nat, j: nat)
    requires ValidConfig(w.config) && i < |next.inbounds| && j < |w.config.inbounds|
    requires forall k: nat, p | SameSocket(w.config.inbounds[j], p) :: env.probe(k)(p) == Fails
    requires SameSocket(w.config.inbounds[j], next.inbounds[i]) && w.config.inbounds[j].name != next.inbounds[i].name
    ensures Refused(w, next, env) && Commit(w, next, env).world == w && !Commit(w, next, env).verdict.Committed?
  {
    var candidate := next.inbounds[i];
    var prior := InboundIndex(w.config.inbounds, candidate.name);
    if prior.Some? {
      assert SockOf(w.config.inbounds[prior.value]) != SockOf(w.config.inbounds[j]);
    }
    assert ProbeOf(w.config.inbounds, candidate) == Some(candidate);
  }

  // A running listener has the socket of p.
  predicate Held(w: World, p: InboundConfig) {
    exists j :: 0 <= j < |w.config.inbounds| && w.config.inbounds[j].name in w.running && SameSocket(w.config.inbounds[j], p)
  }

  // Some inbound of the candidate asks for the socket of a running listener of another name.
  predicate TakesOver(w: World, next: Config) {
    exists i, j :: && 0 <= i < |next.inbounds| && 0 <= j < |w.config.inbounds|
                   && w.config.inbounds[j].name in w.running
                   && SameSocket(w.config.inbounds[j], next.inbounds[i]) && w.config.inbounds[j].name != next.inbounds[i].name
  }

  // Probes fail exactly on sockets that running listeners hold.
  ghost predicate ProbesFindHeld(w: World, probe: nat -> InboundConfig -> ProbeReply) {
    forall i: nat, p :: probe(i)(p) == Starts(true) <==> !Held(w, p)
  }

  // One candidate's probe runs into a held socket exactly if the candidate takes over another's.
  lemma ProbeHeldExactlyWhen(w: World, candidate: InboundConfig)
    requires ValidInbounds(w.config.inbounds)
    ensures var probe := ProbeOf(w.config.inbounds, candidate);
            (probe.Some? && Held(w, probe.value)) <==>
              exists j :: && 0 <= j < |w.config.inbounds| && w.config.inbounds[j].name in w.running
                          && SameSocket(w.config.inbounds[j], candidate) && w.config.inbounds[j].name != candidate.name
  {
    var inbounds := w.config.inbounds;
    var prior := InboundIndex(inbounds, candidate.name);
    forall j | 0 <= j < |inbounds|
      ensures Effective(inbounds[j]) != 0
      ensures prior.Some? && j != prior.value ==> inbounds[j].name != candidate.name && SockOf(inbounds[j]) != SockOf(inbounds[prior.value])
    {
      assert InboundOk(inbounds[j]);
    }
  }

  // Preflight passes exactly the candidates that take over no running listener's socket under another name.
  lemma PreflightExactlyWhen(w: World, next: Config, probe: nat -> InboundConfig -> ProbeReply)
    requires ValidInbounds(w.config.inbounds) && ProbesFindHeld(w, probe)
    ensures PreflightOk(w.config.inbounds, next.inbounds, probe) <==> !TakesOver(w, next)
  {
    forall i: nat | i < |next.inbounds|
      ensures var p := ProbeOf(w.config.inbounds, next.inbounds[i]);
              (p.Some? && probe(i)(p.value) != Starts(true)) <==>
                exists j :: && 0 <= j < |w.config.inbounds| && w.config.inbounds[j].name in w.running
                            && SameSocket(w.config.inbounds[j], next.inbounds[i])
                            && w.config.inbounds[j].name != next.inbounds[i].name
    {
      ProbeHeldExactlyWhen(w, next.inbounds[i]);
    }
  }

  // So a commit is refused, before anything is touched, exactly for an invalid candidate or one that takes over.
  lemma RefusedExactlyWhen(w: World, next: Config, env: CommitEnv)
    requires ValidConfig(w.config) && ProbesFindHeld(w, env.probe)
    ensures Refused(w, next, env) <==> !ValidConfig(next) || TakesOver(w, next)
    ensures !ValidConfig(next) ==> Commit(w, next, env) == Commitment(w, Invalid)
    ensures ValidConfig(next) && TakesOver(w, next) ==> Commit(w, next, env) == Commitment(w, Conflict)
    ensures ValidConfig(next) && !TakesOver(w, next) && AllStart(env.first) && env.saved ==>
              Commit(w, next, env).verdict == Committed && Commit(w, next, env).world.config == next
  {
    PreflightExactlyWhen(w, next, env.probe);
    if ValidConfig(next) && !TakesOver(w, next) && AllStart(env.first) && env.saved {
      CommitSucceeds(w, next, env);
    }
  }

  // ---- Whole runs ----

  // What an administrator may ask for, one request at a time.
  datatype Request =
    | Replace(next: Config, env: CommitEnv)
    | Resubscribe(path: string, token: string, saved: bool)
    | Account(ch: Change, saved: bool)

  function Served(w: World, r: Request): World {
    match r
    case Replace(next, env) => Commit(w, next, env).world
    case Resubscribe(path, token, saved) => Rewrite(w, Resubscribed(w.config, path, token), saved)
    case Account(ch, saved) =>
      if Judge(ch).Done? then Rewrite(w, Reaccounted(w.config, ch.user, HashOf(ch)), saved) else w
  }

  function Serve(w: World, requests: seq<Request>): World
    decreases |requests|
  {
    if requests == [] then w else Serve(Served(w, requests[0]), requests[1..])
  }

  // The save at the end of every commit works. A failing save of another request changes nothing.
  ghost predicate SavesWork(requests: seq<Request>) {
    forall k | 0 <= k < |requests| && requests[k].Replace? :: requests[k].env.saved
  }

  lemma RewriteKeeps(w: World, next: Config, saved: bool)
    requires ValidConfig(w.config) && Agrees(w) && next.inbounds == w.config.inbounds
    requires next.web.listenParses == w.config.web.listenParses
    ensures var after := Rewrite(w, next, saved);
            ValidConfig(after.config) && Agrees(after) && (InSync(w) ==> InSync(after))
  {
  }

  lemma ServedKeeps(w: World, r: Request)
    requires ValidConfig(w.config) && Agrees(w)
    ensures var after := Served(w, r);
            && ValidConfig(after.config) && Agrees(after)
            && (InSync(w) && (r.Replace? ==> r.env.saved) ==> InSync(after))
  {
    match r {
      case Replace(next, env) =>
        CommitKeeps(w, next, env);
        if InSync(w) && env.saved {
          SyncAfterCommit(w, next, env);
        }
      case Resubscribe(path, token, saved) => RewriteKeeps(w, Resubscribed(w.config, path, token), saved);
      case Account(ch, saved) => RewriteKeeps(w, Reaccounted(w.config, ch.user, HashOf(ch)), saved);
    }
  }

  // However many requests succeed or fail, what runs agrees with memory and memory is valid; and unless a save at the end of
  // a commit fails, the disk holds what is in memory.
  lemma {:induction false} RequestsKeep(w: World, requests: seq<Request>)
    requires ValidConfig(w.config) && Agrees(w)
    ensures var after := Serve(w, requests);
            ValidConfig(after.config) && Agrees(after) && (InSync(w) && SavesWork(requests) ==> InSync(after))
    decreases |requests|
  {
    if requests != [] {
      ServedKeeps(w, requests[0]);
      assert SavesWork(requests) ==> SavesWork(requests[1..]);
      RequestsKeep(Served(w, requests[0]), requests[1..]);
    }
  }

  // Whatever is requested, no plaintext password is ever written.
  ghost predicate NoPlaintext(disk: Load.DiskFile) { disk.Stored? ==> disk.config.web.password == "" }

  lemma {:induction false} PlaintextIsNeverWritten(w: World, requests: seq<Request>)
    requires NoPlaintext(w.disk)
    ensures NoPlaintext(Serve(w, requests).disk)
    decreases |requests|
  {
    if requests != [] {
      PlaintextIsNeverWritten(Served(w, requests[0]), requests[1..]);
    }
  }

  // The life of a node: load, start everything, then any requests.
  function Lifetime(disk: Load.DiskFile, load: Load.Env, start: Startup, requests: seq<Request>): World
    requires Load.Load(disk, load).config.Some?
  {
    var loaded := Load.Load(disk, load);
    Serve(Spawn(World(loaded.config.value, loaded.disk, map[]), start).world, requests)
  }

  // Throughout it listeners agree with a valid configuration in memory. If the saves work, a restart of the node at any
  // moment finds the same ports, names and secrets it ran with, or says that a socket is taken.
  lemma LifetimeKeeps(disk: Load.DiskFile, load: Load.Env, start: Startup, requests: seq<Request>, later: Load.Env)
    requires Load.Load(disk, load).config.Some?
    ensures var w := Lifetime(disk, load, start, requests);
            && ValidConfig(w.config) && Agrees(w)
            && (SavesWork(requests) && w.config.web.passwordHash != "" && w.config.subscription.generated && later.certificates ==>
                  && w.disk.Stored? && w.disk.config == w.config.(web := w.disk.config.web)
                  && w.disk.config.web == w.config.web.(password := w.disk.config.web.password)
                  && Load.Load(w.disk, later)
                     == Load.Loaded(if Load.PortsAvailable(w.disk.config, later.looks[0].free) then Some(w.disk.config) else None, w.disk))
  {
    Load.LoadKeeps(disk, load);
    var loaded := Load.Load(disk, load);
    var w0 := World(loaded.config.value, loaded.disk, map[]);
    SpawnAgrees(w0, start);
    RequestsKeep(Spawn(w0, start).world, requests);
    var w := Lifetime(disk, load, start, requests);
    if SavesWork(requests) && w.config.web.passwordHash != "" && w.config.subscription.generated && later.certificates {
      assert InSync(w0) && InSync(Spawn(w0, start).world);
      Reload(w, later);
    }
  }

  lemma Reload(w: World, later: Load.Env)
    requires ValidConfig(w.config) && InSync(w) && later.certificates
    requires w.config.web.passwordHash != "" && w.config.subscription.generated
    ensures w.disk.config == w.config.(web := w.disk.config.web)
    ensures w.disk.config.web == w.config.web.(password := w.disk.config.web.password)
    ensures Load.Load(w.disk, later)
         == Load.Loaded(if Load.PortsAvailable(w.disk.config, later.looks[0].free) then Some(w.disk.config) else None, w.disk)
  {
    forall i: nat | i < |w.config.inbounds|
      ensures !Missing(w.config.inbounds[i])
    {
      assert InboundOk(w.config.inbounds[i]);
    }
    assert Load.MissingIndices(w.config.inbounds) == {};
    Load.StoredIsComplete(w.config, w.disk.config);
    Load.UnchangedLoad(w.disk.config, false, later);
  }
}
