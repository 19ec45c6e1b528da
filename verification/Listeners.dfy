/** Starting, stopping and replacing the inbound listeners, with rollback. */
module Listeners {
  import opened Bytes
  import opened Config
  import Load

  const BIND_RETRIES := 16

  // How a start went. A listener asked for port 0 is given `ephemeral`.
  datatype Reply = Up(ephemeral: u16) | InUse | Broken

  // One attempt to start an inbound, and the port draws should it find its port taken.
  datatype Try = Try(reply: Reply, draws: Draws)
  type Tries = s: seq<Try> | |s| == BIND_RETRIES + 1 witness seq(BIND_RETRIES + 1, i => Try(Broken, seq(TRIES, j => Draw(1024, false))))

  /** What the outside world decides during one start of all inbounds: each inbound's attempts, then one save. */
  datatype Startup = Startup(tries: nat -> Tries, saved: bool)

  /** The configuration in memory, the one on disk, and the bound port of each running listener. */
  datatype World = World(config: Config, disk: Load.DiskFile, running: map<string, u16>)

  function Bound(inb: InboundConfig, ephemeral: u16): u16 {
    if Effective(inb) == 0 then ephemeral else Effective(inb)
  }

  // ---- One inbound ----

  datatype Attempt = Attempt(inbounds: seq<InboundConfig>, bound: Option<u16>)

  function StartOne(inbounds: seq<InboundConfig>, i: nat, tries: seq<Try>): (r: Attempt)
    requires i < |inbounds| && tries != []
    ensures |r.inbounds| == |inbounds|
    decreases |tries|
  {
    match tries[0].reply
    case Up(e) => Attempt(inbounds, Some(Bound(inbounds[i], e)))
    case Broken => Attempt(inbounds, None)
    case InUse =>
      var moved := Reassign(inbounds, inbounds[i].name, tries[0].draws);
      if inbounds[i].port != 0 || |tries| == 1 || moved.None? then Attempt(inbounds, None)
      else StartOne(moved.value, i, tries[1..])
  }

  // Start, and on a taken automatic port choose another and try again.
  method StartInbound(inbounds: seq<InboundConfig>, i: nat, tries: Tries) returns (r: Attempt)
    requires i < |inbounds|
    ensures r == StartOne(inbounds, i, tries)
  {
    var working, attempts: nat := inbounds, 0;
    while true
      invariant attempts <= BIND_RETRIES && |working| == |inbounds|
      invariant StartOne(inbounds, i, tries) == StartOne(working, i, tries[attempts..])
      decreases BIND_RETRIES - attempts
    {
      assert tries[attempts..][0] == tries[attempts] && tries[attempts..][1..] == tries[attempts + 1..];
      var candidate := working[i];
      match tries[attempts].reply
      case Up(e) => return Attempt(working, Some(Bound(candidate, e)));
      case Broken => return Attempt(working, None);
      case InUse =>
        if candidate.port != 0 || attempts == BIND_RETRIES {
          return Attempt(working, None);
        }
        var ok, moved := ReassignAutoPort(working, candidate.name, tries[attempts].draws);
        if !ok {
          return Attempt(working, None);
        }
        working, attempts := moved, attempts + 1;
    }
  }

  // ---- All inbounds ----

  datatype Pass = Pass(inbounds: seq<InboundConfig>, running: map<string, u16>, changed: bool, all: bool)

  function Enter(p: Pass, i: nat, env: Startup): Pass
    requires i < |p.inbounds|
  {
    var one := StartOne(p.inbounds, i, env.tries(i));
    Pass(one.inbounds,
         if one.bound.Some? then p.running[one.inbounds[i].name := one.bound.value] else p.running,
         p.changed || Effective(one.inbounds[i]) != Effective(p.inbounds[i]),
         p.all && one.bound.Some?)
  }

  function StartFrom(p: Pass, i: nat, env: Startup): Pass
    requires i <= |p.inbounds|
    decreases |p.inbounds| - i
  {
    if i == |p.inbounds| then p else StartFrom(Enter(p, i, env), i + 1, env)
  }

  // Copies assigned ports by name into the configuration in memory.
  function Merge(into: seq<InboundConfig>, from: seq<InboundConfig>, i: nat): seq<InboundConfig>
    requires i <= |from|
    decreases |from| - i
  {
    if i == |from| then into else
    var index := InboundIndex(into, from[i].name);
    if index.None? then Merge(into, from, i + 1)
    else Merge(into[index.value := into[index.value].(portAssigned := from[i].portAssigned)], from, i + 1)
  }

  datatype Outcome = Outcome(world: World, ok: bool)

  function Spawn(w: World, env: Startup): Outcome {
    var p := StartFrom(Pass(w.config.inbounds, w.running, false, true), 0, env);
    var next := w.config.(inbounds := Merge(w.config.inbounds, p.inbounds, 0));
    if !p.changed then Outcome(w.(running := p.running), p.all)
    else if p.all && env.saved then Outcome(World(next, Load.Stored(Load.Persisted(next)), p.running), true)
    else Outcome(Stopped(w), false)
  }

  function Stopped(w: World): World { w.(running := map[]) }

  function Restart(w: World, env: Startup): Outcome { Spawn(Stopped(w), env) }

  // ---- Preflight ----

  datatype ProbeReply = Starts(stops: bool) | Fails

  predicate SameSocket(a: InboundConfig, b: InboundConfig) {
    a.listen == b.listen && Effective(a) == Effective(b) && a.typ.Tuic? == b.typ.Tuic?
  }

  // What is tried for a candidate; nothing if it is unchanged.
  function ProbeOf(previous: seq<InboundConfig>, candidate: InboundConfig): Option<InboundConfig> {
    var prior := InboundIndex(previous, candidate.name);
    if prior.None? then Some(candidate)
    else if previous[prior.value] == candidate then None
    else if SameSocket(previous[prior.value], candidate) then Some(candidate.(port := 0, portAssigned := None))
    else Some(candidate)
  }

  // Every changed candidate must start, and stop again.
  predicate PreflightOk(previous: seq<InboundConfig>, next: seq<InboundConfig>, probe: nat -> InboundConfig -> ProbeReply) {
    forall i: nat | i < |next| && ProbeOf(previous, next[i]).Some? ::
      probe(i)(ProbeOf(previous, next[i]).value) == Starts(true)
  }

  method PreflightInbounds(previous: seq<InboundConfig>, next: seq<InboundConfig>,
                           probe: nat -> InboundConfig -> ProbeReply) returns (ok: bool)
    ensures ok <==> PreflightOk(previous, next, probe)
  {
    for i := 0 to |next|
      invariant forall k: nat | k < i && ProbeOf(previous, next[k]).Some? ::
          probe(k)(ProbeOf(previous, next[k]).value) == Starts(true)
    {
      var attempt := ProbeOf(previous, next[i]);
      if attempt.Some? {
        match probe(i)(attempt.value)
        case Starts(stops) =>
          if !stops {
            return false;
          }
        case Fails =>
          return false;
      }
    }
    return true;
  }

  // ---- Commit ----

  datatype Verdict = Committed | Invalid | Conflict | Unsaved

  datatype CommitEnv = CommitEnv(probe: nat -> InboundConfig -> ProbeReply, first: Startup, saved: bool, rollback: Startup)

  datatype Commitment = Commitment(world: World, verdict: Verdict)

  function Commit(w: World, next: Config, env: CommitEnv): Commitment {
    if !ValidConfig(next) then Commitment(w, Invalid)
    else if !PreflightOk(w.config.inbounds, next.inbounds, env.probe) then Commitment(w, Conflict)
    else
      var tried := Restart(w.(config := next), env.first);
      if tried.ok && env.saved then
        Commitment(tried.world.(disk := Load.Stored(Load.Persisted(tried.world.config))), Committed)
      else
        Commitment(Restart(tried.world.(config := w.config), env.rollback).world, if tried.ok then Unsaved else Conflict)
  }

  // ---- Changes without a restart ----

  // A handler that edits the configuration under the lock: saved first, then in memory; if the save fails, neither.
  function Rewrite(w: World, next: Config, saved: bool): World {
    if saved then World(next, Load.Stored(Load.Persisted(next)), w.running) else w
  }

  function Resubscribed(c: Config, path: string, token: string): Config {
    c.(subscription := c.subscription.(path := "/" + path, token := token))
  }

  // A user name or password that is absent or empty is no change; `hash` is that of a new password.
  function Reaccounted(c: Config, user: Option<string>, hash: Option<Load.Hash>): Config {
    var named := if user.None? || user.value == "" then c.web else c.web.(user := user.value);
    c.(web := if hash.None? then named else named.(passwordHash := hash.value, password := ""))
  }

  datatype Answer = Done | Unprocessable | Unauthorized | Internal

  /** What an administrator sends to change the account; `verified` says whether the old password was right, `hash` is Argon2id. */
  datatype Change = Change(verified: bool, user: Option<string>, password: Option<seq<byte>>, hash: seq<byte> -> Option<Load.Hash>)

  predicate NewPassword(ch: Change) { ch.password.Some? && ch.password.value != [] }

  // The checks in the order they are made, the save not counted.
  function Judge(ch: Change): Answer {
    if NewPassword(ch) && |ch.password.value| < 12 then Unprocessable
    else if !ch.verified then Unauthorized
    else if NewPassword(ch) && ch.hash(ch.password.value).None? then Internal
    else Done
  }

  function HashOf(ch: Change): Option<Load.Hash> {
    if NewPassword(ch) then ch.hash(ch.password.value) else None
  }

  /** The running node. */
  class Node {
    var config: Config
    var disk: Load.DiskFile
    var running: map<string, u16>

    ghost function State(): World reads this { World(config, disk, running) }

    method StopAll()
      modifies this
      ensures State() == Stopped(old(State()))
    {
      running := map[];
    }

    // `save`: replaces the file, or leaves it as it was.
    method Save(c: Config, works: bool) returns (ok: bool)
      modifies this`disk
      ensures ok == works && disk == if ok then Load.Stored(Load.Persisted(c)) else old(disk)
    {
      if works {
        disk := Load.Stored(Load.Persisted(c));
      }
      return works;
    }

    // One round of the loop of `spawn_all`.
    method EnterInbound(inbounds: seq<InboundConfig>, moved: bool, up: bool, i: nat, env: Startup)
      returns (working: seq<InboundConfig>, changed: bool, all: bool)
      requires i < |inbounds|
      modifies this`running
      ensures Pass(working, running, changed, all) == Enter(Pass(inbounds, old(running), moved, up), i, env)
    {
      var initialPort := Effective(inbounds[i]);
      var one := StartInbound(inbounds, i, env.tries(i));
      working := one.inbounds;
      changed := moved || Effective(working[i]) != initialPort;
      all := up;
      if one.bound.Some? {
        running := running[working[i].name := one.bound.value];
      } else {
        all := false;
      }
    }

    // The loop of `spawn_all`.
    method StartAll(env: Startup) returns (working: seq<InboundConfig>, changed: bool, all: bool)
      modifies this`running
      ensures Pass(working, running, changed, all) == StartFrom(Pass(config.inbounds, old(running), false, true), 0, env)
    {
      working, all, changed := config.inbounds, true, false;
      ghost var goal := StartFrom(Pass(working, running, changed, all), 0, env);
      for i := 0 to |working|
        invariant |working| == |config.inbounds|
        invariant goal == StartFrom(Pass(working, running, changed, all), i, env)
      {
        working, changed, all := EnterInbound(working, changed, all, i, env);
      }
    }

    method SpawnAll(env: Startup) returns (ok: bool)
      modifies this
      ensures Outcome(State(), ok) == Spawn(old(State()), env)
    {
      var working, changed, all := StartAll(env);
      ok := all;
      if changed {
        if all {
          var next := MergePorts(config, working);
          var saved := Save(next, env.saved);
          if saved {
            config := next;
          } else {
            StopAll();
            ok := false;
          }
        } else {
          StopAll();
        }
      }
    }

    method RestartInbounds(env: Startup) returns (ok: bool)
      modifies this
      ensures Outcome(State(), ok) == Restart(old(State()), env)
    {
      StopAll();
      ok := SpawnAll(env);
    }

    // Only the subscription's path and token change, and only once they are saved.
    method RegenerateSubscription(path: string, token: string, works: bool) returns (ok: bool)
      modifies this
      ensures State() == Rewrite(old(State()), Resubscribed(old(config), path, token), works) && ok == works
      ensures running == old(running) && (!ok ==> config == old(config) && disk == old(disk))
      ensures ok ==>
                var s := old(config).subscription;
                && config == old(config).(subscription := Subscription(s.enabled, "/" + path, token, s.generated))
                && disk == Load.Stored(config.(web := config.web.(password := "")))
    {
      var next := config.(subscription := config.subscription.(path := "/" + path, token := token));
      ok := Save(next, works);
      if ok {
        config := next;
      }
    }

    // Only the account changes, only if all checks pass, and only once it is saved.
    method ChangeAccount(ch: Change, works: bool) returns (answer: Answer)
      modifies this
      ensures State() == if Judge(ch).Done? then Rewrite(old(State()), Reaccounted(old(config), ch.user, HashOf(ch)), works)
                         else old(State())
      ensures answer == if Judge(ch).Done? && !works then Internal else Judge(ch)
      ensures var newPassword := ch.password.Some? && ch.password.value != [];
              && (answer.Done? <==>
                    works && ch.verified && (newPassword ==> |ch.password.value| >= 12 && ch.hash(ch.password.value).Some?))
              && (answer.Unprocessable? <==> newPassword && |ch.password.value| < 12)
              && (answer.Unauthorized? <==> !(newPassword && |ch.password.value| < 12) && !ch.verified)
              && (answer.Done? ==>
                    var w := old(config).web;
                    var named := if ch.user.Some? && ch.user.value != "" then w.(user := ch.user.value) else w;
                    && config == old(config).(web := if !newPassword then named
                                                     else named.(passwordHash := ch.hash(ch.password.value).value, password := ""))
                    && disk == Load.Stored(config.(web := config.web.(password := ""))))
      ensures running == old(running) && (!answer.Done? ==> config == old(config) && disk == old(disk))
    {
      var newPassword := ch.password.Some? && ch.password.value != [];
      if newPassword && |ch.password.value| < 12 {
        return Unprocessable;
      }
      if !ch.verified {
        return Unauthorized;
      }
      var next := config;
      if ch.user.Some? && ch.user.value != "" {
        next := next.(web := next.web.(user := ch.user.value));
      }
      if newPassword {
        var hash := ch.hash(ch.password.value);
        if hash.None? {
          return Internal;
        }
        next := next.(web := next.web.(passwordHash := hash.value, password := ""));
      }
      var ok := Save(next, works);
      if !ok {
        return Internal;
      }
      config := next;
      return Done;
    }

    method CommitConfig(next: Config, env: CommitEnv) returns (verdict: Verdict)
      modifies this
      ensures Commitment(State(), verdict) == Commit(old(State()), next, env)
    {
      var error := Validate(next);
      if error.Some? {
        return Invalid;
      }
      var previous := config;
      var fit := PreflightInbounds(previous.inbounds, next.inbounds, env.probe);
      if !fit {
        return Conflict;
      }
      config := next;
      var ok := RestartInbounds(env.first);
      if !ok {
        config := previous;
        var _ := RestartInbounds(env.rollback);
        return Conflict;
      }
      var saved := Save(config, env.saved);
      if !saved {
        config := previous;
        var _ := RestartInbounds(env.rollback);
        return Unsaved;
      }
      return Committed;
    }
  }

  method MergePorts(c: Config, from: seq<InboundConfig>) returns (next: Config)
    ensures next == c.(inbounds := Merge(c.inbounds, from, 0))
  {
    next := c;
    ghost var goal := Merge(c.inbounds, from, 0);
    for i := 0 to |from|
      invariant next == c.(inbounds := next.inbounds) && goal == Merge(next.inbounds, from, i)
    {
      var index := InboundIndex(next.inbounds, from[i].name);
      if index.Some? {
        var inb := next.inbounds[index.value];
        next := next.(inbounds := next.inbounds[index.value := inb.(portAssigned := from[i].portAssigned)]);
      }
    }
  }
}
