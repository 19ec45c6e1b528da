/** What starting and committing keep: listeners agree with memory, memory is all-or-nothing, and what the disk holds. */
module ListenerSafety {
  import opened Bytes
  import opened Config
  import opened Listeners
  import Load

  // `b` differs from `a` at most in the assigned ports of automatic inbounds.
  ghost predicate UpToPorts(a: seq<InboundConfig>, b: seq<InboundConfig>) {
    |b| == |a| && forall i | 0 <= i < |a| :: MovedAtMost(a[i], b[i])
  }

  ghost predicate MovedAtMost(a: InboundConfig, b: InboundConfig) {
    b == a || (a.port == 0 && b.portAssigned.Some? && b == WithPort(a, b.portAssigned.value))
  }

  ghost predicate SameUpToPorts(a: Config, b: Config) {
    b == a.(inbounds := b.inbounds) && UpToPorts(a.inbounds, b.inbounds)
  }

  // Each listener that runs belongs to an inbound and is bound to its effective port.
  ghost predicate Agrees(w: World) {
    && (forall name | name in w.running :: InboundIndex(w.config.inbounds, name).Some?)
    && (forall i | 0 <= i < |w.config.inbounds| && w.config.inbounds[i].name in w.running ::
          w.running[w.config.inbounds[i].name] == Effective(w.config.inbounds[i]))
  }

  ghost predicate AllRun(w: World) {
    forall i | 0 <= i < |w.config.inbounds| :: w.config.inbounds[i].name in w.running
  }

  // ---- One inbound ----

  lemma OwnIndex(inbounds: seq<InboundConfig>, i: nat)
    requires i < |inbounds| && DistinctNames(inbounds)
    ensures InboundIndex(inbounds, inbounds[i].name) == Some(i)
  {
  }

  // Starting inbound i may move its own automatic port and nothing else; the listener gets the port it ended with.
  ghost predicate OnlyMoved(before: seq<InboundConfig>, after: seq<InboundConfig>, i: nat) {
    && |after| == |before| && i < |before| && MovedAtMost(before[i], after[i])
    && forall k | 0 <= k < |before| && k != i :: after[k] == before[k]
  }

  lemma MovedTwice(a: seq<InboundConfig>, b: seq<InboundConfig>, c: seq<InboundConfig>, i: nat)
    requires OnlyMoved(a, b, i) && OnlyMoved(b, c, i)
    ensures OnlyMoved(a, c, i)
  {
  }

  lemma ReassignKeeps(inbounds: seq<InboundConfig>, i: nat, draws: Draws)
    requires ValidInbounds(inbounds) && i < |inbounds| && Reassign(inbounds, inbounds[i].name, draws).Some?
    ensures var moved := Reassign(inbounds, inbounds[i].name, draws).value;
            ValidInbounds(moved) && OnlyMoved(inbounds, moved, i)
  {
    OwnIndex(inbounds, i);
    ReassignMoves(inbounds, inbounds[i].name, draws);
    MovedStaysValid(inbounds, Reassign(inbounds, inbounds[i].name, draws).value, i);
  }

  ghost predicate StartKept(before: seq<InboundConfig>, i: nat, r: Attempt) {
    && ValidInbounds(r.inbounds) && OnlyMoved(before, r.inbounds, i)
    && (r.bound.Some? ==> r.bound.value == Effective(r.inbounds[i]))
  }

  // Retrying after a taken port keeps the inbounds valid, though they are not validated again.
  lemma {:induction false} StartOneKeeps(inbounds: seq<InboundConfig>, i: nat, tries: seq<Try>)
    requires ValidInbounds(inbounds) && i < |inbounds| && tries != []
    ensures StartKept(inbounds, i, StartOne(inbounds, i, tries))
    decreases |tries|
  {
    var moved := Reassign(inbounds, inbounds[i].name, tries[0].draws);
    if tries[0].reply.InUse? && inbounds[i].port == 0 && |tries| > 1 && moved.Some? {
      ReassignKeeps(inbounds, i, tries[0].draws);
      StartOneKeeps(moved.value, i, tries[1..]);
      KeptLater(inbounds, moved.value, i, StartOne(moved.value, i, tries[1..]));
    } else {
      assert InboundOk(inbounds[i]);
    }
  }

  lemma KeptLater(inbounds: seq<InboundConfig>, moved: seq<InboundConfig>, i: nat, r: Attempt)
    requires OnlyMoved(inbounds, moved, i) && StartKept(moved, i, r)
    ensures StartKept(inbounds, i, r)
  {
    MovedTwice(inbounds, moved, r.inbounds, i);
  }

  // The k-th attempt succeeds, and each one before found the port taken and a free port to move to.
  ghost predicate UpAt(tries: seq<Try>, k: nat, udp: bool, others: set<Sock>) {
    && k < |tries| && tries[k].reply.Up?
    && forall m | 0 <= m < k :: tries[m].reply.InUse? && AnyUsable(tries[m].draws, udp, others)
  }

  ghost predicate UpSometime(tries: seq<Try>, udp: bool, others: set<Sock>) {
    exists k: nat :: UpAt(tries, k, udp, others)
  }

  lemma UpLater(tries: seq<Try>, udp: bool, others: set<Sock>)
    requires tries != [] && tries[0].reply.InUse?
    ensures UpSometime(tries, udp, others) <==> AnyUsable(tries[0].draws, udp, others) && UpSometime(tries[1..], udp, others)
  {
    if UpSometime(tries, udp, others) {
      var k: nat :| UpAt(tries, k, udp, others);
      assert UpAt(tries[1..], k - 1, udp, others) by {
        assert forall m | 0 <= m < k - 1 :: tries[1..][m] == tries[m + 1];
      }
    }
    if AnyUsable(tries[0].draws, udp, others) && UpSometime(tries[1..], udp, others) {
      var k: nat :| UpAt(tries[1..], k, udp, others);
      assert UpAt(tries, k + 1, udp, others) by {
        assert forall m | 1 <= m < k + 1 :: tries[m] == tries[1..][m - 1];
      }
    }
  }

  lemma SameOthers(before: seq<InboundConfig>, after: seq<InboundConfig>, i: nat)
    requires OnlyMoved(before, after, i)
    ensures OthersSelected(after, i) == OthersSelected(before, i)
  {
  }

  // An inbound with an automatic port comes up exactly when one of its 17 attempts does and every earlier one found its
  // port taken and a free one to move to; an inbound with a fixed port has only its first attempt.
  lemma {:induction false} StartsExactlyWhen(inbounds: seq<InboundConfig>, i: nat, tries: seq<Try>)
    requires ValidInbounds(inbounds) && i < |inbounds| && tries != []
    ensures StartOne(inbounds, i, tries).bound.Some? <==>
              if inbounds[i].port == 0 then UpSometime(tries, inbounds[i].typ.Tuic?, OthersSelected(inbounds, i))
              else tries[0].reply.Up?
    decreases |tries|
  {
    var udp, others := inbounds[i].typ.Tuic?, OthersSelected(inbounds, i);
    if tries[0].reply.Up? {
      assert UpAt(tries, 0, udp, others);
    } else if tries[0].reply.InUse? && inbounds[i].port == 0 {
      OwnIndex(inbounds, i);
      ChooseFinds(udp, others, tries[0].draws);
      UpLater(tries, udp, others);
      var moved := Reassign(inbounds, inbounds[i].name, tries[0].draws);
      if |tries| > 1 && moved.Some? {
        ReassignKeeps(inbounds, i, tries[0].draws);
        SameOthers(inbounds, moved.value, i);
        StartsExactlyWhen(moved.value, i, tries[1..]);
      }
    }
  }

  // ---- All inbounds ----

  // The inbounds: valid, moved only among the first i, and moved at all exactly when the pass says so.
  ghost predicate PortsInv(base: seq<InboundConfig>, p: Pass, i: nat) {
    && ValidInbounds(p.inbounds) && UpToPorts(base, p.inbounds) && i <= |p.inbounds|
    && (forall k | i <= k < |p.inbounds| :: p.inbounds[k] == base[k])
    && (!p.changed ==> p.inbounds == base)
    && (p.changed ==> exists k :: 0 <= k < i && Effective(p.inbounds[k]) != Effective(base[k]))
  }

  ghost predicate Named(inbounds: seq<InboundConfig>, i: nat, name: string)
    requires i <= |inbounds|
  {
    exists k :: 0 <= k < i && inbounds[k].name == name
  }

  // The listeners: only of the first i inbounds, each on its effective port.
  ghost predicate RunInv(inbounds: seq<InboundConfig>, running: map<string, u16>, all: bool, i: nat)
    requires i <= |inbounds|
  {
    && (forall name | name in running :: Named(inbounds, i, name))
    && (forall k | 0 <= k < i && inbounds[k].name in running :: running[inbounds[k].name] == Effective(inbounds[k]))
    && (all <==> forall k | 0 <= k < i :: inbounds[k].name in running)
  }

  ghost predicate PassInv(base: seq<InboundConfig>, p: Pass, i: nat) {
    PortsInv(base, p, i) && RunInv(p.inbounds, p.running, p.all, i)
  }

  lemma PortsStep(base: seq<InboundConfig>, p: Pass, q: Pass, i: nat)
    requires PortsInv(base, p, i) && i < |p.inbounds|
    requires ValidInbounds(q.inbounds) && OnlyMoved(p.inbounds, q.inbounds, i)
    requires q.changed == (p.changed || Effective(q.inbounds[i]) != Effective(p.inbounds[i]))
    ensures PortsInv(base, q, i + 1)
  {
    forall k | 0 <= k < |q.inbounds|
      ensures MovedAtMost(base[k], q.inbounds[k])
    {
      assert k != i ==> q.inbounds[k] == p.inbounds[k];
    }
    if p.changed {
      var k :| 0 <= k < i && Effective(p.inbounds[k]) != Effective(base[k]);
      assert q.inbounds[k] == p.inbounds[k];
    } else if !q.changed {
      assert InboundOk(p.inbounds[i]);
      assert q.inbounds[i] == p.inbounds[i];
    }
  }

  lemma RunStep(before: seq<InboundConfig>, inbounds: seq<InboundConfig>, running: map<string, u16>, all: bool, i: nat,
                started: bool)
    requires i < |before| && RunInv(before, running, all, i) && OnlyMoved(before, inbounds, i) && DistinctNames(before)
    ensures var next := if started then running[inbounds[i].name := Effective(inbounds[i])] else running;
            RunInv(inbounds, next, all && started, i + 1)
  {
    var next := if started then running[inbounds[i].name := Effective(inbounds[i])] else running;
    forall k | 0 <= k < i
      ensures inbounds[k] == before[k] && inbounds[k].name != inbounds[i].name
      ensures inbounds[k].name in next <==> before[k].name in running
    {
    }
    assert !Named(before, i, inbounds[i].name);
    forall name | name in next
      ensures Named(inbounds, i + 1, name)
    {
      if name in running {
        assert Named(before, i, name);
        var k :| 0 <= k < i && before[k].name == name;
        assert inbounds[k].name == name;
      } else {
        assert inbounds[i].name == name;
      }
    }
  }

  lemma EnterKeeps(base: seq<InboundConfig>, p: Pass, i: nat, env: Startup)
    requires PassInv(base, p, i) && i < |p.inbounds|
    ensures PassInv(base, Enter(p, i, env), i + 1)
  {
    StartOneKeeps(p.inbounds, i, env.tries(i));
    var one := StartOne(p.inbounds, i, env.tries(i));
    PortsStep(base, p, Enter(p, i, env), i);
    RunStep(p.inbounds, one.inbounds, p.running, p.all, i, one.bound.Some?);
  }

  lemma {:induction false} PassKeeps(base: seq<InboundConfig>, p: Pass, i: nat, env: Startup, q: Pass)
    requires PassInv(base, p, i) && q == StartFrom(p, i, env)
    ensures |q.inbounds| == |p.inbounds| && PassInv(base, q, |q.inbounds|)
    decreases |p.inbounds| - i
  {
    if i < |p.inbounds| {
      EnterKeeps(base, p, i, env);
      PassKeeps(base, Enter(p, i, env), i + 1, env, q);
    } else {
      PassEnds(base, p, i, q);
    }
  }

  lemma PassEnds(base: seq<InboundConfig>, p: Pass, i: nat, q: Pass)
    requires PassInv(base, p, i) && i >= |p.inbounds| && q == p
    ensures |q.inbounds| == |p.inbounds| && PassInv(base, q, |q.inbounds|)
  {
    assert i == |p.inbounds|;
  }

  // Copying the ports back by name gives exactly the inbounds that were started.
  lemma {:induction false} MergeIsWorking(into: seq<InboundConfig>, from: seq<InboundConfig>, i: nat)
    requires i <= |from| && |into| == |from| && DistinctNames(into)
    requires forall k | 0 <= k < i :: into[k] == from[k]
    requires forall k | 0 <= k < |from| :: from[k] == into[k].(portAssigned := from[k].portAssigned)
    ensures Merge(into, from, i) == from
    decreases |from| - i
  {
    if i < |from| {
      assert from[i].name == into[i].name;
      OwnIndex(into, i);
      MergeIsWorking(into[i := into[i].(portAssigned := from[i].portAssigned)], from, i + 1);
    }
  }

  /** The outcome says whether every inbound runs; every listener runs on the port memory gives its inbound; memory
      changes only in automatic ports, only if all run, and then the disk holds just that; otherwise the disk is as before. */
  ghost predicate Settled(w: World, o: Outcome) {
    && ValidConfig(o.world.config) && SameUpToPorts(w.config, o.world.config)
    && Agrees(o.world) && (o.ok <==> AllRun(o.world))
    && o.world.disk == (if o.world.config != w.config then Load.Stored(Load.Persisted(o.world.config)) else w.disk)
    && (!o.ok ==> o.world.config == w.config)
  }

  // Starting with no listeners running.
  lemma SpawnAgrees(w: World, env: Startup)
    requires w.running == map[] && ValidConfig(w.config)
    ensures Settled(w, Spawn(w, env))
  {
    var start := Pass(w.config.inbounds, w.running, false, true);
    var p := StartFrom(start, 0, env);
    PassKeeps(w.config.inbounds, start, 0, env, p);
    PassSettles(w, p, env);
  }

  lemma RunningAgrees(w: World, all: bool)
    requires RunInv(w.config.inbounds, w.running, all, |w.config.inbounds|)
    ensures Agrees(w) && (all <==> AllRun(w))
  {
    forall name | name in w.running
      ensures InboundIndex(w.config.inbounds, name).Some?
    {
      assert Named(w.config.inbounds, |w.config.inbounds|, name);
    }
  }

  lemma PassSettles(w: World, p: Pass, env: Startup)
    requires w.running == map[] && ValidConfig(w.config)
    requires p == StartFrom(Pass(w.config.inbounds, w.running, false, true), 0, env)
    requires PassInv(w.config.inbounds, p, |p.inbounds|)
    ensures Settled(w, Spawn(w, env))
  {
    if !p.changed {
      RunningAgrees(w.(running := p.running), p.all);
    } else {
      MovedPortsSettle(w, p, env);
    }
  }

  lemma MovedPortsSettle(w: World, p: Pass, env: Startup)
    requires w.running == map[] && ValidConfig(w.config) && p.changed
    requires p == StartFrom(Pass(w.config.inbounds, w.running, false, true), 0, env)
    requires PassInv(w.config.inbounds, p, |p.inbounds|)
    ensures Settled(w, Spawn(w, env))
  {
    MergeIsWorking(w.config.inbounds, p.inbounds, 0);
    var next := w.config.(inbounds := p.inbounds);
    var k :| 0 <= k < |p.inbounds| && Effective(p.inbounds[k]) != Effective(w.config.inbounds[k]);
    assert next.inbounds[k] != w.config.inbounds[k];
    RunningAgrees(World(next, Load.Stored(Load.Persisted(next)), p.running), p.all);
    assert !AllRun(Stopped(w)) by {
      assert w.config.inbounds[k].name !in Stopped(w).running;
    }
  }

  lemma RestartAgrees(w: World, env: Startup)
    requires ValidConfig(w.config)
    ensures Settled(w, Restart(w, env))
  {
    SpawnAgrees(Stopped(w), env);
  }

  // ---- Exactly which inbounds run ----

  // The sockets of the other inbounds while inbound i is started: those before it are where they ended up.
  function Around(base: seq<InboundConfig>, ended: seq<InboundConfig>, i: nat): set<Sock>
    requires |ended| == |base|
  {
    (set k | 0 <= k < |ended| && k < i :: SockOf(ended[k])) + (set k | 0 <= k < |base| && k > i :: SockOf(base[k]))
  }

  // An attempt that finds the port taken, and a free one to move to.
  ghost predicate GivesWay(t: Try, udp: bool, others: set<Sock>) {
    t.reply.InUse? && exists d | 0 <= d < 256 :: t.draws[d].free && Sock(udp, t.draws[d].port) !in others
  }

  ghost predicate UpOn(tries: Tries, k: nat, udp: bool, others: set<Sock>)
    requires k < 17
  {
    tries[k].reply.Up? && forall m: nat | m < k :: GivesWay(tries[m], udp, others)
  }

  // An inbound's own attempts bring it up: on a fixed port the first; on an automatic one any of 17, if each before it found its
  // port taken and a free one to move to.
  ghost predicate ComesUp(inb: InboundConfig, tries: Tries, others: set<Sock>) {
    if inb.port != 0 then tries[0].reply.Up? else exists k: nat | k < 17 :: UpOn(tries, k, inb.typ.Tuic?, others)
  }

  lemma SeventeenTries(inb: InboundConfig, tries: Tries, others: set<Sock>)
    requires inb.port == 0
    ensures ComesUp(inb, tries, others) <==> UpSometime(tries, inb.typ.Tuic?, others)
  {
    var udp := inb.typ.Tuic?;
    forall m: nat | m < 17
      ensures GivesWay(tries[m], udp, others) <==> tries[m].reply.InUse? && AnyUsable(tries[m].draws, udp, others)
    {
    }
    forall k: nat | k < 17
      ensures UpOn(tries, k, udp, others) <==> UpAt(tries, k, udp, others)
    {
    }
    if k: nat :| UpAt(tries, k, udp, others) {
      assert UpOn(tries, k, udp, others);
    }
  }

  // The inbounds in the middle of a pass: those before i as they will end, those from i on as they began.
  ghost predicate Midway(base: seq<InboundConfig>, now: seq<InboundConfig>, ended: seq<InboundConfig>, i: nat) {
    && |now| == |base| == |ended| && i <= |base|
    && (forall k | 0 <= k < i :: now[k] == ended[k]) && (forall k | i <= k < |base| :: now[k] == base[k])
  }

  lemma OthersAround(base: seq<InboundConfig>, now: seq<InboundConfig>, ended: seq<InboundConfig>, i: nat)
    requires Midway(base, now, ended, i) && i < |base| && ValidInbounds(now)
    ensures OthersSelected(now, i) == Around(base, ended, i)
  {
    forall k | 0 <= k < |now|
      ensures Effective(now[k]) != 0
    {
      assert InboundOk(now[k]);
    }
  }

  // One round leaves the listeners of earlier inbounds alone and adds inbound i's exactly if it comes up.
  lemma EnterStarts(base: seq<InboundConfig>, p: Pass, i: nat, env: Startup, ended: seq<InboundConfig>)
    requires PassInv(base, p, i) && Midway(base, p.inbounds, ended, i) && i < |base|
    ensures var q := Enter(p, i, env);
            && (base[i].name in q.running <==> ComesUp(base[i], env.tries(i), Around(base, ended, i)))
            && (forall k | 0 <= k < |base| && k != i :: base[k].name in q.running <==> base[k].name in p.running)
  {
    StartsExactlyWhen(p.inbounds, i, env.tries(i));
    StartOneKeeps(p.inbounds, i, env.tries(i));
    OthersAround(base, p.inbounds, ended, i);
    if base[i].port == 0 {
      SeventeenTries(base[i], env.tries(i), Around(base, ended, i));
    }
    NotYetRunning(base, p, i);
  }

  lemma NotYetRunning(base: seq<InboundConfig>, p: Pass, i: nat)
    requires PassInv(base, p, i) && i < |base|
    ensures base[i].name !in p.running && p.inbounds[i] == base[i]
    ensures forall k | 0 <= k < |base| && k != i :: base[k].name != base[i].name
  {
    forall k | 0 <= k < |base| && k != i
      ensures base[k].name != base[i].name
    {
      assert MovedAtMost(base[k], p.inbounds[k]) && p.inbounds[k].name != p.inbounds[i].name;
    }
  }

  // From round i on: listeners there already stay, and each inbound still to come gets one exactly if it comes up.
  ghost predicate StartsFrom(base: seq<InboundConfig>, env: Startup, p: Pass, q: Pass, i: nat) {
    && Midway(base, p.inbounds, q.inbounds, i)
    && (forall k: nat | k < i :: base[k].name in q.running <==> base[k].name in p.running)
    && (forall k: nat | i <= k < |base| ::
          base[k].name in q.running <==> ComesUp(base[k], env.tries(k), Around(base, q.inbounds, k)))
  }

  lemma StartsNext(base: seq<InboundConfig>, env: Startup, p: Pass, next: Pass, q: Pass, i: nat)
    requires PassInv(base, p, i) && i < |base| && |p.inbounds| == |base| && next == Enter(p, i, env)
    requires OnlyMoved(p.inbounds, next.inbounds, i) && StartsFrom(base, env, next, q, i + 1)
    ensures StartsFrom(base, env, p, q, i)
  {
    assert forall k | 0 <= k < i :: p.inbounds[k] == next.inbounds[k];
    EnterStarts(base, p, i, env, q.inbounds);
  }

  lemma {:induction false} PassStarts(base: seq<InboundConfig>, p: Pass, i: nat, env: Startup, q: Pass)
    requires PassInv(base, p, i) && q == StartFrom(p, i, env) && |q.inbounds| == |base| == |p.inbounds|
    ensures StartsFrom(base, env, p, q, i)
    decreases |p.inbounds| - i
  {
    if i < |p.inbounds| {
      EnterKeeps(base, p, i, env);
      StartOneKeeps(p.inbounds, i, env.tries(i));
      PassStarts(base, Enter(p, i, env), i + 1, env, q);
      StartsNext(base, env, p, Enter(p, i, env), q, i);
    }
  }

  // Starting all inbounds from no listeners: each one runs exactly by its own attempts, whatever became of the others.
  lemma RunsExactlyWhen(base: seq<InboundConfig>, env: Startup, q: Pass, i: nat)
    requires ValidInbounds(base) && q == StartFrom(Pass(base, map[], false, true), 0, env) && i < |base|
    ensures |q.inbounds| == |base|
    ensures base[i].name in q.running <==> ComesUp(base[i], env.tries(i), Around(base, q.inbounds, i))
    ensures q.all <==> forall k: nat | k < |base| :: ComesUp(base[k], env.tries(k), Around(base, q.inbounds, k))
  {
    var p := Pass(base, map[], false, true);
    PassKeeps(base, p, 0, env, q);
    PassStarts(base, p, 0, env, q);
    SameNames(base, q);
  }

  lemma SameNames(base: seq<InboundConfig>, q: Pass)
    requires |q.inbounds| == |base| && PassInv(base, q, |q.inbounds|)
    ensures q.all <==> forall k: nat | k < |base| :: base[k].name in q.running
  {
    forall k: nat | k < |base|
      ensures q.inbounds[k].name == base[k].name
    {
      assert MovedAtMost(base[k], q.inbounds[k]);
    }
  }

  // Some inbound had to take another port.
  ghost predicate SomeMoved(base: seq<InboundConfig>, ended: seq<InboundConfig>) {
    exists k :: 0 <= k < |base| && k < |ended| && Effective(ended[k]) != Effective(base[k])
  }

  // What then runs: if nobody moved, exactly those that came up; if somebody did, all of them if all came up and the new ports
  // could be saved, and otherwise none.
  lemma SpawnRunsExactly(w: World, env: Startup, q: Pass, i: nat)
    requires w.running == map[] && ValidConfig(w.config) && i < |w.config.inbounds|
    requires q == StartFrom(Pass(w.config.inbounds, map[], false, true), 0, env)
    ensures |q.inbounds| == |w.config.inbounds|
    ensures var base := w.config.inbounds;
            var up := ComesUp(base[i], env.tries(i), Around(base, q.inbounds, i));
            base[i].name in Spawn(w, env).world.running <==>
              if SomeMoved(base, q.inbounds) then
                env.saved && forall k: nat | k < |base| :: ComesUp(base[k], env.tries(k), Around(base, q.inbounds, k))
              else up
  {
    var base := w.config.inbounds;
    PassKeeps(base, Pass(base, map[], false, true), 0, env, q);
    RunsExactlyWhen(base, env, q, i);
    assert q.changed <==> SomeMoved(base, q.inbounds);
  }

  // The port an inbound ends on: its own, the assigned one before the configured one, if the first attempt succeeds, and otherwise
  // the first usable draw of the attempt before the one that does.
  lemma {:induction false} StartsOnPort(inbounds: seq<InboundConfig>, i: nat, tries: seq<Try>, k: nat)
    requires ValidInbounds(inbounds) && i < |inbounds| && (inbounds[i].port == 0 || k == 0)
    requires UpAt(tries, k, inbounds[i].typ.Tuic?, OthersSelected(inbounds, i))
    ensures StartOne(inbounds, i, tries).bound
         == if k == 0 then Some(if inbounds[i].portAssigned.Some? then inbounds[i].portAssigned.value else inbounds[i].port)
            else Choose(inbounds[i].typ.Tuic?, OthersSelected(inbounds, i), tries[k - 1].draws)
    decreases k
  {
    if k == 0 {
      assert InboundOk(inbounds[i]);
    } else {
      assert tries[0].reply.InUse? && AnyUsable(tries[0].draws, inbounds[i].typ.Tuic?, OthersSelected(inbounds, i));
      OwnIndex(inbounds, i);
      ChooseFinds(inbounds[i].typ.Tuic?, OthersSelected(inbounds, i), tries[0].draws);
      ReassignKeeps(inbounds, i, tries[0].draws);
      var moved := Reassign(inbounds, inbounds[i].name, tries[0].draws).value;
      SameOthers(inbounds, moved, i);
      assert forall m | 0 <= m < k - 1 :: tries[1..][m] == tries[m + 1];
      StartsOnPort(moved, i, tries[1..], k - 1);
    }
  }
}
