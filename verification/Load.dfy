/** Loading the configuration at start-up: `load_or_create`. */
module Load {
  import opened Bytes
  import opened Config

  datatype DiskFile = Absent | Malformed | Stored(config: Config)

  type Hash = s: string | s != "" witness "$"

  const RETRIES := 16

  // Whether inbound i's socket can be bound, and the port draws if the look leads to another.
  datatype Look = Look(free: nat -> bool, draws: nat -> Draws)
  type Looks = s: seq<Look> | |s| == RETRIES + 1 witness seq(RETRIES + 1, i => Look((k: nat) => false, (k: nat) => seq(TRIES, j => Draw(1024, false))))

  /** Everything the outside world decides during one load. */
  datatype Env = Env(
    initial: Config,                    // the randomised default configuration
    draws: nat -> Draws,                // port draws of the first pass
    looks: Looks,                       // what each look at the sockets finds
    token: nat -> string,               // random tokens: bootstrap password, subscription path, subscription token
    hash: string -> Option<Hash>,       // Argon2id; None if it fails
    bootstrapWritten: bool,
    certificates: bool,                 // both certificate files exist
    certificatesMade: bool,             // generating them succeeds
    saved: bool                         // writing the configuration succeeds
  )

  // The plaintext password is never written back.
  function Persisted(c: Config): Config {
    c.(web := c.web.(password := ""))
  }

  function MissingIndices(inbounds: seq<InboundConfig>): set<nat> {
    set i: nat | i < |inbounds| && Missing(inbounds[i])
  }

  // ---- Credentials and tokens ----

  predicate ReplacesPassword(w: WebConfig) { w.password == "" || w.password == "admin1234" }

  function Credentials(c: Config, isNew: bool, env: Env): Option<Config> {
    if c.web.passwordHash != "" then Some(c) else
    var replace := ReplacesPassword(c.web);
    var hash := env.hash(if replace then env.token(0) else c.web.password);
    if hash.None? || ((isNew || replace) && !env.bootstrapWritten) then None
    else Some(c.(web := c.web.(passwordHash := hash.value, password := "")))
  }

  function Tokens(c: Config, env: Env): Config {
    if c.subscription.generated then c
    else c.(subscription := c.subscription.(path := "/" + env.token(1), token := env.token(2), generated := true))
  }

  // ---- The availability retry ----

  predicate PortsAvailable(c: Config, free: nat -> bool) {
    forall i: nat | i < |c.inbounds| :: free(i)
  }

  function Cleared(inbounds: seq<InboundConfig>, newly: set<nat>): (r: seq<InboundConfig>)
    ensures |r| == |inbounds|
    ensures forall i | 0 <= i < |r| :: r[i] == if i in newly then inbounds[i].(portAssigned := None) else inbounds[i]
  {
    seq(|inbounds|, i requires 0 <= i < |inbounds| =>
      if i in newly then inbounds[i].(portAssigned := None) else inbounds[i])
  }

  // Looks at the sockets: done if they are free, otherwise the ports assigned in this load are drawn again.
  function Retry(c: Config, newly: set<nat>, looks: seq<Look>): Option<Config>
    requires looks != []
    decreases |looks|
  {
    if PortsAvailable(c, looks[0].free) then Some(c)
    else if |looks| == 1 || newly == {} then None
    else
      var next := Redraw(c, newly, looks[0].draws);
      if next.None? then None else Retry(next.value, newly, looks[1..])
  }

  // Clears what this load had assigned and assigns again.
  function Redraw(c: Config, newly: set<nat>, draws: nat -> Draws): Option<Config> {
    AssignMissing(c.(inbounds := Cleared(c.inbounds, newly)), draws)
  }

  // ---- The whole load ----

  datatype Loaded = Loaded(config: Option<Config>, disk: DiskFile)

  // Ports, credentials and tokens filled in; not yet validated.
  function Prepare(c: Config, isNew: bool, env: Env): Option<Config> {
    var filled := AssignMissing(c, env.draws);
    if filled.None? then None else
    var secured := Credentials(filled.value, isNew, env);
    if secured.None? then None else Some(Tokens(secured.value, env))
  }

  predicate Changes(c: Config, isNew: bool, env: Env) {
    isNew || MissingIndices(c.inbounds) != {} || c.web.passwordHash == "" || !c.subscription.generated
    || !env.certificates
  }

  function LoadFrom(disk: DiskFile, c: Config, isNew: bool, env: Env): Loaded {
    var prepared := Prepare(c, isNew, env);
    if prepared.None? || (!env.certificates && !env.certificatesMade) || !ValidConfig(prepared.value) then
      Loaded(None, disk)
    else
      var ready := Retry(prepared.value, MissingIndices(c.inbounds), env.looks);
      if ready.None? then Loaded(None, disk)
      else if !Changes(c, isNew, env) then Loaded(ready, disk)
      else if !env.saved then Loaded(None, disk)
      else Loaded(ready, Stored(Persisted(ready.value)))
  }

  function Load(disk: DiskFile, env: Env): Loaded {
    match disk
    case Malformed => Loaded(None, disk)
    case Absent => LoadFrom(disk, env.initial, true, env)
    case Stored(c) => LoadFrom(disk, c, false, env)
  }

  method EnsurePortsAvailable(c: Config, free: nat -> bool) returns (available: bool)
    ensures available <==> PortsAvailable(c, free)
  {
    for i := 0 to |c.inbounds|
      invariant forall k: nat | k < i :: free(k)
    {
      if !free(i) {
        return false;
      }
    }
    return true;
  }

  // Ports, then credentials, then tokens; whether anything was generated.
  method FillIn(start: Config, isNew: bool, env: Env) returns (r: Option<Config>, changed: bool)
    ensures r == Prepare(start, isNew, env)
    ensures r.Some? ==>
              (changed <==> MissingIndices(start.inbounds) != {} || start.web.passwordHash == "" || !start.subscription.generated)
  {
    var filled, cfg := AssignMissingPorts(start, env.draws);
    if filled.None? {
      return None, false;
    }
    changed := filled.value;
    if changed {
      var i: nat :| i < |start.inbounds| && Missing(start.inbounds[i]);
      assert i in MissingIndices(start.inbounds);
    }
    if cfg.web.passwordHash == "" {
      var replace := cfg.web.password == "" || cfg.web.password == "admin1234";
      var hash := env.hash(if replace then env.token(0) else cfg.web.password);
      if hash.None? {
        return None, changed;
      }
      if isNew || replace {
        if !env.bootstrapWritten {
          return None, changed;
        }
      }
      cfg := cfg.(web := cfg.web.(passwordHash := hash.value, password := ""));
      changed := true;
    }
    if !cfg.subscription.generated {
      cfg := cfg.(subscription := cfg.subscription.(path := "/" + env.token(1), token := env.token(2), generated := true));
      changed := true;
    }
    return Some(cfg), changed;
  }

  method LoadOrCreate(disk: DiskFile, env: Env) returns (r: Loaded)
    ensures r == Load(disk, env)
  {
    if disk.Malformed? {
      return Loaded(None, disk);
    }
    var isNew := disk.Absent?;
    var start := if isNew then env.initial else disk.config;
    var newly := MissingIndices(start.inbounds);
    var cfg, changed := FillIn(start, isNew, env);
    if cfg.None? {
      return Loaded(None, disk);
    }
    if !env.certificates {
      if !env.certificatesMade {
        return Loaded(None, disk);
      }
      changed := true;
    }
    var error := Validate(cfg.value);
    if error.Some? {
      return Loaded(None, disk);
    }
    var ready := RetryPorts(cfg.value, newly, env.looks);
    if ready.None? {
      return Loaded(None, disk);
    }
    if changed || isNew {
      if !env.saved {
        return Loaded(None, disk);
      }
      return Loaded(ready, Stored(Persisted(ready.value)));
    }
    return Loaded(ready, disk);
  }

  method RetryPorts(start: Config, newly: set<nat>, looks: Looks) returns (r: Option<Config>)
    ensures r == Retry(start, newly, looks)
  {
    var cfg := start;
    var available := EnsurePortsAvailable(cfg, looks[0].free);
    for k := 0 to RETRIES
      invariant available <==> PortsAvailable(cfg, looks[k].free)
      invariant Retry(start, newly, looks) == Retry(cfg, newly, looks[k..])
    {
      assert looks[k..][0] == looks[k] && looks[k..][1..] == looks[k + 1..];
      if available || newly == {} {
        return if available then Some(cfg) else None;
      }
      var ok, next := RedrawPorts(cfg, newly, looks[k].draws);
      if !ok {
        return None;
      }
      cfg := next;
      available := EnsurePortsAvailable(cfg, looks[k + 1].free);
    }
    return if available then Some(cfg) else None;
  }

  method RedrawPorts(c: Config, newly: set<nat>, draws: nat -> Draws) returns (ok: bool, next: Config)
    ensures ok <==> Redraw(c, newly, draws).Some?
    ensures ok ==> next == Redraw(c, newly, draws).value
  {
    var changed, filled := AssignMissingPorts(c.(inbounds := Cleared(c.inbounds, newly)), draws);
    return changed.Some?, filled;
  }

  // ---- What a load promises ----

  // A look that finds every one of n sockets free.
  ghost predicate AllFree(n: nat, look: Look) { forall i: nat | i < n :: look.free(i) }

  // Same configuration up to the ports this load was asked to choose.
  ghost predicate SameButPorts(a: Config, b: Config, free: set<nat>) {
    && b == a.(inbounds := b.inbounds) && |b.inbounds| == |a.inbounds|
    && (forall i: nat | i < |a.inbounds| && i !in free :: b.inbounds[i] == a.inbounds[i])
    && (forall i: nat | i < |a.inbounds| && i in free ::
          a.inbounds[i].port == 0 && b.inbounds[i].portAssigned.Some?
          && b.inbounds[i] == WithPort(a.inbounds[i], b.inbounds[i].portAssigned.value))
  }

  // The ports this load may choose: automatic, and chosen already.
  ghost predicate Chosen(inbounds: seq<InboundConfig>, newly: set<nat>) {
    forall i: nat | i in newly :: i < |inbounds| && inbounds[i].port == 0 && inbounds[i].portAssigned.Some?
  }

  lemma ClearedButPorts(c: Config, newly: set<nat>)
    requires ValidConfig(c) && Chosen(c.inbounds, newly)
    ensures ValidButPorts(c.(inbounds := Cleared(c.inbounds, newly)))
  {
    var cleared := Cleared(c.inbounds, newly);
    forall i | 0 <= i < |cleared|
      ensures Missing(cleared[i]) <==> i in newly
      ensures !Missing(cleared[i]) ==> cleared[i] == c.inbounds[i]
      ensures cleared[i].name == c.inbounds[i].name
      ensures Missing(cleared[i]) ==> InboundOk(WithPort(cleared[i], 1024))
    {
      assert InboundOk(c.inbounds[i]);
    }
  }

  lemma RefilledIsSame(c: Config, newly: set<nat>, after: seq<InboundConfig>)
    requires ValidConfig(c) && Chosen(c.inbounds, newly)
    requires OnlyPortsFilled(Cleared(c.inbounds, newly), after)
    ensures ValidConfig(c.(inbounds := after)) && SameButPorts(c, c.(inbounds := after), newly)
    ensures Chosen(after, newly)
  {
    var cleared := Cleared(c.inbounds, newly);
    ClearedButPorts(c, newly);
    FilledIsValid(c.(inbounds := cleared), after);
    forall i: nat | i < |after|
      ensures if i in newly then after[i].portAssigned.Some? && after[i] == WithPort(c.inbounds[i], after[i].portAssigned.value)
              else after[i] == c.inbounds[i]
    {
      assert InboundOk(c.inbounds[i]);
      assert Missing(cleared[i]) <==> i in newly;
    }
  }

  lemma ClearedIsFilled(c: Config, newly: set<nat>, draws: nat -> Draws)
    requires ValidConfig(c) && Chosen(c.inbounds, newly)
    requires Redraw(c, newly, draws).Some?
    ensures var next := Redraw(c, newly, draws).value;
            ValidConfig(next) && SameButPorts(c, next, newly) && Chosen(next.inbounds, newly)
  {
    var cleared := c.(inbounds := Cleared(c.inbounds, newly));
    AssignMissingKeeps(cleared, draws);
    var next := AssignMissing(cleared, draws).value;
    RefilledIsSame(c, newly, next.inbounds);
    assert next == c.(inbounds := next.inbounds);
  }

  // Drawing again keeps the configuration valid, although it is not validated again, and touches only the ports that
  // were missing when the load began.
  lemma {:induction false} RetryKeeps(c: Config, newly: set<nat>, looks: seq<Look>)
    requires looks != [] && ValidConfig(c) && Chosen(c.inbounds, newly) && Retry(c, newly, looks).Some?
    ensures var r := Retry(c, newly, looks).value;
            ValidConfig(r) && SameButPorts(c, r, newly) && exists m :: 0 <= m < |looks| && PortsAvailable(r, looks[m].free)
    decreases |looks|
  {
    if PortsAvailable(c, looks[0].free) {
      assert forall i: nat | i in newly :: c.inbounds[i] == WithPort(c.inbounds[i], c.inbounds[i].portAssigned.value);
    } else {
      ClearedIsFilled(c, newly, looks[0].draws);
      var next := Redraw(c, newly, looks[0].draws).value;
      RetryKeeps(next, newly, looks[1..]);
      var r := Retry(c, newly, looks).value;
      var m :| 0 <= m < |looks[1..]| && PortsAvailable(r, looks[1..][m].free);
      assert PortsAvailable(r, looks[m + 1].free);
    }
  }

  // Nothing left for a later load to generate.
  ghost predicate Complete(c: Config) {
    MissingIndices(c.inbounds) == {} && c.web.passwordHash != "" && c.subscription.generated
  }

  // What the load starts from.
  function Origin(disk: DiskFile, env: Env): Config
    requires !disk.Malformed?
  {
    if disk.Absent? then env.initial else disk.config
  }

  // What loading may change: ports that were missing, a password hash that was missing, a subscription never generated.
  ghost predicate OnlyMissingFilled(before: Config, after: Config) {
    && after == before.(web := after.web, subscription := after.subscription, inbounds := after.inbounds)
    && (before.web.passwordHash != "" ==> after.web == before.web)
    && after.web == before.web.(passwordHash := after.web.passwordHash, password := after.web.password)
    && (before.subscription.generated ==> after.subscription == before.subscription)
    && after.subscription.enabled == before.subscription.enabled
    && |after.inbounds| == |before.inbounds|
    && (forall i | 0 <= i < |before.inbounds| && !Missing(before.inbounds[i]) :: after.inbounds[i] == before.inbounds[i])
    && (forall i | 0 <= i < |before.inbounds| && Missing(before.inbounds[i]) ::
          after.inbounds[i].portAssigned.Some?
          && after.inbounds[i] == WithPort(before.inbounds[i], after.inbounds[i].portAssigned.value))
  }

  lemma PrepareFills(c: Config, isNew: bool, env: Env)
    requires Prepare(c, isNew, env).Some?
    ensures var p := Prepare(c, isNew, env).value;
            OnlyMissingFilled(c, p) && Complete(p) && Chosen(p.inbounds, MissingIndices(c.inbounds))
  {
    AssignMissingKeeps(c, env.draws);
    var p := Prepare(c, isNew, env).value;
    assert OnlyPortsFilled(c.inbounds, p.inbounds);
    forall i: nat | i < |p.inbounds|
      ensures !Missing(p.inbounds[i])
    {
      assert Missing(c.inbounds[i]) || p.inbounds[i] == c.inbounds[i];
    }
    assert MissingIndices(p.inbounds) == {};
  }

  lemma RetriedStillFills(c: Config, p: Config, r: Config)
    requires OnlyMissingFilled(c, p) && Complete(p) && SameButPorts(p, r, MissingIndices(c.inbounds))
    ensures OnlyMissingFilled(c, r) && Complete(r)
  {
    forall i: nat | i < |r.inbounds|
      ensures !Missing(r.inbounds[i])
      ensures if Missing(c.inbounds[i]) then r.inbounds[i].portAssigned.Some?
                                             && r.inbounds[i] == WithPort(c.inbounds[i], r.inbounds[i].portAssigned.value)
              else r.inbounds[i] == c.inbounds[i]
    {
      assert i in MissingIndices(c.inbounds) <==> Missing(c.inbounds[i]);
      assert i !in MissingIndices(p.inbounds);
    }
    assert MissingIndices(r.inbounds) == {};
  }

  lemma LoadFromKeeps(disk: DiskFile, c: Config, isNew: bool, env: Env)
    requires LoadFrom(disk, c, isNew, env).config.Some?
    ensures var r := LoadFrom(disk, c, isNew, env).config.value;
            ValidConfig(r) && Complete(r) && OnlyMissingFilled(c, r)
            && exists m :: 0 <= m <= RETRIES && PortsAvailable(r, env.looks[m].free)
  {
    var p := Prepare(c, isNew, env).value;
    PrepareFills(c, isNew, env);
    RetryKeeps(p, MissingIndices(c.inbounds), env.looks);
    var r := LoadFrom(disk, c, isNew, env).config.value;
    RetriedStillFills(c, p, r);
  }

  // A load that changes nothing returns what it started from.
  lemma UnchangedLoad(c: Config, isNew: bool, env: Env)
    requires !Changes(c, isNew, env) && ValidConfig(c)
    ensures Prepare(c, isNew, env) == Some(c)
    ensures Retry(c, MissingIndices(c.inbounds), env.looks) == if PortsAvailable(c, env.looks[0].free) then Some(c) else None
  {
    NothingMissing(c.inbounds, Selected(c.inbounds), 0, env.draws);
  }

  lemma {:induction false} NothingMissing(inbounds: seq<InboundConfig>, selected: set<Sock>, i: nat, draws: nat -> Draws)
    requires i <= |inbounds| && MissingIndices(inbounds) == {}
    ensures Assign(inbounds, selected, i, draws) == Some(inbounds)
    decreases |inbounds| - i
  {
    if i < |inbounds| {
      assert i !in MissingIndices(inbounds);
      NothingMissing(inbounds, selected, i + 1, draws);
    }
  }

  // A successful load gives a valid, complete configuration that differs from what was read only where something was
  // missing, whose sockets were all free at one look, and which the disk holds up to the plaintext password.
  // A failed load leaves the file as it was.
  lemma LoadKeeps(disk: DiskFile, env: Env)
    ensures var (r, d) := (Load(disk, env).config, Load(disk, env).disk);
            && (r.None? ==> d == disk)
            && (r.Some? ==>
              && !disk.Malformed? && OnlyMissingFilled(Origin(disk, env), r.value)
              && ValidConfig(r.value) && Complete(r.value)
              && (exists m: nat | m < 17 :: AllFree(|r.value.inbounds|, env.looks[m]))
              && d.Stored? && Persisted(d.config) == Persisted(r.value))
  {
    if Load(disk, env).config.Some? {
      var c := Origin(disk, env);
      LoadFromKeeps(disk, c, disk.Absent?, env);
      if !Changes(c, disk.Absent?, env) {
        var p := Prepare(c, disk.Absent?, env).value;
        NothingMissing(c.inbounds, Selected(c.inbounds), 0, env.draws);
        assert p == c;
        UnchangedLoad(c, disk.Absent?, env);
      }
    }
  }

  lemma FilledOnceLooked(disk: DiskFile, c: Config, isNew: bool, env: Env)
    requires LoadFrom(disk, c, isNew, env).config.Some?
    ensures var r := LoadFrom(disk, c, isNew, env).config.value;
            var p := Prepare(c, isNew, env).value;
            r.web == p.web && r.subscription == p.subscription
  {
    PrepareFills(c, isNew, env);
    RetryKeeps(Prepare(c, isNew, env).value, MissingIndices(c.inbounds), env.looks);
  }

  // What a successful load generates, and only when it was missing: the hash of the password that was there, or of a
  // random one left in the bootstrap file; the subscription's path and token; certificates. It writes the file exactly
  // when it generated something, and then the plaintext password is gone.
  lemma LoadGenerates(disk: DiskFile, env: Env)
    requires Load(disk, env).config.Some?
    ensures var c, r, d := Origin(disk, env), Load(disk, env).config.value, Load(disk, env).disk;
            var replace := c.web.password == "" || c.web.password == "admin1234";
            && (c.web.passwordHash == "" ==>
                  && env.hash(if replace then env.token(0) else c.web.password) == Some(r.web.passwordHash)
                  && r.web == c.web.(passwordHash := r.web.passwordHash, password := "")
                  && (disk.Absent? || replace ==> env.bootstrapWritten))
            && (!c.subscription.generated ==>
                  r.subscription == Subscription(c.subscription.enabled, "/" + env.token(1), env.token(2), true))
            && (env.certificates || env.certificatesMade)
            && (if SomethingNew(disk, c, env) then env.saved && d == Stored(r.(web := r.web.(password := "")))
                else d == disk && r == c)
  {
    var c := Origin(disk, env);
    FilledOnceLooked(disk, c, disk.Absent?, env);
    NewExactlyWhen(disk, c, env);
    if !Changes(c, disk.Absent?, env) {
      NothingMissing(c.inbounds, Selected(c.inbounds), 0, env.draws);
      assert Prepare(c, disk.Absent?, env) == Some(c);
      UnchangedLoad(c, disk.Absent?, env);
    }
  }

  // There was no file, or a port, the password's hash, the subscription or a certificate is missing.
  predicate SomethingNew(disk: DiskFile, c: Config, env: Env) {
    || disk.Absent? || (exists i | 0 <= i < |c.inbounds| :: c.inbounds[i].port == 0 && c.inbounds[i].portAssigned.None?)
    || c.web.passwordHash == "" || !c.subscription.generated || !env.certificates
  }

  lemma NewExactlyWhen(disk: DiskFile, c: Config, env: Env)
    ensures Changes(c, disk.Absent?, env) <==> SomethingNew(disk, c, env)
  {
    if i :| 0 <= i < |c.inbounds| && c.inbounds[i].port == 0 && c.inbounds[i].portAssigned.None? {
      assert i in MissingIndices(c.inbounds);
    }
    if i: nat :| i in MissingIndices(c.inbounds) {
      assert Missing(c.inbounds[i]);
    }
  }

  // ---- Exactly when a load succeeds ----

  // The m-th look finds every socket free, every draw before it having found ports; without ports of its own to draw again a
  // load has only its first look. `start` is the configuration whose missing ports are drawn.
  ghost predicate SettlesAt(start: Config, newly: set<nat>, looks: seq<Look>, m: nat) {
    && m < |looks| && AllFree(|start.inbounds|, looks[m]) && (m > 0 ==> newly != {})
    && forall j | 0 <= j < m :: AssignMissing(start, looks[j].draws).Some?
  }

  ghost predicate Settles(start: Config, newly: set<nat>, looks: seq<Look>) {
    exists m: nat :: SettlesAt(start, newly, looks, m)
  }

  lemma SettlesLater(start: Config, newly: set<nat>, looks: seq<Look>)
    requires |looks| > 1 && newly != {} && !PortsAvailable(start, looks[0].free)
    ensures Settles(start, newly, looks) <==> AssignMissing(start, looks[0].draws).Some? && Settles(start, newly, looks[1..])
  {
    if Settles(start, newly, looks) {
      var m: nat :| SettlesAt(start, newly, looks, m);
      assert forall j | 0 <= j < m - 1 :: looks[1..][j] == looks[j + 1];
      assert SettlesAt(start, newly, looks[1..], m - 1);
    }
    if AssignMissing(start, looks[0].draws).Some? && Settles(start, newly, looks[1..]) {
      var m: nat :| SettlesAt(start, newly, looks[1..], m);
      assert forall j | 1 <= j < m + 1 :: looks[j] == looks[1..][j - 1];
      assert SettlesAt(start, newly, looks, m + 1);
    }
  }

  lemma OnlyFirstLook(start: Config, newly: set<nat>, looks: seq<Look>)
    requires looks != [] && (newly == {} || |looks| == 1 || PortsAvailable(start, looks[0].free))
    ensures Settles(start, newly, looks) <==> PortsAvailable(start, looks[0].free)
  {
    if PortsAvailable(start, looks[0].free) {
      assert SettlesAt(start, newly, looks, 0);
    }
  }

  // Clearing what was drawn gives the inbounds there were before, so every draw starts from the same place.
  ghost predicate Drawn(start: Config, c: Config, newly: set<nat>) {
    |c.inbounds| == |start.inbounds| && Cleared(c.inbounds, newly) == start.inbounds
  }

  lemma SameDraw(start: Config, c: Config, newly: set<nat>, draws: nat -> Draws)
    requires Drawn(start, c, newly)
    ensures Redraw(c, newly, draws).Some? <==> AssignMissing(start, draws).Some?
  {
  }

  lemma RedrawnIsDrawn(start: Config, c: Config, newly: set<nat>, draws: nat -> Draws)
    requires Drawn(start, c, newly) && ValidConfig(c) && Chosen(c.inbounds, newly) && Redraw(c, newly, draws).Some?
    ensures Drawn(start, Redraw(c, newly, draws).value, newly)
  {
    ClearedIsFilled(c, newly, draws);
    var next := Redraw(c, newly, draws).value;
    assert Cleared(next.inbounds, newly) == Cleared(c.inbounds, newly);
  }

  lemma {:induction false} RetryExactlyWhen(start: Config, c: Config, newly: set<nat>, looks: seq<Look>)
    requires looks != [] && ValidConfig(c) && Chosen(c.inbounds, newly) && Drawn(start, c, newly)
    ensures Retry(c, newly, looks).Some? <==> Settles(start, newly, looks)
    decreases |looks|
  {
    if PortsAvailable(c, looks[0].free) || |looks| == 1 || newly == {} {
      OnlyFirstLook(start, newly, looks);
    } else {
      SettlesLater(start, newly, looks);
      SameDraw(start, c, newly, looks[0].draws);
      if Redraw(c, newly, looks[0].draws).Some? {
        ClearedIsFilled(c, newly, looks[0].draws);
        RedrawnIsDrawn(start, c, newly, looks[0].draws);
        RetryExactlyWhen(start, Redraw(c, newly, looks[0].draws).value, newly, looks[1..]);
      }
    }
  }

  // It is the first look to find every socket free, and what it settles on is what was drawn before it.
  ghost predicate SettlesFirst(start: Config, newly: set<nat>, looks: seq<Look>, m: nat) {
    SettlesAt(start, newly, looks, m) && forall j | 0 <= j < m :: !PortsAvailable(start, looks[j].free)
  }

  // The configuration as it is with the ports of these draws of its missing ports.
  ghost predicate HasDraws(start: Config, c: Config, draws: nat -> Draws) {
    AssignMissing(start, draws).Some? && c.inbounds == AssignMissing(start, draws).value.inbounds
  }

  lemma {:induction false} RetryGives(start: Config, c: Config, newly: set<nat>, looks: seq<Look>, m: nat)
    requires looks != [] && ValidConfig(c) && Chosen(c.inbounds, newly) && Drawn(start, c, newly)
    requires SettlesFirst(start, newly, looks, m)
    ensures Retry(c, newly, looks).Some?
    ensures var r := Retry(c, newly, looks).value;
            r == c.(inbounds := r.inbounds) && if m == 0 then r == c else HasDraws(start, r, looks[m - 1].draws)
    decreases m
  {
    if m == 0 {
      DoneAtOnce(c, newly, looks);
    } else {
      LaterFirst(start, newly, looks, m);
      var next := DrawnNext(start, c, newly, looks[0].draws);
      RetryGives(start, next, newly, looks[1..], m - 1);
      RetryStep(c, newly, looks, next);
    }
  }

  lemma DoneAtOnce(c: Config, newly: set<nat>, looks: seq<Look>)
    requires looks != [] && AllFree(|c.inbounds|, looks[0])
    ensures Retry(c, newly, looks) == Some(c)
  {
  }

  lemma RetryStep(c: Config, newly: set<nat>, looks: seq<Look>, next: Config)
    requires |looks| > 1 && newly != {} && !PortsAvailable(c, looks[0].free) && Redraw(c, newly, looks[0].draws) == Some(next)
    ensures Retry(c, newly, looks) == Retry(next, newly, looks[1..])
  {
  }

  // One more draw.
  lemma DrawnNext(start: Config, c: Config, newly: set<nat>, draws: nat -> Draws) returns (next: Config)
    requires ValidConfig(c) && Chosen(c.inbounds, newly) && Drawn(start, c, newly) && AssignMissing(start, draws).Some?
    ensures Redraw(c, newly, draws) == Some(next) && next == c.(inbounds := AssignMissing(start, draws).value.inbounds)
    ensures ValidConfig(next) && Chosen(next.inbounds, newly) && Drawn(start, next, newly)
  {
    SameDraw(start, c, newly, draws);
    ClearedIsFilled(c, newly, draws);
    RedrawnIsDrawn(start, c, newly, draws);
    next := Redraw(c, newly, draws).value;
  }

  lemma LaterFirst(start: Config, newly: set<nat>, looks: seq<Look>, m: nat)
    requires m > 0 && SettlesFirst(start, newly, looks, m)
    ensures |looks| > 1 && newly != {} && SettlesFirst(start, newly, looks[1..], m - 1)
    ensures !PortsAvailable(start, looks[0].free) && AssignMissing(start, looks[0].draws).Some?
  {
    assert forall j | 0 <= j < m :: looks[1..][j] == looks[j + 1];
  }

  // The ports a load gives out: those of its first draws if the first look finds them free, and otherwise those drawn just before
  // the first look that finds everything free.
  lemma LoadedPorts(disk: DiskFile, env: Env, m: nat)
    requires Load(disk, env).config.Some? && SettlesFirst(Origin(disk, env), MissingIndices(Origin(disk, env).inbounds), env.looks, m)
    ensures var c := Origin(disk, env);
            var filled := AssignMissing(c, if m == 0 then env.draws else env.looks[m - 1].draws);
            filled.Some? && Load(disk, env).config.value.inbounds == filled.value.inbounds
  {
    var c := Origin(disk, env);
    PreparedExactlyWhen(c, disk.Absent?, env);
    PrepareFills(c, disk.Absent?, env);
    var p := Prepare(c, disk.Absent?, env).value;
    assert HasDraws(c, p, env.draws);
    RetryGives(c, p, MissingIndices(c.inbounds), env.looks, m);
  }

  // What the outside world must provide for the credentials, if there are none yet.
  predicate CredentialsWork(c: Config, isNew: bool, env: Env) {
    c.web.passwordHash == "" ==>
      var replace := c.web.password == "" || c.web.password == "admin1234";
      && env.hash(if replace then env.token(0) else c.web.password).Some?
      && (isNew || replace ==> env.bootstrapWritten)
  }

  lemma PreparedExactlyWhen(c: Config, isNew: bool, env: Env)
    ensures Prepare(c, isNew, env).Some? <==> AssignMissing(c, env.draws).Some? && CredentialsWork(c, isNew, env)
    ensures Prepare(c, isNew, env).Some? ==>
              && (ValidConfig(Prepare(c, isNew, env).value) <==> ValidButPorts(c))
              && Drawn(c, Prepare(c, isNew, env).value, MissingIndices(c.inbounds))
  {
    if Prepare(c, isNew, env).Some? {
      AssignMissingKeeps(c, env.draws);
      var p := Prepare(c, isNew, env).value;
      FilledIsValid(c, p.inbounds);
      assert ValidConfig(p) <==> ValidConfig(c.(inbounds := p.inbounds));
      assert Cleared(p.inbounds, MissingIndices(c.inbounds)) == c.inbounds;
    }
  }

  // A load succeeds exactly if the file is not malformed and nothing but ports is wrong with what is read, a first draw of ports
  // and some later look succeed, the credentials and certificates can be had if they are missing, and the file can be written
  // if there is anything to write.
  lemma LoadSucceedsExactlyWhen(disk: DiskFile, env: Env)
    ensures Load(disk, env).config.Some? <==>
              && !disk.Malformed?
              && var c := Origin(disk, env);
                 && ValidButPorts(c)
                 && AssignMissing(c, env.draws).Some?
                 && (exists m: nat | m < 17 :: SettlesAt(c, MissingIndices(c.inbounds), env.looks, m))
                 && CredentialsWork(c, disk.Absent?, env)
                 && (env.certificates || env.certificatesMade)
                 && (SomethingNew(disk, c, env) ==> env.saved)
  {
    if !disk.Malformed? {
      var c := Origin(disk, env);
      NewExactlyWhen(disk, c, env);
      if m: nat :| SettlesAt(c, MissingIndices(c.inbounds), env.looks, m) {
        assert m < 17;
      }
      PreparedExactlyWhen(c, disk.Absent?, env);
      if Prepare(c, disk.Absent?, env).Some? && ValidButPorts(c) {
        PrepareFills(c, disk.Absent?, env);
        RetryExactlyWhen(c, Prepare(c, disk.Absent?, env).value, MissingIndices(c.inbounds), env.looks);
      }
    }
  }

  // A port that was not missing and is taken at every look makes the load fail; it is never replaced.
  lemma OccupiedPortIsReported(disk: DiskFile, env: Env, i: nat)
    requires !disk.Malformed? && i < |Origin(disk, env).inbounds|
    requires !Missing(Origin(disk, env).inbounds[i]) && forall k | 0 <= k < 17 :: !env.looks[k].free(i)
    ensures Load(disk, env) == Loaded(None, disk)
  {
    LoadKeeps(disk, env);
    assert forall m: nat | m < 17 :: !AllFree(|Origin(disk, env).inbounds|, env.looks[m]);
  }

  // Once loaded, loading again (the certificates still being there) returns just what was stored, or reports that its
  // sockets are taken; no port, path, token or hash changes, and nothing is written.
  lemma LoadIsStable(disk: DiskFile, env: Env, later: Env)
    requires Load(disk, env).config.Some? && later.certificates
    ensures var (c, d) := (Load(disk, env).config.value, Load(disk, env).disk);
            && d.Stored? && Persisted(d.config) == Persisted(c)
            && Load(d, later) == Loaded(if PortsAvailable(d.config, later.looks[0].free) then Some(d.config) else None, d)
  {
    LoadKeeps(disk, env);
    var c, d := Load(disk, env).config.value, Load(disk, env).disk;
    StoredIsComplete(c, d.config);
    UnchangedLoad(d.config, false, later);
  }

  lemma StoredIsComplete(c: Config, stored: Config)
    requires ValidConfig(c) && Complete(c) && Persisted(stored) == Persisted(c)
    ensures ValidConfig(stored) && Complete(stored)
  {
    assert stored.inbounds == c.inbounds && stored.subscription == c.subscription;
    assert stored.web == c.web.(password := stored.web.password);
  }
}
