/** The configuration: what makes it valid, and how automatic ports are chosen without breaking that. */
module Config {
  import opened Bytes

  datatype Protocol = Vless | AnyTls | Tuic

  // The settings of an inbound that do not concern its socket.
  datatype Settings = Settings(
    uuid: Option<string>,
    password: Option<string>,
    network: Option<string>,
    host: Option<string>,
    path: Option<string>,
    via: Option<string>,
    sni: Option<string>,
    alpn: Option<seq<string>>,
    obfs: Option<string>,
    server: Option<string>
  )

  datatype InboundConfig = InboundConfig(
    name: string,
    typ: Protocol,
    listen: string,
    port: u16,                       // 0 asks for an automatic port
    portAssigned: Option<u16>,
    settings: Settings
  )

  // `listenParses` says whether the listen text is a socket address.
  datatype WebConfig = WebConfig(listen: string, listenParses: bool, user: string, password: string,
                                 passwordHash: string, title: string)
  datatype Subscription = Subscription(enabled: bool, path: string, token: string, generated: bool)
  datatype Config = Config(web: WebConfig, subscription: Subscription, inbounds: seq<InboundConfig>)

  function Effective(inb: InboundConfig): u16 {
    if inb.portAssigned.Some? then inb.portAssigned.value else inb.port
  }

  // TCP and UDP ports do not collide.
  datatype Sock = Sock(udp: bool, port: u16)

  function SockOf(inb: InboundConfig): Sock { Sock(inb.typ.Tuic?, Effective(inb)) }

  // ---- Validity ----

  predicate Whitespace(c: char) {
    var x := c as int;
    || 0x9 <= x <= 0xD || x == 0x20 || x == 0x85 || x == 0xA0 || x == 0x1680 || 0x2000 <= x <= 0x200A
    || x == 0x2028 || x == 0x2029 || x == 0x202F || x == 0x205F || x == 0x3000
  }

  // The 25 characters with the Unicode property White_Space.
  lemma WhitespaceIs(c: char)
    ensures Whitespace(c) <==> c as int in {
              9, 10, 11, 12, 13, 32, 133, 160, 5760, 8192, 8193, 8194, 8195, 8196, 8197, 8198, 8199, 8200, 8201, 8202, 8232, 8233,
              8239, 8287, 12288}
  {
  }

  predicate Blank(s: string) { forall i | 0 <= i < |s| :: Whitespace(s[i]) }

  predicate Hex(c: char) { '0' <= c <= '9' || 'a' <= c <= 'f' || 'A' <= c <= 'F' }

  predicate Hyphenated(s: string) {
    |s| == 36 && forall i | 0 <= i < 36 :: if i in {8, 13, 18, 23} then s[i] == '-' else Hex(s[i])
  }

  // The text forms Uuid::parse_str takes: simple, hyphenated, braced, URN.
  predicate ParsesAsUuid(s: string) {
    || (|s| == 32 && forall i | 0 <= i < 32 :: Hex(s[i]))
    || Hyphenated(s)
    || (|s| == 38 && s[0] == '{' && s[37] == '}' && Hyphenated(s[1..37]))
    || (|s| == 45 && s[..9] == "urn:uuid:" && Hyphenated(s[9..]))
  }

  predicate VlessOk(s: Settings) {
    && s.uuid.Some? && ParsesAsUuid(s.uuid.value)
    && (s.network.None? || s.network.value in {"tcp", "ws"})
    && (s.network == Some("ws") ==> s.path.Some? && s.path.value != "" && s.path.value[0] == '/')
  }

  predicate TlsOk(s: Settings, tuic: bool) {
    && s.password.Some? && s.password.value != ""
    && (tuic ==> s.uuid.Some? && ParsesAsUuid(s.uuid.value))
    && (s.sni.Some? ==> s.sni.value != "" && forall i | 0 <= i < |s.sni.value| :: !Whitespace(s.sni.value[i]))
    && (s.alpn.Some? ==> s.alpn.value != [] && forall i | 0 <= i < |s.alpn.value| :: s.alpn.value[i] != "")
  }

  predicate SettingsOk(inb: InboundConfig) {
    if inb.typ.Vless? then VlessOk(inb.settings) else TlsOk(inb.settings, inb.typ.Tuic?)
  }

  // One inbound on its own.
  predicate InboundOk(inb: InboundConfig) {
    !Blank(inb.name) && Effective(inb) != 0 && SettingsOk(inb)
  }

  predicate DistinctNames(inbounds: seq<InboundConfig>) {
    forall i, j {:trigger inbounds[i].name, inbounds[j].name} | 0 <= i < j < |inbounds| :: inbounds[i].name != inbounds[j].name
  }

  predicate DistinctSockets(inbounds: seq<InboundConfig>) {
    forall i, j {:trigger SockOf(inbounds[i]), SockOf(inbounds[j])} | 0 <= i < j < |inbounds| :: SockOf(inbounds[i]) != SockOf(inbounds[j])
  }

  predicate ValidInbounds(inbounds: seq<InboundConfig>) {
    && (forall i {:trigger InboundOk(inbounds[i])} | 0 <= i < |inbounds| :: InboundOk(inbounds[i]))
    && DistinctNames(inbounds) && DistinctSockets(inbounds)
  }

  predicate ValidConfig(c: Config) {
    c.web.listenParses && ValidInbounds(c.inbounds)
  }

  datatype ConfigError = BadListen | BadName(name: string) | NoPort(name: string) | DuplicateSocket(name: string)
                       | BadSettings(name: string)

  lemma DistinctSnoc(inbounds: seq<InboundConfig>, n: nat)
    requires n < |inbounds| && DistinctNames(inbounds[..n]) && DistinctSockets(inbounds[..n])
    requires forall i | 0 <= i < n :: inbounds[i].name != inbounds[n].name && SockOf(inbounds[i]) != SockOf(inbounds[n])
    ensures DistinctNames(inbounds[..n + 1]) && DistinctSockets(inbounds[..n + 1])
  {
    assert forall i | 0 <= i < n :: inbounds[..n + 1][i] == inbounds[..n][i];
  }

  // The 32 digits of a UUID with hyphens between their five groups.
  function Grouped(h: string): string
    requires |h| == 32
  {
    h[..8] + "-" + h[8..12] + "-" + h[12..16] + "-" + h[16..20] + "-" + h[20..]
  }

  predicate Digits(h: string) { |h| == 32 && forall i | 0 <= i < 32 :: h[i] in "0123456789abcdefABCDEF" }

  // The text is these digits in one of the four ways of writing them.
  predicate Writes(s: string, h: string) {
    Digits(h) && (s == h || s == Grouped(h) || s == "{" + Grouped(h) + "}" || s == "urn:uuid:" + Grouped(h))
  }

  // What is taken for a UUID is exactly 32 hexadecimal digits, plain, grouped, grouped in braces, or grouped behind "urn:uuid:".
  lemma UuidExactlyWhen(s: string)
    ensures ParsesAsUuid(s) <==> exists h :: Writes(s, h)
  {
    if ParsesAsUuid(s) {
      var h := DigitsOf(s);
      assert Writes(s, h);
    }
    forall h | Writes(s, h)
      ensures ParsesAsUuid(s)
    {
      WrittenParses(s, h);
    }
  }

  lemma DigitsOf(s: string) returns (h: string)
    requires ParsesAsUuid(s)
    ensures Writes(s, h)
  {
    if |s| == 32 {
      h := s;
    } else if Hyphenated(s) {
      h := Ungrouped(s);
    } else if |s| == 38 {
      h := Ungrouped(s[1..37]);
      assert s == "{" + s[1..37] + "}";
    } else {
      h := Ungrouped(s[9..]);
      assert s == "urn:uuid:" + s[9..];
    }
  }

  lemma Ungrouped(s: string) returns (h: string)
    requires Hyphenated(s)
    ensures Digits(h) && s == Grouped(h)
  {
    h := s[..8] + s[9..13] + s[14..18] + s[19..23] + s[24..];
    forall i | 0 <= i < 32
      ensures Hex(h[i])
    {
      var at := if i < 8 then i else if i < 12 then i + 1 else if i < 16 then i + 2 else if i < 20 then i + 3 else i + 4;
      assert h[i] == s[at];
    }
    assert h[..8] == s[..8] && h[8..12] == s[9..13] && h[12..16] == s[14..18] && h[16..20] == s[19..23] && h[20..] == s[24..];
    assert s[8] == s[13] == s[18] == s[23] == '-';
    assert s == s[..8] + [s[8]] + s[9..13] + [s[13]] + s[14..18] + [s[18]] + s[19..23] + [s[23]] + s[24..];
  }

  lemma GroupedParses(h: string)
    requires Digits(h)
    ensures Hyphenated(Grouped(h))
  {
  }

  lemma WrittenParses(s: string, h: string)
    requires Writes(s, h)
    ensures ParsesAsUuid(s)
  {
    var g := Grouped(h);
    GroupedParses(h);
    assert s == "{" + g + "}" ==> s[1..37] == g;
    assert s == "urn:uuid:" + g ==> s[9..] == g && s[..9] == "urn:uuid:";
  }

  // The protocol's own checks, in their order.
  method CheckSettings(inb: InboundConfig) returns (ok: bool)
    ensures ok <==> SettingsOk(inb)
    ensures inb.typ.Vless? ==>
              var s := inb.settings;
              (ok <==> s.uuid.Some? && ParsesAsUuid(s.uuid.value)
                       && (s.network.None? || s.network.value == "tcp"
                           || (s.network.value == "ws" && s.path.Some? && |s.path.value| > 0 && s.path.value[0] == '/')))
    ensures !inb.typ.Vless? ==>
              var s := inb.settings;
              (ok <==> s.password.Some? && s.password.value != ""
                       && (inb.typ.Tuic? ==> s.uuid.Some? && ParsesAsUuid(s.uuid.value))
                       && (s.sni.Some? ==> s.sni.value != "" && forall i | 0 <= i < |s.sni.value| :: !Whitespace(s.sni.value[i]))
                       && (s.alpn.Some? ==> s.alpn.value != [] && "" !in s.alpn.value))
  {
    var s := inb.settings;
    if inb.typ.Vless? {
      if s.uuid.None? || !ParsesAsUuid(s.uuid.value) {
        return false;
      }
      if s.network.Some? && s.network.value != "tcp" && s.network.value != "ws" {
        return false;
      }
      if s.network == Some("ws") && !(s.path.Some? && |s.path.value| > 0 && s.path.value[0] == '/') {
        return false;
      }
      return true;
    }
    if s.password.None? || s.password.value == "" {
      return false;
    }
    if inb.typ.Tuic? && (s.uuid.None? || !ParsesAsUuid(s.uuid.value)) {
      return false;
    }
    if s.sni.Some? {
      if s.sni.value == "" {
        return false;
      }
      for i := 0 to |s.sni.value|
        invariant forall k | 0 <= k < i :: !Whitespace(s.sni.value[k])
      {
        if Whitespace(s.sni.value[i]) {
          return false;
        }
      }
    }
    if s.alpn.Some? {
      if s.alpn.value == [] {
        return false;
      }
      for i := 0 to |s.alpn.value|
        invariant forall k | 0 <= k < i :: s.alpn.value[k] != ""
      {
        if s.alpn.value[i] == "" {
          return false;
        }
      }
    }
    return true;
  }

  // The rules for one inbound, and for two.
  predicate Fit(inb: InboundConfig) {
    (exists k :: 0 <= k < |inb.name| && !Whitespace(inb.name[k])) && Effective(inb) != 0 && SettingsOk(inb)
  }

  predicate Apart(a: InboundConfig, b: InboundConfig) {
    a.name != b.name && ((a.typ.Tuic? <==> b.typ.Tuic?) ==> Effective(a) != Effective(b))
  }

  // A configuration is valid exactly if the web address is one, every inbound is fit and no two are in each other's way.
  lemma ValidExactlyWhen(c: Config)
    ensures ValidConfig(c) <==>
              && c.web.listenParses && (forall i | 0 <= i < |c.inbounds| :: Fit(c.inbounds[i]))
              && (forall i, j | 0 <= i < j < |c.inbounds| :: Apart(c.inbounds[i], c.inbounds[j]))
  {
    forall i | 0 <= i < |c.inbounds|
      ensures Fit(c.inbounds[i]) <==> InboundOk(c.inbounds[i])
    {
    }
    forall i, j | 0 <= i < j < |c.inbounds|
      ensures Apart(c.inbounds[i], c.inbounds[j]) <==>
                c.inbounds[i].name != c.inbounds[j].name && SockOf(c.inbounds[i]) != SockOf(c.inbounds[j])
    {
    }
  }

  // `validate`: one pass with the names and sockets seen so far; succeeds exactly on valid configurations.
  method Validate(c: Config) returns (error: Option<ConfigError>)
    ensures error.None? <==> ValidConfig(c)
  {
    if !c.web.listenParses {
      return Some(BadListen);
    }
    var names: set<string>, socks: set<Sock> := {}, {};
    for n := 0 to |c.inbounds|
      invariant forall i | 0 <= i < n :: InboundOk(c.inbounds[i])
      invariant DistinctNames(c.inbounds[..n]) && DistinctSockets(c.inbounds[..n])
      invariant names == set i | 0 <= i < n :: c.inbounds[i].name
      invariant socks == set i | 0 <= i < n :: SockOf(c.inbounds[i])
    {
      var inb := c.inbounds[n];
      assert InboundOk(inb) ==> !Blank(inb.name) && Effective(inb) != 0;
      if Blank(inb.name) || inb.name in names {
        return Some(BadName(inb.name));
      }
      names := names + {inb.name};
      if Effective(inb) == 0 {
        return Some(NoPort(inb.name));
      }
      if SockOf(inb) in socks {
        return Some(DuplicateSocket(inb.name));
      }
      socks := socks + {SockOf(inb)};
      var fit := CheckSettings(inb);
      if !fit {
        return Some(BadSettings(inb.name));
      }
      DistinctSnoc(c.inbounds, n);
    }
    assert c.inbounds[..|c.inbounds|] == c.inbounds;
    return None;
  }

  // ---- Choosing a port ----

  const TRIES := 256

  type RandomPort = p: int | 1024 <= p <= 65535 witness 1024

  // A random port, and whether it could be bound when tried.
  datatype Draw = Draw(port: RandomPort, free: bool)
  type Draws = s: seq<Draw> | |s| == TRIES witness seq(TRIES, i => Draw(1024, false))

  predicate Usable(d: Draw, udp: bool, selected: set<Sock>) {
    Sock(udp, d.port) !in selected && d.free
  }

  function Choose(udp: bool, selected: set<Sock>, draws: seq<Draw>): (r: Option<u16>)
    ensures r.Some? ==> Sock(udp, r.value) !in selected && 1024 <= r.value
  {
    if draws == [] then None
    else if Usable(draws[0], udp, selected) then Some(draws[0].port)
    else Choose(udp, selected, draws[1..])
  }

  ghost predicate AnyUsable(draws: seq<Draw>, udp: bool, selected: set<Sock>) {
    exists k :: 0 <= k < |draws| && Usable(draws[k], udp, selected)
  }

  lemma {:induction false} ChooseFinds(udp: bool, selected: set<Sock>, draws: seq<Draw>)
    ensures Choose(udp, selected, draws).Some? <==> AnyUsable(draws, udp, selected)
  {
    if draws != [] && !Usable(draws[0], udp, selected) {
      ChooseFinds(udp, selected, draws[1..]);
      if AnyUsable(draws, udp, selected) {
        var k :| 0 <= k < |draws| && Usable(draws[k], udp, selected);
        assert draws[1..][k - 1] == draws[k];
      }
    }
  }

  // `choose_available_port`: the first of 256 draws that is neither selected nor taken.
  method ChooseAvailablePort(typ: Protocol, selected: set<Sock>, draws: Draws) returns (r: Option<u16>)
    ensures r == Choose(typ.Tuic?, selected, draws)
    ensures r.Some? ==> exists k :: 0 <= k < 256 && draws[k] == Draw(r.value, true) && Sock(typ.Tuic?, r.value) !in selected
                                    && forall m | 0 <= m < k :: !draws[m].free || Sock(typ.Tuic?, draws[m].port) in selected
    ensures r.None? ==> forall k | 0 <= k < 256 :: !draws[k].free || Sock(typ.Tuic?, draws[k].port) in selected
  {
    var udp := typ.Tuic?;
    for k := 0 to TRIES
      invariant Choose(udp, selected, draws) == Choose(udp, selected, draws[k..])
      invariant forall m | 0 <= m < k :: !Usable(draws[m], udp, selected)
    {
      assert draws[k..][0] == draws[k] && draws[k..][1..] == draws[k + 1..];
      if Sock(udp, draws[k].port) !in selected {
        if draws[k].free {
          return Some(draws[k].port);
        }
      }
    }
    return None;
  }

  // ---- assign_missing_ports ----

  predicate Missing(inb: InboundConfig) { inb.port == 0 && inb.portAssigned.None? }

  function Selected(inbounds: seq<InboundConfig>): set<Sock> {
    set i | 0 <= i < |inbounds| && Effective(inbounds[i]) != 0 :: SockOf(inbounds[i])
  }

  function WithPort(inb: InboundConfig, p: u16): InboundConfig { inb.(portAssigned := Some(p)) }

  function Assign(inbounds: seq<InboundConfig>, selected: set<Sock>, i: nat, draws: nat -> Draws)
    : Option<seq<InboundConfig>>
    requires i <= |inbounds|
    decreases |inbounds| - i
  {
    if i == |inbounds| then Some(inbounds)
    else if !Missing(inbounds[i]) then Assign(inbounds, selected, i + 1, draws)
    else
      var p := Choose(inbounds[i].typ.Tuic?, selected, draws(i));
      if p.None? then None
      else Assign(inbounds[i := WithPort(inbounds[i], p.value)], selected + {Sock(inbounds[i].typ.Tuic?, p.value)},
                  i + 1, draws)
  }

  function AssignMissing(c: Config, draws: nat -> Draws): Option<Config> {
    var r := Assign(c.inbounds, Selected(c.inbounds), 0, draws);
    if r.None? then None else Some(c.(inbounds := r.value))
  }

  // On an error the configuration may be left with some ports assigned; its callers drop it.
  method AssignMissingPorts(c: Config, draws: nat -> Draws) returns (changed: Option<bool>, next: Config)
    ensures changed.None? <==> AssignMissing(c, draws).None?
    ensures changed.Some? ==> next == AssignMissing(c, draws).value
    ensures changed.Some? ==> (changed.value <==> exists i :: 0 <= i < |c.inbounds| && Missing(c.inbounds[i]))
  {
    next := c;
    var selected := Selected(c.inbounds);
    var any := false;
    for i := 0 to |c.inbounds|
      invariant next == c.(inbounds := next.inbounds) && |next.inbounds| == |c.inbounds|
      invariant forall k | i <= k < |c.inbounds| :: next.inbounds[k] == c.inbounds[k]
      invariant Assign(next.inbounds, selected, i, draws) == Assign(c.inbounds, Selected(c.inbounds), 0, draws)
      invariant any <==> exists k :: 0 <= k < i && Missing(c.inbounds[k])
    {
      var inb := next.inbounds[i];
      if inb.port == 0 && inb.portAssigned.None? {
        var p := ChooseAvailablePort(inb.typ, selected, draws(i));
        if p.None? {
          return None, next;
        }
        selected := selected + {Sock(inb.typ.Tuic?, p.value)};
        next := next.(inbounds := next.inbounds[i := WithPort(inb, p.value)]);
        any := true;
      }
    }
    return Some(any), next;
  }

  // What assigning ports may do to a list of inbounds.
  ghost predicate OnlyPortsFilled(before: seq<InboundConfig>, after: seq<InboundConfig>) {
    && |after| == |before|
    && (forall i | 0 <= i < |before| && !Missing(before[i]) :: after[i] == before[i])
    && (forall i | 0 <= i < |before| && Missing(before[i]) ::
          after[i].portAssigned.Some? && after[i].portAssigned.value >= 1024
          && after[i] == WithPort(before[i], after[i].portAssigned.value))
    && (forall i, j | 0 <= i < j < |before| && Effective(after[i]) != 0 && SockOf(after[i]) == SockOf(after[j]) ::
          !Missing(before[i]) && !Missing(before[j]))
  }

  // The ports given out so far are selected, and so is every port that was there before.
  ghost predicate AssignInv(before: seq<InboundConfig>, now: seq<InboundConfig>, selected: set<Sock>, i: nat) {
    && |now| == |before| && i <= |now|
    && (forall k | i <= k < |now| :: now[k] == before[k])
    && (forall k | 0 <= k < |now| && Effective(now[k]) != 0 :: SockOf(now[k]) in selected)
    && OnlyPortsFilled(before[..i], now[..i])
    && (forall k, m | 0 <= k < i <= m < |now| && Missing(before[k]) && !Missing(before[m]) :: SockOf(now[k]) != SockOf(now[m]))
  }

  lemma AssignStep(before: seq<InboundConfig>, now: seq<InboundConfig>, selected: set<Sock>, i: nat, p: u16)
    requires AssignInv(before, now, selected, i) && i < |now| && Missing(now[i])
    requires p >= 1024 && Sock(now[i].typ.Tuic?, p) !in selected
    ensures AssignInv(before, now[i := WithPort(now[i], p)], selected + {Sock(now[i].typ.Tuic?, p)}, i + 1)
  {
    var next := now[i := WithPort(now[i], p)];
    assert forall k | 0 <= k < i :: next[..i + 1][k] == now[..i][k] && before[..i + 1][k] == before[..i][k];
    assert SockOf(next[i]) == Sock(now[i].typ.Tuic?, p);
  }

  lemma AssignSkips(before: seq<InboundConfig>, now: seq<InboundConfig>, selected: set<Sock>, i: nat)
    requires AssignInv(before, now, selected, i) && i < |now| && !Missing(now[i])
    ensures AssignInv(before, now, selected, i + 1)
  {
    assert forall k | 0 <= k < i :: now[..i + 1][k] == now[..i][k] && before[..i + 1][k] == before[..i][k];
  }

  lemma {:induction false} AssignKeeps(before: seq<InboundConfig>, now: seq<InboundConfig>, selected: set<Sock>, i: nat,
                                       draws: nat -> Draws)
    requires AssignInv(before, now, selected, i) && Assign(now, selected, i, draws).Some?
    ensures OnlyPortsFilled(before, Assign(now, selected, i, draws).value)
    decreases |now| - i
  {
    if i == |now| {
      assert before[..i] == before && now[..i] == now;
    } else if !Missing(now[i]) {
      AssignSkips(before, now, selected, i);
      AssignKeeps(before, now, selected, i + 1, draws);
    } else {
      var p := Choose(now[i].typ.Tuic?, selected, draws(i)).value;
      AssignStep(before, now, selected, i, p);
      AssignKeeps(before, now[i := WithPort(now[i], p)], selected + {Sock(now[i].typ.Tuic?, p)}, i + 1, draws);
    }
  }

  // Filling in missing ports leaves every other inbound alone, and no assigned port collides with anything.
  lemma AssignMissingKeeps(c: Config, draws: nat -> Draws)
    requires AssignMissing(c, draws).Some?
    ensures OnlyPortsFilled(c.inbounds, AssignMissing(c, draws).value.inbounds)
    ensures AssignMissing(c, draws).value == c.(inbounds := AssignMissing(c, draws).value.inbounds)
  {
    AssignKeeps(c.inbounds, c.inbounds, Selected(c.inbounds), 0, draws);
  }

  // p is the port of the first draw that is free and not taken.
  ghost predicate FirstUsable(draws: seq<Draw>, udp: bool, taken: set<Sock>, p: u16) {
    exists k :: 0 <= k < |draws| && draws[k].free && draws[k].port == p && Sock(udp, p) !in taken
                && forall m | 0 <= m < k :: !draws[m].free || Sock(udp, draws[m].port) in taken
  }

  lemma {:induction false} ChoosesFirst(udp: bool, taken: set<Sock>, draws: seq<Draw>)
    ensures Choose(udp, taken, draws).Some? ==> FirstUsable(draws, udp, taken, Choose(udp, taken, draws).value)
  {
    if draws != [] && !Usable(draws[0], udp, taken) {
      ChoosesFirst(udp, taken, draws[1..]);
      if Choose(udp, taken, draws).Some? {
        var p := Choose(udp, taken, draws).value;
        var k :| 0 <= k < |draws[1..]| && draws[1..][k].free && draws[1..][k].port == p && Sock(udp, p) !in taken
                 && forall m | 0 <= m < k :: !draws[1..][m].free || Sock(udp, draws[1..][m].port) in taken;
        assert draws[k + 1] == draws[1..][k];
        assert forall m | 1 <= m < k + 1 :: draws[m] == draws[1..][m - 1];
      }
    }
  }

  // The sockets inbound i must keep clear of: every one that was there, and those given to missing ports before it.
  function TakenFor(before: seq<InboundConfig>, now: seq<InboundConfig>, i: nat): set<Sock>
    requires |now| == |before|
  {
    Selected(before) + set k | 0 <= k < |now| && k < i && Missing(before[k]) :: SockOf(now[k])
  }

  // Of the inbounds before i each missing port is the first usable one of its own draws; nothing else has changed.
  ghost predicate FilledUpTo(before: seq<InboundConfig>, now: seq<InboundConfig>, i: nat, draws: nat -> Draws) {
    && |now| == |before|
    && (forall k | 0 <= k < |before| && (k >= i || !Missing(before[k])) :: now[k] == before[k])
    && (forall k | 0 <= k < |before| && k < i && Missing(before[k]) ::
          && now[k].portAssigned.Some? && now[k] == WithPort(before[k], now[k].portAssigned.value)
          && FirstUsable(draws(k), before[k].typ.Tuic?, TakenFor(before, now, k), now[k].portAssigned.value))
  }

  // Inbound i gets no port: none of its draws is usable.
  ghost predicate StuckAt(before: seq<InboundConfig>, now: seq<InboundConfig>, i: nat, draws: nat -> Draws) {
    && FilledUpTo(before, now, i, draws) && i < |before| && Missing(before[i])
    && !AnyUsable(draws(i), before[i].typ.Tuic?, TakenFor(before, now, i))
  }

  lemma FilledOneMore(before: seq<InboundConfig>, now: seq<InboundConfig>, i: nat, draws: nat -> Draws, p: u16)
    requires FilledUpTo(before, now, i, draws) && i < |before| && Missing(before[i])
    requires FirstUsable(draws(i), before[i].typ.Tuic?, TakenFor(before, now, i), p)
    ensures var next := now[i := WithPort(now[i], p)];
            && FilledUpTo(before, next, i + 1, draws)
            && TakenFor(before, next, i + 1) == TakenFor(before, now, i) + {Sock(before[i].typ.Tuic?, p)}
  {
    var next := now[i := WithPort(now[i], p)];
    forall k | 0 <= k <= i
      ensures TakenFor(before, next, k) == TakenFor(before, now, k)
    {
    }
    assert SockOf(next[i]) == Sock(before[i].typ.Tuic?, p);
  }

  lemma {:induction false} AssignsFirst(before: seq<InboundConfig>, now: seq<InboundConfig>, i: nat, draws: nat -> Draws)
    requires FilledUpTo(before, now, i, draws) && i <= |before|
    ensures match Assign(now, TakenFor(before, now, i), i, draws)
            case Some(after) => FilledUpTo(before, after, |before|, draws)
            case None => exists stuck, k: nat :: StuckAt(before, stuck, k, draws)
    decreases |before| - i
  {
    if i < |before| {
      var udp, taken := before[i].typ.Tuic?, TakenFor(before, now, i);
      if !Missing(before[i]) {
        assert TakenFor(before, now, i + 1) == taken;
        AssignsFirst(before, now, i + 1, draws);
      } else {
        ChooseFinds(udp, taken, draws(i));
        ChoosesFirst(udp, taken, draws(i));
        if Choose(udp, taken, draws(i)).None? {
          assert StuckAt(before, now, i, draws);
        } else {
          var p := Choose(udp, taken, draws(i)).value;
          FilledOneMore(before, now, i, draws, p);
          AssignsFirst(before, now[i := WithPort(now[i], p)], i + 1, draws);
        }
      }
    }
  }

  // Each missing port becomes the first of its draws that is free and clear of all others; if some inbound has none, nothing is
  // assigned.
  lemma AssignExactly(c: Config, draws: nat -> Draws)
    ensures match AssignMissing(c, draws)
            case Some(after) => after == c.(inbounds := after.inbounds) && FilledUpTo(c.inbounds, after.inbounds, |c.inbounds|, draws)
            case None => exists stuck, k: nat :: StuckAt(c.inbounds, stuck, k, draws)
  {
    assert TakenFor(c.inbounds, c.inbounds, 0) == Selected(c.inbounds);
    AssignsFirst(c.inbounds, c.inbounds, 0, draws);
  }

  // ---- reassign_auto_port ----

  function InboundIndex(inbounds: seq<InboundConfig>, name: string): (r: Option<nat>)
    ensures r.Some? ==> r.value < |inbounds| && inbounds[r.value].name == name
                        && forall k | 0 <= k < r.value :: inbounds[k].name != name
    ensures r.None? ==> forall i | 0 <= i < |inbounds| :: inbounds[i].name != name
  {
    IndexFrom(inbounds, name, 0)
  }

  function IndexFrom(inbounds: seq<InboundConfig>, name: string, i: nat): (r: Option<nat>)
    requires i <= |inbounds|
    ensures r.Some? ==> i <= r.value < |inbounds| && inbounds[r.value].name == name
                        && forall k | i <= k < r.value :: inbounds[k].name != name
    ensures r.None? ==> forall k | i <= k < |inbounds| :: inbounds[k].name != name
    decreases |inbounds| - i
  {
    if i == |inbounds| then None
    else if inbounds[i].name == name then Some(i)
    else IndexFrom(inbounds, name, i + 1)
  }

  function OthersSelected(inbounds: seq<InboundConfig>, index: nat): set<Sock> {
    set i | 0 <= i < |inbounds| && i != index && Effective(inbounds[i]) != 0 :: SockOf(inbounds[i])
  }

  // A fresh port for the inbound of this name, if it exists, has an automatic port, and a port can be had.
  function Reassign(inbounds: seq<InboundConfig>, name: string, draws: Draws): Option<seq<InboundConfig>> {
    var index := InboundIndex(inbounds, name);
    if index.None? || inbounds[index.value].port != 0 then None else
    var inb := inbounds[index.value];
    var p := Choose(inb.typ.Tuic?, OthersSelected(inbounds, index.value), draws);
    if p.None? then None else Some(inbounds[index.value := WithPort(inb, p.value)])
  }

  // `reassign_auto_port`; on an error nothing has changed.
  method ReassignAutoPort(inbounds: seq<InboundConfig>, name: string, draws: Draws)
    returns (ok: bool, next: seq<InboundConfig>)
    ensures ok <==> Reassign(inbounds, name, draws).Some?
    ensures next == if ok then Reassign(inbounds, name, draws).value else inbounds
  {
    var index := InboundIndex(inbounds, name);
    if index.None? || inbounds[index.value].port != 0 {
      return false, inbounds;
    }
    var inb := inbounds[index.value];
    var p := ChooseAvailablePort(inb.typ, OthersSelected(inbounds, index.value), draws);
    if p.None? {
      return false, inbounds;
    }
    return true, inbounds[index.value := WithPort(inb, p.value)];
  }

  // One automatic port moved, to where nothing else is.
  ghost predicate OnePortMoved(before: seq<InboundConfig>, after: seq<InboundConfig>, index: nat) {
    && |after| == |before| && index < |before|
    && (forall i | 0 <= i < |before| && i != index :: after[i] == before[i])
    && before[index].port == 0 && after[index].portAssigned.Some? && after[index].portAssigned.value >= 1024
    && after[index] == WithPort(before[index], after[index].portAssigned.value)
    && (forall i | 0 <= i < |before| && i != index && Effective(before[i]) != 0 :: SockOf(before[i]) != SockOf(after[index]))
  }

  lemma ReassignMoves(inbounds: seq<InboundConfig>, name: string, draws: Draws)
    requires Reassign(inbounds, name, draws).Some?
    ensures var index := InboundIndex(inbounds, name);
            index.Some? && OnePortMoved(inbounds, Reassign(inbounds, name, draws).value, index.value)
  {
    var index := InboundIndex(inbounds, name).value;
    forall i | 0 <= i < |inbounds| && i != index && Effective(inbounds[i]) != 0
      ensures SockOf(inbounds[i]) in OthersSelected(inbounds, index)
    {
    }
  }

  // Neither way of choosing ports can break a configuration that was valid but for the ports it was missing.
  lemma MovedStaysValid(before: seq<InboundConfig>, after: seq<InboundConfig>, index: nat)
    requires ValidInbounds(before) && OnePortMoved(before, after, index)
    ensures ValidInbounds(after)
  {
    assert InboundOk(before[index]);
  }

  // Valid except that automatic ports may still be missing.
  ghost predicate ValidButPorts(c: Config) {
    && c.web.listenParses
    && (forall i | 0 <= i < |c.inbounds| && !Missing(c.inbounds[i]) :: InboundOk(c.inbounds[i]))
    && (forall i | 0 <= i < |c.inbounds| && Missing(c.inbounds[i]) :: InboundOk(WithPort(c.inbounds[i], 1024)))
    && DistinctNames(c.inbounds)
    && (forall i, j | 0 <= i < j < |c.inbounds| && !Missing(c.inbounds[i]) && !Missing(c.inbounds[j]) ::
          SockOf(c.inbounds[i]) != SockOf(c.inbounds[j]))
  }

  // Once the missing ports are assigned, the configuration is valid exactly when nothing but ports was wrong with it.
  lemma FilledIsValid(c: Config, after: seq<InboundConfig>)
    requires OnlyPortsFilled(c.inbounds, after)
    ensures ValidConfig(c.(inbounds := after)) <==> ValidButPorts(c)
  {
    forall i | 0 <= i < |after|
      ensures after[i].name == c.inbounds[i].name
      ensures InboundOk(after[i]) <==>
                InboundOk(if Missing(c.inbounds[i]) then WithPort(c.inbounds[i], 1024) else c.inbounds[i])
    {
    }
    if ValidButPorts(c) {
      forall i, j | 0 <= i < j < |after|
        ensures SockOf(after[i]) != SockOf(after[j])
      {
        assert InboundOk(after[i]);
      }
    }
  }
}
