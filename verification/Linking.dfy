/**
 The life of a shared link (`BaseModbusConnection` in
 src/modbus_connection/_client.py, with the hooks of tmodbus/__init__.py).

 Tasks interleave only where they await, so each stretch of code between two awaits
 is one step: of a connect caller, of the shared connect flight, of a teardown
 (`disconnect` or `close`), or of the transport.
 */
module Linking {
  import opened Wrappers

  const DEFAULT_TIMEOUT: real := 10.0

  datatype Closer = ByFlight(f: nat) | ByTeardown(d: nat)

  /** A client is being connected, is the connection's, is being closed by one task, or is gone. */
  datatype Fate = InFlight(flight: nat) | Published | Closing(closer: Closer) | Closed | Taken | Failed

  /** When the transport dropped a client, if it did. */
  datatype Loss = Alive | LostInFlight | LostLater

  datatype Client = Client(timeout: real, fate: Fate, loss: Loss, closes: nat)

  /** The connect flight, by where it awaits. */
  datatype Flight = Scheduled | Connecting(client: nat) | Delaying(client: nat) | Refusing(client: nat) | Landed

  /** A teardown, by where it awaits. */
  datatype Stage = New | Waiting(flight: nat) | Acquiring | Tearing(client: nat) | Over

  /** `closing` tells `close` from `disconnect`. */
  datatype Teardown = Teardown(stage: Stage, closing: bool)

  datatype Link = Link(
    closed: bool, client: Option<nat>, task: Option<nat>,
    timeout: real, clientTimeout: real, delay: real,
    base: Option<real>, baseDelay: Option<real>, asked: Asks, askedDelays: Asks,
    unitClients: map<UnitId, nat>,
    clients: seq<Client>, flights: seq<Flight>, teardowns: seq<Teardown>)

  // ----- what units ask for -----

  datatype UnitId = UnitId(id: int)

  type Asks = map<UnitId, real>

  predicate NothingAsked(base: Option<real>, asks: Asks) {
    base.None? && asks == map[]
  }

  /** The value a link runs with: the largest asked for, or the default when nothing was (`_resolved`). */
  ghost predicate Resolves(r: real, base: Option<real>, asks: Asks, default_: real) {
    if NothingAsked(base, asks) then r == default_
    else
      && (base == Some(r) || exists u :: u in asks && asks[u] == r)
      && (base.Some? ==> base.value <= r)
      && (forall u :: u in asks ==> asks[u] <= r)
  }

  lemma OneResolution(a: real, b: real, base: Option<real>, asks: Asks, default_: real)
    requires Resolves(a, base, asks, default_) && Resolves(b, base, asks, default_)
    ensures a == b
  {
  }

  /** One more ask raises the value to it, or is the first. */
  lemma OneMoreAsk(r: real, base: Option<real>, asks: Asks, default_: real, u: UnitId, v: real)
    requires Resolves(r, base, asks, default_) && u !in asks
    ensures Resolves(if NothingAsked(base, asks) || v > r then v else r, base, asks[u := v], default_)
  {
    var now := if NothingAsked(base, asks) || v > r then v else r;
    var more := asks[u := v];
    assert more[u] == v;
    if now == r && base != Some(r) && !NothingAsked(base, asks) {
      var w :| w in asks && asks[w] == r;
      assert more[w] == r;
    }
  }

  lemma {:induction false} HasResolution(base: Option<real>, asks: Asks, default_: real)
    ensures exists r :: Resolves(r, base, asks, default_)
    decreases |asks|
  {
    if asks == map[] {
      assert Resolves(if base.Some? then base.value else default_, base, asks, default_);
    } else {
      var u :| u in asks;
      var rest := asks - {u};
      HasResolution(base, rest, default_);
      var r :| Resolves(r, base, rest, default_);
      OneMoreAsk(r, base, rest, default_, u, asks[u]);
      assert rest[u := asks[u]] == asks;
    }
  }

  ghost function Resolved(base: Option<real>, asks: Asks, default_: real): (r: real)
    ensures Resolves(r, base, asks, default_)
  {
    HasResolution(base, asks, default_);
    var r :| Resolves(r, base, asks, default_);
    r
  }

  method Resolve(base: Option<real>, asks: Asks, default_: real) returns (r: real)
    ensures r == Resolved(base, asks, default_)
  {
    hide Resolves, Resolved;
    var todo := asks.Keys;
    var seen: Asks := map[];
    r := if base.Some? then base.value else default_;
    NoAsks(base, default_);
    while todo != {}
      invariant todo <= asks.Keys && seen == asks - todo
      invariant Resolves(r, base, seen, default_)
      decreases |todo|
    {
      var u :| u in todo;
      OneMoreAsk(r, base, seen, default_, u, asks[u]);
      r := if NothingAsked(base, seen) || asks[u] > r then asks[u] else r;
      seen, todo := seen[u := asks[u]], todo - {u};
    }
    assert seen == asks;
    OneResolution(r, Resolved(base, asks, default_), base, asks, default_);
  }

  lemma NoAsks(base: Option<real>, default_: real)
    ensures Resolves(if base.Some? then base.value else default_, base, map[], default_)
  {
  }

  /** What a unit asks for replaces what it asked before; asking for nothing withdraws it (`_record`). */
  function Recorded(asks: Asks, unit: UnitId, seconds: Option<real>): Asks {
    if seconds.None? then asks - {unit} else asks[unit := seconds.value]
  }

  // ----- one step -----

  function WithFate(clients: seq<Client>, c: nat, fate: Fate): (now: seq<Client>)
    requires c < |clients|
    ensures |now| == |clients|
  {
    clients[c := clients[c].(fate := fate)]
  }

  /** `_close_client` is called on a client. */
  function BeingClosed(clients: seq<Client>, c: nat, closer: Closer): (now: seq<Client>)
    requires c < |clients|
    ensures |now| == |clients|
  {
    clients[c := clients[c].(fate := Closing(closer), closes := clients[c].closes + 1)]
  }

  function WithStage(teardowns: seq<Teardown>, d: nat, stage: Stage): (now: seq<Teardown>)
    requires d < |teardowns|
    ensures |now| == |teardowns|
  {
    teardowns[d := teardowns[d].(stage := stage)]
  }

  /** A connect caller, up to where it awaits the flight. */
  function AfterConnect(s: Link): Link {
    if s.closed || s.client.Some? || s.task.Some? then s
    else s.(task := Some(|s.flights|), flights := s.flights + [Scheduled])
  }

  /** The flight starts: a client is built with the timeout as it now is. */
  function AfterStart(s: Link, f: nat): Link
    requires f < |s.flights|
  {
    s.(clientTimeout := s.timeout, clients := s.clients + [Client(s.timeout, InFlight(f), Alive, 0)],
       flights := s.flights[f := Connecting(|s.clients|)])
  }

  function AfterFail(s: Link, f: nat, c: nat): Link
    requires f < |s.flights| && c < |s.clients|
  {
    s.(flights := s.flights[f := Landed], clients := WithFate(s.clients, c, Failed))
  }

  /** The link is up and the delay is over: publish the client, or close it if the connection was closed meanwhile. */
  function AfterReady(s: Link, f: nat, c: nat): Link
    requires f < |s.flights| && c < |s.clients|
  {
    if s.closed then
      s.(flights := s.flights[f := Refusing(c)], unitClients := map[], clients := BeingClosed(s.clients, c, ByFlight(f)))
    else s.(client := Some(c), flights := s.flights[f := Landed], clients := WithFate(s.clients, c, Published))
  }

  /** The client is connected; with a delay set, the flight waits it out first. */
  function AfterOpened(s: Link, f: nat, c: nat): Link
    requires f < |s.flights| && c < |s.clients|
  {
    if s.delay != 0.0 then s.(flights := s.flights[f := Delaying(c)]) else AfterReady(s, f, c)
  }

  function AfterRefused(s: Link, f: nat, c: nat): Link
    requires f < |s.flights| && c < |s.clients|
  {
    s.(flights := s.flights[f := Landed], clients := WithFate(s.clients, c, Closed))
  }

  /** The completed flight's callback (`_connect_done`). */
  function AfterCallback(s: Link, f: nat): Link {
    if s.task == Some(f) then s.(task := None) else s
  }

  function AfterSpawn(s: Link, closing: bool): Link {
    s.(teardowns := s.teardowns + [Teardown(New, closing)])
  }

  /** A teardown starts: it waits out the connect flight if there is one. */
  function AfterBegin(s: Link, d: nat): Link
    requires d < |s.teardowns|
  {
    s.(teardowns := WithStage(s.teardowns, d, if s.task.Some? then Waiting(s.task.value) else Acquiring))
  }

  /** The flight it waited for is over. */
  function AfterWake(s: Link, d: nat): Link
    requires d < |s.teardowns|
  {
    s.(teardowns := WithStage(s.teardowns, d, Acquiring))
  }

  /** It got the lock, or gave up waiting for it: whatever client is published is taken down. */
  function AfterTake(s: Link, d: nat): Link
    requires d < |s.teardowns| && (s.client.Some? ==> s.client.value < |s.clients|)
  {
    if s.client.None? then s.(teardowns := WithStage(s.teardowns, d, Over))
    else
      var c := s.client.value;
      s.(client := None, unitClients := map[], teardowns := WithStage(s.teardowns, d, Tearing(c)),
         clients := BeingClosed(s.clients, c, ByTeardown(d)))
  }

  function AfterShut(s: Link, d: nat, c: nat): Link
    requires d < |s.teardowns| && c < |s.clients|
  {
    s.(teardowns := WithStage(s.teardowns, d, Over), clients := WithFate(s.clients, c, Closed))
  }

  /** `close` marks the connection, then runs its teardown up to the first await. */
  function AfterClose(s: Link): Link {
    AfterBegin(AfterSpawn(s.(closed := true), true), |s.teardowns|)
  }

  /** The transport drops a client, and its hook runs (`_on_connection_lost`). */
  function AfterLoss(s: Link, c: nat): Link
    requires c < |s.clients|
  {
    var was := s.clients[c];
    var lost := was.(loss := if was.loss != Alive then was.loss else if was.fate.InFlight? then LostInFlight else LostLater);
    if s.closed || s.client.None? then s.(clients := s.clients[c := lost])
    else s.(client := None, unitClients := map[], clients := s.clients[c := if s.client == Some(c) then lost.(fate := Taken) else lost])
  }

  /** A unit asks for a timeout: raising it on a link that is up or coming up needs a new client (`_require_timeout`). */
  ghost function AfterRequire(s: Link, unit: UnitId, seconds: Option<real>): Link {
    if seconds.Some? && seconds.value < 0.0 then s
    else
      var asked := Recorded(s.asked, unit, seconds);
      var now := s.(asked := asked, timeout := Resolved(s.base, asked, DEFAULT_TIMEOUT));
      if now.timeout > s.clientTimeout && (s.client.Some? || s.task.Some?) then AfterSpawn(now, false) else now
  }

  ghost function AfterRequireDelay(s: Link, unit: UnitId, seconds: Option<real>): Link {
    if seconds.Some? && seconds.value < 0.0 then s
    else
      var asked := Recorded(s.askedDelays, unit, seconds);
      s.(askedDelays := asked, delay := Resolved(s.baseDelay, asked, 0.0))
  }

  /** A request looks up its unit's handle (`_unit_client`). */
  function AfterUse(s: Link, unit: UnitId): Link {
    if s.client.None? || unit in s.unitClients then s else s.(unitClients := s.unitClients[unit := s.client.value])
  }

  datatype Event =
    | Connect | Start(f: nat) | Fail(f: nat) | Opened(f: nat) | Ready(f: nat) | Refused(f: nat) | Callback(f: nat)
    | Disconnect | Close | Begin(d: nat) | Wake(d: nat) | Take(d: nat) | Shut(d: nat)
    | Lose(c: nat) | Require(unit: UnitId, seconds: Option<real>) | RequireDelay(unit: UnitId, seconds: Option<real>) | Use(unit: UnitId)

  /** The process an event moves stands where that step starts. */
  predicate Enabled(s: Link, e: Event) {
    match e
    case Connect => true
    case Start(f) => f < |s.flights| && s.flights[f] == Scheduled
    case Fail(f) => f < |s.flights| && s.flights[f].Connecting? && s.flights[f].client < |s.clients|
    case Opened(f) => f < |s.flights| && s.flights[f].Connecting? && s.flights[f].client < |s.clients|
    case Ready(f) => f < |s.flights| && s.flights[f].Delaying? && s.flights[f].client < |s.clients|
    case Refused(f) => f < |s.flights| && s.flights[f].Refusing? && s.flights[f].client < |s.clients|
    case Callback(f) => f < |s.flights| && s.flights[f] == Landed
    case Disconnect => true
    case Close => true
    case Begin(d) => d < |s.teardowns| && s.teardowns[d].stage == New
    case Wake(d) => d < |s.teardowns| && s.teardowns[d].stage.Waiting? &&
                    (s.teardowns[d].stage.flight < |s.flights| ==> s.flights[s.teardowns[d].stage.flight] == Landed)
    case Take(d) => d < |s.teardowns| && s.teardowns[d].stage == Acquiring && (s.client.Some? ==> s.client.value < |s.clients|)
    case Shut(d) => d < |s.teardowns| && s.teardowns[d].stage.Tearing? && s.teardowns[d].stage.client < |s.clients|
    case Lose(c) => c < |s.clients|
    case Require(_, _) => true
    case RequireDelay(_, _) => true
    case Use(_) => true
  }

  /** What the code assumes of the transport: the hook of an old client does not run while a newer one is published. */
  predicate Assumed(s: Link, e: Event) {
    e.Lose? ==> s.closed || s.client.None? || s.client == Some(e.c)
  }

  ghost function Step(s: Link, e: Event): Link
    requires Enabled(s, e)
  {
    match e
    case Connect => AfterConnect(s)
    case Start(f) => AfterStart(s, f)
    case Fail(f) => AfterFail(s, f, s.flights[f].client)
    case Opened(f) => AfterOpened(s, f, s.flights[f].client)
    case Ready(f) => AfterReady(s, f, s.flights[f].client)
    case Refused(f) => AfterRefused(s, f, s.flights[f].client)
    case Callback(f) => AfterCallback(s, f)
    case Disconnect => AfterSpawn(s, false)
    case Close => AfterClose(s)
    case Begin(d) => AfterBegin(s, d)
    case Wake(d) => AfterWake(s, d)
    case Take(d) => AfterTake(s, d)
    case Shut(d) => AfterShut(s, d, s.teardowns[d].stage.client)
    case Lose(c) => AfterLoss(s, c)
    case Require(unit, seconds) => AfterRequire(s, unit, seconds)
    case RequireDelay(unit, seconds) => AfterRequireDelay(s, unit, seconds)
    case Use(unit) => AfterUse(s, unit)
  }

  /** A connection as constructed. */
  function Initial(base: Option<real>, baseDelay: Option<real>): Link {
    var timeout := if base.Some? then base.value else DEFAULT_TIMEOUT;
    Link(false, None, None, timeout, timeout, if baseDelay.Some? then baseDelay.value else 0.0,
         base, baseDelay, map[], map[], map[], [], [], [])
  }

  /** A run of enabled steps the transport plays by the rules in. */
  ghost predicate Runs(s: Link, events: seq<Event>, t: Link)
    decreases |events|
  {
    if events == [] then s == t
    else Enabled(s, events[0]) && Assumed(s, events[0]) && Runs(Step(s, events[0]), events[1..], t)
  }

  // ----- what every step keeps -----

  /** At most one connect flight is unfinished, and it is the shared one; none is while a client is published. */
  ghost predicate OneFlight(s: Link) {
    && (forall f {:trigger s.flights[f]} :: 0 <= f < |s.flights| && s.flights[f] != Landed ==> s.task == Some(f) && s.client.None?)
    && (s.task.Some? ==> s.task.value < |s.flights|)
  }

  /** Every task that has a client in hand is the one the client's fate names. */
  ghost predicate HoldersRight(s: Link) {
    && (forall f {:trigger s.flights[f]} :: 0 <= f < |s.flights| && (s.flights[f].Connecting? || s.flights[f].Delaying?) ==>
        s.flights[f].client < |s.clients| && s.clients[s.flights[f].client].fate == InFlight(f))
    && (forall f {:trigger s.flights[f]} :: 0 <= f < |s.flights| && s.flights[f].Refusing? ==>
        s.flights[f].client < |s.clients| && s.clients[s.flights[f].client].fate == Closing(ByFlight(f)))
    && (s.client.Some? ==> s.client.value < |s.clients| && s.clients[s.client.value].fate == Published)
    && (forall d {:trigger s.teardowns[d]} :: 0 <= d < |s.teardowns| && s.teardowns[d].stage.Tearing? ==>
        s.teardowns[d].stage.client < |s.clients| && s.clients[s.teardowns[d].stage.client].fate == Closing(ByTeardown(d)))
  }

  /** A client is in the hands its fate names, and is closed at most once. */
  ghost predicate Held(s: Link, c: nat)
    requires c < |s.clients|
  {
    var fate := s.clients[c].fate;
    && (fate.InFlight? ==> fate.flight < |s.flights| && s.flights[fate.flight] in {Connecting(c), Delaying(c)})
    && (fate.Published? ==> s.client == Some(c))
    && (fate.Closing? && fate.closer.ByFlight? ==> fate.closer.f < |s.flights| && s.flights[fate.closer.f] == Refusing(c))
    && (fate.Closing? && fate.closer.ByTeardown? ==> fate.closer.d < |s.teardowns| && s.teardowns[fate.closer.d].stage == Tearing(c))
    && s.clients[c].closes == (if fate.Closing? || fate.Closed? then 1 else 0)
  }

  ghost predicate AllHeld(s: Link) {
    forall c :: 0 <= c < |s.clients| ==> Held(s, c)
  }

  /** Cached unit handles belong to the published client. */
  ghost predicate HandlesRight(s: Link) {
    forall u :: u in s.unitClients ==> s.client == Some(s.unitClients[u])
  }

  /** Once a `close` is past its take step there is no client. */
  ghost predicate CloseHolds(s: Link) {
    && (forall d {:trigger s.teardowns[d]} :: 0 <= d < |s.teardowns| && s.teardowns[d].closing ==>
        s.closed && (s.teardowns[d].stage.Tearing? || s.teardowns[d].stage.Over? ==> s.client.None?))
  }

  /** The timeout and the delay are always what was asked. */
  ghost predicate AskedRight(s: Link) {
    Resolves(s.timeout, s.base, s.asked, DEFAULT_TIMEOUT) && Resolves(s.delay, s.baseDelay, s.askedDelays, 0.0)
  }

  /** The live or coming client runs with the timeout on record. */
  ghost predicate TimeoutsRight(s: Link) {
    forall c {:trigger s.clients[c]} :: 0 <= c < |s.clients| && (s.clients[c].fate.InFlight? || s.clients[c].fate.Published?) ==>
      s.clients[c].timeout == s.clientTimeout
  }

  /** A teardown that has yet to take whatever client is published. */
  ghost predicate Pending(s: Link, d: nat)
    requires d < |s.teardowns|
  {
    s.teardowns[d].stage.New? || s.teardowns[d].stage.Waiting? || s.teardowns[d].stage.Acquiring?
  }

  /** A teardown that will not take before the unfinished flight is over. */
  ghost predicate PendingOn(s: Link, d: nat)
    requires d < |s.teardowns|
  {
    s.teardowns[d].stage.New? || (s.teardowns[d].stage.Waiting? && s.task == Some(s.teardowns[d].stage.flight))
  }

  ghost predicate SomePending(s: Link) {
    exists d :: 0 <= d < |s.teardowns| && Pending(s, d)
  }

  ghost predicate SomePendingOn(s: Link) {
    exists d :: 0 <= d < |s.teardowns| && PendingOn(s, d)
  }

  /**
   No stale timeout is forgotten: if the published client runs with less than is now asked, some
   teardown has yet to take it; if the client in flight does, some teardown outlasts the flight.
   */
  ghost predicate StaleRemembered(s: Link) {
    s.timeout > s.clientTimeout ==>
      && (s.client.Some? ==> SomePending(s))
      && (forall c {:trigger s.clients[c]} :: 0 <= c < |s.clients| && s.clients[c].fate.InFlight? ==> SomePendingOn(s))
  }

  /** A client the transport dropped is not the published one, unless it was dropped before it was published. */
  ghost predicate LossesSeen(s: Link) {
    forall c {:trigger s.clients[c]} :: 0 <= c < |s.clients| && (s.clients[c].fate.InFlight? || (s.clients[c].fate.Published? && !s.closed)) ==>
      s.clients[c].loss != LostLater
  }

  ghost predicate Structured(s: Link) {
    && OneFlight(s) && HoldersRight(s) && AllHeld(s) && HandlesRight(s) && CloseHolds(s)
    && AskedRight(s) && TimeoutsRight(s) && LossesSeen(s)
  }

  ghost predicate Inv(s: Link) {
    Structured(s) && StaleRemembered(s)
  }

  lemma StartsRight(base: Option<real>, baseDelay: Option<real>)
    ensures Inv(Initial(base, baseDelay))
  {
  }

  lemma ConnectKeeps(s: Link, t: Link)
    requires Structured(s) && t == AfterConnect(s)
    ensures Structured(t)
  {
    forall c | 0 <= c < |t.clients| ensures Held(t, c) {
      if c < |s.clients| { assert Held(s, c); }
    }
  }

  lemma StartKeeps(s: Link, f: nat, t: Link)
    requires Structured(s) && Enabled(s, Start(f)) && t == AfterStart(s, f)
    ensures Structured(t)
  {
    forall c | 0 <= c < |s.clients| ensures !s.clients[c].fate.InFlight? && !s.clients[c].fate.Published? {
      assert Held(s, c);
    }
    forall c | 0 <= c < |t.clients| ensures Held(t, c) {
      if c < |s.clients| { assert Held(s, c); }
    }
  }

  lemma FailKeeps(s: Link, f: nat, t: Link)
    requires Structured(s) && Enabled(s, Fail(f)) && t == AfterFail(s, f, s.flights[f].client)
    ensures Structured(t)
  {
    forall c | 0 <= c < |t.clients| ensures Held(t, c) {
      if c < |s.clients| { assert Held(s, c); }
    }
  }

  lemma ReadyKeeps(s: Link, f: nat, t: Link)
    requires Structured(s) && f < |s.flights| && (s.flights[f].Connecting? || s.flights[f].Delaying?) && s.flights[f].client < |s.clients| && t == AfterReady(s, f, s.flights[f].client)
    ensures Structured(t)
  {
    forall c | 0 <= c < |t.clients| ensures Held(t, c) {
      if c < |s.clients| { assert Held(s, c); }
    }
  }

  lemma DelayKeeps(s: Link, f: nat, t: Link)
    requires Structured(s) && Enabled(s, Opened(f)) && t == s.(flights := s.flights[f := Delaying(s.flights[f].client)])
    ensures Structured(t)
  {
    forall c | 0 <= c < |t.clients| ensures Held(t, c) {
      if c < |s.clients| { assert Held(s, c); }
    }
  }

  lemma RefusedKeeps(s: Link, f: nat, t: Link)
    requires Structured(s) && Enabled(s, Refused(f)) && t == AfterRefused(s, f, s.flights[f].client)
    ensures Structured(t)
  {
    forall c | 0 <= c < |t.clients| ensures Held(t, c) {
      if c < |s.clients| { assert Held(s, c); }
    }
  }

  lemma CallbackKeeps(s: Link, f: nat, t: Link)
    requires Structured(s) && Enabled(s, Callback(f)) && t == AfterCallback(s, f)
    ensures Structured(t)
  {
    forall c | 0 <= c < |t.clients| ensures Held(t, c) {
      if c < |s.clients| { assert Held(s, c); }
    }
  }

  lemma SpawnKeeps(s: Link, closing: bool, t: Link)
    requires Structured(s) && (closing ==> s.closed) && t == AfterSpawn(s, closing)
    ensures Structured(t)
  {
    forall c | 0 <= c < |t.clients| ensures Held(t, c) {
      if c < |s.clients| { assert Held(s, c); }
    }
  }

  lemma MarkKeeps(s: Link, t: Link)
    requires Structured(s) && t == s.(closed := true)
    ensures Structured(t)
  {
    forall c | 0 <= c < |t.clients| ensures Held(t, c) {
      if c < |s.clients| { assert Held(s, c); }
    }
  }

  lemma BeginKeeps(s: Link, d: nat, t: Link)
    requires Structured(s) && Enabled(s, Begin(d)) && t == AfterBegin(s, d)
    ensures Structured(t)
  {
    forall c | 0 <= c < |t.clients| ensures Held(t, c) {
      if c < |s.clients| { assert Held(s, c); }
    }
  }

  lemma WakeKeeps(s: Link, d: nat, t: Link)
    requires Structured(s) && Enabled(s, Wake(d)) && t == AfterWake(s, d)
    ensures Structured(t)
  {
    forall c | 0 <= c < |t.clients| ensures Held(t, c) {
      if c < |s.clients| { assert Held(s, c); }
    }
  }

  lemma TakeKeeps(s: Link, d: nat, t: Link)
    requires Structured(s) && Enabled(s, Take(d)) && t == AfterTake(s, d)
    ensures Structured(t)
  {
    hide Structured, AfterTake;
    TakeHolders(s, d, t);
    TakeHeld(s, d, t);
    TakeRest(s, d, t);
    assert Structured(t) by { All(t); }
  }

  lemma Parts(s: Link)
    requires Structured(s)
    ensures HoldersRight(s)
  {
  }

  lemma All(t: Link)
    requires OneFlight(t) && HoldersRight(t) && AllHeld(t) && HandlesRight(t) && CloseHolds(t) && AskedRight(t) && TimeoutsRight(t) && LossesSeen(t)
    ensures Structured(t)
  {
  }

  lemma TakeHolders(s: Link, d: nat, t: Link)
    requires Structured(s) && Enabled(s, Take(d)) && t == AfterTake(s, d)
    ensures OneFlight(t) && HoldersRight(t)
  {
    hide AskedRight, TimeoutsRight, LossesSeen, HandlesRight, CloseHolds, AllHeld;
  }

  lemma TakeHeld(s: Link, d: nat, t: Link)
    requires Structured(s) && Enabled(s, Take(d)) && t == AfterTake(s, d)
    ensures AllHeld(t)
  {
    hide AskedRight, TimeoutsRight, LossesSeen, HandlesRight, CloseHolds, OneFlight;
    forall c | 0 <= c < |t.clients| ensures Held(t, c) {
      assert Held(s, c);
    }
  }

  lemma TakeRest(s: Link, d: nat, t: Link)
    requires Structured(s) && Enabled(s, Take(d)) && t == AfterTake(s, d)
    ensures HandlesRight(t) && CloseHolds(t) && AskedRight(t) && TimeoutsRight(t) && LossesSeen(t)
  {
    hide AllHeld, OneFlight, Resolves;
  }

  lemma ShutKeeps(s: Link, d: nat, t: Link)
    requires Structured(s) && Enabled(s, Shut(d)) && t == AfterShut(s, d, s.teardowns[d].stage.client)
    ensures Structured(t)
  {
    forall c | 0 <= c < |t.clients| ensures Held(t, c) {
      if c < |s.clients| { assert Held(s, c); }
    }
  }

  lemma LoseKeeps(s: Link, c: nat, t: Link)
    requires Structured(s) && Enabled(s, Lose(c)) && Assumed(s, Lose(c)) && t == AfterLoss(s, c)
    ensures Structured(t)
  {
    hide Structured, AfterLoss;
    LoseHeld(s, c, t);
    LoseRest(s, c, t);
    All(t);
  }

  lemma LoseHeld(s: Link, c: nat, t: Link)
    requires Structured(s) && Enabled(s, Lose(c)) && Assumed(s, Lose(c)) && t == AfterLoss(s, c)
    ensures OneFlight(t) && HoldersRight(t) && AllHeld(t)
  {
    hide AskedRight, TimeoutsRight, LossesSeen, HandlesRight, CloseHolds;
    forall k | 0 <= k < |t.clients| ensures Held(t, k) {
      assert Held(s, k);
    }
  }

  lemma LoseRest(s: Link, c: nat, t: Link)
    requires Structured(s) && Enabled(s, Lose(c)) && Assumed(s, Lose(c)) && t == AfterLoss(s, c)
    ensures HandlesRight(t) && CloseHolds(t) && AskedRight(t) && TimeoutsRight(t) && LossesSeen(t)
  {
    hide OneFlight, Resolves;
    assert Held(s, c);
  }

  lemma RequireKeeps(s: Link, unit: UnitId, seconds: Option<real>, t: Link)
    requires Structured(s) && t == AfterRequire(s, unit, seconds)
    ensures Structured(t)
  {
    hide Resolves, Resolved;
    RequireAsks(s, unit, seconds, t);
    forall c | 0 <= c < |t.clients| ensures Held(t, c) {
      assert Held(s, c);
    }
  }

  /** It changes what was asked and the value that answers it, and may add a teardown. */
  lemma RequireAsks(s: Link, unit: UnitId, seconds: Option<real>, t: Link)
    requires AskedRight(s) && t == AfterRequire(s, unit, seconds)
    ensures AskedRight(t)
    ensures t == s.(asked := t.asked, timeout := t.timeout, teardowns := t.teardowns)
    ensures t.teardowns == s.teardowns || t.teardowns == s.teardowns + [Teardown(New, false)]
  {
    hide Resolves;
  }

  lemma RequireDelayKeeps(s: Link, unit: UnitId, seconds: Option<real>, t: Link)
    requires Structured(s) && t == AfterRequireDelay(s, unit, seconds)
    ensures Structured(t)
  {
    hide Resolves, Resolved;
    forall c | 0 <= c < |t.clients| ensures Held(t, c) {
      if c < |s.clients| { assert Held(s, c); }
    }
  }

  lemma UseKeeps(s: Link, unit: UnitId, t: Link)
    requires Structured(s) && t == AfterUse(s, unit)
    ensures Structured(t)
  {
    forall c | 0 <= c < |t.clients| ensures Held(t, c) {
      if c < |s.clients| { assert Held(s, c); }
    }
  }

  lemma StepKeeps(s: Link, e: Event)
    requires Structured(s) && Enabled(s, e) && Assumed(s, e)
    ensures Structured(Step(s, e))
  {
    hide Structured, AfterConnect, AfterStart, AfterFail, AfterReady, AfterRefused, AfterCallback, AfterSpawn, AfterBegin,
         AfterTake, AfterShut, AfterLoss, AfterRequire, AfterRequireDelay, AfterUse, AfterWake;
    var t := Step(s, e);
    match e {
      case Connect => ConnectKeeps(s, t);
      case Start(f) => StartKeeps(s, f, t);
      case Fail(f) => FailKeeps(s, f, t);
      case Opened(f) => if s.delay != 0.0 { DelayKeeps(s, f, t); } else { ReadyKeeps(s, f, t); }
      case Ready(f) => ReadyKeeps(s, f, t);
      case Refused(f) => RefusedKeeps(s, f, t);
      case Callback(f) => CallbackKeeps(s, f, t);
      case Disconnect => SpawnKeeps(s, false, t);
      case Close => CloseKeeps(s, t);
      case Begin(d) => BeginKeeps(s, d, t);
      case Wake(d) => WakeKeeps(s, d, t);
      case Take(d) => TakeKeeps(s, d, t);
      case Shut(d) => ShutKeeps(s, d, t);
      case Lose(c) => LoseKeeps(s, c, t);
      case Require(unit, seconds) => RequireKeeps(s, unit, seconds, t);
      case RequireDelay(unit, seconds) => RequireDelayKeeps(s, unit, seconds, t);
      case Use(unit) => UseKeeps(s, unit, t);
    }
  }

  lemma CloseKeeps(s: Link, t: Link)
    requires Structured(s) && t == AfterClose(s)
    ensures Structured(t)
  {
    hide Structured, AfterBegin;
    var marked := s.(closed := true);
    MarkKeeps(s, marked);
    SpawnKeeps(marked, true, AfterSpawn(marked, true));
    BeginKeeps(AfterSpawn(marked, true), |s.teardowns|, t);
  }

  lemma TaskHolds(s: Link, c: nat)
    requires Structured(s) && c < |s.clients| && s.clients[c].fate.InFlight?
    ensures s.task == Some(s.clients[c].fate.flight) && s.client.None?
    ensures s.clients[c].fate.flight < |s.flights| && s.flights[s.clients[c].fate.flight] in {Connecting(c), Delaying(c)}
  {
    assert Held(s, c);
  }

  /** While the client in flight is stale, the teardown that outlasts the flight stays that way. */
  lemma KeepsPendingOn(s: Link, e: Event, t: Link, c: nat)
    requires Inv(s) && Enabled(s, e) && t == Step(s, e) && !e.Require? && !e.Start?
    requires s.timeout > s.clientTimeout && c < |s.clients| && s.clients[c].fate.InFlight?
    ensures (c < |t.clients| && t.clients[c].fate.InFlight?) ==> SomePendingOn(t)
    ensures t.client.Some? ==> SomePending(t)
  {
    hide Step, Enabled;
    TaskHolds(s, c);
    var d :| 0 <= d < |s.teardowns| && PendingOn(s, d);
    OutlastsFlight(s, e, t, c, d);
  }

  lemma OutlastsFlight(s: Link, e: Event, t: Link, c: nat, d: nat)
    requires Enabled(s, e) && t == Step(s, e) && !e.Require? && !e.Start?
    requires c < |s.clients| && s.client.None? && s.task.Some? && s.task.value < |s.flights|
    requires s.flights[s.task.value] in {Connecting(c), Delaying(c)} && s.clients[c].fate == InFlight(s.task.value)
    requires forall f {:trigger s.flights[f]} :: 0 <= f < |s.flights| && s.flights[f] != Landed ==> f == s.task.value
    requires d < |s.teardowns| && PendingOn(s, d)
    ensures d < |t.teardowns| && (t.client.Some? ==> Pending(t, d))
    ensures (c < |t.clients| && t.clients[c].fate.InFlight?) ==> PendingOn(t, d)
  {
    if Aside(e) {
      hide Resolved, Resolves, AfterFail, AfterOpened, AfterReady, AfterRefused, AfterTake, AfterShut, AfterLoss;
    } else {
      hide Resolved, Resolves, AfterConnect, AfterCallback, AfterClose, AfterSpawn, AfterBegin, AfterWake, AfterRequireDelay, AfterUse;
    }
  }

  /** While the published client is stale, some teardown still has it to take. */
  lemma KeepsPending(s: Link, e: Event, t: Link)
    requires Inv(s) && Enabled(s, e) && t == Step(s, e) && !e.Require? && !e.Start?
    requires s.timeout > s.clientTimeout && s.client.Some? && t.client.Some?
    ensures SomePending(t)
  {
    var d :| 0 <= d < |s.teardowns| && Pending(s, d);
    assert Pending(t, d);
  }

  lemma RequireKeepsStale(s: Link, unit: UnitId, seconds: Option<real>, t: Link)
    requires Inv(s) && t == AfterRequire(s, unit, seconds)
    ensures StaleRemembered(t)
  {
    if t.timeout > t.clientTimeout {
      if t.teardowns == s.teardowns {
        forall c {:trigger t.clients[c]} | 0 <= c < |t.clients| && t.clients[c].fate.InFlight? ensures SomePendingOn(t) {
          TaskHolds(s, c);
        }
      } else {
        assert Pending(t, |s.teardowns|) && PendingOn(t, |s.teardowns|);
      }
    }
  }

  lemma KeepsStale(s: Link, e: Event, t: Link)
    requires Inv(s) && Enabled(s, e) && Assumed(s, e) && t == Step(s, e)
    ensures StaleRemembered(t)
  {
    hide Structured, SomePending, SomePendingOn;
    if e.Require? {
      RequireKeepsStale(s, e.unit, e.seconds, t);
    } else if !e.Start? && t.timeout > t.clientTimeout {
      assert HoldersRight(s) by { Parts(s); }
      PublishesFromFlight(s, e, t);
      if t.client.Some? {
        if s.client.Some? { KeepsPending(s, e, t); } else { KeepsPendingOn(s, e, t, t.client.value); }
      }
      forall c {:trigger t.clients[c]} | 0 <= c < |t.clients| && t.clients[c].fate.InFlight? ensures SomePendingOn(t) {
        KeepsPendingOn(s, e, t, c);
      }
    }
  }

  /** Steps that leave the clients alone. */
  predicate Aside(e: Event) {
    e.Connect? || e.Callback? || e.Disconnect? || e.Close? || e.Begin? || e.Wake? || e.RequireDelay? || e.Use?
  }

  lemma AsideLeavesClients(s: Link, e: Event, t: Link)
    requires Enabled(s, e) && t == Step(s, e) && Aside(e)
    ensures t.timeout == s.timeout && t.clientTimeout == s.clientTimeout && t.client == s.client && t.clients == s.clients
  {
    hide Resolved, Resolves;
  }

  /** Only the flight's own client is published, and only a start builds one. */
  lemma PublishesFromFlight(s: Link, e: Event, t: Link)
    requires HoldersRight(s) && Enabled(s, e) && t == Step(s, e) && !e.Start? && !e.Require?
    ensures t.timeout == s.timeout && t.clientTimeout == s.clientTimeout
    ensures t.client.Some? && s.client.None? ==> t.client.value < |s.clients| && s.clients[t.client.value].fate.InFlight?
    ensures |t.clients| == |s.clients| && forall c {:trigger t.clients[c]} :: 0 <= c < |t.clients| && t.clients[c].fate.InFlight? ==> s.clients[c].fate.InFlight?
  {
    if Aside(e) {
      hide Step, HoldersRight;
      AsideLeavesClients(s, e, t);
    } else if e.Opened? || e.Ready? {
      hide AfterStart, AfterFail, AfterRefused, AfterTake, AfterShut, AfterLoss;
      hide Resolved, Resolves, AfterConnect, AfterCallback, AfterClose, AfterBegin, AfterWake, AfterRequire, AfterRequireDelay, AfterUse, AfterSpawn;
    } else {
      hide Step, HoldersRight;
      UnpublishesOnly(s, e, t);
    }
  }

  lemma UnpublishesOnly(s: Link, e: Event, t: Link)
    requires Enabled(s, e) && t == Step(s, e) && (e.Fail? || e.Refused? || e.Take? || e.Shut? || e.Lose?)
    ensures t.timeout == s.timeout && t.clientTimeout == s.clientTimeout
    ensures s.client.None? ==> t.client.None?
    ensures |t.clients| == |s.clients| && forall c {:trigger t.clients[c]} :: 0 <= c < |t.clients| && t.clients[c].fate.InFlight? ==> s.clients[c].fate.InFlight?
  {
  }

  /** Every step keeps everything. */
  lemma Keeps(s: Link, e: Event)
    requires Inv(s) && Enabled(s, e) && Assumed(s, e)
    ensures Inv(Step(s, e))
  {
    hide Structured, StaleRemembered, Step, Enabled;
    StepKeeps(s, e);
    KeepsStale(s, e, Step(s, e));
  }

  lemma {:induction false} RunKeeps(s: Link, events: seq<Event>, t: Link)
    requires Inv(s) && Runs(s, events, t)
    ensures Inv(t)
    decreases |events|
  {
    hide Inv, Step, Enabled;
    if events != [] {
      Keeps(s, events[0]);
      RunKeeps(Step(s, events[0]), events[1..], t);
    }
  }

  // ----- what that means in every reachable state -----

  ghost predicate Reachable(t: Link) {
    exists base, baseDelay, events :: Runs(Initial(base, baseDelay), events, t)
  }

  lemma ReachableIsRight(t: Link)
    requires Reachable(t)
    ensures Inv(t)
  {
    hide Inv, Runs, Initial;
    var base, baseDelay, events :| Runs(Initial(base, baseDelay), events, t);
    StartsRight(base, baseDelay);
    RunKeeps(Initial(base, baseDelay), events, t);
  }

  /**
   Client conservation: at most one connect flight is unfinished, and every client ever built is
   in flight, published, in the hands of the one task closing it, closed, taken by the transport,
   or never came up; `_close_client` runs once for each that is closed.
   */
  lemma ClientsAreConserved(t: Link)
    requires Reachable(t)
    ensures forall f, g :: 0 <= f < |t.flights| && 0 <= g < |t.flights| && t.flights[f] != Landed && t.flights[g] != Landed ==> f == g
    ensures forall c :: 0 <= c < |t.clients| ==> Held(t, c)
    ensures t.client.Some? ==> t.client.value < |t.clients| && t.clients[t.client.value].fate == Published
    ensures forall u :: u in t.unitClients ==> t.client == Some(t.unitClients[u])
  {
    ReachableIsRight(t);
  }

  /** A client's fate only moves on, and only a client in flight is ever published. */
  predicate MovesOn(was: Fate, now: Fate) {
    || was == now
    || (was.InFlight? && (now.Published? || now.Failed? || now.Closing?))
    || (was.Published? && (now.Closing? || now.Taken?))
    || (was.Closing? && now.Closed?)
  }

  lemma FatesMoveOn(s: Link, e: Event, c: nat)
    requires Inv(s) && Enabled(s, e) && Assumed(s, e) && c < |s.clients|
    ensures c < |Step(s, e).clients| && MovesOn(s.clients[c].fate, Step(s, e).clients[c].fate)
    ensures s.closed ==> Step(s, e).closed && (Step(s, e).clients[c].fate.Published? ==> s.clients[c].fate.Published?)
    ensures s.closed && Step(s, e).client.Some? ==> Step(s, e).client == s.client
  {
    if Aside(e) {
      hide Step;
      AsideLeavesClients(s, e, Step(s, e));
      AsideStaysClosed(s, e);
    } else {
      hide Resolved, Resolves, AfterConnect, AfterCallback, AfterClose, AfterBegin, AfterWake, AfterRequireDelay, AfterUse,
           AllHeld, HandlesRight, CloseHolds, AskedRight, TimeoutsRight, LossesSeen, StaleRemembered, OneFlight;
    }
  }

  lemma AsideStaysClosed(s: Link, e: Event)
    requires Enabled(s, e) && Aside(e)
    ensures s.closed ==> Step(s, e).closed
  {
    hide Resolved, Resolves;
  }

  /** Once the connection is marked closed nothing is ever published again. */
  lemma {:induction false} ClosedForGood(s: Link, events: seq<Event>, t: Link)
    requires Inv(s) && s.closed && Runs(s, events, t)
    ensures t.closed && (t.client.Some? ==> t.client == s.client)
    ensures |t.clients| >= |s.clients| && forall c :: 0 <= c < |s.clients| && t.clients[c].fate.Published? ==> s.clients[c].fate.Published?
    ensures forall c :: |s.clients| <= c < |t.clients| ==> !t.clients[c].fate.Published?
    decreases |events|
  {
    hide Inv, Step, Enabled, MovesOn;
    if events != [] {
      var next := Step(s, events[0]);
      Keeps(s, events[0]);
      forall c | 0 <= c < |s.clients| ensures c < |next.clients| && (next.clients[c].fate.Published? ==> s.clients[c].fate.Published?) {
        FatesMoveOn(s, events[0], c);
      }
      ClosedStep(s, events[0]);
      ClosedForGood(next, events[1..], t);
    }
  }

  lemma ClosedStep(s: Link, e: Event)
    requires Inv(s) && s.closed && Enabled(s, e) && Assumed(s, e)
    ensures Step(s, e).closed && (Step(s, e).client.Some? ==> Step(s, e).client == s.client)
    ensures |Step(s, e).clients| >= |s.clients|
    ensures forall c :: |s.clients| <= c < |Step(s, e).clients| ==> !Step(s, e).clients[c].fate.Published?
  {
    if Aside(e) {
      hide Step;
      AsideLeavesClients(s, e, Step(s, e));
      AsideStaysClosed(s, e);
    } else {
      hide Resolved, Resolves, AfterConnect, AfterCallback, AfterClose, AfterBegin, AfterWake, AfterRequireDelay, AfterUse,
           AllHeld, HandlesRight, CloseHolds, AskedRight, TimeoutsRight, LossesSeen, StaleRemembered, OneFlight;
    }
  }

  /** After `close` has returned no client is published, and none ever will be. */
  lemma NoneAfterClose(s: Link, events: seq<Event>, t: Link, d: nat)
    requires Reachable(s) && d < |s.teardowns| && s.teardowns[d] == Teardown(Over, true) && Runs(s, events, t)
    ensures s.client.None? && t.client.None?
  {
    hide Runs;
    ReachableIsRight(s);
    assert s.teardowns[d].closing;
    ClosedForGood(s, events, t);
  }

  /**
   The timeout is always the largest asked for, or the default; and while the published client
   runs with less, some teardown is still to come whose take step takes that very client.
   */
  lemma StaleTimeoutIsReplaced(t: Link)
    requires Reachable(t)
    ensures Resolves(t.timeout, t.base, t.asked, DEFAULT_TIMEOUT)
    ensures t.client.Some? ==> t.client.value < |t.clients| && t.clients[t.client.value].fate == Published
    ensures t.client.Some? && t.clients[t.client.value].timeout < t.timeout ==> SomePending(t)
    ensures forall c :: 0 <= c < |t.clients| && t.clients[c].fate.InFlight? && t.clients[c].timeout < t.timeout ==> SomePendingOn(t)
    ensures forall d :: 0 <= d < |t.teardowns| && Enabled(t, Take(d)) && t.client.Some? ==>
      AfterTake(t, d).client.None? && AfterTake(t, d).clients[t.client.value].fate == Closing(ByTeardown(d))
  {
    hide Resolves;
    ReachableIsRight(t);
    assert Resolves(t.timeout, t.base, t.asked, DEFAULT_TIMEOUT) by { AskedHolds(t); }
    if t.client.Some? { assert Held(t, t.client.value); }
  }

  lemma AskedHolds(t: Link)
    requires Inv(t)
    ensures Resolves(t.timeout, t.base, t.asked, DEFAULT_TIMEOUT)
    ensures Resolves(t.delay, t.baseDelay, t.askedDelays, 0.0)
  {
  }

  /** What is assumed of the hook is exactly what conservation needs of it. */
  lemma AssumptionIsNeeded(s: Link, c: nat)
    requires Inv(s) && c < |s.clients|
    ensures Inv(Step(s, Lose(c))) <==> Assumed(s, Lose(c))
  {
    if Assumed(s, Lose(c)) {
      Keeps(s, Lose(c));
    } else {
      assert Held(s, s.client.value) && !Held(Step(s, Lose(c)), s.client.value);
    }
  }

  /**
   A client lost while the flight waits out the connect delay is published all the same:
   the hook finds nothing published and stands down.
   */
  lemma LostInDelayIsPublished(s: Link, f: nat)
    requires Inv(s) && Enabled(s, Ready(f)) && !s.closed
    ensures var c := s.flights[f].client;
      && s.client.None? && Assumed(s, Lose(c))
      && var lost := Step(s, Lose(c));
      && Enabled(lost, Ready(f))
      && Step(lost, Ready(f)).client == Some(c) && Step(lost, Ready(f)).clients[c].loss != Alive
  {
    assert s.flights[f] != Landed;
  }

  /** A flight has the client in hand: it is still connecting it, or waits out the delay. */
  predicate Flying(s: Link, c: nat) {
    exists f :: 0 <= f < |s.flights| && (s.flights[f] == Connecting(c) || s.flights[f] == Delaying(c))
  }

  /** Somewhere in the run the transport drops the client before its flight is over. */
  ghost predicate LostEarly(s: Link, events: seq<Event>, c: nat)
    decreases |events|
  {
    events != [] && Enabled(s, events[0]) &&
    ((events[0] == Lose(c) && Flying(s, c)) || LostEarly(Step(s, events[0]), events[1..], c))
  }

  /** Somewhere in the run the transport drops the client before its connect call is through. */
  ghost predicate LostConnecting(s: Link, events: seq<Event>, c: nat)
    decreases |events|
  {
    events != [] && Enabled(s, events[0]) &&
    ((events[0] == Lose(c) && Connecting(c) in s.flights) || LostConnecting(Step(s, events[0]), events[1..], c))
  }

  predicate MarkedEarly(s: Link, c: nat) {
    c < |s.clients| && s.clients[c].loss == LostInFlight
  }

  lemma FlyingIsInFlight(s: Link, c: nat)
    requires Inv(s)
    ensures Flying(s, c) <==> c < |s.clients| && s.clients[c].fate.InFlight?
  {
    if c < |s.clients| && s.clients[c].fate.InFlight? {
      TaskHolds(s, c);
    }
  }

  lemma FlyingNotLostLater(s: Link, c: nat)
    requires Inv(s) && Flying(s, c)
    ensures c < |s.clients| && s.clients[c].fate.InFlight? && s.clients[c].loss in {Alive, LostInFlight}
  {
    FlyingIsInFlight(s, c);
  }

  /** Only the hook marks a client, and it marks it early only in flight. */
  lemma StepMarks(s: Link, e: Event, c: nat)
    requires Inv(s) && Enabled(s, e)
    ensures MarkedEarly(Step(s, e), c) <==> MarkedEarly(s, c) || (e == Lose(c) && Flying(s, c))
  {
    hide Inv, Flying;
    if e == Lose(c) {
      FlyingIsInFlight(s, c);
      if Flying(s, c) { FlyingNotLostLater(s, c); }
    } else if Aside(e) {
      hide Step;
      AsideLeavesClients(s, e, Step(s, e));
    } else {
      OthersMarkNothing(s, e, c);
    }
  }

  lemma OthersMarkNothing(s: Link, e: Event, c: nat)
    requires Enabled(s, e) && e != Lose(c) && !Aside(e)
    ensures MarkedEarly(Step(s, e), c) <==> MarkedEarly(s, c)
  {
    hide Resolved, Resolves;
  }

  lemma {:induction false} RunMarks(s: Link, events: seq<Event>, t: Link, c: nat)
    requires Inv(s) && Runs(s, events, t)
    ensures MarkedEarly(t, c) <==> MarkedEarly(s, c) || LostEarly(s, events, c)
    decreases |events|
  {
    hide Inv, Step, Enabled, MarkedEarly, Flying;
    if events != [] {
      Keeps(s, events[0]);
      StepMarks(s, events[0], c);
      RunMarks(Step(s, events[0]), events[1..], t, c);
    }
  }

  /**
   When a published client is alive: in every run, exactly when the transport did not drop it
   while its flight was unfinished. A later loss is seen, and unpublishes it.
   */
  lemma PublishedIsAliveIff(base: Option<real>, baseDelay: Option<real>, events: seq<Event>, t: Link, c: nat)
    requires Runs(Initial(base, baseDelay), events, t) && !t.closed && t.client == Some(c)
    ensures c < |t.clients| && (t.clients[c].loss == Alive <==> !LostEarly(Initial(base, baseDelay), events, c))
  {
    StartsRight(base, baseDelay);
    RunKeeps(Initial(base, baseDelay), events, t);
    RunMarks(Initial(base, baseDelay), events, t, c);
    PublishedSeen(t, c);
  }

  lemma PublishedSeen(t: Link, c: nat)
    requires Inv(t) && !t.closed && t.client == Some(c)
    ensures c < |t.clients| && t.clients[c].loss != LostLater
  {
  }

  /** No unit ever asks for a connect delay. */
  predicate AsksNoDelay(events: seq<Event>) {
    forall e :: e in events && e.RequireDelay? && e.seconds.Some? ==> e.seconds.value <= 0.0
  }

  /** Without a delay no flight waits one out. */
  ghost predicate Undelayed(s: Link) {
    && (s.baseDelay.Some? ==> s.baseDelay.value == 0.0) && s.delay == 0.0
    && (forall u :: u in s.askedDelays ==> s.askedDelays[u] == 0.0)
    && (forall f :: 0 <= f < |s.flights| ==> !s.flights[f].Delaying?)
  }

  /** The delay and the flights are left alone, but for a flight that is only scheduled. */
  ghost predicate LeavesDelay(s: Link, t: Link) {
    && t.baseDelay == s.baseDelay && t.delay == s.delay && t.askedDelays == s.askedDelays
    && (t.flights == s.flights || t.flights == s.flights + [Scheduled])
  }

  lemma SameDelay(s: Link, t: Link)
    requires Undelayed(s) && LeavesDelay(s, t)
    ensures Undelayed(t)
  {
  }

  lemma OthersLeaveDelay(s: Link, e: Event)
    requires Enabled(s, e) && !e.RequireDelay? && !e.Opened? && !e.Ready? && !e.Refused? && !e.Fail? && !e.Start?
    ensures LeavesDelay(s, Step(s, e))
  {
    hide Resolved, Resolves, AfterRequireDelay, AfterOpened, AfterReady, AfterRefused, AfterFail, AfterStart, WithFate, WithStage, BeingClosed;
  }

  lemma StaysUndelayed(s: Link, e: Event)
    requires Undelayed(s) && Enabled(s, e)
    requires e.RequireDelay? && e.seconds.Some? ==> e.seconds.value <= 0.0
    ensures Undelayed(Step(s, e))
  {
    if e.RequireDelay? {
      hide Resolved;
      var r := Resolved(s.baseDelay, Recorded(s.askedDelays, e.unit, e.seconds), 0.0);
    } else if e.Opened? || e.Ready? || e.Refused? || e.Fail? || e.Start? {
      hide Resolved, Resolves, AfterConnect, AfterCallback, AfterClose, AfterBegin, AfterWake, AfterRequire, AfterRequireDelay,
           AfterUse, AfterTake, AfterShut, AfterLoss;
    } else {
      hide Undelayed;
      OthersLeaveDelay(s, e);
      SameDelay(s, Step(s, e));
    }
  }

  lemma {:induction false} UndelayedRun(s: Link, events: seq<Event>, t: Link, c: nat)
    requires Undelayed(s) && Runs(s, events, t) && AsksNoDelay(events)
    ensures Undelayed(t) && (LostEarly(s, events, c) <==> LostConnecting(s, events, c))
    decreases |events|
  {
    hide Step, Enabled;
    if events != [] {
      StaysUndelayed(s, events[0]);
      assert forall e :: e in events[1..] ==> e in events;
      UndelayedRun(Step(s, events[0]), events[1..], t, c);
    }
  }

  /**
   What a caller can do about it: with no connect delay configured and none ever asked for, no
   flight ever waits, and a published client is dead only if it was lost inside its connect call.
   */
  lemma NoDelayNoExposure(base: Option<real>, baseDelay: Option<real>, events: seq<Event>, t: Link, c: nat)
    requires Runs(Initial(base, baseDelay), events, t) && AsksNoDelay(events)
    requires baseDelay.Some? ==> baseDelay.value == 0.0
    ensures forall f :: 0 <= f < |t.flights| ==> !t.flights[f].Delaying?
    ensures !t.closed && t.client == Some(c) ==>
      c < |t.clients| && (t.clients[c].loss == Alive <==> !LostConnecting(Initial(base, baseDelay), events, c))
  {
    UndelayedRun(Initial(base, baseDelay), events, t, c);
    if !t.closed && t.client == Some(c) {
      PublishedIsAliveIff(base, baseDelay, events, t, c);
    }
  }

  lemma RunsFrom(s: Link, e: Event, rest: seq<Event>, t: Link)
    requires Enabled(s, e) && Assumed(s, e) && Runs(Step(s, e), rest, t)
    ensures Runs(s, [e] + rest, t)
  {
    hide Step, Enabled, Assumed;
    assert ([e] + rest)[0] == e && ([e] + rest)[1..] == rest;
  }

  lemma RunsNowhere(s: Link)
    ensures Runs(s, [], s)
  {
  }

  /** Five steps to a dead client: with any delay set, it is lost while the flight waits the delay out. */
  lemma DeadClientIsReached(base: Option<real>, delay: real)
    requires delay != 0.0
    ensures exists t ::
              Runs(Initial(base, Some(delay)), [Connect, Start(0), Opened(0), Lose(0), Ready(0)], t) &&
              !t.closed && t.client == Some(0) && |t.clients| == 1 && t.clients[0].loss != Alive
  {
    hide Runs, Resolved, Resolves, AfterRequire, AfterRequireDelay, AfterClose, AfterTake, AfterShut, AfterRefused, AfterFail,
         AfterBegin, AfterWake, AfterUse, AfterCallback;
    var a := Initial(base, Some(delay));
    var b := Step(a, Connect);
    var c := Step(b, Start(0));
    var d := Step(c, Opened(0));
    var e := Step(d, Lose(0));
    var t := Step(e, Ready(0));
    RunsNowhere(t);
    RunsFrom(e, Ready(0), [], t);
    assert [Ready(0)] + [] == [Ready(0)];
    assert [Lose(0)] + [Ready(0)] == [Lose(0), Ready(0)];
    RunsFrom(d, Lose(0), [Ready(0)], t);
    assert [Opened(0)] + [Lose(0), Ready(0)] == [Opened(0), Lose(0), Ready(0)];
    RunsFrom(c, Opened(0), [Lose(0), Ready(0)], t);
    assert [Start(0)] + [Opened(0), Lose(0), Ready(0)] == [Start(0), Opened(0), Lose(0), Ready(0)];
    RunsFrom(b, Start(0), [Opened(0), Lose(0), Ready(0)], t);
    assert [Connect] + [Start(0), Opened(0), Lose(0), Ready(0)] == [Connect, Start(0), Opened(0), Lose(0), Ready(0)];
    RunsFrom(a, Connect, [Start(0), Opened(0), Lose(0), Ready(0)], t);
  }

  // ----- nobody is stuck -----

  /** The steps that move a flight or a teardown on. */
  predicate Moves(e: Event) {
    e.Start? || e.Fail? || e.Opened? || e.Ready? || e.Refused? || e.Begin? || e.Wake? || e.Take? || e.Shut?
  }

  /** A process that took a step is past it. */
  lemma StepsAreTakenOnce(s: Link, e: Event)
    requires Enabled(s, e) && Moves(e)
    ensures !Enabled(Step(s, e), e)
  {
    hide Resolved, Resolves, AfterConnect, AfterCallback, AfterClose, AfterSpawn, AfterLoss, AfterRequire, AfterRequireDelay, AfterUse;
  }

  /** A flight that has landed, and a teardown that is over, take no further step. */
  lemma OverIsOver(s: Link, e: Event)
    requires Moves(e)
    requires if e.Begin? || e.Wake? || e.Take? || e.Shut? then e.d < |s.teardowns| && s.teardowns[e.d].stage.Over?
             else e.f < |s.flights| && s.flights[e.f].Landed?
    ensures !Enabled(s, e)
  {
  }

  ghost predicate CanMove(s: Link, e: Event) {
    Moves(e) && Enabled(s, e)
  }

  /** Every unfinished flight can go on, and every teardown, unless it waits for a flight that is not over. */
  lemma NobodyIsStuck(t: Link)
    requires Reachable(t)
    ensures forall f :: 0 <= f < |t.flights| && t.flights[f] != Landed ==>
              CanMove(t, Start(f)) || CanMove(t, Opened(f)) || CanMove(t, Ready(f)) || CanMove(t, Refused(f))
    ensures forall d :: 0 <= d < |t.teardowns| && t.teardowns[d].stage != Over ==>
              || CanMove(t, Begin(d)) || CanMove(t, Wake(d)) || CanMove(t, Take(d)) || CanMove(t, Shut(d))
              || (t.teardowns[d].stage.Waiting? && t.task == Some(t.teardowns[d].stage.flight) && t.teardowns[d].stage.flight < |t.flights|
                  && t.flights[t.teardowns[d].stage.flight] != Landed)
  {
    ReachableIsRight(t);
  }

  /**
   Once the shared flight has landed and its callback has run, a connect caller of an open link that is
   down starts a flight of its own: the link never stays with one that is over.
   */
  lemma ConnectStartsAnew(s: Link, f: nat)
    requires Inv(s) && s.task == Some(f) && Enabled(s, Callback(f)) && !s.closed && s.client.None?
    ensures var ready := Step(s, Callback(f));
      var t := Step(ready, Connect);
      && ready == s.(task := None)
      && t.task == Some(|s.flights|) && t.flights == s.flights + [Scheduled]
      && Enabled(t, Start(|s.flights|))
  {
    hide Inv;
  }

  /** A callback of a flight that is not the shared one changes nothing. */
  lemma StaleCallbackIsIgnored(s: Link, f: nat)
    requires Enabled(s, Callback(f)) && s.task != Some(f)
    ensures Step(s, Callback(f)) == s
  {
  }

  // ----- what units asked for, over runs -----

  function On(asks: Asks, unit: UnitId): Option<real> {
    if unit in asks then Some(asks[unit]) else None
  }

  /** What a unit last asked in a run, of the timeout or of the delay: a refused ask leaves what stood before. */
  function LastAsk(events: seq<Event>, unit: UnitId, delays: bool, before: Option<real>): Option<real>
    decreases |events|
  {
    if events == [] then before
    else
      var last := events[|events| - 1];
      if (if delays then last.RequireDelay? else last.Require?) && last.unit == unit && !(last.seconds.Some? && last.seconds.value < 0.0)
      then last.seconds
      else LastAsk(events[..|events| - 1], unit, delays, before)
  }

  /** Taking the first step off: what it asked stands unless something later is asked. */
  lemma {:induction false} LastAskFirst(events: seq<Event>, unit: UnitId, delays: bool, before: Option<real>)
    requires events != []
    ensures LastAsk(events, unit, delays, before)
         == LastAsk(events[1..], unit, delays, LastAsk([events[0]], unit, delays, before))
    decreases |events|
  {
    var n := |events| - 1;
    if n > 0 {
      assert events[..n][1..] == events[1..][..n - 1];
      LastAskFirst(events[..n], unit, delays, before);
    } else {
      assert events == [events[0]];
    }
  }

  /** What one step asks. */
  lemma OneAsk(e: Event, unit: UnitId, delays: bool, before: Option<real>)
    ensures LastAsk([e], unit, delays, before) ==
            if (if delays then e.RequireDelay? else e.Require?) && e.unit == unit && !(e.seconds.Some? && e.seconds.value < 0.0)
            then e.seconds else before
  {
    assert [e][..0] == [];
    assert LastAsk([], unit, delays, before) == before;
  }

  lemma OthersAskNothing(s: Link, e: Event)
    requires Enabled(s, e) && !e.Require? && !e.RequireDelay?
    ensures Step(s, e).asked == s.asked && Step(s, e).askedDelays == s.askedDelays
    ensures Step(s, e).base == s.base && Step(s, e).baseDelay == s.baseDelay
  {
    hide AfterRequire, AfterRequireDelay, Resolved, Resolves, WithFate, WithStage, BeingClosed;
    if e.Start? || e.Fail? || e.Opened? || e.Ready? || e.Refused? {
      hide AfterConnect, AfterCallback, AfterSpawn, AfterClose, AfterBegin, AfterWake, AfterTake, AfterShut, AfterLoss, AfterUse;
    } else {
      hide AfterStart, AfterFail, AfterOpened, AfterReady, AfterRefused;
    }
  }

  lemma StepAsks(s: Link, e: Event, unit: UnitId)
    requires Enabled(s, e)
    ensures On(Step(s, e).asked, unit) == LastAsk([e], unit, false, On(s.asked, unit))
    ensures On(Step(s, e).askedDelays, unit) == LastAsk([e], unit, true, On(s.askedDelays, unit))
    ensures Step(s, e).base == s.base && Step(s, e).baseDelay == s.baseDelay
  {
    hide Resolved, Resolves, LastAsk, AfterConnect, AfterStart, AfterFail, AfterOpened, AfterReady, AfterRefused, AfterCallback,
         AfterClose, AfterSpawn, AfterBegin, AfterWake, AfterTake, AfterShut, AfterLoss, AfterUse;
    OneAsk(e, unit, false, On(s.asked, unit));
    OneAsk(e, unit, true, On(s.askedDelays, unit));
    if e.Require? || e.RequireDelay? {
      SpawnAsksNothing(s, e);
    } else {
      hide Step;
      OthersAskNothing(s, e);
    }
  }

  lemma SpawnAsksNothing(s: Link, e: Event)
    requires e.Require? || e.RequireDelay?
    ensures var t := Step(s, e);
      && t.base == s.base && t.baseDelay == s.baseDelay
      && t.asked == (if e.Require? && !(e.seconds.Some? && e.seconds.value < 0.0) then Recorded(s.asked, e.unit, e.seconds) else s.asked)
      && t.askedDelays == (if e.RequireDelay? && !(e.seconds.Some? && e.seconds.value < 0.0)
                           then Recorded(s.askedDelays, e.unit, e.seconds) else s.askedDelays)
  {
    hide Resolved, Resolves, Recorded;
  }

  lemma {:induction false} RunAsks(s: Link, events: seq<Event>, t: Link, unit: UnitId)
    requires Runs(s, events, t)
    ensures On(t.asked, unit) == LastAsk(events, unit, false, On(s.asked, unit))
    ensures On(t.askedDelays, unit) == LastAsk(events, unit, true, On(s.askedDelays, unit))
    ensures t.base == s.base && t.baseDelay == s.baseDelay
    decreases |events|
  {
    hide Step, Enabled;
    if events != [] {
      StepAsks(s, events[0], unit);
      RunAsks(Step(s, events[0]), events[1..], t, unit);
      LastAskFirst(events, unit, false, On(s.asked, unit));
      LastAskFirst(events, unit, true, On(s.askedDelays, unit));
    }
  }

  /**
   In every run, each unit's ask on record is the last it made that was not refused, and the timeout and
   the delay are the largest of those and the connection's own, or the default when nobody asked.
   */
  lemma TimeoutIsAsked(base: Option<real>, baseDelay: Option<real>, events: seq<Event>, t: Link)
    requires Runs(Initial(base, baseDelay), events, t)
    ensures forall u :: On(t.asked, u) == LastAsk(events, u, false, None)
    ensures forall u :: On(t.askedDelays, u) == LastAsk(events, u, true, None)
    ensures Resolves(t.timeout, base, t.asked, DEFAULT_TIMEOUT) && Resolves(t.delay, baseDelay, t.askedDelays, 0.0)
  {
    hide Resolves, Runs, LastAsk;
    StartsRight(base, baseDelay);
    RunKeeps(Initial(base, baseDelay), events, t);
    AskedHolds(t);
    forall u ensures On(t.asked, u) == LastAsk(events, u, false, None) && On(t.askedDelays, u) == LastAsk(events, u, true, None) {
      RunAsks(Initial(base, baseDelay), events, t, u);
    }
    RunAsks(Initial(base, baseDelay), events, t, UnitId(0));
  }

  /** The client that is published, or that the unfinished flight has in hand. */
  ghost predicate LiveOrComing(s: Link, c: nat) {
    c < |s.clients| && (s.clients[c].fate.Published? || s.clients[c].fate.InFlight?)
  }

  /** Asking for a timeout tears the link down exactly when the live or coming client runs with less; a link that is down is left alone. */
  lemma RaisingTearsDown(s: Link, unit: UnitId, seconds: Option<real>, c: nat)
    requires Inv(s) && !(seconds.Some? && seconds.value < 0.0)
    ensures var t := Step(s, Require(unit, seconds));
      && (LiveOrComing(s, c) ==> (t.teardowns != s.teardowns <==> s.clients[c].timeout < t.timeout))
      && (s.client.None? && s.task.None? ==> t.teardowns == s.teardowns)
  {
    hide Resolved, Resolves;
    if LiveOrComing(s, c) {
      assert Held(s, c);
      if s.clients[c].fate.InFlight? { TaskHolds(s, c); }
    }
  }

  /** Looking up a unit's handle on a link that is up leaves every unit that looked one up with the published client's. */
  lemma HandlesAreLookedUp(s: Link, unit: UnitId)
    requires Inv(s)
    ensures var t := Step(s, Use(unit));
      && t.unitClients.Keys == (if s.client.Some? then s.unitClients.Keys + {unit} else {})
      && (forall u :: u in t.unitClients ==> Some(t.unitClients[u]) == s.client)
      && t == s.(unitClients := t.unitClients)
  {
    assert HandlesRight(s);
    if s.client.None? { assert forall u :: u !in s.unitClients; }
  }

  // ----- the connection itself -----

  /** The object whose methods run between awaits; where each coroutine stands is kept with it. */
  class Connection {
    var closed: bool
    var client: Option<nat>
    var task: Option<nat>
    var timeout: real
    var clientTimeout: real
    var delay: real
    var base: Option<real>
    var baseDelay: Option<real>
    var asked: Asks
    var askedDelays: Asks
    var unitClients: map<UnitId, nat>
    var clients: seq<Client>
    var flights: seq<Flight>
    var teardowns: seq<Teardown>

    ghost function Now(): Link
      reads this
    {
      Link(closed, client, task, timeout, clientTimeout, delay, base, baseDelay, asked, askedDelays, unitClients, clients, flights, teardowns)
    }

    constructor (base: Option<real>, baseDelay: Option<real>)
      ensures Now() == Initial(base, baseDelay)
    {
      closed, client, task := false, None, None;
      timeout := if base.Some? then base.value else DEFAULT_TIMEOUT;
      clientTimeout := if base.Some? then base.value else DEFAULT_TIMEOUT;
      delay := if baseDelay.Some? then baseDelay.value else 0.0;
      this.base, this.baseDelay, asked, askedDelays := base, baseDelay, map[], map[];
      unitClients, clients, flights, teardowns := map[], [], [], [];
    }

    /** A connect caller up to where it awaits the flight; refused when closed. */
    method Connect() returns (ok: bool)
      modifies this
      ensures Now() == AfterConnect(old(Now())) && ok == !old(closed)
      ensures ok ==> client.Some? || task.Some?
    {
      if closed {
        return false;
      }
      ok := true;
      if client.Some? {
        return;
      }
      if task.None? {
        task := Some(|flights|);
        flights := flights + [Scheduled];
      }
    }

    method StartFlight(f: nat)
      requires Inv(Now()) && Enabled(Now(), Start(f))
      modifies this
      ensures Now() == Step(old(Now()), Start(f)) && Inv(Now())
    {
      Keeps(Now(), Start(f));
      clientTimeout := timeout;
      flights := flights[f := Connecting(|clients|)];
      clients := clients + [Client(timeout, InFlight(f), Alive, 0)];
    }

    method FlightFailed(f: nat)
      requires Inv(Now()) && Enabled(Now(), Fail(f))
      modifies this
      ensures Now() == Step(old(Now()), Fail(f)) && Inv(Now())
    {
      Keeps(Now(), Fail(f));
      var c := flights[f].client;
      flights := flights[f := Landed];
      clients := WithFate(clients, c, Failed);
    }

    /** The client is up: wait out the delay, or go on. */
    method FlightOpened(f: nat)
      requires Inv(Now()) && Enabled(Now(), Opened(f))
      modifies this
      ensures Now() == Step(old(Now()), Opened(f)) && Inv(Now())
    {
      Keeps(Now(), Opened(f));
      if delay != 0.0 {
        flights := flights[f := Delaying(flights[f].client)];
      } else {
        Publish(f);
      }
    }

    /** Publish the flight's client, or close it if the connection was closed meanwhile. */
    method Publish(f: nat)
      requires f < |flights| && (flights[f].Connecting? || flights[f].Delaying?) && flights[f].client < |clients|
      modifies this
      ensures Now() == AfterReady(old(Now()), f, old(flights)[f].client)
    {
      var c := flights[f].client;
      if closed {
        flights := flights[f := Refusing(c)];
        CloseClient(c, ByFlight(f));
      } else {
        flights := flights[f := Landed];
        client := Some(c);
        clients := WithFate(clients, c, Published);
      }
    }

    /** `_close_client` up to where it awaits the transport. */
    method CloseClient(c: nat, closer: Closer)
      requires c < |clients|
      modifies this
      ensures Now() == old(Now()).(unitClients := map[], clients := BeingClosed(old(clients), c, closer))
    {
      unitClients := map[];
      clients := BeingClosed(clients, c, closer);
    }

    method DelayOver(f: nat)
      requires Inv(Now()) && Enabled(Now(), Ready(f))
      modifies this
      ensures Now() == Step(old(Now()), Ready(f)) && Inv(Now())
    {
      Keeps(Now(), Ready(f));
      Publish(f);
    }

    method FlightRefused(f: nat)
      requires Inv(Now()) && Enabled(Now(), Refused(f))
      modifies this
      ensures Now() == Step(old(Now()), Refused(f)) && Inv(Now())
    {
      Keeps(Now(), Refused(f));
      var c := flights[f].client;
      flights := flights[f := Landed];
      clients := WithFate(clients, c, Closed);
    }

    method ConnectDone(f: nat)
      requires Inv(Now()) && Enabled(Now(), Callback(f))
      modifies this
      ensures Now() == Step(old(Now()), Callback(f)) && Inv(Now())
    {
      Keeps(Now(), Callback(f));
      if task == Some(f) {
        task := None;
      }
    }

    /** Schedule a teardown. */
    method SpawnDisconnect()
      modifies this
      ensures Now() == AfterSpawn(old(Now()), false)
    {
      teardowns := teardowns + [Teardown(New, false)];
    }

    method BeginTeardown(d: nat)
      requires d < |teardowns|
      modifies this
      ensures Now() == AfterBegin(old(Now()), d)
    {
      teardowns := WithStage(teardowns, d, if task.Some? then Waiting(task.value) else Acquiring);
    }

    method Close()
      requires Inv(Now())
      modifies this
      ensures Now() == Step(old(Now()), Event.Close) && Inv(Now()) && closed
    {
      Keeps(Now(), Event.Close);
      closed := true;
      var d := |teardowns|;
      teardowns := teardowns + [Teardown(New, true)];
      BeginTeardown(d);
    }

    /** The teardown has the lock, or gave up waiting for it. */
    method TakeClient(d: nat)
      requires Inv(Now()) && Enabled(Now(), Take(d))
      modifies this
      ensures Now() == Step(old(Now()), Take(d)) && Inv(Now()) && client.None?
    {
      Keeps(Now(), Take(d));
      if client.None? {
        teardowns := WithStage(teardowns, d, Over);
      } else {
        var c := client.value;
        client := None;
        teardowns := WithStage(teardowns, d, Tearing(c));
        CloseClient(c, ByTeardown(d));
      }
    }

    method ClientClosed(d: nat)
      requires Inv(Now()) && Enabled(Now(), Shut(d))
      modifies this
      ensures Now() == Step(old(Now()), Shut(d)) && Inv(Now())
    {
      Keeps(Now(), Shut(d));
      var c := teardowns[d].stage.client;
      teardowns := WithStage(teardowns, d, Over);
      clients := WithFate(clients, c, Closed);
    }

    /** The transport's hook; the loss itself is the transport's. */
    method OnConnectionLost(c: nat) returns (told: bool)
      requires Inv(Now()) && Enabled(Now(), Lose(c)) && Assumed(Now(), Lose(c))
      modifies this
      ensures Now() == Step(old(Now()), Lose(c)) && Inv(Now())
      ensures told <==> old(client) == Some(c) && !old(closed)
    {
      hide Inv;
      Keeps(Now(), Lose(c));
      var was := clients[c];
      var lost := was.(loss := if was.loss != Alive then was.loss else if was.fate.InFlight? then LostInFlight else LostLater);
      told := !closed && client.Some?;
      clients := clients[c := if told && client == Some(c) then lost.(fate := Taken) else lost];
      if told {
        client, unitClients := None, map[];
      }
    }

    method RequireTimeout(unit: UnitId, seconds: Option<real>) returns (ok: bool)
      requires Inv(Now())
      modifies this
      ensures Now() == Step(old(Now()), Require(unit, seconds)) && Inv(Now())
      ensures ok <==> seconds.None? || seconds.value >= 0.0
    {
      hide Inv, Resolved;
      Keeps(Now(), Require(unit, seconds));
      ok := seconds.None? || seconds.value >= 0.0;
      if ok {
        asked := Recorded(asked, unit, seconds);
        timeout := Resolve(base, asked, DEFAULT_TIMEOUT);
        if timeout > clientTimeout && (client.Some? || task.Some?) {
          SpawnDisconnect();
        }
      }
    }

    method RequireConnectDelay(unit: UnitId, seconds: Option<real>) returns (ok: bool)
      requires Inv(Now())
      modifies this
      ensures Now() == Step(old(Now()), RequireDelay(unit, seconds)) && Inv(Now())
      ensures ok <==> seconds.None? || seconds.value >= 0.0
    {
      hide Inv, Resolved;
      Keeps(Now(), RequireDelay(unit, seconds));
      ok := seconds.None? || seconds.value >= 0.0;
      if ok {
        askedDelays := Recorded(askedDelays, unit, seconds);
        delay := Resolve(baseDelay, askedDelays, 0.0);
      }
    }

    /** The handle a request uses is always one of the published client. */
    method UnitClient(unit: UnitId) returns (handle: Option<nat>)
      requires Inv(Now())
      modifies this
      ensures Now() == Step(old(Now()), Use(unit)) && Inv(Now())
      ensures handle == client
    {
      Keeps(Now(), Use(unit));
      if client.None? {
        return None;
      }
      if unit !in unitClients {
        unitClients := unitClients[unit := client.value];
      }
      handle := Some(unitClients[unit]);
    }
  }
}
