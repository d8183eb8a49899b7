/**
 The reconnecting subscription client of packages/agent-cli/src/events-client.ts: its socket, its
 timers and stop(), under every order of timer and socket events. Handlers do not check which socket
 they belong to, so events of old sockets reach the client too.
 */
module EventsClient {
  import opened Common

  /** What a pending timer will run. */
  datatype Task = Reconnect(delay: int) | Handshake(socket: nat) | StableReset | Grace(socket: nat)

  datatype Settings = Settings(base: nat, cap: int)

  /**
   The client's fields, and around them what the runtime holds: the pending timers, the number of
   sockets opened so far and the sockets that were told to close or terminate.
   */
  datatype Client = Client(
    socket: Option<nat>,
    reconnectTimer: Option<nat>,
    handshakeTimer: Option<nat>,
    stableTimer: Option<nat>,
    attempt: nat,
    stopping: bool,
    connected: bool,
    timers: map<nat, Task>,
    nextTimer: nat,
    sockets: nat,
    told: set<nat>)

  datatype Occurrence =
    | ConnectCalled
    | StopCalled
    | UnexpectedResponse(socket: nat, status: int)
    | SocketClosed(socket: nat, code: int)
    | HelloFrame(socket: nat)
    | OtherFrame(socket: nat)
    | TimerFired(id: nat)

  /** One thing that happens, and how the environment answers while it is handled. */
  datatype Event = Event(
    what: Occurrence,
    jitter: real,
    callbackStops: bool,   // a callback the handler invokes calls stop()
    live: bool)            // the socket is open or connecting when stop() closes it

  // ---------------------------------------------------------------- delays

  function Power2(n: nat): nat {
    if n == 0 then 1 else 2 * Power2(n - 1)
  }

  function Min(a: int, b: int): int {
    if a < b then a else b
  }

  function Max(a: int, b: int): int {
    if a < b then b else a
  }

  /** Math.round. */
  function Round(x: real): int {
    (x + 0.5).Floor
  }

  function Jittered(window: int, jitter: real): real {
    window as real * jitter
  }

  function Doubled(s: Settings, attempt: nat): int {
    s.base * Power2(attempt)
  }

  function Delay(s: Settings, attempt: nat, jitter: real): int {
    var window := Min(s.cap, Doubled(s, attempt));
    Max(s.base, Round(Jittered(window, jitter)))
  }

  predicate DelayInBounds(s: Settings, delay: int) {
    s.base <= delay <= Max(s.base, s.cap)
  }

  lemma JitterShrinks(window: int, jitter: real)
    requires 0.0 <= jitter <= 1.0
    ensures Round(Jittered(window, jitter)) <= Max(window, 0)
  {
  }

  lemma RoundIsNearest(x: real)
    ensures x - 0.5 < Round(x) as real <= x + 0.5
  {
  }

  /** The delay for a window, apart from how the window grows. */
  lemma NearestOrBase(base: int, wanted: real)
    ensures var delay := Max(base, Round(wanted));
            || (delay == base && wanted < base as real + 0.5)
            || (delay > base && wanted - 0.5 < delay as real <= wanted + 0.5)
  {
    hide Round;
    RoundIsNearest(wanted);
    if Round(wanted) <= base {
      assert Round(wanted) as real <= base as real;
    }
  }

  lemma BoundsAre(s: Settings, delay: int)
    ensures DelayInBounds(s, delay) <==> s.base <= delay <= if s.base < s.cap then s.cap else s.base
  {
  }

  lemma JitteredIs(window: int, jitter: real)
    ensures Jittered(window, jitter) == window as real * jitter
  {
  }

  lemma WindowIsBounded(s: Settings, doubled: int, jitter: real)
    requires 0.0 <= jitter <= 1.0
    ensures DelayInBounds(s, Max(s.base, Round(Jittered(Min(s.cap, doubled), jitter))))
  {
    hide Round, Jittered;
    JitterShrinks(Min(s.cap, doubled), jitter);
  }

  /**
   Every delay lies between the base and the larger of base and cap, and is the base or the whole number
   next to the jittered window, which is the base doubled once per attempt, up to the cap.
   */
  lemma DelayIsBounded(s: Settings, attempt: nat, jitter: real)
    requires 0.0 <= jitter <= 1.0
    ensures DelayInBounds(s, Delay(s, attempt, jitter))
    ensures s.base <= Delay(s, attempt, jitter) <= if s.base < s.cap then s.cap else s.base
    ensures var window := if Doubled(s, attempt) < s.cap then Doubled(s, attempt) else s.cap;
            var wanted, delay := Jittered(window, jitter), Delay(s, attempt, jitter);
            && wanted == window as real * jitter
            && (|| (delay == s.base && wanted < s.base as real + 0.5)
                || (delay > s.base && wanted - 0.5 < delay as real <= wanted + 0.5))
    ensures Doubled(s, 0) == s.base && Doubled(s, attempt + 1) == 2 * Doubled(s, attempt)
  {
    hide Round, DelayInBounds, Jittered, Doubled;
    var window := Min(s.cap, Doubled(s, attempt));
    BoundsAre(s, Delay(s, attempt, jitter));
    JitteredIs(window, jitter);
    WindowIsBounded(s, Doubled(s, attempt), jitter);
    NearestOrBase(s.base, Jittered(window, jitter));
    DoublesPerAttempt(s, attempt);
  }

  lemma DoublesPerAttempt(s: Settings, attempt: nat)
    ensures Doubled(s, 0) == s.base && Doubled(s, attempt + 1) == 2 * Doubled(s, attempt)
    ensures s.base <= Doubled(s, attempt)
  {
    PowerIsPositive(attempt);
    assert s.base * (2 * Power2(attempt)) == 2 * (s.base * Power2(attempt));
    assert s.base * (Power2(attempt) - 1) >= 0;
  }

  // ---------------------------------------------------------------- transitions

  function Initial(): Client {
    Client(None, None, None, None, 0, false, false, map[], 0, 0, {})
  }

  function ClearTimeout(timers: map<nat, Task>, handle: Option<nat>): map<nat, Task> {
    if handle.Some? then timers - {handle.value} else timers
  }

  function Told(c: Client): set<nat> {
    if c.socket.Some? then c.told + {c.socket.value} else c.told
  }

  function AfterOpenSocket(c: Client): Client {
    if c.stopping then c
    else
      c.(socket := Some(c.sockets), sockets := c.sockets + 1,
         handshakeTimer := Some(c.nextTimer),
         timers := c.timers[c.nextTimer := Handshake(c.sockets)], nextTimer := c.nextTimer + 1)
  }

  function AfterClearHandshake(c: Client): Client {
    c.(timers := ClearTimeout(c.timers, c.handshakeTimer), handshakeTimer := None)
  }

  function AfterStop(c: Client, live: bool): Client {
    if c.stopping then c
    else
      var timers := ClearTimeout(ClearTimeout(c.timers, c.reconnectTimer), c.stableTimer);
      var d := AfterClearHandshake(c.(stopping := true, timers := timers)).(socket := None, told := Told(c));
      if c.socket.Some? && live then
        d.(timers := d.timers[d.nextTimer := Grace(c.socket.value)], nextTimer := d.nextTimer + 1)
      else d
  }

  /** The callbacks run before the timer is armed, and one of them may stop the client. */
  function AfterScheduleReconnect(s: Settings, c: Client, e: Event): Client {
    if c.stopping || c.reconnectTimer.Some? then c
    else
      var dropped := AfterClearHandshake(c).(socket := None, told := Told(c), attempt := c.attempt + 1);
      var d := if e.callbackStops then AfterStop(dropped, e.live) else dropped;
      d.(reconnectTimer := Some(d.nextTimer),
         timers := d.timers[d.nextTimer := Reconnect(Delay(s, c.attempt, e.jitter))], nextTimer := d.nextTimer + 1)
  }

  function AfterHello(c: Client): Client {
    c.(attempt := 0, stableTimer := Some(c.nextTimer),
       timers := c.timers[c.nextTimer := StableReset], nextTimer := c.nextTimer + 1)
  }

  function AfterCallback(c: Client, e: Event): Client {
    if e.callbackStops then AfterStop(c, e.live) else c
  }

  function AfterTimer(s: Settings, c: Client, id: nat, e: Event): Client
    requires id in c.timers
  {
    var d := c.(timers := c.timers - {id});
    match c.timers[id]
    case Reconnect(_) => AfterOpenSocket(d.(reconnectTimer := None))
    case Handshake(socket) => AfterScheduleReconnect(s, d.(told := d.told + {socket}), e)
    case StableReset => d.(attempt := 0)
    case Grace(socket) => d.(told := d.told + {socket})
  }

  /** What can happen: connect once, pending timers only, sockets that were opened. */
  predicate Enabled(c: Client, e: Event) {
    && 0.0 <= e.jitter <= 1.0
    && match e.what
       case ConnectCalled => !c.connected
       case StopCalled => true
       case UnexpectedResponse(socket, _) => socket < c.sockets
       case SocketClosed(socket, _) => socket < c.sockets
       case HelloFrame(socket) => socket < c.sockets
       case OtherFrame(socket) => socket < c.sockets
       case TimerFired(id) => id in c.timers
  }

  predicate Unauthorized(status: int) {
    status == 401 || status == 403
  }

  predicate ClosedForGood(code: int) {
    code == 4401 || code == 4403
  }

  function Step(s: Settings, c: Client, e: Event): Client
    requires Enabled(c, e)
  {
    match e.what
    case ConnectCalled => AfterOpenSocket(c.(connected := true))
    case StopCalled => AfterStop(c, e.live)
    case UnexpectedResponse(_, status) =>
      if Unauthorized(status) then AfterStop(c, e.live) else AfterScheduleReconnect(s, c, e)
    case SocketClosed(_, code) =>
      var d := AfterClearHandshake(c);
      if d.stopping then d
      else if ClosedForGood(code) then AfterStop(d, e.live)
      else AfterScheduleReconnect(s, d, e)
    case HelloFrame(_) =>
      var d := AfterClearHandshake(c);
      AfterCallback(AfterHello(d), e)
    case OtherFrame(_) => AfterCallback(c, e)
    case TimerFired(id) => AfterTimer(s, c, id, e)
  }

  // ---------------------------------------------------------------- the client object

  class Subscription {
    const settings: Settings
    var socket: Option<nat>
    var reconnectTimer: Option<nat>
    var handshakeTimer: Option<nat>
    var stableTimer: Option<nat>
    var attempt: nat
    var stopping: bool
    var connected: bool
    // the runtime around the client
    var timers: map<nat, Task>
    var nextTimer: nat
    var sockets: nat
    var told: set<nat>

    ghost function State(): Client
      reads this
    {
      Client(socket, reconnectTimer, handshakeTimer, stableTimer, attempt, stopping, connected,
             timers, nextTimer, sockets, told)
    }

    constructor (settings: Settings)
      ensures this.settings == settings && State() == Initial()
    {
      this.settings := settings;
      socket, reconnectTimer, handshakeTimer, stableTimer := None, None, None, None;
      attempt, stopping, connected := 0, false, false;
      timers, nextTimer, sockets, told := map[], 0, 0, {};
    }

    method SetTimeout(task: Task) returns (id: nat)
      modifies this`timers, this`nextTimer
      ensures id == old(nextTimer) && nextTimer == id + 1 && timers == old(timers)[id := task]
    {
      id := nextTimer;
      timers := timers[id := task];
      nextTimer := nextTimer + 1;
    }

    method ClearHandshakeTimer()
      modifies this`timers, this`handshakeTimer
      ensures State() == AfterClearHandshake(old(State()))
    {
      timers := ClearTimeout(timers, handshakeTimer);
      handshakeTimer := None;
    }

    method OpenSocket()
      modifies this
      ensures State() == AfterOpenSocket(old(State()))
    {
      if stopping { return; }
      var opening := sockets;
      sockets := sockets + 1;
      socket := Some(opening);
      var timer := SetTimeout(Handshake(opening));
      handshakeTimer := Some(timer);
    }

    method Stop(live: bool)
      modifies this
      ensures State() == AfterStop(old(State()), live)
    {
      if stopping { return; }
      stopping := true;
      timers := ClearTimeout(timers, reconnectTimer);
      timers := ClearTimeout(timers, stableTimer);
      ClearHandshakeTimer();
      var closing := socket;
      socket := None;
      if closing.None? { return; }
      told := told + {closing.value};
      if live {
        var _ := SetTimeout(Grace(closing.value));
      }
    }

    method ScheduleReconnect(e: Event)
      modifies this
      ensures State() == AfterScheduleReconnect(settings, old(State()), e)
    {
      if stopping || reconnectTimer.Some? { return; }
      ClearHandshakeTimer();
      if socket.Some? {
        told := told + {socket.value};
      }
      socket := None;
      var delay := Delay(settings, attempt, e.jitter);
      attempt := attempt + 1;
      if e.callbackStops {
        Stop(e.live);
      }
      var timer := SetTimeout(Reconnect(delay));
      reconnectTimer := Some(timer);
    }

    /** Runs whatever happens next. */
    method Handle(e: Event)
      requires Enabled(State(), e)
      modifies this
      ensures State() == Step(settings, old(State()), e)
    {
      match e.what
      case ConnectCalled =>
        connected := true;
        OpenSocket();
      case StopCalled =>
        Stop(e.live);
      case UnexpectedResponse(_, status) =>
        if Unauthorized(status) {
          Stop(e.live);
        } else {
          ScheduleReconnect(e);
        }
      case SocketClosed(_, code) =>
        ClearHandshakeTimer();
        if stopping { return; }
        if ClosedForGood(code) {
          Stop(e.live);
        } else {
          ScheduleReconnect(e);
        }
      case HelloFrame(_) =>
        ClearHandshakeTimer();
        attempt := 0;
        var timer := SetTimeout(StableReset);
        stableTimer := Some(timer);
        if e.callbackStops {
          Stop(e.live);
        }
      case OtherFrame(_) =>
        if e.callbackStops {
          Stop(e.live);
        }
      case TimerFired(id) =>
        RunTimer(id, e);
    }

    method RunTimer(id: nat, e: Event)
      requires id in timers
      modifies this
      ensures State() == AfterTimer(settings, old(State()), id, e)
    {
      var task := timers[id];
      timers := timers - {id};
      match task
      case Reconnect(_) =>
        reconnectTimer := None;
        OpenSocket();
      case Handshake(opening) =>
        told := told + {opening};
        ScheduleReconnect(e);
      case StableReset =>
        attempt := 0;
      case Grace(closing) =>
        told := told + {closing};
    }
  }

  // ---------------------------------------------------------------- the invariant

  /** Timers are known by the handle that can clear them. */
  ghost predicate HandlesMatch(c: Client) {
    && (forall id: nat :: id in c.timers ==> id < c.nextTimer)
    && (forall id: nat :: id in c.timers && c.timers[id].Reconnect? ==> c.reconnectTimer == Some(id))
    && (forall id: nat :: id in c.timers && c.timers[id].Handshake? ==> c.handshakeTimer == Some(id))
    && (forall id: nat :: id in c.timers && c.handshakeTimer == Some(id) ==> c.timers[id].Handshake?)
    && (forall id: nat :: id in c.timers && c.stableTimer == Some(id) ==> c.timers[id].StableReset?)
    && (c.reconnectTimer.Some? ==> c.reconnectTimer.value < c.nextTimer)
    && (c.handshakeTimer.Some? ==> c.handshakeTimer.value < c.nextTimer)
    && (c.stableTimer.Some? ==> c.stableTimer.value < c.nextTimer)
  }

  /** A reconnect is armed only without a socket; a handshake is awaited only on the current one. */
  ghost predicate TimersMatchSocket(s: Settings, c: Client) {
    && (forall id: nat :: id in c.timers && c.timers[id].Reconnect? ==>
          c.socket.None? && DelayInBounds(s, c.timers[id].delay))
    && (forall id: nat :: id in c.timers && c.timers[id].Handshake? ==> c.socket == Some(c.timers[id].socket))
    && (!c.stopping && c.reconnectTimer.Some? ==>
          c.reconnectTimer.value in c.timers && c.timers[c.reconnectTimer.value].Reconnect?)
  }

  /** Every socket but the current one has been told to close. */
  ghost predicate OthersTold(c: Client) {
    && (c.socket.Some? ==> c.socket.value < c.sockets)
    && (forall socket: nat :: socket < c.sockets && c.socket != Some(socket) ==> socket in c.told)
  }

  /** Until it is stopped, a connected client has either a socket or an armed reconnect. */
  predicate KeptAlive(c: Client) {
    && (c.stopping ==> c.socket.None?)
    && (c.connected && !c.stopping ==> (c.socket.Some? <==> c.reconnectTimer.None?))
    && (!c.connected ==> c.sockets == 0 && c.socket.None? && c.reconnectTimer.None?)
  }

  ghost predicate Safe(s: Settings, c: Client) {
    HandlesMatch(c) && TimersMatchSocket(s, c) && OthersTold(c) && KeptAlive(c)
  }

  /** A reconnect timer is pending. */
  ghost predicate Armed(c: Client) {
    exists id: nat :: id in c.timers && c.timers[id].Reconnect?
  }

  lemma InitialIsSafe(s: Settings)
    ensures Safe(s, Initial())
  {
  }

  lemma OpenSocketKeepsSafe(s: Settings, c: Client)
    requires HandlesMatch(c) && TimersMatchSocket(s, c) && OthersTold(c)
    requires c.socket.None? && c.connected
    requires c.stopping || c.reconnectTimer.None?
    ensures Safe(s, AfterOpenSocket(c))
  {
  }

  lemma ClearHandshakeKeepsSafe(s: Settings, c: Client)
    requires Safe(s, c)
    ensures Safe(s, AfterClearHandshake(c))
    ensures forall id: nat :: id in AfterClearHandshake(c).timers ==> !AfterClearHandshake(c).timers[id].Handshake?
  {
  }

  lemma StopKeepsSafe(s: Settings, c: Client, live: bool)
    requires Safe(s, c)
    ensures Safe(s, AfterStop(c, live))
    ensures !c.stopping ==> !Armed(AfterStop(c, live))
  {
  }

  lemma DroppedKeepsParts(s: Settings, c: Client)
    requires Safe(s, c) && c.reconnectTimer.None?
    ensures var d := AfterClearHandshake(c).(socket := None, told := Told(c), attempt := c.attempt + 1);
            && HandlesMatch(d) && TimersMatchSocket(s, d) && OthersTold(d)
            && forall id: nat :: id in d.timers ==> !d.timers[id].Handshake? && !d.timers[id].Reconnect?
  {
  }

  /** Arming: the state before it holds no other reconnect, no handshake and no socket. */
  lemma ArmingKeepsParts(s: Settings, d: Client, delay: int)
    requires HandlesMatch(d) && TimersMatchSocket(s, d) && OthersTold(d) && d.socket.None?
    requires forall id: nat :: id in d.timers ==> !d.timers[id].Reconnect?
    requires DelayInBounds(s, delay)
    ensures var armed := d.(reconnectTimer := Some(d.nextTimer),
                            timers := d.timers[d.nextTimer := Reconnect(delay)], nextTimer := d.nextTimer + 1);
            && HandlesMatch(armed) && TimersMatchSocket(s, armed) && OthersTold(armed) && Armed(armed)
  {
  }

  lemma StopKeepsParts(s: Settings, c: Client, live: bool)
    requires HandlesMatch(c) && TimersMatchSocket(s, c) && OthersTold(c) && c.socket.None? && !c.stopping
    requires forall id: nat :: id in c.timers ==> !c.timers[id].Reconnect?
    ensures var d := AfterStop(c, live);
            && HandlesMatch(d) && TimersMatchSocket(s, d) && OthersTold(d) && d.socket.None? && d.stopping
            && forall id: nat :: id in d.timers ==> !d.timers[id].Reconnect?
  {
  }

  lemma ScheduleReconnectKeepsSafe(s: Settings, c: Client, e: Event)
    requires Safe(s, c) && c.connected && 0.0 <= e.jitter <= 1.0
    ensures Safe(s, AfterScheduleReconnect(s, c, e))
    ensures !c.stopping && c.reconnectTimer.None? ==>
              Armed(AfterScheduleReconnect(s, c, e)) && (AfterScheduleReconnect(s, c, e).stopping <==> e.callbackStops)
  {
    if !c.stopping && c.reconnectTimer.None? {
      var dropped := AfterClearHandshake(c).(socket := None, told := Told(c), attempt := c.attempt + 1);
      var delay := Delay(s, c.attempt, e.jitter);
      DroppedKeepsParts(s, c);
      DelayIsBounded(s, c.attempt, e.jitter);
      if e.callbackStops {
        StopKeepsParts(s, dropped, e.live);
        ArmingKeepsParts(s, AfterStop(dropped, e.live), delay);
      } else {
        ArmingKeepsParts(s, dropped, delay);
      }
    }
  }

  /** A fired timer is no longer pending. */
  lemma FiringKeepsParts(s: Settings, c: Client, id: nat)
    requires Safe(s, c) && id in c.timers && !c.timers[id].Reconnect?
    ensures Safe(s, c.(timers := c.timers - {id}))
  {
  }

  lemma ReconnectFiringKeepsSafe(s: Settings, c: Client, id: nat)
    requires Safe(s, c) && c.connected && id in c.timers && c.timers[id].Reconnect?
    ensures Safe(s, AfterOpenSocket(c.(timers := c.timers - {id}, reconnectTimer := None)))
  {
  }

  lemma TellingKeepsSafe(s: Settings, c: Client, socket: nat)
    requires Safe(s, c)
    ensures Safe(s, c.(told := c.told + {socket}))
  {
  }

  lemma HelloKeepsSafe(s: Settings, c: Client)
    requires Safe(s, c)
    ensures Safe(s, AfterHello(c))
  {
  }

  lemma TimerKeepsSafe(s: Settings, c: Client, id: nat, e: Event)
    requires Safe(s, c) && id in c.timers && 0.0 <= e.jitter <= 1.0
    ensures Safe(s, AfterTimer(s, c, id, e))
  {
    assert c.timers[id].Reconnect? || c.timers[id].Handshake? ==> c.connected;
    var d := c.(timers := c.timers - {id});
    match c.timers[id]
    case Reconnect(_) => ReconnectFiringKeepsSafe(s, c, id);
    case Handshake(socket) =>
      FiringKeepsParts(s, c, id);
      TellingKeepsSafe(s, d, socket);
      ScheduleReconnectKeepsSafe(s, d.(told := d.told + {socket}), e);
    case StableReset =>
      FiringKeepsParts(s, c, id);
      AttemptKeepsSafe(s, d);
    case Grace(socket) =>
      FiringKeepsParts(s, c, id);
      TellingKeepsSafe(s, d, socket);
  }

  lemma AttemptKeepsSafe(s: Settings, c: Client)
    requires Safe(s, c)
    ensures Safe(s, c.(attempt := 0))
  {
  }

  lemma StepKeepsSafe(s: Settings, c: Client, e: Event)
    requires Safe(s, c) && Enabled(c, e)
    ensures Safe(s, Step(s, c, e))
  {
    hide AfterOpenSocket, AfterStop, AfterScheduleReconnect, AfterTimer;
    match e.what
    case ConnectCalled =>
      ConnectingKeepsParts(s, c);
      OpenSocketKeepsSafe(s, c.(connected := true));
    case StopCalled => StopKeepsSafe(s, c, e.live);
    case UnexpectedResponse(_, status) =>
      StopKeepsSafe(s, c, e.live);
      ScheduleReconnectKeepsSafe(s, c, e);
    case SocketClosed(_, code) =>
      ClearHandshakeKeepsSafe(s, c);
      StopKeepsSafe(s, AfterClearHandshake(c), e.live);
      ScheduleReconnectKeepsSafe(s, AfterClearHandshake(c), e);
    case HelloFrame(_) => HelloStepKeepsSafe(s, c, e);
    case OtherFrame(_) => StopKeepsSafe(s, c, e.live);
    case TimerFired(id) => TimerKeepsSafe(s, c, id, e);
  }

  lemma HelloStepKeepsSafe(s: Settings, c: Client, e: Event)
    requires Safe(s, c) && Enabled(c, e) && e.what.HelloFrame?
    ensures Safe(s, Step(s, c, e))
  {
    hide AfterStop;
    var d := AfterClearHandshake(c);
    ClearHandshakeKeepsSafe(s, c);
    HelloKeepsSafe(s, d);
    StopKeepsSafe(s, AfterHello(d), e.live);
  }

  lemma ConnectingKeepsParts(s: Settings, c: Client)
    requires Safe(s, c) && !c.connected
    ensures var d := c.(connected := true);
            HandlesMatch(d) && TimersMatchSocket(s, d) && OthersTold(d) && d.socket.None? && d.reconnectTimer.None?
  {
  }

  // ---------------------------------------------------------------- every run

  /** A run: the clients between the events, from a new client on. */
  ghost predicate Run(s: Settings, clients: seq<Client>, events: seq<Event>) {
    && |clients| == |events| + 1 && clients[0] == Initial()
    && forall i :: 0 <= i < |events| ==>
         Enabled(clients[i], events[i]) && clients[i + 1] == Step(s, clients[i], events[i])
  }

  lemma {:induction false} RunIsSafe(s: Settings, clients: seq<Client>, events: seq<Event>, i: nat)
    requires Run(s, clients, events) && i <= |events|
    ensures Safe(s, clients[i])
  {
    if i == 0 {
      InitialIsSafe(s);
    } else {
      RunIsSafe(s, clients, events, i - 1);
      StepKeepsSafe(s, clients[i - 1], events[i - 1]);
    }
  }

  /** Two pending reconnects. */
  ghost predicate TwoReconnects(c: Client) {
    exists a: nat, b: nat ::
      a != b && a in c.timers && b in c.timers && c.timers[a].Reconnect? && c.timers[b].Reconnect?
  }

  /**
   At every point of every run: at most one reconnect is pending, never beside a current socket and
   with a delay in bounds; every other socket was told to close; and a client that was connected and
   not stopped has a socket or an armed reconnect, so it is never stranded.
   */
  lemma ReconnectSafety(s: Settings, clients: seq<Client>, events: seq<Event>, i: nat)
    requires Run(s, clients, events) && i <= |events|
    ensures var c := clients[i];
            && !TwoReconnects(c)
            && (Armed(c) ==> c.socket.None?)
            && (forall id: nat :: id in c.timers && c.timers[id].Reconnect? ==> DelayInBounds(s, c.timers[id].delay))
            && (forall socket: nat :: socket < c.sockets && c.socket != Some(socket) ==> socket in c.told)
            && (c.connected && !c.stopping ==> (Armed(c) <==> c.socket.None?))
  {
    RunIsSafe(s, clients, events, i);
    var c := clients[i];
    if c.connected && !c.stopping && c.socket.None? {
      assert c.timers[c.reconnectTimer.value].Reconnect?;
    }
  }

  lemma StoppedStays(s: Settings, c: Client, e: Event)
    requires Enabled(c, e) && c.stopping && c.socket.None?
    ensures var d := Step(s, c, e); d.stopping && d.socket.None? && d.sockets == c.sockets && c.told <= d.told
  {
  }

  /** After stop no socket is opened, and every socket there ever was has been told to close. */
  lemma {:induction false} NothingOpensAfterStop(s: Settings, clients: seq<Client>, events: seq<Event>, i: nat, j: nat)
    requires Run(s, clients, events) && i <= j <= |events| && clients[i].stopping
    ensures clients[j].stopping && clients[j].socket.None? && clients[j].sockets == clients[i].sockets
    ensures forall socket: nat :: socket < clients[j].sockets ==> socket in clients[j].told
    decreases j
  {
    hide Step, Enabled, HandlesMatch, TimersMatchSocket;
    RunIsSafe(s, clients, events, j);
    if i < j {
      NothingOpensAfterStop(s, clients, events, i, j - 1);
      StoppedStays(s, clients[j - 1], events[j - 1]);
    }
  }

  // ---------------------------------------------------------------- stop() from a reconnect callback

  /** The handler of this event schedules a reconnect, and the client stops inside its callbacks. */
  predicate StopsWhileScheduling(c: Client, e: Event) {
    && !c.stopping && c.reconnectTimer.None? && e.callbackStops
    && match e.what
       case UnexpectedResponse(_, status) => !Unauthorized(status)
       case SocketClosed(_, code) => !ClosedForGood(code)
       case TimerFired(id) => id in c.timers && c.timers[id].Handshake?
       case _ => false
  }

  /** A stopped client with a reconnect still pending. */
  ghost predicate StoppedButArmed(c: Client) {
    c.stopping && Armed(c)
  }

  lemma ClearingKeepsArmed(s: Settings, c: Client)
    requires Safe(s, c)
    ensures Armed(AfterClearHandshake(c)) <==> Armed(c)
  {
    var d := AfterClearHandshake(c);
    assert forall id: nat :: id in c.timers && c.timers[id].Reconnect? ==> id in d.timers && d.timers[id].Reconnect?;
  }

  lemma SchedulingStrands(s: Settings, c: Client, e: Event)
    requires Safe(s, c) && c.connected && 0.0 <= e.jitter <= 1.0 && !StoppedButArmed(c)
    ensures StoppedButArmed(AfterScheduleReconnect(s, c, e)) <==>
              !c.stopping && c.reconnectTimer.None? && e.callbackStops
  {
    ScheduleReconnectKeepsSafe(s, c, e);
  }

  lemma StoppingNeverStrands(s: Settings, c: Client, live: bool)
    requires Safe(s, c) && !StoppedButArmed(c)
    ensures !StoppedButArmed(AfterStop(c, live))
  {
  }

  lemma TimerStrands(s: Settings, c: Client, id: nat, e: Event)
    requires Safe(s, c) && id in c.timers && 0.0 <= e.jitter <= 1.0 && !StoppedButArmed(c)
    ensures StoppedButArmed(AfterTimer(s, c, id, e)) <==>
              !c.stopping && c.reconnectTimer.None? && e.callbackStops && c.timers[id].Handshake?
  {
    var d := c.(timers := c.timers - {id});
    match c.timers[id]
    case Handshake(socket) =>
      FiringKeepsParts(s, c, id);
      TellingKeepsSafe(s, d, socket);
      assert c.connected && !Armed(d.(told := d.told + {socket}));
      SchedulingStrands(s, d.(told := d.told + {socket}), e);
    case Reconnect(_) => assert Armed(c);
    case _ =>
  }

  /** One step strands a reconnect behind a stop exactly when it stops the client while scheduling. */
  lemma StepStrandsIff(s: Settings, c: Client, e: Event)
    requires Safe(s, c) && Enabled(c, e) && !StoppedButArmed(c)
    ensures StoppedButArmed(Step(s, c, e)) <==> StopsWhileScheduling(c, e)
  {
    hide AfterStop, AfterScheduleReconnect, AfterTimer;
    match e.what
    case ConnectCalled => assert c.stopping ==> AfterOpenSocket(c.(connected := true)).timers == c.timers;
    case StopCalled => StoppingNeverStrands(s, c, e.live);
    case UnexpectedResponse(_, status) =>
      StoppingNeverStrands(s, c, e.live);
      SchedulingStrands(s, c, e);
    case SocketClosed(_, code) =>
      ClearHandshakeKeepsSafe(s, c);
      ClearingKeepsArmed(s, c);
      StoppingNeverStrands(s, AfterClearHandshake(c), e.live);
      SchedulingStrands(s, AfterClearHandshake(c), e);
    case HelloFrame(_) => HelloNeverStrands(s, c, e);
    case OtherFrame(_) => StoppingNeverStrands(s, c, e.live);
    case TimerFired(id) => TimerStrands(s, c, id, e);
  }

  lemma HelloNeverStrands(s: Settings, c: Client, e: Event)
    requires Safe(s, c) && Enabled(c, e) && e.what.HelloFrame? && !StoppedButArmed(c)
    ensures !StoppedButArmed(Step(s, c, e))
  {
    hide AfterStop;
    var d := AfterClearHandshake(c);
    var h := AfterHello(d);
    ClearHandshakeKeepsSafe(s, c);
    ClearingKeepsArmed(s, c);
    HelloKeepsSafe(s, d);
    if Armed(h) {
      var id: nat :| id in h.timers && h.timers[id].Reconnect?;
      assert id in d.timers && d.timers[id].Reconnect?;
    }
    StoppingNeverStrands(s, h, e.live);
  }

  /** Some client of the run, up to the n-th, is stopped with a reconnect pending. */
  ghost predicate StrandedBy(clients: seq<Client>, n: nat) {
    n < |clients| && exists i :: 0 <= i <= n && StoppedButArmed(clients[i])
  }

  /** One of the first n events stops the client while it schedules. */
  predicate StopsBy(clients: seq<Client>, events: seq<Event>, n: nat) {
    n <= |events| <= |clients| && exists i :: 0 <= i < n && StopsWhileScheduling(clients[i], events[i])
  }

  lemma StrandedNext(clients: seq<Client>, n: nat)
    requires 0 < n < |clients|
    ensures StrandedBy(clients, n) <==> StrandedBy(clients, n - 1) || StoppedButArmed(clients[n])
  {
    hide StoppedButArmed;
  }

  lemma StopsNext(clients: seq<Client>, events: seq<Event>, n: nat)
    requires 0 < n <= |events| <= |clients|
    ensures StopsBy(clients, events, n) <==>
              StopsBy(clients, events, n - 1) || StopsWhileScheduling(clients[n - 1], events[n - 1])
  {
    hide StopsWhileScheduling;
  }

  lemma NothingStrandedYet(clients: seq<Client>, events: seq<Event>)
    requires |events| < |clients| && clients[0] == Initial()
    ensures !StrandedBy(clients, 0) && !StopsBy(clients, events, 0)
  {
  }

  lemma StrandedNeverStops(c: Client, e: Event)
    requires StoppedButArmed(c)
    ensures !StopsWhileScheduling(c, e)
  {
  }

  /**
   No reconnect is armed after stop, in any run in which no callback stops the client while a
   reconnect is being scheduled; a run in which one does leaves a stopped client with an armed timer.
   */
  lemma {:induction false} ArmedAfterStopIff(s: Settings, clients: seq<Client>, events: seq<Event>, n: nat)
    requires Run(s, clients, events) && n <= |events|
    ensures StrandedBy(clients, n) <==> StopsBy(clients, events, n)
  {
    hide StrandedBy, StopsBy, StoppedButArmed, StopsWhileScheduling, Safe, Step, Enabled;
    if n == 0 {
      NothingStrandedYet(clients, events);
    } else {
      ArmedAfterStopIff(s, clients, events, n - 1);
      StrandedNext(clients, n);
      StopsNext(clients, events, n);
      RunIsSafe(s, clients, events, n - 1);
      StrandsOnce(s, clients, events, n);
    }
  }

  /** A client that is not stranded yet becomes so exactly in such a step; a stranded one takes no such step. */
  lemma StrandsOnce(s: Settings, clients: seq<Client>, events: seq<Event>, n: nat)
    requires Run(s, clients, events) && 0 < n <= |events| && Safe(s, clients[n - 1])
    ensures var c, e := clients[n - 1], events[n - 1];
            if StoppedButArmed(c) then !StopsWhileScheduling(c, e) && StrandedBy(clients, n - 1)
            else StoppedButArmed(clients[n]) <==> StopsWhileScheduling(c, e)
  {
    hide StoppedButArmed, StopsWhileScheduling, Safe, Step, Enabled;
    if StoppedButArmed(clients[n - 1]) {
      StrandedNeverStops(clients[n - 1], events[n - 1]);
    } else {
      StepStrandsIff(s, clients[n - 1], events[n - 1]);
    }
  }

  /** Such a run exists: the first socket closes, and a diagnostic callback stops the client. */
  lemma StoppedButArmedExample(s: Settings) returns (clients: seq<Client>, events: seq<Event>)
    ensures Run(s, clients, events) && |events| == 2
    ensures StopsWhileScheduling(clients[1], events[1]) && StoppedButArmed(clients[2])
  {
    var connect := Event(ConnectCalled, 0.0, false, false);
    var close := Event(SocketClosed(0, 1006), 0.0, true, false);
    var connected := Step(s, Initial(), connect);
    var stopped := Step(s, connected, close);
    clients, events := [Initial(), connected, stopped], [connect, close];
    assert stopped.reconnectTimer.value in stopped.timers;
    assert stopped.timers[stopped.reconnectTimer.value].Reconnect?;
  }

  // ---------------------------------------------------------------- backoff

  /** A reconnect is armed that was not pending before, with this delay. */
  ghost predicate ArmsWith(before: Client, after: Client, delay: int) {
    exists id: nat :: id in after.timers && id !in before.timers && after.timers[id] == Reconnect(delay)
  }

  ghost predicate Arms(before: Client, after: Client) {
    exists id: nat :: id in after.timers && id !in before.timers && after.timers[id].Reconnect?
  }

  /** A hello frame, or a connection that has been stable for long enough. */
  predicate Resets(c: Client, e: Event) {
    || e.what.HelloFrame?
    || (e.what.TimerFired? && e.what.id in c.timers && c.timers[e.what.id].StableReset?)
  }

  /** The reconnects armed in the first n steps, since the last reset. */
  ghost function ArmedSince(clients: seq<Client>, events: seq<Event>, n: nat): nat
    requires n <= |events| < |clients|
  {
    if n == 0 || Resets(clients[n - 1], events[n - 1]) then 0
    else ArmedSince(clients, events, n - 1) + if Arms(clients[n - 1], clients[n]) then 1 else 0
  }

  /** What one scheduling does to the timers and the count. */
  lemma SchedulingArms(s: Settings, c: Client, e: Event)
    requires HandlesMatch(c)
    ensures var d := AfterScheduleReconnect(s, c, e);
            if c.stopping || c.reconnectTimer.Some? then d == c
            else
              && ArmsWith(c, d, Delay(s, c.attempt, e.jitter)) && d.attempt == c.attempt + 1
              && forall id: nat :: id in d.timers && d.timers[id].Reconnect? && id !in c.timers ==>
                   d.timers[id] == Reconnect(Delay(s, c.attempt, e.jitter))
  {
    hide Delay;
    if !c.stopping && c.reconnectTimer.None? {
      var d := AfterScheduleReconnect(s, c, e);
      assert d.reconnectTimer.value in d.timers && c.nextTimer <= d.reconnectTimer.value;
      assert d.timers[d.reconnectTimer.value] == Reconnect(Delay(s, c.attempt, e.jitter));
    }
  }

  lemma StoppingArmsNothing(c: Client, live: bool)
    ensures AfterStop(c, live).attempt == c.attempt && !Arms(c, AfterStop(c, live))
  {
  }

  lemma NotArmed(before: Client, after: Client)
    requires forall id: nat :: id in after.timers && after.timers[id].Reconnect? ==> id in before.timers
    ensures !Arms(before, after) && forall delay :: !ArmsWith(before, after, delay)
  {
  }

  /** The step arms nothing, or exactly the delay of the current attempt, which it then counts. */
  ghost predicate CountsArming(s: Settings, c: Client, e: Event, d: Client) {
    if Arms(c, d) then
      && d.attempt == c.attempt + 1
      && forall delay :: ArmsWith(c, d, delay) ==> delay == Delay(s, c.attempt, e.jitter)
    else d.attempt == c.attempt && forall delay :: !ArmsWith(c, d, delay)
  }

  lemma ArmsIfWith(before: Client, after: Client)
    ensures forall delay :: ArmsWith(before, after, delay) ==> Arms(before, after)
  {
    forall delay | ArmsWith(before, after, delay)
      ensures Arms(before, after)
    {
      var id: nat :| id in after.timers && id !in before.timers && after.timers[id] == Reconnect(delay);
      assert after.timers[id].Reconnect?;
    }
  }

  /** Scheduling from a client that differs from c in neither its reconnects nor its attempt. */
  lemma SchedulingCounts(s: Settings, c: Client, b: Client, e: Event)
    requires HandlesMatch(b) && b.attempt == c.attempt
    requires forall id: nat :: id in b.timers ==> id in c.timers
    requires forall id: nat :: id in c.timers ==> id < b.nextTimer
    ensures CountsArming(s, c, e, AfterScheduleReconnect(s, b, e))
    ensures !b.stopping && b.reconnectTimer.None? <==> Arms(c, AfterScheduleReconnect(s, b, e))
  {
    hide Delay, AfterStop;
    var d := AfterScheduleReconnect(s, b, e);
    ArmsIfWith(c, d);
    if b.stopping || b.reconnectTimer.Some? {
      NotArmed(c, d);
    } else {
      SchedulingNew(s, b, e);
      assert d.reconnectTimer.value in d.timers && d.reconnectTimer.value !in c.timers;
      assert d.timers[d.reconnectTimer.value].Reconnect?;
      forall id: nat | id in d.timers && d.timers[id].Reconnect? && id !in c.timers
        ensures d.timers[id] == Reconnect(Delay(s, c.attempt, e.jitter))
      {
        assert id !in b.timers;
      }
    }
  }

  lemma SchedulingNew(s: Settings, c: Client, e: Event)
    requires HandlesMatch(c) && !c.stopping && c.reconnectTimer.None?
    ensures var d := AfterScheduleReconnect(s, c, e);
            && d.attempt == c.attempt + 1 && d.reconnectTimer.Some? && d.reconnectTimer.value >= c.nextTimer
            && d.reconnectTimer.value in d.timers
            && forall id: nat :: id in d.timers && d.timers[id].Reconnect? && id !in c.timers ==>
                 d.timers[id] == Reconnect(Delay(s, c.attempt, e.jitter))
    ensures var d := AfterScheduleReconnect(s, c, e); d.timers[d.reconnectTimer.value].Reconnect?
  {
    hide Delay;
  }

  lemma TimerCounts(s: Settings, c: Client, id: nat, e: Event)
    requires Safe(s, c) && id in c.timers && !c.timers[id].StableReset?
    ensures CountsArming(s, c, e, AfterTimer(s, c, id, e))
  {
    hide Delay, AfterScheduleReconnect;
    var d := c.(timers := c.timers - {id});
    match c.timers[id]
    case Handshake(socket) => SchedulingCounts(s, c, d.(told := d.told + {socket}), e);
    case Reconnect(_) => NotArmed(c, AfterTimer(s, c, id, e));
    case Grace(_) => NotArmed(c, AfterTimer(s, c, id, e));
  }

  lemma StepCounts(s: Settings, c: Client, e: Event)
    requires Safe(s, c) && Enabled(c, e)
    ensures if Resets(c, e) then Step(s, c, e).attempt == 0 && !Arms(c, Step(s, c, e))
            else CountsArming(s, c, e, Step(s, c, e))
  {
    hide Delay, AfterScheduleReconnect, AfterTimer, AfterStop, CountsArming;
    match e.what
    case UnexpectedResponse(_, status) =>
      StopCounts(s, c, c, e);
      SchedulingCounts(s, c, c, e);
    case SocketClosed(_, code) =>
      StopCounts(s, c, AfterClearHandshake(c), e);
      SchedulingCounts(s, c, AfterClearHandshake(c), e);
    case TimerFired(id) =>
      if c.timers[id].StableReset? {
        StableResets(s, c, id, e);
      } else {
        TimerCounts(s, c, id, e);
      }
    case HelloFrame(_) => HelloResets(s, c, e);
    case ConnectCalled => ConnectCounts(s, c, e);
    case _ => StopCounts(s, c, c, e);
  }

  lemma StopCounts(s: Settings, c: Client, b: Client, e: Event)
    requires b.attempt == c.attempt && forall id: nat :: id in b.timers ==> id in c.timers
    ensures CountsArming(s, c, e, b) && CountsArming(s, c, e, AfterStop(b, e.live))
  {
    NotArmed(c, b);
    NotArmed(c, AfterStop(b, e.live));
  }

  lemma StableResets(s: Settings, c: Client, id: nat, e: Event)
    requires id in c.timers && c.timers[id].StableReset?
    ensures AfterTimer(s, c, id, e).attempt == 0 && !Arms(c, AfterTimer(s, c, id, e))
  {
  }

  lemma HelloResets(s: Settings, c: Client, e: Event)
    requires Enabled(c, e) && e.what.HelloFrame?
    ensures Step(s, c, e).attempt == 0 && !Arms(c, Step(s, c, e))
  {
    NotArmed(c, Step(s, c, e));
  }

  lemma ConnectCounts(s: Settings, c: Client, e: Event)
    requires Enabled(c, e) && e.what.ConnectCalled?
    ensures CountsArming(s, c, e, Step(s, c, e))
  {
    NotArmed(c, Step(s, c, e));
  }

  /** The attempt count is the number of reconnects armed since the last reset. */
  lemma {:induction false} AttemptCountsArmings(s: Settings, clients: seq<Client>, events: seq<Event>, n: nat)
    requires Run(s, clients, events) && n <= |events|
    ensures clients[n].attempt == ArmedSince(clients, events, n)
  {
    hide Step, Enabled, Safe, Arms, Resets;
    if n > 0 {
      AttemptCountsArmings(s, clients, events, n - 1);
      RunIsSafe(s, clients, events, n - 1);
      StepCounts(s, clients[n - 1], events[n - 1]);
    }
  }

  /** Between two points without resets or armings the count stays. */
  lemma {:induction false} QuietKeepsCount(clients: seq<Client>, events: seq<Event>, i: nat, j: nat)
    requires i <= j <= |events| < |clients|
    requires forall k :: i <= k < j ==> !Resets(clients[k], events[k]) && !Arms(clients[k], clients[k + 1])
    ensures ArmedSince(clients, events, j) == ArmedSince(clients, events, i)
    decreases j
  {
    hide Arms, Resets;
    if i < j {
      QuietKeepsCount(clients, events, i, j - 1);
    }
  }

  lemma FullWindow(s: Settings, attempt: nat)
    requires 0 < s.base <= s.cap
    ensures Delay(s, 0, 1.0) == s.base
    ensures Delay(s, attempt + 1, 1.0)
         == if 2 * Delay(s, attempt, 1.0) < s.cap then 2 * Delay(s, attempt, 1.0) else s.cap
  {
    hide Round, Jittered, Doubled;
    DoublesPerAttempt(s, attempt);
    WholeRounds(Min(s.cap, Doubled(s, attempt)));
    WholeRounds(Min(s.cap, Doubled(s, attempt + 1)));
    WholeRounds(Min(s.cap, Doubled(s, 0)));
  }

  lemma {:induction false} PowerIsPositive(n: nat)
    ensures Power2(n) >= 1
  {
    if n > 0 {
      PowerIsPositive(n - 1);
    }
  }

  lemma WholeRounds(x: int)
    ensures Round(Jittered(x, 1.0)) == x
  {
  }

  lemma ArmedDelay(s: Settings, clients: seq<Client>, events: seq<Event>, i: nat, delay: int)
    requires Run(s, clients, events) && i < |events| && ArmsWith(clients[i], clients[i + 1], delay)
    ensures delay == Delay(s, ArmedSince(clients, events, i), events[i].jitter)
    ensures Arms(clients[i], clients[i + 1]) && !Resets(clients[i], events[i])
  {
    hide Step, Enabled, Safe, ArmsWith, Arms, Resets, Delay;
    AttemptCountsArmings(s, clients, events, i);
    RunIsSafe(s, clients, events, i);
    StepCounts(s, clients[i], events[i]);
    ArmsIfWith(clients[i], clients[i + 1]);
  }

  /** The first reconnect after the start or a reset waits the base delay, at full jitter. */
  lemma FirstDelayIsBase(s: Settings, clients: seq<Client>, events: seq<Event>, n: nat, i: nat, delay: int)
    requires Run(s, clients, events) && n <= i < |events| && 0 < s.base <= s.cap
    requires n == 0 || Resets(clients[n - 1], events[n - 1])
    requires forall k :: n <= k < i ==> !Resets(clients[k], events[k]) && !Arms(clients[k], clients[k + 1])
    requires ArmsWith(clients[i], clients[i + 1], delay) && events[i].jitter == 1.0
    ensures delay == s.base
  {
    hide Step, Enabled, Arms, ArmsWith, Resets, Delay;
    ArmedDelay(s, clients, events, i, delay);
    QuietKeepsCount(clients, events, n, i);
    FullWindow(s, 0);
  }

  /** At full jitter, each further reconnect waits twice as long as the one before, up to the cap. */
  lemma BackoffDoubles(s: Settings, clients: seq<Client>, events: seq<Event>, i: nat, j: nat, first: int, second: int)
    requires Run(s, clients, events) && i < j < |events| && 0 < s.base <= s.cap
    requires forall k :: i < k < j ==> !Resets(clients[k], events[k]) && !Arms(clients[k], clients[k + 1])
    requires ArmsWith(clients[i], clients[i + 1], first) && events[i].jitter == 1.0
    requires ArmsWith(clients[j], clients[j + 1], second) && events[j].jitter == 1.0
    ensures second == if 2 * first < s.cap then 2 * first else s.cap
  {
    hide Step, Enabled, Arms, ArmsWith, Resets, Delay;
    ArmedDelay(s, clients, events, i, first);
    ArmedDelay(s, clients, events, j, second);
    QuietKeepsCount(clients, events, i + 1, j);
    assert ArmedSince(clients, events, i + 1) == ArmedSince(clients, events, i) + 1;
    FullWindow(s, ArmedSince(clients, events, i));
  }

  // ---------------------------------------------------------------- what stops, opens and reconnects

  /** A client stops exactly when it is told to, is refused for good, or a callback stops it. */
  lemma StopsExactly(s: Settings, c: Client, e: Event)
    requires Safe(s, c) && Enabled(c, e) && !c.stopping
    ensures Step(s, c, e).stopping
       <==> (|| e.what.StopCalled?
             || (e.what.UnexpectedResponse? && e.what.status in {401, 403})
             || (e.what.SocketClosed? && e.what.code in {4401, 4403})
             || (e.callbackStops && (e.what.HelloFrame? || e.what.OtherFrame? || Arms(c, Step(s, c, e)))))
  {
    hide Delay, Arms;
    match e.what
    case UnexpectedResponse(_, _) => SchedulingCounts(s, c, c, e);
    case SocketClosed(_, _) => SchedulingCounts(s, c, AfterClearHandshake(c), e);
    case TimerFired(id) =>
      var d := c.(timers := c.timers - {id});
      if c.timers[id].Handshake? {
        SchedulingCounts(s, c, d.(told := d.told + {c.timers[id].socket}), e);
      } else {
        NotArmed(c, Step(s, c, e));
      }
    case ConnectCalled => NotArmed(c, Step(s, c, e));
    case _ =>
  }

  /** A running client whose connection fails arms a reconnect at once, unless one is pending. */
  lemma FailureArms(s: Settings, c: Client, e: Event)
    requires Safe(s, c) && Enabled(c, e) && !c.stopping && c.reconnectTimer.None?
    requires || (e.what.UnexpectedResponse? && e.what.status !in {401, 403})
             || (e.what.SocketClosed? && e.what.code !in {4401, 4403})
             || (e.what.TimerFired? && c.timers[e.what.id].Handshake?)
    ensures Arms(c, Step(s, c, e)) && Step(s, c, e).socket.None?
  {
    hide Delay, Arms;
    match e.what
    case UnexpectedResponse(_, _) => SchedulingCounts(s, c, c, e);
    case SocketClosed(_, _) => SchedulingCounts(s, c, AfterClearHandshake(c), e);
    case TimerFired(id) =>
      var d := c.(timers := c.timers - {id});
      SchedulingCounts(s, c, d.(told := d.told + {c.timers[id].socket}), e);
    case _ =>
  }

  /** connect() and a fired reconnect open one new socket and await its handshake. */
  lemma OpensSocket(s: Settings, c: Client, e: Event)
    requires Safe(s, c) && Enabled(c, e) && !c.stopping
    requires e.what.ConnectCalled? || (e.what.TimerFired? && c.timers[e.what.id].Reconnect?)
    ensures var d := Step(s, c, e);
            && d.socket == Some(c.sockets) && d.sockets == c.sockets + 1
            && exists id: nat :: id in d.timers && d.timers[id] == Handshake(c.sockets)
  {
    var d := Step(s, c, e);
    assert d.handshakeTimer.value in d.timers && d.timers[d.handshakeTimer.value] == Handshake(c.sockets);
  }

  /** stop() cancels every timer it knows, and gives an open socket its grace period. */
  lemma StopCancels(s: Settings, c: Client, live: bool)
    requires Safe(s, c) && !c.stopping
    ensures var d := AfterStop(c, live);
            && d.stopping && d.socket.None?
            && (forall id: nat :: id in c.timers && Some(id) in {c.reconnectTimer, c.stableTimer, c.handshakeTimer} ==>
                  id !in d.timers)
            && (c.socket.Some? ==> c.socket.value in d.told)
            && (c.socket.Some? && live ==>
                  exists id: nat :: id in d.timers && id !in c.timers && d.timers[id] == Grace(c.socket.value))
  {
    var d := AfterStop(c, live);
    if c.socket.Some? && live {
      assert c.nextTimer in d.timers && c.nextTimer !in c.timers;
    }
  }

  /** A close, a hello frame or the handshake timer itself ends the wait for a handshake. */
  lemma HandshakeEnds(s: Settings, c: Client, e: Event)
    requires Safe(s, c) && Enabled(c, e)
    requires e.what.SocketClosed? || e.what.HelloFrame? || (e.what.TimerFired? && c.timers[e.what.id].Handshake?)
    ensures forall id: nat :: id in Step(s, c, e).timers ==> !Step(s, c, e).timers[id].Handshake?
  {
    hide Delay;
  }
}
