/** The dashboard's reconnecting socket (client/ws.js, `TelemetrySocket`) together with what the browser
    does to it: sockets change state on their own, and close events and timers come late.

    `sockets` and `timers` list everything ever created; a handler knows its socket by its index. */
module Reconnect {
  import opened Basics
  import opened Backoff

  datatype ReadyState = CONNECTING | OPEN | CLOSING | CLOSED

  datatype Sock = Sock(state: ReadyState, closeDelivered: bool) {
    predicate Live() { state == CONNECTING || state == OPEN }
  }

  datatype Timer = Timer(waitMs: real, armed: bool)

  datatype Client = Client(
    base: real, cap: real,
    ws: Option<nat>, manualClose: bool, attempt: nat, timer: Option<nat>,
    sockets: seq<Sock>, timers: seq<Timer>)

  /** Calls of the owner, and what the browser may do next. */
  datatype Event =
    | Connect
    | Disconnect
    | Opens(id: nat)
    | BeginsClosing(id: nat)
    | Closes(id: nat)
    | CloseEvent(id: nat, jitter: nat)
    | TimerFires(id: nat)

  predicate Enabled(c: Client, e: Event) {
    match e
    case Connect => true
    case Disconnect => true
    case Opens(i) => i < |c.sockets| && c.sockets[i].state == CONNECTING
    case BeginsClosing(i) => i < |c.sockets| && c.sockets[i].Live()
    case Closes(i) => i < |c.sockets| && c.sockets[i].state != CLOSED
    case CloseEvent(i, jitter) =>
      i < |c.sockets| && c.sockets[i].state == CLOSED && !c.sockets[i].closeDelivered && jitter < 200
    case TimerFires(t) => t < |c.timers| && c.timers[t].armed
  }

  /** `clearTimeout` of the pending timer, if the client remembers one. */
  function ClearTimer(c: Client): Client {
    if c.timer.Some? && c.timer.value < |c.timers| then
      c.(timer := None, timers := c.timers[c.timer.value := c.timers[c.timer.value].(armed := false)])
    else c.(timer := None)
  }

  function Open_(c: Client): Client {
    if c.ws.Some? && c.ws.value < |c.sockets| && c.sockets[c.ws.value].Live() then c
    else c.(sockets := c.sockets + [Sock(CONNECTING, false)], ws := Some(|c.sockets|))
  }

  function SetState(c: Client, i: nat, state: ReadyState): Client
    requires i < |c.sockets|
  {
    c.(sockets := c.sockets[i := c.sockets[i].(state := state)])
  }

  function CloseCurrent(c: Client): Client {
    if c.ws.Some? && c.ws.value < |c.sockets| && c.sockets[c.ws.value].Live() then
      SetState(c, c.ws.value, CLOSING)
    else c
  }

  function ScheduleReconnect(c: Client, jitter: nat): Client {
    c.(attempt := c.attempt + 1,
       timers := c.timers + [Timer(WebDelay(c.base, c.cap, c.attempt) + jitter as real, true)],
       timer := Some(|c.timers|))
  }

  function Step(c: Client, e: Event): Client
    requires Enabled(c, e)
  {
    match e
    case Connect => Open_(ClearTimer(c.(manualClose := false)).(attempt := 0))
    case Disconnect => CloseCurrent(ClearTimer(c.(manualClose := true)))
    case Opens(i) => SetState(c, i, OPEN).(attempt := if c.ws == Some(i) then 0 else c.attempt)
    case BeginsClosing(i) => SetState(c, i, CLOSING)
    case Closes(i) => SetState(c, i, CLOSED)
    case CloseEvent(i, jitter) =>
      var c' := c.(sockets := c.sockets[i := c.sockets[i].(closeDelivered := true)]);
      if c.ws != Some(i) then c'
      else if c.manualClose then c'.(ws := None)
      else ScheduleReconnect(c'.(ws := None), jitter)
    case TimerFires(t) =>
      Open_(c.(timers := c.timers[t := c.timers[t].(armed := false)], timer := None))
  }

  class TelemetrySocket {
    const baseBackoffMs: real
    const maxBackoffMs: real
    var ws: Option<nat>
    var manualClose: bool
    var reconnectAttempt: nat
    var reconnectTimer: Option<nat>

    // The browser's side.
    var sockets: seq<Sock>
    var timers: seq<Timer>

    function View(): Client
      reads this
    {
      Client(baseBackoffMs, maxBackoffMs, ws, manualClose, reconnectAttempt, reconnectTimer, sockets, timers)
    }

    predicate Valid()
      reads this
    {
      (ws.Some? ==> ws.value < |sockets|) && (reconnectTimer.Some? ==> reconnectTimer.value < |timers|)
    }

    constructor (baseBackoffMs: real, maxBackoffMs: real)
      ensures Valid() && View() == Fresh(baseBackoffMs, maxBackoffMs)
    {
      this.baseBackoffMs, this.maxBackoffMs := baseBackoffMs, maxBackoffMs;
      ws, manualClose, reconnectAttempt, reconnectTimer := None, false, 0, None;
      sockets, timers := [], [];
    }

    method ConnectNow()
      requires Valid()
      modifies this
      ensures Valid() && View() == Step(old(View()), Connect)
      ensures !manualClose && reconnectTimer.None? && reconnectAttempt == 0
      ensures ws.Some? && (sockets[ws.value].state == CONNECTING || sockets[ws.value].state == OPEN)
      ensures
        || (ws == old(ws) && sockets == old(sockets))
        || (ws == Some(|old(sockets)|) && sockets == old(sockets) + [Sock(CONNECTING, false)])
    {
      manualClose := false;
      if reconnectTimer.Some? {
        ClearTimeout(reconnectTimer.value);
        reconnectTimer := None;
      }
      reconnectAttempt := 0;
      OpenSocket();
    }

    method DisconnectNow()
      requires Valid()
      modifies this
      ensures Valid() && View() == Step(old(View()), Disconnect)
      ensures manualClose && reconnectTimer.None? && ws == old(ws) && reconnectAttempt == old(reconnectAttempt)
      ensures ws.Some? ==>
        var was := old(sockets)[ws.value];
        sockets == old(sockets)[ws.value :=
          if was.state == CLOSED then was else Sock(CLOSING, was.closeDelivered)]
    {
      manualClose := true;
      if reconnectTimer.Some? {
        ClearTimeout(reconnectTimer.value);
        reconnectTimer := None;
      }
      if ws.Some? && sockets[ws.value].Live() {
        sockets := sockets[ws.value := sockets[ws.value].(state := CLOSING)];
      }
    }

    method ClearTimeout(t: nat)
      requires t < |timers|
      modifies this`timers
      ensures timers == old(timers)[t := old(timers)[t].(armed := false)]
    {
      timers := timers[t := timers[t].(armed := false)];
    }

    method OpenSocket()
      requires Valid()
      modifies this`ws, this`sockets
      ensures Valid() && View() == Open_(old(View()))
      ensures ws.Some? && (sockets[ws.value].state == CONNECTING || sockets[ws.value].state == OPEN)
      ensures
        if old(ws.Some? && (sockets[ws.value].state == CONNECTING || sockets[ws.value].state == OPEN))
        then ws == old(ws) && sockets == old(sockets)
        else ws == Some(|old(sockets)|) && sockets == old(sockets) + [Sock(CONNECTING, false)]
    {
      if ws.Some? && sockets[ws.value].Live() {
        return;
      }
      ws := Some(|sockets|);
      sockets := sockets + [Sock(CONNECTING, false)];
    }

    method HandleOpen(i: nat)
      requires Valid() && Enabled(View(), Opens(i))
      modifies this
      ensures Valid() && View() == Step(old(View()), Opens(i))
      ensures reconnectAttempt == if ws == Some(i) then 0 else old(reconnectAttempt)
    {
      sockets := sockets[i := sockets[i].(state := OPEN)];
      if ws != Some(i) {
        return;
      }
      reconnectAttempt := 0;
    }

    method HandleClose(i: nat, jitter: nat)
      requires Valid() && Enabled(View(), CloseEvent(i, jitter))
      modifies this
      ensures Valid() && View() == Step(old(View()), CloseEvent(i, jitter))
      ensures old(ws) != Some(i) ==> ws == old(ws)
      ensures old(ws) == Some(i) ==> ws.None?
      ensures old(ws) != Some(i) || manualClose ==>
        && timers == old(timers) && reconnectTimer == old(reconnectTimer)
        && reconnectAttempt == old(reconnectAttempt)
      ensures old(ws) == Some(i) && !manualClose ==>
        && reconnectTimer == Some(|old(timers)|) && reconnectAttempt == old(reconnectAttempt) + 1
        && |timers| == |old(timers)| + 1 && timers[|old(timers)|].armed
        && timers[|old(timers)|].waitMs ==
             WebDelay(baseBackoffMs, maxBackoffMs, old(reconnectAttempt)) + jitter as real
    {
      sockets := sockets[i := sockets[i].(closeDelivered := true)];
      if ws != Some(i) {
        return;
      }
      ws := None;
      if !manualClose {
        ArmReconnect(jitter);
      }
    }

    method ArmReconnect(jitter: nat)
      requires Valid()
      modifies this`reconnectAttempt, this`timers, this`reconnectTimer
      ensures Valid() && View() == ScheduleReconnect(old(View()), jitter)
    {
      var delay := WebDelay(baseBackoffMs, maxBackoffMs, reconnectAttempt);
      reconnectAttempt := reconnectAttempt + 1;
      var waitMs := delay + jitter as real;
      reconnectTimer := Some(|timers|);
      timers := timers + [Timer(waitMs, true)];
    }

    method HandleTimer(t: nat)
      requires Valid() && Enabled(View(), TimerFires(t))
      modifies this
      ensures Valid() && View() == Step(old(View()), TimerFires(t))
      ensures reconnectTimer.None?
      ensures ws.Some? && (sockets[ws.value].state == CONNECTING || sockets[ws.value].state == OPEN)
    {
      timers := timers[t := timers[t].(armed := false)];
      reconnectTimer := None;
      OpenSocket();
    }
  }

  function Fresh(base: real, cap: real): Client { Client(base, cap, None, false, 0, None, [], []) }

  /** Runs the events in order; one that is not enabled does not happen. */
  function Run(c: Client, events: seq<Event>): Client {
    if events == [] then c
    else
      var before := Run(c, events[..|events| - 1]);
      var e := events[|events| - 1];
      if Enabled(before, e) then Step(before, e) else before
  }

  // ---------------------------------------------------------------- safety

  ghost predicate Safe(c: Client) {
    // at most one socket is live, and it is the current one
    && (forall i :: 0 <= i < |c.sockets| && c.sockets[i].Live() ==> c.ws == Some(i))
    // the current socket's close event is still to come
    && (c.ws.Some? ==> c.ws.value < |c.sockets| && !c.sockets[c.ws.value].closeDelivered)
    // no timer is ever forgotten
    && (forall t :: 0 <= t < |c.timers| ==> (c.timers[t].armed <==> c.timer == Some(t)))
    && (c.timer.Some? ==> c.timer.value < |c.timers| && c.ws.None? && !c.manualClose)
    // nothing lives after `disconnect`
    && (c.manualClose ==> forall i :: 0 <= i < |c.sockets| ==> !c.sockets[i].Live())
  }

  lemma StepSafe(c: Client, e: Event)
    requires Safe(c) && Enabled(c, e)
    ensures Safe(Step(c, e))
  {
    match e {
      case Connect => OpenSafe(ClearTimer(c.(manualClose := false)).(attempt := 0));
      case TimerFires(t) => OpenSafe(c.(timers := c.timers[t := c.timers[t].(armed := false)], timer := None));
      case CloseEvent(_, _) => CloseSafe(c, e);
      case Disconnect =>
      case Opens(_) | BeginsClosing(_) | Closes(_) =>
    }
  }

  lemma CloseSafe(c: Client, e: Event)
    requires Safe(c) && Enabled(c, e) && e.CloseEvent?
    ensures Safe(Step(c, e))
  {
  }

  lemma OpenSafe(c: Client)
    requires Safe(c) && c.timer.None? && !c.manualClose
    ensures Safe(Open_(c))
  {
  }

  /** Whether the owner wants a connection: the last of `connect` and `disconnect` was `connect`. */
  predicate Wanted(events: seq<Event>) {
    if events == [] then false
    else
      var e := events[|events| - 1];
      if e.Connect? then true else if e.Disconnect? then false else Wanted(events[..|events| - 1])
  }

  /** Over every run at most one socket is live and it is the current one; and while a connection is
      wanted, exactly one of "a current socket exists" and "a reconnect is pending" holds. */
  lemma {:induction false} AlwaysSafe(base: real, cap: real, events: seq<Event>)
    ensures var c := Run(Fresh(base, cap), events);
      && Safe(c)
      && (Wanted(events) ==> !c.manualClose && (c.ws.Some? <==> c.timer.None?))
  {
    if events != [] {
      var before := Run(Fresh(base, cap), events[..|events| - 1]);
      AlwaysSafe(base, cap, events[..|events| - 1]);
      if Enabled(before, events[|events| - 1]) {
        StepSafe(before, events[|events| - 1]);
      }
    }
  }

  /** After `disconnect` no new socket appears and none becomes live until `connect`. */
  lemma {:induction false} StaysDisconnected(c: Client, events: seq<Event>)
    requires Safe(c) && c.manualClose
    requires forall i :: 0 <= i < |events| ==> !events[i].Connect?
    ensures var end := Run(c, events);
      Safe(end) && end.manualClose && |end.sockets| == |c.sockets| && |end.timers| == |c.timers|
  {
    if events != [] {
      var before := Run(c, events[..|events| - 1]);
      StaysDisconnected(c, events[..|events| - 1]);
      if Enabled(before, events[|events| - 1]) {
        StepSafe(before, events[|events| - 1]);
      }
    }
  }

  /** What `disconnect` does for good: whatever the browser does afterwards, no socket is connecting or open,
      no timer is armed and none of either is added, until `connect`. */
  lemma DisconnectSticks(c: Client, events: seq<Event>)
    requires Safe(c) && forall i :: 0 <= i < |events| ==> !events[i].Connect?
    ensures var end := Run(Step(c, Disconnect), events);
      && |end.sockets| == |c.sockets| && |end.timers| == |c.timers|
      && (forall i :: 0 <= i < |end.sockets| ==> end.sockets[i].state != CONNECTING && end.sockets[i].state != OPEN)
      && (forall t :: 0 <= t < |end.timers| ==> !end.timers[t].armed)
  {
    StepSafe(c, Disconnect);
    StaysDisconnected(Step(c, Disconnect), events);
  }

  // ---------------------------------------------------------------- never stuck

  /** A connection is being served: a current socket or a pending timer, not both. */
  ghost predicate Serving(c: Client) { Safe(c) && !c.manualClose && (c.ws.Some? <==> c.timer.None?) }

  /** How far the client is from an open socket. */
  ghost function Distance(c: Client): nat
    requires Serving(c)
  {
    if c.timer.Some? then 2
    else
      match c.sockets[c.ws.value].state
      case OPEN => 0
      case CONNECTING => 1
      case CLOSED => 3
      case CLOSING => 4
  }

  /** A browser event that leads on: the pending close or timer, or for a connecting socket its opening
      (it may fail instead, which leads back to a close). */
  ghost function Next(c: Client): Event
    requires Serving(c) && Distance(c) > 0
  {
    if c.timer.Some? then TimerFires(c.timer.value)
    else
      match c.sockets[c.ws.value].state
      case CONNECTING => Opens(c.ws.value)
      case CLOSED => CloseEvent(c.ws.value, 0)
      case _ => Closes(c.ws.value)
  }

  lemma NextBringsCloser(c: Client)
    requires Serving(c) && Distance(c) > 0
    ensures Enabled(c, Next(c))
    ensures var c' := Step(c, Next(c)); Serving(c') && Distance(c') < Distance(c)
  {
    StepSafe(c, Next(c));
  }

  lemma {:induction false} RunCons(c: Client, e: Event, events: seq<Event>)
    requires Enabled(c, e)
    ensures Run(c, [e] + events) == Run(Step(c, e), events)
  {
    var all := [e] + events;
    if events == [] {
      assert all[..|all| - 1] == [] && Run(c, []) == c;
    } else {
      assert all[..|all| - 1] == [e] + events[..|events| - 1];
      RunCons(c, e, events[..|events| - 1]);
    }
  }

  /** From any state in which a connection is wanted there is a run of at most four browser events to an
      open current socket, without any help from the owner. */
  lemma {:induction false} NeverStuck(c: Client) returns (events: seq<Event>)
    requires Serving(c)
    ensures |events| <= Distance(c) <= 4
    ensures forall i :: 0 <= i < |events| ==> !events[i].Connect? && !events[i].Disconnect?
    ensures var end := Run(c, events); Serving(end) && Distance(end) == 0
    decreases Distance(c)
  {
    events := [];
    if Distance(c) > 0 {
      NextBringsCloser(c);
      var rest := NeverStuck(Step(c, Next(c)));
      RunCons(c, Next(c), rest);
      events := [Next(c)] + rest;
    }
  }

  // ---------------------------------------------------------------- backoff

  /** Event `i` is the loss of the then current socket, not wanted by the owner. */
  predicate LosesAt(c: Client, events: seq<Event>, i: nat) {
    && i < |events| && events[i].CloseEvent? && Enabled(Run(c, events[..i]), events[i])
    && Run(c, events[..i]).ws == Some(events[i].id) && !Run(c, events[..i]).manualClose
  }

  /** Event `i` is a `connect`, or the opening of the then current socket. */
  predicate SucceedsAt(c: Client, events: seq<Event>, i: nat) {
    && i < |events|
    && (events[i].Connect?
        || (events[i].Opens? && Enabled(Run(c, events[..i]), events[i])
            && Run(c, events[..i]).ws == Some(events[i].id)))
  }

  /** The consecutive failures of a run: the losses since the last `connect` or opening. */
  ghost function Failures(c: Client, events: seq<Event>): set<nat> {
    set i: nat | i < |events| && LosesAt(c, events, i) && NoSuccessAfter(c, events, i)
  }

  ghost predicate NoSuccessAfter(c: Client, events: seq<Event>, i: nat) {
    forall j: nat :: i < j ==> !SucceedsAt(c, events, j)
  }

  lemma PrefixAgrees(c: Client, events: seq<Event>, i: nat)
    requires events != [] && i < |events| - 1
    ensures var front := events[..|events| - 1];
      (LosesAt(c, events, i) <==> LosesAt(c, front, i)) && (SucceedsAt(c, events, i) <==> SucceedsAt(c, front, i))
  {
    assert events[..|events| - 1][..i] == events[..i];
  }

  /** How one more event changes the set of failures. */
  lemma FailuresSnoc(c: Client, events: seq<Event>)
    requires events != []
    ensures var k := |events| - 1; var before := Failures(c, events[..k]);
      && k !in before
      && Failures(c, events) ==
           (if SucceedsAt(c, events, k) then {} else before) + (if LosesAt(c, events, k) then {k} else {})
  {
    var k := |events| - 1;
    var front := events[..k];
    forall i: nat | i < k
      ensures NoSuccessAfter(c, events, i) <==> NoSuccessAfter(c, front, i) && !SucceedsAt(c, events, k)
    {
      if NoSuccessAfter(c, front, i) && !SucceedsAt(c, events, k) {
        forall j: nat | i < j ensures !SucceedsAt(c, events, j) {
          if j < k {
            PrefixAgrees(c, events, j);
          }
        }
      }
      if NoSuccessAfter(c, events, i) {
        forall j: nat | i < j ensures !SucceedsAt(c, front, j) {
          if j < k {
            PrefixAgrees(c, events, j);
          }
        }
      }
    }
    forall i: nat | i < k ensures LosesAt(c, events, i) <==> LosesAt(c, front, i) {
      PrefixAgrees(c, events, i);
    }
  }

  /** What each event does to the attempt count. */
  lemma StepCounts(c: Client, e: Event)
    requires Enabled(c, e)
    ensures var c' := Step(c, e);
      && c'.base == c.base && c'.cap == c.cap
      && c'.attempt ==
           if e.Connect? || (e.Opens? && c.ws == Some(e.id)) then 0
           else if e.CloseEvent? && c.ws == Some(e.id) && !c.manualClose then c.attempt + 1
           else c.attempt
  {
  }

  lemma AttemptSnoc(c: Client, events: seq<Event>)
    requires events != []
    ensures var k := |events| - 1; var before, after := Run(c, events[..k]), Run(c, events);
      && after.attempt ==
           (if SucceedsAt(c, events, k) then 0
            else before.attempt + if LosesAt(c, events, k) then 1 else 0)
      && after.base == before.base && after.cap == before.cap
      && !(SucceedsAt(c, events, k) && LosesAt(c, events, k))
  {
    var before, e := Run(c, events[..|events| - 1]), events[|events| - 1];
    if Enabled(before, e) {
      StepCounts(before, e);
    }
  }

  /** The attempt count is the number of consecutive failures. */
  lemma {:induction false} AttemptsAreFailures(base: real, cap: real, events: seq<Event>)
    ensures var c := Run(Fresh(base, cap), events);
      c.attempt == |Failures(Fresh(base, cap), events)| && c.base == base && c.cap == cap
  {
    if events != [] {
      AttemptsAreFailures(base, cap, events[..|events| - 1]);
      AttemptSnoc(Fresh(base, cap), events);
      FailuresSnoc(Fresh(base, cap), events);
    }
  }

  /** Whenever losing the current socket schedules a reconnect, it waits the capped power of two for
      the failures so far, plus less than 200 ms of jitter. */
  lemma WaitFollowsFailures(base: real, cap: real, events: seq<Event>, i: nat, jitter: nat)
    requires 0.0 <= base
    requires var c := Run(Fresh(base, cap), events);
      Enabled(c, CloseEvent(i, jitter)) && c.ws == Some(i) && !c.manualClose
    ensures var c := Run(Fresh(base, cap), events); var c' := Step(c, CloseEvent(i, jitter));
      var delay := WebDelay(base, cap, |Failures(Fresh(base, cap), events)|);
      && c'.timer == Some(|c.timers|) && c'.timers[|c.timers|].armed
      && c'.timers[|c.timers|].waitMs == delay + jitter as real < delay + 200.0
      && MinR(cap, base) <= delay <= cap
  {
    AttemptsAreFailures(base, cap, events);
    DelayGrows(base, cap, 0, |Failures(Fresh(base, cap), events)|);
  }
}
