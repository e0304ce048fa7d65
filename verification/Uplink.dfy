/** The mobile app's GPS uplink around the queue (mobile/src/App.js, mobile/src/telemetry/ws-client.js):
    a fix goes out live when the socket is open and into the queue when it is not; every live send and
    every reconnect flushes the queue.

    `flushWrite` models `flushingRef`: it is set from the hand-over of a flush until the write which that
    flush issued has settled, and holds the position of that write among the unsettled ones. Every
    operation that has changed the queue puts its depth on display when its write settles. */
module Uplink {
  import opened Basics
  import opened StoreForward
  import opened QueueHistory
  import opened QueueRecovery

  const FLUSH_LIMIT := 200

  /** A GPS payload; only queued ones carry `queued_at`. */
  datatype Msg<F> = Msg(fix: F, queuedAt: Option<real>)

  /** `wire` lists everything handed to an open socket, in order; `queueDepth` is the depth on display. */
  datatype App<F> = App(
    store: Store<Msg<F>>, open: bool, flushWrite: Option<nat>, wire: seq<Msg<F>>, queueDepth: nat)

  datatype Event<F> =
    | Fix(fix: F, now: real)
    | Connected
    | SocketOpens
    | SocketCloses
    | WriteSettles(ok: bool)
    | AppCrashes(readable: bool)

  /** `sendJson`: refuses unless the socket is open. */
  function SendJson(open: bool): Answer { if open then Accepted else Refused }

  function FlushOps<F>(a: App<F>): seq<Op<Msg<F>>> {
    if a.flushWrite.Some? || !a.open then [] else [Flush(_ => SendJson(a.open), FLUSH_LIMIT)]
  }

  /** The queue operations an event causes. */
  function QueueOps<F>(a: App<F>, e: Event<F>): seq<Op<Msg<F>>> {
    match e
    case Fix(fix, now) => if a.open then FlushOps(a) else [Enqueue(Msg(fix, Some(now)))]
    case Connected => FlushOps(a)
    case SocketOpens => []
    case SocketCloses => []
    case WriteSettles(ok) => [Settle(ok)]
    case AppCrashes(readable) => [Crash(readable)]
  }

  function FlushQueued<F>(a: App<F>, maxItems: int): App<F> {
    if a.flushWrite.Some? || !a.open then a
    else
      var n := Min(FLUSH_LIMIT, |a.store.items|);
      a.(store := Step(a.store, Flush(_ => SendJson(a.open), FLUSH_LIMIT), maxItems),
         flushWrite := Some(|a.store.pending|), wire := a.wire + a.store.items[..n])
  }

  function AppStep<F>(a: App<F>, e: Event<F>, maxItems: int): App<F> {
    match e
    case Fix(fix, now) =>
      if a.open then FlushQueued(a.(wire := a.wire + [Msg(fix, None)]), maxItems)
      else a.(store := Step(a.store, Enqueue(Msg(fix, Some(now))), maxItems))
    case Connected => FlushQueued(a, maxItems)
    case SocketOpens => a.(open := true)
    case SocketCloses => a.(open := false)
    case WriteSettles(ok) =>
      a.(store := Step(a.store, Settle(ok), maxItems),
         flushWrite :=
           if a.store.pending == [] || a.flushWrite.None? then a.flushWrite
           else if a.flushWrite.value == 0 then None
           else Some(a.flushWrite.value - 1),
         queueDepth := if a.store.pending == [] then a.queueDepth else |a.store.items|)
    case AppCrashes(readable) =>
      var back := Step(a.store, Crash(readable), maxItems);
      App(back, false, None, a.wire, |back.items|)
  }

  function AppRun<F>(a: App<F>, events: seq<Event<F>>, maxItems: int): App<F>
    decreases |events|
  {
    if events == [] then a else AppRun(AppStep(a, events[0], maxItems), events[1..], maxItems)
  }

  /** All queue operations of a run. */
  function AllOps<F>(a: App<F>, events: seq<Event<F>>, maxItems: int): seq<Op<Msg<F>>>
    decreases |events|
  {
    if events == [] then []
    else QueueOps(a, events[0]) + AllOps(AppStep(a, events[0], maxItems), events[1..], maxItems)
  }

  class TelemetryApp<F> {
    const queue: StoreForwardQueue<Msg<F>>
    var open: bool
    var flushWrite: Option<nat>
    var wire: seq<Msg<F>>
    var queueDepth: nat

    function View(): App<F>
      reads this, queue
    {
      App(queue.View(), open, flushWrite, wire, queueDepth)
    }

    /** The app as an event finds it: one that reaches a queue not yet loaded loads it first, from what
        a read of its storage would yield. */
    function Primed(e: Event<F>, read: Stored<Msg<F>>): App<F>
      reads this, queue
    {
      if QueueOps(View(), e) == [] then View() else View().(store := queue.Ready(read))
    }

    constructor (queue: StoreForwardQueue<Msg<F>>)
      ensures this.queue == queue
      ensures View() == App(queue.View(), false, None, [], 0)
    {
      this.queue := queue;
      open, flushWrite, wire, queueDepth := false, None, [], 0;
    }

    /** The effect that runs once after mounting. */
    method OnMounted(read: Stored<Msg<F>>)
      modifies this, queue
      ensures queue.loaded && queue.flushing == old(queue.flushing)
      ensures View() == old(View()).(store := old(queue.Ready(read)), queueDepth := |queue.items|)
    {
      queueDepth := queue.Init(read);
    }

    method FlushQueuedGps(read: Stored<Msg<F>>)
      requires !queue.flushing
      modifies this, queue
      ensures !queue.flushing && View() == AppStep(old(Primed(Connected, read)), Connected, queue.maxItems)
      ensures old(!open || flushWrite.Some?) ==> View() == old(View())
      ensures old(open && flushWrite.None?) ==>
        var queued := old(queue.Ready(read)).items; var n := if |queued| < 200 then |queued| else 200;
        && flushWrite == Some(|old(queue.pending)|) && open && queueDepth == old(queueDepth)
        && wire == old(wire) + queued[..n] && queue.items == queued[n..]
        && queue.pending == old(queue.pending) + [queue.items] && queue.durable == old(queue.durable)
    {
      if flushWrite.Some? || !open {
        return;
      }
      flushWrite := Some(|queue.pending|);
      var isOpen := open;
      ghost var before := queue.Ready(read).items;
      var queued := if queue.loaded then queue.items else Loaded(queue.items, read);
      var r := queue.Flush(_ => SendJson(isOpen), FLUSH_LIMIT, read);
      AllAccepted(|before|);
      wire := wire + queued[..r.sent];
    }

    method SendGpsUplinkWithQueue(fix: F, now: real, read: Stored<Msg<F>>)
      requires !queue.flushing
      modifies this, queue
      ensures !queue.flushing
      ensures View() == AppStep(old(Primed(Fix(fix, now), read)), Fix(fix, now), queue.maxItems)
      ensures open == old(open) && queueDepth == old(queueDepth)
      ensures !open ==>
        && wire == old(wire) && flushWrite == old(flushWrite)
        && queue.View() == Step(old(queue.Ready(read)), Enqueue(Msg(fix, Some(now))), queue.maxItems)
      ensures open && old(flushWrite.Some?) ==>
        wire == old(wire) + [Msg(fix, None)] && flushWrite == old(flushWrite) && queue.View() == old(queue.View())
      ensures open && old(flushWrite.None?) ==>
        var queued := old(queue.Ready(read)).items; var n := if |queued| < 200 then |queued| else 200;
        && flushWrite == Some(|old(queue.pending)|) && queue.items == queued[n..]
        && wire == old(wire) + [Msg(fix, None)] + queued[..n]
    {
      if !open {
        queue.Enqueue(Msg(fix, Some(now)), read);
        return;
      }
      wire := wire + [Msg(fix, None)];
      FlushQueuedGps(read);
    }

    /** The oldest write settles: the operation that issued it resumes and puts the depth on display,
        and if that was a flush, flushing is free again. */
    method OnWriteSettled(ok: bool)
      modifies this, queue
      ensures queue.loaded == old(queue.loaded) && queue.flushing == old(queue.flushing)
      ensures View() == AppStep(old(View()), WriteSettles(ok), queue.maxItems)
      ensures queue.items == old(queue.items) && open == old(open) && wire == old(wire)
      ensures old(queue.pending) == [] ==> View() == old(View())
      ensures old(queue.pending) != [] ==>
        && queueDepth == |queue.items|
        && flushWrite == match old(flushWrite)
                         case None => None
                         case Some(ahead) => if ahead == 0 then None else Some(ahead - 1)
    {
      if queue.pending != [] {
        queueDepth := queue.Depth();
        if flushWrite.Some? {
          flushWrite := if flushWrite.value == 0 then None else Some(flushWrite.value - 1);
        }
      }
      queue.SettleWrite(ok);
    }
  }

  /** On an open socket a flush hands over `min(200, depth)` payloads. */
  lemma AllAccepted(depth: nat)
    ensures Taken(_ => SendJson(true), depth, FLUSH_LIMIT) == Min(FLUSH_LIMIT, depth)
    ensures !Interrupted(_ => SendJson(true), depth, FLUSH_LIMIT)
  {
    TakenIsUnique(_ => SendJson(true), depth, FLUSH_LIMIT, Min(FLUSH_LIMIT, depth));
  }

  // ---------------------------------------------------------------- the queue inside the app

  lemma StepIsQueueRun<F>(a: App<F>, e: Event<F>, maxItems: int)
    ensures AppStep(a, e, maxItems).store == Run(a.store, QueueOps(a, e), maxItems)
  {
    var ops := QueueOps(a, e);
    if ops != [] {
      assert ops[1..] == [];
    }
  }

  /** Whatever the app does, its queue goes through a run of queue operations, so everything proved
      about such runs, crashes included, holds inside the app. */
  lemma {:induction false} QueueRunsInside<F>(a: App<F>, events: seq<Event<F>>, maxItems: int)
    ensures AppRun(a, events, maxItems).store == Run(a.store, AllOps(a, events, maxItems), maxItems)
    decreases |events|
  {
    if events != [] {
      var next := AppStep(a, events[0], maxItems);
      StepIsQueueRun(a, events[0], maxItems);
      QueueRunsInside(next, events[1..], maxItems);
      RunConcat(a.store, QueueOps(a, events[0]), AllOps(next, events[1..], maxItems), maxItems);
    }
  }

  // ---------------------------------------------------------------- routes and conservation

  /** The live sends of a wire (`queued` false) or the replays from the queue (`queued` true). */
  function Part<F>(wire: seq<Msg<F>>, queued: bool): seq<Msg<F>> {
    if wire == [] then []
    else (if wire[0].queuedAt.Some? == queued then [wire[0]] else []) + Part(wire[1..], queued)
  }

  predicate AllQueued<F>(msgs: seq<Msg<F>>) {
    forall i :: 0 <= i < |msgs| ==> msgs[i].queuedAt.Some?
  }

  /** Every image the queue can come back with carries its queueing times. */
  predicate Stamped<F>(s: Store<Msg<F>>) {
    && AllQueued(s.items) && AllQueued(s.durable)
    && forall i :: 0 <= i < |s.pending| ==> AllQueued(s.pending[i])
  }

  /** The fixes that arrive while the socket is open, or closed, as the messages they become. */
  function Fixes<F>(a: App<F>, events: seq<Event<F>>, open: bool, maxItems: int): seq<Msg<F>>
    decreases |events|
  {
    if events == [] then []
    else
      var e := events[0];
      (if e.Fix? && a.open == open then [Msg(e.fix, if open then None else Some(e.now))] else [])
        + Fixes(AppStep(a, e, maxItems), events[1..], open, maxItems)
  }

  lemma {:induction false} PartConcat<F>(a: seq<Msg<F>>, b: seq<Msg<F>>, queued: bool)
    ensures Part(a + b, queued) == Part(a, queued) + Part(b, queued)
  {
    if a == [] {
      assert a + b == b;
    } else {
      assert (a + b)[1..] == a[1..] + b;
      PartConcat(a[1..], b, queued);
      Assoc(if a[0].queuedAt.Some? == queued then [a[0]] else [], Part(a[1..], queued), Part(b, queued));
    }
  }

  lemma {:induction false} PartOfQueued<F>(msgs: seq<Msg<F>>, queued: bool)
    requires AllQueued(msgs)
    ensures Part(msgs, queued) == if queued then msgs else []
  {
    if msgs != [] {
      PartOfQueued(msgs[1..], queued);
    }
  }

  lemma StepStamped<F>(a: App<F>, e: Event<F>, maxItems: int)
    requires Stamped(a.store)
    ensures Stamped(AppStep(a, e, maxItems).store)
  {
  }

  /** The replays a flush puts on the wire. */
  function Replays<F>(a: App<F>, e: Event<F>): seq<Msg<F>> {
    if (e.Connected? || e.Fix?) && a.open && a.flushWrite.None? then
      a.store.items[..Min(FLUSH_LIMIT, |a.store.items|)]
    else []
  }

  lemma StepSends<F>(a: App<F>, e: Event<F>, maxItems: int)
    ensures WithFate(Log(a.store, QueueOps(a, e), maxItems), Sent) == Replays(a, e)
  {
    var ops := QueueOps(a, e);
    if ops != [] {
      assert ops == [ops[0]];
      LogOfOne(a.store, ops[0], maxItems);
      match ops[0] {
        case Flush(_, _) =>
          AllAccepted(|a.store.items|);
          WithFateOfTagged(Replays(a, e), Sent, Sent);
        case Enqueue(p) =>
          WithFateOfTagged((a.store.items + [p])[..Evictions(|a.store.items| + 1, maxItems)], Evicted, Sent);
        case Settle(_) =>
        case Crash(_) =>
      }
    }
  }

  lemma StepWire<F>(a: App<F>, e: Event<F>, maxItems: int)
    ensures AppStep(a, e, maxItems).wire == a.wire + Fixes(a, [e], true, maxItems) + Replays(a, e)
  {
    assert [e][1..] == [];
  }

  /** One event: what it adds to the wire and to the queue. */
  lemma StepRoutes<F>(a: App<F>, e: Event<F>, maxItems: int)
    requires Stamped(a.store)
    ensures var a' := AppStep(a, e, maxItems);
      && Part(a'.wire, false) == Part(a.wire, false) + Fixes(a, [e], true, maxItems)
      && Part(a'.wire, true) == Part(a.wire, true) + WithFate(Log(a.store, QueueOps(a, e), maxItems), Sent)
  {
    StepWire(a, e, maxItems);
    StepSends(a, e, maxItems);
    LiveThenReplays(a.wire, Fixes(a, [e], true, maxItems), Replays(a, e), false);
    LiveThenReplays(a.wire, Fixes(a, [e], true, maxItems), Replays(a, e), true);
  }

  lemma LiveThenReplays<F>(wire: seq<Msg<F>>, live: seq<Msg<F>>, out: seq<Msg<F>>, queued: bool)
    requires |live| <= 1 && (live != [] ==> live[0].queuedAt.None?) && AllQueued(out)
    ensures Part(wire + live + out, queued) == Part(wire, queued) + if queued then out else live
  {
    PartConcat(wire + live, out, queued);
    PartConcat(wire, live, queued);
    PartOfQueued(out, queued);
    PartOfLive(live, queued);
    var part := Part(wire, queued);
    assert part + [] == part;
    assert (part + live) + [] == part + live;
  }

  lemma PartOfLive<F>(live: seq<Msg<F>>, queued: bool)
    requires |live| <= 1 && (live != [] ==> live[0].queuedAt.None?)
    ensures Part(live, queued) == if queued then [] else live
  {
    if live != [] {
      assert live[1..] == [];
    }
  }

  lemma FixesSplit<F>(a: App<F>, events: seq<Event<F>>, open: bool, maxItems: int)
    requires events != []
    ensures Fixes(a, events, open, maxItems)
      == Fixes(a, [events[0]], open, maxItems) + Fixes(AppStep(a, events[0], maxItems), events[1..], open, maxItems)
  {
    assert [events[0]][1..] == [];
  }

  lemma StepQueues<F>(a: App<F>, e: Event<F>, maxItems: int)
    ensures Enqueued(QueueOps(a, e)) == Fixes(a, [e], false, maxItems)
  {
    assert [e][1..] == [];
    if QueueOps(a, e) != [] {
      assert QueueOps(a, e)[1..] == [];
    }
  }

  /** Every fix takes exactly one route, across crashes too. Those arriving on a closed socket are
      what the queue takes in, stamped and in order ... */
  lemma {:induction false} ClosedFixesAreQueued<F>(a: App<F>, events: seq<Event<F>>, maxItems: int)
    ensures Enqueued(AllOps(a, events, maxItems)) == Fixes(a, events, false, maxItems)
    decreases |events|
  {
    if events != [] {
      var next := AppStep(a, events[0], maxItems);
      StepQueues(a, events[0], maxItems);
      ClosedFixesAreQueued(next, events[1..], maxItems);
      EnqueuedConcat(QueueOps(a, events[0]), AllOps(next, events[1..], maxItems));
      FixesSplit(a, events, false, maxItems);
    }
  }

  /** ... those arriving on an open socket are the unstamped part of the wire, in order ... */
  lemma {:induction false} OpenFixesGoOutLive<F>(a: App<F>, events: seq<Event<F>>, maxItems: int)
    requires Stamped(a.store)
    ensures Part(AppRun(a, events, maxItems).wire, false) == Part(a.wire, false) + Fixes(a, events, true, maxItems)
    decreases |events|
  {
    if events != [] {
      var next := AppStep(a, events[0], maxItems);
      StepStamped(a, events[0], maxItems);
      StepRoutes(a, events[0], maxItems);
      OpenFixesGoOutLive(next, events[1..], maxItems);
      FixesSplit(a, events, true, maxItems);
      Assoc(Part(a.wire, false), Fixes(a, [events[0]], true, maxItems), Fixes(next, events[1..], true, maxItems));
    }
  }

  /** ... and the stamped part of the wire is what the queue has sent. */
  lemma {:induction false} ReplaysAreQueueSends<F>(a: App<F>, events: seq<Event<F>>, maxItems: int)
    requires Stamped(a.store)
    ensures Part(AppRun(a, events, maxItems).wire, true)
      == Part(a.wire, true) + WithFate(Log(a.store, AllOps(a, events, maxItems), maxItems), Sent)
    decreases |events|
  {
    if events != [] {
      var next := AppStep(a, events[0], maxItems);
      var ops, rest := QueueOps(a, events[0]), AllOps(next, events[1..], maxItems);
      StepStamped(a, events[0], maxItems);
      StepRoutes(a, events[0], maxItems);
      StepIsQueueRun(a, events[0], maxItems);
      ReplaysAreQueueSends(next, events[1..], maxItems);
      RunConcat(a.store, ops, rest, maxItems);
      WithFateConcat(Log(a.store, ops, maxItems), Log(next.store, rest, maxItems), Sent);
      Assoc(Part(a.wire, true), WithFate(Log(a.store, ops, maxItems), Sent),
            WithFate(Log(next.store, rest, maxItems), Sent));
    }
  }

  function CountFixes<F>(events: seq<Event<F>>): nat {
    if events == [] then 0 else (if events[0].Fix? then 1 else 0) + CountFixes(events[1..])
  }

  lemma {:induction false} FixesPartition<F>(a: App<F>, events: seq<Event<F>>, maxItems: int)
    ensures |Fixes(a, events, true, maxItems)| + |Fixes(a, events, false, maxItems)| == CountFixes(events)
    decreases |events|
  {
    if events != [] {
      FixesPartition(AppStep(a, events[0], maxItems), events[1..], maxItems);
    }
  }

  predicate NoCrash<F>(events: seq<Event<F>>) {
    forall i :: 0 <= i < |events| ==> !events[i].AppCrashes?
  }

  lemma {:induction false} NoCrashOps<F>(a: App<F>, events: seq<Event<F>>, maxItems: int)
    requires NoCrash(events)
    ensures CrashFree(AllOps(a, events, maxItems))
    decreases |events|
  {
    if events != [] {
      NoCrashOps(AppStep(a, events[0], maxItems), events[1..], maxItems);
    }
  }

  /** The books of a session: fixes received and payloads loaded are live sends, queued sends,
      evictions or still waiting. With the overflow counter in the place of the evictions they balance
      exactly when the capacity is not negative or no fix had to be queued. */
  lemma FixConservation<F>(a: App<F>, events: seq<Event<F>>, maxItems: int)
    requires a.wire == [] && a.store.overflow == 0 && Stamped(a.store)
    requires NoCrash(events)
    ensures var end := AppRun(a, events, maxItems);
      CountFixes(events) + |a.store.items|
        == |Part(end.wire, false)| + |Part(end.wire, true)| + end.store.overflow + |end.store.items|
      <==> maxItems >= 0 || Fixes(a, events, false, maxItems) == []
    ensures var end := AppRun(a, events, maxItems);
      CountFixes(events) + |a.store.items|
        == |Part(end.wire, false)| + |Part(end.wire, true)|
           + CountOf(Log(a.store, AllOps(a, events, maxItems), maxItems), Evicted) + |end.store.items|
  {
    var ops := AllOps(a, events, maxItems);
    NoCrashOps(a, events, maxItems);
    QueueRunsInside(a, events, maxItems);
    ClosedFixesAreQueued(a, events, maxItems);
    OpenFixesGoOutLive(a, events, maxItems);
    ReplaysAreQueueSends(a, events, maxItems);
    FixesPartition(a, events, maxItems);
    OrderedConservation(a.store, ops, maxItems);
    OverflowCountIsEvictions(a.store, ops, maxItems);
    LogSplits(Log(a.store, ops, maxItems));
  }

  /** The app as it starts on an image it has loaded. */
  function StartApp<F>(image: seq<Msg<F>>): App<F> { App(Start(image), false, None, [], |image|) }

  /** The books over any number of crashes: the fixes that met a closed socket, together with the
      image loaded and the replays, are the stamped part of the wire, the evictions, the losses and
      the queue. */
  lemma ConservationAcrossCrashes<F(!new)>(image: seq<Msg<F>>, events: seq<Event<F>>, maxItems: int)
    requires AllQueued(image)
    ensures var end := AppRun(StartApp(image), events, maxItems);
      var ops := AllOps(StartApp(image), events, maxItems);
      var t := TraceRun(StartTrace(image), Start(image), ops, maxItems);
      && Tracks(t, end.store) && Balanced(t, end.store, image)
      && t.entered == Fixes(StartApp(image), events, false, maxItems)
      && t.sent == Part(end.wire, true)
      && t.evicted == WithFate(Log(Start(image), ops, maxItems), Evicted)
  {
    var a := StartApp(image);
    var ops := AllOps(a, events, maxItems);
    QueueRunsInside(a, events, maxItems);
    RunTracks(StartTrace(image), a.store, ops, maxItems);
    RunBalances(StartTrace(image), a.store, ops, maxItems, image);
    TraceFollowsLog(StartTrace(image), a.store, ops, maxItems);
    ClosedFixesAreQueued(a, events, maxItems);
    ReplaysAreQueueSends(a, events, maxItems);
  }

  // ---------------------------------------------------------------- draining

  /** The flush requests that are not turned away because an earlier flush is still being written. */
  function Flushes<F>(a: App<F>, events: seq<Event<F>>, maxItems: int): nat
    decreases |events|
  {
    if events == [] then 0
    else
      (if (events[0].Connected? || events[0].Fix?) && a.flushWrite.None? then 1 else 0)
        + Flushes(AppStep(a, events[0], maxItems), events[1..], maxItems)
  }

  predicate StaysUp<F>(events: seq<Event<F>>) {
    forall i :: 0 <= i < |events| ==> !events[i].SocketCloses? && !events[i].AppCrashes?
  }

  lemma StepDrains<F>(a: App<F>, e: Event<F>, maxItems: int)
    requires a.open && !e.SocketCloses? && !e.AppCrashes?
    ensures var a' := AppStep(a, e, maxItems);
      && a'.open
      && |a'.store.items| == Max(0, |a.store.items| - FLUSH_LIMIT * Flushes(a, [e], maxItems))
  {
    AllAccepted(|a.store.items|);
    assert [e][1..] == [];
  }

  /** The socket is open exactly when it was, or has become so, and no close or crash has come since. */
  lemma {:induction false} OpenFollowsSocket<F>(a: App<F>, events: seq<Event<F>>, maxItems: int)
    ensures AppRun(a, events, maxItems).open <==>
      (a.open && StaysUp(events)) || exists i: nat :: OpensAt(events, i) && StaysUp(events[i + 1..])
    decreases |events|
  {
    if events != [] {
      var rest := events[1..];
      OpenFollowsSocket(AppStep(a, events[0], maxItems), rest, maxItems);
      assert StaysUp(events) <==> !events[0].SocketCloses? && !events[0].AppCrashes? && StaysUp(rest);
      assert OpensAt(events, 0) <==> events[0].SocketOpens?;
      forall i: nat | OpensAt(rest, i) ensures OpensAt(events, i + 1) && events[(i + 1) + 1..] == rest[i + 1..] {
      }
      forall i: nat | OpensAt(events, i) && i > 0
        ensures OpensAt(rest, i - 1) && events[i + 1..] == rest[(i - 1) + 1..]
      {
      }
    }
  }

  predicate OpensAt<F>(events: seq<Event<F>>, i: nat) { i < |events| && events[i].SocketOpens? }

  /** While the socket stays open the backlog shrinks by min(200, depth) a flush and by nothing else,
      whatever arrives meanwhile; `n` payloads are gone after ceil(n / 200) flushes. */
  lemma {:induction false} Drain<F>(a: App<F>, events: seq<Event<F>>, maxItems: int)
    requires a.open && StaysUp(events)
    ensures var left := AppRun(a, events, maxItems).store.items; var flushes := Flushes(a, events, maxItems);
      && |left| == Max(0, |a.store.items| - 200 * flushes)
      && (flushes >= (|a.store.items| + 199) / 200 ==> left == [])
    decreases |events|
  {
    if events != [] {
      StepDrains(a, events[0], maxItems);
      assert [events[0]][1..] == [];
      Drain(AppStep(a, events[0], maxItems), events[1..], maxItems);
    }
  }

  function Settlements<F>(events: seq<Event<F>>): nat {
    if events == [] then 0 else (if events[0].WriteSettles? then 1 else 0) + Settlements(events[1..])
  }

  predicate NoFlush<P>(ops: seq<Op<P>>) {
    forall i :: 0 <= i < |ops| ==> !ops[i].Flush?
  }

  lemma {:induction false} GuardHolds<F>(a: App<F>, events: seq<Event<F>>, maxItems: int)
    requires a.flushWrite.Some? && a.flushWrite.value < |a.store.pending|
    requires NoCrash(events) && Settlements(events) <= a.flushWrite.value
    ensures NoFlush(AllOps(a, events, maxItems)) && AppRun(a, events, maxItems).flushWrite.Some?
    decreases |events|
  {
    if events != [] {
      GuardHolds(AppStep(a, events[0], maxItems), events[1..], maxItems);
    }
  }

  /** One flush at a time: after a flush, which waits for the writes ahead of its own, every other one is
      turned away until they have all settled and its own has too. */
  lemma SecondFlushTurnedAway<F>(a: App<F>, e: Event<F>, events: seq<Event<F>>, maxItems: int)
    requires (e.Connected? || e.Fix?) && a.open && a.flushWrite.None?
    requires NoCrash(events) && Settlements(events) <= |a.store.pending|
    ensures |QueueOps(a, e)| == 1 && QueueOps(a, e)[0].Flush?
    ensures NoFlush(AllOps(AppStep(a, e, maxItems), events, maxItems))
  {
    AllAccepted(|a.store.items|);
    GuardHolds(AppStep(a, e, maxItems), events, maxItems);
  }

  /** Flushing is never blocked for good: whatever happens meanwhile, once more writes have settled
      than are ahead of the one a flush waits for, flushing has been free again. */
  lemma {:induction false} FlushGuardReleased<F>(a: App<F>, events: seq<Event<F>>, maxItems: int) returns (k: nat)
    requires a.flushWrite.Some? && a.flushWrite.value < |a.store.pending|
    requires Settlements(events) > a.flushWrite.value
    ensures k <= |events| && AppRun(a, events[..k], maxItems).flushWrite.None?
    decreases |events|
  {
    var next := AppStep(a, events[0], maxItems);
    k := 1;
    assert events[..1][1..] == [] && events[..1][0] == events[0];
    if next.flushWrite.Some? {
      AllAccepted(|a.store.items|);
      var rest := FlushGuardReleased(next, events[1..], maxItems);
      k := rest + 1;
      assert events[..k][1..] == events[1..][..rest];
    }
  }

  lemma {:induction false} FlushGuardIsValid<F>(a: App<F>, events: seq<Event<F>>, maxItems: int)
    requires a.flushWrite.Some? ==> a.flushWrite.value < |a.store.pending|
    ensures var end := AppRun(a, events, maxItems);
      end.flushWrite.Some? ==> end.flushWrite.value < |end.store.pending|
    decreases |events|
  {
    if events != [] {
      AllAccepted(|a.store.items|);
      FlushGuardIsValid(AppStep(a, events[0], maxItems), events[1..], maxItems);
    }
  }

  /** The depth on display is the queue's depth whenever no write is pending. */
  lemma {:induction false} DepthOnDisplay<F>(a: App<F>, events: seq<Event<F>>, maxItems: int)
    requires a.store.pending == [] ==> a.queueDepth == |a.store.items|
    ensures var end := AppRun(a, events, maxItems);
      end.store.pending == [] ==> end.queueDepth == |end.store.items|
    decreases |events|
  {
    if events != [] {
      AllAccepted(|a.store.items|);
      DepthOnDisplay(AppStep(a, events[0], maxItems), events[1..], maxItems);
    }
  }

  // ---------------------------------------------------------------- restarting the app

  /** No callback of the operation throws, and a start finds its image readable. */
  ghost predicate Reliable<P>(op: Op<P>) {
    && (op.Flush? ==> forall i: nat :: op.answers(i) != Threw)
    && (op.Crash? ==> op.readable)
  }

  lemma {:induction false} AppIsReliable<F>(a: App<F>, events: seq<Event<F>>, maxItems: int)
    requires forall i :: 0 <= i < |events| && events[i].AppCrashes? ==> events[i].readable
    ensures forall i :: 0 <= i < |AllOps(a, events, maxItems)| ==> Reliable(AllOps(a, events, maxItems)[i])
    decreases |events|
  {
    if events != [] {
      var next := AppStep(a, events[0], maxItems);
      AppIsReliable(next, events[1..], maxItems);
      var ops, rest := QueueOps(a, events[0]), AllOps(next, events[1..], maxItems);
      assert forall i :: 0 <= i < |rest| ==> (ops + rest)[|ops| + i] == rest[i];
      assert forall i :: 0 <= i < |ops| ==> Reliable(ops[i]);
    }
  }

  /** In the app nothing leaves the queue unsaved, because `sendJson` never throws: with no write
      pending and the last one not failed, a restart restores the queue exactly, after any run whose
      starts could read their image. */
  lemma RestartRestores<F>(image: seq<Msg<F>>, events: seq<Event<F>>, maxItems: int)
    requires forall i :: 0 <= i < |events| && events[i].AppCrashes? ==> events[i].readable
    requires AppRun(StartApp(image), events, maxItems).store.pending == []
    requires !LastWriteFailed(Start(image), AllOps(StartApp(image), events, maxItems), maxItems)
    ensures var end := AppRun(StartApp(image), events, maxItems);
      AppStep(end, AppCrashes(true), maxItems).store.items == end.store.items
  {
    var ops := AllOps(StartApp(image), events, maxItems);
    QueueRunsInside(StartApp(image), events, maxItems);
    AppIsReliable(StartApp(image), events, maxItems);
    forall i: nat ensures !LeavesUnsavedAt(Start(image), ops, i, maxItems) {
      assert i < |ops| ==> Reliable(ops[i]);
    }
    RestartExact(image, ops, maxItems);
  }
}
