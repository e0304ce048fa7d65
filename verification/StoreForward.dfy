/** The bounded, persistent GPS queue of the mobile app (mobile/src/telemetry/store-forward-queue.js).

    `Step` says what one atomic operation does to the queue's memory and to its storage key;
    the class `StoreForwardQueue` is the queue itself, proved to take exactly these steps.
    Histories, conservation and crash recovery are in `QueueHistory`. */
module StoreForward {
  import opened Basics

  /** What one call of the `sendFn` callback does. */
  datatype Answer = Accepted | Refused | Threw

  /** What reading and parsing the storage key yields. */
  datatype Stored<P> = Absent | Unreadable | NotAnArray | Saved(items: seq<P>)

  /** The queue's memory (`items`, `overflow`) and its storage: the image on disk and the
      snapshots handed to `setItem` that have not settled yet, oldest first. */
  datatype Store<P> = Store(items: seq<P>, overflow: int, durable: seq<P>, pending: seq<seq<P>>)

  /** `answers(i)` is the outcome of the i-th call of `sendFn` during that flush. A crash loses the
      memory and the unsettled writes; the next start finds the image `readable` or not. */
  datatype Op<P> =
    | Enqueue(payload: P)
    | Flush(answers: nat -> Answer, limit: int)
    | Settle(ok: bool)
    | Crash(readable: bool)

  /** The number of payloads a flush hands over: the longest run of accepted calls that the depth
      and the limit allow. The postconditions admit no other number. */
  function Taken(answers: nat -> Answer, depth: nat, limit: int, from: nat := 0): (n: nat)
    requires from <= depth
    ensures from <= n <= depth
    ensures n <= Max(from, limit)
    ensures forall i :: from <= i < n ==> answers(i) == Accepted
    ensures n == depth || n >= limit || answers(n) != Accepted
    decreases depth - from
  {
    if from < depth && from < limit && answers(from) == Accepted then
      Taken(answers, depth, limit, from + 1)
    else from
  }

  lemma TakenIsUnique(answers: nat -> Answer, depth: nat, limit: int, n: nat)
    requires n <= depth && n <= Max(0, limit)
    requires forall i :: 0 <= i < n ==> answers(i) == Accepted
    requires n == depth || n >= limit || answers(n) != Accepted
    ensures Taken(answers, depth, limit) == n
  {
  }

  /** Whether the flush ends by `sendFn` throwing. */
  predicate Interrupted(answers: nat -> Answer, depth: nat, limit: int) {
    var n := Taken(answers, depth, limit);
    n < depth && n < limit && answers(n) == Threw
  }

  /** What `overflowCount` grows by when a push has made the queue `depth` long. */
  function Overflow(depth: nat, maxItems: int): nat {
    Max(0, depth - maxItems)
  }

  /** How many payloads that push really evicts: `slice` cannot remove more than there are. */
  function Evictions(depth: nat, maxItems: int): (n: nat)
    ensures n <= depth
    ensures depth - n == Min(depth, Max(0, maxItems))
  {
    Min(depth, Overflow(depth, maxItems))
  }

  function Step<P>(s: Store<P>, op: Op<P>, maxItems: int): Store<P> {
    match op
    case Enqueue(p) =>
      var pushed := s.items + [p];
      var kept := pushed[Evictions(|pushed|, maxItems)..];
      s.(items := kept, overflow := s.overflow + Overflow(|pushed|, maxItems), pending := s.pending + [kept])
    case Flush(answers, limit) =>
      var rest := s.items[Taken(answers, |s.items|, limit)..];
      s.(items := rest,
         pending := if Interrupted(answers, |s.items|, limit) then s.pending else s.pending + [rest])
    case Settle(ok) =>
      if s.pending == [] then s
      else s.(durable := if ok then s.pending[0] else s.durable, pending := s.pending[1..])
    case Crash(readable) =>
      Store(if readable then s.durable else [], 0, s.durable, [])
  }

  /** The queue's items once the storage read has come back: an image that cannot be read or parsed
      gives the empty queue, a missing one or one that is not an array changes nothing. */
  function Loaded<P>(items: seq<P>, read: Stored<P>): seq<P> {
    match read
    case Saved(saved) => saved
    case Unreadable => []
    case Absent => items
    case NotAnArray => items
  }

  /** A new queue over the image on disk that loads it is the queue a crash leaves behind: with the image
      when it can be read, empty when it cannot. */
  lemma RestartIsCrash<P>(s: Store<P>, maxItems: int)
    ensures var blank := Store([], 0, s.durable, []);
      && blank.(items := Loaded([], Saved(s.durable))) == Step(s, Crash(true), maxItems)
      && blank.(items := Loaded([], Unreadable)) == Step(s, Crash(false), maxItems)
      && Step(s, Crash(true), maxItems).items == s.durable && Step(s, Crash(false), maxItems).items == []
  {
  }

  /** What an enqueue leaves, in plain terms: the newest payloads that fit, with the new one last, the excess
      counted, and one image of them issued. */
  lemma EnqueueKeeps<P>(s: Store<P>, payload: P, maxItems: int)
    ensures var s' := Step(s, Enqueue(payload), maxItems); var pushed := s.items + [payload];
      && |s'.items| <= |pushed|
      && |s'.items| == (if |pushed| <= maxItems then |pushed| else if maxItems > 0 then maxItems else 0)
      && s'.items == pushed[|pushed| - |s'.items|..]
      && s'.overflow == s.overflow + (if |pushed| > maxItems then |pushed| - maxItems else 0)
      && s'.durable == s.durable && s'.pending == s.pending + [s'.items]
  {
  }

  /** What a flush leaves: some payloads are gone off the front, all accepted, and the depth, the limit or
      an answer stopped it there; one image of the rest is issued unless that answer was a throw. */
  lemma FlushTakes<P>(s: Store<P>, answers: nat -> Answer, limit: int, maxItems: int)
    ensures var s' := Step(s, Flush(answers, limit), maxItems); var sent := Taken(answers, |s.items|, limit);
      var stopped := sent < |s.items| && sent < limit;
      && (sent == 0 || sent <= limit) && s'.items == s.items[sent..]
      && (forall i :: 0 <= i < sent ==> answers(i) == Accepted)
      && (stopped ==> answers(sent) != Accepted)
      && (Interrupted(answers, |s.items|, limit) <==> stopped && answers(sent) == Threw)
      && s'.overflow == s.overflow && s'.durable == s.durable
      && s'.pending == (if stopped && answers(sent) == Threw then s.pending else s.pending + [s'.items])
  {
  }

  datatype FlushResult = Busy(remaining: nat) | Done(sent: nat) | Aborted(sent: nat)

  class StoreForwardQueue<P> {
    const maxItems: int
    var items: seq<P>
    var loaded: bool
    var flushing: bool
    var overflowCount: int

    // The storage side of the queue's key.
    var durable: seq<P>
    var pending: seq<seq<P>>

    function View(): Store<P>
      reads this
    {
      Store(items, overflowCount, durable, pending)
    }

    /** A queue over a storage key that holds `image`: also what a restart after a crash begins with. */
    constructor (maxItems: int, image: seq<P>)
      ensures this.maxItems == maxItems && !loaded && !flushing
      ensures View() == Store([], 0, image, [])
    {
      this.maxItems := maxItems;
      items, loaded, flushing, overflowCount := [], false, false, 0;
      durable, pending := image, [];
    }

    /** The queue as the next operation finds it, given what a first read would yield. */
    function Ready(read: Stored<P>): Store<P>
      reads this
    {
      if loaded then View() else View().(items := Loaded(items, read))
    }

    /** Loads once; later calls change nothing. */
    method Init(read: Stored<P>) returns (depth: nat)
      modifies this
      ensures loaded && flushing == old(flushing) && depth == |items|
      ensures View() == old(Ready(read))
      ensures old(loaded) ==> items == old(items)
      ensures !old(loaded) && read.Saved? ==> items == read.items
      ensures !old(loaded) && read.Unreadable? ==> items == []
      ensures !old(loaded) && (read.Absent? || read.NotAnArray?) ==> items == old(items)
      ensures overflowCount == old(overflowCount) && durable == old(durable) && pending == old(pending)
    {
      if loaded {
        return |items|;
      }
      match read {
        case Saved(saved) => items := saved;
        case Unreadable => items := [];
        case Absent | NotAnArray =>
      }
      loaded := true;
      depth := |items|;
    }

    /** `depth()`. Callers of `enqueue`, and of a `flush` that is not turned away, get this number too,
        read when the write issued by the call has settled. */
    method Depth() returns (depth: nat)
      ensures depth == |items|
    {
      depth := |items|;
    }

    method Enqueue(payload: P, read: Stored<P>)
      modifies this
      ensures loaded && flushing == old(flushing)
      ensures View() == Step(old(Ready(read)), Op.Enqueue(payload), maxItems)
    {
      if !loaded {
        var _ := Init(read);
      }
      ghost var ready := View();
      items := items + [payload];
      if |items| > maxItems {
        var dropped := |items| - maxItems;
        overflowCount := overflowCount + dropped;
        items := items[Min(dropped, |items|)..];
      }
      assert items == (ready.items + [payload])[Evictions(|ready.items| + 1, maxItems)..];
      Persist();
    }

    /** The accepted payloads are the `sent` oldest ones, in order; a throwing callback ends the
        flush without a write. */
    method Flush(answers: nat -> Answer, limit: int, read: Stored<P>) returns (r: FlushResult)
      modifies this
      ensures flushing == old(flushing)
      ensures r.Busy? <==> old(flushing)
      ensures r.Busy? ==> View() == old(View()) && loaded == old(loaded) && r.remaining == |items|
      ensures !r.Busy? ==>
        var before := old(Ready(read));
        && loaded
        && View() == Step(before, Op.Flush(answers, limit), maxItems)
        && r.sent == Taken(answers, |before.items|, limit)
        && (r.Aborted? <==> Interrupted(answers, |before.items|, limit))
    {
      if flushing {
        return Busy(|items|);
      }
      if !loaded {
        var _ := Init(read);
      }
      flushing := true;
      var sent, threw := HandOver(answers, limit);
      flushing := false;
      if threw {
        return Aborted(sent);
      }
      Persist();
      r := Done(sent);
    }

    /** The loop of `Flush`: shifts payloads out as long as `sendFn` accepts them. */
    method HandOver(answers: nat -> Answer, limit: int) returns (sent: nat, threw: bool)
      modifies this`items
      ensures sent == Taken(answers, |old(items)|, limit)
      ensures items == old(items)[sent..]
      ensures threw == Interrupted(answers, |old(items)|, limit)
    {
      ghost var start := items;
      sent, threw := 0, false;
      while |items| > 0 && sent < limit
        invariant sent <= |start| && items == start[sent..] && !threw
        invariant sent <= Max(0, limit)
        invariant forall i :: 0 <= i < sent ==> answers(i) == Accepted
        decreases |items|
      {
        var answer := answers(sent);
        if answer != Accepted {
          threw := answer == Threw;
          break;
        }
        items := items[1..];
        sent := sent + 1;
      }
      TakenIsUnique(answers, |start|, limit, sent);
    }

    /** Hands a snapshot of the queue to `setItem`. */
    method Persist()
      modifies this`pending
      ensures pending == old(pending) + [items]
    {
      pending := pending + [items];
    }

    /** The oldest write settles, successfully or not. */
    method SettleWrite(ok: bool)
      modifies this`pending, this`durable
      ensures View() == Step(old(View()), Settle(ok), maxItems)
      ensures old(pending) == [] ==> pending == [] && durable == old(durable)
      ensures old(pending) != [] ==>
        pending == old(pending)[1..] && durable == if ok then old(pending)[0] else old(durable)
    {
      if pending != [] {
        if ok {
          durable := pending[0];
        }
        pending := pending[1..];
      }
    }
  }
}
