/** The queue over crashes and restarts: what is on disk at any moment, what a restart brings back, and
    the books over any number of lives. */
module QueueRecovery {
  import opened Basics
  import opened StoreForward
  import opened QueueHistory

  /** The part `history[lo..hi]` of a history. */
  datatype Window = Window(lo: nat, hi: nat)

  predicate Before(v: Window, w: Window) { v.lo <= w.lo && v.hi <= w.hi }

  /** An observer of a run. `history` lists the payloads the queue has held, oldest first, of which
      the first `removed` have left; each image is remembered as a window of it. A crash rolls the
      history back to what was on disk: `replayed` are the payloads that come back although they
      had left, `lost` the ones that do not come back although they had not. */
  datatype Trace<P> = Trace(
    history: seq<P>, removed: nat, saved: Window, inflight: seq<Window>,
    lastWriteOk: bool, unsaved: bool,
    entered: seq<P>, sent: seq<P>, evicted: seq<P>, replayed: seq<P>, lost: seq<P>)

  predicate Shows<P(==)>(w: Window, image: seq<P>, history: seq<P>) {
    w.lo <= w.hi <= |history| && image == history[w.lo..w.hi]
  }

  /** The latest image issued: in flight, or else on disk. */
  function Newest<P>(t: Trace<P>): Window {
    if t.inflight == [] then t.saved else t.inflight[|t.inflight| - 1]
  }

  /** Every image is a contiguous window of the history, and the queue is its tail. */
  ghost predicate Showing<P>(t: Trace<P>, s: Store<P>) {
    && t.removed <= |t.history|
    && s.items == t.history[t.removed..]
    && Shows(t.saved, s.durable, t.history)
    && |s.pending| == |t.inflight|
    && forall i :: 0 <= i < |t.inflight| ==> Shows(t.inflight[i], s.pending[i], t.history)
  }

  /** Later images only lie further on; the newest one is the queue itself, unless its write failed
      or something has left unsaved. */
  ghost predicate InOrder<P>(t: Trace<P>) {
    && Before(t.saved, Window(t.removed, |t.history|))
    && (forall i :: 0 <= i < |t.inflight| ==>
          Before(t.saved, t.inflight[i]) && Before(t.inflight[i], Window(t.removed, |t.history|)))
    && (forall i, j :: 0 <= i < j < |t.inflight| ==> Before(t.inflight[i], t.inflight[j]))
    && (!t.unsaved && (t.lastWriteOk || t.inflight != []) ==> Newest(t) == Window(t.removed, |t.history|))
    && (t.unsaved ==> Newest(t).lo < t.removed)
    && (t.lastWriteOk || t.inflight != [] ==> Newest(t).hi == |t.history|)
  }

  ghost predicate Tracks<P>(t: Trace<P>, s: Store<P>) { Showing(t, s) && InOrder(t) }

  ghost function Count<P>(payloads: seq<P>, p: P): nat { multiset(payloads)[p] }

  lemma CountConcat<P>(a: seq<P>, b: seq<P>, p: P)
    ensures Count(a + b, p) == Count(a, p) + Count(b, p)
  {
  }

  lemma Split<P>(a: seq<P>, k: nat, p: P)
    requires k <= |a|
    ensures Count(a, p) == Count(a[..k], p) + Count(a[k..], p)
  {
    assert a == a[..k] + a[k..];
  }

  /** Nothing is counted twice and nothing goes missing. */
  ghost predicate Balanced<P(!new)>(t: Trace<P>, s: Store<P>, loaded: seq<P>) {
    Even(loaded, t.entered, t.replayed, s.items, t.sent, t.evicted, t.lost)
  }

  ghost predicate Even<P(!new)>(
      loaded: seq<P>, entered: seq<P>, replayed: seq<P>,
      queued: seq<P>, sent: seq<P>, evicted: seq<P>, lost: seq<P>)
  {
    forall p: P {:trigger Count(queued, p)} ::
      Count(loaded, p) + Count(entered, p) + Count(replayed, p)
        == Count(queued, p) + Count(sent, p) + Count(evicted, p) + Count(lost, p)
  }

  /** The operation takes something out of the queue without handing a new image to the storage: a
      flush that `sendFn` ends by throwing after it has accepted something, or a start that cannot
      read the image on disk. */
  predicate LeavesUnsaved<P>(s: Store<P>, op: Op<P>) {
    match op
    case Flush(answers, limit) => Interrupted(answers, |s.items|, limit) && Taken(answers, |s.items|, limit) > 0
    case Crash(readable) => !readable && s.durable != []
    case Enqueue(_) => false
    case Settle(_) => false
  }

  /** The operation makes the newest image the queue itself: an enqueue, a flush that completes, or a
      start with what is on disk. */
  predicate Syncs<P>(s: Store<P>, op: Op<P>) {
    match op
    case Flush(answers, limit) => !Interrupted(answers, |s.items|, limit)
    case Crash(readable) => readable || s.durable == []
    case Enqueue(_) => true
    case Settle(_) => false
  }

  predicate UnsavedAfter<P>(t: Trace<P>, s: Store<P>, op: Op<P>) {
    LeavesUnsaved(s, op) || (t.unsaved && !Syncs(s, op))
  }

  function TraceStep<P>(t: Trace<P>, s: Store<P>, op: Op<P>, maxItems: int): Trace<P>
    requires Tracks(t, s)
  {
    match op
    case Enqueue(p) =>
      var out := Evictions(|s.items| + 1, maxItems);
      var history := t.history + [p];
      t.(history := history, removed := t.removed + out,
         inflight := t.inflight + [Window(t.removed + out, |history|)], unsaved := UnsavedAfter(t, s, op),
         entered := t.entered + [p], evicted := t.evicted + (s.items + [p])[..out])
    case Flush(answers, limit) =>
      var out := Taken(answers, |s.items|, limit);
      var threw := Interrupted(answers, |s.items|, limit);
      t.(removed := t.removed + out,
         inflight := if threw then t.inflight else t.inflight + [Window(t.removed + out, |t.history|)],
         unsaved := UnsavedAfter(t, s, op),
         sent := t.sent + s.items[..out])
    case Settle(ok) =>
      if t.inflight == [] then t
      else t.(saved := if ok then t.inflight[0] else t.saved, inflight := t.inflight[1..], lastWriteOk := ok)
    case Crash(readable) =>
      var back := t.history[..t.saved.hi];
      t.(history := back, removed := if readable then t.saved.lo else t.saved.hi, inflight := [],
         lastWriteOk := true, unsaved := UnsavedAfter(t, s, op),
         replayed := t.replayed +
           (if readable then t.history[t.saved.lo..Min(t.removed, t.saved.hi)] else []),
         lost := t.lost +
           (if readable then t.history[Max(t.removed, t.saved.hi)..] else s.items))
  }

  lemma StepTracks<P>(t: Trace<P>, s: Store<P>, op: Op<P>, maxItems: int)
    requires Tracks(t, s)
    ensures Tracks(TraceStep(t, s, op, maxItems), Step(s, op, maxItems))
  {
    match op {
      case Enqueue(p) => PushTracks(t, s, op, maxItems);
      case Flush(answers, limit) => FlushTracks(t, s, op, maxItems);
      case Settle(_) =>
      case Crash(_) =>
    }
  }

  lemma PushTracks<P>(t: Trace<P>, s: Store<P>, op: Op<P>, maxItems: int)
    requires Tracks(t, s) && op.Enqueue?
    ensures Tracks(TraceStep(t, s, op, maxItems), Step(s, op, maxItems))
  {
    var t', s' := TraceStep(t, s, op, maxItems), Step(s, op, maxItems);
    assert Showing(t', s') by {
      assert s'.items == t'.history[t'.removed..];
      assert Shows(t'.saved, s'.durable, t'.history);
      forall i | 0 <= i < |t.inflight| ensures Shows(t'.inflight[i], s'.pending[i], t'.history) {
        assert Shows(t.inflight[i], s.pending[i], t.history);
      }
    }
    Advance(t, t', Window(t'.removed, |t'.history|));
  }

  lemma FlushTracks<P>(t: Trace<P>, s: Store<P>, op: Op<P>, maxItems: int)
    requires Tracks(t, s) && op.Flush?
    ensures Tracks(TraceStep(t, s, op, maxItems), Step(s, op, maxItems))
  {
    var t' := TraceStep(t, s, op, maxItems);
    FlushShows(t, s, op, maxItems);
    if t'.inflight != t.inflight {
      Advance(t, t', Window(t'.removed, |t'.history|));
    }
  }

  lemma FlushShows<P>(t: Trace<P>, s: Store<P>, op: Op<P>, maxItems: int)
    requires Tracks(t, s) && op.Flush?
    ensures Showing(TraceStep(t, s, op, maxItems), Step(s, op, maxItems))
  {
    var t', s' := TraceStep(t, s, op, maxItems), Step(s, op, maxItems);
    assert s'.items == t'.history[t'.removed..];
    forall i | 0 <= i < |t.inflight| ensures Shows(t'.inflight[i], s'.pending[i], t'.history) {
      assert Shows(t.inflight[i], s.pending[i], t.history);
    }
  }

  /** Issuing an image of a queue that has only moved forward keeps the order. */
  lemma Advance<P>(t: Trace<P>, t': Trace<P>, w: Window)
    requires InOrder(t) && w == Window(t'.removed, |t'.history|)
    requires t'.saved == t.saved && t'.inflight == t.inflight + [w]
    requires t.removed <= t'.removed && |t.history| <= |t'.history| && !t'.unsaved
    ensures InOrder(t')
  {
  }

  /** A run and its observer, from a state the observer tracks. */
  function TraceRun<P>(t: Trace<P>, s: Store<P>, ops: seq<Op<P>>, maxItems: int): Trace<P>
    requires Tracks(t, s)
    decreases |ops|
  {
    if ops == [] then t
    else
      StepTracks(t, s, ops[0], maxItems);
      TraceRun(TraceStep(t, s, ops[0], maxItems), Step(s, ops[0], maxItems), ops[1..], maxItems)
  }

  /** A queue that has just loaded `image` from its storage. */
  function Start<P>(image: seq<P>): Store<P> { Store(image, 0, image, []) }

  function StartTrace<P>(image: seq<P>): Trace<P> {
    Trace(image, 0, Window(0, |image|), [], true, false, [], [], [], [], [])
  }

  lemma {:induction false} RunTracks<P>(t: Trace<P>, s: Store<P>, ops: seq<Op<P>>, maxItems: int)
    requires Tracks(t, s)
    ensures Tracks(TraceRun(t, s, ops, maxItems), Run(s, ops, maxItems))
    decreases |ops|
  {
    if ops != [] {
      StepTracks(t, s, ops[0], maxItems);
      RunTracks(TraceStep(t, s, ops[0], maxItems), Step(s, ops[0], maxItems), ops[1..], maxItems);
    }
  }

  lemma EvenAfterPush<P(!new)>(
      l: seq<P>, e: seq<P>, r: seq<P>, q: seq<P>, s: seq<P>, v: seq<P>, x: seq<P>, p: P, k: nat)
    requires Even(l, e, r, q, s, v, x) && k <= |q| + 1
    ensures Even(l, e + [p], r, (q + [p])[k..], s, v + (q + [p])[..k], x)
  {
    forall y: P
      ensures Count((q + [p])[k..], y) + Count(v + (q + [p])[..k], y) == Count(q, y) + Count(v, y) + Count([p], y)
    {
      Split(q + [p], k, y);
      CountConcat(q, [p], y);
      CountConcat(v, (q + [p])[..k], y);
    }
    forall y: P ensures Count(e + [p], y) == Count(e, y) + Count([p], y) {
      CountConcat(e, [p], y);
    }
  }

  lemma EvenAfterFlush<P(!new)>(
      l: seq<P>, e: seq<P>, r: seq<P>, q: seq<P>, s: seq<P>, v: seq<P>, x: seq<P>, k: nat)
    requires Even(l, e, r, q, s, v, x) && k <= |q|
    ensures Even(l, e, r, q[k..], s + q[..k], v, x)
  {
    forall y: P ensures Count(q[k..], y) + Count(s + q[..k], y) == Count(q, y) + Count(s, y) {
      Split(q, k, y);
      CountConcat(s, q[..k], y);
    }
  }

  lemma EvenAfterCrash<P(!new)>(
      l: seq<P>, e: seq<P>, r: seq<P>, q: seq<P>, s: seq<P>, v: seq<P>, x: seq<P>, back: seq<P>, n: nat, m: nat)
    requires Even(l, e, r, q, s, v, x)
    requires n <= |back| && m <= |q| && back[n..] == q[..m]
    ensures Even(l, e, r + back[..n], back, s, v, x + q[m..])
  {
    forall y: P
      ensures Count(r + back[..n], y) + Count(q, y) + Count(x, y)
        == Count(r, y) + Count(back, y) + Count(x + q[m..], y)
    {
      Split(q, m, y);
      Split(back, n, y);
      CountConcat(r, back[..n], y);
      CountConcat(x, q[m..], y);
    }
  }

  lemma StepBalances<P(!new)>(t: Trace<P>, s: Store<P>, op: Op<P>, maxItems: int, loaded: seq<P>)
    requires Tracks(t, s) && Balanced(t, s, loaded)
    ensures Balanced(TraceStep(t, s, op, maxItems), Step(s, op, maxItems), loaded)
  {
    match op {
      case Enqueue(p) =>
        EvenAfterPush(loaded, t.entered, t.replayed, s.items, t.sent, t.evicted, t.lost, p,
                      Evictions(|s.items| + 1, maxItems));
      case Flush(answers, limit) =>
        EvenAfterFlush(loaded, t.entered, t.replayed, s.items, t.sent, t.evicted, t.lost,
                       Taken(answers, |s.items|, limit));
      case Settle(_) =>
      case Crash(readable) => CrashBalances(t, s, readable, maxItems, loaded);
    }
  }

  lemma CrashBalances<P(!new)>(t: Trace<P>, s: Store<P>, readable: bool, maxItems: int, loaded: seq<P>)
    requires Tracks(t, s) && Balanced(t, s, loaded)
    ensures Balanced(TraceStep(t, s, Crash(readable), maxItems), Step(s, Crash(readable), maxItems), loaded)
  {
    var t', s' := TraceStep(t, s, Crash(readable), maxItems), Step(s, Crash(readable), maxItems);
    CrashAccounts(t, s, readable, maxItems);
    EvenTransfers(loaded, t, t', s.items, s'.items, if readable then Repeats(t) else 0);
  }

  lemma EvenTransfers<P(!new)>(
      loaded: seq<P>, t: Trace<P>, t': Trace<P>, queued: seq<P>, back: seq<P>, n: nat)
    requires Even(loaded, t.entered, t.replayed, queued, t.sent, t.evicted, t.lost)
    requires n <= |back| && |back| - n <= |queued| && back[n..] == queued[..|back| - n]
    requires t'.lost == t.lost + queued[|back| - n..] && t'.replayed == t.replayed + back[..n]
    requires (t'.entered, t'.sent, t'.evicted) == (t.entered, t.sent, t.evicted)
    ensures Even(loaded, t'.entered, t'.replayed, back, t'.sent, t'.evicted, t'.lost)
  {
    EvenAfterCrash(loaded, t.entered, t.replayed, queued, t.sent, t.evicted, t.lost, back, n, |back| - n);
  }

  lemma CrashAccounts<P>(t: Trace<P>, s: Store<P>, readable: bool, maxItems: int)
    requires Tracks(t, s)
    ensures var t' := TraceStep(t, s, Crash(readable), maxItems); var back := Step(s, Crash(readable), maxItems).items;
      var n := if readable then Repeats(t) else 0; var m := |back| - n;
      && 0 <= m <= |s.items| && back[n..] == s.items[..m]
      && t'.lost == t.lost + s.items[m..] && t'.replayed == t.replayed + back[..n]
      && (t'.entered, t'.sent, t'.evicted) == (t.entered, t.sent, t.evicted)
  {
    if readable {
      CrashRecovery(t, s, maxItems);
    }
  }

  /** No payload is ever dropped silently or duplicated silently, over any run with any number of
      crashes: what was loaded, enqueued or replayed is sent, evicted, lost or still queued. */
  lemma {:induction false} RunBalances<P(!new)>(
      t: Trace<P>, s: Store<P>, ops: seq<Op<P>>, maxItems: int, loaded: seq<P>)
    requires Tracks(t, s) && Balanced(t, s, loaded)
    ensures Balanced(TraceRun(t, s, ops, maxItems), Run(s, ops, maxItems), loaded)
    decreases |ops|
  {
    if ops != [] {
      StepTracks(t, s, ops[0], maxItems);
      StepBalances(t, s, ops[0], maxItems, loaded);
      RunBalances(TraceStep(t, s, ops[0], maxItems), Step(s, ops[0], maxItems), ops[1..], maxItems, loaded);
    }
  }

  /** How many payloads of the image on disk have already left the queue. */
  function Repeats<P>(t: Trace<P>): nat { Max(0, Min(t.removed, t.saved.hi) - t.saved.lo) }

  /** What a crash now would bring back: the payloads that will be repeated first, all of them
      among those that have left, then exactly the oldest part of the present queue, in order, as
      far as the image reaches. Nothing in between is skipped. */
  lemma CrashRecovery<P>(t: Trace<P>, s: Store<P>, maxItems: int)
    requires Tracks(t, s)
    ensures var back := Step(s, Crash(true), maxItems); var n := Repeats(t); var m := |s.durable| - n;
      && back.items == s.durable && back.pending == []
      && 0 <= m <= |s.items|
      && back.items[..n] == t.history[t.saved.lo..t.saved.lo + n] && t.saved.lo + n <= Max(t.saved.lo, t.removed)
      && back.items[n..] == s.items[..m]
    ensures s.pending == [] && t.lastWriteOk ==> (Step(s, Crash(true), maxItems).items == s.items <==> !t.unsaved)
  {
  }

  // ---------------------------------------------------------------- when a restart is exact

  predicate LeavesUnsavedAt<P>(s: Store<P>, ops: seq<Op<P>>, i: nat, maxItems: int) {
    i < |ops| && LeavesUnsaved(Run(s, ops[..i], maxItems), ops[i])
  }

  predicate SyncsAt<P>(s: Store<P>, ops: seq<Op<P>>, i: nat, maxItems: int) {
    i < |ops| && Syncs(Run(s, ops[..i], maxItems), ops[i])
  }

  ghost predicate NoSyncFrom<P>(s: Store<P>, ops: seq<Op<P>>, from: nat, maxItems: int) {
    forall j: nat :: from <= j ==> !SyncsAt(s, ops, j, maxItems)
  }

  /** Some operation took something out unsaved and no later one has saved the queue since. */
  ghost predicate LeftUnsaved<P>(s: Store<P>, ops: seq<Op<P>>, maxItems: int) {
    exists i: nat :: LeavesUnsavedAt(s, ops, i, maxItems) && NoSyncFrom(s, ops, i + 1, maxItems)
  }

  predicate SettlesAt<P>(s: Store<P>, ops: seq<Op<P>>, i: nat, ok: bool, maxItems: int) {
    i < |ops| && ops[i] == Settle(ok) && Run(s, ops[..i], maxItems).pending != []
  }

  predicate CrashesAt<P>(ops: seq<Op<P>>, i: nat) { i < |ops| && ops[i].Crash? }

  /** The last write to settle since the last start, if there was one, failed. */
  ghost predicate LastWriteFailed<P>(s: Store<P>, ops: seq<Op<P>>, maxItems: int) {
    exists i: nat :: SettlesAt(s, ops, i, false, maxItems) && NoVerdictFrom(s, ops, i + 1, maxItems)
  }

  ghost predicate NoVerdictFrom<P>(s: Store<P>, ops: seq<Op<P>>, from: nat, maxItems: int) {
    forall j: nat :: from <= j ==> !SettlesAt(s, ops, j, true, maxItems) && !CrashesAt(ops, j)
  }

  lemma Shifted<P>(s: Store<P>, ops: seq<Op<P>>, i: nat, maxItems: int)
    requires ops != []
    ensures var s', rest := Step(s, ops[0], maxItems), ops[1..];
      && (SyncsAt(s, ops, i + 1, maxItems) <==> SyncsAt(s', rest, i, maxItems))
      && (LeavesUnsavedAt(s, ops, i + 1, maxItems) <==> LeavesUnsavedAt(s', rest, i, maxItems))
      && (SettlesAt(s, ops, i + 1, true, maxItems) <==> SettlesAt(s', rest, i, true, maxItems))
      && (SettlesAt(s, ops, i + 1, false, maxItems) <==> SettlesAt(s', rest, i, false, maxItems))
      && (CrashesAt(ops, i + 1) <==> CrashesAt(rest, i))
  {
    if i + 1 < |ops| {
      assert ops[..i + 1][1..] == ops[1..][..i];
    }
  }

  lemma ShiftedFrom<P>(s: Store<P>, ops: seq<Op<P>>, from: nat, maxItems: int)
    requires ops != []
    ensures NoSyncFrom(s, ops, from + 1, maxItems) <==> NoSyncFrom(Step(s, ops[0], maxItems), ops[1..], from, maxItems)
    ensures NoVerdictFrom(s, ops, from + 1, maxItems)
      <==> NoVerdictFrom(Step(s, ops[0], maxItems), ops[1..], from, maxItems)
  {
    var s', rest := Step(s, ops[0], maxItems), ops[1..];
    if NoSyncFrom(s, ops, from + 1, maxItems) {
      forall j: nat | from <= j ensures !SyncsAt(s', rest, j, maxItems) {
        Shifted(s, ops, j, maxItems);
      }
    }
    if NoSyncFrom(s', rest, from, maxItems) {
      forall j: nat | from + 1 <= j ensures !SyncsAt(s, ops, j, maxItems) {
        Shifted(s, ops, j - 1, maxItems);
      }
    }
    if NoVerdictFrom(s, ops, from + 1, maxItems) {
      forall j: nat | from <= j ensures !SettlesAt(s', rest, j, true, maxItems) && !CrashesAt(rest, j) {
        Shifted(s, ops, j, maxItems);
      }
    }
    if NoVerdictFrom(s', rest, from, maxItems) {
      forall j: nat | from + 1 <= j ensures !SettlesAt(s, ops, j, true, maxItems) && !CrashesAt(ops, j) {
        Shifted(s, ops, j - 1, maxItems);
      }
    }
  }

  /** The first operation either leaves something unsaved for good or the rest decides. */
  lemma LeftUnsavedCons<P>(s: Store<P>, ops: seq<Op<P>>, maxItems: int)
    requires ops != []
    ensures var s', rest := Step(s, ops[0], maxItems), ops[1..];
      LeftUnsaved(s, ops, maxItems)
      <==> ((LeavesUnsaved(s, ops[0]) && NoSyncFrom(s', rest, 0, maxItems)) || LeftUnsaved(s', rest, maxItems))
  {
    var s', rest := Step(s, ops[0], maxItems), ops[1..];
    assert LeavesUnsavedAt(s, ops, 0, maxItems) <==> LeavesUnsaved(s, ops[0]);
    ShiftedFrom(s, ops, 0, maxItems);
    if LeavesUnsavedAt(s, ops, 0, maxItems) && NoSyncFrom(s', rest, 0, maxItems) {
      assert NoSyncFrom(s, ops, 0 + 1, maxItems);
    }
    if LeftUnsaved(s, ops, maxItems) {
      var i: nat :| LeavesUnsavedAt(s, ops, i, maxItems) && NoSyncFrom(s, ops, i + 1, maxItems);
      if i > 0 {
        Shifted(s, ops, i - 1, maxItems);
        ShiftedFrom(s, ops, i, maxItems);
        assert NoSyncFrom(s', rest, (i - 1) + 1, maxItems);
      }
    }
    if LeftUnsaved(s', rest, maxItems) {
      var i: nat :| LeavesUnsavedAt(s', rest, i, maxItems) && NoSyncFrom(s', rest, i + 1, maxItems);
      Shifted(s, ops, i, maxItems);
      ShiftedFrom(s, ops, i + 1, maxItems);
      assert LeavesUnsavedAt(s, ops, i + 1, maxItems);
    }
  }

  lemma LastWriteFailedCons<P>(s: Store<P>, ops: seq<Op<P>>, maxItems: int)
    requires ops != []
    ensures var s', rest := Step(s, ops[0], maxItems), ops[1..];
      LastWriteFailed(s, ops, maxItems)
      <==> ((ops[0] == Settle(false) && s.pending != [] && NoVerdictFrom(s', rest, 0, maxItems))
            || LastWriteFailed(s', rest, maxItems))
  {
    var s', rest := Step(s, ops[0], maxItems), ops[1..];
    assert SettlesAt(s, ops, 0, false, maxItems) <==> ops[0] == Settle(false) && s.pending != [];
    ShiftedFrom(s, ops, 0, maxItems);
    if SettlesAt(s, ops, 0, false, maxItems) && NoVerdictFrom(s', rest, 0, maxItems) {
      assert NoVerdictFrom(s, ops, 0 + 1, maxItems);
    }
    if LastWriteFailed(s, ops, maxItems) {
      var i: nat :| SettlesAt(s, ops, i, false, maxItems) && NoVerdictFrom(s, ops, i + 1, maxItems);
      if i > 0 {
        Shifted(s, ops, i - 1, maxItems);
        ShiftedFrom(s, ops, i, maxItems);
        assert SettlesAt(s', rest, i - 1, false, maxItems) && NoVerdictFrom(s', rest, (i - 1) + 1, maxItems);
      }
    }
    if LastWriteFailed(s', rest, maxItems) {
      var i: nat :| SettlesAt(s', rest, i, false, maxItems) && NoVerdictFrom(s', rest, i + 1, maxItems);
      Shifted(s, ops, i, maxItems);
      ShiftedFrom(s, ops, i + 1, maxItems);
      assert SettlesAt(s, ops, i + 1, false, maxItems);
    }
  }

  lemma NoSyncSplit<P>(s: Store<P>, ops: seq<Op<P>>, maxItems: int)
    requires ops != []
    ensures NoSyncFrom(s, ops, 0, maxItems)
      <==> !Syncs(s, ops[0]) && NoSyncFrom(Step(s, ops[0], maxItems), ops[1..], 0, maxItems)
    ensures NoVerdictFrom(s, ops, 0, maxItems) <==>
      && !(ops[0] == Settle(true) && s.pending != []) && !ops[0].Crash?
      && NoVerdictFrom(Step(s, ops[0], maxItems), ops[1..], 0, maxItems)
  {
    ShiftedFrom(s, ops, 0, maxItems);
    assert SyncsAt(s, ops, 0, maxItems) <==> Syncs(s, ops[0]);
    assert SettlesAt(s, ops, 0, true, maxItems) <==> ops[0] == Settle(true) && s.pending != [];
    assert CrashesAt(ops, 0) <==> ops[0].Crash?;
  }

  /** The observer's two flags mean what the operations of the run say. */
  lemma {:induction false} FlagsFollowOps<P>(t: Trace<P>, s: Store<P>, ops: seq<Op<P>>, maxItems: int)
    requires Tracks(t, s)
    ensures var t' := TraceRun(t, s, ops, maxItems);
      && (t'.unsaved <==> LeftUnsaved(s, ops, maxItems) || (t.unsaved && NoSyncFrom(s, ops, 0, maxItems)))
      && (!t'.lastWriteOk <==>
            LastWriteFailed(s, ops, maxItems) || (!t.lastWriteOk && NoVerdictFrom(s, ops, 0, maxItems)))
    decreases |ops|
  {
    if ops != [] {
      StepTracks(t, s, ops[0], maxItems);
      FlagsFollowOps(TraceStep(t, s, ops[0], maxItems), Step(s, ops[0], maxItems), ops[1..], maxItems);
      LeftUnsavedCons(s, ops, maxItems);
      LastWriteFailedCons(s, ops, maxItems);
      NoSyncSplit(s, ops, maxItems);
    }
  }

  /** The exact condition, over every run with any number of crashes: when no write is pending and the
      last one did not fail, a restart gives back the queue in memory if and only if nothing has left
      it unsaved. */
  lemma RestartExact<P>(image: seq<P>, ops: seq<Op<P>>, maxItems: int)
    requires Run(Start(image), ops, maxItems).pending == []
    requires !LastWriteFailed(Start(image), ops, maxItems)
    ensures var end := Run(Start(image), ops, maxItems);
      Step(end, Crash(true), maxItems).items == end.items <==> !LeftUnsaved(Start(image), ops, maxItems)
  {
    RunTracks(StartTrace(image), Start(image), ops, maxItems);
    FlagsFollowOps(StartTrace(image), Start(image), ops, maxItems);
    CrashRecovery(TraceRun(StartTrace(image), Start(image), ops, maxItems), Run(Start(image), ops, maxItems), maxItems);
  }

  /** A callback that accepts one payload and then throws makes the two differ although no write is
      pending and none has failed. */
  lemma ThrowLosesTheSave<P>(a: P, b: P, maxItems: int)
    ensures var answers := (n: nat) => if n == 0 then Accepted else Threw;
      var ops := [Flush(answers, 200)]; var end := Run(Start([a, b]), ops, maxItems);
      && end.pending == [] && !LastWriteFailed(Start([a, b]), ops, maxItems)
      && end.items == [b] && Step(end, Crash(true), maxItems).items == [a, b]
  {
    var answers := (n: nat) => if n == 0 then Accepted else Threw;
    var op := Flush(answers, 200);
    TakenIsUnique(answers, 2, 200, 1);
    assert [op][1..] == [];
    assert Run(Start([a, b]), [op], maxItems) == Step(Start([a, b]), op, maxItems);
  }

  lemma StepMovesForward<P>(t: Trace<P>, s: Store<P>, op: Op<P>, maxItems: int)
    requires Tracks(t, s) && !op.Crash?
    ensures var t' := TraceStep(t, s, op, maxItems);
      && t'.history == t.history + Enqueued([op])
      && t'.removed == t.removed + |Departures(s, op, maxItems)|
      && Before(t.saved, t'.saved)
  {
  }

  /** Between crashes the history only grows and the image on disk only moves along it. */
  lemma {:induction false} ImageMovesForward<P>(t: Trace<P>, s: Store<P>, ops: seq<Op<P>>, maxItems: int)
    requires Tracks(t, s) && CrashFree(ops)
    ensures var t' := TraceRun(t, s, ops, maxItems);
      && t'.history == t.history + Enqueued(ops)
      && t'.removed == t.removed + |Log(s, ops, maxItems)|
      && Before(t.saved, t'.saved)
    decreases |ops|
  {
    if ops != [] {
      StepTracks(t, s, ops[0], maxItems);
      StepMovesForward(t, s, ops[0], maxItems);
      EnqueuedSplit(ops);
      Assoc(t.history, Enqueued([ops[0]]), Enqueued(ops[1..]));
      ImageMovesForward(TraceStep(t, s, ops[0], maxItems), Step(s, ops[0], maxItems), ops[1..], maxItems);
    }
  }

  /** One life of the queue in plain terms: at any moment the image on disk is a window of everything
      loaded and enqueued, and it starts no later than the first payload still queued, so a restart
      skips nothing that had not left. */
  lemma DurableImageIsAWindow<P>(image: seq<P>, ops: seq<Op<P>>, maxItems: int)
    requires CrashFree(ops)
    ensures var end := Run(Start(image), ops, maxItems);
      exists lo: nat, hi: nat | lo <= hi <= |image + Enqueued(ops)| ::
        && end.durable == (image + Enqueued(ops))[lo..hi]
        && lo <= |Log(Start(image), ops, maxItems)|
  {
    var t, s := StartTrace(image), Start(image);
    RunTracks(t, s, ops, maxItems);
    ImageMovesForward(t, s, ops, maxItems);
    var saved := TraceRun(t, s, ops, maxItems).saved;
    assert Run(s, ops, maxItems).durable == (image + Enqueued(ops))[saved.lo..saved.hi];
  }

  lemma StepFollowsLog<P>(t: Trace<P>, s: Store<P>, op: Op<P>, maxItems: int)
    requires Tracks(t, s)
    ensures var t' := TraceStep(t, s, op, maxItems); var out := Departures(s, op, maxItems);
      && t'.entered == t.entered + Enqueued([op])
      && t'.sent == t.sent + WithFate(out, Sent)
      && t'.evicted == t.evicted + WithFate(out, Evicted)
  {
    match op {
      case Enqueue(p) =>
        var out := (s.items + [p])[..Evictions(|s.items| + 1, maxItems)];
        WithFateOfTagged(out, Evicted, Sent);
        WithFateOfTagged(out, Evicted, Evicted);
        assert t.sent + [] == t.sent;
      case Flush(answers, limit) =>
        var out := s.items[..Taken(answers, |s.items|, limit)];
        WithFateOfTagged(out, Sent, Sent);
        WithFateOfTagged(out, Sent, Evicted);
        assert t.evicted + [] == t.evicted;
      case Settle(_) =>
      case Crash(_) =>
    }
  }

  /** The observer records what really happened: what was enqueued, sent and evicted, crashes included. */
  lemma {:induction false} TraceFollowsLog<P>(t: Trace<P>, s: Store<P>, ops: seq<Op<P>>, maxItems: int)
    requires Tracks(t, s)
    ensures var t' := TraceRun(t, s, ops, maxItems); var log := Log(s, ops, maxItems);
      && t'.entered == t.entered + Enqueued(ops)
      && t'.sent == t.sent + WithFate(log, Sent)
      && t'.evicted == t.evicted + WithFate(log, Evicted)
    decreases |ops|
  {
    if ops != [] {
      var t', s', out := TraceStep(t, s, ops[0], maxItems), Step(s, ops[0], maxItems), Departures(s, ops[0], maxItems);
      var tail := Log(s', ops[1..], maxItems);
      StepTracks(t, s, ops[0], maxItems);
      StepFollowsLog(t, s, ops[0], maxItems);
      TraceFollowsLog(t', s', ops[1..], maxItems);
      EnqueuedSplit(ops);
      WithFateConcat(out, tail, Sent);
      WithFateConcat(out, tail, Evicted);
      Assoc(t.entered, Enqueued([ops[0]]), Enqueued(ops[1..]));
      Assoc(t.sent, WithFate(out, Sent), WithFate(tail, Sent));
      Assoc(t.evicted, WithFate(out, Evicted), WithFate(tail, Evicted));
    }
  }
}
