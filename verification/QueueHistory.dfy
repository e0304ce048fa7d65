/** What the queue keeps over whole runs: what enters it leaves it or stays in it, in order. */
module QueueHistory {
  import opened Basics
  import opened StoreForward

  function Run<P>(s: Store<P>, ops: seq<Op<P>>, maxItems: int): Store<P>
    decreases |ops|
  {
    if ops == [] then s else Run(Step(s, ops[0], maxItems), ops[1..], maxItems)
  }

  predicate CrashFree<P>(ops: seq<Op<P>>) {
    forall i :: 0 <= i < |ops| ==> !ops[i].Crash?
  }

  /** The payloads of the `Enqueue` operations, in order. */
  function Enqueued<P>(ops: seq<Op<P>>): seq<P> {
    if ops == [] then []
    else (if ops[0].Enqueue? then [ops[0].payload] else []) + Enqueued(ops[1..])
  }

  // ---------------------------------------------------------------- ordered conservation

  datatype Fate = Sent | Evicted

  datatype Departure<P> = Departure(payload: P, fate: Fate)

  /** Pairs every payload with one fate. */
  function Tagged<P>(payloads: seq<P>, fate: Fate): (r: seq<Departure<P>>)
    ensures |r| == |payloads|
    ensures forall i :: 0 <= i < |r| ==> r[i] == Departure(payloads[i], fate)
  {
    seq(|payloads|, i requires 0 <= i < |payloads| => Departure(payloads[i], fate))
  }

  function Payloads<P>(log: seq<Departure<P>>): (r: seq<P>)
    ensures |r| == |log|
    ensures forall i :: 0 <= i < |r| ==> r[i] == log[i].payload
  {
    seq(|log|, i requires 0 <= i < |log| => log[i].payload)
  }

  function CountOf<P>(log: seq<Departure<P>>, fate: Fate): nat {
    if log == [] then 0 else (if log[0].fate == fate then 1 else 0) + CountOf(log[1..], fate)
  }

  /** The payloads that left with the given fate, in the order they left. */
  function WithFate<P>(log: seq<Departure<P>>, fate: Fate): seq<P> {
    if log == [] then []
    else (if log[0].fate == fate then [log[0].payload] else []) + WithFate(log[1..], fate)
  }

  /** What one operation takes out of the queue: evictions from the front after a push, the
      accepted payloads of a flush. */
  function Departures<P>(s: Store<P>, op: Op<P>, maxItems: int): seq<Departure<P>> {
    match op
    case Enqueue(p) => Tagged((s.items + [p])[..Evictions(|s.items| + 1, maxItems)], Evicted)
    case Flush(answers, limit) => Tagged(s.items[..Taken(answers, |s.items|, limit)], Sent)
    case Settle(_) => []
    case Crash(_) => []
  }

  function Log<P>(s: Store<P>, ops: seq<Op<P>>, maxItems: int): seq<Departure<P>>
    decreases |ops|
  {
    if ops == [] then []
    else Departures(s, ops[0], maxItems) + Log(Step(s, ops[0], maxItems), ops[1..], maxItems)
  }

  lemma {:induction false} CountOfConcat<P>(a: seq<Departure<P>>, b: seq<Departure<P>>, fate: Fate)
    ensures CountOf(a + b, fate) == CountOf(a, fate) + CountOf(b, fate)
  {
    if a == [] {
      assert a + b == b;
    } else {
      assert (a + b)[1..] == a[1..] + b;
      CountOfConcat(a[1..], b, fate);
    }
  }

  lemma {:induction false} CountOfTagged<P>(payloads: seq<P>, tag: Fate, fate: Fate)
    ensures CountOf(Tagged(payloads, tag), fate) == if tag == fate then |payloads| else 0
  {
    if payloads != [] {
      assert Tagged(payloads, tag)[1..] == Tagged(payloads[1..], tag);
      CountOfTagged(payloads[1..], tag, fate);
    }
  }

  lemma PayloadsConcat<P>(a: seq<Departure<P>>, b: seq<Departure<P>>)
    ensures Payloads(a + b) == Payloads(a) + Payloads(b)
  {
  }

  lemma EnqueuedSplit<P>(ops: seq<Op<P>>)
    requires ops != []
    ensures Enqueued(ops) == Enqueued([ops[0]]) + Enqueued(ops[1..])
  {
  }

  lemma StepConserves<P>(s: Store<P>, op: Op<P>, maxItems: int)
    requires !op.Crash?
    ensures s.items + Enqueued([op]) == Payloads(Departures(s, op, maxItems)) + Step(s, op, maxItems).items
  {
    if op.Enqueue? {
      assert Enqueued([op]) == [op.payload];
    }
  }

  lemma StepOverflows<P>(s: Store<P>, op: Op<P>, maxItems: int)
    requires !op.Crash?
    ensures Step(s, op, maxItems).overflow
      == s.overflow + CountOf(Departures(s, op, maxItems), Evicted) + |Enqueued([op])| * Max(0, -maxItems)
  {
    match op {
      case Enqueue(p) =>
        CountOfTagged((s.items + [p])[..Evictions(|s.items| + 1, maxItems)], Evicted, Evicted);
        assert Enqueued([op]) == [p];
      case Flush(answers, limit) =>
        CountOfTagged(s.items[..Taken(answers, |s.items|, limit)], Sent, Evicted);
      case Settle(_) =>
    }
  }

  /** Everything that was in the queue or entered it has left, in order, or is still there, in order. */
  lemma {:induction false} OrderedConservation<P>(s: Store<P>, ops: seq<Op<P>>, maxItems: int)
    requires CrashFree(ops)
    ensures s.items + Enqueued(ops) == Payloads(Log(s, ops, maxItems)) + Run(s, ops, maxItems).items
    decreases |ops|
  {
    if ops != [] {
      var next, out := Step(s, ops[0], maxItems), Departures(s, ops[0], maxItems);
      var tail := Log(next, ops[1..], maxItems);
      StepConserves(s, ops[0], maxItems);
      OrderedConservation(next, ops[1..], maxItems);
      PayloadsConcat(out, tail);
      EnqueuedSplit(ops);
      Regroup(s.items, Enqueued([ops[0]]), Enqueued(ops[1..]),
              Payloads(out), next.items, Payloads(tail), Run(next, ops[1..], maxItems).items);
    }
  }

  lemma Regroup<T>(a: seq<T>, b: seq<T>, c: seq<T>, d: seq<T>, e: seq<T>, f: seq<T>, g: seq<T>)
    requires a + b == d + e && e + c == f + g
    ensures a + (b + c) == (d + f) + g
  {
    assert a + (b + c) == (a + b) + c;
    assert (d + e) + c == d + (e + c);
    assert d + (f + g) == (d + f) + g;
  }

  lemma Distribute(a: int, b: int, c: int)
    ensures (a + b) * c == a * c + b * c
  {
  }

  /** `overflowCount` is the number of evictions as long as the capacity is not negative, and runs
      ahead of it by exactly `-maxItems` an enqueue otherwise. */
  lemma {:induction false} OverflowExactly<P>(s: Store<P>, ops: seq<Op<P>>, maxItems: int)
    requires CrashFree(ops)
    ensures Run(s, ops, maxItems).overflow
      == s.overflow + CountOf(Log(s, ops, maxItems), Evicted) + |Enqueued(ops)| * Max(0, -maxItems)
    decreases |ops|
  {
    if ops != [] {
      var next, out := Step(s, ops[0], maxItems), Departures(s, ops[0], maxItems);
      StepOverflows(s, ops[0], maxItems);
      OverflowExactly(next, ops[1..], maxItems);
      CountOfConcat(out, Log(next, ops[1..], maxItems), Evicted);
      EnqueuedSplit(ops);
      Distribute(|Enqueued([ops[0]])|, |Enqueued(ops[1..])|, Max(0, -maxItems));
    }
  }

  /** The counter tells the truth about a run exactly when the capacity is not negative or nothing
      was enqueued. */
  lemma OverflowCountIsEvictions<P>(s: Store<P>, ops: seq<Op<P>>, maxItems: int)
    requires CrashFree(ops)
    ensures Run(s, ops, maxItems).overflow == s.overflow + CountOf(Log(s, ops, maxItems), Evicted)
      <==> maxItems >= 0 || Enqueued(ops) == []
  {
    OverflowExactly(s, ops, maxItems);
    if maxItems < 0 && Enqueued(ops) != [] {
      assert |Enqueued(ops)| * (-maxItems) >= 1 * 1;
    }
  }

  /** After any enqueue the queue is within its capacity and stays there, whatever it was loaded with. */
  lemma {:induction false} CapacityHolds<P>(s: Store<P>, ops: seq<Op<P>>, maxItems: int)
    requires CrashFree(ops)
    requires |s.items| <= Max(0, maxItems) || Enqueued(ops) != []
    ensures |Run(s, ops, maxItems).items| <= Max(0, maxItems)
    decreases |ops|
  {
    if ops != [] {
      CapacityHolds(Step(s, ops[0], maxItems), ops[1..], maxItems);
    }
  }

  lemma {:induction false} WithFateIsSubsequence<P>(log: seq<Departure<P>>, fate: Fate)
    ensures IsSubsequence(WithFate(log, fate), Payloads(log))
  {
    if log != [] {
      WithFateIsSubsequence(log[1..], fate);
      assert Payloads(log)[1..] == Payloads(log[1..]);
      var tail := WithFate(log[1..], fate);
      if log[0].fate == fate {
        assert ([log[0].payload] + tail)[1..] == tail;
      } else {
        assert [] + tail == tail;
      }
    }
  }

  lemma {:induction false} WithFateConcat<P>(a: seq<Departure<P>>, b: seq<Departure<P>>, fate: Fate)
    ensures WithFate(a + b, fate) == WithFate(a, fate) + WithFate(b, fate)
  {
    if a == [] {
      assert a + b == b;
    } else {
      assert (a + b)[1..] == a[1..] + b;
      WithFateConcat(a[1..], b, fate);
      Assoc(if a[0].fate == fate then [a[0].payload] else [], WithFate(a[1..], fate), WithFate(b, fate));
    }
  }

  lemma {:induction false} WithFateOfTagged<P>(payloads: seq<P>, tag: Fate, fate: Fate)
    ensures WithFate(Tagged(payloads, tag), fate) == if tag == fate then payloads else []
  {
    if payloads != [] {
      assert Tagged(payloads, tag)[1..] == Tagged(payloads[1..], tag);
      WithFateOfTagged(payloads[1..], tag, fate);
    }
  }

  lemma {:induction false} EnqueuedConcat<P>(a: seq<Op<P>>, b: seq<Op<P>>)
    ensures Enqueued(a + b) == Enqueued(a) + Enqueued(b)
  {
    if a == [] {
      assert a + b == b;
    } else {
      assert (a + b)[1..] == a[1..] + b;
      EnqueuedConcat(a[1..], b);
      Assoc(if a[0].Enqueue? then [a[0].payload] else [], Enqueued(a[1..]), Enqueued(b));
    }
  }

  lemma {:induction false} LogSplits<P>(log: seq<Departure<P>>)
    ensures |log| == |WithFate(log, Sent)| + CountOf(log, Evicted)
  {
    if log != [] {
      LogSplits(log[1..]);
    }
  }

  lemma LogOfOne<P>(s: Store<P>, op: Op<P>, maxItems: int)
    ensures Log(s, [op], maxItems) == Departures(s, op, maxItems)
  {
    assert [op][1..] == [];
    assert Log(s, [op], maxItems) == Departures(s, op, maxItems) + Log(Step(s, op, maxItems), [op][1..], maxItems);
  }

  lemma {:induction false} RunConcat<P>(s: Store<P>, a: seq<Op<P>>, b: seq<Op<P>>, maxItems: int)
    ensures Run(s, a + b, maxItems) == Run(Run(s, a, maxItems), b, maxItems)
    ensures Log(s, a + b, maxItems) == Log(s, a, maxItems) + Log(Run(s, a, maxItems), b, maxItems)
    decreases |a|
  {
    if a == [] {
      assert a + b == b;
    } else {
      assert (a + b)[1..] == a[1..] + b;
      RunConcat(Step(s, a[0], maxItems), a[1..], b, maxItems);
    }
  }

  /** What the queue sends, and what it evicts, appears in the order it was loaded and enqueued. */
  lemma SentInOrder<P>(s: Store<P>, ops: seq<Op<P>>, maxItems: int, fate: Fate)
    requires CrashFree(ops)
    ensures IsSubsequence(WithFate(Log(s, ops, maxItems), fate), s.items + Enqueued(ops))
  {
    var log := Log(s, ops, maxItems);
    OrderedConservation(s, ops, maxItems);
    WithFateIsSubsequence(log, fate);
    SubsequenceExtends(WithFate(log, fate), Payloads(log), Run(s, ops, maxItems).items);
  }
}
