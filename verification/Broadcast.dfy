/** The server's fixed-rate broadcast loop (server/app.py, `can_broadcast_loop` and `_sleep_until`):
    numbered frames with simulated drops, on absolute deadlines.

    Time is real-valued and a sleep wakes at its target; the work of iteration `i` takes `costs[i]`. */
module Broadcast {
  import opened Basics

  /** The status part of a frame. */
  datatype Frame = Frame(seqNo: nat, drop: nat)

  /** Whether the number is skipped on purpose; an `every` of zero or less turns the simulation off. */
  predicate SimulatedDrop(every: int, n: nat) {
    every > 0 && n > 0 && n % every == 0
  }

  /** How many numbers in 1..n are skipped. */
  function DropsUpTo(every: int, n: nat): nat {
    if every > 0 then n / every else 0
  }

  /** The frames of the numbers below `n`, as a function of the numbers alone. */
  function Emitted(every: int, n: nat): seq<Frame> {
    if n == 0 then []
    else if SimulatedDrop(every, n - 1) then Emitted(every, n - 1)
    else Emitted(every, n - 1) + [Frame(n - 1, DropsUpTo(every, n - 1))]
  }

  /** When iteration `k` ends: it starts when its predecessor ends and sleeps until its deadline. */
  function End(t0: real, period: real, costs: seq<real>, k: nat): real
    requires k <= |costs|
  {
    if k == 0 then t0
    else MaxR(End(t0, period, costs, k - 1) + costs[k - 1], Deadline(t0, period, k))
  }

  function Deadline(t0: real, period: real, k: nat): real { t0 + k as real * period }

  class Broadcaster {
    const every: int
    const period: real
    var seqNo: nat
    var drop: nat
    var clock: real
    var logged: seq<Frame>

    /** The state at every loop head. */
    predicate Valid()
      reads this
    {
      && logged == Emitted(every, seqNo)
      && drop == (if seqNo == 0 then 0 else DropsUpTo(every, seqNo - 1))
    }

    constructor (every: int, period: real, clock: real)
      ensures Valid() && seqNo == 0
      ensures this.every == every && this.period == period && this.clock == clock
    {
      this.every, this.period, this.clock := every, period, clock;
      seqNo, drop, logged := 0, 0, [];
    }

    method SleepUntil(target: real)
      modifies this`clock
      ensures clock == MaxR(old(clock), target)
    {
      var delay := target - clock;
      if delay > 0.0 {
        clock := clock + delay;
      }
    }

    /** The first `|costs|` iterations of the endless loop; `ends[i]` is when iteration `i` ends. */
    method CanBroadcastLoop(costs: seq<real>) returns (ends: seq<real>)
      requires Valid()
      modifies this
      ensures Valid() && seqNo == old(seqNo) + |costs|
      ensures |ends| == |costs|
      ensures forall i :: 0 <= i < |ends| ==> ends[i] == End(old(clock), period, costs, i + 1)
      ensures forall i :: 0 <= i < |ends| ==>
        var worked := (if i == 0 then old(clock) else ends[i - 1]) + costs[i];
        var due := old(clock) + (i + 1) as real * period;
        ends[i] == if worked < due then due else worked
    {
      var nextTick := clock;
      ends := [];
      var i := 0;
      while i < |costs|
        invariant 0 <= i <= |costs| && |ends| == i
        invariant Valid() && seqNo == old(seqNo) + i
        invariant nextTick == Deadline(old(clock), period, i)
        invariant clock == End(old(clock), period, costs, i)
        invariant forall j :: 0 <= j < i ==> ends[j] == End(old(clock), period, costs, j + 1)
      {
        nextTick := nextTick + period;
        assert nextTick == Deadline(old(clock), period, i + 1);
        clock := clock + costs[i];
        var n := seqNo;
        DropsStep(every, n);
        if every > 0 && n > 0 && n % every == 0 {
          drop := drop + 1;
          seqNo := seqNo + 1;
        } else {
          logged := logged + [Frame(n, drop)];
          seqNo := seqNo + 1;
        }
        SleepUntil(nextTick);
        ends := ends + [clock];
        i := i + 1;
      }
    }
  }

  // ---------------------------------------------------------------- the stream

  lemma DropsStep(every: int, n: nat)
    ensures n > 0 ==> DropsUpTo(every, n) == DropsUpTo(every, n - 1) + if SimulatedDrop(every, n) then 1 else 0
    ensures n == 0 ==> DropsUpTo(every, n) == 0
  {
    if every > 0 && n > 0 {
      var q, r := (n - 1) / every, (n - 1) % every;
      assert n == q * every + (r + 1);
      if r + 1 == every {
        assert n == (q + 1) * every;
        QuotientIs(n, every, q + 1, 0);
      } else {
        QuotientIs(n, every, q, r + 1);
      }
    }
  }

  lemma QuotientIs(n: nat, d: int, q: int, r: int)
    requires 0 <= r < d && n == q * d + r
    ensures n / d == q && n % d == r
  {
    var k := n / d - q;
    assert k >= 1 ==> k * d >= d;
    assert k <= -1 ==> k * d <= -d;
    assert k * d == r - n % d;
  }

  /** The loop's counters: every number below `seqNo` is a frame or a counted drop. */
  lemma {:induction false} CountersAddUp(every: int, n: nat)
    ensures n == |Emitted(every, n)| + if n == 0 then 0 else DropsUpTo(every, n - 1)
    ensures n > 0 && every > 0 ==> n == |Emitted(every, n)| + (n - 1) / every
    ensures every <= 0 ==> n == |Emitted(every, n)|
  {
    if n > 0 {
      CountersAddUp(every, n - 1);
      DropsStep(every, n - 1);
    }
  }

  /** The stream is exact: a number below `n` is emitted if and only if it is not skipped, numbers
      increase, and every frame carries the number of skips so far. */
  lemma {:induction false} StreamExact(every: int, n: nat)
    ensures var out := Emitted(every, n);
      && (forall i :: 0 <= i < |out| ==> IsEmitted(every, n, out[i]))
      && (forall i, j :: 0 <= i < j < |out| ==> out[i].seqNo < out[j].seqNo)
      && (forall s: nat :: s < n && !SimulatedDrop(every, s) ==> Frame(s, DropsUpTo(every, s)) in out)
  {
    if n > 0 {
      StreamExact(every, n - 1);
      var before, out := Emitted(every, n - 1), Emitted(every, n);
      forall i | 0 <= i < |before| ensures IsEmitted(every, n, out[i]) {
        assert IsEmitted(every, n - 1, before[i]);
      }
      forall s: nat | s < n && !SimulatedDrop(every, s) ensures Frame(s, DropsUpTo(every, s)) in out {
        if s == n - 1 {
          assert out[|before|] == Frame(s, DropsUpTo(every, s));
        }
      }
    }
  }

  predicate IsEmitted(every: int, n: nat, f: Frame) {
    f.seqNo < n && !SimulatedDrop(every, f.seqNo) && f.drop == DropsUpTo(every, f.seqNo)
  }

  lemma EmittedIff(every: int, n: nat, f: Frame)
    ensures f in Emitted(every, n) <==> IsEmitted(every, n, f)
  {
    var out := Emitted(every, n);
    StreamExact(every, n);
    assert forall i :: 0 <= i < |out| ==> IsEmitted(every, n, out[i]);
  }

  /** The frames of the first `n` numbers in plain terms: with an `every` above zero those of zero and of the
      numbers it does not divide, each counting the multiples so far; otherwise all, and none counted. */
  lemma EmittedExactly(every: int, n: nat, s: nat, drop: nat)
    ensures every > 0 ==>
      (Frame(s, drop) in Emitted(every, n) <==> s < n && (s == 0 || s % every != 0) && drop == s / every)
    ensures every <= 0 ==> (Frame(s, drop) in Emitted(every, n) <==> s < n && drop == 0)
  {
    EmittedIff(every, n, Frame(s, drop));
  }

  // ---------------------------------------------------------------- the schedule

  function Sum(costs: seq<real>, lo: nat, hi: nat): real
    requires lo <= hi <= |costs|
  {
    if lo == hi then 0.0 else Sum(costs, lo, hi - 1) + costs[hi - 1]
  }

  /** The end of iteration `k` if it last waited for the deadline of iteration `j`. */
  function Since(t0: real, period: real, costs: seq<real>, j: nat, k: nat): real
    requires j <= k <= |costs|
  {
    Deadline(t0, period, j) + Sum(costs, j, k)
  }

  /** The closed form: the end of iteration `k` is the greatest of the `Since(j)`, j <= k. */
  lemma {:induction false} ClosedForm(t0: real, period: real, costs: seq<real>, k: nat) returns (j: nat)
    requires k <= |costs|
    ensures forall i: nat :: i <= k ==> Since(t0, period, costs, i, k) <= End(t0, period, costs, k)
    ensures j <= k && End(t0, period, costs, k) == Since(t0, period, costs, j, k)
  {
    j := k;
    if k > 0 {
      var i := ClosedForm(t0, period, costs, k - 1);
      forall i: nat | i < k
        ensures Since(t0, period, costs, i, k) == Since(t0, period, costs, i, k - 1) + costs[k - 1]
      {
      }
      if End(t0, period, costs, k) != Deadline(t0, period, k) {
        j := i;
      }
    }
  }

  function Lateness(t0: real, period: real, costs: seq<real>, k: nat): real
    requires k <= |costs|
  {
    End(t0, period, costs, k) - Deadline(t0, period, k)
  }

  /** The loop is never ahead of its deadlines. */
  lemma NeverAhead(t0: real, period: real, costs: seq<real>, k: nat)
    requires k <= |costs|
    ensures Lateness(t0, period, costs, k) >= 0.0
  {
    var _ := ClosedForm(t0, period, costs, k);
    assert Since(t0, period, costs, k, k) == Deadline(t0, period, k);
  }

  /** It is on schedule throughout, without drift, exactly when no iteration overruns the period; and
      never ahead of it. */
  lemma {:induction false} NoDrift(t0: real, period: real, costs: seq<real>, k: nat)
    requires k <= |costs|
    ensures (forall i: nat :: i <= k ==> Lateness(t0, period, costs, i) == 0.0)
      <==> (forall i :: 0 <= i < k ==> costs[i] <= period)
    ensures Lateness(t0, period, costs, k) >= 0.0
  {
    NeverAhead(t0, period, costs, k);
    if k > 0 {
      NoDrift(t0, period, costs, k - 1);
      assert Deadline(t0, period, k) == Deadline(t0, period, k - 1) + period;
      assert Lateness(t0, period, costs, k - 1) == 0.0 ==>
        (Lateness(t0, period, costs, k) == 0.0 <==> costs[k - 1] <= period);
    }
  }

  /** Recovery: `n` iterations of cost at most `c` take `n * (period - c)` off the lateness ... */
  lemma {:induction false} CatchesUp(t0: real, period: real, costs: seq<real>, m: nat, n: nat, c: real)
    requires m + n <= |costs| && c <= period
    requires forall i :: m <= i < m + n ==> costs[i] <= c
    ensures Lateness(t0, period, costs, m + n)
      <= MaxR(0.0, Lateness(t0, period, costs, m) - Times(period - c, n as real))
  {
    if n == 0 {
      NeverAhead(t0, period, costs, m);
    } else {
      CatchesUp(t0, period, costs, m, n - 1, c);
      LatenessStep(t0, period, costs, m + n);
      TimesSplit(period - c, (n - 1) as real, 1.0);
      TimesOne(period - c, 1.0);
    }
  }

  lemma LatenessStep(t0: real, period: real, costs: seq<real>, k: nat)
    requires 0 < k <= |costs|
    ensures Lateness(t0, period, costs, k)
      == MaxR(0.0, Lateness(t0, period, costs, k - 1) + costs[k - 1] - period)
  {
    assert Deadline(t0, period, k) == Deadline(t0, period, k - 1) + period;
  }

  /** ... so after a burst the loop is back on schedule as soon as `n >= lateness / (period - c)`. */
  lemma Recovers(t0: real, period: real, costs: seq<real>, m: nat, n: nat, c: real)
    requires m + n <= |costs| && c < period
    requires forall i :: m <= i < m + n ==> costs[i] <= c
    requires n as real >= Lateness(t0, period, costs, m) / (period - c)
    ensures End(t0, period, costs, m + n) == Deadline(t0, period, m + n)
  {
    EnoughTurns(Lateness(t0, period, costs, m), period - c, n);
    CatchesUp(t0, period, costs, m, n, c);
    NeverAhead(t0, period, costs, m + n);
  }

  lemma EnoughTurns(late: real, gain: real, n: nat)
    requires gain > 0.0 && n as real >= late / gain
    ensures Times(gain, n as real) >= late
  {
    var q := late / gain;
    assert Times(gain, q) == late;
    TimesNonNegative(gain, n as real - q);
    TimesSplit(gain, q, n as real - q);
  }
}
