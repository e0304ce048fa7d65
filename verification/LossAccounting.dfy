/** The browser's loss counters (client/app.js, `onFrame` and the displayed total) over whatever part of
    the server's stream reaches it. */
module LossAccounting {
  import opened Basics
  import opened Broadcast

  /** `lastSeq`, `lastServerDrop` and `localDropCount` of the page. */
  datatype Meter = Meter(lastSeq: Option<int>, lastServerDrop: int, localDropCount: int)

  const FRESH := Meter(None, 0, 0)

  /** `onFrame` of a frame whose status fields may be missing or not numbers. */
  function Receive(m: Meter, seqNo: Option<int>, drop: Option<int>): Meter {
    var serverDrop := if drop.Some? then drop.value else 0;
    var lost :=
      if seqNo.Some? && m.lastSeq.Some? && seqNo.value > m.lastSeq.value + 1 then
        NetworkGap(m.lastSeq.value, m.lastServerDrop, seqNo.value, serverDrop)
      else 0;
    Meter(if seqNo.Some? then seqNo else m.lastSeq, serverDrop, m.localDropCount + lost)
  }

  function NetworkGap(lastSeq: int, lastDrop: int, seqNo: int, drop: int): int {
    Max(0, (seqNo - lastSeq - 1) - Max(0, drop - lastDrop))
  }

  /** The drop total on display: the last frame's server drops plus the local count. */
  function Displayed(m: Meter): int { m.lastServerDrop + m.localDropCount }

  class LossMeter {
    var lastSeq: Option<int>
    var lastServerDrop: int
    var localDropCount: int

    function View(): Meter
      reads this
    {
      Meter(lastSeq, lastServerDrop, localDropCount)
    }

    constructor ()
      ensures View() == FRESH && lastSeq.None? && lastServerDrop == 0 && localDropCount == 0
    {
      lastSeq, lastServerDrop, localDropCount := None, 0, 0;
    }

    method OnFrame(seqNo: Option<int>, drop: Option<int>)
      modifies this
      ensures View() == Receive(old(View()), seqNo, drop)
      ensures lastServerDrop == if drop.Some? then drop.value else 0
      ensures lastSeq == if seqNo.Some? then seqNo else old(lastSeq)
      ensures seqNo.None? || old(lastSeq).None? || seqNo.value <= old(lastSeq).value + 1 ==>
        localDropCount == old(localDropCount)
      ensures seqNo.Some? && old(lastSeq).Some? && seqNo.value > old(lastSeq).value + 1 ==>
        var gap, grown := seqNo.value - old(lastSeq).value - 1, lastServerDrop - old(lastServerDrop);
        localDropCount == old(localDropCount) + if grown <= 0 then gap else if grown >= gap then 0 else gap - grown
    {
      var serverDrop := if drop.Some? then drop.value else 0;
      if seqNo.Some? && lastSeq.Some? && seqNo.value > lastSeq.value + 1 {
        var seqGap := seqNo.value - lastSeq.value - 1;
        var serverDropGap := Max(0, serverDrop - lastServerDrop);
        var networkGap := Max(0, seqGap - serverDropGap);
        localDropCount := localDropCount + networkGap;
      }
      if seqNo.Some? {
        lastSeq := seqNo;
      }
      lastServerDrop := serverDrop;
    }

    /** The number the display loop computes. */
    method DropTotal() returns (drop: int)
      ensures drop == Displayed(View()) == lastServerDrop + localDropCount
    {
      drop := lastServerDrop + localDropCount;
    }
  }

  function ReceiveAll(m: Meter, frames: seq<Frame>): Meter {
    if frames == [] then m
    else
      var f := frames[|frames| - 1];
      Receive(ReceiveAll(m, frames[..|frames| - 1]), Some(f.seqNo), Some(f.drop))
  }

  /** Some of the frames of one server run, in order. */
  ghost predicate FromOneRun(every: int, frames: seq<Frame>) {
    && (forall i :: 0 <= i < |frames| ==>
          !SimulatedDrop(every, frames[i].seqNo) && frames[i].drop == DropsUpTo(every, frames[i].seqNo))
    && (forall i, j :: 0 <= i < j < |frames| ==> frames[i].seqNo < frames[j].seqNo)
  }

  /** Every in-order lossy channel output qualifies: any subsequence of the emitted stream. */
  lemma {:induction false} ChannelOutput(every: int, n: nat, frames: seq<Frame>)
    requires IsSubsequence(frames, Emitted(every, n))
    ensures FromOneRun(every, frames) && forall i :: 0 <= i < |frames| ==> frames[i] in Emitted(every, n)
  {
    StreamExact(every, n);
    var out := Emitted(every, n);
    assert forall i :: 0 <= i < |out| ==> IsEmitted(every, n, out[i]);
    SubsequenceOrdered(frames, out, every);
  }

  lemma {:induction false} SubsequenceOrdered(frames: seq<Frame>, out: seq<Frame>, every: int)
    requires IsSubsequence(frames, out) && FromOneRun(every, out)
    ensures FromOneRun(every, frames)
    ensures forall i :: 0 <= i < |frames| ==> frames[i] in out
    decreases |out|
  {
    if frames != [] {
      assert FromOneRun(every, out[1..]);
      if frames[0] == out[0] && IsSubsequence(frames[1..], out[1..]) {
        SubsequenceOrdered(frames[1..], out[1..], every);
        forall i | 1 <= i < |frames| ensures frames[i] in out[1..] && frames[0].seqNo < frames[i].seqNo {
          assert frames[i] == frames[1..][i - 1];
        }
        forall i, j | 0 <= i < j < |frames| ensures frames[i].seqNo < frames[j].seqNo {
          if i > 0 {
            assert frames[1..][i - 1].seqNo < frames[1..][j - 1].seqNo;
          }
        }
      } else {
        SubsequenceOrdered(frames, out[1..], every);
      }
    }
  }

  function SeqNos(frames: seq<Frame>): set<nat> {
    set i | 0 <= i < |frames| :: frames[i].seqNo
  }

  /** The numbers from the first to the last received one that did not arrive. */
  function Missing(frames: seq<Frame>): set<nat>
    requires frames != []
  {
    set s: nat | frames[0].seqNo <= s <= frames[|frames| - 1].seqNo && s !in SeqNos(frames)
  }

  /** Those of them that the server had emitted: the network's losses. */
  function Lost(every: int, frames: seq<Frame>): set<nat>
    requires frames != []
  {
    set s | s in Missing(frames) && !SimulatedDrop(every, s)
  }

  /** The numbers skipped in lo+1..hi. */
  function Skipped(every: int, lo: nat, hi: nat): set<nat> {
    set s: nat | lo < s <= hi && SimulatedDrop(every, s)
  }

  lemma {:induction false} CountSkipped(every: int, lo: nat, hi: nat)
    requires lo <= hi
    ensures |Skipped(every, lo, hi)| == DropsUpTo(every, hi) - DropsUpTo(every, lo)
  {
    if lo < hi {
      CountSkipped(every, lo, hi - 1);
      DropsStep(every, hi);
      if SimulatedDrop(every, hi) {
        assert Skipped(every, lo, hi) == Skipped(every, lo, hi - 1) + {hi};
      } else {
        assert Skipped(every, lo, hi) == Skipped(every, lo, hi - 1);
      }
    } else {
      assert Skipped(every, lo, hi) == {};
    }
  }

  predicate Within(lo: nat, s: nat, hi: nat) { lo <= s <= hi }

  function Range(lo: nat, hi: nat): set<nat> { set s: nat | lo <= s <= hi && Within(lo, s, hi) }

  lemma {:induction false} CountRange(lo: nat, hi: nat)
    requires lo <= hi
    ensures |Range(lo, hi)| == hi - lo + 1
  {
    if lo < hi {
      CountRange(lo, hi - 1);
      assert Range(lo, hi) == Range(lo, hi - 1) + {hi};
    } else {
      assert Range(lo, hi) == {lo};
    }
  }

  lemma {:induction false} CountReceived(every: int, frames: seq<Frame>)
    requires FromOneRun(every, frames)
    ensures |SeqNos(frames)| == |frames|
  {
    if frames == [] {
      assert SeqNos(frames) == {};
    } else {
      var k := |frames| - 1;
      CountReceived(every, frames[..k]);
      assert SeqNos(frames) == SeqNos(frames[..k]) + {frames[k].seqNo} by {
        forall s | s in SeqNos(frames) ensures s in SeqNos(frames[..k]) + {frames[k].seqNo} {
          var i :| 0 <= i < |frames| && frames[i].seqNo == s;
          assert i < k ==> frames[..k][i].seqNo == s;
        }
      }
    }
  }

  lemma CountMissing(every: int, frames: seq<Frame>)
    requires frames != [] && FromOneRun(every, frames)
    ensures |Missing(frames)| == frames[|frames| - 1].seqNo - frames[0].seqNo + 1 - |frames|
  {
    var lo, hi := frames[0].seqNo, frames[|frames| - 1].seqNo;
    CountRange(lo, hi);
    CountReceived(every, frames);
    assert SeqNos(frames) <= Range(lo, hi);
    assert Missing(frames) == Range(lo, hi) - SeqNos(frames);
  }

  lemma CountLost(every: int, frames: seq<Frame>)
    requires frames != [] && FromOneRun(every, frames)
    ensures var first, last := frames[0], frames[|frames| - 1];
      |Lost(every, frames)| == (last.seqNo - first.seqNo + 1 - |frames|) - (last.drop - first.drop)
  {
    var lo, hi := frames[0].seqNo, frames[|frames| - 1].seqNo;
    CountMissing(every, frames);
    CountSkipped(every, lo, hi);
    assert Skipped(every, lo, hi) <= Missing(frames);
    assert Lost(every, frames) == Missing(frames) - Skipped(every, lo, hi);
  }

  lemma DropsGrowSlowly(every: int, a: nat, b: nat)
    requires a < b && !SimulatedDrop(every, b)
    ensures 0 <= DropsUpTo(every, b) - DropsUpTo(every, a) <= b - a - 1
  {
    CountSkipped(every, a, b);
    CountRange(a + 1, b);
    assert Skipped(every, a, b) <= Range(a + 1, b) - {b};
    if a + 1 == b {
      assert Skipped(every, a, b) == {};
    } else {
      assert |Range(a + 1, b) - {b}| == b - a - 1;
      SubsetCount(Skipped(every, a, b), Range(a + 1, b) - {b});
    }
  }

  lemma SubsetCount<T>(a: set<T>, b: set<T>)
    requires a <= b
    ensures |a| <= |b|
  {
    assert b == a + (b - a);
  }

  /** What the first frame of a run adds: the gap to whatever came before it. */
  function Jump(m: Meter, f: Frame): nat {
    if m.lastSeq.Some? && f.seqNo > m.lastSeq.value + 1 then
      NetworkGap(m.lastSeq.value, m.lastServerDrop, f.seqNo, f.drop)
    else 0
  }

  lemma {:induction false} Accumulates(m: Meter, every: int, frames: seq<Frame>)
    requires frames != [] && FromOneRun(every, frames)
    ensures var end := ReceiveAll(m, frames); var first, last := frames[0], frames[|frames| - 1];
      && end.lastSeq == Some(last.seqNo) && end.lastServerDrop == last.drop
      && end.localDropCount == m.localDropCount + Jump(m, first)
           + (last.seqNo - first.seqNo + 1 - |frames|) - (last.drop - first.drop)
  {
    var k := |frames| - 1;
    if k > 0 {
      Accumulates(m, every, frames[..k]);
      DropsGrowSlowly(every, frames[k - 1].seqNo, frames[k].seqNo);
    } else {
      assert frames[..k] == [];
    }
  }

  /** Inside one run the counter grows by exactly the emitted frames that did not arrive between the
      first and the last received one. The first frame adds its jump, which is zero on a fresh page. */
  lemma LossExact(m: Meter, every: int, frames: seq<Frame>)
    requires frames != [] && FromOneRun(every, frames)
    ensures ReceiveAll(m, frames).localDropCount
      == m.localDropCount + Jump(m, frames[0]) + |Lost(every, frames)|
  {
    Accumulates(m, every, frames);
    CountLost(every, frames);
  }

  /** The displayed total: the drops the first frame reported plus every number missing since. */
  lemma DisplayExact(every: int, frames: seq<Frame>)
    requires frames != [] && FromOneRun(every, frames)
    ensures Displayed(ReceiveAll(FRESH, frames)) == frames[0].drop + |Missing(frames)|
  {
    Accumulates(FRESH, every, frames);
    CountMissing(every, frames);
  }

  lemma ReceivedIff(every: int, frames: seq<Frame>, s: nat)
    requires FromOneRun(every, frames)
    ensures Frame(s, DropsUpTo(every, s)) in frames <==> s in SeqNos(frames)
    ensures forall f :: f in frames ==> f.drop == DropsUpTo(every, f.seqNo)
  {
    assert forall i :: 0 <= i < |frames| && frames[i].seqNo == s ==> frames[i] == Frame(s, DropsUpTo(every, s));
  }

  /** The numbers of the frames emitted strictly between the first and the last delivered one and not
      delivered. */
  function Undelivered(every: int, n: nat, frames: seq<Frame>): set<nat>
    requires frames != []
  {
    set f | f in Emitted(every, n) && frames[0].seqNo < f.seqNo < frames[|frames| - 1].seqNo && f !in frames :: f.seqNo
  }

  lemma LostIffUndelivered(every: int, n: nat, frames: seq<Frame>, s: nat)
    requires frames != [] && FromOneRun(every, frames) && frames[|frames| - 1].seqNo < n
    ensures s in Lost(every, frames) <==> s in Undelivered(every, n, frames)
  {
    var f := Frame(s, DropsUpTo(every, s));
    EmittedIff(every, n, f);
    ReceivedIff(every, frames, s);
    assert frames[0].seqNo in SeqNos(frames) && frames[|frames| - 1].seqNo in SeqNos(frames);
    assert s in Undelivered(every, n, frames) ==> f in Emitted(every, n) && f !in frames by {
      forall g | g in Emitted(every, n) && g.seqNo == s ensures g == f {
        EmittedIff(every, n, g);
      }
    }
  }

  /** From the server's loop to the page, whatever the network drops: the local count is the number of
      undelivered frames, and the displayed total adds the numbers the server skipped. */
  lemma EndToEnd(every: int, n: nat, frames: seq<Frame>)
    requires frames != [] && IsSubsequence(frames, Emitted(every, n))
    ensures var end := ReceiveAll(FRESH, frames);
      && end.localDropCount == |Undelivered(every, n, frames)|
      && Displayed(end) == frames[0].drop + |Missing(frames)|
  {
    ChannelOutput(every, n, frames);
    LossExact(FRESH, every, frames);
    DisplayExact(every, frames);
    EmittedIff(every, n, frames[|frames| - 1]);
    forall s: nat ensures s in Lost(every, frames) <==> s in Undelivered(every, n, frames) {
      LostIffUndelivered(every, n, frames, s);
    }
    assert Lost(every, frames) == Undelivered(every, n, frames);
  }

  /** Neither `Math.max(0, ...)` ever clips inside a run. */
  lemma NothingClips(every: int, a: Frame, b: Frame)
    requires FromOneRun(every, [a, b])
    ensures 0 <= b.drop - a.drop <= b.seqNo - a.seqNo - 1
    ensures NetworkGap(a.seqNo, a.drop, b.seqNo, b.drop) == (b.seqNo - a.seqNo - 1) - (b.drop - a.drop)
  {
    var frames := [a, b];
    assert frames[0] == a && frames[1] == b;
    DropsGrowSlowly(every, a.seqNo, b.seqNo);
  }

  /** A restarted server begins a new run. The page's count stays the sum of the two runs' losses
      exactly when the new run's first number does not jump past the old run's last one by more than
      the growth of the drop counter explains. */
  lemma RestartExact(every1: int, before: seq<Frame>, every2: int, after: seq<Frame>)
    requires before != [] && FromOneRun(every1, before)
    requires after != [] && FromOneRun(every2, after)
    ensures var last, first := before[|before| - 1], after[0];
      (ReceiveAll(ReceiveAll(FRESH, before), after).localDropCount
          == |Lost(every1, before)| + |Lost(every2, after)|)
      <==> (first.seqNo <= last.seqNo + 1 || first.seqNo - last.seqNo - 1 <= first.drop - last.drop)
  {
    LossExact(FRESH, every1, before);
    Accumulates(FRESH, every1, before);
    LossExact(ReceiveAll(FRESH, before), every2, after);
  }

  /** Without such an explanation the count goes wrong: nothing is lost here, and four losses are shown. */
  lemma RestartMiscounts()
    ensures var before, after := [Frame(5, 0)], [Frame(10, 0)];
      && FromOneRun(0, before) && FromOneRun(0, after)
      && |Lost(0, before)| == |Lost(0, after)| == 0
      && ReceiveAll(ReceiveAll(FRESH, before), after).localDropCount == 4
  {
    var before, after := [Frame(5, 0)], [Frame(10, 0)];
    LossExact(FRESH, 0, before);
    Accumulates(FRESH, 0, before);
    CountLost(0, before);
    CountLost(0, after);
    LossExact(ReceiveAll(FRESH, before), 0, after);
  }

  // ---------------------------------------------------------------- any number of restarts

  /** What arrives of one life of the server, which skips every `every`-th number. */
  datatype Life = Life(every: int, frames: seq<Frame>) {
    ghost predicate Valid() { frames != [] && FromOneRun(every, frames) }

    function First(): Frame requires frames != [] { frames[0] }

    function Last(): Frame requires frames != [] { frames[|frames| - 1] }
  }

  function ReceiveLives(m: Meter, lives: seq<Life>): Meter {
    if lives == [] then m else ReceiveAll(ReceiveLives(m, lives[..|lives| - 1]), lives[|lives| - 1].frames)
  }

  function TotalLost(lives: seq<Life>): nat
    requires forall i :: 0 <= i < |lives| ==> lives[i].frames != []
  {
    if lives == [] then 0
    else
      var life := lives[|lives| - 1];
      TotalLost(lives[..|lives| - 1]) + |Lost(life.every, life.frames)|
  }

  /** The first frame does not jump past what the meter saw last, or not by more than the growth of the
      drop counter explains. */
  predicate Explained(m: Meter, f: Frame) {
    m.lastSeq.Some? ==>
      f.seqNo <= m.lastSeq.value + 1 || f.seqNo - m.lastSeq.value - 1 <= f.drop - m.lastServerDrop
  }

  /** The same between a life and its predecessor, or for the first one the meter's past. */
  predicate ExplainedAt(m: Meter, lives: seq<Life>, i: nat)
    requires i < |lives| && forall j :: 0 <= j < |lives| ==> lives[j].frames != []
  {
    if i == 0 then Explained(m, lives[0].First())
    else Explained(Meter(Some(lives[i - 1].Last().seqNo), lives[i - 1].Last().drop, 0), lives[i].First())
  }

  /** Over any number of restarts and from any past, the page never counts too little, and its count
      grows by the sum of all lives' losses exactly when every restart is explained. */
  lemma {:induction false} RestartsExact(m: Meter, lives: seq<Life>)
    requires forall i :: 0 <= i < |lives| ==> lives[i].frames != [] && lives[i].Valid()
    ensures var end := ReceiveLives(m, lives);
      && (lives != [] ==>
            && end.lastSeq == Some(lives[|lives| - 1].Last().seqNo)
            && end.lastServerDrop == lives[|lives| - 1].Last().drop)
      && end.localDropCount >= m.localDropCount + TotalLost(lives)
      && (end.localDropCount == m.localDropCount + TotalLost(lives) <==>
            forall i :: 0 <= i < |lives| ==> ExplainedAt(m, lives, i))
  {
    if lives != [] {
      var k := |lives| - 1;
      var front, life := lives[..k], lives[k];
      RestartsExact(m, front);
      var before := ReceiveLives(m, front);
      Accumulates(before, life.every, life.frames);
      LossExact(before, life.every, life.frames);
      assert Jump(before, life.First()) == 0 <==> ExplainedAt(m, lives, k);
      assert forall i :: 0 <= i < k ==> (ExplainedAt(m, lives, i) <==> ExplainedAt(m, front, i));
    }
  }
}
