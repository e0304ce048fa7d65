/** The scrolling charts (client/charts.js): buffers that are pruned while they fill, and what is drawn
    from them.

    A sample maps the keys with a finite value to it. */
module Charts {
  import opened Basics

  /** A sample point (`v` is the value) or a marker (`v` is the label). */
  datatype Item<V> = Item(t: real, v: V)

  type Point = Item<real>

  type Marker = Item<string>

  type Buckets = map<string, seq<Point>>

  /** What a pruning loop leaves. */
  function Pruned<V>(items: seq<Item<V>>, cutoff: real): seq<Item<V>> {
    if items != [] && items[0].t < cutoff then Pruned(items[1..], cutoff) else items
  }

  datatype Chart = Chart(window: real, series: seq<string>, samples: Buckets, markers: seq<Marker>)

  /** One line's part of `addSample`: push, then prune, if the sample has a value for the key. */
  function AddTo(samples: Buckets, key: string, t: real, sample: map<string, real>, cutoff: real): Buckets {
    if key in sample && key in samples then
      samples[key := Pruned(samples[key] + [Item(t, sample[key])], cutoff)]
    else samples
  }

  /** The lines before position `n` of the series, in turn. */
  function AddLines(c: Chart, n: nat, t: real, sample: map<string, real>): Buckets
    requires n <= |c.series|
  {
    if n == 0 then c.samples
    else AddTo(AddLines(c, n - 1, t, sample), c.series[n - 1], t, sample, t - c.window)
  }

  function WithSample(c: Chart, t: real, sample: map<string, real>): Chart {
    c.(samples := AddLines(c, |c.series|, t, sample), markers := Pruned(c.markers, t - c.window))
  }

  predicate InWindow(t: real, lo: real, hi: real) { lo <= t <= hi }

  /** The points inside [lo, hi], in order. */
  function Visible(points: seq<Point>, lo: real, hi: real): seq<Point> {
    if points == [] then []
    else
      var k := |points| - 1;
      if InWindow(points[k].t, lo, hi) then Visible(points[..k], lo, hi) + [points[k]]
      else Visible(points[..k], lo, hi)
  }

  /** The segments between consecutive points. */
  function Chain(points: seq<Point>): seq<(Point, Point)> {
    if |points| < 2 then []
    else
      var k := |points| - 1;
      Chain(points[..k]) + [(points[k - 1], points[k])]
  }

  /** The polyline `render` strokes for one line: nothing unless two points are buffered, else one
      segment between consecutive visible points. */
  function Segments(points: seq<Point>, window: real, now: real): seq<(Point, Point)> {
    if |points| < 2 then [] else Chain(Visible(points, now - window, now))
  }

  /** Whether `render` draws a marker: its position along the axis is not below 0 and not above 1. With
      a window of length zero JavaScript divides by zero, and only 0 / 0 passes both comparisons. */
  predicate MarkerShown(t: real, window: real, now: real) {
    if window == 0.0 then t == now else 0.0 <= (t - (now - window)) / window <= 1.0
  }

  function VisibleMarkers(markers: seq<Marker>, window: real, now: real): seq<Marker> {
    if markers == [] then []
    else
      var k := |markers| - 1;
      if MarkerShown(markers[k].t, window, now) then VisibleMarkers(markers[..k], window, now) + [markers[k]]
      else VisibleMarkers(markers[..k], window, now)
  }

  class ScrollingChart {
    const window: real
    const series: seq<string>
    var samples: Buckets
    var markers: seq<Marker>

    predicate Valid()
      reads this
    {
      forall k :: k in series ==> k in samples
    }

    function View(): Chart
      reads this
    {
      Chart(window, series, samples, markers)
    }

    constructor (window: real, series: seq<string>)
      ensures Valid() && View() == Empty(window, series)
    {
      this.window, this.series := window, series;
      samples, markers := map k | k in series :: [], [];
    }

    method AddSample(t: real, sample: map<string, real>)
      requires Valid()
      modifies this
      ensures Valid() && View() == WithSample(old(View()), t, sample)
    {
      var cutoff := t - window;
      ghost var was := View();
      var i := 0;
      while i < |series|
        invariant 0 <= i <= |series| && Valid() && markers == was.markers
        invariant samples == AddLines(was, i, t, sample)
      {
        var key := series[i];
        if key in sample {
          var bucket := Shift(samples[key] + [Item(t, sample[key])], cutoff);
          samples := samples[key := bucket];
        }
        i := i + 1;
      }
      markers := Shift(markers, cutoff);
    }

    /** The `while (... [0].t < cutoff) shift()` loop. */
    method Shift<V>(items: seq<Item<V>>, cutoff: real) returns (rest: seq<Item<V>>)
      ensures rest == Pruned(items, cutoff)
    {
      rest := items;
      while |rest| > 0 && rest[0].t < cutoff
        invariant Pruned(rest, cutoff) == Pruned(items, cutoff)
      {
        rest := rest[1..];
      }
    }

    method AddMarker(t: real, tag: string)
      requires Valid()
      modifies this`markers
      ensures Valid() && View() == old(View()).(markers := old(markers) + [Item(t, tag)])
    {
      markers := markers + [Item(t, tag)];
    }

    /** The drawing loop for one line, collecting the segments it strokes. */
    method RenderLine(key: string, now: real) returns (drawn: seq<(Point, Point)>)
      requires Valid()
      ensures drawn == if key in samples then Segments(samples[key], window, now) else []
    {
      drawn := [];
      if key !in samples || |samples[key]| < 2 {
        return;
      }
      var points, xMin, xMax := samples[key], now - window, now;
      var started, pen := false, points[0];
      for i := 0 to |points|
        invariant var seen := Visible(points[..i], xMin, xMax);
          && started == (seen != [])
          && (started ==> pen == seen[|seen| - 1])
          && drawn == Chain(seen)
      {
        var p := points[i];
        assert points[..i + 1][..i] == points[..i];
        ghost var seen := Visible(points[..i], xMin, xMax);
        if !(p.t < xMin || p.t > xMax) {
          assert (seen + [p])[..|seen|] == seen;
          if started {
            drawn := drawn + [(pen, p)];
          }
          pen, started := p, true;
        }
      }
      assert points[..|points|] == points;
    }

    /** The drawing loop for the markers. */
    method RenderMarkers(now: real) returns (drawn: seq<Marker>)
      ensures drawn == VisibleMarkers(markers, window, now)
    {
      drawn := [];
      var xMin, xMax := now - window, now;
      for i := 0 to |markers|
        invariant drawn == VisibleMarkers(markers[..i], window, now)
      {
        var marker := markers[i];
        assert markers[..i + 1][..i] == markers[..i];
        var span := xMax - xMin;
        var skipped :=
          if span == 0.0 then marker.t != xMin
          else (marker.t - xMin) / span < 0.0 || (marker.t - xMin) / span > 1.0;
        if !skipped {
          drawn := drawn + [marker];
        }
      }
      assert markers[..|markers|] == markers;
    }
  }

  function Empty(window: real, series: seq<string>): Chart {
    Chart(window, series, map k | k in series :: [], [])
  }

  datatype Event = Sampled(t: real, sample: map<string, real>) | Marked(t: real, tag: string)

  function Apply(c: Chart, e: Event): Chart {
    match e
    case Sampled(t, sample) => WithSample(c, t, sample)
    case Marked(t, tag) => c.(markers := c.markers + [Item(t, tag)])
  }

  function Run(c: Chart, events: seq<Event>): Chart {
    if events == [] then c else Apply(Run(c, events[..|events| - 1]), events[|events| - 1])
  }

  // ---------------------------------------------------------------- what is drawn, by position

  ghost predicate Increasing(ks: seq<nat>) {
    forall m, n :: 0 <= m < n < |ks| ==> ks[m] < ks[n]
  }

  /** `shown` is the items at the positions `ks`, in order. */
  ghost predicate ShowsAt<V>(items: seq<Item<V>>, ks: seq<nat>, shown: seq<Item<V>>) {
    && Increasing(ks) && |shown| == |ks|
    && forall n :: 0 <= n < |ks| ==> ks[n] < |items| && shown[n] == items[ks[n]]
  }

  /** One item more, drawn or not. */
  lemma ShowsSnoc<V>(items: seq<Item<V>>, ks: seq<nat>, shown: seq<Item<V>>)
    requires items != [] && ShowsAt(items[..|items| - 1], ks, shown)
    ensures var k := |items| - 1;
      && ShowsAt(items, ks, shown) && ShowsAt(items, ks + [k], shown + [items[k]])
      && k !in ks && forall i: nat :: i in ks + [k] <==> i in ks || i == k
  {
    var k := |items| - 1;
    assert forall n :: 0 <= n < |ks| ==> ks[n] < |items[..k]| && shown[n] == items[..k][ks[n]];
  }

  lemma {:induction false} VisibleAt(points: seq<Point>, lo: real, hi: real) returns (ks: seq<nat>)
    ensures ShowsAt(points, ks, Visible(points, lo, hi))
    ensures forall i: nat :: i in ks <==> i < |points| && lo <= points[i].t <= hi
  {
    ks := [];
    if points != [] {
      var k := |points| - 1;
      ks := VisibleAt(points[..k], lo, hi);
      ShowsSnoc(points, ks, Visible(points[..k], lo, hi));
      if lo <= points[k].t <= hi {
        ks := ks + [k];
      }
    }
  }

  lemma {:induction false} ChainAt(points: seq<Point>)
    ensures |Chain(points)| == Max(0, |points| - 1)
    ensures forall n :: 0 <= n < |points| - 1 ==> Chain(points)[n] == (points[n], points[n + 1])
  {
    if |points| >= 2 {
      ChainAt(points[..|points| - 1]);
    }
  }

  /** The positions whose times are in [now - window, now], in order. */
  ghost predicate InView(points: seq<Point>, window: real, now: real, ks: seq<nat>) {
    Increasing(ks) && forall i: nat :: i in ks <==> i < |points| && now - window <= points[i].t <= now
  }

  /** The polyline in plain terms: it joins, in order, each two neighbours among these positions. */
  lemma DrawnSegments(points: seq<Point>, window: real, now: real) returns (ks: seq<nat>)
    ensures InView(points, window, now, ks) && forall n :: 0 <= n < |ks| ==> ks[n] < |points|
    ensures var drawn := Segments(points, window, now);
      && |drawn| == Max(0, |ks| - 1)
      && forall n :: 0 <= n < |drawn| ==> drawn[n] == (points[ks[n]], points[ks[n + 1]])
  {
    ks := VisibleAt(points, now - window, now);
    VisibleIsNoLonger(points, now - window, now);
    ChainAt(Visible(points, now - window, now));
  }

  /** Segment `n` of the polyline leads from position `i` to position `j`. */
  predicate Leads(ks: seq<nat>, n: nat, i: nat, j: nat) { n + 1 < |ks| && ks[n] == i && ks[n + 1] == j }

  /** So a segment leads from position `i` to a later position `j` exactly when the times of both are in the
      window and no time between them is. */
  lemma JoinedExactly(points: seq<Point>, window: real, now: real, ks: seq<nat>, i: nat, j: nat)
    requires InView(points, window, now, ks) && i < j < |points|
    ensures (exists n: nat :: Leads(ks, n, i, j)) <==>
      && now - window <= points[i].t <= now && now - window <= points[j].t <= now
      && forall k :: i < k < j ==> !(now - window <= points[k].t <= now)
  {
    if exists n: nat :: Leads(ks, n, i, j) {
      var n: nat :| Leads(ks, n, i, j);
      assert ks[n] in ks && ks[n + 1] in ks;
      forall k: nat | i < k < j ensures k !in ks {
        NothingBetween(ks, n, k);
      }
    } else if i in ks && j in ks {
      var m :| 0 <= m < |ks| && ks[m] == i;
      var n :| 0 <= n < |ks| && ks[n] == j;
      assert !Leads(ks, m, i, j);
      assert n > m + 1;
      assert i < ks[m + 1] < j && ks[m + 1] in ks;
    }
  }

  lemma NothingBetween(ks: seq<nat>, n: nat, k: nat)
    requires Increasing(ks) && n + 1 < |ks| && ks[n] < k < ks[n + 1]
    ensures k !in ks
  {
    forall m | 0 <= m < |ks| ensures ks[m] != k {
      if m <= n {
        assert ks[m] <= ks[n];
      } else {
        assert ks[n + 1] <= ks[m];
      }
    }
  }

  lemma ShownWhen(t: real, window: real, now: real)
    ensures window > 0.0 ==> (MarkerShown(t, window, now) <==> now - window <= t <= now)
    ensures window == 0.0 ==> (MarkerShown(t, window, now) <==> t == now)
    ensures window < 0.0 ==> (MarkerShown(t, window, now) <==> now <= t <= now - window)
  {
    if window > 0.0 {
      AtRatio(t - (now - window), window);
    } else if window < 0.0 {
      AtRatio(-(t - (now - window)), -window);
      assert -(t - (now - window)) / -window == (t - (now - window)) / window;
    }
  }

  lemma AtRatio(x: real, d: real)
    requires d > 0.0
    ensures 0.0 <= x / d <= 1.0 <==> 0.0 <= x <= d
  {
    var r := x / d;
    assert r * d == x;
    RatioOrder(x, d, 0.0);
    RatioOrder(x, d, 1.0);
    MulOrder(r, 0.0, d);
    MulOrder(1.0, r, d);
  }

  /** The markers drawn, by position and in order: with a positive window those in [now - window, now], with
      a window of zero those at `now`, with a negative one those in [now, now - window]. */
  lemma DrawnMarkers(markers: seq<Marker>, window: real, now: real) returns (ks: seq<nat>)
    ensures ShowsAt(markers, ks, VisibleMarkers(markers, window, now))
    ensures forall i: nat :: i in ks <==>
      i < |markers|
      && if window > 0.0 then now - window <= markers[i].t <= now
         else if window == 0.0 then markers[i].t == now
         else now <= markers[i].t <= now - window
  {
    ks := ShownAt(markers, window, now);
    forall i: nat | i < |markers|
      ensures MarkerShown(markers[i].t, window, now) <==>
        if window > 0.0 then now - window <= markers[i].t <= now
        else if window == 0.0 then markers[i].t == now
        else now <= markers[i].t <= now - window
    {
      ShownWhen(markers[i].t, window, now);
    }
  }

  lemma {:induction false} ShownAt(markers: seq<Marker>, window: real, now: real) returns (ks: seq<nat>)
    ensures ShowsAt(markers, ks, VisibleMarkers(markers, window, now))
    ensures forall i: nat :: i in ks <==> i < |markers| && MarkerShown(markers[i].t, window, now)
  {
    ks := [];
    if markers != [] {
      var k := |markers| - 1;
      ks := ShownAt(markers[..k], window, now);
      ShowsSnoc(markers, ks, VisibleMarkers(markers[..k], window, now));
      if MarkerShown(markers[k].t, window, now) {
        ks := ks + [k];
      }
    }
  }

  // ---------------------------------------------------------------- what is pruned

  /** `rest` is `items` without its longest front of times before the cutoff, which is `k` items long. */
  ghost predicate Cut<V>(items: seq<Item<V>>, rest: seq<Item<V>>, cutoff: real, k: nat) {
    && k <= |items| && rest == items[k..]
    && (forall i :: 0 <= i < k ==> items[i].t < cutoff)
    && (k < |items| ==> items[k].t >= cutoff)
  }

  lemma {:induction false} PrunedIs<V>(items: seq<Item<V>>, cutoff: real) returns (k: nat)
    ensures Cut(items, Pruned(items, cutoff), cutoff, k)
  {
    k := 0;
    if items != [] && items[0].t < cutoff {
      var rest := PrunedIs(items[1..], cutoff);
      k := rest + 1;
    }
  }

  lemma CutAgain<V>(items: seq<Item<V>>, rest: seq<Item<V>>, p: Item<V>, cutoff: real, k: nat, m: nat)
    requires Cut(items, rest, cutoff, k)
    requires Cut(rest + [p], Pruned(rest + [p], cutoff), cutoff, m)
    ensures Cut(items + [p], Pruned(rest + [p], cutoff), cutoff, k + m)
  {
    assert (items + [p])[k..] == rest + [p];
    forall i | 0 <= i < k + m ensures (items + [p])[i].t < cutoff {
      if i >= k {
        assert (items + [p])[i] == (rest + [p])[i - k];
      }
    }
  }

  lemma PushCut<V>(
      held: seq<Item<V>>, pushed: seq<Item<V>>, kept: seq<Item<V>>, p: Item<V>, cutoff: real, k: nat)
    returns (k': nat)
    requires pushed == [] ==> kept == held
    requires pushed != [] ==> Cut(held + pushed, kept, cutoff, k)
    ensures Cut(held + (pushed + [p]), Pruned(kept + [p], cutoff), cutoff, k')
  {
    k' := PrunedIs(kept + [p], cutoff);
    if pushed == [] {
      assert pushed + [p] == [p];
    } else {
      Assoc(held, pushed, [p]);
      CutAgain(held + pushed, kept, p, cutoff, k, k');
      k' := k + k';
    }
  }

  lemma {:induction false} LinesCut(c: Chart, n: nat, key: string, t: real, sample: map<string, real>) returns (k: nat)
    requires n <= |c.series| && key in c.samples
    ensures var pushed := PushedBy(c.series, n, key, t, sample); var after := AddLines(c, n, t, sample);
      && key in after && (pushed == [] ==> after[key] == c.samples[key])
      && (pushed != [] ==> Cut(c.samples[key] + pushed, after[key], t - c.window, k))
  {
    k := 0;
    if n > 0 {
      k := LinesCut(c, n - 1, key, t, sample);
      if c.series[n - 1] == key && key in sample {
        k := PushCut(c.samples[key], PushedBy(c.series, n - 1, key, t, sample), AddLines(c, n - 1, t, sample)[key],
                     Item(t, sample[key]), t - c.window, k);
      }
    }
  }

  function LinesWith(series: seq<string>, n: nat, key: string): set<nat> {
    set i: nat | i < n && i < |series| && series[i] == key
  }

  lemma {:induction false} PushedOncePerLine(
      series: seq<string>, n: nat, key: string, t: real, sample: map<string, real>)
    requires n <= |series|
    ensures var pushed := PushedBy(series, n, key, t, sample);
      && |pushed| == (if key in sample then |LinesWith(series, n, key)| else 0)
      && forall i :: 0 <= i < |pushed| ==> key in sample && pushed[i] == Item(t, sample[key])
  {
    if n == 0 {
      assert LinesWith(series, n, key) == {};
    } else {
      PushedOncePerLine(series, n - 1, key, t, sample);
      if series[n - 1] == key {
        assert LinesWith(series, n, key) == LinesWith(series, n - 1, key) + {n - 1};
      } else {
        assert LinesWith(series, n, key) == LinesWith(series, n - 1, key);
      }
    }
  }

  /** A sample's whole effect on a bucket and on the markers: a bucket whose key has a value gets one point
      for each of its lines and loses its front of times before t - window; any other bucket stays; the
      markers lose theirs whatever the sample holds. */
  lemma SampleExactly(c: Chart, key: string, t: real, sample: map<string, real>) returns (k: nat, m: nat)
    requires key in c.samples
    ensures var c' := WithSample(c, t, sample);
      && c'.window == c.window && c'.series == c.series && key in c'.samples
      && Cut(c.markers, c'.markers, t - c.window, m)
      && (key !in sample || key !in c.series ==> c'.samples[key] == c.samples[key])
      && (key in sample && key in c.series ==>
            Cut(c.samples[key] + seq(|LinesWith(c.series, |c.series|, key)|, _ => Item(t, sample[key])),
                c'.samples[key], t - c.window, k))
  {
    k := LinesCut(c, |c.series|, key, t, sample);
    m := PrunedIs(c.markers, t - c.window);
    PushedOncePerLine(c.series, |c.series|, key, t, sample);
    var lines := LinesWith(c.series, |c.series|, key);
    if key in sample {
      assert PushedBy(c.series, |c.series|, key, t, sample) == seq(|lines|, _ => Item(t, sample[key]));
    }
    if key in c.series {
      var i :| 0 <= i < |c.series| && c.series[i] == key;
      assert i in lines;
    } else {
      assert lines == {};
    }
  }

  // ---------------------------------------------------------------- against the full history

  /** The points the first `n` lines push for the key: one for each line with it. */
  function PushedBy(series: seq<string>, n: nat, key: string, t: real, sample: map<string, real>): seq<Point>
    requires n <= |series|
  {
    if n == 0 then []
    else if series[n - 1] == key && key in sample then
      PushedBy(series, n - 1, key, t, sample) + [Item(t, sample[key])]
    else PushedBy(series, n - 1, key, t, sample)
  }

  /** Every point ever added for the key, in order. */
  function History(series: seq<string>, events: seq<Event>, key: string): seq<Point> {
    if events == [] then []
    else
      var e := events[|events| - 1];
      var earlier := History(series, events[..|events| - 1], key);
      if e.Sampled? then earlier + PushedBy(series, |series|, key, e.t, e.sample) else earlier
  }

  function MarkerHistory(events: seq<Event>): seq<Marker> {
    if events == [] then []
    else
      var e := events[|events| - 1];
      var earlier := MarkerHistory(events[..|events| - 1]);
      if e.Marked? then earlier + [Item(e.t, e.tag)] else earlier
  }

  /** No sample is later than `now`. */
  predicate SampledBy(events: seq<Event>, now: real) {
    forall i :: 0 <= i < |events| && events[i].Sampled? ==> events[i].t <= now
  }

  /** `kept` is `full` without some items from the front, all of them before `limit`. */
  ghost predicate Trails<V(!new)>(kept: seq<Item<V>>, full: seq<Item<V>>, limit: real) {
    exists gone: seq<Item<V>> :: full == gone + kept && AllBefore(gone, limit)
  }

  ghost predicate AllBefore<V>(items: seq<Item<V>>, limit: real) {
    forall i :: 0 <= i < |items| ==> items[i].t < limit
  }

  lemma {:induction false} PrunedTrails<V>(items: seq<Item<V>>, cutoff: real, limit: real) returns (gone: seq<Item<V>>)
    requires cutoff <= limit
    ensures items == gone + Pruned(items, cutoff) && AllBefore(gone, limit)
  {
    gone := [];
    if items != [] && items[0].t < cutoff {
      var rest := PrunedTrails(items[1..], cutoff, limit);
      gone := [items[0]] + rest;
      assert items == [items[0]] + items[1..];
    }
  }

  lemma PruningTrails<V(!new)>(kept: seq<Item<V>>, full: seq<Item<V>>, cutoff: real, limit: real)
    requires Trails(kept, full, limit) && cutoff <= limit
    ensures Trails(Pruned(kept, cutoff), full, limit)
  {
    var gone :| full == gone + kept && AllBefore(gone, limit);
    var more := PrunedTrails(kept, cutoff, limit);
    assert full == (gone + more) + Pruned(kept, cutoff);
    assert AllBefore(gone + more, limit);
  }

  lemma PushTrails<V(!new)>(kept: seq<Item<V>>, full: seq<Item<V>>, p: Item<V>, limit: real)
    requires Trails(kept, full, limit)
    ensures Trails(kept + [p], full + [p], limit)
  {
    var gone :| full == gone + kept && AllBefore(gone, limit);
    assert full + [p] == gone + (kept + [p]);
  }

  lemma {:induction false} LinesTrail(
      c: Chart, n: nat, key: string, t: real, sample: map<string, real>, full: seq<Point>, limit: real)
    requires n <= |c.series| && t - c.window <= limit
    requires key in c.samples && Trails(c.samples[key], full, limit)
    ensures var after := AddLines(c, n, t, sample);
      key in after && Trails(after[key], full + PushedBy(c.series, n, key, t, sample), limit)
  {
    if n == 0 {
      assert full + [] == full;
    } else {
      LinesTrail(c, n - 1, key, t, sample, full, limit);
      if c.series[n - 1] == key && key in sample {
        var kept, pushed := AddLines(c, n - 1, t, sample)[key], PushedBy(c.series, n - 1, key, t, sample);
        var p := Item(t, sample[key]);
        PushTrails(kept, full + pushed, p, limit);
        PruningTrails(kept + [p], (full + pushed) + [p], t - c.window, limit);
        assert (full + pushed) + [p] == full + (pushed + [p]);
      }
    }
  }

  /** Pruning only ever drops items that are too old for any later picture. */
  lemma {:induction false} RunTrails(window: real, series: seq<string>, events: seq<Event>, key: string, now: real)
    requires key in series && SampledBy(events, now)
    ensures var c := Run(Empty(window, series), events);
      && c.window == window && c.series == series && key in c.samples
      && Trails(c.samples[key], History(series, events, key), now - window)
      && Trails(c.markers, MarkerHistory(events), now - window)
  {
    if events == [] {
      assert [] == [] + History(series, events, key) && [] == [] + MarkerHistory(events);
      assert AllBefore<real>([], now - window) && AllBefore<string>([], now - window);
    } else {
      var before, e := events[..|events| - 1], events[|events| - 1];
      RunTrails(window, series, before, key, now);
      var c := Run(Empty(window, series), before);
      StepTrails(c, e, key, History(series, before, key), MarkerHistory(before), now - window);
    }
  }

  lemma StepTrails(c: Chart, e: Event, key: string, full: seq<Point>, marks: seq<Marker>, limit: real)
    requires key in c.samples && (e.Sampled? ==> e.t - c.window <= limit)
    requires Trails(c.samples[key], full, limit) && Trails(c.markers, marks, limit)
    ensures var c' := Apply(c, e);
      && key in c'.samples
      && Trails(c'.samples[key],
           if e.Sampled? then full + PushedBy(c.series, |c.series|, key, e.t, e.sample) else full, limit)
      && Trails(c'.markers, if e.Marked? then marks + [Item(e.t, e.tag)] else marks, limit)
  {
    match e {
      case Sampled(t, sample) =>
        LinesTrail(c, |c.series|, key, t, sample, full, limit);
        PruningTrails(c.markers, marks, t - c.window, limit);
      case Marked(t, tag) =>
        PushTrails(c.markers, marks, Item(t, tag), limit);
    }
  }

  lemma {:induction false} GoneAreInvisible(gone: seq<Point>, kept: seq<Point>, lo: real, hi: real)
    requires AllBefore(gone, lo)
    ensures Visible(gone + kept, lo, hi) == Visible(kept, lo, hi)
    decreases |gone| + |kept|
  {
    if kept != [] {
      assert (gone + kept)[..|gone + kept| - 1] == gone + kept[..|kept| - 1];
      GoneAreInvisible(gone, kept[..|kept| - 1], lo, hi);
    } else if gone != [] {
      assert gone + kept == gone;
      GoneAreInvisible(gone[..|gone| - 1], [], lo, hi);
      assert gone[..|gone| - 1] + [] == gone[..|gone| - 1];
    }
  }

  lemma {:induction false} GoneMarkersAreInvisible(gone: seq<Marker>, kept: seq<Marker>, window: real, now: real)
    requires window >= 0.0 && AllBefore(gone, now - window)
    ensures VisibleMarkers(gone + kept, window, now) == VisibleMarkers(kept, window, now)
    decreases |gone| + |kept|
  {
    if kept != [] {
      assert (gone + kept)[..|gone + kept| - 1] == gone + kept[..|kept| - 1];
      GoneMarkersAreInvisible(gone, kept[..|kept| - 1], window, now);
    } else if gone != [] {
      assert gone + kept == gone;
      GoneMarkersAreInvisible(gone[..|gone| - 1], [], window, now);
      assert gone[..|gone| - 1] + [] == gone[..|gone| - 1];
      NotShown(gone[|gone| - 1].t, window, now);
    }
  }

  lemma NotShown(t: real, window: real, now: real)
    requires window >= 0.0 && t < now - window
    ensures !MarkerShown(t, window, now)
  {
    if window > 0.0 {
      var r := (t - (now - window)) / window;
      assert r * window == t - (now - window);
      assert r >= 0.0 ==> r * window >= 0.0;
    }
  }

  lemma {:induction false} VisibleIsNoLonger(points: seq<Point>, lo: real, hi: real)
    ensures |Visible(points, lo, hi)| <= |points|
  {
    if points != [] {
      VisibleIsNoLonger(points[..|points| - 1], lo, hi);
    }
  }

  lemma SameSegments(kept: seq<Point>, full: seq<Point>, window: real, now: real)
    requires Trails(kept, full, now - window)
    ensures Segments(kept, window, now) == Segments(full, window, now)
  {
    var gone :| full == gone + kept && AllBefore(gone, now - window);
    GoneAreInvisible(gone, kept, now - window, now);
    VisibleIsNoLonger(kept, now - window, now);
  }

  lemma SameMarkers(kept: seq<Marker>, full: seq<Marker>, window: real, now: real)
    requires window >= 0.0 && Trails(kept, full, now - window)
    ensures VisibleMarkers(kept, window, now) == VisibleMarkers(full, window, now)
  {
    var gone :| full == gone + kept && AllBefore(gone, now - window);
    GoneMarkersAreInvisible(gone, kept, window, now);
  }

  /** The pruned chart draws exactly what a chart that never forgets would draw, at any time from the
      latest sample on, whatever order the samples' times come in; its markers need a window that is
      not negative. */
  lemma PrunedDrawsTheSame(window: real, series: seq<string>, events: seq<Event>, key: string, now: real)
    requires key in series && SampledBy(events, now)
    ensures var c := Run(Empty(window, series), events);
      && key in c.samples
      && Segments(c.samples[key], window, now) == Segments(History(series, events, key), window, now)
      && (window >= 0.0 ==>
            VisibleMarkers(c.markers, window, now) == VisibleMarkers(MarkerHistory(events), window, now))
  {
    RunTrails(window, series, events, key, now);
    var c := Run(Empty(window, series), events);
    SameSegments(c.samples[key], History(series, events, key), window, now);
    if window >= 0.0 {
      SameMarkers(c.markers, MarkerHistory(events), window, now);
    }
  }

  /** With every negative window, pruning drops a marker that the full history still shows. */
  lemma NegativeWindowLosesMarkers(window: real, series: seq<string>)
    requires window < 0.0
    ensures var events := [Marked(0.0, "MARK"), Sampled(0.0, map[])];
      && SampledBy(events, 0.0)
      && VisibleMarkers(Run(Empty(window, series), events).markers, window, 0.0)
           != VisibleMarkers(MarkerHistory(events), window, 0.0)
  {
    var mark, sample := Marked(0.0, "MARK"), Sampled(0.0, map[]);
    var events := [mark, sample];
    var marker: Marker := Item(0.0, "MARK");
    assert events[..1] == [mark] && [mark][..0] == [];
    assert Run(Empty(window, series), []).markers == [] && MarkerHistory([]) == [];
    assert Run(Empty(window, series), [mark]).markers == [marker] && MarkerHistory([mark]) == [marker];
    var c := Run(Empty(window, series), [mark]);
    assert c.window == window;
    assert [marker][1..] == [] && Pruned([marker], 0.0 - window) == Pruned([marker][1..], 0.0 - window) == [];
    assert Run(Empty(window, series), events).markers == [];
    assert MarkerHistory(events) == [marker];
    assert (0.0 - (0.0 - window)) / window == 1.0;
    assert [marker][..0] == [] && VisibleMarkers([marker], window, 0.0) == VisibleMarkers([], window, 0.0) + [marker];
  }

  // ---------------------------------------------------------------- bounded buffers

  ghost predicate Narrow(points: seq<Point>, window: real) {
    points != [] ==> points[|points| - 1].t - points[0].t <= window
  }

  ghost predicate Spaced(points: seq<Point>, d: real) {
    forall i :: 0 < i < |points| ==> points[i].t - points[i - 1].t >= d
  }

  lemma {:induction false} PrunedNarrow(points: seq<Point>, t: real, window: real)
    requires points != [] && points[|points| - 1].t == t
    ensures Narrow(Pruned(points, t - window), window)
  {
    if points[0].t < t - window && |points| > 1 {
      PrunedNarrow(points[1..], t, window);
    }
  }

  lemma {:induction false} LinesNarrow(c: Chart, n: nat, key: string, t: real, sample: map<string, real>)
    requires n <= |c.series|
    requires key in c.samples && Narrow(c.samples[key], c.window)
    ensures var after := AddLines(c, n, t, sample); key in after && Narrow(after[key], c.window)
  {
    if n > 0 {
      LinesNarrow(c, n - 1, key, t, sample);
      if c.series[n - 1] == key && key in sample {
        PrunedNarrow(AddLines(c, n - 1, t, sample)[key] + [Item(t, sample[key])], t, c.window);
      }
    }
  }

  lemma {:induction false} RunNarrow(window: real, series: seq<string>, events: seq<Event>, key: string)
    requires key in series
    ensures var c := Run(Empty(window, series), events);
      && c.window == window && c.series == series
      && key in c.samples && Narrow(c.samples[key], window)
  {
    if events != [] {
      RunNarrow(window, series, events[..|events| - 1], key);
      var c, e := Run(Empty(window, series), events[..|events| - 1]), events[|events| - 1];
      if e.Sampled? {
        LinesNarrow(c, |series|, key, e.t, e.sample);
      }
    }
  }

  lemma {:induction false} SpacedSpan(points: seq<Point>, d: real)
    requires points != [] && Spaced(points, d)
    ensures points[|points| - 1].t - points[0].t >= (|points| - 1) as real * d
  {
    var k := |points| - 1;
    if k > 0 {
      SpacedSpan(points[..k], d);
      assert k as real * d == (k - 1) as real * d + d;
    }
  }

  lemma FitsIn(n: nat, d: real, window: real)
    requires d > 0.0 && n as real * d <= window
    ensures n <= (window / d).Floor
  {
    RatioOrder(window, d, n as real);
  }

  lemma NarrowAndSpaced(points: seq<Point>, d: real, window: real)
    requires 0.0 < d && Narrow(points, window) && Spaced(points, d)
    ensures |points| <= Max(0, (window / d).Floor + 1)
  {
    if points != [] {
      SpacedSpan(points, d);
      FitsIn(|points| - 1, d, window);
    }
  }

  lemma {:induction false} LatestSample(events: seq<Event>) returns (now: real)
    ensures SampledBy(events, now)
  {
    now := 0.0;
    if events != [] {
      var k := |events| - 1;
      now := LatestSample(events[..k]);
      if events[k].Sampled? && events[k].t > now {
        now := events[k].t;
      }
      forall i | 0 <= i < |events| && events[i].Sampled? ensures events[i].t <= now {
        assert i < k ==> events[..k][i] == events[i];
      }
    }
  }

  /** With samples at least `d` apart a buffer never holds more than floor(window / d) + 1 points (none
      at all if that is negative). */
  lemma BufferBounded(window: real, series: seq<string>, events: seq<Event>, key: string, d: real)
    requires d > 0.0 && key in series
    requires Spaced(History(series, events, key), d)
    ensures var c := Run(Empty(window, series), events);
      key in c.samples && |c.samples[key]| <= Max(0, (window / d).Floor + 1)
  {
    var now := LatestSample(events);
    RunNarrow(window, series, events, key);
    RunTrails(window, series, events, key, now);
    var kept, full := Run(Empty(window, series), events).samples[key], History(series, events, key);
    var gone :| full == gone + kept && AllBefore(gone, now - window);
    SpacedTail(gone, kept, d);
    NarrowAndSpaced(kept, d, window);
  }

  lemma SpacedTail(gone: seq<Point>, kept: seq<Point>, d: real)
    requires Spaced(gone + kept, d)
    ensures Spaced(kept, d)
  {
    var full := gone + kept;
    forall i | 0 < i < |kept| ensures kept[i].t - kept[i - 1].t >= d {
      assert kept[i] == full[|gone| + i] && kept[i - 1] == full[|gone| + i - 1];
    }
  }
}
