/** The dashboard's GPS smoothing (client/gps.js): fixes arrive at any time, the display ticks at 10 Hz,
    and each tick moves the displayed fix towards a target by an exponential moving average. */
module GpsTracker {
  import opened Basics
  import opened Heading

  datatype Fix = Fix(
    t: real, recvMs: real, lat: real, lon: real, spd: real,
    hdg: Option<real>, acc: Option<real>, alt: Option<real>)

  /** What the browser reports; a missing value stands for null or a number that is not finite. */
  datatype Position = Position(
    t: real, latitude: Option<real>, longitude: Option<real>, speed: Option<real>,
    heading: Option<real>, accuracy: Option<real>, altitude: Option<real>)

  datatype Transition = Transition(from: Fix, to: Fix, startMs: real, durationMs: real)

  datatype Tracker = Tracker(
    mode: string, emaAlpha: real,
    prevFix: Option<Fix>, lastFix: Option<Fix>, displayFix: Option<Fix>, transition: Option<Transition>)

  function Lerp(a: real, b: real, alpha: real): real { a + Times(b - a, alpha) }

  function BlendAcc(from: Option<real>, to: Option<real>, alpha: real): Option<real> {
    Some(Lerp(Or(from, Or(to, 0.0)), Or(to, 0.0), alpha))
  }

  function BlendAlt(from: Option<real>, to: Option<real>, alpha: real): Option<real> {
    if from.Some? && to.Some? then Some(Lerp(from.value, to.value, alpha)) else to
  }

  function BlendHdg(from: Option<real>, to: Option<real>, alpha: real): Option<real> {
    if from.None? || to.None? then to else LerpHeading(from, to, alpha)
  }

  function LerpFix(from: Fix, to: Fix, alpha: real): Fix {
    to.(lat := Lerp(from.lat, to.lat, alpha), lon := Lerp(from.lon, to.lon, alpha),
        spd := Lerp(from.spd, to.spd, alpha), acc := BlendAcc(from.acc, to.acc, alpha),
        alt := BlendAlt(from.alt, to.alt, alpha), hdg := BlendHdg(from.hdg, to.hdg, alpha))
  }

  function SmoothFix(current: Option<Fix>, target: Fix, alpha: real): Fix {
    if current.None? then target else LerpFix(current.value, target, alpha)
  }

  predicate IsValidLatLon(p: Position) {
    && p.latitude.Some? && p.longitude.Some?
    && -90.0 <= p.latitude.value <= 90.0 && -180.0 <= p.longitude.value <= 180.0
  }

  /** The fix a position is turned into, if it is accepted. */
  function Accepted(p: Position, recvMs: real): Option<Fix> {
    if !IsValidLatLon(p) then None
    else Some(Fix(p.t, recvMs, p.latitude.value, p.longitude.value, Or(p.speed, 0.0),
                  NormalizeHeading(p.heading), p.accuracy, p.altitude))
  }

  function OnPosition(g: Tracker, p: Position, recvMs: real, startMs: real): Tracker {
    var fix := Accepted(p, recvMs);
    if fix.None? then g
    else
      g.(prevFix := g.lastFix, lastFix := fix,
         transition :=
           if g.lastFix.None? then g.transition
           else Some(Transition(g.lastFix.value, fix.value, startMs,
                                Clamp((fix.value.t - g.lastFix.value.t) * 1000.0, 250.0, 2000.0))),
         displayFix := if g.displayFix.None? then fix else g.displayFix)
  }

  /** How far the transition has come, from 0 to 1. */
  function Progress(tr: Transition, nowMs: real): real {
    if tr.durationMs > 0.0 then Clamp((nowMs - tr.startMs) / tr.durationMs, 0.0, 1.0) else 1.0
  }

  function Target(g: Tracker, nowMs: real): Fix
    requires g.lastFix.Some?
  {
    if g.mode == "lerp" && g.transition.Some? then
      var tr := g.transition.value;
      LerpFix(tr.from, tr.to, Progress(tr, nowMs))
    else g.lastFix.value
  }

  function Tick(g: Tracker, nowMs: real): Tracker {
    if g.lastFix.None? then g
    else
      var done := g.mode == "lerp" && g.transition.Some? && Progress(g.transition.value, nowMs) >= 1.0;
      g.(displayFix := Some(SmoothFix(g.displayFix, Target(g, nowMs), g.emaAlpha)),
         transition := if done then None else g.transition)
  }

  datatype View = NoFix | Shown(fix: Fix, stale: bool, ageMs: real)

  class GpsTracker {
    const emaAlpha: real
    const staleMs: real
    var mode: string
    var prevFix: Option<Fix>
    var lastFix: Option<Fix>
    var displayFix: Option<Fix>
    var transition: Option<Transition>

    function State(): Tracker
      reads this
    {
      Tracker(mode, emaAlpha, prevFix, lastFix, displayFix, transition)
    }

    /** Durations are clamped when a transition is made, so `tick` never divides by zero. */
    predicate Valid()
      reads this
    {
      transition.Some? ==> transition.value.durationMs > 0.0
    }

    constructor (mode: string, emaAlpha: real, staleMs: real)
      ensures Valid() && State() == Start(mode, emaAlpha) && this.staleMs == staleMs
    {
      this.mode, this.emaAlpha, this.staleMs := mode, emaAlpha, staleMs;
      prevFix, lastFix, displayFix, transition := None, None, None, None;
    }

    method SetMode(mode: string)
      requires Valid()
      modifies this
      ensures Valid() && State() == old(State()).(mode := mode)
    {
      this.mode := mode;
    }

    /** The `watchPosition` callback; `recvMs` and `startMs` are its two clock readings. */
    method HandlePosition(p: Position, recvMs: real, startMs: real)
      requires Valid()
      modifies this
      ensures Valid() && State() == OnPosition(old(State()), p, recvMs, startMs)
      ensures mode == old(mode) && (Accepted(p, recvMs).None? ==> State() == old(State()))
      ensures Accepted(p, recvMs).Some? ==>
        && lastFix == Accepted(p, recvMs) && prevFix == old(lastFix)
        && displayFix == (if old(displayFix).None? then lastFix else old(displayFix))
        && (old(lastFix).None? ==> transition == old(transition))
        && (old(lastFix).Some? ==>
              && transition.Some?
              && (transition.value.from, transition.value.to) == (old(lastFix).value, lastFix.value)
              && transition.value.startMs == startMs
              && var apartMs := 1000.0 * (lastFix.value.t - old(lastFix).value.t);
                 transition.value.durationMs ==
                   if apartMs < 250.0 then 250.0 else if apartMs > 2000.0 then 2000.0 else apartMs)
    {
      if !IsValidLatLon(p) {
        return;
      }
      var fix := Fix(p.t, recvMs, p.latitude.value, p.longitude.value, Or(p.speed, 0.0),
                     NormalizeHeading(p.heading), p.accuracy, p.altitude);
      prevFix := lastFix;
      lastFix := Some(fix);
      if prevFix.Some? {
        var rawDuration := (fix.t - prevFix.value.t) * 1000.0;
        var durationMs := Clamp(rawDuration, 250.0, 2000.0);
        transition := Some(Transition(prevFix.value, fix, startMs, durationMs));
      }
      if displayFix.None? {
        displayFix := Some(fix);
      }
    }

    method TickAt(nowMs: real) returns (view: View)
      requires Valid()
      modifies this
      ensures Valid() && State() == Tick(old(State()), nowMs)
      ensures mode == old(mode) && prevFix == old(prevFix) && lastFix == old(lastFix)
      ensures lastFix.None? ==> displayFix == old(displayFix) && transition == old(transition)
      ensures view.NoFix? <==> lastFix.None?
      ensures view.Shown? ==>
        && displayFix == Some(view.fix)
        && view.ageMs == nowMs - lastFix.value.recvMs
        && (view.stale <==> view.ageMs > staleMs)
    {
      if lastFix.None? {
        return NoFix;
      }
      var target := lastFix.value;
      if mode == "lerp" && transition.Some? {
        var tr := transition.value;
        var alpha := Clamp((nowMs - tr.startMs) / tr.durationMs, 0.0, 1.0);
        target := LerpFix(tr.from, tr.to, alpha);
        if alpha >= 1.0 {
          transition := None;
        }
      }
      displayFix := Some(SmoothFix(displayFix, target, emaAlpha));
      var ageMs := nowMs - lastFix.value.recvMs;
      view := Shown(displayFix.value, ageMs > staleMs, ageMs);
    }
  }

  function Start(mode: string, emaAlpha: real): Tracker { Tracker(mode, emaAlpha, None, None, None, None) }

  datatype Event =
    | Positioned(position: Position, recvMs: real, startMs: real)
    | Ticked(nowMs: real)
    | ModeSet(mode: string)

  function Apply(g: Tracker, e: Event): Tracker {
    match e
    case Positioned(p, recvMs, startMs) => OnPosition(g, p, recvMs, startMs)
    case Ticked(nowMs) => Tick(g, nowMs)
    case ModeSet(mode) => g.(mode := mode)
  }

  function Run(g: Tracker, events: seq<Event>): Tracker
    decreases |events|
  {
    if events == [] then g else Run(Apply(g, events[0]), events[1..])
  }

  /** Which positions are accepted, and what they become: a missing speed is zero, other missing values
      stay missing, and a heading becomes the equal one in [0, 360). */
  lemma AcceptedIs(p: Position, recvMs: real) returns (turns: int)
    ensures Accepted(p, recvMs).Some? <==>
      && p.latitude.Some? && -90.0 <= p.latitude.value <= 90.0
      && p.longitude.Some? && -180.0 <= p.longitude.value <= 180.0
    ensures Accepted(p, recvMs).Some? ==>
      var fix := Accepted(p, recvMs).value;
      && fix.t == p.t && fix.recvMs == recvMs
      && Some(fix.lat) == p.latitude && Some(fix.lon) == p.longitude
      && (fix.acc, fix.alt) == (p.accuracy, p.altitude)
      && fix.spd == (match p.speed case None => 0.0 case Some(v) => v)
      && (p.heading.None? ==> fix.hdg.None?)
      && (p.heading.Some? ==>
            fix.hdg.Some? && 0.0 <= fix.hdg.value < 360.0 && fix.hdg.value == p.heading.value - 360.0 * turns as real)
  {
    turns := 0;
    if p.heading.Some? {
      NormalizedIsCircle(p.heading.value);
      turns := (p.heading.value / 360.0).Floor;
    }
  }

  // ---------------------------------------------------------------- staying inside the hull

  datatype Component = Latitude | Longitude | Speed

  function Get(f: Fix, c: Component): real {
    match c
    case Latitude => f.lat
    case Longitude => f.lon
    case Speed => f.spd
  }

  predicate FixWithin(f: Option<Fix>, c: Component, lo: real, hi: real) {
    f.Some? ==> lo <= Get(f.value, c) <= hi
  }

  /** Every fix the tracker holds is within the bounds. */
  predicate Within(g: Tracker, c: Component, lo: real, hi: real) {
    && FixWithin(g.prevFix, c, lo, hi) && FixWithin(g.lastFix, c, lo, hi) && FixWithin(g.displayFix, c, lo, hi)
    && (g.transition.Some? ==>
          FixWithin(Some(g.transition.value.from), c, lo, hi) && FixWithin(Some(g.transition.value.to), c, lo, hi))
  }

  predicate AcceptedWithin(events: seq<Event>, c: Component, lo: real, hi: real) {
    forall i :: 0 <= i < |events| && events[i].Positioned? ==>
      FixWithin(Accepted(events[i].position, events[i].recvMs), c, lo, hi)
  }

  lemma LerpBetween(a: real, b: real, alpha: real, lo: real, hi: real)
    requires lo <= a <= hi && lo <= b <= hi && 0.0 <= alpha <= 1.0
    ensures lo <= Lerp(a, b, alpha) <= hi
  {
    TimesShrinks(b - a, alpha);
  }

  lemma StepWithin(g: Tracker, e: Event, c: Component, lo: real, hi: real)
    requires 0.0 <= g.emaAlpha <= 1.0 && Within(g, c, lo, hi) && AcceptedWithin([e], c, lo, hi)
    ensures Within(Apply(g, e), c, lo, hi)
  {
    match e {
      case Positioned(_, _, _) => assert [e][0] == e;
      case ModeSet(_) =>
      case Ticked(nowMs) =>
        if g.lastFix.Some? {
          var target := Target(g, nowMs);
          if g.mode == "lerp" && g.transition.Some? {
            var tr := g.transition.value;
            LerpBetween(Get(tr.from, c), Get(tr.to, c), Progress(tr, nowMs), lo, hi);
          }
          assert lo <= Get(target, c) <= hi;
          if g.displayFix.Some? {
            LerpBetween(Get(g.displayFix.value, c), Get(target, c), g.emaAlpha, lo, hi);
          }
        }
    }
  }

  /** The displayed position and speed stay between any bounds that hold of all accepted fixes, whatever
      the interleaving of fixes, ticks and mode changes. */
  lemma {:induction false} ConvexHull(g: Tracker, events: seq<Event>, c: Component, lo: real, hi: real)
    requires 0.0 <= g.emaAlpha <= 1.0 && Within(g, c, lo, hi) && AcceptedWithin(events, c, lo, hi)
    ensures Within(Run(g, events), c, lo, hi)
    decreases |events|
  {
    if events != [] {
      assert [events[0]][0] == events[0];
      StepWithin(g, events[0], c, lo, hi);
      ConvexHull(Apply(g, events[0]), events[1..], c, lo, hi);
    }
  }

  /** On a fresh tracker the display is always a place on earth. */
  lemma DisplayIsOnEarth(mode: string, emaAlpha: real, events: seq<Event>)
    requires 0.0 <= emaAlpha <= 1.0
    ensures var shown := Run(Start(mode, emaAlpha), events).displayFix;
      shown.Some? ==> -90.0 <= shown.value.lat <= 90.0 && -180.0 <= shown.value.lon <= 180.0
  {
    ConvexHull(Start(mode, emaAlpha), events, Latitude, -90.0, 90.0);
    ConvexHull(Start(mode, emaAlpha), events, Longitude, -180.0, 180.0);
  }

  // ---------------------------------------------------------------- blending and interpolation

  /** The share `alpha` has been taken off a distance. */
  predicate Shrunk(before: real, after: real, alpha: real) { after == before * (1.0 - alpha) }

  /** Blending takes the share `alpha` off every distance to the second fix. An unknown accuracy counts as
      the second fix's, or zero; an altitude or a heading missing on either side is the second fix's;
      everything else is the second fix's. Headings that are both there follow `Heading.Contraction`. */
  lemma BlendFields(from: Fix, to: Fix, alpha: real, c: Component)
    ensures var r := LerpFix(from, to, alpha);
      && SmoothFix(Some(from), to, alpha) == r && SmoothFix(None, to, alpha) == to
      && (r.t, r.recvMs) == (to.t, to.recvMs)
      && Shrunk(Get(from, c) - Get(to, c), Get(r, c) - Get(to, c), alpha)
      && r.acc.Some?
      && (to.acc.Some? && from.acc.Some? ==> Shrunk(from.acc.value - to.acc.value, r.acc.value - to.acc.value, alpha))
      && (to.acc.Some? && from.acc.None? ==> r.acc == to.acc)
      && (to.acc.None? && from.acc.Some? ==> Shrunk(from.acc.value, r.acc.value, alpha))
      && (to.acc.None? && from.acc.None? ==> r.acc.value == 0.0)
      && (from.alt.None? || to.alt.None? ==> r.alt == to.alt)
      && (from.alt.Some? && to.alt.Some? ==>
            r.alt.Some? && Shrunk(from.alt.value - to.alt.value, r.alt.value - to.alt.value, alpha))
      && (from.hdg.None? || to.hdg.None? ==> r.hdg == to.hdg)
      && (from.hdg.Some? && to.hdg.Some? ==> r.hdg == LerpHeading(from.hdg, to.hdg, alpha))
  {
    LerpShrinks(Get(from, c), Get(to, c), alpha);
    LerpShrinks(Or(from.acc, Or(to.acc, 0.0)), Or(to.acc, 0.0), alpha);
    LerpShrinks(Or(from.alt, 0.0), Or(to.alt, 0.0), alpha);
  }

  lemma LerpShrinks(a: real, b: real, alpha: real)
    ensures Shrunk(a - b, Lerp(a, b, alpha) - b, alpha)
    ensures a == b ==> Lerp(a, b, alpha) == b
  {
    LerpError(a, b, alpha);
  }

  /** Until a transition starts the target is where it comes from; while it runs, the target has covered
      the share of the way that has passed of the time; from its end on, the target is where it leads. The
      first tick at or after the end drops it. */
  lemma Interpolates(g: Tracker, nowMs: real, c: Component)
    requires Sound(g) && g.mode == "lerp" && g.transition.Some?
    ensures var tr := g.transition.value; var endMs := tr.startMs + tr.durationMs;
      var from, to, at := Get(tr.from, c), Get(tr.to, c), Get(Target(g, nowMs), c);
      && (nowMs <= tr.startMs ==> at == from)
      && (tr.startMs <= nowMs <= endMs ==> (at - from) * tr.durationMs == (nowMs - tr.startMs) * (to - from))
      && (nowMs >= endMs ==> at == to)
      && Tick(g, nowMs).transition == if nowMs < endMs then g.transition else None
  {
    var tr := g.transition.value;
    var d, gone := tr.durationMs, nowMs - tr.startMs;
    var way := Get(tr.to, c) - Get(tr.from, c);
    RatioOrder(gone, d, 0.0);
    RatioOrder(gone, d, 1.0);
    var share := gone / d;
    assert share * d == gone;
    assert Times(way, 0.0) == 0.0;
    TimesOne(way, 1.0);
    if nowMs < tr.startMs + d {
      assert share < 1.0 by {
        MulOrder(1.0, share, d);
      }
    }
    if tr.startMs <= nowMs <= tr.startMs + d {
      Proportion(way, share, d, gone);
    }
  }

  lemma Proportion(way: real, share: real, d: real, gone: real)
    requires share * d == gone
    ensures Times(way, share) * d == gone * way
  {
    assert way * share * d == way * (share * d);
  }

  /** In any other mode, and without a transition, the target is the last fix, and the transition stays. */
  lemma HoldsLastFix(g: Tracker, nowMs: real)
    requires g.lastFix.Some? && (g.mode != "lerp" || g.transition.None?)
    ensures Target(g, nowMs) == g.lastFix.value && Tick(g, nowMs).transition == g.transition
  {
  }

  /** A tick moves the display by the moving average towards that target, and touches no fix. */
  lemma TickMoves(g: Tracker, nowMs: real, c: Component)
    requires g.lastFix.Some?
    ensures var g' := Tick(g, nowMs); var target := Target(g, nowMs);
      && (g'.prevFix, g'.lastFix, g'.mode, g'.emaAlpha) == (g.prevFix, g.lastFix, g.mode, g.emaAlpha)
      && g'.displayFix.Some?
      && (g.displayFix.None? ==> g'.displayFix.value == target)
      && (g.displayFix.Some? ==>
            Shrunk(Get(g.displayFix.value, c) - Get(target, c),
                   Get(g'.displayFix.value, c) - Get(target, c), g.emaAlpha))
  {
    if g.displayFix.Some? {
      BlendFields(g.displayFix.value, Target(g, nowMs), g.emaAlpha, c);
    }
  }

  // ---------------------------------------------------------------- the tracker's invariant

  predicate HeadingOk(f: Option<Fix>) { f.Some? ==> IsHeading(f.value.hdg) }

  /** Headings are normalized; a transition leads from the previous fix to the last one, in 250 to 2000 ms. */
  predicate Sound(g: Tracker) {
    && HeadingOk(g.prevFix) && HeadingOk(g.lastFix) && HeadingOk(g.displayFix)
    && (g.lastFix.Some? ==> g.displayFix.Some?)
    && (g.transition.Some? ==>
          && g.prevFix == Some(g.transition.value.from) && g.lastFix == Some(g.transition.value.to)
          && 250.0 <= g.transition.value.durationMs <= 2000.0)
  }

  lemma BlendedHeading(from: Option<real>, to: Option<real>, alpha: real)
    requires IsHeading(from) && IsHeading(to)
    ensures IsHeading(BlendHdg(from, to, alpha))
  {
    if from.Some? && to.Some? {
      LerpIsPartOfTurn(from.value, to.value, alpha);
    }
  }

  lemma StepSound(g: Tracker, e: Event)
    requires Sound(g)
    ensures Sound(Apply(g, e))
  {
    match e {
      case Positioned(p, _, _) =>
        if p.heading.Some? {
          NormalizedIsCircle(p.heading.value);
        }
      case ModeSet(_) =>
      case Ticked(nowMs) =>
        if g.lastFix.Some? {
          var target := Target(g, nowMs);
          if g.transition.Some? {
            var tr := g.transition.value;
            BlendedHeading(tr.from.hdg, tr.to.hdg, Progress(tr, nowMs));
          }
          BlendedHeading(g.displayFix.value.hdg, target.hdg, g.emaAlpha);
        }
    }
  }

  lemma {:induction false} RunSound(g: Tracker, events: seq<Event>)
    requires Sound(g)
    ensures Sound(Run(g, events))
    decreases |events|
  {
    if events != [] {
      StepSound(g, events[0]);
      RunSound(Apply(g, events[0]), events[1..]);
    }
  }

  // ---------------------------------------------------------------- convergence

  /** The transition, if one is left, is over. */
  predicate Settled(g: Tracker, nowMs: real) {
    g.transition.Some? ==> nowMs >= g.transition.value.startMs + g.transition.value.durationMs
  }

  /** A finished transition shows its end: up to an unknown accuracy, which displays as zero anyway,
      the target is the last fix. */
  lemma SettledTarget(g: Tracker, nowMs: real)
    requires Sound(g) && g.lastFix.Some? && Settled(g, nowMs)
    ensures var target := Target(g, nowMs); var last := g.lastFix.value;
      target == last || (target == last.(acc := Some(Or(last.acc, 0.0))))
  {
    if g.mode == "lerp" && g.transition.Some? {
      var tr := g.transition.value;
      ProgressDone(tr, nowMs);
      LerpEnds(tr.from, tr.to);
      if tr.from.hdg.Some? && tr.to.hdg.Some? {
        var a, b := tr.from.hdg.value, tr.to.hdg.value;
        LerpIsPartOfTurn(a, b, 1.0);
        TurnIsShortest(a, b, 0.0, 0);
        CircleUnique(b, b, 0);
      }
    }
  }

  lemma ProgressDone(tr: Transition, nowMs: real)
    requires tr.durationMs > 0.0 && nowMs >= tr.startMs + tr.durationMs
    ensures Progress(tr, nowMs) == 1.0
  {
    RatioOrder(nowMs - tr.startMs, tr.durationMs, 1.0);
  }

  lemma LerpEnds(from: Fix, to: Fix)
    ensures
      && Lerp(from.lat, to.lat, 1.0) == to.lat && Lerp(from.lon, to.lon, 1.0) == to.lon
      && Lerp(from.spd, to.spd, 1.0) == to.spd
      && BlendAcc(from.acc, to.acc, 1.0) == Some(Or(to.acc, 0.0)) && BlendAlt(from.alt, to.alt, 1.0) == to.alt
  {
  }

  /** The signed error of the display against the last fix. */
  function Error(g: Tracker, c: Component): real
    requires g.lastFix.Some? && g.displayFix.Some?
  {
    Get(g.displayFix.value, c) - Get(g.lastFix.value, c)
  }

  function Ticks(events: seq<Event>): nat {
    if events == [] then 0 else (if events[0].Ticked? then 1 else 0) + Ticks(events[1..])
  }

  /** Ticks and mode changes only, every tick at or after `fromMs`. */
  predicate QuietFrom(events: seq<Event>, fromMs: real) {
    forall i :: 0 <= i < |events| ==> !events[i].Positioned? && (events[i].Ticked? ==> events[i].nowMs >= fromMs)
  }

  lemma QuietStep(g: Tracker, e: Event, fromMs: real, c: Component)
    requires Sound(g) && g.lastFix.Some? && Settled(g, fromMs) && QuietFrom([e], fromMs)
    ensures var g' := Apply(g, e);
      && Sound(g') && g'.lastFix == g.lastFix && g'.emaAlpha == g.emaAlpha && Settled(g', fromMs)
      && Error(g', c) == Times(Error(g, c), Factor(e, g.emaAlpha))
  {
    assert [e][0] == e;
    StepSound(g, e);
    if e.Ticked? {
      SettledTarget(g, e.nowMs);
      var shown, last := Get(g.displayFix.value, c), Get(g.lastFix.value, c);
      LerpError(shown, last, g.emaAlpha);
    }
  }

  lemma LerpError(a: real, b: real, alpha: real)
    ensures Lerp(a, b, alpha) - b == Times(a - b, 1.0 - alpha)
  {
    var d := a - b;
    assert (b - a) * alpha == -(d * alpha);
    assert d * (1.0 - alpha) == d - d * alpha;
  }

  /** What one event multiplies an error by. */
  function Factor(e: Event, emaAlpha: real): real { if e.Ticked? then 1.0 - emaAlpha else 1.0 }

  function Decay(events: seq<Event>, emaAlpha: real): real { Pow(1.0 - emaAlpha, Ticks(events)) }

  lemma DecayStep(events: seq<Event>, emaAlpha: real)
    requires events != []
    ensures Decay(events, emaAlpha) == Factor(events[0], emaAlpha) * Decay(events[1..], emaAlpha)
  {
  }

  /** Once the transition is over, `n` ticks multiply the error by exactly `(1 - emaAlpha)^n`, whatever
      the modes in between. */
  lemma {:induction false} Converges(g: Tracker, events: seq<Event>, fromMs: real, c: Component)
    requires Sound(g) && g.lastFix.Some? && Settled(g, fromMs) && QuietFrom(events, fromMs)
    ensures var end := Run(g, events);
      && end.lastFix == g.lastFix && end.displayFix.Some?
      && Error(end, c) == Times(Error(g, c), Decay(events, g.emaAlpha))
    decreases |events|
  {
    if events == [] {
      TimesOne(Error(g, c), Decay(events, g.emaAlpha));
    } else {
      var e, rest, g' := events[0], events[1..], Apply(g, events[0]);
      assert [e][0] == e;
      QuietStep(g, e, fromMs, c);
      Converges(g', rest, fromMs, c);
      DecayStep(events, g.emaAlpha);
      TimesChain(Error(g, c), Error(g', c), Error(Run(g', rest), c),
                 Factor(e, g.emaAlpha), Decay(rest, g.emaAlpha), Decay(events, g.emaAlpha));
    }
  }

  /** The displayed fix after `n` more ticks towards the same target. */
  function Approach(shown: Fix, last: Fix, emaAlpha: real, n: nat): Fix
    decreases n
  {
    if n == 0 then shown else Approach(SmoothFix(Some(shown), last, emaAlpha), last, emaAlpha, n - 1)
  }

  /** From the end of its transition on, what a tracker shows depends on the number of ticks alone: not on
      their times and not on the modes. */
  lemma {:induction false} SettledDisplay(g: Tracker, events: seq<Event>, fromMs: real)
    requires Sound(g) && g.lastFix.Some? && Settled(g, fromMs) && QuietFrom(events, fromMs)
    ensures var end := Run(g, events);
      && end.lastFix == g.lastFix
      && end.displayFix == Some(Approach(g.displayFix.value, g.lastFix.value, g.emaAlpha, Ticks(events)))
    decreases |events|
  {
    if events != [] {
      var e, g' := events[0], Apply(g, events[0]);
      assert [e][0] == e;
      QuietStep(g, e, fromMs, Speed);
      if e.Ticked? {
        SettledTarget(g, e.nowMs);
      }
      SettledDisplay(g', events[1..], fromMs);
    }
  }

  /** So two trackers that agree then show the same after any runs with the same number of ticks,
      whatever their modes are and become. */
  lemma ModesAgree(
      g1: Tracker, events1: seq<Event>, from1: real, g2: Tracker, events2: seq<Event>, from2: real)
    requires Sound(g1) && Settled(g1, from1) && QuietFrom(events1, from1)
    requires Sound(g2) && Settled(g2, from2) && QuietFrom(events2, from2)
    requires g1.lastFix == g2.lastFix && g1.lastFix.Some? && g1.displayFix == g2.displayFix
    requires g1.emaAlpha == g2.emaAlpha && Ticks(events1) == Ticks(events2)
    ensures Run(g1, events1).displayFix == Run(g2, events2).displayFix
  {
    SettledDisplay(g1, events1, from1);
    SettledDisplay(g2, events2, from2);
  }

  predicate HasHeadings(g: Tracker) {
    g.lastFix.Some? && g.displayFix.Some? && g.lastFix.value.hdg.Some? && g.displayFix.value.hdg.Some?
  }

  /** The signed shortest turn from the displayed heading to the last one. */
  function HeadingError(g: Tracker): real
    requires HasHeadings(g)
  {
    Turn(g.displayFix.value.hdg.value, g.lastFix.value.hdg.value)
  }

  lemma HeadingStep(a: real, shown: Fix, last: Fix, emaAlpha: real) returns (b: real)
    requires 0.0 <= emaAlpha <= 1.0 && shown.hdg == Some(a) && 0.0 <= a < 360.0
    requires last.hdg.Some? && IsHeading(last.hdg)
    ensures SmoothFix(Some(shown), last, emaAlpha).hdg == Some(b) && 0.0 <= b < 360.0
    ensures Turn(b, last.hdg.value) == Times(Turn(a, last.hdg.value), 1.0 - emaAlpha)
  {
    Contraction(a, last.hdg.value, emaAlpha);
    b := SmoothFix(Some(shown), last, emaAlpha).hdg.value;
  }

  lemma TurnChain(a: real, b: real, end: real, goal: real, k: real, n: nat)
    requires n > 0
    requires Turn(b, goal) == Times(Turn(a, goal), k) && Turn(end, goal) == Times(Turn(b, goal), Pow(k, n - 1))
    ensures Turn(end, goal) == Times(Turn(a, goal), Pow(k, n))
  {
    TimesChain(Turn(a, goal), Turn(b, goal), Turn(end, goal), k, Pow(k, n - 1), Pow(k, n));
  }

  lemma {:induction false} ApproachHeading(a: real, shown: Fix, last: Fix, emaAlpha: real, n: nat) returns (end: real)
    requires 0.0 <= emaAlpha <= 1.0 && shown.hdg == Some(a) && 0.0 <= a < 360.0
    requires last.hdg.Some? && IsHeading(last.hdg)
    ensures Approach(shown, last, emaAlpha, n).hdg == Some(end)
    ensures Turn(end, last.hdg.value) == Times(Turn(a, last.hdg.value), Pow(1.0 - emaAlpha, n))
    decreases n
  {
    if n == 0 {
      end := a;
      TimesOne(Turn(a, last.hdg.value), Pow(1.0 - emaAlpha, 0));
    } else {
      var b := HeadingStep(a, shown, last, emaAlpha);
      end := ApproachHeading(b, SmoothFix(Some(shown), last, emaAlpha), last, emaAlpha, n - 1);
      TurnChain(a, b, end, last.hdg.value, 1.0 - emaAlpha, n);
    }
  }

  /** The same for the heading, on the circle and along the shortest way. */
  lemma HeadingConverges(g: Tracker, events: seq<Event>, fromMs: real)
    requires Sound(g) && HasHeadings(g) && Settled(g, fromMs) && QuietFrom(events, fromMs)
    requires 0.0 <= g.emaAlpha <= 1.0
    ensures var end := Run(g, events);
      && end.lastFix == g.lastFix && HasHeadings(end)
      && HeadingError(end) == Times(HeadingError(g), Decay(events, g.emaAlpha))
  {
    SettledDisplay(g, events, fromMs);
    var _ :=
      ApproachHeading(g.displayFix.value.hdg.value, g.displayFix.value, g.lastFix.value, g.emaAlpha, Ticks(events));
  }
}
