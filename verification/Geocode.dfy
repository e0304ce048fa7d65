/** Reverse geocoding: the server's host fallback (server/app.py, `api_naver_reverse_geocode`) and the
    dashboard's request limiter (client/naver-roadview.js, `_maybeReverseGeocode`).

    Distances come from a function that nothing is assumed about. */
module Geocode {
  import opened Basics

  // ---------------------------------------------------------------- server: host fallback

  datatype Body = NoPayload | ApiError | Result(address: Option<string>)

  /** What asking one host comes to. */
  datatype HostOutcome = Raised | Answered(status: int, body: Body) {
    predicate IsAuth() { Answered? && (status == 401 || status == 403) }
    predicate IsRateLimit() { Answered? && status == 429 }
    predicate IsUsable() { Answered? && status == 200 && body.Result? }
  }

  datatype Reply = Success(address: Option<string>) | HttpError(status: int)

  function FirstUsable(hosts: seq<HostOutcome>): Option<HostOutcome> {
    if hosts == [] then None else if hosts[0].IsUsable() then Some(hosts[0]) else FirstUsable(hosts[1..])
  }

  function LastAuth(hosts: seq<HostOutcome>): Option<HostOutcome> {
    if hosts == [] then None
    else
      var k := |hosts| - 1;
      if hosts[k].IsAuth() then Some(hosts[k]) else LastAuth(hosts[..k])
  }

  predicate AnyRateLimit(hosts: seq<HostOutcome>) {
    exists i :: 0 <= i < |hosts| && hosts[i].IsRateLimit()
  }

  predicate AnyUsable(hosts: seq<HostOutcome>) {
    exists i :: 0 <= i < |hosts| && hosts[i].IsUsable()
  }

  predicate AnyAuth(hosts: seq<HostOutcome>) {
    exists i :: 0 <= i < |hosts| && hosts[i].IsAuth()
  }

  function Fallback(hosts: seq<HostOutcome>): Reply {
    var usable, auth := FirstUsable(hosts), LastAuth(hosts);
    if usable.Some? && usable.value.Answered? && usable.value.body.Result? then Success(usable.value.body.address)
    else if auth.Some? && auth.value.Answered? then HttpError(auth.value.status)
    else if AnyRateLimit(hosts) then HttpError(429)
    else HttpError(502)
  }

  lemma {:induction false} FirstUsableIs(hosts: seq<HostOutcome>, i: nat)
    requires i < |hosts| && hosts[i].IsUsable()
    requires forall j :: 0 <= j < i ==> !hosts[j].IsUsable()
    ensures FirstUsable(hosts) == Some(hosts[i])
  {
    if i > 0 {
      assert !hosts[0].IsUsable();
      FirstUsableIs(hosts[1..], i - 1);
    }
  }

  lemma {:induction false} NoUsable(hosts: seq<HostOutcome>)
    ensures FirstUsable(hosts).None? <==> !AnyUsable(hosts)
    ensures FirstUsable(hosts).Some? ==> FirstUsable(hosts).value.IsUsable()
  {
    if hosts != [] && !hosts[0].IsUsable() {
      NoUsable(hosts[1..]);
      if AnyUsable(hosts) {
        var i :| 0 <= i < |hosts| && hosts[i].IsUsable();
        assert hosts[1..][i - 1].IsUsable();
      }
    }
  }

  lemma {:induction false} LastAuthIs(hosts: seq<HostOutcome>)
    ensures LastAuth(hosts).None? <==> !AnyAuth(hosts)
    ensures LastAuth(hosts).Some? ==>
      exists i :: 0 <= i < |hosts| && hosts[i].IsAuth() && LastAuth(hosts) == Some(hosts[i])
        && forall j :: i < j < |hosts| ==> !hosts[j].IsAuth()
  {
    if hosts != [] {
      var k := |hosts| - 1;
      if !hosts[k].IsAuth() {
        LastAuthIs(hosts[..k]);
        if AnyAuth(hosts) {
          var i :| 0 <= i < |hosts| && hosts[i].IsAuth();
          assert hosts[..k][i].IsAuth();
        }
      }
    }
  }

  /** The host answered with the given status. */
  predicate Said(h: HostOutcome, status: int) { h.Answered? && h.status == status }

  /** Precedence: the first usable host's answer; else the last authentication error; else a rate
      limit; else 502. Exactly one of the four applies. The four kinds go by the statuses 200, 401 and 403,
      and 429. */
  lemma Precedence(hosts: seq<HostOutcome>)
    ensures forall i :: 0 <= i < |hosts| ==>
      && (hosts[i].IsUsable() <==> Said(hosts[i], 200) && hosts[i].body.Result?)
      && (hosts[i].IsAuth() <==> Said(hosts[i], 401) || Said(hosts[i], 403))
      && (hosts[i].IsRateLimit() <==> Said(hosts[i], 429))
    ensures AnyUsable(hosts) ==>
      exists i :: 0 <= i < |hosts| && hosts[i].IsUsable() && (forall j :: 0 <= j < i ==> !hosts[j].IsUsable())
        && Fallback(hosts) == Success(hosts[i].body.address)
    ensures !AnyUsable(hosts) && AnyAuth(hosts) ==>
      exists i :: 0 <= i < |hosts| && hosts[i].IsAuth() && (forall j :: i < j < |hosts| ==> !hosts[j].IsAuth())
        && Fallback(hosts) == HttpError(hosts[i].status)
    ensures !AnyUsable(hosts) && !AnyAuth(hosts) ==>
      Fallback(hosts) == HttpError(if AnyRateLimit(hosts) then 429 else 502)
  {
    NoUsable(hosts);
    LastAuthIs(hosts);
    if AnyUsable(hosts) {
      var i := FirstIndex(hosts);
      FirstUsableIs(hosts, i);
    }
  }

  lemma {:induction false} FirstIndex(hosts: seq<HostOutcome>) returns (i: nat)
    requires AnyUsable(hosts)
    ensures i < |hosts| && hosts[i].IsUsable() && forall j :: 0 <= j < i ==> !hosts[j].IsUsable()
  {
    i := 0;
    while !hosts[i].IsUsable()
      invariant i < |hosts| && forall j :: 0 <= j < i ==> !hosts[j].IsUsable()
      decreases |hosts| - i
    {
      assert i + 1 < |hosts| by {
        var w :| 0 <= w < |hosts| && hosts[w].IsUsable();
      }
      i := i + 1;
    }
  }

  /** What a request meets: whether the credentials are configured and the HTTP client is up, the
      coordinates, and what each host would answer. */
  datatype Request = Request(configured: bool, clientReady: bool, lat: real, lon: real, hosts: seq<HostOutcome>) {
    predicate PassesGuards() {
      configured && clientReady && -90.0 <= lat <= 90.0 && -180.0 <= lon <= 180.0
    }
  }

  function Serve(q: Request): Reply {
    if q.PassesGuards() then Fallback(q.hosts)
    else if q.configured && q.clientReady then HttpError(422)
    else HttpError(503)
  }

  /** The endpoint, asking the hosts in turn. */
  method ReverseGeocode(q: Request) returns (r: Reply)
    ensures r == Serve(q)
    ensures !q.configured || !q.clientReady ==> r == HttpError(503)
    ensures q.configured && q.clientReady ==>
      if -90.0 <= q.lat <= 90.0 && -180.0 <= q.lon <= 180.0 then r == Fallback(q.hosts) else r == HttpError(422)
  {
    if !q.configured {
      return HttpError(503);
    }
    if !q.clientReady {
      return HttpError(503);
    }
    if !(-90.0 <= q.lat <= 90.0 && -180.0 <= q.lon <= 180.0) {
      return HttpError(422);
    }
    var hosts := q.hosts;
    var authError, rateLimited := None, false;
    for i := 0 to |hosts|
      invariant forall j :: 0 <= j < i ==> !hosts[j].IsUsable()
      invariant authError == LastAuth(hosts[..i])
      invariant rateLimited <==> AnyRateLimit(hosts[..i])
    {
      var h := hosts[i];
      assert hosts[..i + 1][..i] == hosts[..i];
      StillLimited(hosts, i);
      if h.Answered? {
        if h.status == 401 || h.status == 403 {
          authError := Some(h);
        } else if h.status == 429 {
          rateLimited := true;
        } else if h.status == 200 && h.body.Result? {
          FirstUsableIs(hosts, i);
          return Success(h.body.address);
        }
      }
    }
    assert hosts[..|hosts|] == hosts;
    NoUsable(hosts);
    LastAuthIs(hosts);
    if authError.Some? {
      return HttpError(authError.value.status);
    }
    if rateLimited {
      return HttpError(429);
    }
    return HttpError(502);
  }

  lemma StillLimited(hosts: seq<HostOutcome>, i: nat)
    requires i < |hosts|
    ensures AnyRateLimit(hosts[..i + 1]) <==> AnyRateLimit(hosts[..i]) || hosts[i].IsRateLimit()
  {
    var a, b := hosts[..i], hosts[..i + 1];
    if AnyRateLimit(a) {
      var j :| 0 <= j < |a| && a[j].IsRateLimit();
      assert b[j].IsRateLimit();
    }
    if hosts[i].IsRateLimit() {
      assert b[i].IsRateLimit();
    }
    if AnyRateLimit(b) {
      var j :| 0 <= j < |b| && b[j].IsRateLimit();
      assert j < i ==> a[j].IsRateLimit();
    }
  }

  // ---------------------------------------------------------------- client: the limiter

  datatype Place = Place(lat: real, lon: real)

  datatype Limiter = Limiter(
    disabled: bool, inFlight: bool, failCount: nat, cooldownUntilMs: real, lastAtMs: real, lastPlace: Option<Place>)

  /** A `Retry-After` header, as JavaScript's number and date parsers see it. */
  datatype RetryAfter = Absent | Header(asNumber: Option<real>, asDateMs: Option<real>)

  function ParseRetryAfterSeconds(h: RetryAfter, clockMs: real): Option<real> {
    match h
    case Absent => None
    case Header(asNumber, asDate) =>
      if asNumber.Some? && asNumber.value >= 0.0 then asNumber
      else if asDate.None? then None
      else
        var diffMs := asDate.value - clockMs;
        if diffMs <= 0.0 then Some(0.0) else Some((diffMs / 1000.0 + 0.5).Floor as real)
  }

  /** How a request ends: a status, or a network error or timeout. */
  datatype Ending = Status(status: int, retryAfter: Option<real>) | NoAnswer

  /** `Math.min(60, 5 * 2 ** Math.min(n, 4))`, in seconds. */
  function BackoffSec(n: nat): real { MinR(60.0, 5.0 * Pow(2.0, Min(n, 4))) }

  predicate MayStart(s: Limiter, nowMs: real, place: Place, dist: (Place, Place) -> real) {
    && !s.disabled && !s.inFlight
    && nowMs >= s.cooldownUntilMs
    && nowMs - s.lastAtMs >= 5000.0
    && (s.lastPlace.Some? ==> dist(s.lastPlace.value, place) >= 20.0)
  }

  function Begin(s: Limiter, nowMs: real, place: Place, dist: (Place, Place) -> real): Limiter {
    if MayStart(s, nowMs, place, dist) then s.(lastAtMs := nowMs, lastPlace := Some(place), inFlight := true) else s
  }

  predicate IsOk(status: int) { 200 <= status <= 299 }

  predicate IsAuthRejection(e: Ending) { e.Status? && (e.status == 401 || e.status == 403) }

  function Finish(s: Limiter, e: Ending, nowMs: real): Limiter {
    var done := s.(inFlight := false);
    if e.Status? && IsOk(e.status) then done.(failCount := 0, cooldownUntilMs := 0.0)
    else if IsAuthRejection(e) then done.(disabled := true)
    else if e.Status? && e.status == 429 then
      var waitSec := if e.retryAfter.Some? then MaxR(5.0, e.retryAfter.value) else BackoffSec(s.failCount);
      done.(failCount := s.failCount + 1, cooldownUntilMs := nowMs + waitSec * 1000.0)
    else
      done.(failCount := s.failCount + 1,
            cooldownUntilMs := nowMs + BackoffSec(s.failCount) * 1000.0)
  }

  class NaverRoadview {
    const dist: (Place, Place) -> real
    var reverseGeocodeDisabled: bool
    var reverseGeocodeInFlight: bool
    var reverseGeocodeFailCount: nat
    var reverseGeocodeCooldownUntilMs: real
    var lastGeocodeAtMs: real
    var lastGeocodeFix: Option<Place>

    function View(): Limiter
      reads this
    {
      Limiter(reverseGeocodeDisabled, reverseGeocodeInFlight, reverseGeocodeFailCount,
              reverseGeocodeCooldownUntilMs, lastGeocodeAtMs, lastGeocodeFix)
    }

    constructor (dist: (Place, Place) -> real)
      ensures View() == FRESH && this.dist == dist
    {
      this.dist := dist;
      reverseGeocodeDisabled, reverseGeocodeInFlight, reverseGeocodeFailCount := false, false, 0;
      reverseGeocodeCooldownUntilMs, lastGeocodeAtMs, lastGeocodeFix := 0.0, 0.0, None;
    }

    /** `_maybeReverseGeocode` up to its `fetch`. */
    method MaybeStart(nowMs: real, place: Place) returns (started: bool)
      modifies this
      ensures View() == Begin(old(View()), nowMs, place, dist)
      ensures started == MayStart(old(View()), nowMs, place, dist)
      ensures started <==> old(
        && !reverseGeocodeDisabled && !reverseGeocodeInFlight
        && nowMs >= reverseGeocodeCooldownUntilMs && nowMs - lastGeocodeAtMs >= 5000.0
        && (lastGeocodeFix.None? || dist(lastGeocodeFix.value, place) >= 20.0))
      ensures !started ==> View() == old(View())
      ensures started ==>
        && lastGeocodeAtMs == nowMs && lastGeocodeFix == Some(place) && reverseGeocodeInFlight
        && !reverseGeocodeDisabled && reverseGeocodeFailCount == old(reverseGeocodeFailCount)
        && reverseGeocodeCooldownUntilMs == old(reverseGeocodeCooldownUntilMs)
    {
      if reverseGeocodeDisabled {
        return false;
      }
      if reverseGeocodeInFlight {
        return false;
      }
      if nowMs < reverseGeocodeCooldownUntilMs {
        return false;
      }
      if nowMs - lastGeocodeAtMs < 5000.0 {
        return false;
      }
      if lastGeocodeFix.Some? && dist(lastGeocodeFix.value, place) < 20.0 {
        return false;
      }
      lastGeocodeAtMs := nowMs;
      lastGeocodeFix := Some(place);
      reverseGeocodeInFlight := true;
      return true;
    }

    /** The rest, once the request has come to its end. */
    method Complete(e: Ending, nowMs: real)
      modifies this
      ensures View() == Finish(old(View()), e, nowMs)
      ensures !reverseGeocodeInFlight
      ensures lastGeocodeAtMs == old(lastGeocodeAtMs) && lastGeocodeFix == old(lastGeocodeFix)
      ensures reverseGeocodeDisabled == (old(reverseGeocodeDisabled) || (e.Status? && e.status in {401, 403}))
      ensures e.Status? && 200 <= e.status <= 299 ==>
        reverseGeocodeFailCount == 0 && reverseGeocodeCooldownUntilMs == 0.0
      ensures e.Status? && e.status in {401, 403} ==>
        && reverseGeocodeFailCount == old(reverseGeocodeFailCount)
        && reverseGeocodeCooldownUntilMs == old(reverseGeocodeCooldownUntilMs)
      ensures e.NoAnswer? || !(200 <= e.status <= 299 || e.status in {401, 403}) ==>
        reverseGeocodeFailCount == old(reverseGeocodeFailCount) + 1
      ensures e.Status? && e.status == 429 && e.retryAfter.Some? ==>
        reverseGeocodeCooldownUntilMs ==
          nowMs + 1000.0 * if e.retryAfter.value >= 5.0 then e.retryAfter.value else 5.0
      ensures e.NoAnswer?
              || !(200 <= e.status <= 299 || e.status in {401, 403} || (e.status == 429 && e.retryAfter.Some?)) ==>
        reverseGeocodeCooldownUntilMs == nowMs + 1000.0 * BackoffSec(old(reverseGeocodeFailCount))
    {
      if e.Status? && IsOk(e.status) {
        reverseGeocodeFailCount := 0;
        reverseGeocodeCooldownUntilMs := 0.0;
      } else if e.Status? && (e.status == 401 || e.status == 403) {
        reverseGeocodeDisabled := true;
      } else if e.Status? && e.status == 429 {
        var waitSec := if e.retryAfter.Some? then MaxR(5.0, e.retryAfter.value)
                       else BackoffSec(reverseGeocodeFailCount);
        reverseGeocodeFailCount := reverseGeocodeFailCount + 1;
        reverseGeocodeCooldownUntilMs := nowMs + waitSec * 1000.0;
      } else {
        reverseGeocodeFailCount := reverseGeocodeFailCount + 1;
        var failIndex := Max(0, reverseGeocodeFailCount - 1);
        reverseGeocodeCooldownUntilMs := nowMs + BackoffSec(failIndex) * 1000.0;
      }
      reverseGeocodeInFlight := false;
    }
  }

  const FRESH := Limiter(false, false, 0, 0.0, 0.0, None)

  datatype Event = Polled(nowMs: real, place: Place) | Ended(ending: Ending, nowMs: real)

  /** An ending without a request in flight does not happen. */
  function Apply(s: Limiter, e: Event, dist: (Place, Place) -> real): Limiter {
    match e
    case Polled(now, place) => Begin(s, now, place, dist)
    case Ended(ending, now) => if s.inFlight then Finish(s, ending, now) else s
  }

  function Run(s: Limiter, events: seq<Event>, dist: (Place, Place) -> real): Limiter {
    if events == [] then s else Apply(Run(s, events[..|events| - 1], dist), events[|events| - 1], dist)
  }

  /** The times at which requests start. */
  function Starts(s: Limiter, events: seq<Event>, dist: (Place, Place) -> real): seq<real> {
    if events == [] then []
    else
      var before, e := Run(s, events[..|events| - 1], dist), events[|events| - 1];
      var earlier := Starts(s, events[..|events| - 1], dist);
      if e.Polled? && MayStart(before, e.nowMs, e.place, dist) then earlier + [e.nowMs] else earlier
  }

  /** How many requests have come to their end. */
  function EndedCount(s: Limiter, events: seq<Event>, dist: (Place, Place) -> real): nat {
    if events == [] then 0
    else
      var before, e := Run(s, events[..|events| - 1], dist), events[|events| - 1];
      EndedCount(s, events[..|events| - 1], dist) + if e.Ended? && before.inFlight then 1 else 0
  }

  /** At most one request is in flight, and starts are at least five seconds apart. */
  lemma {:induction false} StartsSpaced(events: seq<Event>, dist: (Place, Place) -> real)
    ensures var s := Run(FRESH, events, dist); var starts := Starts(FRESH, events, dist);
      && |starts| == EndedCount(FRESH, events, dist) + (if s.inFlight then 1 else 0)
      && (starts != [] ==> s.lastAtMs == starts[|starts| - 1])
      && (forall i :: 0 < i < |starts| ==> starts[i] - starts[i - 1] >= 5000.0)
  {
    if events != [] {
      StartsSpaced(events[..|events| - 1], dist);
    }
  }

  /** The places asked about, in the order of the requests. */
  function StartPlaces(s: Limiter, events: seq<Event>, dist: (Place, Place) -> real): seq<Place> {
    if events == [] then []
    else
      var before, e := Run(s, events[..|events| - 1], dist), events[|events| - 1];
      var earlier := StartPlaces(s, events[..|events| - 1], dist);
      if e.Polled? && MayStart(before, e.nowMs, e.place, dist) then earlier + [e.place] else earlier
  }

  /** Successive requests are about places at least 20 metres apart. */
  lemma {:induction false} PlacesApart(events: seq<Event>, dist: (Place, Place) -> real)
    ensures var s := Run(FRESH, events, dist); var places := StartPlaces(FRESH, events, dist);
      && s.lastPlace == (if places == [] then None else Some(places[|places| - 1]))
      && (forall i :: 0 < i < |places| ==> dist(places[i - 1], places[i]) >= 20.0)
  {
    if events != [] {
      PlacesApart(events[..|events| - 1], dist);
    }
  }

  lemma {:induction false} SpacedApart(starts: seq<real>, i: nat, j: nat)
    requires i <= j < |starts| && forall k :: 0 < k < |starts| ==> starts[k] - starts[k - 1] >= 5000.0
    ensures starts[j] - starts[i] >= (j - i) as real * 5000.0
  {
    if i < j {
      SpacedApart(starts, i, j - 1);
    }
  }

  /** So any window of `t` milliseconds sees at most floor(t / 5000) + 1 starts. */
  lemma WindowLimit(events: seq<Event>, dist: (Place, Place) -> real, i: nat, j: nat, from: real, t: real)
    requires var starts := Starts(FRESH, events, dist);
      i <= j < |starts| && from <= starts[i] && starts[j] <= from + t
    ensures j - i + 1 <= (t / 5000.0).Floor + 1
  {
    StartsSpaced(events, dist);
    SpacedApart(Starts(FRESH, events, dist), i, j);
  }

  /** After a 401 or 403 nothing starts any more. */
  lemma {:induction false} DisabledForGood(s: Limiter, events: seq<Event>, dist: (Place, Place) -> real)
    requires s.disabled
    ensures Run(s, events, dist).disabled && Starts(s, events, dist) == []
  {
    if events != [] {
      DisabledForGood(s, events[..|events| - 1], dist);
    }
  }

  /** Event `i` ends a request that was in flight with a rejection of the credentials. */
  predicate RejectedAt(events: seq<Event>, i: nat, dist: (Place, Place) -> real) {
    && i < |events| && events[i].Ended? && IsAuthRejection(events[i].ending)
    && Run(FRESH, events[..i], dist).inFlight
  }

  ghost predicate EverRejected(events: seq<Event>, dist: (Place, Place) -> real) {
    exists i: nat :: RejectedAt(events, i, dist)
  }

  lemma RejectedSnoc(events: seq<Event>, dist: (Place, Place) -> real)
    requires events != []
    ensures EverRejected(events, dist) <==>
      EverRejected(events[..|events| - 1], dist) || RejectedAt(events, |events| - 1, dist)
  {
    var front := events[..|events| - 1];
    forall i: nat | i < |front| ensures RejectedAt(events, i, dist) <==> RejectedAt(front, i, dist) {
      assert events[..i] == front[..i];
    }
    if EverRejected(front, dist) {
      var i: nat :| RejectedAt(front, i, dist);
      assert RejectedAt(events, i, dist);
    }
    if EverRejected(events, dist) {
      var i: nat :| RejectedAt(events, i, dist);
      assert i < |front| ==> RejectedAt(front, i, dist);
    }
  }

  /** Over every run, geocoding is switched off exactly when some request has been answered by a 401 or
      403; no later event switches it on again. */
  lemma {:induction false} DisabledExactly(events: seq<Event>, dist: (Place, Place) -> real)
    ensures Run(FRESH, events, dist).disabled <==> EverRejected(events, dist)
  {
    if events != [] {
      var k := |events| - 1;
      DisabledExactly(events[..k], dist);
      RejectedSnoc(events, dist);
    }
  }

  predicate IsPlainFailure(e: Ending) {
    e.Status? ==> !IsOk(e.status) && !IsAuthRejection(e) && (e.status == 429 ==> e.retryAfter.None?)
  }

  /** The event with every plain failure, a rate limit without a usable `Retry-After` among them, replaced
      by a missing answer. */
  function Blurred(e: Event): Event {
    if e.Ended? && IsPlainFailure(e.ending) then e.(ending := NoAnswer) else e
  }

  function AllBlurred(events: seq<Event>): seq<Event> {
    if events == [] then [] else AllBlurred(events[..|events| - 1]) + [Blurred(events[|events| - 1])]
  }

  lemma BlurredStep(s: Limiter, e: Event, dist: (Place, Place) -> real)
    ensures Apply(s, Blurred(e), dist) == Apply(s, e, dist)
    ensures e.Polled? ==> Blurred(e) == e
    ensures Blurred(e).Polled? <==> e.Polled?
  {
  }

  /** The kind of a plain failure never matters: every run goes on in the same way, with the same
      requests, if all of them are taken for missing answers. */
  lemma {:induction false} FailuresAreAlike(s: Limiter, events: seq<Event>, dist: (Place, Place) -> real)
    ensures Run(s, AllBlurred(events), dist) == Run(s, events, dist)
    ensures Starts(s, AllBlurred(events), dist) == Starts(s, events, dist)
  {
    if events != [] {
      var front, all := events[..|events| - 1], AllBlurred(events);
      var e := events[|events| - 1];
      FailuresAreAlike(s, front, dist);
      BlurredStep(Run(s, front, dist), e, dist);
      assert all == AllBlurred(front) + [Blurred(e)];
      assert all[..|all| - 1] == AllBlurred(front) && all[|all| - 1] == Blurred(e);
      assert Run(s, all, dist) == Apply(Run(s, AllBlurred(front), dist), Blurred(e), dist);
    }
  }

  /** While nothing is in flight and nothing starts, the limiter stands still; the first start respects
      the cooldown. */
  lemma {:induction false} FirstStartWaits(s: Limiter, events: seq<Event>, dist: (Place, Place) -> real)
    requires !s.inFlight
    ensures var starts := Starts(s, events, dist);
      && (starts == [] ==> Run(s, events, dist) == s)
      && (starts != [] ==> starts[0] >= s.cooldownUntilMs)
  {
    if events != [] {
      FirstStartWaits(s, events[..|events| - 1], dist);
    }
  }

  /** The backoff in seconds: 5, 10, 20, 40, and 60 from the fifth failure on. */
  lemma BackoffTable(n: nat)
    ensures BackoffSec(n) == match n { case 0 => 5.0 case 1 => 10.0 case 2 => 20.0 case 3 => 40.0 case _ => 60.0 }
  {
    assert Pow(2.0, 1) == 2.0 && Pow(2.0, 2) == 4.0 && Pow(2.0, 3) == 2.0 * Pow(2.0, 2);
    assert Pow(2.0, 4) == 2.0 * Pow(2.0, 3);
  }

  lemma BackoffAtLeastFive(n: nat)
    ensures 5.0 <= BackoffSec(n) <= 60.0
  {
    BackoffTable(n);
  }

  /** The time from `clockMs` on that a header asks for: a non-negative number in seconds, else a date.
      A header that is neither asks for nothing. */
  function AskedMs(h: RetryAfter, clockMs: real): Option<real> {
    if h.Absent? then None
    else if h.asNumber.Some? && h.asNumber.value >= 0.0 then Some(h.asNumber.value * 1000.0)
    else if h.asDateMs.Some? then Some(h.asDateMs.value - clockMs)
    else None
  }

  predicate IsNumber(h: RetryAfter) { h.Header? && h.asNumber.Some? && h.asNumber.value >= 0.0 }

  /** How long the limiter stays closed after a rate limit with this header. */
  function ClosedMs(s: Limiter, h: RetryAfter, clockMs: real, nowMs: real): real {
    Finish(s, Status(429, ParseRetryAfterSeconds(h, clockMs)), nowMs).cooldownUntilMs - nowMs
  }

  /** The limiter stays closed for the time asked, a date's rounded to whole seconds, but for five seconds at
      least. So a number is respected and a date up to half a second; and it is respected exactly when that
      rounding does not shorten it or five seconds are enough anyway. */
  lemma ClosedForAsked(s: Limiter, h: RetryAfter, clockMs: real, nowMs: real)
    ensures ClosedMs(s, h, clockMs, nowMs) >= 5000.0
    ensures var asked, closed := AskedMs(h, clockMs), ClosedMs(s, h, clockMs, nowMs);
      asked.Some? ==>
        && (IsNumber(h) ==> closed == if asked.value >= 5000.0 then asked.value else 5000.0)
        && (!IsNumber(h) ==>
              var rounded := (asked.value / 1000.0 + 0.5).Floor as real * 1000.0;
              closed == if asked.value > 0.0 && rounded >= 5000.0 then rounded else 5000.0)
        && closed >= asked.value - 500.0
        && (closed >= asked.value <==>
              || IsNumber(h) || asked.value <= 5000.0
              || (asked.value / 1000.0 + 0.5).Floor as real * 1000.0 >= asked.value)
  {
    BackoffAtLeastFive(s.failCount);
  }

  /** Whatever follows a rate limit, the next request starts at least five seconds after it, not before
      the time a number in its `Retry-After` asks for, and at most half a second before a date in it. */
  lemma RetryAfterRespected(
      s: Limiter, h: RetryAfter, clockMs: real, nowMs: real, events: seq<Event>, dist: (Place, Place) -> real)
    requires Starts(Finish(s, Status(429, ParseRetryAfterSeconds(h, clockMs)), nowMs), events, dist) != []
    ensures var asked := AskedMs(h, clockMs);
      var start := Starts(Finish(s, Status(429, ParseRetryAfterSeconds(h, clockMs)), nowMs), events, dist)[0];
      && start - nowMs >= 5000.0
      && (asked.Some? ==> start - nowMs >= asked.value - if IsNumber(h) then 0.0 else 500.0)
  {
    ClosedForAsked(s, h, clockMs, nowMs);
    FirstStartWaits(Finish(s, Status(429, ParseRetryAfterSeconds(h, clockMs)), nowMs), events, dist);
  }

  /** After any other failure that is not a rejection it is five seconds as well. */
  lemma FailureWaits(s: Limiter, e: Ending, nowMs: real, events: seq<Event>, dist: (Place, Place) -> real)
    requires !IsAuthRejection(e) && (e.Status? ==> !IsOk(e.status))
    requires Starts(Finish(s, e, nowMs), events, dist) != []
    ensures Starts(Finish(s, e, nowMs), events, dist)[0] - nowMs >= 5000.0
  {
    BackoffAtLeastFive(s.failCount);
    FirstStartWaits(Finish(s, e, nowMs), events, dist);
  }

  /** A run that asks again before the date it was given: 7400 ms are rounded to seven seconds. */
  lemma DateRoundsDown(p: Place, q: Place, dist: (Place, Place) -> real)
    requires dist(p, q) >= 20.0
    ensures var h := Header(None, Some(107400.0)); var limited := Status(429, ParseRetryAfterSeconds(h, 100000.0));
      var events := [Polled(5000.0, p), Ended(limited, 6000.0), Polled(13000.0, q)];
      && AskedMs(h, 100000.0) == Some(7400.0)
      && Starts(FRESH, events, dist) == [5000.0, 13000.0] && 13000.0 - 6000.0 < 7400.0
  {
    var h := Header(None, Some(107400.0));
    var limited := Status(429, ParseRetryAfterSeconds(h, 100000.0));
    assert ParseRetryAfterSeconds(h, 100000.0) == Some(7.0);
    var e1, e2, e3 := Polled(5000.0, p), Ended(limited, 6000.0), Polled(13000.0, q);
    var events := [e1, e2, e3];
    assert events[..2] == [e1, e2] && [e1, e2][..1] == [e1] && [e1][..0] == [];
    var s1 := FRESH.(lastAtMs := 5000.0, lastPlace := Some(p), inFlight := true);
    assert Run(FRESH, [], dist) == FRESH && Starts(FRESH, [], dist) == [] && MayStart(FRESH, 5000.0, p, dist);
    assert Run(FRESH, [e1], dist) == s1 && Starts(FRESH, [e1], dist) == [5000.0];
    assert Run(FRESH, [e1, e2], dist) == Finish(s1, limited, 6000.0);
    assert Starts(FRESH, [e1, e2], dist) == Starts(FRESH, [e1, e2][..1], dist);
    assert MayStart(Finish(s1, limited, 6000.0), 13000.0, q, dist);
  }

  // ---------------------------------------------------------------- failure streaks

  predicate OnlyFailures(events: seq<Event>) {
    forall i :: 0 <= i < |events| && events[i].Ended? ==> IsPlainFailure(events[i].ending)
  }

  predicate Ordered(events: seq<Event>) {
    forall i, j :: 0 <= i < j < |events| ==> events[i].nowMs <= events[j].nowMs
  }

  function TotalSec(n: nat): real { if n == 0 then 0.0 else TotalSec(n - 1) + BackoffSec(n - 1) }

  lemma {:induction false} TotalClosedForm(n: nat)
    requires n >= 4
    ensures TotalSec(n) == 75.0 + 60.0 * (n - 4) as real
  {
    BackoffTable(n - 1);
    if n > 4 {
      TotalClosedForm(n - 1);
    } else {
      BackoffTable(0);
      BackoffTable(1);
      BackoffTable(2);
      assert TotalSec(4) == TotalSec(3) + BackoffSec(3) && TotalSec(3) == TotalSec(2) + BackoffSec(2);
      assert TotalSec(2) == TotalSec(1) + BackoffSec(1) && TotalSec(1) == TotalSec(0) + BackoffSec(0);
    }
  }

  /** The time of the first ending. */
  function FirstEnd(events: seq<Event>): Option<real> {
    if events == [] then None
    else
      var earlier := FirstEnd(events[..|events| - 1]);
      if earlier.Some? then earlier
      else if events[|events| - 1].Ended? then Some(events[|events| - 1].nowMs)
      else None
  }

  /** Along a streak of failures the cooldown never ends before the first failure plus the sum of all
      backoffs so far. */
  lemma {:induction false} Streak(s: Limiter, events: seq<Event>, dist: (Place, Place) -> real)
    requires s.inFlight && s.failCount == 0 && OnlyFailures(events) && Ordered(events)
    ensures var end := Run(s, events, dist); var n := end.failCount;
      && n == EndedCount(s, events, dist)
      && (n == 0 <==> FirstEnd(events).None?) && (n == 0 ==> end.inFlight)
      && (n > 0 ==> end.cooldownUntilMs >= FirstEnd(events).value + TotalSec(n) * 1000.0)
      && (n > 0 && end.inFlight ==> events[|events| - 1].nowMs >= end.cooldownUntilMs)
  {
    if events != [] {
      Streak(s, events[..|events| - 1], dist);
    }
  }

  /** `n >= 4` consecutive failures from a zero fail count force at least 75 + 60 (n - 4) seconds from
      the first of them to the next request. */
  lemma StreakWaits(
      s: Limiter, events: seq<Event>, dist: (Place, Place) -> real, nowMs: real, place: Place)
    requires s.inFlight && s.failCount == 0 && OnlyFailures(events) && Ordered(events)
    requires var end := Run(s, events, dist);
      end.failCount >= 4 && MayStart(end, nowMs, place, dist)
    ensures FirstEnd(events).Some?
    ensures nowMs - FirstEnd(events).value >= (75.0 + 60.0 * (EndedCount(s, events, dist) - 4) as real) * 1000.0
  {
    Streak(s, events, dist);
    TotalClosedForm(EndedCount(s, events, dist));
  }

  // ---------------------------------------------------------------- both sides together

  /** How the dashboard sees the endpoint's reply; the endpoint sets no `Retry-After`. */
  function AsEnding(r: Reply): Ending {
    match r
    case Success(_) => Status(200, None)
    case HttpError(status) => Status(status, None)
  }

  /** The request reaches the hosts, none of them has a usable answer and one rejects the credentials. */
  predicate HostsReject(q: Request) { q.PassesGuards() && !AnyUsable(q.hosts) && AnyAuth(q.hosts) }

  lemma ReplyRejects(q: Request)
    ensures IsAuthRejection(AsEnding(Serve(q))) <==> HostsReject(q)
  {
    Precedence(q.hosts);
  }

  /** One reply of the endpoint switches geocoding off exactly when no host had a usable answer and some
      host rejected the credentials. */
  lemma DisabledExactlyOnAuth(s: Limiter, q: Request, nowMs: real)
    requires !s.disabled
    ensures Finish(s, AsEnding(Serve(q)), nowMs).disabled <==> HostsReject(q)
  {
    ReplyRejects(q);
  }

  /** Requests may end in any way, by a lost connection, the dashboard's own timeout or an answer from
      somewhere on the way; but a rejection only comes from the endpoint. */
  predicate OnlyEndpointRejects(events: seq<Event>, requests: seq<Request>) {
    |events| == |requests| && forall i :: 0 <= i < |events| && events[i].Ended? && IsAuthRejection(events[i].ending) ==>
      events[i].ending == AsEnding(Serve(requests[i]))
  }

  /** At event `i` the endpoint's reply to `requests[i]`, whose hosts rejected, reaches the dashboard. */
  predicate RejectionArrivesAt(
      events: seq<Event>, requests: seq<Request>, i: nat, dist: (Place, Place) -> real)
    requires |events| == |requests|
  {
    && i < |events| && events[i].Ended? && Run(FRESH, events[..i], dist).inFlight
    && events[i].ending == AsEnding(Serve(requests[i])) && HostsReject(requests[i])
  }

  /** Over every run of the dashboard against the endpoint, geocoding is off for good exactly when for
      some request no host had a usable answer, one rejected the credentials, and the reply arrived. */
  lemma OffExactlyWhenHostsReject(events: seq<Event>, requests: seq<Request>, dist: (Place, Place) -> real)
    requires OnlyEndpointRejects(events, requests)
    ensures Run(FRESH, events, dist).disabled <==> exists i: nat :: RejectionArrivesAt(events, requests, i, dist)
  {
    DisabledExactly(events, dist);
    forall i: nat ensures RejectedAt(events, i, dist) <==> RejectionArrivesAt(events, requests, i, dist) {
      if i < |events| && events[i].Ended? {
        ReplyRejects(requests[i]);
      }
    }
  }

  /** That the reply arrives matters: a first host that is slow and a second one that rejects outlive the
      dashboard's timeout, and geocoding stays on. */
  lemma TimeoutHidesRejection(p: Place, dist: (Place, Place) -> real)
    requires -90.0 <= p.lat <= 90.0 && -180.0 <= p.lon <= 180.0
    ensures var q := Request(true, true, p.lat, p.lon, [Raised, Answered(401, NoPayload)]);
      var events := [Polled(5000.0, p), Ended(NoAnswer, 9500.0)];
      && HostsReject(q) && OnlyEndpointRejects(events, [q, q])
      && Run(FRESH, events[..1], dist).inFlight && !Run(FRESH, events, dist).disabled
  {
    var q := Request(true, true, p.lat, p.lon, [Raised, Answered(401, NoPayload)]);
    assert q.hosts[1].IsAuth();
    var e1, e2 := Polled(5000.0, p), Ended(NoAnswer, 9500.0);
    assert [e1, e2][..1] == [e1] && [e1][..0] == [];
  }
}
