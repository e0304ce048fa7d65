# Verified model of the telemetry dashboard

The system streams numbered CAN frames from a Python server to a web dashboard and a React Native app,
and GPS fixes back over a WebSocket that drops and reconnects. This project models the stateful parts of
it that do not depend on I/O and proves what each of them keeps over every run. `dafny verify
dfyconfig.toml` checks everything.

Each stateful part comes in two layers. A class with the source's fields and methods does what the code
does; every method's postcondition says exactly which step it takes. A function (`Step`, `Apply`,
`Receive`, ...) is that step on values, and the lemmas are about arbitrary sequences of steps.

| file | models |
|---|---|
| `StoreForward.dfy` | the mobile app's bounded, persistent GPS queue |
| `QueueHistory.dfy` | that queue over runs: ordered conservation |
| `QueueRecovery.dfy` | that queue over asynchronous writes, crashes and restarts |
| `Uplink.dfy` | the app around the queue: live route, queued route, flushing |
| `Broadcast.dfy` | the server's broadcast loop: numbering, simulated drops, deadlines |
| `LossAccounting.dfy` | the dashboard's loss counters over any lossy channel |
| `Heading.dfy`, `GpsTracker.dfy` | GPS smoothing: circular headings, moving average, interpolation |
| `Backoff.dfy`, `Reconnect.dfy` | the reconnecting socket and the two backoff forms |
| `Charts.dfy` | the scrolling charts' pruned buffers and what is drawn from them |
| `Geocode.dfy` | reverse geocoding: server fallback over hosts, client limiter |
| `SignalMapper.dfy` | the rule table; scale, clamp and round of CAN signals |
| `Basics.dfy` | shared vocabulary |

## Conventions

- Floating-point numbers are reals; "not a finite number", `null` and `undefined` are `None`. JavaScript's
  sign-keeping `%` and Python's half-even `round` are written out.
- Clock readings, random jitter, answers of callbacks, results of storage, hosts and the network are
  parameters or events. They are arbitrary; nothing is assumed about their order unless a lemma says so.
- An `await` splits an operation where other code can run. The queue's mutations contain none once it is
  loaded, so they are single steps; writes to storage are issued by one step and settle in a later one, in
  the order in which they were issued, each successfully or not.
- "Sent" means handed to a socket that is open.

## What the proofs bring to light

- `overflowCount` counts evictions exactly when the capacity is not negative or nothing was enqueued; with
  a negative capacity it runs ahead by `-maxItems` an enqueue (`OverflowExactly`,
  `OverflowCountIsEvictions`). The app's books balance with the real evictions for every capacity, and with
  the counter in their place under the same condition (`FixConservation`).
- With no write pending and the last one not failed, a restart gives back the queue in memory if and only if
  nothing has left it unsaved: no flush that threw after an accepted payload, and no start that could not
  read a nonempty image, without an enqueue, a completed flush or a good start after it
  (`QueueRecovery.RestartExact`; `ThrowLosesTheSave` is a concrete run that fails). In the app `sendJson`
  never throws, so as long as its starts could read their image a restart restores its queue exactly
  (`RestartRestores`).
- Pruned charts draw what unpruned ones would at any time not before a sample; for the markers this needs a
  window that is not negative, and every negative window loses one (`NegativeWindowLosesMarkers`).
- After a server restart the loss count stays exact if and only if the new run's first number does not jump
  further past the old run's last one than the drop counter's growth explains (`LossAccounting.RestartExact`, and
  `RestartsExact` for any number of restarts; `RestartMiscounts` is a run that fails).
- The mobile backoff equals the web backoff if and only if the base does not exceed the cap
  (`DelaysAgree`).
- When a rule's bounds are in the wrong order, the upper one wins (`WithinRange`).
- A date in a `Retry-After` is missed by up to half a second, because the remaining time is rounded to whole
  seconds (`ClosedForAsked`, `DateRoundsDown`).
- Rejected credentials switch geocoding off only if the reply beats the dashboard's timeout
  (`OffExactlyWhenHostsReject`, `TimeoutHidesRejection`).
- A 429 from the endpoint costs the dashboard exactly what any other failure costs, because the endpoint
  sets no `Retry-After` (`FailuresAreAlike`).

## Model

| member | source | states |
|---|---|---|
| `StoreForward.StoreForwardQueue.Init` | mobile/src/telemetry/store-forward-queue.js:16-35 | loads once: the saved items, the empty queue from an unreadable image, what it held before if the image is missing or no array; a later call changes nothing |
| `StoreForward.RestartIsCrash` | mobile/src/telemetry/store-forward-queue.js:6-35 | a new queue over the image on disk that loads it is exactly what the crash step leaves, whether the image can be read or not |
| `StoreForward.StoreForwardQueue.Enqueue` | mobile/src/telemetry/store-forward-queue.js:41-52 | appends, evicts from the front down to the capacity, counts, issues one snapshot of the result |
| `StoreForward.EnqueueKeeps` | mobile/src/telemetry/store-forward-queue.js:46-52 | what is left is the newest part, the new payload last, as long as the capacity allows; the excess is counted; one image of it is issued |
| `StoreForward.StoreForwardQueue.Flush` | mobile/src/telemetry/store-forward-queue.js:56-81 | hands over the oldest payloads as far as `sendFn` accepts and the limit allows; a flush in progress turns others away; a throwing callback skips the write but releases the guard |
| `StoreForward.FlushTakes` | mobile/src/telemetry/store-forward-queue.js:64-80 | the payloads taken are a front of accepted ones, ended by the depth, the limit or an answer; only a throw keeps the image of the rest from being issued |
| `StoreForward.StoreForwardQueue.HandOver` | mobile/src/telemetry/store-forward-queue.js:67-75 | the loop stops at the first refusal, at the limit or when empty, and removes exactly what was accepted |
| `StoreForward.StoreForwardQueue.SettleWrite` | mobile/src/telemetry/store-forward-queue.js:84-90 | a failed write leaves the image on disk and the memory alone |
| `QueueHistory.OrderedConservation` | mobile/src/telemetry/store-forward-queue.js:41-82 | over every crash-free run, loaded ++ enqueued = departed ++ queued, in order |
| `QueueHistory.OverflowExactly` | mobile/src/telemetry/store-forward-queue.js:47-51 | `overflowCount` in terms of evictions, for every capacity |
| `QueueHistory.OverflowCountIsEvictions` | mobile/src/telemetry/store-forward-queue.js:47-51 | it equals the evictions if and only if the capacity is not negative or nothing was enqueued |
| `QueueHistory.CapacityHolds` | mobile/src/telemetry/store-forward-queue.js:47-51 | after any enqueue the depth is and stays within the capacity |
| `QueueHistory.SentInOrder` | mobile/src/telemetry/store-forward-queue.js:67-75 | what is sent, and what is evicted, is a subsequence of what was loaded and enqueued |
| `QueueRecovery.RunTracks` | mobile/src/telemetry/store-forward-queue.js:16-90 | over every run with crashes: every image, on disk or in flight, is a contiguous window of the history, in forward order, and the newest one is the queue itself unless its write failed |
| `QueueRecovery.ImageMovesForward` | mobile/src/telemetry/store-forward-queue.js:84-90 | between crashes the history only grows and the bounds of the durable image only move forward |
| `QueueRecovery.CrashRecovery` | mobile/src/telemetry/store-forward-queue.js:16-35 | a restart brings back a prefix of payloads that had left, then exactly the oldest part of the queue, and skips nothing in between |
| `QueueRecovery.RestartExact` | mobile/src/telemetry/store-forward-queue.js:66-80 | over every run with crashes, with no write pending and the last one not failed, a restart gives back the queue in memory if and only if no operation has left it unsaved |
| `QueueRecovery.ThrowLosesTheSave` | mobile/src/telemetry/store-forward-queue.js:66-80 | a callback that accepts one payload and throws on the next makes the two differ although no write is pending or has failed |
| `QueueRecovery.DurableImageIsAWindow` | mobile/src/telemetry/store-forward-queue.js:16-90 | the same window property without the observer's vocabulary, for one life of the queue |
| `QueueRecovery.RunBalances` | mobile/src/telemetry/store-forward-queue.js:16-90 | over any number of crashes, loaded + enqueued + replayed = queued + sent + evicted + lost, as multisets |
| `QueueRecovery.TraceFollowsLog` | mobile/src/telemetry/store-forward-queue.js:41-82 | the observer's books list exactly what was enqueued, sent and evicted |
| `Uplink.TelemetryApp.OnMounted` | mobile/src/App.js:134-140 | loads the queue once and puts its depth on display |
| `Uplink.TelemetryApp.FlushQueuedGps` | mobile/src/App.js:83-96 | does nothing while closed or while an earlier flush is being written; else sends min(200, depth) payloads, loading the queue first if need be, and sets the guard to wait for the write it issues |
| `Uplink.TelemetryApp.SendGpsUplinkWithQueue` | mobile/src/App.js:105-114 | a fix goes live and triggers a flush when open, and is stamped and queued when closed |
| `Uplink.TelemetryApp.OnWriteSettled` | mobile/src/App.js:87-95 | when a write settles its operation puts the depth of that moment on display, and the flush guard is released if it was that flush's write |
| `Uplink.OpenFollowsSocket` | mobile/src/telemetry/ws-client.js:46-56 | sends go out exactly if the socket has opened and neither closed nor died with the app since |
| `Uplink.DepthOnDisplay` | mobile/src/App.js:89-111 | over every run, the depth on display is the queue's whenever no write is pending |
| `Uplink.QueueRunsInside` | mobile/src/App.js:83-114 | every run of the app drives the queue through a run of queue operations |
| `Uplink.ClosedFixesAreQueued` | mobile/src/App.js:105-112 | the queue takes in exactly the fixes that meet a closed socket, stamped, in order |
| `Uplink.OpenFixesGoOutLive` | mobile/src/App.js:105-114 | the unstamped payloads on the wire are exactly the fixes that meet an open socket, in order |
| `Uplink.ReplaysAreQueueSends` | mobile/src/telemetry/protocol.js:41-54 | the stamped payloads on the wire are exactly the queue's sends, so the stamp tells replays from live fixes |
| `Uplink.FixConservation` | mobile/src/App.js:83-114 | fixes + loaded = live sends + queued sends + evictions + depth for every capacity; with the overflow count for the evictions, if and only if the capacity is not negative or no fix was queued |
| `Uplink.ConservationAcrossCrashes` | mobile/src/App.js:83-114 | the books of the queue inside the app, with its fixes, its wire and its evictions, balance over any number of crashes |
| `Uplink.RestartRestores` | mobile/src/App.js:83-114 | with no write pending and the last one not failed, a restart of the app restores its queue exactly after any run whose starts could read their image, because its `sendFn` never throws |
| `Uplink.Drain` | mobile/src/App.js:83-114 | while the socket stays open the depth is max(0, n - 200 f) after f flushes, whatever else arrives; ceil(n / 200) flushes empty the queue |
| `Uplink.SecondFlushTurnedAway` | mobile/src/App.js:84-95 | after an accepted flush the queue sees no other one until the write it issued, and all before it, have settled |
| `Uplink.FlushGuardReleased` | mobile/src/App.js:84-95 | whatever else happens, the flush guard has been free again once more writes have settled than were ahead of the flush's own |
| `Uplink.FlushGuardIsValid` | mobile/src/App.js:84-95 | the guard always waits for a write that is really pending |
| `Broadcast.Broadcaster.SleepUntil` | server/app.py:37-42 | wakes at the target, or at once if it has passed |
| `Broadcast.Broadcaster.CanBroadcastLoop` | server/app.py:65-102 | at every loop head the counters and the logged frames are those of the closed form; an iteration ends when its work is done or at its deadline, whichever is later |
| `Broadcast.EmittedExactly` | server/app.py:72-101 | with N > 0 the frame of a number s goes out if and only if s is 0 or no multiple of N, and carries floor(s / N); otherwise every number goes out with drop 0 |
| `Broadcast.StreamExact` | server/app.py:72-101 | a number is emitted if and only if it is not a simulated drop; numbers increase; every frame carries the number of drops so far |
| `Broadcast.CountersAddUp` | server/app.py:72-101 | seq = frames emitted + drop, with drop = floor((seq - 1) / N) |
| `Broadcast.ClosedForm` | server/app.py:65-102 | iteration k ends at the maximum over j <= k of t0 + jP + the costs after j |
| `Broadcast.NoDrift` | server/app.py:65-102 | no iteration ends before its deadline, and every one ends on it if and only if none costs more than the period |
| `Broadcast.CatchesUp` | server/app.py:65-102 | n iterations of cost at most c take n (P - c) off the lateness |
| `Broadcast.Recovers` | server/app.py:65-102 | after a burst the loop is back on schedule after lateness / (P - c) iterations |
| `LossAccounting.LossMeter.OnFrame` | client/app.js:355-373 | the counters after a frame, whichever status fields it has |
| `LossAccounting.ChannelOutput` | server/app.py:88-99 | any subsequence of the emitted stream is an in-order part of one run, each frame with its exact drop count |
| `LossAccounting.LossExact` | client/app.js:359-364 | within a run the local count grows by exactly the emitted and unreceived frames between first and last |
| `LossAccounting.DisplayExact` | client/app.js:542-547 | the displayed total is the first frame's drop plus the missing numbers |
| `LossAccounting.EndToEnd` | client/app.js:355-373 | both, from the server's loop through any lossy in-order channel |
| `LossAccounting.NothingClips` | client/app.js:360-363 | neither `Math.max(0, ...)` clips within a run |
| `LossAccounting.RestartExact` | client/app.js:359-369 | after a server restart the count is the sum of both runs' losses if and only if the jump in numbers is explained |
| `LossAccounting.RestartMiscounts` | client/app.js:359-369 | a restart with an unexplained jump: nothing is lost and four losses are shown |
| `LossAccounting.RestartsExact` | client/app.js:359-369 | over any number of restarts and from any past, the count is never too low, and exact if and only if every restart is explained |
| `Heading.NormalizedIsCircle` | client/gps.js:5-10 | normalizing gives the point in [0, 360) and fixes those points |
| `Heading.TurnIsShortest` | client/gps.js:16-22 | the turn used as a reference is the only one in [-180, 180) from one heading to the other |
| `Heading.Contraction` | client/gps.js:16-22 | blending headings leaves exactly 1 - alpha of the shortest turn |
| `GpsTracker.GpsTracker.HandlePosition` | client/gps.js:99-139 | a rejected position changes nothing; an accepted one becomes the last fix and, unless it is the first, starts a transition of 1000 times the seconds between the two, within 250 and 2000 ms; only the first is displayed at once |
| `GpsTracker.AcceptedIs` | client/gps.js:99-113 | which positions are accepted, and every field of the fix made of one |
| `GpsTracker.GpsTracker.TickAt` | client/gps.js:160-182 | the displayed fix after a tick, the end of a transition, the age and staleness reported |
| `GpsTracker.Interpolates` | client/gps.js:165-172 | the target has covered the share of the way that has passed of the transition's time, none of it before and all of it after; the first tick at or after the end drops the transition |
| `GpsTracker.HoldsLastFix` | client/gps.js:165-166 | in any other mode, and without a transition, the target is the last fix and the transition stays |
| `GpsTracker.TickMoves` | client/gps.js:174 | a tick leaves 1 - emaAlpha of the distance between display and target, and touches no fix |
| `GpsTracker.BlendFields` | client/gps.js:24-62 | every field of a blend, missing values included |
| `GpsTracker.ConvexHull` | client/gps.js:24-62 | position and speed shown stay within all bounds the accepted fixes keep, over any interleaving |
| `GpsTracker.DisplayIsOnEarth` | client/gps.js:64-71 | the displayed position is always valid |
| `GpsTracker.RunSound` | client/gps.js:115-130 | headings stay in [0, 360); a live transition leads from the previous to the last fix in 250 to 2000 ms |
| `GpsTracker.SettledTarget` | client/gps.js:165-172 | from the end of its transition on, the interpolated target is the last fix |
| `GpsTracker.SettledDisplay` | client/gps.js:165-174 | from then on the display depends on the number of ticks alone |
| `GpsTracker.ModesAgree` | client/gps.js:165-174 | so two settled trackers that agree show the same after any runs with equally many ticks, whatever their modes are and become |
| `GpsTracker.Converges` | client/gps.js:174 | from then on n ticks multiply the error by (1 - emaAlpha)^n, whatever the mode changes |
| `GpsTracker.HeadingConverges` | client/gps.js:174 | the same for the heading, along the shortest way |
| `Backoff.MobileBackoff.ScheduleReconnect` | mobile/src/telemetry/ws-client.js:112-119 | the delay is both the iterated and the power form of the failure count; the next one is twice as long, up to 15000 ms |
| `Backoff.MobileBackoff.Reset` | mobile/src/telemetry/ws-client.js:65-66 | an open or a `connect` starts the count again, at 1000 ms |
| `Backoff.DelaysAgree` | client/ws.js:120-122 | the two forms agree on every failure count if and only if the base does not exceed the cap |
| `Backoff.WebDoubles` | client/ws.js:120-122 | the web delay starts at the base and doubles with each failure, both up to the cap |
| `Backoff.DelayGrows` | client/ws.js:120-122 | delays never shrink and never exceed the cap |
| `Reconnect.TelemetrySocket.ConnectNow` | client/ws.js:35-43 | clears the timer and the attempt count; afterwards the current socket is connecting or open, a new one unless the old one was |
| `Reconnect.TelemetrySocket.DisconnectNow` | client/ws.js:45-55 | clears the timer and closes the current socket |
| `Reconnect.TelemetrySocket.OpenSocket` | client/ws.js:69-76 | keeps a live current socket, else creates a new one |
| `Reconnect.TelemetrySocket.HandleOpen` | client/ws.js:78-84 | only the current socket's open resets the attempt count |
| `Reconnect.TelemetrySocket.HandleClose` | client/ws.js:101-110 | only the current socket's close schedules a reconnect, after the delay plus the jitter, unless the close was manual |
| `Reconnect.TelemetrySocket.HandleTimer` | client/ws.js:129-132 | a firing timer opens |
| `Reconnect.AlwaysSafe` | client/ws.js:35-133 | over every run at most one socket is live and it is the current one, no timer is forgotten, and a wanted connection has either a current socket or a pending reconnect |
| `Reconnect.StaysDisconnected` | client/ws.js:45-55 | after disconnect no socket and no timer appears until connect |
| `Reconnect.DisconnectSticks` | client/ws.js:45-55 | from any safe state, whatever the browser does after a disconnect, no socket connects or is open, no timer is armed and none of either is added until connect |
| `Reconnect.NeverStuck` | client/ws.js:101-133 | from every state with a wanted connection, a run of at most four browser events leads to an open socket |
| `Reconnect.AttemptsAreFailures` | client/ws.js:120-122 | the attempt count is the number of losses of the current socket since the last connect or opening |
| `Reconnect.WaitFollowsFailures` | client/ws.js:120-132 | every reconnect waits the capped power of two for that number plus less than 200 ms |
| `Charts.ScrollingChart.AddSample` | client/charts.js:28-46 | the buffers and markers after a sample |
| `Charts.SampleExactly` | client/charts.js:28-46 | a bucket whose key has a value gets one point for each of its lines and loses exactly its front of times before t - window, the markers lose theirs, any other bucket stays |
| `Charts.ScrollingChart.RenderLine` | client/charts.js:68-94 | the drawing loop strokes exactly the segments between consecutive visible points |
| `Charts.DrawnSegments` | client/charts.js:65-93 | the segments join, in order, each two neighbours among the positions whose times are in [now - window, now] |
| `Charts.JoinedExactly` | client/charts.js:78-92 | a segment leads from position i to a later j if and only if both times are in the window and none between them is |
| `Charts.ScrollingChart.RenderMarkers` | client/charts.js:96-108 | the markers drawn are exactly those on the axis, for every window length |
| `Charts.DrawnMarkers` | client/charts.js:96-108 | which positions are drawn, in order: those in [now - window, now], or in [now, now - window] for a negative window |
| `Charts.RunTrails` | client/charts.js:28-46 | pruning only drops items older than any later picture's window |
| `Charts.PrunedDrawsTheSame` | client/charts.js:65-108 | at any time not before a sample, segments drawn from the pruned buffers equal those of the full history, and so do the markers if the window is not negative |
| `Charts.NegativeWindowLosesMarkers` | client/charts.js:43-45 | with every negative window pruning drops a marker that the full history still shows |
| `Charts.BufferBounded` | client/charts.js:28-46 | with samples d apart a buffer holds at most floor(window / d) + 1 points |
| `Geocode.ReverseGeocode` | server/app.py:248-335 | 503 without credentials or client, 422 outside the ranges, else the fallback over the hosts |
| `Geocode.Precedence` | server/app.py:276-335 | the first usable answer, else the last authentication error, else a rate limit, else 502 |
| `Geocode.NaverRoadview.MaybeStart` | client/naver-roadview.js:221-243 | when a request starts and what it records |
| `Geocode.NaverRoadview.Complete` | client/naver-roadview.js:258-296 | a success clears fail count and cooldown, a 401 or 403 disables, anything else counts a failure and sets the cooldown to the Retry-After or the backoff |
| `Geocode.BackoffTable` | client/naver-roadview.js:267-269 | the backoff is 5, 10, 20, 40 and from then on 60 seconds |
| `Geocode.StartsSpaced` | client/naver-roadview.js:226-243 | at most one request is in flight and starts are 5000 ms apart |
| `Geocode.PlacesApart` | client/naver-roadview.js:237-242 | successive requests are about places at least 20 m apart |
| `Geocode.WindowLimit` | client/naver-roadview.js:233-235 | a window of t ms sees at most floor(t / 5000) + 1 starts |
| `Geocode.DisabledForGood` | client/naver-roadview.js:222-224 | no request starts once the limiter is disabled |
| `Geocode.DisabledExactly` | client/naver-roadview.js:258-263 | over every run, it is disabled if and only if some request has been answered by a 401 or 403 |
| `Geocode.FailuresAreAlike` | client/naver-roadview.js:265-288 | every run goes on in the same way if its plain failures, rate limits without a usable Retry-After among them, are replaced by missing answers |
| `Geocode.StreakWaits` | client/naver-roadview.js:265-288 | n >= 4 consecutive failures force 75 + 60 (n - 4) seconds of waiting |
| `Geocode.ClosedForAsked` | client/naver-roadview.js:75-95 | the exact time the limiter stays closed; a number in a Retry-After is respected, a date up to half a second; the date is reached if and only if rounding does not shorten the wait or five seconds are enough |
| `Geocode.RetryAfterRespected` | client/naver-roadview.js:265-274 | over every continuation, the next request after a 429 starts at least five seconds later, not before a number in the header and at most 500 ms before a date in it |
| `Geocode.FailureWaits` | client/naver-roadview.js:284-288 | over every continuation, the next request after any other failure starts at least five seconds later |
| `Geocode.DateRoundsDown` | client/naver-roadview.js:90-94 | a run that asks again 400 ms before the date it was given |
| `Geocode.DisabledExactlyOnAuth` | client/naver-roadview.js:258-263 | one reply of the endpoint switches geocoding off if and only if no host was usable and one rejected the credentials |
| `Geocode.OffExactlyWhenHostsReject` | client/naver-roadview.js:253-263 | over every run of dashboard and endpoint, timeouts and guard errors included, geocoding is off for good if and only if that happened for some request and the reply arrived |
| `Geocode.TimeoutHidesRejection` | client/naver-roadview.js:245-246 | when the dashboard's timeout comes first, rejecting hosts leave geocoding on |
| `SignalMapper.SignalMapper.Reload` | server/signal_mapper.py:55-105 | the new table has one rule for each entry that is an object, with the code's defaults, and none without a usable file |
| `SignalMapper.ParsedFields` | server/signal_mapper.py:74-82 | every field of a rule comes from the entry of its own name, or is its default |
| `SignalMapper.ParsedDecimals` | server/signal_mapper.py:84-92 | how many decimals each kind of value asks for, within 0 to 6 |
| `SignalMapper.NumbersRead` | server/signal_mapper.py:11-19 | which values count as numbers |
| `SignalMapper.SignalMapper.Apply` | server/signal_mapper.py:107-149 | there is an output exactly for each enabled rule whose source is a number, each from its own rule; numbers pass through without rules |
| `SignalMapper.SignalMapper.MapOne` | server/signal_mapper.py:134-147 | scale and offset, then the bound that is violated in the place of the value, then the nearest multiple of the last decimal, of two the even one |
| `SignalMapper.MapsExactly` | server/signal_mapper.py:134-145 | the same of the specification function, for every rule and number |
| `SignalMapper.MapsToOne` | server/signal_mapper.py:134-145 | no other output fits that description |
| `SignalMapper.FollowsAffine` | server/signal_mapper.py:134-145 | between the bounds the output is raw * scale + offset up to half a unit of the last decimal, and exactly that without decimals |
| `SignalMapper.ParsedRange` | server/signal_mapper.py:74-102 | for every table the code accepts, no output is further than half a unit past a bound of its rule |
| `SignalMapper.Nearest` | server/signal_mapper.py:144-145 | rounding gives the nearest integer and of two the even one, and no other |
| `SignalMapper.WithinRange` | server/signal_mapper.py:136-145 | outputs are within half a unit of the last decimal of the bounds |
| `SignalMapper.WithinRoundedRange` | server/signal_mapper.py:136-145 | outputs lie between the rounded bounds, each on its own |
| `SignalMapper.WithinGridRange` | server/signal_mapper.py:136-145 | a bound that has no more decimals than are kept is kept exactly, whatever the other bound |
| `SignalMapper.WithinIntegerRange` | server/signals.json:4-73 | whole-number bounds, as in the shipped table, are kept exactly with any number of decimals |
| `SignalMapper.Monotone` | server/signal_mapper.py:134-145 | outputs are monotone in the input for a scale >= 0 and antitone for a scale <= 0 |

## Left out

- StoreForward.StoreForwardQueue.Init: overlapping first calls, each of which would overwrite the items, are not modelled; the load that an enqueue or a flush starts is taken to finish before anything else happens.
- Uplink.TelemetryApp.SendGpsUplinkWithQueue: building the payload from the fix is not modelled; payloads loaded from storage are taken to carry their queueing time, as every payload the app ever stores does.
- Broadcast.Broadcaster.CanBroadcastLoop: it runs for any finite number of iterations; frame contents, wall-clock stamps, the CSV log and the set of connected clients are not modelled.
- Reconnect.TelemetrySocket.HandleOpen: status callbacks, the message handler and calls made from inside callbacks are not modelled.
- Geocode.ReverseGeocode: the texts of error details and the formatting of addresses are not modelled.
- SignalMapper.SignalMapper.Reload: reading the file and parsing its JSON are not modelled; their outcome is a parameter.
- The mobile client's sockets: its handlers do not check which socket they belong to, so only its backoff and its send gate are modelled.
- Drawing, maps, panoramas, service worker, permissions, native bridges, scripts: user interface and plumbing.
- Rounding of floating-point numbers, NaN and infinities.
