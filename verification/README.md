# A verified model of local-inference-router

local-inference-router forwards chat-completion requests to already running inference
backends. It picks a healthy backend that is below its capacity, may fail over to another
route while nothing has been written downstream, and streams the answer back. This project
models the parts of it that are hard to get right and proves what they promise.

* **Routing state** (`Routing`, `RouterState`). Each critical section of the shared state is
  a function on a value (`Routing`) and a method on heap objects (`RouterState`); the methods
  are proved to compute the functions, also when the two backends of a swap are the same
  object. Selection is proved to be the unique minimum of (priority, requests in flight,
  configuration position).
* **The failover protocol** (`Protocol`, `RequestInvariants`, `SystemInvariants`,
  `Guarantees`). A transition system with any number of requests, each taking the steps of
  `Serve` one lock or one metrics update at a time, interleaved with health probes and idle
  timers in any order. The transport-failure path is three separate steps (quarantine,
  release, reserve); the retryable-status path is one atomic swap. `Guarantees` states the
  theorems, for every run and every reachable state.
* **The in-flight gauge** (`Gauge`). Reserve sets the gauge under the lock; Release and
  SwapReservation publish what they read after unlocking. When that still shows the counter,
  and when it cannot, is settled below.
* **The proxy as code** (`Proxy`). `Serve` and the handler around it as methods on the heap:
  the shared state, the metrics, the backends (`Upstream`, which keeps every call made to it
  with the body it handed out), the response writer, the bodies and the idle reader are
  objects, and what is published, written, read and closed is decided by what those
  objects return. Before every step, arbitrary actions of all other requests, probes and
  timers are interposed, the request's own idle timer included, which acts on the reader
  object. Every step is recorded; the invariants say that the record is a run of the
  transition system ending in the present heap, that the reader object is the request's
  reader and its body has delivered exactly the bytes the request received, that the writer
  shows the request's header and bytes, and that the calls made are the request's attempts,
  each obtained body closed once. So each theorem of `Guarantees` applies to the code. The
  other requests are taken from the record.
* **The idle-timeout reader** (`IdleReader`). Timer, Read and Close interleaved at every
  lock boundary, with the obligation to close the body exactly once.
* **Configuration** (`Origin`, `Validation`, `Startup`). The single-pass, map-based checks
  accept exactly the configurations of a quantified specification, and what they accept is
  what construction and the protocol rely on.
* **Response headers** (`Headers`). The filter for hop-by-hop, unsafe and nominated headers.

Conventions. A Go string is a sequence of characters, one per byte. A `*Route` is a value:
routes never change after construction and alias plus position identifies one. Calls into
libraries (`strings.TrimSpace`, `strings.ToLower`, `url.Parse`, `net.ParseIP`,
`net.SplitHostPort`, `http.CanonicalHeaderKey`, the environment) are parameters, so results
hold for all their behaviours; the only facts taken about them are that lower-casing keeps
"http" and "https", that the canonical text of an IP literal is its own canonical text, and
that "Connection" is canonical. How an attempt ends, what a body
delivers and what a write returns are chosen freely by the environment. The metrics object is
present. Attempt and failover counters are kept per alias, summed over their other labels.

Three things one might expect are not so, and each is settled exactly.

* The gauge. `GaugeCanStayWrong` gives, for every backend with two slots and a route, a run
  from the initial state that ends with all requests finished, the counter at zero and the
  gauge at one. `GaugeAtRest` says when this cannot happen: at rest the gauge is sure to
  be right exactly when the backend admits one request at a time or no alias has a route
  on it. `UncrossedGaugeIsExact` is about single runs: as long as no slot of a backend moves
  while another request still carries a reading of it, the gauge shows the counter whenever
  nobody carries one. That condition is sufficient only, because crossed readings may happen
  to be equal: a slot given back and one taken in between leave the same number.
* The idle timeout. It does not prove a silent interval (`TimeoutAfterFreshBytes`). By
  `ArmedExactly` and `TimeoutIsStaleExactly` a timeout that takes effect is stale exactly when a
  delivering Read took the lock after the timer last went off.
* Close. It can return with the body still open (`CloseMayReturnBeforeTheBodyIsClosed`), by
  `CloseReturnsEarlyExactly` exactly when another caller closed the reader and has not yet got
  to the body.

Quarantine lasts until the next successful probe result, not until the next probe that
starts. The upstream model is stored untrimmed (`RouteFrom`), although validation judges the
trimmed one.

## Model

| member | source | states |
|---|---|---|
| Routing.SelectFindsMinimum | internal/router/select.go:12-44 | selection yields nothing exactly when no route is eligible, and otherwise a route at a minimum position |
| Routing.SelectIsTheMinimum | internal/router/select.go:3-44 | the promised order has one minimum and selection returns it |
| Routing.ReserveEffect | internal/router/state.go:127-150 | when each outcome of Reserve occurs; the reserved route precedes every other eligible one in priority, load and position; success adds one to its backend only; health is untouched and capacity kept |
| Routing.SwapEffect | internal/router/state.go:152-215 | for a held slot: the new route precedes every other eligible one once the slot is given back; -1 current, +1 selected (also on one backend), failure is the identity and occurs exactly when nothing is eligible |
| Routing.SwapIsReleaseThenReserve | internal/router/state.go:152-215 | a swap is release then reserve as one step, undone on failure |
| Routing.SwapSucceedsWhenReserveWould | internal/router/state.go:155-158 | a holder's swap succeeds whenever a plain Reserve would |
| Routing.SwapConservesTotal | internal/router/state.go:161-215 | every swap, whatever the current route and the outcome, conserves the total number in flight |
| Routing.ReadyIffDrainedReserves | internal/router/state.go:239-260 | ready exactly when, with all counters zero, a first Reserve succeeds on every alias |
| Routing.ReadyRefusalMeansSaturated | internal/router/state.go:239-260 | a ready router refuses a first attempt only when every usable backend of the alias is full |
| RouterState.State.SelectLocked | internal/router/select.go:12-44 | the loop computes the selection: none exactly when none eligible, else a minimum |
| RouterState.State.SetHealth | internal/router/state.go:93-106 | the named record becomes checked with exactly the given health and keeps its counter; every other record, and everything for an unknown name, is unchanged |
| RouterState.State.Reserve | internal/router/state.go:127-150 | outcome and new state are those of the abstract Reserve; a reserved route sits at the minimum of the state found; the representation invariant is kept |
| RouterState.State.MoveSlot | internal/router/state.go:184-197 | give up, select, take or restore, on possibly one and the same record |
| RouterState.State.SwapReservation | internal/router/state.go:161-204 | outcome and new state are those of the abstract swap, with its guards; the new route sits at the minimum with the current slot given back; both counters are handed out as read under the lock |
| RouterState.State.Release | internal/router/state.go:217-232 | one slot of the route's backend is given back, never below zero; the counter of a known backend is handed out as read under the lock |
| RouterState.State.AliasReadyLocked | internal/router/state.go:252-260 | true exactly when some route's backend is checked and healthy |
| RouterState.State.Ready | internal/router/state.go:241-250 | true exactly when every alias is ready |
| RouterState.State.Snapshot | internal/router/state.go:286-314 | reports, in configuration order, the very slots routing uses and each alias's readiness |
| RouterState.BuildBackends | internal/router/state.go:63-70 | one fresh record per backend in order; the map holds objects of that list under their names |
| RouterState.BuildRoutes | internal/router/state.go:74-86 | routes in order, each with its entry's own priority and upstream model, its position and the named backend; fails exactly on an unknown backend |
| RouterState.BuildAliases | internal/router/state.go:72-89 | all aliases in order, or failure exactly when some route does not resolve |
| RouterState.NewState | internal/router/state.go:55-91 | null exactly on an unresolved route; from sound parts the representation invariant holds, nothing checked, nothing in flight, and every route is its entry field by field |
| IdleReader.StepKeeps | internal/router/stream.go:72-118 | each step keeps the close-once obligation; a closed reader stays closed, keeps its verdict and is never re-armed |
| IdleReader.ClosedExactlyOnce | internal/router/stream.go:72-118 | over every interleaving, once closed exactly one body close has happened or is owed, before that none; a timeout implies closed |
| IdleReader.VerdictIsFinal | internal/router/stream.go:86-103 | after closing, every later Read gets the same verdict and the timer is never armed again |
| IdleReader.OpenReaderIsWatched | internal/router/stream.go:68-96 | an open reader's timer is armed or its expiry is on the way; delivered bytes leave the timer armed |
| IdleReader.CloseStopsTheTimer | internal/router/stream.go:105-117 | after a Close that got there first the timer never fires and no Read reports a timeout |
| IdleReader.ArmedExactly | internal/router/stream.go:68-96 | on every run, an open reader's timer is armed exactly when it never went off or a delivering Read took the lock after it last did |
| IdleReader.TimeoutIsStaleExactly | internal/router/stream.go:72-96 | an expiry that finds the reader open times it out, and finds it re-armed exactly when a delivering Read locked after the last firing |
| IdleReader.TimeoutAfterFreshBytes | internal/router/stream.go:72-96 | such a stale timeout exists: a run in which an expiry takes effect right after a Read re-armed the timer |
| IdleReader.CloseReturnsEarlyExactly | internal/router/stream.go:79-117 | a Close that finds the reader open must close the body; one that finds it closed changes nothing, and the body is then open exactly when the close is still owed, that is, when no body close has happened |
| IdleReader.CloseMayReturnBeforeTheBodyIsClosed | internal/router/stream.go:79-111 | such a Close exists: a run in which it returns while an expiry still owes the body's close |
| IdleReader.NewIdleTimeoutReadCloser | internal/router/stream.go:58-70 | without a positive timeout there is no reader and the body is used as it is; otherwise a fresh reader on the body |
| IdleReader.IdleTimeoutReadCloser.constructor | internal/router/stream.go:63-69 | a new reader is armed, open, and owes nothing |
| IdleReader.IdleTimeoutReadCloser.TimerFires | internal/router/stream.go:68-72 | a firing starts one expiry and disarms the timer |
| IdleReader.IdleTimeoutReadCloser.ExpireLocked | internal/router/stream.go:72-84 | the expiry's critical section, and whether it must close the body |
| IdleReader.IdleTimeoutReadCloser.CloseOwed | internal/router/stream.go:83-83 | the owed close is the body's first and only one |
| IdleReader.IdleTimeoutReadCloser.ReadLocked | internal/router/stream.go:89-96 | the Read's critical section reports the recorded timeout and re-arms only an open reader |
| IdleReader.IdleTimeoutReadCloser.Interfere | internal/router/stream.go:72-118 | whatever timer and other callers do in between, the invariant and a close owed by the caller stay; closing and its verdict are not undone |
| IdleReader.IdleTimeoutReadCloser.Read | internal/router/stream.go:86-103 | with interference between the body's read and the lock: the bytes are those the body delivered, the idle error is reported exactly when a timeout is recorded by then, and bytes leave an open reader armed |
| IdleReader.IdleTimeoutReadCloser.CloseLocked | internal/router/stream.go:105-115 | the Close's critical section, and whether it must close the body |
| IdleReader.IdleTimeoutReadCloser.Close | internal/router/stream.go:105-118 | with interference between the lock and the body's close: a Close that finds the reader open leaves the body closed exactly once, without a timeout; one that finds it closed changes nothing |
| RequestInvariants.RequestStep | internal/router/proxy.go:100-176 | every step of a request keeps: distinct routes tried, slot held exactly where it should be, outcomes, counts, header, bytes, progress of the copy and bodies |
| RequestInvariants.TimerStep | internal/router/stream.go:72-84 | a timer's step keeps all of it |
| SystemInvariants.HeldIsCounted | internal/router/state.go:178-182 | in every good state a held slot is counted, so the empty-counter guards do not apply to a holder |
| SystemInvariants.ViewEffect | internal/router/state.go:127-237 | a step moves the counters by exactly the change in its own reservation; health changes only by quarantine |
| SystemInvariants.InvStep | internal/router/state.go:127-237 | every action of any request, probe or timer keeps the global invariant |
| SystemInvariants.RunInv | internal/router/state.go:42-44 | every reachable state satisfies the global invariant |
| Guarantees.CapacityIsNeverExceeded | internal/router/state.go:42-44 | each counter equals the number of requests holding a slot there, over all aliases, and never exceeds max_inflight |
| Guarantees.QuietMeansEmpty | internal/router/proxy.go:100-176 | all counters are zero exactly when no request is at a point where it holds a slot; a returned Serve holds none |
| Guarantees.GuardsNeverSuppress | internal/router/state.go:178-227 | a release by a holder always frees exactly one slot; a holder's swap always passes its guard |
| Guarantees.SlotCoversTheWork | internal/router/proxy.go:113-173 | while an attempt is under way or an unclaimed body is being forwarded, the request holds a slot on the last tried route's backend |
| Guarantees.AttemptsAreBounded | internal/router/proxy.go:113-176 | no route is tried twice, attempts are at most the alias's routes, and every non-final attempt failed in transport or with 429, 502, 503, 504 |
| Guarantees.FinishedCleanly | internal/router/proxy.go:172-236 | a finished request holds nothing; the header was written once, by Serve or the handler, or not at all when the client left; an error or a cancel means no body bytes were sent |
| Guarantees.AnswerFitsTheLastAttempt | internal/router/proxy.go:103-214 | unknown alias and no route only without any attempt; router 502 and 504 exactly as the last attempt failed; the stream error exactly for a stream that cannot be flushed |
| Guarantees.GivesUpOnlyWhenStuck | internal/router/proxy.go:103-172 | a request for a known alias that stops trying without a final response or a departed client did so at a look for a route, with the same attempts made, at which no unattempted route was usable |
| Guarantees.RetryableForwardedOnlyWhenStuck | internal/router/proxy.go:155-172 | a 429, 502, 503 or 504 goes to the client only after the request's own swap, taken after that very attempt, failed, and at that instant no unattempted route was usable although its slot counted as free |
| Guarantees.TakesTheBestRoute | internal/router/select.go:3-44 | over every run, each newly held route precedes every other eligible route of the alias at that instant, the old slot counting as free |
| Guarantees.RelayedBytesAreOneBodysPrefix | internal/router/proxy.go:199-236 | relayed bytes are a prefix of what was read, every one from the response the last attempt obtained, and follow the header |
| Guarantees.CopyIsComplete | internal/router/stream.go:120-127 | of a forwarded response all that was read has been sent, unless one of the request's writes was short or failed; and the copy ended for such a write, a read that reported an end, or a recorded timeout |
| Guarantees.EveryBodyIsClosedOnce | internal/router/proxy.go:161-206 | for each attempt: its body is never closed or owed more than once, and not at all if there was none; once the request has finished, every body obtained is closed exactly once or owed by an expiry that has claimed it |
| Guarantees.CommitIsFinal | internal/router/proxy.go:199-236 | once a header is written there is no further attempt and no second header |
| Guarantees.HealthStep | internal/router/proxy.go:119-131 | health changes only by a probe or a failed attempt's quarantine; only a successful probe makes healthy; checked is never undone |
| Guarantees.ProbeSettlesHealth | internal/router/state.go:93-106 | after a probe of a configured backend it is usable exactly when the probe succeeded, whatever it was before; counters and other backends are unchanged |
| Guarantees.QuarantineHolds | internal/router/proxy.go:127-130 | until the next successful probe, no request on any alias takes a slot on an unhealthy backend |
| Guarantees.TransportFailureQuarantines | internal/router/proxy.go:127-130 | the quarantine step makes the failed route's backend unhealthy |
| Guarantees.FailuresAreQuarantined | internal/router/proxy.go:127-131 | before a request does anything else after a transport failure, it has marked the backend of that very attempt unhealthy |
| Guarantees.AttemptsMinusFailovers | internal/router/proxy.go:113-166 | at rest, attempts minus failovers per alias is the number of admitted requests |
| Guarantees.AttemptsAreFailoversPlusOne | internal/router/proxy.go:113-166 | every admitted finished request recorded one attempt per route tried and one failover fewer |
| Guarantees.PublishedValuesAreReal | internal/router/state.go:196-236 | every published in-flight value is one the counter had, and within 0..max_inflight |
| Gauge.LockedStepAccounts | internal/router/state.go:144-236 | a step that moves a slot of a backend shows the new counter at once or carries it away; any other step leaves that counter and its gauge alone and reads nothing |
| Gauge.SwapCarriesBoth | internal/router/state.go:196-212 | a swap reads the counters it leaves, the old backend's first; on one backend its counter once |
| Gauge.UncrossedGaugeIsExact | internal/router/state.go:144-236 | on every run in which no slot of a backend moves while another request carries a reading of it: at most one request carries one, it is the counter, and when nobody does the gauge shows the counter |
| Gauge.SingleSlotClears | internal/router/state.go:144-236 | where a counter never exceeds one, a gauge other than zero always has a holder or a pending zero that will clear it |
| Gauge.GaugeCanStayWrong | internal/router/state.go:217-237 | for every backend with two slots and a route, a run from the initial state to rest with the counter at zero and the gauge at one |
| Gauge.GaugeAtRest | internal/router/state.go:144-236 | in all reachable states at rest the gauge shows the counter exactly when the backend has one slot or no alias has a route on it |
| Guarantees.OwnStepLowersRank | internal/router/proxy.go:101-176 | every step but a turn of the copy loop brings a request closer to its end, under any interference |
| Guarantees.NeverStuck | internal/router/proxy.go:100-176 | an unfinished request can always take a step |
| Guarantees.RequestsTerminate | internal/router/proxy.go:101-176 | a request takes at most 40 steps per route and 35 more, besides the copy loop |
| Proxy.Metrics.ObserveAttempt | internal/metrics/metrics.go:114-118 | one more attempt under the alias |
| Proxy.Metrics.Failover | internal/metrics/metrics.go:134-137 | one more failover under the alias |
| Proxy.Metrics.SetInflight | internal/metrics/metrics.go:120-123 | the gauge shows the given value |
| Proxy.World.constructor | internal/cli/app.go:103-110 | a started router is at the initial state of the transition system |
| Proxy.World.Interfere | internal/router/state.go:42-54 | whatever others do, a request's own state is untouched but for what its idle timer does to the reader object, and the record stays a run |
| Proxy.World.ReserveAndPublish | internal/router/state.go:130-150 | Reserve with the gauge published under the lock |
| Proxy.World.Reserve | internal/router/proxy.go:103-111 | after interference, the request moves as the outcome says; a reserved route is of the alias and not attempted |
| Proxy.World.Publish | internal/router/state.go:206-236 | a value read earlier under the lock is given to the gauge, after interference |
| Proxy.World.PublishMoved | internal/router/state.go:206-212 | the counters a swap read are published, the old backend's first, and only once for one backend |
| Proxy.World.SwapReservation | internal/router/state.go:161-215 | the held route is replaced by an unattempted one of the alias, or kept; the counters read under the lock are published after it |
| Proxy.World.Release | internal/router/state.go:219-237 | the slot is given back under the lock, and the counter read there is published later |
| Proxy.Upstream.Do | internal/router/proxy.go:178-197 | one more call on the route, with any outcome; a response, and nothing else, comes with a new untouched body |
| Proxy.World.Attempt | internal/router/proxy.go:116-116 | one attempt is one call on the route, recorded as it ended; the bodies of earlier calls stay closed once |
| Proxy.World.GiveUp | internal/router/proxy.go:119-125 | a cancelled request releases, is recorded, and answers 499 |
| Proxy.World.HandleFailure | internal/router/proxy.go:127-139 | quarantine, release and record as separate steps |
| Proxy.World.FailOver | internal/router/proxy.go:127-151 | another unattempted route, or the error fitting the failure |
| Proxy.World.DiscardBody | internal/router/proxy.go:161-161 | the body left behind is closed once more than before, and so is recorded |
| Proxy.World.TryNext | internal/router/proxy.go:155-170 | another unattempted route by atomic swap and the body closed once, or on to forwarding with the body untouched |
| Proxy.World.HandleResponse | internal/router/proxy.go:153-174 | a response moves on with its body closed, or is forwarded through a reader on that very body and its slot released; every other body of the calls stays closed once; the writer shows what was recorded |
| Proxy.ResponseWriter.Write | internal/router/stream.go:24-28 | a prefix of the data goes downstream, as long as reported, and a short or failed write is remembered |
| Proxy.World.ReadThrough | internal/router/stream.go:86-103 | the bytes are those the reader's body has just delivered; the idle error is reported exactly when the reader object records a timeout at the lock |
| Proxy.World.WriteTurn | internal/router/stream.go:120-127 | the writer's bytes grow by the written prefix of the chunk; the copy goes on exactly after a full successful write and a read with nothing but bytes; a write is recorded as cut exactly when the writer's own was |
| Proxy.World.RelayTurn | internal/router/stream.go:120-127 | unless a write was short or failed, a turn writes all it read and goes on if the read reported nothing but bytes |
| Proxy.World.Relay | internal/router/stream.go:120-127 | the copy loop ends at the deferred close with the upstream status; the writer shows exactly the bytes recorded as sent, and whether a write was cut |
| Proxy.World.CloseReader | internal/router/proxy.go:206-206 | the deferred Close leaves the body closed or owed exactly once, as the reader object says, and the request at its release |
| Proxy.World.CommitHeader | internal/router/proxy.go:202-218 | a fresh reader wraps the body, the route's idle timeout being positive on every run; the writer gets the upstream status, or nothing when the stream cannot be flushed |
| Proxy.World.ForwardResponse | internal/router/proxy.go:199-236 | refusal of an unflushable stream with nothing written, or one header of the upstream status and the relayed body; then the body is closed or owed once |
| Proxy.World.ServeTurn | internal/router/proxy.go:113-175 | one turn of the loop is one more call: an answer, or back to the top with an unattempted route; every body of the calls is closed once, but the one the reader wraps |
| Proxy.World.ServeLoop | internal/router/proxy.go:101-175 | terminates under any interference, each turn on a route not tried before; the calls made are the recorded attempts, and a reader wraps the last call's body |
| Proxy.World.Serve | internal/router/proxy.go:95-176 | returns holding nothing after at most one call per route, all but the last failed or answered 429, 502, 503, 504; the reply is the one the calls call for (404, 503, 499, 504, 502, 500 or the last status); nothing is written unless a response is forwarded, then exactly its header and, unless a write was cut, all its body delivered up to its end or a timeout; every body obtained is closed exactly once, the last perhaps owed by an expiry |
| Proxy.World.HandleChat | internal/httpapi/chat.go:39-43 | over the whole request: nothing held, routes distinct and bounded; the status is 404, 503, 499, 504, 502, 500 or the last response's, exactly as the calls call for; one header with it, or none exactly when the client left; the body complete as Serve promises; every body obtained closed or owed once |
| Origin.ParseBaseURL | internal/config/url.go:14-56 | accepts exactly bare origins: http or https, a host, no port or one in 1..65535, no credentials, query, fragment, path or opaque part, IPv6 in brackets; scheme, host and port are kept |
| Origin.DigitsRoundTrip | internal/config/url.go:77-81 | reading a re-encoded port gives the number back |
| Origin.JoinInjective | internal/config/url.go:83-83 | the bracketed join never confuses two hosts or ports |
| Origin.KeyPortIsDigits | internal/config/url.go:69-81 | the key's port is the decimal form of the port number, 80 and 443 by default |
| Origin.NormalHostIsExact | internal/config/url.go:64-67 | normal forms are equal exactly for hosts equal but for case, or literals of one IP address |
| Origin.OriginKeyIsExact | internal/config/url.go:58-84 | keys are equal exactly when scheme and port number are and the hosts are two spellings of one |
| Origin.SpellingsShareAKey | internal/config/url.go:58-84 | case, notation of an address, a default port left out and leading zeroes do not change the key |
| Origin.OtherHostsOtherKeys | internal/config/url.go:64-67 | hosts that are no literals and differ in more than case have different keys |
| Validation.ValidateName | internal/config/validate.go:200-213 | accepts exactly non-empty names within length and alphabet |
| Validation.ValidateEnvName | internal/config/validate.go:182-198 | accepts exactly the empty name and proper variable names |
| Validation.HasControlBytes | internal/config/validate.go:227-234 | true exactly when a control byte occurs |
| Validation.CheckBackend | internal/config/validate.go:70-111 | accepts exactly the entries that are fine alone |
| Validation.EntriesExtend | internal/config/validate.go:76-124 | an entry fits exactly when fine alone with a new name and a new origin key |
| Validation.ValidateBackends | internal/config/validate.go:63-127 | accepts exactly non-empty lists of fine entries with pairwise distinct names and no two of one origin, whatever the spelling; otherwise names the first entry that spoils it |
| Validation.RouteKeyIsExact | internal/config/validate.go:171-176 | NUL-joined keys are equal exactly when backend and trimmed model are |
| Validation.CheckRoute | internal/config/validate.go:154-169 | accepts exactly resolved routes with a proper model and priority |
| Validation.ValidateRoutes | internal/config/validate.go:146-177 | accepts exactly non-empty lists of fine routes with distinct pairs |
| Validation.ValidateAliases | internal/config/validate.go:129-180 | accepts exactly non-empty lists of fine aliases with distinct names; otherwise names the first that spoils it |
| Validation.CheckListen | internal/config/validate.go:51-61 | accepts exactly addresses with a host and a port of 1..65535 |
| Validation.Validate | internal/config/validate.go:28-49 | accepts exactly the configurations of the specification |
| Startup.Build | internal/backend/backend.go:57-91 | one backend per entry in order, with its settings, parsed origin, header timeout and own secret, or failure exactly when some URL is no bare origin or some secret is missing or empty |
| Startup.AcceptedIsBuildable | internal/backend/backend.go:55-80 | of an accepted configuration only the secrets can be missing |
| Startup.AcceptedIsSound | internal/router/state.go:55-91 | an accepted configuration gives construction sound parts whose routes all resolve |
| Startup.Start | internal/cli/app.go:80-111 | starts exactly when configuration and secrets are accepted, in the initial state; backends, limits, idle timeouts, aliases and routes are the entries field by field, in configuration order |
| Headers.SplitFindsTokens | internal/router/headers.go:65-65 | splitting gives exactly the stretches between commas |
| Headers.NominatedBy | internal/router/headers.go:65-72 | the canonical names of exactly the non-blank tokens of one value |
| Headers.ConnectionNominatedHeaders | internal/router/headers.go:61-76 | exactly the headers named by some token of some Connection value |
| Headers.Header.Add | internal/router/headers.go:55-57 | one value is appended under the canonical name |
| Headers.SkippedNeverAdded | internal/router/headers.go:8-26 | none of the twelve forbidden headers and nothing nominated is ever added, whatever the source's names |
| Headers.CopyResponseHeaders | internal/router/headers.go:40-59 | walks the source in some order; nothing forbidden by name or nominated is added; for canonical names exactly the other entries are appended, values in order |
| Headers.CanonicalCopy | internal/router/headers.go:42-59 | for canonical names the result does not depend on the order of the walk |
| Headers.CopyIntoEmpty | internal/router/headers.go:42-59 | into an empty destination the result is the filtered source |

## Left out

- HTTP clients, dialing, redirects and the encoding of the upstream request (internal/backend/client.go, internal/router/proxy.go:244-257): library behaviour; an attempt is any outcome.
- The health checker's goroutines and timing (internal/backend/health.go): any sequence of probe results.
- YAML decoding, defaults and file limits (internal/config/load.go): the model starts from decoded records.
- Error texts of validation: rejected lists report the offending index, other rejections only the verdict.
- Prometheus registry, histograms, label values of failover reasons and the health gauge (internal/metrics/metrics.go): only per-alias counters and the in-flight gauge are kept.
- HTTP mux, bearer comparison, models and status endpoints, logging, CLI (internal/httpapi, internal/cli): plumbing around what is modelled.
- Proxy.World.Relay: terminates for upstream bodies that end after finitely many reads; an endless stream is covered by the transition system, where the copy loop may go on for ever.
- Proxy.World.Interfere: the bodies, readers and writers of the other requests are values in the record, not objects; their effect on the shared objects is the same.
- Proxy.Metrics.ObserveAttempt: the backend and result labels and the duration are dropped; counts are summed over them.
- Proxy.Metrics.Failover: the reason label is dropped; counts are summed over it.
- Proxy.World.RelayTurn: flushing after each write of an event stream (internal/router/stream.go:17-28) is not recorded; the copy is the plain read and write loop, without the shortcuts io.CopyBuffer may take.
- Proxy.World.HandleChat: starts at the call of Serve; the checks on method, headers and body before it (internal/httpapi/chat.go:20-37) and the JSON body of an error reply (internal/httpapi/errors.go:24-33) are not modelled, only the reply's status.
- isEventStream (internal/router/stream.go:30-44): whether a response is a stream is part of the attempt's outcome.
- Proxy.World.ForwardResponse: forwarding without a reader, for an idle timeout of zero or less (internal/router/stream.go:59-61), is not followed further than the guard; validation lets no such timeout through, and CommitHeader proves the guard is not taken.
- Real time, fairness between requests, and panics.
