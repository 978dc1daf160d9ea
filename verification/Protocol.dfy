/**
 The router as a transition system: any number of requests, each running the
 failover loop one atomic step at a time, over the shared routing state, the
 metrics, the health probes and the idle timers.
 */
module Protocol {
  import opened Common
  import opened Routing
  import IR = IdleReader

  // ----- what a request can meet and answer --------------------------------

  datatype ApiError = ErrUnknownAlias | ErrNoRoute | ErrUpstreamTimeout | ErrUpstreamUnavailable | ErrStreamUnsupported

  function ErrorStatus(e: ApiError): int {
    match e
    case ErrUnknownAlias => 404
    case ErrNoRoute => 503
    case ErrUpstreamTimeout => 504
    case ErrUpstreamUnavailable => 502
    case ErrStreamUnsupported => 500
  }

  const STATUS_CLIENT_CLOSED := 499

  /** What Serve returns to the HTTP handler. */
  datatype Reply = Reply(status: int, err: Option<ApiError>)

  /** How one upstream attempt ends, as far as the proxy tells the cases apart. */
  datatype Outcome = Canceled | Failed(timeout: bool) | Responded(status: int, streaming: bool)

  predicate Retryable(status: int) {
    status == 429 || status == 502 || status == 503 || status == 504
  }

  predicate MayFailOver(o: Outcome) {
    o.Failed? || (o.Responded? && Retryable(o.status))
  }

  /** A body byte together with the attempt whose response it was read from. */
  datatype Tagged = Tagged(attempt: nat, data: int)

  function Tag(attempt: nat, data: seq<int>): (t: seq<Tagged>)
    ensures |t| == |data|
    ensures forall i | 0 <= i < |t| :: t[i] == Tagged(attempt, data[i])
  {
    seq(|data|, i requires 0 <= i < |data| => Tagged(attempt, data[i]))
  }

  /** A gauge value on its way to the metrics. */
  type Reading = (string, int)

  // ----- one request -------------------------------------------------------

  datatype Pc =
    | Begin                                          // before the first Reserve
    | Trying                                         // attempt in flight
    | CancelRelease | CancelObserve                  // the client left
    | Quarantine | FailRelease | FailObserve | Retry // transport failure
    | CountFailover(next: Route)                     // next route is already reserved
    | RespObserve | Swapping | Discard(next: Route)  // retryable status
    | Forward | Relaying
    | ReadLocked(chunk: seq<int>, end: IR.Ending)    // bytes read, reader lock not yet taken
    | Writing(chunk: seq<int>, end: IR.Ending)
    | CloseLocked(reply: Reply) | CloseOwed(reply: Reply)
    | FinalRelease(reply: Reply)
    | Returned(reply: Reply)                         // Serve has returned to the handler
    | Finished(reply: Reply)

  datatype Request = Request(
    alias: string,
    flushable: bool,
    pc: Pc,
    attempted: set<Route>,
    held: Option<Route>,
    tried: seq<Route>,            // routes attempted, in order
    outcomes: seq<Outcome>,       // how each attempt ended
    observed: nat,                // attempts recorded in the metrics
    failovers: nat,               // failovers recorded in the metrics
    pending: seq<Reading>,        // gauge values read under the lock, not yet published
    headers: seq<int>,            // statuses passed to WriteHeader
    received: seq<Tagged>,        // bytes read from upstream bodies by the relay
    sent: seq<Tagged>,            // bytes written downstream by the relay
    ended: bool,                  // a read by the relay reported an end
    cut: bool,                    // a write by the relay was short or failed
    closes: seq<nat>,             // for each attempt, Close calls on its body outside the reader
    reader: Option<IR.Reader>,    // wraps the body being forwarded
    source: nat                   // the attempt whose body the reader wraps
  )

  function NewRequest(alias: string, flushable: bool): Request {
    Request(alias, flushable, Begin, {}, None, [], [], 0, 0, [], [], [], [], false, false, [], None, 0)
  }

  /** How the last attempt ended; `Canceled` stands in where there was none. */
  function LastOutcome(r: Request): Outcome {
    if r.outcomes == [] then Canceled else r.outcomes[|r.outcomes| - 1]
  }

  /** The client left during the last attempt. */
  predicate Departed(r: Request) {
    r.outcomes != [] && LastOutcome(r).Canceled?
  }

  // ----- shared state ------------------------------------------------------

  /** `past` collects every value each in-flight counter had at the end of a critical
      section or initially; `published` every value given to the gauge. */
  datatype Shared = Shared(
    view: View,
    attempts: map<string, int>,
    failovers: map<string, int>,
    gauge: map<string, int>,
    published: set<Reading>,
    past: set<Reading>
  )

  function Readings(view: View): set<Reading> {
    set n | n in view :: (n, view[n].inflight)
  }

  function Count(m: map<string, int>, key: string): int {
    if key in m then m[key] else 0
  }

  function Increment(m: map<string, int>, key: string): map<string, int> {
    m[key := Count(m, key) + 1]
  }

  /** The end of a critical section that leaves the routing state at `view`. */
  function Commit(sh: Shared, view: View): Shared {
    sh.(view := view, past := sh.past + Readings(view))
  }

  // ----- one atomic step of a request --------------------------------------

  /** What the environment supplies to the step. */
  datatype Input =
    | Tick
    | Ended(outcome: Outcome)                    // the attempt ended
    | Got(data: seq<int>, end: IR.Ending)        // the body's Read returned
    | Wrote(count: nat, ok: bool)                // the downstream Write returned

  predicate Accepts(r: Request, input: Input) {
    if r.pending != [] then input.Tick? else
    match r.pc
    case Finished(_) => false
    case Trying => input.Ended?
    case Relaying => input.Got? && !input.end.IdleTimeout?
    case Writing(chunk, _) => if chunk == [] then input.Tick? else input.Wrote? && input.count <= |chunk|
    case _ => input.Tick?
  }

  /** What a request brings back from its critical section: the reservation outcome and
      the counter values to publish. */
  datatype Seen = Seen(res: Reserved, readings: seq<Reading>)

  /** The routing state after the critical section this request runs next. */
  function NextView(su: Setup, view: View, r: Request): View
    requires Matches(su, view)
  {
    match r.pc
    case Begin => Reserve(su, view, r.alias, r.attempted).0
    case Retry => Reserve(su, view, r.alias, r.attempted).0
    case Swapping => SwapReservation(su, view, r.alias, r.held, r.attempted).0
    case Quarantine => if r.held.Some? then SetHealth(view, r.held.value.backend.name, false) else view
    case CancelRelease => Release(view, r.held)
    case FailRelease => Release(view, r.held)
    case FinalRelease(_) => Release(view, r.held)
    case _ => view
  }

  function Look(su: Setup, view: View, r: Request): Seen
    requires Matches(su, view)
  {
    match r.pc
    case Begin => Seen(Reserve(su, view, r.alias, r.attempted).1, [])
    case Retry => Seen(Reserve(su, view, r.alias, r.attempted).1, [])
    case Swapping =>
      var (after, res) := SwapReservation(su, view, r.alias, r.held, r.attempted);
      Seen(res, if res.Reserved? then SwapReadings(after, r.held, res.route) else [])
    case _ => Seen(NoRoute, ReleaseReadings(Release(view, r.held), r.held))
  }

  function Reading1(view: View, name: string): Reading { (name, Inflight(view, name)) }

  function ReleaseReadings(after: View, held: Option<Route>): seq<Reading> {
    if held.Some? && held.value.backend.name in after then [Reading1(after, held.value.backend.name)] else []
  }

  function SwapReadings(after: View, from: Option<Route>, to: Route): seq<Reading> {
    (if from.Some? && from.value.backend.name != to.backend.name
     then [Reading1(after, from.value.backend.name)]
     else [])
    + [Reading1(after, to.backend.name)]
  }

  /** The gauge value this step publishes: one put aside earlier, or, for Reserve, the
      new counter value while still under the lock. */
  function Announces(su: Setup, view: View, r: Request): Option<Reading>
    requires Matches(su, view)
  {
    if r.pending != [] then Some(r.pending[0])
    else if (r.pc.Begin? || r.pc.Retry?) && Look(su, view, r).res.Reserved?
    then Some(Reading1(NextView(su, view, r), Look(su, view, r).res.route.backend.name))
    else None
  }

  /** The effect of a request's step on the shared state. Release and SwapReservation
      leave the publication of what they read to later steps. */
  function NextShared(su: Setup, sh: Shared, r: Request): Shared
    requires Matches(su, sh.view)
  {
    var view := if r.pending != [] then sh.view else NextView(su, sh.view, r);
    var reading := Announces(su, sh.view, r);
    Shared(
      view,
      if r.pending == [] && Observes(r.pc) then Increment(sh.attempts, r.alias) else sh.attempts,
      if r.pending == [] && r.pc.CountFailover? then Increment(sh.failovers, r.alias) else sh.failovers,
      if reading.Some? then sh.gauge[reading.value.0 := reading.value.1] else sh.gauge,
      if reading.Some? then sh.published + {reading.value} else sh.published,
      if r.pending != [] || Unlocked(r.pc) then sh.past else sh.past + Readings(view))
  }

  /** Program points whose step does not take the routing lock. */
  predicate Unlocked(pc: Pc) {
    !(pc.Begin? || pc.Retry? || pc.Swapping? || pc.Quarantine?
      || pc.CancelRelease? || pc.FailRelease? || pc.FinalRelease?)
  }

  predicate Observes(pc: Pc) { pc.CancelObserve? || pc.FailObserve? || pc.RespObserve? }

  /** The effect of a request's step on the request itself. */
  function NextRequest(r: Request, input: Input, seen: Seen): Request
    requires Accepts(r, input)
  {
    if r.pending != [] then r.(pending := r.pending[1..]) else
    match r.pc
    case Begin => FirstReserve(r, seen.res)
    case Trying => EndAttempt(r, input.outcome)
    case CancelRelease => LetGo(r, seen.readings, CancelObserve)
    case CancelObserve => Observed(r, Returned(Reply(STATUS_CLIENT_CLOSED, None)))
    case Quarantine => r.(pc := FailRelease)
    case FailRelease => LetGo(r, seen.readings, FailObserve)
    case FailObserve => Observed(r, Retry)
    case Retry => NextReserve(r, seen.res)
    case CountFailover(next) => EnterAttempt(r.(failovers := r.failovers + 1), next)
    case RespObserve => Observed(r, if MayFailOver(LastOutcome(r)) then Swapping else Forward)
    case Swapping => Swapped(r, seen)
    case Discard(next) => DiscardBody(r, next)
    case Forward => Commence(r, IR.Fresh())
    case Relaying => ReadBody(r, input.data, input.end)
    case ReadLocked(chunk, end) => ReadReturns(r, chunk, end)
    case Writing(chunk, end) => WriteReturns(r, chunk, end, input)
    case CloseLocked(reply) => CloseReader(r, reply)
    case CloseOwed(reply) => ReaderStep(r, IR.CloseBody).(pc := FinalRelease(reply))
    case FinalRelease(reply) => LetGo(r, seen.readings, Returned(reply))
    case Returned(reply) => Handle(r, reply)
  }

  function StepRequest(su: Setup, sh: Shared, r: Request, input: Input): (Shared, Request)
    requires Matches(su, sh.view) && Accepts(r, input)
  {
    (NextShared(su, sh, r), NextRequest(r, input, Look(su, sh.view, r)))
  }

  /** The head of the failover loop: mark the route attempted and start the attempt. */
  function EnterAttempt(r: Request, route: Route): Request {
    r.(attempted := r.attempted + {route}, tried := r.tried + [route], pc := Trying)
  }

  function FirstReserve(r: Request, res: Reserved): Request {
    match res
    case UnknownAlias => r.(pc := Returned(Reply(0, Some(ErrUnknownAlias))))
    case NoRoute => r.(pc := Returned(Reply(0, Some(ErrNoRoute))))
    case Reserved(route) => EnterAttempt(r.(held := Some(route)), route)
  }

  /** After a transport failure: another route, or the error that fits the failure. */
  function NextReserve(r: Request, res: Reserved): Request {
    if res.Reserved? then r.(held := Some(res.route), pc := CountFailover(res.route)) else
    var o := LastOutcome(r);
    r.(pc := Returned(Reply(0, Some(if o.Failed? && o.timeout then ErrUpstreamTimeout else ErrUpstreamUnavailable))))
  }

  function EndAttempt(r: Request, o: Outcome): Request {
    r.(outcomes := r.outcomes + [o],
       closes := r.closes + [0],
       pc := match o
             case Canceled => CancelRelease
             case Failed(_) => Quarantine
             case Responded(_, _) => RespObserve)
  }

  function LetGo(r: Request, readings: seq<Reading>, next: Pc): Request {
    r.(held := None, pending := readings, pc := next)
  }

  function Observed(r: Request, next: Pc): Request {
    r.(observed := r.observed + 1, pc := next)
  }

  function Swapped(r: Request, seen: Seen): Request {
    if seen.res.Reserved?
    then r.(held := Some(seen.res.route), pending := seen.readings, pc := Discard(seen.res.route))
    else r.(pc := Forward)
  }

  /** Closes the body of the response being left behind. */
  function DiscardBody(r: Request, next: Route): Request {
    r.(closes := if r.closes == [] then [] else r.closes[|r.closes| - 1 := r.closes[|r.closes| - 1] + 1],
       pc := CountFailover(next))
  }

  /** The start of forwarding: wrap the body, then either commit the response header or
      give up on a stream that cannot be flushed. */
  function Commence(r: Request, reader: IR.Reader): Request {
    var o := LastOutcome(r);
    var r' := r.(reader := Some(reader), source := if r.outcomes == [] then 0 else |r.outcomes| - 1);
    if o.Responded? && !(o.streaming && !r.flushable)
    then r'.(headers := r.headers + [o.status], pc := Relaying)
    else r'.(pc := CloseLocked(Reply(0, Some(ErrStreamUnsupported))))
  }

  function ReadBody(r: Request, data: seq<int>, end: IR.Ending): Request {
    r.(received := r.received + Tag(r.source, data), ended := r.ended || !end.More?, pc := ReadLocked(data, end))
  }

  function ReaderStep(r: Request, a: IR.Action): Request {
    if r.reader.Some? && IR.Enabled(r.reader.value, a) then r.(reader := Some(IR.Step(r.reader.value, a))) else r
  }

  function ReadReturns(r: Request, chunk: seq<int>, end: IR.Ending): Request {
    var late := r.reader.Some? && IR.Reports(r.reader.value);
    ReaderStep(r, IR.ReadLock(chunk != [])).(pc := Writing(chunk, if late then IR.IdleTimeout else end))
  }

  /** One turn of the copy loop: a short or failed write ends it, and so does anything
      the read reported besides bytes. */
  function WriteReturns(r: Request, chunk: seq<int>, end: IR.Ending, input: Input): Request
    requires chunk != [] ==> input.Wrote? && input.count <= |chunk|
  {
    var o := LastOutcome(r);
    var done := CloseLocked(Reply(if o.Responded? then o.status else 0, None));
    if chunk == [] then r.(pc := if end.More? then Relaying else done) else
    r.(sent := r.sent + Tag(r.source, chunk[..input.count]),
       cut := r.cut || !input.ok || input.count < |chunk|,
       pc := if end.More? && input.ok && input.count == |chunk| then Relaying else done)
  }

  function CloseReader(r: Request, reply: Reply): Request {
    var mustClose := r.reader.Some? && !r.reader.value.closed;
    ReaderStep(r, IR.CloseLock).(pc := if mustClose then CloseOwed(reply) else FinalRelease(reply))
  }

  /** The HTTP handler: an error is rendered, anything else is left as Serve left it. */
  function Handle(r: Request, reply: Reply): Request {
    r.(pc := Finished(reply),
       headers := if reply.err.Some? then r.headers + [ErrorStatus(reply.err.value)] else r.headers)
  }

  // ----- the whole system --------------------------------------------------

  datatype System = System(shared: Shared, requests: seq<Request>)

  datatype Action =
    | Arrive(alias: string, flushable: bool)
    | Probe(name: string, healthy: bool)       // a health check reports
    | Act(id: nat, input: Input)               // a request takes its next step
    | Timer(id: nat, event: IR.Action)         // an idle timer's goroutine acts

  predicate TimerMay(r: Request, event: IR.Action) {
    && r.reader.Some?
    && IR.Enabled(r.reader.value, event)
    && (event.Fire? || event.ExpireLock? || (event.CloseBody? && !r.pc.CloseOwed?))
  }

  predicate Enabled(s: System, a: Action) {
    match a
    case Arrive(_, _) => true
    case Probe(_, _) => true
    case Act(id, input) => id < |s.requests| && Accepts(s.requests[id], input)
    case Timer(id, event) => id < |s.requests| && TimerMay(s.requests[id], event)
  }

  function Step(su: Setup, s: System, a: Action): System
    requires Matches(su, s.shared.view) && Enabled(s, a)
  {
    match a
    case Arrive(alias, flushable) => s.(requests := s.requests + [NewRequest(alias, flushable)])
    case Probe(name, healthy) => s.(shared := Commit(s.shared, SetHealth(s.shared.view, name, healthy)))
    case Act(id, input) =>
      var (shared, r) := StepRequest(su, s.shared, s.requests[id], input);
      System(shared, s.requests[id := r])
    case Timer(id, event) => s.(requests := s.requests[id := ReaderStep(s.requests[id], event)])
  }

  function Initial(su: Setup): System {
    var view := InitialView(su);
    System(Shared(view, map[], map[], map n | n in su.caps :: 0, Readings(view), Readings(view)), [])
  }

  ghost predicate Follows(su: Setup, s: System, a: Action, s': System) {
    Matches(su, s.shared.view) && Enabled(s, a) && s' == Step(su, s, a)
  }

  ghost predicate TakesStep(su: Setup, states: seq<System>, actions: seq<Action>, i: nat)
    requires |states| == |actions| + 1 && i < |actions|
  {
    Follows(su, states[i], actions[i], states[i + 1])
  }

  ghost predicate IsRun(su: Setup, states: seq<System>, actions: seq<Action>) {
    && |states| == |actions| + 1
    && states[0] == Initial(su)
    && forall i: nat | i < |actions| :: TakesStep(su, states, actions, i)
  }

  /** Taking one more enabled action extends a run. */
  lemma RunExtends(su: Setup, states: seq<System>, actions: seq<Action>, a: Action, s': System)
    requires IsRun(su, states, actions)
    requires Follows(su, states[|states| - 1], a, s')
    ensures IsRun(su, states + [s'], actions + [a])
  {
    var (ss, aa) := (states + [s'], actions + [a]);
    forall i: nat | i < |aa| ensures TakesStep(su, ss, aa, i) {
      if i < |actions| {
        assert TakesStep(su, states, actions, i);
      }
    }
  }
}
