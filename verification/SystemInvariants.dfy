/**
 What holds in every reachable state of the whole system, for any number of requests
 and any interleaving of their steps with health probes and idle timers.
 */
module SystemInvariants {
  import opened Common
  import opened Routing
  import opened Protocol
  import opened RequestInvariants
  import IR = IdleReader

  // ----- measures summed over all requests ---------------------------------

  ghost function HeldOn(name: string): Request -> int {
    (r: Request) => On(r.held, name)
  }

  ghost function ObservedFor(alias: string): Request -> int {
    (r: Request) => if r.alias == alias then r.observed else 0
  }

  ghost function FailoversFor(alias: string): Request -> int {
    (r: Request) => if r.alias == alias then r.failovers else 0
  }

  ghost function AdmittedFor(alias: string): Request -> int {
    (r: Request) => if r.alias == alias && r.tried != [] then 1 else 0
  }

  // ----- the invariant -----------------------------------------------------

  /** Each in-flight counter is the number of requests holding a slot there. */
  ghost predicate CountersOk(s: System) {
    forall n :: Inflight(s.shared.view, n) == Sum(s.requests, HeldOn(n))
  }

  /** The metrics counters are the requests' own counts. */
  ghost predicate MetricsOk(s: System) {
    forall a ::
      && Count(s.shared.attempts, a) == Sum(s.requests, ObservedFor(a))
      && Count(s.shared.failovers, a) == Sum(s.requests, FailoversFor(a))
  }

  ghost predicate InRange(su: Setup, p: Reading) {
    p.0 in su.caps && 0 <= p.1 <= su.caps[p.0]
  }

  /** Whatever has been or will be published is a value the counter once had. */
  ghost predicate GaugeOk(su: Setup, s: System) {
    var sh := s.shared;
    && Readings(sh.view) <= sh.past
    && sh.published <= sh.past
    && (forall p | p in sh.past :: InRange(su, p))
    && (forall n | n in sh.gauge :: (n, sh.gauge[n]) in sh.published)
    && (forall r | r in s.requests :: forall p | p in r.pending :: p in sh.past)
  }

  ghost predicate Inv(su: Setup, s: System) {
    && ViewOk(su, s.shared.view)
    && (forall r | r in s.requests :: RequestOk(su, r))
    && CountersOk(s)
    && MetricsOk(s)
    && GaugeOk(su, s)
  }

  // ----- one step of one request -------------------------------------------

  /** A slot is held where it should be, and is counted. */
  ghost predicate Counted(view: View, r: Request) {
    && (r.held.Some? <==> Holding(r.pc))
    && (r.held.Some? ==> Inflight(view, r.held.value.backend.name) > 0)
  }

  /** A request that holds a slot is counted, so neither the swap's nor the release's
      guard against an empty counter can fire for it. */
  lemma HeldIsCounted(su: Setup, s: System, id: nat)
    requires Inv(su, s) && id < |s.requests|
    ensures Counted(s.shared.view, s.requests[id])
  {
    var r := s.requests[id];
    assert RequestOk(su, r);
    if r.held.Some? {
      var name := r.held.value.backend.name;
      SumAtLeast(s.requests, HeldOn(name));
      assert HeldOn(name)(r) == 1;
    }
  }

  lemma LookOk(su: Setup, view: View, r: Request)
    requires ViewOk(su, view) && RequestOk(su, r) && Counted(view, r)
    ensures SeenOk(su, r, Look(su, view, r))
  {
    if r.pc.Begin? || r.pc.Retry? {
      ReserveCounts(su, view, r.alias, r.attempted);
    } else if r.pc.Swapping? {
      SwapCounts(su, view, r.alias, r.held.value, r.attempted);
    }
  }

  ghost predicate Moves(su: Setup, view: View, r: Request)
    requires Matches(su, view)
  {
    && ViewOk(su, NextView(su, view, r))
    && (forall n :: Inflight(NextView(su, view, r), n) ==
          Inflight(view, n) - On(r.held, n) + On(NextHeld(r, Look(su, view, r).res), n))
    && (!r.pc.Quarantine? ==> SameHealth(view, NextView(su, view, r)))
  }

  lemma AcquireMoves(su: Setup, view: View, r: Request)
    requires ViewOk(su, view) && Counted(view, r) && (r.pc.Begin? || r.pc.Retry?) && r.pending == []
    ensures Moves(su, view, r)
  {
    ReserveCounts(su, view, r.alias, r.attempted);
  }

  lemma SwapMoves(su: Setup, view: View, r: Request)
    requires ViewOk(su, view) && Counted(view, r) && r.pc.Swapping? && r.pending == []
    ensures Moves(su, view, r)
  {
    SwapCounts(su, view, r.alias, r.held.value, r.attempted);
  }

  /** A step moves the counters by exactly what it changes in the request's own
      reservation, and touches health only to quarantine. */
  lemma ViewEffect(su: Setup, view: View, r: Request)
    requires ViewOk(su, view) && Counted(view, r) && r.pending == []
    ensures Moves(su, view, r)
  {
    if r.pc.Begin? || r.pc.Retry? {
      AcquireMoves(su, view, r);
    } else if r.pc.Swapping? {
      SwapMoves(su, view, r);
    }
  }

  /** The request-level half of a step, with everything it needs in place. */
  lemma ActKeepsRequest(su: Setup, s: System, id: nat, input: Input)
    requires Inv(su, s) && Enabled(s, Act(id, input))
    ensures RequestOk(su, StepRequest(su, s.shared, s.requests[id], input).1)
    ensures Counted(s.shared.view, s.requests[id])
  {
    var r := s.requests[id];
    HeldIsCounted(su, s, id);
    LookOk(su, s.shared.view, r);
    RequestStep(su, r, input, Look(su, s.shared.view, r));
  }

  lemma ActKeepsCounters(su: Setup, s: System, id: nat, input: Input)
    requires Inv(su, s) && Enabled(s, Act(id, input))
    ensures ViewOk(su, Step(su, s, Act(id, input)).shared.view)
    ensures CountersOk(Step(su, s, Act(id, input)))
  {
    var r := s.requests[id];
    var (sh', r') := StepRequest(su, s.shared, r, input);
    HeldIsCounted(su, s, id);
    HeldAfter(r, input, Look(su, s.shared.view, r));
    if r.pending == [] { ViewEffect(su, s.shared.view, r); }
    forall n ensures Inflight(sh'.view, n) == Sum(s.requests[id := r'], HeldOn(n)) {
      SumUpdate(s.requests, id, r', HeldOn(n));
      assert HeldOn(n)(r) == On(r.held, n) && HeldOn(n)(r') == On(r'.held, n);
    }
  }

  lemma MetricsEffect(su: Setup, sh: Shared, r: Request, input: Input, alias: string)
    requires Matches(su, sh.view) && Accepts(r, input)
    ensures var (sh', r') := StepRequest(su, sh, r, input);
            && r'.alias == r.alias
            && Count(sh'.attempts, alias) - Count(sh.attempts, alias) ==
               (if r.alias == alias then r'.observed - r.observed else 0)
            && Count(sh'.failovers, alias) - Count(sh.failovers, alias) ==
               (if r.alias == alias then r'.failovers - r.failovers else 0)
  {
    CountsAfter(r, input, Look(su, sh.view, r));
  }

  lemma ActKeepsMetrics(su: Setup, s: System, id: nat, input: Input)
    requires Inv(su, s) && Enabled(s, Act(id, input))
    ensures MetricsOk(Step(su, s, Act(id, input)))
  {
    var r := s.requests[id];
    var (sh', r') := StepRequest(su, s.shared, r, input);
    forall a
      ensures Count(sh'.attempts, a) == Sum(s.requests[id := r'], ObservedFor(a))
      ensures Count(sh'.failovers, a) == Sum(s.requests[id := r'], FailoversFor(a))
    {
      MetricsEffect(su, s.shared, r, input, a);
      SumUpdate(s.requests, id, r', ObservedFor(a));
      SumUpdate(s.requests, id, r', FailoversFor(a));
    }
  }

  /** The gauge values a request carries after its step. */
  function NextPending(r: Request, seen: Seen): seq<Reading> {
    if r.pending != [] then r.pending[1..]
    else if r.pc.CancelRelease? || r.pc.FailRelease? || r.pc.FinalRelease? then seen.readings
    else if r.pc.Swapping? && seen.res.Reserved? then seen.readings
    else []
  }

  lemma PendingAfter(r: Request, input: Input, seen: Seen)
    requires Accepts(r, input)
    ensures NextRequest(r, input, seen).pending == NextPending(r, seen)
  {
  }

  /** What a step puts aside for publication was read under its own lock. */
  lemma PendingFresh(su: Setup, view: View, r: Request)
    requires ViewOk(su, view) && Counted(view, r) && r.pending == []
    ensures forall p | p in NextPending(r, Look(su, view, r)) :: p in Readings(NextView(su, view, r))
  {
    if r.pc.Swapping? {
      SwapCounts(su, view, r.alias, r.held.value, r.attempted);
    }
  }

  /** What Reserve publishes is the counter it has just set. */
  lemma AnnouncedFresh(su: Setup, view: View, r: Request)
    requires ViewOk(su, view) && r.pending == [] && Announces(su, view, r).Some?
    ensures Announces(su, view, r).value in Readings(NextView(su, view, r))
  {
    ReserveCounts(su, view, r.alias, r.attempted);
  }

  lemma ReadingsInRange(su: Setup, view: View)
    requires ViewOk(su, view)
    ensures forall p | p in Readings(view) :: InRange(su, p)
  {
  }

  lemma ActKeepsGauge(su: Setup, s: System, id: nat, input: Input)
    requires Inv(su, s) && Enabled(s, Act(id, input))
    ensures GaugeOk(su, Step(su, s, Act(id, input)))
  {
    var r := s.requests[id];
    var (sh', r') := StepRequest(su, s.shared, r, input);
    HeldIsCounted(su, s, id);
    ActKeepsCounters(su, s, id, input);
    ReadingsInRange(su, sh'.view);
    PendingAfter(r, input, Look(su, s.shared.view, r));
    if r.pending == [] {
      PendingFresh(su, s.shared.view, r);
      if Announces(su, s.shared.view, r).Some? { AnnouncedFresh(su, s.shared.view, r); }
    }
    assert Unlocked(r.pc) ==> NextView(su, s.shared.view, r) == s.shared.view;
    assert Readings(sh'.view) <= sh'.past;
    assert forall x | x in s.requests[id := r'] :: x in s.requests || x == r';
  }

  /** The invariant survives every action of the system. */
  lemma InvStep(su: Setup, s: System, a: Action)
    requires Inv(su, s) && Enabled(s, a)
    ensures Inv(su, Step(su, s, a))
  {
    match a
    case Act(id, input) => ActStep(su, s, id, input);
    case Arrive(alias, flushable) => ArriveStep(su, s, alias, flushable);
    case Probe(name, healthy) => ProbeStep(su, s, name, healthy);
    case Timer(id, event) => TimerKeeps(su, s, id, event);
  }

  lemma ActKeepsRequests(su: Setup, s: System, id: nat, input: Input)
    requires Inv(su, s) && Enabled(s, Act(id, input))
    ensures forall x | x in Step(su, s, Act(id, input)).requests :: RequestOk(su, x)
  {
    ActKeepsRequest(su, s, id, input);
    var r' := StepRequest(su, s.shared, s.requests[id], input).1;
    assert forall x | x in s.requests[id := r'] :: x in s.requests || x == r';
  }

  lemma ActStep(su: Setup, s: System, id: nat, input: Input)
    requires Inv(su, s) && Enabled(s, Act(id, input))
    ensures Inv(su, Step(su, s, Act(id, input)))
  {
    ActKeepsRequests(su, s, id, input);
    ActKeepsCounters(su, s, id, input);
    ActKeepsMetrics(su, s, id, input);
    ActKeepsGauge(su, s, id, input);
  }

  lemma ArriveStep(su: Setup, s: System, alias: string, flushable: bool)
    requires Inv(su, s)
    ensures Inv(su, Step(su, s, Arrive(alias, flushable)))
  {
    var r := NewRequest(alias, flushable);
    assert (s.requests + [r])[..|s.requests|] == s.requests;
    forall x | x in s.requests + [r] ensures RequestOk(su, x) {
      if x !in s.requests { assert x == r; }
    }
  }

  lemma ProbeStep(su: Setup, s: System, name: string, healthy: bool)
    requires Inv(su, s)
    ensures Inv(su, Step(su, s, Probe(name, healthy)))
  {
    var view := SetHealth(s.shared.view, name, healthy);
    assert forall n :: Inflight(view, n) == Inflight(s.shared.view, n);
    assert ViewOk(su, view);
    ReadingsInRange(su, view);
  }

  lemma TimerKeeps(su: Setup, s: System, id: nat, event: IR.Action)
    requires Inv(su, s) && Enabled(s, Timer(id, event))
    ensures Inv(su, Step(su, s, Timer(id, event)))
  {
    var r := s.requests[id];
    var r' := ReaderStep(r, event);
    TimerStep(su, r, event);
    forall n ensures Sum(s.requests[id := r'], HeldOn(n)) == Sum(s.requests, HeldOn(n)) {
      SumUpdate(s.requests, id, r', HeldOn(n));
    }
    forall a
      ensures Sum(s.requests[id := r'], ObservedFor(a)) == Sum(s.requests, ObservedFor(a))
      ensures Sum(s.requests[id := r'], FailoversFor(a)) == Sum(s.requests, FailoversFor(a))
    {
      SumUpdate(s.requests, id, r', ObservedFor(a));
      SumUpdate(s.requests, id, r', FailoversFor(a));
    }
    assert forall x | x in s.requests[id := r'] :: x in s.requests || x == r';
  }

  lemma InitialOk(su: Setup)
    requires SetupOk(su)
    ensures Inv(su, Initial(su))
  {
    var s := Initial(su);
    assert ViewOk(su, s.shared.view);
    ReadingsInRange(su, s.shared.view);
    assert forall n | n in s.shared.gauge :: (n, s.shared.gauge[n]) in s.shared.published;
  }

  /** Every reachable state satisfies the invariant. */
  lemma {:induction false} RunInv(su: Setup, states: seq<System>, actions: seq<Action>, i: nat)
    requires SetupOk(su) && IsRun(su, states, actions) && i < |states|
    ensures Inv(su, states[i])
  {
    if i == 0 {
      InitialOk(su);
    } else {
      RunInv(su, states, actions, i - 1);
      assert TakesStep(su, states, actions, i - 1);
      InvStep(su, states[i - 1], actions[i - 1]);
    }
  }

  ghost predicate Reachable(su: Setup, s: System) {
    exists states: seq<System>, actions: seq<Action> :: IsRun(su, states, actions) && states[|states| - 1] == s
  }

  lemma ReachableInv(su: Setup, s: System)
    requires SetupOk(su) && Reachable(su, s)
    ensures Inv(su, s)
  {
    var states: seq<System>, actions: seq<Action> :| IsRun(su, states, actions) && states[|states| - 1] == s;
    RunInv(su, states, actions, |states| - 1);
  }

  lemma ReachInitial(su: Setup)
    ensures Reachable(su, Initial(su))
  {
    assert IsRun(su, [Initial(su)], []);
  }

  lemma ReachStep(su: Setup, s: System, a: Action, s': System)
    requires Reachable(su, s) && Follows(su, s, a, s')
    ensures Reachable(su, s')
  {
    var states: seq<System>, actions: seq<Action> :| IsRun(su, states, actions) && states[|states| - 1] == s;
    RunExtends(su, states, actions, a, s');
    assert (states + [s'])[|states + [s']| - 1] == s';
  }
}
