/**
 When the in-flight gauge shows the counter. Reserve sets the gauge under the lock;
 Release and SwapReservation put the values they read aside and publish them after
 unlocking, so publications can cross.
 */
module Gauge {
  import opened Common
  import opened Routing
  import opened Protocol
  import opened RequestInvariants
  import opened SystemInvariants
  import opened Guarantees

  /** Some of the readings are of backend `name`. */
  predicate Reads(readings: seq<Reading>, name: string) {
    exists p | p in readings :: p.0 == name
  }

  predicate Shows(view: View, gauge: map<string, int>, name: string) {
    name in gauge && gauge[name] == Inflight(view, name)
  }

  // ----- what one request's locked step does to one backend ------------------

  /** The reservation moves to, from or within a backend. */
  predicate MovesSlot(held: Option<Route>, held': Option<Route>, name: string) {
    held' != held && (On(held, name) == 1 || On(held', name) == 1)
  }

  /** A step that moves a slot of a backend shows the new counter at once or carries it
      away; any other step leaves that counter and its gauge alone and reads nothing. */
  ghost predicate Accounts(su: Setup, view: View, gauge: map<string, int>, r: Request, name: string)
    requires Matches(su, view)
  {
    var seen := Look(su, view, r);
    var view', gauge', readings := NextView(su, view, r), NextGauge(su, view, gauge, r), NextPending(r, seen);
    && (forall p | p in readings && p.0 == name :: p.1 == Inflight(view', name))
    && if MovesSlot(r.held, NextHeld(r, seen.res), name)
       then Reads(readings, name) || Shows(view', gauge', name)
       else && !Reads(readings, name)
            && Inflight(view', name) == Inflight(view, name)
            && Count(gauge', name) == Count(gauge, name)
  }

  function NextGauge(su: Setup, view: View, gauge: map<string, int>, r: Request): map<string, int>
    requires Matches(su, view)
  {
    var reading := Announces(su, view, r);
    if reading.Some? then gauge[reading.value.0 := reading.value.1] else gauge
  }

  lemma AcquireAccounts(su: Setup, view: View, gauge: map<string, int>, r: Request, name: string)
    requires ViewOk(su, view) && Counted(view, r) && r.pending == [] && (r.pc.Begin? || r.pc.Retry?)
    ensures Accounts(su, view, gauge, r, name)
  {
    ReserveCounts(su, view, r.alias, r.attempted);
  }

  lemma SwapAccounts(su: Setup, view: View, gauge: map<string, int>, r: Request, name: string)
    requires ViewOk(su, view) && Counted(view, r) && r.pending == [] && r.pc.Swapping? && r.held.value in r.attempted
    ensures Accounts(su, view, gauge, r, name)
  {
    SwapCounts(su, view, r.alias, r.held.value, r.attempted);
    var (after, res) := SwapReservation(su, view, r.alias, r.held, r.attempted);
    if res.Reserved? {
      var readings := SwapReadings(after, r.held, res.route);
      var (from, to) := (r.held.value.backend.name, res.route.backend.name);
      assert Reading1(after, to) in readings;
      assert from != to ==> Reading1(after, from) in readings;
    }
  }

  lemma OtherAccounts(su: Setup, view: View, gauge: map<string, int>, r: Request, name: string)
    requires ViewOk(su, view) && Counted(view, r) && r.pending == [] && !r.pc.Begin? && !r.pc.Retry? && !r.pc.Swapping?
    ensures Accounts(su, view, gauge, r, name)
  {
    if Releasing(r.pc) {
      var after := Release(view, r.held);
      assert ReleaseReadings(after, r.held) == [Reading1(after, r.held.value.backend.name)];
    }
  }

  lemma LockedStepAccounts(su: Setup, view: View, gauge: map<string, int>, r: Request, name: string)
    requires ViewOk(su, view) && Counted(view, r) && r.pending == []
    requires r.pc.Swapping? ==> r.held.value in r.attempted
    ensures Accounts(su, view, gauge, r, name)
  {
    if r.pc.Begin? || r.pc.Retry? {
      AcquireAccounts(su, view, gauge, r, name);
    } else if r.pc.Swapping? {
      SwapAccounts(su, view, gauge, r, name);
    } else {
      OtherAccounts(su, view, gauge, r, name);
    }
  }

  /** A successful swap carries away the counters as it leaves them, the old backend's first
      and the new one's second; on one backend its counter once, unchanged by the swap. */
  lemma SwapCarriesBoth(su: Setup, view: View, r: Request)
    requires ViewOk(su, view) && Counted(view, r) && r.pc.Swapping? && Look(su, view, r).res.Reserved?
    ensures var (from, to) := (r.held.value.backend.name, Look(su, view, r).res.route.backend.name);
            Look(su, view, r).readings ==
              if from == to then [(to, Inflight(view, to))]
              else [(from, Inflight(view, from) - 1), (to, Inflight(view, to) + 1)]
  {
    SwapCounts(su, view, r.alias, r.held.value, r.attempted);
  }

  // ----- uncrossed publications keep the gauge exact --------------------------

  ghost predicate Carries(s: System, id: int, name: string) {
    0 <= id < |s.requests| && Reads(s.requests[id].pending, name)
  }

  /** At most one reading of the backend awaits publication, and it is the counter; when
      none does, the gauge shows the counter. */
  ghost predicate Exact(s: System, name: string) {
    && (forall r | r in s.requests :: forall p | p in r.pending && p.0 == name :: p.1 == Inflight(s.shared.view, name))
    && (forall i, j | Carries(s, i, name) && Carries(s, j, name) :: i == j)
    && ((forall i :: !Carries(s, i, name)) ==> Shows(s.shared.view, s.shared.gauge, name))
  }

  /** The action does not move a slot of the backend while another request still carries
      a reading of it. */
  ghost predicate Uncrossed(s: System, a: Action, s': System, name: string) {
    && a.Act?
    && a.id < |s.requests| && a.id < |s'.requests|
    && MovesSlot(s.requests[a.id].held, s'.requests[a.id].held, name) ==>
      forall k | k != a.id :: !Carries(s, k, name)
  }

  /** Replacing one request's readings, all of which are the counter's value, by new
      ones, if no other request carries any. */
  lemma ReplaceKeepsExact(s: System, s': System, id: nat, name: string)
    requires id < |s.requests| == |s'.requests| && s'.requests == s.requests[id := s'.requests[id]]
    requires forall p | p in s'.requests[id].pending && p.0 == name :: p.1 == Inflight(s'.shared.view, name)
    requires forall k | k != id :: !Carries(s, k, name)
    requires Carries(s', id, name) || Shows(s'.shared.view, s'.shared.gauge, name)
    ensures Exact(s', name)
  {
    forall k | k != id ensures !Carries(s', k, name) {
      assert !Carries(s, k, name);
    }
    forall r | r in s'.requests && r != s'.requests[id] ensures !Reads(r.pending, name) {
      var k :| 0 <= k < |s'.requests| && s'.requests[k] == r;
      assert !Carries(s, k, name);
    }
  }

  /** Neither the counter nor the gauge changes, nor who carries readings of it. */
  lemma FrameKeepsExact(s: System, s': System, id: nat, name: string)
    requires Exact(s, name) && id < |s.requests| == |s'.requests| && s'.requests == s.requests[id := s'.requests[id]]
    requires Inflight(s'.shared.view, name) == Inflight(s.shared.view, name)
    requires name in s.shared.gauge && name in s'.shared.gauge && s'.shared.gauge[name] == s.shared.gauge[name]
    requires forall p | p in s'.requests[id].pending && p.0 == name :: p in s.requests[id].pending
    requires Carries(s, id, name) ==> Carries(s', id, name)
    ensures Exact(s', name)
  {
    assert Carries(s', id, name) ==> Carries(s, id, name);
    assert forall k | k != id :: Carries(s', k, name) <==> Carries(s, k, name);
    forall r | r in s'.requests
      ensures forall p | p in r.pending && p.0 == name :: p.1 == Inflight(s'.shared.view, name)
    {
      if r == s'.requests[id] { assert s.requests[id] in s.requests; } else { assert r in s.requests; }
    }
  }

  lemma PublishKeepsExact(su: Setup, s: System, id: nat, input: Input, name: string)
    requires Matches(su, s.shared.view) && Enabled(s, Act(id, input)) && s.requests[id].pending != []
    requires name in s.shared.gauge && Exact(s, name)
    ensures Exact(Step(su, s, Act(id, input)), name)
  {
    var s' := Step(su, s, Act(id, input));
    var r := s.requests[id];
    assert r in s.requests;
    assert r.pending == [r.pending[0]] + s'.requests[id].pending;
    if r.pending[0].0 == name {
      assert Carries(s, id, name);
      ReplaceKeepsExact(s, s', id, name);
    } else {
      FrameKeepsExact(s, s', id, name);
    }
  }

  /** What a request's step relies on: its slot is counted, and a swap leaves a route
      that has been attempted. */
  ghost predicate Poised(su: Setup, s: System, id: nat) {
    && id < |s.requests|
    && ViewOk(su, s.shared.view)
    && Counted(s.shared.view, s.requests[id])
    && (s.requests[id].pc.Swapping? ==> s.requests[id].held.value in s.requests[id].attempted)
  }

  lemma PoisedAt(su: Setup, states: seq<System>, actions: seq<Action>, i: nat)
    requires SetupOk(su) && IsRun(su, states, actions) && i < |actions|
    ensures actions[i].Act? ==> Poised(su, states[i], actions[i].id)
  {
    assert TakesStep(su, states, actions, i);
    if actions[i].Act? {
      RunInv(su, states, actions, i);
      HeldIsCounted(su, states[i], actions[i].id);
      RequestAt(su, states, actions, i, actions[i].id);
    }
  }

  lemma LockedKeepsExact(su: Setup, s: System, id: nat, input: Input, name: string)
    requires Poised(su, s, id) && Enabled(s, Act(id, input)) && s.requests[id].pending == []
    requires name in s.shared.gauge && Exact(s, name)
    requires Uncrossed(s, Act(id, input), Step(su, s, Act(id, input)), name)
    ensures Exact(Step(su, s, Act(id, input)), name)
  {
    var s' := Step(su, s, Act(id, input));
    var r := s.requests[id];
    var seen := Look(su, s.shared.view, r);
    HeldAfter(r, input, seen);
    PendingAfter(r, input, seen);
    LockedStepAccounts(su, s.shared.view, s.shared.gauge, r, name);
    if MovesSlot(r.held, s'.requests[id].held, name) {
      ReplaceKeepsExact(s, s', id, name);
    } else {
      FrameKeepsExact(s, s', id, name);
    }
  }

  lemma OutsideKeepsExact(su: Setup, s: System, a: Action, name: string)
    requires Matches(su, s.shared.view) && Enabled(s, a) && !a.Act? && name in s.shared.gauge && Exact(s, name)
    ensures Exact(Step(su, s, a), name)
  {
    var s' := Step(su, s, a);
    if a.Timer? {
      FrameKeepsExact(s, s', a.id, name);
    } else {
      assert forall k :: Carries(s', k, name) <==> Carries(s, k, name);
      assert forall r | r in s'.requests :: r in s.requests || r.pending == [];
    }
  }

  lemma StepKeepsExact(su: Setup, s: System, a: Action, s': System, name: string)
    requires Follows(su, s, a, s') && name in s.shared.gauge && Exact(s, name)
    requires a.Act? ==> Poised(su, s, a.id)
    requires Uncrossed(s, a, s', name)
    ensures name in s'.shared.gauge && Exact(s', name)
  {
    if !a.Act? {
      OutsideKeepsExact(su, s, a, name);
    } else if s.requests[a.id].pending != [] {
      PublishKeepsExact(su, s, a.id, a.input, name);
    } else {
      LockedKeepsExact(su, s, a.id, a.input, name);
    }
  }

  /** As long as no slot of a backend is moved while another request still carries a
      reading of it, at most one request carries one, that reading is the counter, and
      whenever nobody carries one the gauge shows the counter. */
  lemma {:induction false} UncrossedGaugeIsExact(su: Setup, states: seq<System>, actions: seq<Action>, i: nat,
                                                 name: string)
    requires SetupOk(su) && IsRun(su, states, actions) && i < |states| && name in su.caps
    requires forall k {:trigger actions[k]} | 0 <= k < i :: Uncrossed(states[k], actions[k], states[k + 1], name)
    ensures name in states[i].shared.gauge
    ensures Exact(states[i], name)
  {
    if i > 0 {
      UncrossedGaugeIsExact(su, states, actions, i - 1, name);
      PoisedAt(su, states, actions, i - 1);
      assert TakesStep(su, states, actions, i - 1);
      assert Uncrossed(states[i - 1], actions[i - 1], states[i], name);
      StepKeepsExact(su, states[i - 1], actions[i - 1], states[i], name);
    }
  }

  // ----- one slot: exact whenever the router is at rest ------------------------

  /** A reading other than zero is carried by a holder only; and a gauge other than zero
      has somebody who will yet set it to zero. */
  ghost predicate WillClear(s: System, name: string) {
    && (forall r | r in s.requests :: forall p | p in r.pending && p.0 == name && p.1 != 0 :: HoldsOn(r, name))
    && (Count(s.shared.gauge, name) != 0 ==> exists r | r in s.requests :: Clears(r, name))
  }

  predicate Clears(r: Request, name: string) {
    HoldsOn(r, name) || (name, 0) in r.pending
  }

  /** One request's step, where whatever it could have cleared it still can, or has. */
  lemma ReplaceWillClear(s: System, s': System, id: nat, name: string)
    requires WillClear(s, name)
    requires id < |s.requests| == |s'.requests| && s'.requests == s.requests[id := s'.requests[id]]
    requires forall p | p in s'.requests[id].pending && p.0 == name && p.1 != 0 :: HoldsOn(s'.requests[id], name)
    requires Count(s'.shared.gauge, name) == 0 || Clears(s'.requests[id], name)
             || (Count(s'.shared.gauge, name) == Count(s.shared.gauge, name) && !Clears(s.requests[id], name))
    ensures WillClear(s', name)
  {
    assert forall r | r in s'.requests :: r in s.requests || r == s'.requests[id];
    if Clears(s'.requests[id], name) {
      assert s'.requests[id] in s'.requests;
    } else if Count(s'.shared.gauge, name) != 0 {
      var k :| 0 <= k < |s.requests| && Clears(s.requests[k], name);
      assert s'.requests[k] in s'.requests;
    }
  }

  lemma PublishWillClear(su: Setup, s: System, id: nat, input: Input, name: string)
    requires Matches(su, s.shared.view) && Enabled(s, Act(id, input)) && s.requests[id].pending != []
    requires WillClear(s, name)
    ensures WillClear(Step(su, s, Act(id, input)), name)
  {
    var r := s.requests[id];
    assert r in s.requests;
    assert r.pending == [r.pending[0]] + r.pending[1..];
    ReplaceWillClear(s, Step(su, s, Act(id, input)), id, name);
  }

  lemma LockedWillClear(su: Setup, s: System, id: nat, input: Input, name: string)
    requires Poised(su, s, id) && Enabled(s, Act(id, input)) && s.requests[id].pending == []
    requires WillClear(s, name) && Inflight(s.shared.view, name) <= 1
    ensures WillClear(Step(su, s, Act(id, input)), name)
  {
    var r := s.requests[id];
    var seen := Look(su, s.shared.view, r);
    var s' := Step(su, s, Act(id, input));
    HeldAfter(r, input, seen);
    PendingAfter(r, input, seen);
    ViewEffect(su, s.shared.view, r);
    LockedStepAccounts(su, s.shared.view, s.shared.gauge, r, name);
    assert !HoldsOn(s'.requests[id], name) && HoldsOn(r, name) ==> Inflight(s'.shared.view, name) == 0;
    ReplaceWillClear(s, s', id, name);
  }

  lemma StepWillClear(su: Setup, s: System, a: Action, s': System, name: string)
    requires Follows(su, s, a, s') && WillClear(s, name) && Inflight(s.shared.view, name) <= 1
    requires a.Act? ==> Poised(su, s, a.id)
    ensures WillClear(s', name)
  {
    match a
    case Act(id, input) =>
      if s.requests[id].pending != [] {
        PublishWillClear(su, s, id, input, name);
      } else {
        LockedWillClear(su, s, id, input, name);
      }
    case Timer(id, _) =>
      assert s.requests[id] in s.requests;
      ReplaceWillClear(s, s', id, name);
    case Arrive(_, _) =>
      assert forall r | r in s'.requests :: r in s.requests || r.pending == [];
      assert forall r | r in s.requests :: r in s'.requests;
    case Probe(_, _) =>
  }

  /** Where a backend's counter never exceeds one, a gauge other than zero is always
      still to be set to zero by somebody. */
  lemma {:induction false} SingleSlotClears(su: Setup, states: seq<System>, actions: seq<Action>, i: nat, name: string)
    requires SetupOk(su) && IsRun(su, states, actions) && i < |states|
    requires forall k: nat | k < i :: Inflight(states[k].shared.view, name) <= 1
    ensures WillClear(states[i], name)
  {
    if i > 0 {
      SingleSlotClears(su, states, actions, i - 1, name);
      PoisedAt(su, states, actions, i - 1);
      assert TakesStep(su, states, actions, i - 1);
      StepWillClear(su, states[i - 1], actions[i - 1], states[i], name);
    }
  }

  // ----- two slots: a run that leaves the gauge wrong --------------------------

  ghost predicate AtRest(s: System) {
    forall r | r in s.requests :: r.pc.Finished?
  }

  /** Some alias has a route on the backend. */
  ghost predicate Routed(su: Setup, alias: string, name: string) {
    alias in su.aliases && exists x | x in su.aliases[alias] :: x.backend.name == name
  }

  /** The backend is healthy and no other has ever been checked. */
  ghost predicate OnlyHealthy(view: View, name: string) {
    && name in view && view[name].checked && view[name].healthy
    && forall n | n in view && n != name :: !view[n].checked
  }

  /** Request `id` has taken a step; the others are as they were. */
  ghost predicate Moved(su: Setup, s: System, id: nat, s': System) {
    && Reachable(su, s')
    && |s'.requests| == |s.requests|
    && forall k | 0 <= k < |s.requests| && k != id :: s'.requests[k] == s.requests[k]
  }

  lemma Advance(su: Setup, s: System, id: nat, input: Input) returns (s': System)
    requires SetupOk(su) && Reachable(su, s) && Enabled(s, Act(id, input))
    ensures Follows(su, s, Act(id, input), s')
    ensures Moved(su, s, id, s')
  {
    ReachableInv(su, s);
    s' := Step(su, s, Act(id, input));
    ReachStep(su, s, Act(id, input), s');
  }

  lemma Admitted(su: Setup, s: System, id: nat, alias: string, name: string) returns (s': System)
    requires SetupOk(su) && Reachable(su, s) && Routed(su, alias, name)
    requires OnlyHealthy(s.shared.view, name) && s.shared.view[name].inflight < su.caps[name]
    requires id < |s.requests| && s.requests[id] == NewRequest(alias, false)
    ensures Moved(su, s, id, s') && OnlyHealthy(s'.shared.view, name)
    ensures s'.shared.view[name].inflight == s.shared.view[name].inflight + 1
    ensures s'.requests[id].pc.Trying? && s'.requests[id].pending == [] && HoldsOn(s'.requests[id], name)
  {
    ReachableInv(su, s);
    ReserveCounts(su, s.shared.view, alias, {});
    var x :| x in su.aliases[alias] && x.backend.name == name;
    assert Eligible(su.caps, s.shared.view, {}, x);
    s' := Advance(su, s, id, Tick);
    assert Inflight(s'.shared.view, name) == Inflight(s.shared.view, name) + 1;
  }

  lemma Departed(su: Setup, s: System, id: nat, name: string) returns (s': System)
    requires SetupOk(su) && Reachable(su, s) && id < |s.requests|
    requires s.requests[id].pc.Trying? && s.requests[id].pending == [] && HoldsOn(s.requests[id], name)
    ensures Moved(su, s, id, s') && s'.shared.view == s.shared.view
    ensures s'.requests[id].pc.CancelRelease? && s'.requests[id].pending == [] && HoldsOn(s'.requests[id], name)
  {
    s' := Advance(su, s, id, Ended(Canceled));
  }

  lemma GaveBack(su: Setup, s: System, id: nat, name: string) returns (s': System)
    requires SetupOk(su) && Reachable(su, s) && id < |s.requests|
    requires s.requests[id].pc.CancelRelease? && s.requests[id].pending == [] && HoldsOn(s.requests[id], name)
    ensures Moved(su, s, id, s') && Inflight(s'.shared.view, name) == Inflight(s.shared.view, name) - 1
    ensures s'.requests[id].pc.CancelObserve? && s'.requests[id].pending == [(name, Inflight(s'.shared.view, name))]
  {
    ReachableInv(su, s);
    HeldIsCounted(su, s, id);
    s' := Advance(su, s, id, Tick);
  }

  lemma Announced(su: Setup, s: System, id: nat, p: Reading) returns (s': System)
    requires SetupOk(su) && Reachable(su, s) && id < |s.requests|
    requires s.requests[id].pc.CancelObserve? && s.requests[id].pending == [p]
    ensures Moved(su, s, id, s') && s'.shared.view == s.shared.view && s'.shared.gauge == s.shared.gauge[p.0 := p.1]
    ensures s'.requests[id].pc.CancelObserve? && s'.requests[id].pending == []
  {
    s' := Advance(su, s, id, Tick);
  }

  lemma WoundUp(su: Setup, s: System, id: nat) returns (s': System)
    requires SetupOk(su) && Reachable(su, s) && id < |s.requests|
    requires s.requests[id].pc.CancelObserve? && s.requests[id].pending == []
    ensures Moved(su, s, id, s') && s'.shared.view == s.shared.view && s'.shared.gauge == s.shared.gauge
    ensures s'.requests[id].pc.Finished?
  {
    var t := Advance(su, s, id, Tick);
    s' := Advance(su, t, id, Tick);
  }

  /** A probe finds the backend healthy and two requests for the alias arrive. */
  lemma Opened(su: Setup, alias: string, name: string) returns (s: System)
    requires SetupOk(su) && name in su.caps
    ensures Reachable(su, s) && OnlyHealthy(s.shared.view, name) && s.shared.view[name].inflight == 0
    ensures s.requests == [NewRequest(alias, false), NewRequest(alias, false)]
  {
    var s0 := Initial(su);
    ReachInitial(su);
    var s1 := Step(su, s0, Probe(name, true));
    ReachStep(su, s0, Probe(name, true), s1);
    var s2 := Step(su, s1, Arrive(alias, false));
    ReachStep(su, s1, Arrive(alias, false), s2);
    s := Step(su, s2, Arrive(alias, false));
    ReachStep(su, s2, Arrive(alias, false), s);
  }

  /** Both requests are admitted to the backend, and both clients leave. */
  lemma BothLeave(su: Setup, alias: string, name: string) returns (s: System)
    requires SetupOk(su) && name in su.caps && su.caps[name] >= 2 && Routed(su, alias, name)
    ensures Reachable(su, s) && |s.requests| == 2 && Inflight(s.shared.view, name) == 2
    ensures forall id | 0 <= id < 2 ::
              s.requests[id].pc.CancelRelease? && s.requests[id].pending == [] && HoldsOn(s.requests[id], name)
  {
    s := Opened(su, alias, name);
    s := Admitted(su, s, 0, alias, name);
    s := Admitted(su, s, 1, alias, name);
    s := Departed(su, s, 0, name);
    s := Departed(su, s, 1, name);
  }

  /** On every backend with two slots and a route there is a run that ends with all
      requests finished, the counter at zero and the gauge at one: the first request to
      give back its slot is the last to publish. */
  lemma GaugeCanStayWrong(su: Setup, alias: string, name: string) returns (s: System)
    requires SetupOk(su) && name in su.caps && su.caps[name] >= 2 && Routed(su, alias, name)
    ensures Reachable(su, s) && |s.requests| == 2 && AtRest(s)
    ensures Inflight(s.shared.view, name) == 0 && name in s.shared.gauge && s.shared.gauge[name] == 1
  {
    s := BothLeave(su, alias, name);
    s := GaveBack(su, s, 0, name);
    s := GaveBack(su, s, 1, name);
    s := Announced(su, s, 1, (name, 0));
    s := Announced(su, s, 0, (name, 1));
    s := WoundUp(su, s, 0);
    s := WoundUp(su, s, 1);
  }

  // ----- exactly when the gauge is right at rest -------------------------------

  lemma UnroutedIsIdle(su: Setup, s: System, name: string)
    requires Inv(su, s) && forall alias :: !Routed(su, alias, name)
    ensures Inflight(s.shared.view, name) == 0
  {
    forall id | 0 <= id < |s.requests| ensures !HoldsOn(s.requests[id], name) {
      var r := s.requests[id];
      assert RequestOk(su, r);
      assert !Routed(su, r.alias, name);
    }
    SumIsHolders(s.requests, name);
    assert Holders(s.requests, name) == {};
  }

  lemma RestIsExact(su: Setup, s: System, name: string)
    requires SetupOk(su) && name in su.caps && Reachable(su, s) && AtRest(s)
    requires su.caps[name] == 1 || forall alias :: !Routed(su, alias, name)
    ensures Shows(s.shared.view, s.shared.gauge, name)
  {
    var states: seq<System>, actions: seq<Action> :| IsRun(su, states, actions) && states[|states| - 1] == s;
    var last := |states| - 1;
    forall k: nat | k < last ensures Inflight(states[k].shared.view, name) <= 1 {
      RunInv(su, states, actions, k);
      if su.caps[name] != 1 { UnroutedIsIdle(su, states[k], name); }
    }
    SingleSlotClears(su, states, actions, last, name);
    QuietMeansEmpty(su, states, actions, last);
    RunInv(su, states, actions, last);
    forall r | r in s.requests ensures !Clears(r, name) {
      assert RequestOk(su, r);
    }
    GaugeIsTotal(su, states, actions, last, name);
  }

  lemma {:induction false} GaugeIsTotal(su: Setup, states: seq<System>, actions: seq<Action>, i: nat, name: string)
    requires IsRun(su, states, actions) && i < |states| && name in su.caps
    ensures name in states[i].shared.gauge
  {
    if i > 0 {
      GaugeIsTotal(su, states, actions, i - 1, name);
      assert TakesStep(su, states, actions, i - 1);
    }
  }

  /** At rest the gauge of a backend is sure to show the counter exactly when the backend
      admits one request at a time or no alias has a route on it. */
  lemma GaugeAtRest(su: Setup, name: string)
    requires SetupOk(su) && name in su.caps
    ensures (forall s | Reachable(su, s) && AtRest(s) :: Shows(s.shared.view, s.shared.gauge, name))
            <==> su.caps[name] == 1 || forall alias :: !Routed(su, alias, name)
  {
    if su.caps[name] == 1 || forall alias :: !Routed(su, alias, name) {
      forall s | Reachable(su, s) && AtRest(s) ensures Shows(s.shared.view, s.shared.gauge, name) {
        RestIsExact(su, s, name);
      }
    } else {
      var alias :| Routed(su, alias, name);
      var s := GaugeCanStayWrong(su, alias, name);
      assert !Shows(s.shared.view, s.shared.gauge, name);
    }
  }
}
