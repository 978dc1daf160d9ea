/**
 The routing state as a value, and each critical section of the router's state
 as a function on it. The heap classes in RouterState refine these functions;
 the transition system in Protocol is built from them.
 */
module Routing {
  import opened Common

  /** An inference runtime, as far as routing looks at it. */
  datatype Backend = Backend(name: string, kind: string, maxInflight: int, idleTimeout: int)

  /** One candidate upstream of an alias. Routes never change once built, and
      (alias, order) identifies one, so values stand for the program's pointers. */
  datatype Route = Route(alias: string, backend: Backend, upstreamModel: string, priority: int, order: nat)

  /** The mutable part of a backend's record. */
  datatype Slot = Slot(checked: bool, healthy: bool, inflight: int)

  type View = map<string, Slot>

  /** The immutable part of the routing state. */
  datatype Setup = Setup(caps: map<string, int>, aliases: map<string, seq<Route>>)

  datatype Reserved = Reserved(route: Route) | UnknownAlias | NoRoute

  /** Every route names a backend that has both a capacity and a slot. */
  predicate Resolved(caps: map<string, int>, view: View, routes: seq<Route>) {
    forall r | r in routes :: r.backend.name in caps && r.backend.name in view
  }

  /** What a configuration accepted at start-up guarantees. */
  ghost predicate SetupOk(su: Setup) {
    && (forall n | n in su.caps :: su.caps[n] >= 1)
    && (forall a | a in su.aliases :: RoutesOk(su.caps, a, su.aliases[a]))
  }

  ghost predicate RoutesOk(caps: map<string, int>, alias: string, routes: seq<Route>) {
    forall k | 0 <= k < |routes| ::
      && routes[k].alias == alias
      && routes[k].order == k
      && routes[k].backend.name in caps
      && routes[k].backend.idleTimeout > 0
  }

  /** The view has a slot for exactly the configured backends. */
  predicate Matches(su: Setup, view: View) {
    && view.Keys == su.caps.Keys
    && forall a | a in su.aliases :: Resolved(su.caps, view, su.aliases[a])
  }

  /** Capacity is respected, and a backend is healthy only after a check. */
  ghost predicate ViewOk(su: Setup, view: View) {
    && Matches(su, view)
    && forall n | n in view :: 0 <= view[n].inflight <= su.caps[n] && (view[n].healthy ==> view[n].checked)
  }

  /** Nothing checked, nothing in flight. */
  function InitialView(su: Setup): View {
    map n | n in su.caps :: Slot(false, false, 0)
  }

  // ----- selection ---------------------------------------------------------

  predicate Eligible(caps: map<string, int>, view: View, attempted: set<Route>, r: Route)
    requires r.backend.name in caps && r.backend.name in view
  {
    var slot := view[r.backend.name];
    r !in attempted && slot.checked && slot.healthy && slot.inflight < caps[r.backend.name]
  }

  /** Selection keeps `best` unless `r` has a lower priority value, or the same
      priority and strictly fewer requests in flight. */
  predicate Replaces(view: View, r: Route, best: Option<Route>)
    requires r.backend.name in view
    requires best.Some? ==> best.value.backend.name in view
  {
    best.Some? && r.priority >= best.value.priority ==>
      && r.priority == best.value.priority
      && view[r.backend.name].inflight < view[best.value.backend.name].inflight
  }

  /** The one-pass selection over the routes of an alias. */
  function Select(caps: map<string, int>, view: View, routes: seq<Route>, attempted: set<Route>): (best: Option<Route>)
    requires Resolved(caps, view, routes)
    ensures best.Some? ==> best.value in routes && Eligible(caps, view, attempted, best.value)
  {
    if routes == [] then None else
    var last := |routes| - 1;
    var best := Select(caps, view, routes[..last], attempted);
    if Eligible(caps, view, attempted, routes[last]) && Replaces(view, routes[last], best)
    then Some(routes[last])
    else best
  }

  /** Position j comes strictly before position k in the order the router promises:
      priority value, then requests in flight, then configuration position. */
  predicate Precedes(view: View, routes: seq<Route>, j: nat, k: nat)
    requires j < |routes| && k < |routes|
    requires forall r | r in routes :: r.backend.name in view
  {
    var (p, q) := (routes[j].priority, routes[k].priority);
    var (m, n) := (view[routes[j].backend.name].inflight, view[routes[k].backend.name].inflight);
    p < q || (p == q && (m < n || (m == n && j < k)))
  }

  /** Position k holds an eligible route that precedes every other eligible one. */
  ghost predicate IsMinimum(caps: map<string, int>, view: View, routes: seq<Route>, attempted: set<Route>, k: nat)
    requires Resolved(caps, view, routes)
  {
    && k < |routes|
    && Eligible(caps, view, attempted, routes[k])
    && forall j: nat | j < |routes| && j != k && Eligible(caps, view, attempted, routes[j]) ::
         Precedes(view, routes, k, j)
  }

  /** The route sits at a minimum position. */
  ghost predicate IsBest(caps: map<string, int>, view: View, routes: seq<Route>, attempted: set<Route>, r: Route)
    requires Resolved(caps, view, routes)
  {
    exists k: nat | IsMinimum(caps, view, routes, attempted, k) :: routes[k] == r
  }

  ghost predicate NoneEligible(caps: map<string, int>, view: View, routes: seq<Route>, attempted: set<Route>)
    requires Resolved(caps, view, routes)
  {
    forall r | r in routes :: !Eligible(caps, view, attempted, r)
  }

  /** Nothing is selected exactly when nothing is eligible; otherwise the selected
      route sits at a minimum position. */
  lemma {:induction false} SelectFindsMinimum(caps: map<string, int>, view: View, routes: seq<Route>,
                                              attempted: set<Route>)
    requires Resolved(caps, view, routes)
    ensures Select(caps, view, routes, attempted).None? <==> NoneEligible(caps, view, routes, attempted)
    ensures Select(caps, view, routes, attempted).Some? ==>
              exists k: nat | IsMinimum(caps, view, routes, attempted, k) ::
                routes[k] == Select(caps, view, routes, attempted).value
  {
    if routes != [] {
      var last := |routes| - 1;
      var front := routes[..last];
      SelectFindsMinimum(caps, view, front, attempted);
      assert forall r | r in routes :: r in front || r == routes[last];
      var best := Select(caps, view, front, attempted);
      if Select(caps, view, routes, attempted) == Some(routes[last]) && Eligible(caps, view, attempted, routes[last])
          && Replaces(view, routes[last], best) {
        LastIsMinimum(caps, view, routes, attempted);
      } else if best.Some? {
        var k: nat :| IsMinimum(caps, view, front, attempted, k) && front[k] == best.value;
        KeepsMinimum(caps, view, routes, attempted, k);
      }
    }
  }

  lemma LastIsMinimum(caps: map<string, int>, view: View, routes: seq<Route>, attempted: set<Route>)
    requires Resolved(caps, view, routes) && routes != []
    requires Eligible(caps, view, attempted, routes[|routes| - 1])
    requires
      var front := routes[..|routes| - 1];
      var best := Select(caps, view, front, attempted);
      && Replaces(view, routes[|routes| - 1], best)
      && (best.None? ==> NoneEligible(caps, view, front, attempted))
      && (best.Some? ==> exists k: nat | IsMinimum(caps, view, front, attempted, k) :: front[k] == best.value)
    ensures IsMinimum(caps, view, routes, attempted, |routes| - 1)
  {
    var last := |routes| - 1;
    var front := routes[..last];
    var best := Select(caps, view, front, attempted);
    forall j: nat | j < last && Eligible(caps, view, attempted, routes[j])
      ensures Precedes(view, routes, last, j)
    {
      assert front[j] == routes[j];
      assert best.Some?;
      var k: nat :| IsMinimum(caps, view, front, attempted, k) && front[k] == best.value;
      assert k == j || Precedes(view, front, k, j);
    }
  }

  lemma KeepsMinimum(caps: map<string, int>, view: View, routes: seq<Route>, attempted: set<Route>, k: nat)
    requires Resolved(caps, view, routes) && routes != []
    requires IsMinimum(caps, view, routes[..|routes| - 1], attempted, k)
    requires !(Eligible(caps, view, attempted, routes[|routes| - 1]) &&
               Replaces(view, routes[|routes| - 1], Some(routes[k])))
    ensures IsMinimum(caps, view, routes, attempted, k)
  {
    var front := routes[..|routes| - 1];
    forall j: nat | j < |routes| && j != k && Eligible(caps, view, attempted, routes[j])
      ensures Precedes(view, routes, k, j)
    {
      if j < |front| {
        assert front[j] == routes[j] && front[k] == routes[k];
        assert Precedes(view, front, k, j);
      }
    }
  }

  /** The promised order leaves one answer: the selected route is the minimum, and
      whatever is at a minimum position is what is selected. */
  lemma {:induction false} SelectIsTheMinimum(caps: map<string, int>, view: View, routes: seq<Route>,
                                              attempted: set<Route>, k: nat)
    requires Resolved(caps, view, routes)
    requires IsMinimum(caps, view, routes, attempted, k)
    ensures Select(caps, view, routes, attempted) == Some(routes[k])
  {
    SelectFindsMinimum(caps, view, routes, attempted);
    assert routes[k] in routes;
    var j: nat :| IsMinimum(caps, view, routes, attempted, j)
        && Some(routes[j]) == Select(caps, view, routes, attempted);
    assert j == k;
  }

  // ----- critical sections -------------------------------------------------

  function Bump(view: View, name: string, delta: int): View
    requires name in view
  {
    view[name := view[name].(inflight := view[name].inflight + delta)]
  }

  lemma BumpBack(su: Setup, view: View, name: string)
    requires ViewOk(su, view) && name in view && view[name].inflight > 0
    ensures ViewOk(su, Bump(view, name, -1))
    ensures Bump(Bump(view, name, -1), name, 1) == view
  {
  }

  function SetHealth(view: View, name: string, healthy: bool): View {
    if name in view then view[name := view[name].(checked := true, healthy := healthy)] else view
  }

  function Reserve(su: Setup, view: View, alias: string, attempted: set<Route>): (View, Reserved)
    requires Matches(su, view)
  {
    if alias !in su.aliases then (view, UnknownAlias) else
    match Select(su.caps, view, su.aliases[alias], attempted)
    case None => (view, NoRoute)
    case Some(r) => (Bump(view, r.backend.name, 1), Reserved(r))
  }

  function SwapReservation(su: Setup, view: View, alias: string, current: Option<Route>, attempted: set<Route>)
    : (View, Reserved)
    requires Matches(su, view)
  {
    if current.None? then (view, NoRoute) else
    if alias !in su.aliases then (view, UnknownAlias) else
    var name := current.value.backend.name;
    if name !in view || view[name].inflight <= 0 then (view, NoRoute) else
    var freed := Bump(view, name, -1);
    match Select(su.caps, freed, su.aliases[alias], attempted)
    case None => (view, NoRoute)
    case Some(r) => (Bump(freed, r.backend.name, 1), Reserved(r))
  }

  function Release(view: View, route: Option<Route>): View {
    if route.Some? && route.value.backend.name in view && view[route.value.backend.name].inflight > 0
    then Bump(view, route.value.backend.name, -1)
    else view
  }

  /** The in-flight count of a name, zero where the name is unknown. */
  function Inflight(view: View, name: string): int {
    if name in view then view[name].inflight else 0
  }

  function On(route: Option<Route>, name: string): int {
    if route.Some? && route.value.backend.name == name then 1 else 0
  }

  /** What a reservation does to counters and health. */
  lemma ReserveCounts(su: Setup, view: View, alias: string, attempted: set<Route>)
    requires ViewOk(su, view)
    ensures var (view', res) := Reserve(su, view, alias, attempted);
            && ViewOk(su, view')
            && SameHealth(view, view')
            && (res.UnknownAlias? <==> alias !in su.aliases)
            && (res.NoRoute? <==> alias in su.aliases && NoneEligible(su.caps, view, su.aliases[alias], attempted))
            && (!res.Reserved? ==> view' == view)
            && (res.Reserved? ==>
                  && res.route in su.aliases[alias]
                  && Eligible(su.caps, view, attempted, res.route)
                  && forall n :: Inflight(view', n) == Inflight(view, n) + On(Some(res.route), n))
  {
    if alias in su.aliases {
      SelectFindsMinimum(su.caps, view, su.aliases[alias], attempted);
    }
  }

  /** A reservation takes the route that precedes all other eligible ones. It never touches
      health and keeps the view within capacity; it adds one to the selected backend and to
      no other. */
  lemma ReserveEffect(su: Setup, view: View, alias: string, attempted: set<Route>)
    requires ViewOk(su, view)
    ensures var (view', res) := Reserve(su, view, alias, attempted);
            && ViewOk(su, view')
            && SameHealth(view, view')
            && (res.UnknownAlias? <==> alias !in su.aliases)
            && (res.NoRoute? <==> alias in su.aliases && NoneEligible(su.caps, view, su.aliases[alias], attempted))
            && (!res.Reserved? ==> view' == view)
            && (res.Reserved? ==>
                  && res.route in su.aliases[alias]
                  && Eligible(su.caps, view, attempted, res.route)
                  && IsBest(su.caps, view, su.aliases[alias], attempted, res.route)
                  && forall n :: Inflight(view', n) == Inflight(view, n) + On(Some(res.route), n))
  {
    ReserveCounts(su, view, alias, attempted);
    if alias in su.aliases {
      SelectFindsMinimum(su.caps, view, su.aliases[alias], attempted);
    }
  }

  ghost predicate SameHealth(view: View, view': View) {
    && view'.Keys == view.Keys
    && forall n | n in view :: view'[n].checked == view[n].checked && view'[n].healthy == view[n].healthy
  }

  /** What moving a held reservation does to counters and health. */
  lemma SwapCounts(su: Setup, view: View, alias: string, current: Route, attempted: set<Route>)
    requires ViewOk(su, view)
    requires current.backend.name in view && view[current.backend.name].inflight > 0
    ensures var (view', res) := SwapReservation(su, view, alias, Some(current), attempted);
            && ViewOk(su, view')
            && SameHealth(view, view')
            && (res.UnknownAlias? <==> alias !in su.aliases)
            && (res.NoRoute? <==> (alias in su.aliases &&
                  NoneEligible(su.caps, Bump(view, current.backend.name, -1), su.aliases[alias], attempted)))
            && (!res.Reserved? ==> view' == view)
            && (res.Reserved? ==>
                  && res.route in su.aliases[alias]
                  && res.route !in attempted
                  && view[res.route.backend.name].healthy
                  && forall n ::
                       Inflight(view', n) == Inflight(view, n) - On(Some(current), n) + On(Some(res.route), n))
  {
    if alias in su.aliases {
      SelectFindsMinimum(su.caps, Bump(view, current.backend.name, -1), su.aliases[alias], attempted);
    }
  }

  /** Moving a held reservation takes one from the current backend and gives one to
      the route that comes first once that slot is given back, also when the two backends
      are the same; failing changes nothing,
      and it fails exactly when nothing is eligible with the current slot given back. */
  lemma SwapEffect(su: Setup, view: View, alias: string, current: Route, attempted: set<Route>)
    requires ViewOk(su, view)
    requires current.backend.name in view && view[current.backend.name].inflight > 0
    ensures var (view', res) := SwapReservation(su, view, alias, Some(current), attempted);
            && ViewOk(su, view')
            && SameHealth(view, view')
            && (res.UnknownAlias? <==> alias !in su.aliases)
            && (res.NoRoute? <==> (alias in su.aliases &&
                  NoneEligible(su.caps, Bump(view, current.backend.name, -1), su.aliases[alias], attempted)))
            && (!res.Reserved? ==> view' == view)
            && (res.Reserved? ==>
                  && res.route in su.aliases[alias]
                  && res.route !in attempted
                  && view[res.route.backend.name].healthy
                  && IsBest(su.caps, Bump(view, current.backend.name, -1), su.aliases[alias], attempted, res.route)
                  && forall n ::
                       Inflight(view', n) == Inflight(view, n) - On(Some(current), n) + On(Some(res.route), n))
  {
    SwapCounts(su, view, alias, current, attempted);
    if alias in su.aliases {
      SelectFindsMinimum(su.caps, Bump(view, current.backend.name, -1), su.aliases[alias], attempted);
    }
  }

  /** A successful swap is exactly a release followed by a reservation, with nothing
      in between; a failed one is the identity. */
  lemma SwapIsReleaseThenReserve(su: Setup, view: View, alias: string, current: Route, attempted: set<Route>)
    requires ViewOk(su, view)
    requires current.backend.name in view && view[current.backend.name].inflight > 0
    ensures var swap := SwapReservation(su, view, alias, Some(current), attempted);
            var twoSteps := Reserve(su, Release(view, Some(current)), alias, attempted);
            && swap.1 == twoSteps.1
            && swap.0 == (if twoSteps.1.Reserved? then twoSteps.0 else view)
  {
  }

  /** A request that holds a slot is never worse off swapping than reserving afresh. */
  lemma SwapSucceedsWhenReserveWould(su: Setup, view: View, alias: string, current: Route, attempted: set<Route>)
    requires ViewOk(su, view)
    requires current.backend.name in view && view[current.backend.name].inflight > 0
    requires Reserve(su, view, alias, attempted).1.Reserved?
    ensures SwapReservation(su, view, alias, Some(current), attempted).1.Reserved?
  {
    var freed := Bump(view, current.backend.name, -1);
    var r := Reserve(su, view, alias, attempted).1.route;
    assert Eligible(su.caps, freed, attempted, r);
    SelectFindsMinimum(su.caps, freed, su.aliases[alias], attempted);
  }

  /** Requests in flight over a list of backends. */
  function TotalInflight(view: View, names: seq<string>): int {
    if names == [] then 0 else TotalInflight(view, names[..|names| - 1]) + Inflight(view, names[|names| - 1])
  }

  lemma {:induction false} TotalShift(view: View, view': View, names: seq<string>, from: string, to: string)
    requires Distinct(names)
    requires forall n ::
              Inflight(view', n) == Inflight(view, n) - (if n == from then 1 else 0) + (if n == to then 1 else 0)
    ensures TotalInflight(view', names) ==
            TotalInflight(view, names) - (if from in names then 1 else 0) + (if to in names then 1 else 0)
  {
    if names != [] {
      var last := |names| - 1;
      TotalShift(view, view', names[..last], from, to);
      assert forall n | n in names :: n in names[..last] || n == names[last];
    }
  }

  /** Whatever the current route, held or not, and whatever the outcome, a swap conserves
      the number of requests in flight over all configured backends. */
  lemma SwapConservesTotal(su: Setup, view: View, alias: string, current: Option<Route>, attempted: set<Route>,
                           names: seq<string>)
    requires ViewOk(su, view)
    requires Distinct(names) && Elements(names) == view.Keys
    ensures TotalInflight(SwapReservation(su, view, alias, current, attempted).0, names) == TotalInflight(view, names)
  {
    var (view', res) := SwapReservation(su, view, alias, current, attempted);
    if res.Reserved? {
      SwapEffect(su, view, alias, current.value, attempted);
      assert current.value.backend.name in Elements(names) && res.route.backend.name in Elements(names);
      TotalShift(view, view', names, current.value.backend.name, res.route.backend.name);
    }
  }

  // ----- readiness ---------------------------------------------------------

  predicate AliasReady(view: View, routes: seq<Route>)
    requires forall r | r in routes :: r.backend.name in view
  {
    exists r | r in routes :: view[r.backend.name].checked && view[r.backend.name].healthy
  }

  predicate Ready(su: Setup, view: View)
    requires Matches(su, view)
  {
    forall a | a in su.aliases :: AliasReady(view, su.aliases[a])
  }

  /** The same health with every counter at zero. */
  function Drained(view: View): View {
    map n | n in view :: view[n].(inflight := 0)
  }

  /** Readiness ignores load: the router is ready exactly when, drained, it could
      place a first attempt on every alias. */
  lemma ReadyIffDrainedReserves(su: Setup, view: View)
    requires SetupOk(su) && ViewOk(su, view)
    ensures ViewOk(su, Drained(view))
    ensures Ready(su, view) <==> forall a | a in su.aliases :: Reserve(su, Drained(view), a, {}).1.Reserved?
  {
    forall a | a in su.aliases
      ensures AliasReady(view, su.aliases[a]) <==> Reserve(su, Drained(view), a, {}).1.Reserved?
    {
      ReserveEffect(su, Drained(view), a, {});
      assert forall r | r in su.aliases[a] ::
          Eligible(su.caps, Drained(view), {}, r) <==> view[r.backend.name].checked && view[r.backend.name].healthy;
    }
  }

  /** A ready router refuses a first attempt only because every usable backend of
      that alias is full, and there is at least one such backend. */
  lemma ReadyRefusalMeansSaturated(su: Setup, view: View, alias: string)
    requires ViewOk(su, view) && Ready(su, view) && alias in su.aliases
    requires !Reserve(su, view, alias, {}).1.Reserved?
    ensures forall r | r in su.aliases[alias] && view[r.backend.name].checked && view[r.backend.name].healthy ::
              view[r.backend.name].inflight == su.caps[r.backend.name]
    ensures exists r | r in su.aliases[alias] :: view[r.backend.name].checked && view[r.backend.name].healthy
  {
    ReserveEffect(su, view, alias, {});
    assert forall r | r in su.aliases[alias] :: !Eligible(su.caps, view, {}, r);
  }
}
