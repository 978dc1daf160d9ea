/**
 The router's shared state as it lives on the heap. Each method is one critical
 section, proved to act on the abstract view exactly as the function of the same
 name in Routing.
 */
module RouterState {
  import opened Common
  import R = Routing
  import V = Validation

  class BackendState {
    const backend: R.Backend
    var checked: bool
    var healthy: bool
    var inflight: int

    constructor (backend: R.Backend)
      ensures this.backend == backend && !checked && !healthy && inflight == 0
    {
      this.backend := backend;
      checked, healthy, inflight := false, false, 0;
    }
  }

  datatype AliasState = AliasState(name: string, routes: seq<R.Route>)

  datatype BackendStatus = BackendStatus(name: string, kind: string, slot: R.Slot, maxInflight: int)
  datatype AliasStatus = AliasStatus(name: string, ready: bool, routeCount: nat)
  datatype Status = Status(backends: seq<BackendStatus>, aliases: seq<AliasStatus>)

  class State {
    const backends: map<string, BackendState>
    const order: seq<BackendState>
    const aliases: map<string, AliasState>
    const aliasOrder: seq<AliasState>

    /** What NewState is given in parts; it only stores them. */
    constructor (backends: map<string, BackendState>, order: seq<BackendState>,
                 aliases: map<string, AliasState>, aliasOrder: seq<AliasState>)
      ensures this.backends == backends && this.order == order
      ensures this.aliases == aliases && this.aliasOrder == aliasOrder
    {
      this.backends, this.order := backends, order;
      this.aliases, this.aliasOrder := aliases, aliasOrder;
    }

    function Setup(): R.Setup {
      R.Setup(map n | n in backends :: backends[n].backend.maxInflight, map a | a in aliases :: aliases[a].routes)
    }

    ghost function View(): R.View
      reads backends.Values
    {
      map n | n in backends :: R.Slot(backends[n].checked, backends[n].healthy, backends[n].inflight)
    }

    /** Records and aliases stand under their own names. */
    ghost predicate Named() {
      && (forall n | n in backends :: backends[n].backend.name == n)
      && (forall a | a in aliases :: aliases[a].name == a)
    }

    /** The maps and the ordered lists hold the same objects, each listed once. */
    ghost predicate Ordered() {
      && (forall n | n in backends :: backends[n] in order)
      && (forall bs | bs in order :: bs.backend.name in backends && backends[bs.backend.name] == bs)
      && Distinct(order)
      && (forall a | a in aliases :: aliases[a] in aliasOrder)
      && (forall al | al in aliasOrder :: al.name in aliases && aliases[al.name] == al)
      && Distinct(aliasOrder)
    }

    ghost predicate Valid()
      reads backends.Values
    {
      && Named()
      && R.SetupOk(Setup())
      && R.ViewOk(Setup(), View())
    }

    /** One pass over the routes, keeping the best so far and its load. */
    method SelectLocked(alias: AliasState, attempted: set<R.Route>) returns (best: Option<R.Route>)
      requires Valid() && alias.name in aliases && aliases[alias.name] == alias
      ensures R.Resolved(Setup().caps, View(), alias.routes)
      ensures best == R.Select(Setup().caps, View(), alias.routes, attempted)
      ensures best.None? <==> R.NoneEligible(Setup().caps, View(), alias.routes, attempted)
      ensures best.Some? ==>
                exists k: nat | R.IsMinimum(Setup().caps, View(), alias.routes, attempted, k) ::
                  alias.routes[k] == best.value
    {
      ghost var caps, view := Setup().caps, View();
      assert Setup().aliases[alias.name] == alias.routes;
      best := None;
      var bestInflight := 0;
      var i := 0;
      while i < |alias.routes|
        invariant 0 <= i <= |alias.routes|
        invariant R.Resolved(caps, view, alias.routes[..i])
        invariant best == R.Select(caps, view, alias.routes[..i], attempted)
        invariant best.Some? ==> bestInflight == view[best.value.backend.name].inflight
      {
        var route := alias.routes[i];
        assert alias.routes[..i + 1][..i] == alias.routes[..i];
        i := i + 1;
        if route in attempted {
          continue;
        }
        var bs := backends[route.backend.name];
        if !bs.checked || !bs.healthy {
          continue;
        }
        if bs.inflight >= bs.backend.maxInflight {
          continue;
        }
        if best.None? {
          best, bestInflight := Some(route), bs.inflight;
          continue;
        }
        if route.priority < best.value.priority {
          best, bestInflight := Some(route), bs.inflight;
        } else if route.priority > best.value.priority {
        } else if bs.inflight < bestInflight {
          best, bestInflight := Some(route), bs.inflight;
        }
      }
      assert alias.routes[..i] == alias.routes;
      R.SelectFindsMinimum(caps, view, alias.routes, attempted);
    }

    /** Adds to one record's counter; the records of other names are other objects. */
    method Adjust(bs: BackendState, delta: int)
      requires Named() && bs in backends.Values
      modifies bs`inflight
      ensures bs.backend.name in old(View()) && View() == R.Bump(old(View()), bs.backend.name, delta)
    {
      bs.inflight := bs.inflight + delta;
    }

    /** Records a health result; the records of other names are other objects. */
    method Mark(bs: BackendState, healthy: bool)
      requires Named() && bs in backends.Values
      modifies bs`checked, bs`healthy
      ensures bs.backend.name in old(View()) && View() == R.SetHealth(old(View()), bs.backend.name, healthy)
    {
      bs.checked := true;
      bs.healthy := healthy;
    }

    method SetHealth(name: string, healthy: bool)
      requires Valid()
      modifies backends.Values
      ensures Valid()
      ensures View() == R.SetHealth(old(View()), name, healthy)
      ensures name in backends ==> backends[name].checked && backends[name].healthy == healthy
      ensures name in backends ==> backends[name].inflight == old(backends[name].inflight)
      ensures forall n | n in backends && n != name :: unchanged(backends[n])
    {
      if name in backends {
        Mark(backends[name], healthy);
      }
    }

    method Reserve(aliasName: string, attempted: set<R.Route>) returns (res: R.Reserved)
      requires Valid()
      modifies backends.Values
      ensures Valid()
      ensures (View(), res) == R.Reserve(Setup(), old(View()), aliasName, attempted)
      ensures res.Reserved? ==>
                && aliasName in aliases
                && R.Resolved(Setup().caps, old(View()), aliases[aliasName].routes)
                && R.IsBest(Setup().caps, old(View()), aliases[aliasName].routes, attempted, res.route)
    {
      R.ReserveEffect(Setup(), View(), aliasName, attempted);
      if aliasName !in aliases {
        return R.UnknownAlias;
      }
      var selected := SelectLocked(aliases[aliasName], attempted);
      if selected.None? {
        return R.NoRoute;
      }
      Adjust(backends[selected.value.backend.name], 1);
      return R.Reserved(selected.value);
    }

    /** Gives up one slot of `name`, selects, and takes the selected slot or restores the
        one given up. The two records may be the same object. */
    method MoveSlot(alias: AliasState, name: string, attempted: set<R.Route>) returns (selected: Option<R.Route>)
      requires Valid() && alias.name in aliases && aliases[alias.name] == alias
      requires name in backends && backends[name].inflight > 0
      modifies backends.Values
      ensures name in old(View()) && R.Resolved(Setup().caps, R.Bump(old(View()), name, -1), alias.routes)
      ensures selected == R.Select(Setup().caps, R.Bump(old(View()), name, -1), alias.routes, attempted)
      ensures View() == if selected.None?
                then old(View())
                else R.Bump(R.Bump(old(View()), name, -1), selected.value.backend.name, 1)
    {
      R.BumpBack(Setup(), View(), name);
      Adjust(backends[name], -1);
      selected := SelectLocked(alias, attempted);
      if selected.None? {
        Adjust(backends[name], 1);
      } else {
        Adjust(backends[selected.value.backend.name], 1);
      }
    }

    /** Also hands out the counters of the old and the new backend, as read under the lock. */
    method SwapReservation(aliasName: string, current: Option<R.Route>, attempted: set<R.Route>)
        returns (res: R.Reserved, currentInflight: int, selectedInflight: int)
      requires Valid()
      modifies backends.Values
      ensures Valid()
      ensures (View(), res) == R.SwapReservation(Setup(), old(View()), aliasName, current, attempted)
      ensures res.Reserved? ==>
                && current.Some? && aliasName in aliases
                && current.value.backend.name in old(View())
                && var freed := R.Bump(old(View()), current.value.backend.name, -1);
                   && R.Resolved(Setup().caps, freed, aliases[aliasName].routes)
                   && R.IsBest(Setup().caps, freed, aliases[aliasName].routes, attempted, res.route)
      ensures res.Reserved? ==>
                && currentInflight == R.Inflight(View(), current.value.backend.name)
                && selectedInflight == R.Inflight(View(), res.route.backend.name)
    {
      if current.None? {
        return R.NoRoute, 0, 0;
      }
      if aliasName !in aliases {
        return R.UnknownAlias, 0, 0;
      }
      var name := current.value.backend.name;
      if name !in backends || backends[name].inflight <= 0 {
        return R.NoRoute, 0, 0;
      }
      R.SwapEffect(Setup(), View(), aliasName, current.value, attempted);
      var selected := MoveSlot(aliases[aliasName], name, attempted);
      if selected.None? {
        return R.NoRoute, 0, 0;
      }
      return R.Reserved(selected.value), backends[name].inflight, backends[selected.value.backend.name].inflight;
    }

    /** Gives a slot back, and hands out the counter of a known backend as read under the lock. */
    method Release(route: Option<R.Route>) returns (value: Option<int>)
      requires Valid()
      modifies backends.Values
      ensures Valid()
      ensures View() == R.Release(old(View()), route)
      ensures value == if route.Some? && route.value.backend.name in View()
                then Some(R.Inflight(View(), route.value.backend.name)) else None
    {
      if route.None? {
        return None;
      }
      var name := route.value.backend.name;
      if name in backends && backends[name].inflight > 0 {
        Adjust(backends[name], -1);
      }
      value := if name in backends then Some(backends[name].inflight) else None;
    }

    method AliasReadyLocked(alias: AliasState) returns (ready: bool)
      requires Valid() && alias.name in aliases && aliases[alias.name] == alias
      ensures forall r | r in alias.routes :: r.backend.name in View()
      ensures ready == R.AliasReady(View(), alias.routes)
    {
      assert Setup().aliases[alias.name] == alias.routes;
      for i := 0 to |alias.routes|
        invariant forall k | 0 <= k < i ::
          !(View()[alias.routes[k].backend.name].checked && View()[alias.routes[k].backend.name].healthy)
      {
        var bs := backends[alias.routes[i].backend.name];
        if bs.checked && bs.healthy {
          return true;
        }
      }
      return false;
    }

    method Ready() returns (ready: bool)
      requires Valid() && Ordered()
      ensures ready == R.Ready(Setup(), View())
    {
      for i := 0 to |aliasOrder|
        invariant forall k | 0 <= k < i :: R.AliasReady(View(), Setup().aliases[aliasOrder[k].name])
      {
        var one := AliasReadyLocked(aliasOrder[i]);
        if !one {
          assert aliasOrder[i].name in Setup().aliases;
          return false;
        }
      }
      return true;
    }

    /** The status report shows, in configuration order, the very slots routing uses. */
    method Snapshot() returns (status: Status)
      requires Valid() && Ordered()
      ensures |status.backends| == |order| && |status.aliases| == |aliasOrder|
      ensures forall i | 0 <= i < |order| ::
                var b := order[i].backend;
                && b.name in View()
                && status.backends[i] == BackendStatus(b.name, b.kind, View()[b.name], Setup().caps[b.name])
      ensures forall i | 0 <= i < |aliasOrder| ::
                var a := aliasOrder[i];
                status.aliases[i] == AliasStatus(a.name, R.AliasReady(View(), Setup().aliases[a.name]), |a.routes|)
    {
      var bs: seq<BackendStatus> := [];
      for i := 0 to |order|
        invariant |bs| == i
        invariant forall k | 0 <= k < i ::
          var b := order[k].backend;
          b.name in View() && bs[k] == BackendStatus(b.name, b.kind, View()[b.name], Setup().caps[b.name])
      {
        var o := order[i];
        var slot := R.Slot(o.checked, o.healthy, o.inflight);
        bs := bs + [BackendStatus(o.backend.name, o.backend.kind, slot, o.backend.maxInflight)];
      }
      var als: seq<AliasStatus> := [];
      for i := 0 to |aliasOrder|
        invariant |als| == i
        invariant forall k | 0 <= k < i ::
          var a := aliasOrder[k];
          als[k] == AliasStatus(a.name, R.AliasReady(View(), Setup().aliases[a.name]), |a.routes|)
      {
        var ready := AliasReadyLocked(aliasOrder[i]);
        als := als + [AliasStatus(aliasOrder[i].name, ready, |aliasOrder[i].routes|)];
      }
      return Status(bs, als);
    }
  }

  // ----- construction ------------------------------------------------------

  /** The route is the alias's i-th entry, on the backend that the entry names. The upstream
      model is stored as configured, not trimmed. */
  ghost predicate RouteFrom(cfg: V.AliasConfig, i: nat, r: R.Route, byName: map<string, BackendState>)
    requires i < |cfg.routes|
  {
    && r.alias == cfg.name
    && r.order == i
    && r.priority == cfg.routes[i].priority
    && r.upstreamModel == cfg.routes[i].upstreamModel
    && cfg.routes[i].backend in byName
    && r.backend == byName[cfg.routes[i].backend].backend
  }

  predicate Resolves(names: set<string>, cfg: V.AliasConfig) {
    forall r | r in cfg.routes :: r.backend in names
  }

  /** Slots in configuration order, and by name; a repeated name keeps its last record. */
  method BuildBackends(backends: seq<R.Backend>) returns (byName: map<string, BackendState>, order: seq<BackendState>)
    ensures |order| == |backends|
    ensures forall k | 0 <= k < |order| ::
              && fresh(order[k]) && order[k].backend == backends[k]
              && !order[k].checked && !order[k].healthy && order[k].inflight == 0
    ensures Distinct(order)
    ensures byName.Keys == set b | b in backends :: b.name
    ensures forall n | n in byName :: byName[n] in order && byName[n].backend.name == n
  {
    byName, order := map[], [];
    for i := 0 to |backends|
      invariant |order| == i
      invariant forall k | 0 <= k < i ::
        && fresh(order[k]) && order[k].backend == backends[k]
        && !order[k].checked && !order[k].healthy && order[k].inflight == 0
      invariant Distinct(order)
      invariant byName.Keys == set b | b in backends[..i] :: b.name
      invariant forall n | n in byName :: byName[n] in order && byName[n].backend.name == n
    {
      var bs := new BackendState(backends[i]);
      assert bs !in order;
      byName := byName[backends[i].name := bs];
      order := order + [bs];
      assert backends[..i + 1] == backends[..i] + [backends[i]];
    }
    assert backends[..|backends|] == backends;
  }

  /** The routes of one alias; fails exactly on an unknown backend. */
  method BuildRoutes(byName: map<string, BackendState>, cfg: V.AliasConfig) returns (routes: Option<seq<R.Route>>)
    ensures routes.Some? <==> Resolves(byName.Keys, cfg)
    ensures routes.Some? ==> |routes.value| == |cfg.routes|
    ensures routes.Some? ==> forall i | 0 <= i < |cfg.routes| :: RouteFrom(cfg, i, routes.value[i], byName)
  {
    var built: seq<R.Route> := [];
    for i := 0 to |cfg.routes|
      invariant |built| == i
      invariant forall k | 0 <= k < i :: cfg.routes[k].backend in byName
      invariant forall k | 0 <= k < i :: RouteFrom(cfg, k, built[k], byName)
    {
      var entry := cfg.routes[i];
      if entry.backend !in byName {
        assert cfg.routes[i] in cfg.routes;
        return None;
      }
      built := built + [R.Route(cfg.name, byName[entry.backend].backend, entry.upstreamModel, entry.priority, i)];
    }
    return Some(built);
  }

  /** What start-up guarantees about the parts it hands to NewState. */
  ghost predicate Sound(cfgs: seq<V.AliasConfig>, backends: seq<R.Backend>) {
    && (forall i, j | 0 <= i < j < |backends| :: backends[i].name != backends[j].name)
    && (forall b | b in backends :: b.maxInflight >= 1 && b.idleTimeout > 0)
    && (forall i, j | 0 <= i < j < |cfgs| :: cfgs[i].name != cfgs[j].name)
  }

  /** An alias state built from its configuration. */
  ghost predicate BuiltFrom(cfg: V.AliasConfig, al: AliasState, byName: map<string, BackendState>) {
    && al.name == cfg.name
    && |al.routes| == |cfg.routes|
    && forall i | 0 <= i < |al.routes| :: RouteFrom(cfg, i, al.routes[i], byName)
  }

  method BuildAliases(byName: map<string, BackendState>, cfgs: seq<V.AliasConfig>)
      returns (ok: bool, aliases: map<string, AliasState>, order: seq<AliasState>)
    ensures ok <==> forall c | c in cfgs :: Resolves(byName.Keys, c)
    ensures ok ==> |order| == |cfgs| && forall k | 0 <= k < |cfgs| :: BuiltFrom(cfgs[k], order[k], byName)
    ensures ok ==> aliases.Keys == set c | c in cfgs :: c.name
    ensures ok ==> forall a | a in aliases :: aliases[a].name == a && aliases[a] in order
  {
    aliases, order := map[], [];
    for i := 0 to |cfgs|
      invariant |order| == i
      invariant forall k | 0 <= k < i :: Resolves(byName.Keys, cfgs[k]) && BuiltFrom(cfgs[k], order[k], byName)
      invariant aliases.Keys == set c | c in cfgs[..i] :: c.name
      invariant forall a | a in aliases :: aliases[a].name == a && aliases[a] in order
    {
      var routes := BuildRoutes(byName, cfgs[i]);
      if routes.None? {
        assert cfgs[i] in cfgs;
        return false, aliases, order;
      }
      var al := AliasState(cfgs[i].name, routes.value);
      assert cfgs[..i + 1] == cfgs[..i] + [cfgs[i]];
      assert BuiltFrom(cfgs[i], al, byName);
      aliases, order := aliases[al.name := al], order + [al];
    }
    assert cfgs[..|cfgs|] == cfgs;
    ok := true;
  }

  /** Builds the state; null exactly on a route to an unknown backend. From sound parts it
      establishes the representation invariant, with nothing checked and nothing in
      flight, and lists backends and aliases in configuration order. */
  method NewState(cfgs: seq<V.AliasConfig>, backends: seq<R.Backend>) returns (state: State?)
    ensures state == null <==> exists c | c in cfgs :: !Resolves(set b | b in backends :: b.name, c)
    ensures state != null && Sound(cfgs, backends) ==>
              && state.Valid() && state.Ordered()
              && state.View() == R.InitialView(state.Setup())
              && |state.order| == |backends|
              && (forall k | 0 <= k < |backends| :: state.order[k].backend == backends[k])
              && |state.aliasOrder| == |cfgs|
              && (forall k | 0 <= k < |cfgs| :: BuiltFrom(cfgs[k], state.aliasOrder[k], state.backends))
  {
    var byName, order := BuildBackends(backends);
    var ok, aliases, aliasOrder := BuildAliases(byName, cfgs);
    if !ok {
      return null;
    }
    state := new State(byName, order, aliases, aliasOrder);
    if Sound(cfgs, backends) {
      EstablishOrder(state, cfgs, backends);
      EstablishSetup(state, cfgs, backends);
      EstablishView(state);
    }
  }

  lemma EstablishView(state: State)
    requires state.Named() && state.Ordered() && R.SetupOk(state.Setup())
    requires forall bs | bs in state.order :: !bs.checked && !bs.healthy && bs.inflight == 0
    ensures state.View() == R.InitialView(state.Setup())
    ensures state.Valid()
  {
  }

  lemma EstablishBackends(state: State, backends: seq<R.Backend>)
    requires forall i, j | 0 <= i < j < |backends| :: backends[i].name != backends[j].name
    requires |state.order| == |backends| && forall k | 0 <= k < |backends| :: state.order[k].backend == backends[k]
    requires state.backends.Keys == set b | b in backends :: b.name
    requires forall n | n in state.backends :: state.backends[n] in state.order && state.backends[n].backend.name == n
    ensures forall bs | bs in state.order :: bs.backend.name in state.backends && state.backends[bs.backend.name] == bs
  {
    forall bs | bs in state.order ensures bs.backend.name in state.backends && state.backends[bs.backend.name] == bs {
      var k :| 0 <= k < |state.order| && state.order[k] == bs;
      assert backends[k] in backends;
      var other := state.backends[bs.backend.name];
      var j :| 0 <= j < |state.order| && state.order[j] == other;
      assert backends[j].name == backends[k].name;
    }
  }

  lemma EstablishAliases(state: State, cfgs: seq<V.AliasConfig>)
    requires forall i, j | 0 <= i < j < |cfgs| :: cfgs[i].name != cfgs[j].name
    requires |state.aliasOrder| == |cfgs|
    requires forall k | 0 <= k < |cfgs| :: state.aliasOrder[k].name == cfgs[k].name
    requires state.aliases.Keys == set c | c in cfgs :: c.name
    requires forall a | a in state.aliases :: state.aliases[a].name == a && state.aliases[a] in state.aliasOrder
    ensures forall al | al in state.aliasOrder :: al.name in state.aliases && state.aliases[al.name] == al
    ensures Distinct(state.aliasOrder)
  {
    forall al | al in state.aliasOrder ensures al.name in state.aliases && state.aliases[al.name] == al {
      var k :| 0 <= k < |state.aliasOrder| && state.aliasOrder[k] == al;
      assert cfgs[k] in cfgs;
      var other := state.aliases[al.name];
      var j :| 0 <= j < |state.aliasOrder| && state.aliasOrder[j] == other;
      assert cfgs[j].name == cfgs[k].name;
    }
    forall i, j | 0 <= i < j < |state.aliasOrder| ensures state.aliasOrder[i] != state.aliasOrder[j] {
      assert cfgs[i].name != cfgs[j].name;
    }
  }

  lemma EstablishOrder(state: State, cfgs: seq<V.AliasConfig>, backends: seq<R.Backend>)
    requires Sound(cfgs, backends)
    requires |state.order| == |backends| && forall k | 0 <= k < |backends| :: state.order[k].backend == backends[k]
    requires Distinct(state.order) && state.backends.Keys == set b | b in backends :: b.name
    requires forall n | n in state.backends :: state.backends[n] in state.order && state.backends[n].backend.name == n
    requires |state.aliasOrder| == |cfgs|
    requires forall k | 0 <= k < |cfgs| :: BuiltFrom(cfgs[k], state.aliasOrder[k], state.backends)
    requires state.aliases.Keys == set c | c in cfgs :: c.name
    requires forall a | a in state.aliases :: state.aliases[a].name == a && state.aliases[a] in state.aliasOrder
    ensures state.Named() && state.Ordered()
  {
    forall k | 0 <= k < |cfgs| ensures state.aliasOrder[k].name == cfgs[k].name {
      assert BuiltFrom(cfgs[k], state.aliasOrder[k], state.backends);
    }
    EstablishBackends(state, backends);
    EstablishAliases(state, cfgs);
  }

  lemma EstablishSetup(state: State, cfgs: seq<V.AliasConfig>, backends: seq<R.Backend>)
    requires Sound(cfgs, backends) && state.Named() && state.Ordered()
    requires |state.order| == |backends| && forall k | 0 <= k < |backends| :: state.order[k].backend == backends[k]
    requires |state.aliasOrder| == |cfgs|
    requires forall k | 0 <= k < |cfgs| :: BuiltFrom(cfgs[k], state.aliasOrder[k], state.backends)
    ensures R.SetupOk(state.Setup())
  {
    var su := state.Setup();
    forall n | n in su.caps ensures su.caps[n] >= 1 && state.backends[n].backend.idleTimeout > 0 {
      var k :| 0 <= k < |state.order| && state.order[k] == state.backends[n];
      assert backends[k] in backends;
    }
    forall a | a in su.aliases ensures R.RoutesOk(su.caps, a, su.aliases[a]) {
      var k :| 0 <= k < |state.aliasOrder| && state.aliasOrder[k] == state.aliases[a];
      assert BuiltFrom(cfgs[k], state.aliasOrder[k], state.backends);
    }
  }
}
