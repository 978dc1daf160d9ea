/**
 From a configuration to a running router: what validation accepts is what the router
 needs, so construction cannot fail on it and starts in a state where every guarantee
 holds.
 */
module Startup {
  import opened Common
  import R = Routing
  import V = Validation
  import O = Origin
  import opened RouterState
  import Proxy
  import Protocol

  /** The secrets a configuration refers to exist and are not empty. */
  predicate SecretOk(secrets: string -> Option<string>, env: string) {
    env != "" ==> secrets(env).Some? && secrets(env).value != ""
  }

  /** The backend has the entry's name and kind, its limit and its idle timeout. */
  ghost predicate Stands(c: V.BackendConfig, b: R.Backend) {
    && b.name == c.name
    && b.kind == c.kind
    && b.maxInflight == c.maxInflight
    && b.idleTimeout == c.responseIdleTimeoutMS
  }

  /** A backend as built: what routing looks at, and what the client that calls it needs. */
  datatype Built = Built(backend: R.Backend, base: O.Base, headerTimeoutMS: int, token: string)

  /** The entry can be built: its base URL is a bare origin and its secret, if any, exists. */
  predicate Buildable(lib: O.Library, secrets: string -> Option<string>, c: V.BackendConfig) {
    O.ParseBaseURL(lib, c.baseURL).Accepted? && SecretOk(secrets, c.bearerTokenEnv)
  }

  /** The built backend has the entry's settings, its parsed origin, and its own secret:
      none when the entry names no variable, and never an empty one when it does. */
  ghost predicate Realizes(lib: O.Library, secrets: string -> Option<string>, c: V.BackendConfig, b: Built) {
    && Stands(c, b.backend)
    && O.ParseBaseURL(lib, c.baseURL) == O.Accepted(b.base)
    && b.headerTimeoutMS == c.responseHeaderTimeoutMS
    && (c.bearerTokenEnv == "" <==> b.token == "")
    && (c.bearerTokenEnv != "" ==> secrets(c.bearerTokenEnv) == Some(b.token))
  }

  /** Builds one backend per entry, in order; fails exactly when some entry cannot be built. */
  method Build(lib: O.Library, secrets: string -> Option<string>, cfgs: seq<V.BackendConfig>)
      returns (backends: Option<seq<Built>>)
    ensures backends.Some? <==> forall c | c in cfgs :: Buildable(lib, secrets, c)
    ensures backends.Some? ==>
              && |backends.value| == |cfgs|
              && forall i | 0 <= i < |cfgs| :: Realizes(lib, secrets, cfgs[i], backends.value[i])
  {
    var built: seq<Built> := [];
    for i := 0 to |cfgs|
      invariant |built| == i
      invariant forall k | 0 <= k < i :: Buildable(lib, secrets, cfgs[k])
      invariant forall k | 0 <= k < i :: Realizes(lib, secrets, cfgs[k], built[k])
    {
      var c := cfgs[i];
      var parsed := O.ParseBaseURL(lib, c.baseURL);
      if parsed.Refused? {
        assert c in cfgs && !Buildable(lib, secrets, c);
        return None;
      }
      var token := "";
      if c.bearerTokenEnv != "" {
        var value := secrets(c.bearerTokenEnv);
        if value.None? || value.value == "" {
          assert c in cfgs && !Buildable(lib, secrets, c);
          return None;
        }
        token := value.value;
      }
      var backend := R.Backend(c.name, c.kind, c.maxInflight, c.responseIdleTimeoutMS);
      built := built + [Built(backend, parsed.base, c.responseHeaderTimeoutMS, token)];
    }
    return Some(built);
  }

  /** The routing half of built backends. */
  function Backends(built: seq<Built>): (bs: seq<R.Backend>)
    ensures |bs| == |built| && forall i | 0 <= i < |built| :: bs[i] == built[i].backend
  {
    seq(|built|, i requires 0 <= i < |built| => built[i].backend)
  }

  /** Of an accepted configuration only the secrets can be missing. */
  lemma AcceptedIsBuildable(lib: O.Library, secrets: string -> Option<string>, cfg: V.Config)
    requires V.ConfigOk(lib, cfg)
    ensures forall c | c in cfg.backends :: Buildable(lib, secrets, c) <==> SecretOk(secrets, c.bearerTokenEnv)
  {
    forall c | c in cfg.backends ensures O.ParseBaseURL(lib, c.baseURL).Accepted? {
      var i :| 0 <= i < |cfg.backends| && cfg.backends[i] == c;
      assert V.BackendOk(lib, cfg.backends[i]);
    }
  }

  /** An accepted configuration yields sound parts in which every route resolves. */
  lemma AcceptedIsSound(lib: O.Library, cfg: V.Config, backends: seq<R.Backend>)
    requires V.ConfigOk(lib, cfg)
    requires |backends| == |cfg.backends| && forall i | 0 <= i < |backends| :: Stands(cfg.backends[i], backends[i])
    ensures Sound(cfg.aliases, backends)
    ensures forall c | c in cfg.aliases :: Resolves(set b | b in backends :: b.name, c)
  {
    forall b | b in backends ensures b.maxInflight >= 1 && b.idleTimeout > 0 {
      var i :| 0 <= i < |backends| && backends[i] == b;
      assert cfg.backends[i] in cfg.backends;
      assert V.BackendOk(lib, cfg.backends[i]);
    }
    var names := set b | b in backends :: b.name;
    forall n | n in V.Names(cfg.backends) ensures n in names {
      var c :| c in cfg.backends && c.name == n;
      var i :| 0 <= i < |cfg.backends| && cfg.backends[i] == c;
      assert backends[i] in backends;
    }
    forall c | c in cfg.aliases ensures Resolves(names, c) {
      assert V.AliasOk(lib, V.Names(cfg.backends), c);
      forall r | r in c.routes ensures r.backend in names {
        assert V.RouteOk(lib, V.Names(cfg.backends), r);
      }
    }
  }

  /** Route i of alias k, entry by entry: its own priority and upstream model, its position,
      and the backend of the entry it names. */
  ghost predicate RouteStands(cfg: V.Config, k: nat, i: nat, r: R.Route)
    requires k < |cfg.aliases| && i < |cfg.aliases[k].routes|
  {
    var entry := cfg.aliases[k].routes[i];
    && r.alias == cfg.aliases[k].name
    && r.order == i
    && r.priority == entry.priority
    && r.upstreamModel == entry.upstreamModel
    && r.backend.name == entry.backend
    && forall j | 0 <= j < |cfg.backends| && cfg.backends[j].name == entry.backend :: Stands(cfg.backends[j], r.backend)
  }

  ghost predicate AliasStands(cfg: V.Config, k: nat, state: State)
    requires k < |cfg.aliases| && k < |state.aliasOrder|
  {
    var al := state.aliasOrder[k];
    && al.name == cfg.aliases[k].name
    && al.name in state.Setup().aliases && state.Setup().aliases[al.name] == al.routes
    && |al.routes| == |cfg.aliases[k].routes|
    && forall i | 0 <= i < |al.routes| :: RouteStands(cfg, k, i, al.routes[i])
  }

  /** The state is the configuration, in its order; a backend's limit is the entry's own. */
  ghost predicate Configured(cfg: V.Config, state: State) {
    && |state.order| == |cfg.backends|
    && (forall j | 0 <= j < |cfg.backends| :: Stands(cfg.backends[j], state.order[j].backend))
    && (forall j | 0 <= j < |cfg.backends| ::
          && cfg.backends[j].name in state.Setup().caps
          && state.Setup().caps[cfg.backends[j].name] == cfg.backends[j].maxInflight)
    && |state.aliasOrder| == |cfg.aliases|
    && (forall k | 0 <= k < |cfg.aliases| :: AliasStands(cfg, k, state))
  }

  lemma ConfiguredAsBuilt(cfg: V.Config, state: State)
    requires state.Named() && state.Ordered()
    requires |state.order| == |cfg.backends|
    requires forall j | 0 <= j < |cfg.backends| :: Stands(cfg.backends[j], state.order[j].backend)
    requires |state.aliasOrder| == |cfg.aliases|
    requires forall k | 0 <= k < |cfg.aliases| :: BuiltFrom(cfg.aliases[k], state.aliasOrder[k], state.backends)
    ensures Configured(cfg, state)
  {
    forall j | 0 <= j < |cfg.backends|
      ensures cfg.backends[j].name in state.backends && state.backends[cfg.backends[j].name] == state.order[j]
    {
      assert state.order[j] in state.order;
    }
    forall k | 0 <= k < |cfg.aliases| ensures AliasStands(cfg, k, state) {
      var al := state.aliasOrder[k];
      assert al in state.aliasOrder && BuiltFrom(cfg.aliases[k], al, state.backends);
      forall i | 0 <= i < |al.routes| ensures RouteStands(cfg, k, i, al.routes[i]) {
        assert RouteFrom(cfg.aliases[k], i, al.routes[i], state.backends);
      }
    }
  }

  /** Starts exactly when the configuration is accepted and its secrets exist; a started
      router is at the initial state of the transition system, for the configured
      backends and aliases in their order. */
  method Start(lib: O.Library, secrets: string -> Option<string>, cfg: Option<V.Config>) returns (world: Proxy.World?)
    requires O.LibraryOk(lib)
    ensures world != null <==>
              && cfg.Some?
              && V.ConfigOk(lib, cfg.value)
              && SecretOk(secrets, cfg.value.bearerTokenEnv)
              && forall c | c in cfg.value.backends :: SecretOk(secrets, c.bearerTokenEnv)
    ensures world != null ==>
              && world.Valid() && world.state.Ordered()
              && world.sys == Protocol.Initial(world.state.Setup())
              && Configured(cfg.value, world.state)
  {
    var ok := V.Validate(lib, cfg);
    if !ok || !SecretOk(secrets, cfg.value.bearerTokenEnv) {
      return null;
    }
    AcceptedIsBuildable(lib, secrets, cfg.value);
    var built := Build(lib, secrets, cfg.value.backends);
    if built.None? {
      return null;
    }
    AcceptedIsSound(lib, cfg.value, Backends(built.value));
    var state := NewState(cfg.value.aliases, Backends(built.value));
    if state == null {
      assert false;
    }
    ConfiguredAsBuilt(cfg.value, state);
    world := new Proxy.World(state);
  }
}
