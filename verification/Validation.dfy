/**
 Configuration validation: single passes that fill maps of what has been seen, proved
 to accept exactly the configurations of a quantified specification. A string is a
 sequence of bytes, one character each.
 */
module Validation {
  import opened Common
  import opened Origin

  datatype BackendConfig = BackendConfig(
    name: string, kind: string, baseURL: string, maxInflight: int,
    responseHeaderTimeoutMS: int, responseIdleTimeoutMS: int, bearerTokenEnv: string)

  datatype RouteConfig = RouteConfig(backend: string, upstreamModel: string, priority: int)
  datatype AliasConfig = AliasConfig(name: string, routes: seq<RouteConfig>)
  datatype Config = Config(
    version: int, listen: string, bearerTokenEnv: string,
    backends: seq<BackendConfig>, aliases: seq<AliasConfig>)

  // ----- names -------------------------------------------------------------

  predicate IsAlphanumeric(c: char) { 'A' <= c <= 'Z' || 'a' <= c <= 'z' || '0' <= c <= '9' }

  predicate IsBackendNameByte(c: char) { IsAlphanumeric(c) || c == '_' || c == '.' || c == '-' }

  predicate IsAliasNameByte(c: char) { IsAlphanumeric(c) || c == '_' || c == '.' || c == ':' || c == '/' || c == '-' }

  ghost predicate NameOk(name: string, maxLen: nat, allowed: char -> bool) {
    1 <= |name| <= maxLen && forall c | c in name :: allowed(c)
  }

  /** Up to 64 letters, digits, underscores, dots and hyphens. */
  ghost predicate BackendNameOk(name: string) {
    && 1 <= |name| <= 64
    && forall c | c in name ::
         'A' <= c <= 'Z' || 'a' <= c <= 'z' || '0' <= c <= '9' || c == '_' || c == '.' || c == '-'
  }

  /** Up to 128 of the same, colons and slashes. */
  ghost predicate AliasNameOk(name: string) {
    && 1 <= |name| <= 128
    && forall c | c in name ::
         || 'A' <= c <= 'Z' || 'a' <= c <= 'z' || '0' <= c <= '9'
         || c == '_' || c == '.' || c == '-' || c == ':' || c == '/'
  }

  method ValidateName(name: string, maxLen: nat, allowed: char -> bool) returns (ok: bool)
    ensures ok <==> NameOk(name, maxLen, allowed)
  {
    if name == "" || |name| > maxLen {
      return false;
    }
    for i := 0 to |name|
      invariant forall c | c in name[..i] :: allowed(c)
    {
      if !allowed(name[i]) {
        return false;
      }
      assert name[..i + 1] == name[..i] + [name[i]];
    }
    assert name[..|name|] == name;
    return true;
  }

  /** Empty, or letters, digits and underscores that do not begin with a digit. */
  ghost predicate EnvNameOk(name: string) {
    && (forall c | c in name :: c == '_' || IsAlphanumeric(c))
    && (name != "" ==> !IsDigit(name[0]))
  }

  method ValidateEnvName(name: string) returns (ok: bool)
    ensures ok <==> EnvNameOk(name)
  {
    for i := 0 to |name|
      invariant forall k | 0 <= k < i :: name[k] == '_' || IsAlphanumeric(name[k])
      invariant i > 0 ==> !IsDigit(name[0])
    {
      var c := name[i];
      if c == '_' {
      } else if 'A' <= c <= 'Z' || 'a' <= c <= 'z' {
      } else if '0' <= c <= '9' && i > 0 {
      } else {
        assert c in name && !(i > 0 && (c == '_' || IsAlphanumeric(c)));
        return false;
      }
    }
    return true;
  }

  predicate IsControl(c: char) { c < ' ' || c == 127 as char }

  method HasControlBytes(value: string) returns (found: bool)
    ensures found <==> exists c | c in value :: IsControl(c)
  {
    for i := 0 to |value|
      invariant forall k | 0 <= k < i :: !IsControl(value[k])
    {
      if value[i] < ' ' || value[i] == 127 as char {
        assert value[i] in value && IsControl(value[i]);
        return true;
      }
    }
    return false;
  }

  // ----- backends ----------------------------------------------------------

  /** One backend entry, taken alone. */
  ghost predicate BackendOk(lib: Library, b: BackendConfig) {
    && BackendNameOk(b.name)
    && b.kind in {"ollama", "llama_cpp", "vllm"}
    && ParseBaseURL(lib, b.baseURL).Accepted?
    && 1 <= b.maxInflight <= 100000
    && 1000 <= b.responseHeaderTimeoutMS <= 900000
    && 1000 <= b.responseIdleTimeoutMS <= 900000
    && EnvNameOk(b.bearerTokenEnv)
  }

  /** Both entries have a base URL, and of one origin. */
  ghost predicate Clash(lib: Library, a: BackendConfig, b: BackendConfig) {
    var (p, q) := (ParseBaseURL(lib, a.baseURL), ParseBaseURL(lib, b.baseURL));
    p.Accepted? && q.Accepted? && SameOrigin(lib, p.base, q.base)
  }

  function KeyOf(lib: Library, b: BackendConfig): string {
    match ParseBaseURL(lib, b.baseURL)
    case Accepted(base) => CanonicalOriginKey(lib, base)
    case Refused(_) => ""
  }

  /** The first n entries are each fine and no two share a name or an origin. */
  ghost predicate FirstOk(lib: Library, bs: seq<BackendConfig>, n: nat)
    requires n <= |bs|
  {
    && (forall i {:trigger BackendOk(lib, bs[i])} | 0 <= i < n :: BackendOk(lib, bs[i]))
    && (forall i, j | 0 <= i < j < n :: bs[i].name != bs[j].name)
    && (forall i, j {:trigger Clash(lib, bs[i], bs[j])} | 0 <= i < j < n :: !Clash(lib, bs[i], bs[j]))
  }

  ghost predicate EntriesOk(lib: Library, bs: seq<BackendConfig>) { FirstOk(lib, bs, |bs|) }

  /** The names of the first n entries. */
  function FirstNames(bs: seq<BackendConfig>, n: nat): set<string>
    requires n <= |bs|
  {
    set i | 0 <= i < n :: bs[i].name
  }

  function Names(bs: seq<BackendConfig>): set<string> { FirstNames(bs, |bs|) }

  /** The origin keys of the first n entries. */
  function FirstKeys(lib: Library, bs: seq<BackendConfig>, n: nat): set<string>
    requires n <= |bs|
  {
    set i | 0 <= i < n :: KeyOf(lib, bs[i])
  }

  datatype Verdict = Known(names: set<string>) | NoEntries | Rejected(index: nat)

  method CheckBackend(lib: Library, b: BackendConfig) returns (ok: bool)
    ensures ok <==> BackendOk(lib, b)
  {
    var named := ValidateName(b.name, 64, IsBackendNameByte);
    var env := ValidateEnvName(b.bearerTokenEnv);
    ok := && named
          && (b.kind == "ollama" || b.kind == "llama_cpp" || b.kind == "vllm")
          && ParseBaseURL(lib, b.baseURL).Accepted?
          && 1 <= b.maxInflight <= 100000
          && 1000 <= b.responseHeaderTimeoutMS <= 900000
          && 1000 <= b.responseIdleTimeoutMS <= 900000
          && env;
  }

  /** For entries fine alone, the keys the pass compares are equal exactly when the origins are. */
  lemma KeyMatchesOrigin(lib: Library, a: BackendConfig, b: BackendConfig)
    requires LibraryOk(lib) && ParseBaseURL(lib, a.baseURL).Accepted? && ParseBaseURL(lib, b.baseURL).Accepted?
    ensures KeyOf(lib, a) == KeyOf(lib, b) <==> Clash(lib, a, b)
  {
    OriginKeyIsExact(lib, ParseBaseURL(lib, a.baseURL).base, ParseBaseURL(lib, b.baseURL).base);
  }

  /** The map of keys knows an origin exactly when an earlier entry has it. */
  lemma NewKeyIsNewOrigin(lib: Library, bs: seq<BackendConfig>, n: nat)
    requires LibraryOk(lib) && n < |bs| && FirstOk(lib, bs, n) && BackendOk(lib, bs[n])
    ensures KeyOf(lib, bs[n]) !in FirstKeys(lib, bs, n) <==>
              forall i | 0 <= i < n :: !Clash(lib, bs[i], bs[n])
  {
    forall i | 0 <= i < n
      ensures KeyOf(lib, bs[i]) == KeyOf(lib, bs[n]) <==> Clash(lib, bs[i], bs[n])
    {
      assert BackendOk(lib, bs[i]);
      KeyMatchesOrigin(lib, bs[i], bs[n]);
    }
  }

  lemma FirstOkStep(lib: Library, bs: seq<BackendConfig>, n: nat)
    requires n < |bs|
    ensures FirstOk(lib, bs, n + 1) <==>
              && FirstOk(lib, bs, n)
              && BackendOk(lib, bs[n])
              && (forall i | 0 <= i < n :: bs[i].name != bs[n].name)
              && (forall i | 0 <= i < n :: !Clash(lib, bs[i], bs[n]))
  {
  }

  lemma SeenStep(lib: Library, bs: seq<BackendConfig>, n: nat)
    requires n < |bs|
    ensures FirstNames(bs, n + 1) == FirstNames(bs, n) + {bs[n].name}
    ensures FirstKeys(lib, bs, n + 1) == FirstKeys(lib, bs, n) + {KeyOf(lib, bs[n])}
    ensures bs[n].name !in FirstNames(bs, n) <==> forall i | 0 <= i < n :: bs[i].name != bs[n].name
  {
  }

  /** A further entry is acceptable exactly when it is fine alone and brings a new name
      and a new origin key. */
  lemma EntriesExtend(lib: Library, bs: seq<BackendConfig>, n: nat)
    requires LibraryOk(lib) && n < |bs| && FirstOk(lib, bs, n)
    ensures FirstOk(lib, bs, n + 1) <==>
            BackendOk(lib, bs[n]) && bs[n].name !in FirstNames(bs, n) && KeyOf(lib, bs[n]) !in FirstKeys(lib, bs, n)
  {
    FirstOkStep(lib, bs, n);
    SeenStep(lib, bs, n);
    if BackendOk(lib, bs[n]) {
      NewKeyIsNewOrigin(lib, bs, n);
    }
  }

  /** One pass with a set of names and a map of origin keys: accepts exactly the lists
      that are fine as a whole, and otherwise names the first entry that spoils it. */
  method ValidateBackends(lib: Library, bs: seq<BackendConfig>) returns (v: Verdict)
    requires LibraryOk(lib)
    ensures v.NoEntries? <==> bs == []
    ensures v.Known? <==> bs != [] && EntriesOk(lib, bs)
    ensures v.Known? ==> v.names == Names(bs)
    ensures v.Rejected? ==> v.index < |bs| && FirstOk(lib, bs, v.index) && !FirstOk(lib, bs, v.index + 1)
  {
    if bs == [] {
      return NoEntries;
    }
    var known: set<string> := {};
    var origins: map<string, string> := map[];
    for i := 0 to |bs|
      invariant FirstOk(lib, bs, i)
      invariant known == FirstNames(bs, i)
      invariant origins.Keys == FirstKeys(lib, bs, i)
    {
      var b := bs[i];
      EntriesExtend(lib, bs, i);
      SeenStep(lib, bs, i);
      var alone := CheckBackend(lib, b);
      if !alone || b.name in known || KeyOf(lib, b) in origins {
        return Rejected(i);
      }
      known := known + {b.name};
      origins := origins[KeyOf(lib, b) := b.name];
    }
    return Known(known);
  }

  // ----- aliases -----------------------------------------------------------

  ghost predicate RouteOk(lib: Library, known: set<string>, r: RouteConfig) {
    var model := lib.trim(r.upstreamModel);
    && r.backend in known
    && 1 <= |model| <= 256
    && (forall c | c in model :: !IsControl(c))
    && 0 <= r.priority <= 1000000
  }

  function RoutePair(lib: Library, r: RouteConfig): (string, string) {
    (r.backend, lib.trim(r.upstreamModel))
  }

  function RouteKey(lib: Library, r: RouteConfig): string {
    r.backend + [0 as char] + lib.trim(r.upstreamModel)
  }

  /** Every route resolves and no two name the same backend and trimmed model. */
  ghost predicate RouteListOk(lib: Library, known: set<string>, rs: seq<RouteConfig>) {
    && rs != []
    && (forall r | r in rs :: RouteOk(lib, known, r))
    && (forall i, j | 0 <= i < j < |rs| :: RoutePair(lib, rs[i]) != RoutePair(lib, rs[j]))
  }

  /** No known name contains the byte that joins a route key. */
  ghost predicate Joinable(known: set<string>) {
    forall n | n in known :: 0 as char !in n
  }

  lemma KnownNamesAreJoinable(lib: Library, bs: seq<BackendConfig>)
    requires EntriesOk(lib, bs)
    ensures Joinable(Names(bs))
  {
    forall n | n in Names(bs) ensures 0 as char !in n {
      var b :| b in bs && b.name == n;
      assert BackendOk(lib, b);
    }
  }

  /** A separator that does not occur in either head splits in one way only. */
  lemma SplitAtFirst(a: string, p: string, b: string, q: string, sep: char)
    requires sep !in a && sep !in b
    requires a + [sep] + p == b + [sep] + q
    ensures a == b && p == q
  {
    var s := a + [sep] + p;
    assert s[|a|] == sep && forall i | 0 <= i < |a| :: s[i] == a[i] && s[i] != sep;
    assert s[|b|] == sep && forall i | 0 <= i < |b| :: s[i] == b[i] && s[i] != sep;
    assert |a| == |b|;
    assert a == s[..|a|] && b == s[..|b|];
    assert p == s[|a| + 1..] && q == s[|b| + 1..];
  }

  /** Joined keys tell routes apart exactly as the pairs do. */
  lemma RouteKeyIsExact(lib: Library, known: set<string>, r: RouteConfig, t: RouteConfig)
    requires Joinable(known) && r.backend in known && t.backend in known
    ensures RouteKey(lib, r) == RouteKey(lib, t) <==> RoutePair(lib, r) == RoutePair(lib, t)
  {
    if RouteKey(lib, r) == RouteKey(lib, t) {
      SplitAtFirst(r.backend, lib.trim(r.upstreamModel), t.backend, lib.trim(t.upstreamModel), 0 as char);
    }
  }

  method CheckRoute(lib: Library, known: set<string>, r: RouteConfig) returns (ok: bool)
    ensures ok <==> RouteOk(lib, known, r)
  {
    var model := lib.trim(r.upstreamModel);
    if r.backend !in known || model == "" || |model| > 256 {
      return false;
    }
    var control := HasControlBytes(model);
    return !control && 0 <= r.priority <= 1000000;
  }

  lemma RoutesExtend(lib: Library, known: set<string>, rs: seq<RouteConfig>, r: RouteConfig, seen: set<string>)
    requires Joinable(known) && (rs == [] || RouteListOk(lib, known, rs))
    requires seen == set x | x in rs :: RouteKey(lib, x)
    ensures RouteListOk(lib, known, rs + [r]) <==> RouteOk(lib, known, r) && RouteKey(lib, r) !in seen
  {
    var all := rs + [r];
    assert all[|rs|] == r && r in all;
    assert forall i | 0 <= i < |rs| :: all[i] == rs[i] && rs[i] in rs;
    if RouteOk(lib, known, r) {
      forall i | 0 <= i < |rs|
        ensures RouteKey(lib, rs[i]) == RouteKey(lib, r) <==> RoutePair(lib, rs[i]) == RoutePair(lib, r)
      {
        assert RouteOk(lib, known, rs[i]);
        RouteKeyIsExact(lib, known, rs[i], r);
      }
    }
    if RouteListOk(lib, known, all) {
      forall x | x in rs ensures RouteKey(lib, x) != RouteKey(lib, r) {
        var i :| 0 <= i < |rs| && rs[i] == x;
        assert RoutePair(lib, all[i]) != RoutePair(lib, all[|rs|]);
      }
    }
  }

  lemma RoutesPrefix(lib: Library, known: set<string>, rs: seq<RouteConfig>, n: nat)
    requires 0 < n <= |rs|
    ensures RouteListOk(lib, known, rs) ==> RouteListOk(lib, known, rs[..n])
  {
    assert forall r | r in rs[..n] :: r in rs;
  }

  method ValidateRoutes(lib: Library, known: set<string>, rs: seq<RouteConfig>) returns (ok: bool)
    requires Joinable(known)
    ensures ok <==> RouteListOk(lib, known, rs)
  {
    if rs == [] {
      return false;
    }
    var seen: set<string> := {};
    for j := 0 to |rs|
      invariant j == 0 || RouteListOk(lib, known, rs[..j])
      invariant seen == set x | x in rs[..j] :: RouteKey(lib, x)
    {
      var r := rs[j];
      assert rs[..j + 1] == rs[..j] + [r];
      RoutesExtend(lib, known, rs[..j], r, seen);
      var alone := CheckRoute(lib, known, r);
      var key := RouteKey(lib, r);
      if !alone || key in seen {
        RoutesPrefix(lib, known, rs, j + 1);
        return false;
      }
      seen := seen + {key};
    }
    assert rs[..|rs|] == rs;
    return true;
  }

  ghost predicate AliasOk(lib: Library, known: set<string>, a: AliasConfig) {
    AliasNameOk(a.name) && RouteListOk(lib, known, a.routes)
  }

  ghost predicate AliasesOk(lib: Library, known: set<string>, als: seq<AliasConfig>) {
    && (forall a | a in als :: AliasOk(lib, known, a))
    && (forall i, j | 0 <= i < j < |als| :: als[i].name != als[j].name)
  }

  method ValidateAliases(lib: Library, known: set<string>, als: seq<AliasConfig>) returns (v: Verdict)
    requires Joinable(known)
    ensures v.NoEntries? <==> als == []
    ensures v.Known? <==> als != [] && AliasesOk(lib, known, als)
    ensures v.Rejected? ==>
              v.index < |als| && AliasesOk(lib, known, als[..v.index]) && !AliasesOk(lib, known, als[..v.index + 1])
  {
    if als == [] {
      return NoEntries;
    }
    var seen: set<string> := {};
    for i := 0 to |als|
      invariant AliasesOk(lib, known, als[..i])
      invariant seen == set a | a in als[..i] :: a.name
    {
      var a := als[i];
      assert als[..i + 1] == als[..i] + [a];
      var named := ValidateName(a.name, 128, IsAliasNameByte);
      var routed := ValidateRoutes(lib, known, a.routes);
      AliasesExtend(lib, known, als[..i], a);
      if !named || a.name in seen || !routed {
        assert !AliasesOk(lib, known, als[..i + 1]);
        AliasesPrefix(lib, known, als, i + 1);
        return Rejected(i);
      }
      seen := seen + {a.name};
    }
    assert als[..|als|] == als;
    return Known(seen);
  }

  lemma AliasesExtend(lib: Library, known: set<string>, als: seq<AliasConfig>, a: AliasConfig)
    requires AliasesOk(lib, known, als)
    ensures AliasesOk(lib, known, als + [a]) <==> AliasOk(lib, known, a) && a.name !in set x | x in als :: x.name
  {
    var all := als + [a];
    assert all[|als|] == a && a in all;
    assert forall i | 0 <= i < |als| :: all[i] == als[i] && als[i] in als;
    if AliasesOk(lib, known, all) {
      forall x | x in als ensures x.name != a.name {
        var i :| 0 <= i < |als| && als[i] == x;
        assert all[i].name != all[|als|].name;
      }
    }
  }

  lemma AliasesPrefix(lib: Library, known: set<string>, als: seq<AliasConfig>, n: nat)
    requires n <= |als|
    ensures AliasesOk(lib, known, als) ==> AliasesOk(lib, known, als[..n])
  {
    assert forall a | a in als[..n] :: a in als;
  }

  // ----- the whole configuration -------------------------------------------

  /** A host and a port of 1 to 65535. */
  ghost predicate ListenOk(lib: Library, listen: string) {
    exists host, port, n ::
      && lib.splitHostPort(listen) == Some((host, port))
      && lib.trim(host) != ""
      && Atoi(port) == Some(n)
      && 1 <= n <= 65535
  }

  method CheckListen(lib: Library, listen: string) returns (ok: bool)
    ensures ok <==> ListenOk(lib, listen)
  {
    var parts := lib.splitHostPort(listen);
    if parts.None? || lib.trim(parts.value.0) == "" {
      return false;
    }
    var number := Atoi(parts.value.1);
    if number.None? || number.value < 1 || number.value > 65535 {
      return false;
    }
    assert lib.splitHostPort(listen) == Some((parts.value.0, parts.value.1)) && number == Some(number.value);
    return true;
  }

  ghost predicate ConfigOk(lib: Library, cfg: Config) {
    && cfg.version == 1
    && ListenOk(lib, cfg.listen)
    && EnvNameOk(cfg.bearerTokenEnv)
    && cfg.backends != [] && EntriesOk(lib, cfg.backends)
    && cfg.aliases != [] && AliasesOk(lib, Names(cfg.backends), cfg.aliases)
  }

  /** Accepts exactly the configurations of the specification. */
  method Validate(lib: Library, cfg: Option<Config>) returns (ok: bool)
    requires LibraryOk(lib)
    ensures ok <==> cfg.Some? && ConfigOk(lib, cfg.value)
  {
    if cfg.None? || cfg.value.version != 1 {
      return false;
    }
    var c := cfg.value;
    var listens := CheckListen(lib, c.listen);
    if !listens {
      return false;
    }
    var env := ValidateEnvName(c.bearerTokenEnv);
    if !env {
      return false;
    }
    var backends := ValidateBackends(lib, c.backends);
    if !backends.Known? {
      return false;
    }
    KnownNamesAreJoinable(lib, c.backends);
    var aliases := ValidateAliases(lib, backends.names, c.aliases);
    return aliases.Known?;
  }
}
