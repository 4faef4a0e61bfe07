/** The settings manager: rows in the database, a cache that mirrors them, and the YAML fallback. */
module Settings {
  import opened Basics

  datatype Value = Int(i: int) | Float(r: real) | Bool(b: bool) | Str(s: string) | List(items: seq<string>) | Null

  type Fields = map<string, Value>

  /** The JSON value of a row; only objects take part. */
  datatype Stored = Object(fields: Fields) | OtherJson

  type Rows = map<string, Stored>

  type Cache = map<string, Fields>

  datatype Ldap = Ldap(bindPassword: string, rest: Fields)

  datatype DnsConfig = DnsConfig(servers: seq<string>, timeout: real, cacheTtl: int)

  /** The part of the YAML configuration that serves as fallback. */
  datatype Base = Base(
    ldap: Option<Ldap>, dns: DnsConfig, publicHost: string, publicPort: int,
    enforce: bool, attempts: int, lockSeconds: int, adminGroups: seq<string>, deleteToken: bool,
    webSessionTtl: int, webIdleTtl: int, rdpTokenTtl: int,
    maxConnections: int, idleTimeout: int, maxSessionDuration: int)

  const MANAGED_KEYS: seq<string> := ["ldap", "dns", "proxy", "security", "redis_ttl", "portal", "relay"]

  function At<V>(m: map<string, V>, k: string): Option<V> {
    if k in m then Some(m[k]) else None
  }

  function ProxyFallback(base: Base): Fields {
    map["public_host" := Str(base.publicHost), "public_port" := Int(base.publicPort)]
  }

  function SecurityFallback(base: Base): Fields {
    map["token_fingerprint_enforce" := Bool(base.enforce), "login_attempts_per_minute" := Int(base.attempts),
        "login_lock_seconds" := Int(base.lockSeconds), "admin_groups" := List(base.adminGroups),
        "delete_token_on_disconnect" := Bool(base.deleteToken)]
  }

  function RedisFallback(base: Base): Fields {
    map["web_session_ttl" := Int(base.webSessionTtl), "web_idle_ttl" := Int(base.webIdleTtl),
        "rdp_token_ttl" := Int(base.rdpTokenTtl)]
  }

  function RelayFallback(base: Base): Fields {
    map["max_connections" := Int(base.maxConnections), "idle_timeout" := Int(base.idleTimeout),
        "max_session_duration" := Int(base.maxSessionDuration)]
  }

  function DnsFallback(dns: DnsConfig): Fields {
    map["servers" := List(dns.servers), "timeout" := Float(dns.timeout), "cache_ttl" := Int(dns.cacheTtl)]
  }

  function Fallback(base: Base, key: string): Option<Fields> {
    if key == "ldap" then
      if base.ldap.Some? then Some(base.ldap.value.rest["bind_password" := Str(base.ldap.value.bindPassword)]) else None
    else if key == "dns" then Some(DnsFallback(base.dns))
    else if key == "proxy" then Some(ProxyFallback(base))
    else if key == "security" then Some(SecurityFallback(base))
    else if key == "redis_ttl" then Some(RedisFallback(base))
    else if key == "relay" then Some(RelayFallback(base))
    else if key == "portal" then Some(map["name" := Str("RDP-Proxy")])
    else None
  }

  // ---- the agreement of cache and rows ----

  /** A legacy port counts for nothing beside a public one. */
  function Norm(key: string, f: Fields): Fields {
    if key == "proxy" && "public_port" in f then f - {"listen_port"} else f
  }

  /** The cache that a load of these rows builds, before any seeding. */
  function Fresh(rows: Rows): Cache {
    map k | k in rows && rows[k].Object? :: Norm(k, rows[k].fields)
  }

  /** The cache holds exactly the object rows, up to a legacy port that counts for nothing. */
  predicate SyncedAt(row: Option<Stored>, cached: Option<Fields>, k: string) {
    && (cached.Some? <==> row.Some? && row.value.Object?)
    && (cached.Some? ==> Norm(k, cached.value) == Norm(k, row.value.fields))
  }

  ghost predicate Synced(rows: Rows, cache: Cache) {
    forall k :: SyncedAt(At(rows, k), At(cache, k), k)
  }

  // ---- the accessors, as functions of a cache ----

  function Get(f: Fields, k: string, default: Value): Value {
    if k in f then f[k] else default
  }

  /** Python's `int()` on a number: truncation toward zero; a boolean is a number too. */
  function ToInt(v: Value): Option<int> {
    match v
    case Int(i) => Some(i)
    case Float(r) => Some(if r < 0.0 then -((-r).Floor) else r.Floor)
    case Bool(b) => Some(if b then 1 else 0)
    case _ => None
  }

  function PublicHost(base: Base, cached: Option<Fields>): Value {
    if cached.None? then Str(base.publicHost) else Get(cached.value, "public_host", Str(base.publicHost))
  }

  function PublicPort(base: Base, cached: Option<Fields>): Value {
    if cached.None? then Int(base.publicPort)
    else Get(cached.value, "public_port", Get(cached.value, "listen_port", Int(base.publicPort)))
  }

  function SecurityParams(base: Base, cached: Option<Fields>): Fields {
    if cached.None? then SecurityFallback(base)
    else SecurityFallback(base) + (cached.value - {"encryption_key"})
  }

  function Number(cached: Option<Fields>, k: string, default: int): int {
    if cached.Some? && k in cached.value && ToInt(cached.value[k]).Some? then ToInt(cached.value[k]).value else default
  }

  function RedisTtl(base: Base, cached: Option<Fields>): (int, int, int) {
    (Number(cached, "web_session_ttl", base.webSessionTtl), Number(cached, "web_idle_ttl", base.webIdleTtl),
     Number(cached, "rdp_token_ttl", base.rdpTokenTtl))
  }

  function RelayParams(base: Base, cached: Option<Fields>): (int, int, int) {
    (Number(cached, "max_connections", base.maxConnections), Number(cached, "idle_timeout", base.idleTimeout),
     Number(cached, "max_session_duration", base.maxSessionDuration))
  }

  /** The model class of the DNS settings: how each stored value is validated and what stands for a
      missing one. A value of the class's own type passes as it is. */
  datatype DnsModel = DnsModel(
    servers: Value -> Option<seq<string>>, timeout: Value -> Option<real>, cacheTtl: Value -> Option<int>,
    defaults: DnsConfig)
  {
    ghost predicate Valid() {
      && (forall v :: servers(List(v)) == Some(v))
      && (forall v :: timeout(Float(v)) == Some(v))
      && (forall v :: cacheTtl(Int(v)) == Some(v))
    }

    function Servers(f: Fields): Option<seq<string>> {
      if "servers" in f then servers(f["servers"]) else Some(defaults.servers)
    }

    function Timeout(f: Fields): Option<real> {
      if "timeout" in f then timeout(f["timeout"]) else Some(defaults.timeout)
    }

    function CacheTtl(f: Fields): Option<int> {
      if "cache_ttl" in f then cacheTtl(f["cache_ttl"]) else Some(defaults.cacheTtl)
    }

    /** `DnsConfig(**f)`; one invalid value fails the whole. */
    function Parse(f: Fields): Option<DnsConfig> {
      if Servers(f).None? || Timeout(f).None? || CacheTtl(f).None? then None
      else Some(DnsConfig(Servers(f).value, Timeout(f).value, CacheTtl(f).value))
    }
  }

  /** A failed validation falls back to the YAML value. */
  function Dns(base: Base, model: DnsModel, cached: Option<Fields>): DnsConfig {
    if cached.None? then base.dns else model.Parse(cached.value).GetOr(base.dns)
  }

  /** What the accessors read. */
  datatype View = View(
    host: Value, port: Value, security: Fields, redisTtl: (int, int, int), relay: (int, int, int), dns: DnsConfig)

  function ViewOf(base: Base, model: DnsModel, cache: Cache): View {
    View(PublicHost(base, At(cache, "proxy")), PublicPort(base, At(cache, "proxy")),
         SecurityParams(base, At(cache, "security")), RedisTtl(base, At(cache, "redis_ttl")),
         RelayParams(base, At(cache, "relay")), Dns(base, model, At(cache, "dns")))
  }

  lemma ProxyUpToNorm(base: Base, a: Option<Fields>, b: Option<Fields>)
    requires (a.Some? <==> b.Some?) && (a.Some? ==> Norm("proxy", a.value) == Norm("proxy", b.value))
    ensures PublicHost(base, a) == PublicHost(base, b) && PublicPort(base, a) == PublicPort(base, b)
  {
    if a.Some? {
      var n := Norm("proxy", a.value);
      forall k | k == "public_host" || k == "public_port"
        ensures k in a.value <==> k in b.value
        ensures k in a.value && k in b.value ==> a.value[k] == b.value[k]
      {
        assert k in a.value <==> k in n;
        assert k in b.value <==> k in Norm("proxy", b.value);
      }
    }
  }

  lemma FreshAt(rows: Rows, k: string)
    ensures SyncedAt(At(rows, k), At(Fresh(rows), k), k)
    ensures k in Fresh(rows) ==> At(Fresh(rows), k) == Some(Norm(k, rows[k].fields))
  {
  }

  lemma SyncedLikeFresh(rows: Rows, cache: Cache, k: string)
    requires Synced(rows, cache)
    ensures At(cache, k).Some? <==> At(Fresh(rows), k).Some?
    ensures k in cache ==> Norm(k, cache[k]) == Norm(k, Fresh(rows)[k])
    ensures k != "proxy" ==> At(cache, k) == At(Fresh(rows), k)
  {
    FreshAt(rows, k);
    assert SyncedAt(At(rows, k), At(cache, k), k);
  }

  /** An agreeing cache answers every accessor as a fresh load of the rows would. */
  lemma SyncedViews(base: Base, model: DnsModel, rows: Rows, cache: Cache)
    requires Synced(rows, cache)
    ensures ViewOf(base, model, cache) == ViewOf(base, model, Fresh(rows))
  {
    SyncedLikeFresh(rows, cache, "proxy");
    ProxyUpToNorm(base, At(cache, "proxy"), At(Fresh(rows), "proxy"));
    SyncedLikeFresh(rows, cache, "security");
    SyncedLikeFresh(rows, cache, "redis_ttl");
    SyncedLikeFresh(rows, cache, "relay");
    SyncedLikeFresh(rows, cache, "dns");
  }

  // ---- save ----

  predicate Truthy(v: Value) {
    match v
    case Int(i) => i != 0
    case Float(r) => r != 0.0
    case Bool(b) => b
    case Str(s) => s != []
    case List(items) => items != []
    case Null => false
  }

  /** What of a value is stored: an LDAP password only as the ciphertext `blob`. */
  function ToStore(key: string, value: Fields, blob: string): Fields {
    if key == "ldap" && "bind_password" in value then
      var rest := value - {"bind_password"};
      if Truthy(value["bind_password"]) then rest["bind_password_enc" := Str(blob)] else rest
    else value
  }

  predicate DropsPort(key: string, store: Fields) {
    key == "proxy" && "public_port" in store
  }

  function Merged(key: string, before: Fields, store: Fields): Fields {
    if DropsPort(key, store) then before + store - {"listen_port"} else before + store
  }

  function SavedRow(key: string, row: Option<Stored>, store: Fields): Stored {
    match row
    case None => Object(Norm(key, store))
    case Some(Object(f)) => Object(Merged(key, f, store))
    case Some(OtherJson) => Object(store)
  }

  function SavedCache(key: string, cached: Option<Fields>, store: Fields): Fields {
    if cached.Some? then Merged(key, cached.value, store) else Norm(key, store)
  }

  /** Equal but for a legacy port beside a public one. */
  ghost predicate Alike(f: Fields, c: Fields) {
    && (forall k :: k != "listen_port" ==> At(f, k) == At(c, k))
    && ("public_port" in f || At(f, "listen_port") == At(c, "listen_port"))
  }

  lemma AlikeIsNorm(f: Fields, c: Fields)
    ensures Alike(f, c) <==> Norm("proxy", f) == Norm("proxy", c)
  {
    var m, n := Norm("proxy", f), Norm("proxy", c);
    assert forall k :: k != "listen_port" ==> At(f, k) == At(m, k) && At(c, k) == At(n, k);
    if Alike(f, c) {
      assert At(f, "public_port") == At(c, "public_port");
      assert forall k :: k in m ==> At(m, k) == At(n, k);
      assert forall k :: k in n ==> At(m, k) == At(n, k);
      assert m == n;
    }
  }

  lemma MergeKeepsAlike(f: Fields, c: Fields, store: Fields)
    requires Alike(f, c)
    ensures Alike(Merged("proxy", f, store), Merged("proxy", c, store))
  {
    assert At(f, "public_port") == At(c, "public_port");
    forall k | k != "listen_port"
      ensures At(Merged("proxy", f, store), k) == At(Merged("proxy", c, store), k)
    {
      assert At(f, k) == At(c, k);
    }
  }

  lemma SaveKeepsSync(key: string, row: Option<Stored>, cached: Option<Fields>, store: Fields)
    requires SyncedAt(row, cached, key)
    ensures SyncedAt(Some(SavedRow(key, row, store)), Some(SavedCache(key, cached, store)), key)
  {
    if cached.Some? && key == "proxy" {
      var f, c := row.value.fields, cached.value;
      AlikeIsNorm(f, c);
      MergeKeepsAlike(f, c, store);
      AlikeIsNorm(Merged(key, f, store), Merged(key, c, store));
    }
  }

  // ---- the settings key by key ----

  /** What YAML says about a subkey; the LDAP section also has what else its class has. */
  ghost function Yaml(base: Base, section: string, k: string): Option<Value> {
    match section
    case "dns" =>
      if k == "servers" then Some(List(base.dns.servers)) else if k == "timeout" then Some(Float(base.dns.timeout))
      else if k == "cache_ttl" then Some(Int(base.dns.cacheTtl)) else None
    case "proxy" =>
      if k == "public_host" then Some(Str(base.publicHost)) else if k == "public_port" then Some(Int(base.publicPort))
      else None
    case "security" =>
      if k == "token_fingerprint_enforce" then Some(Bool(base.enforce))
      else if k == "login_attempts_per_minute" then Some(Int(base.attempts))
      else if k == "login_lock_seconds" then Some(Int(base.lockSeconds))
      else if k == "admin_groups" then Some(List(base.adminGroups))
      else if k == "delete_token_on_disconnect" then Some(Bool(base.deleteToken)) else None
    case "redis_ttl" =>
      if k == "web_session_ttl" then Some(Int(base.webSessionTtl))
      else if k == "web_idle_ttl" then Some(Int(base.webIdleTtl))
      else if k == "rdp_token_ttl" then Some(Int(base.rdpTokenTtl)) else None
    case "relay" =>
      if k == "max_connections" then Some(Int(base.maxConnections))
      else if k == "idle_timeout" then Some(Int(base.idleTimeout))
      else if k == "max_session_duration" then Some(Int(base.maxSessionDuration)) else None
    case "portal" => if k == "name" then Some(Str("RDP-Proxy")) else None
    case "ldap" =>
      if base.ldap.None? then None
      else if k == "bind_password" then Some(Str(base.ldap.value.bindPassword)) else At(base.ldap.value.rest, k)
    case _ => None
  }

  lemma YamlOfSecurity(base: Base)
    ensures forall k :: At(SecurityFallback(base), k) == Yaml(base, "security", k)
  {
  }

  lemma YamlOfNumbers(base: Base)
    ensures forall k :: At(RedisFallback(base), k) == Yaml(base, "redis_ttl", k)
    ensures forall k :: At(RelayFallback(base), k) == Yaml(base, "relay", k)
  {
  }

  lemma YamlOfOthers(base: Base)
    ensures forall k :: At(DnsFallback(base.dns), k) == Yaml(base, "dns", k)
    ensures forall k :: At(ProxyFallback(base), k) == Yaml(base, "proxy", k)
  {
  }

  lemma FallbackIsYaml(base: Base, section: string)
    ensures forall k :: At(Fallback(base, section).GetOr(map[]), k) == Yaml(base, section, k)
  {
    YamlOfSecurity(base);
    YamlOfNumbers(base);
    YamlOfOthers(base);
  }

  lemma FallbackIsManaged(base: Base, section: string)
    ensures Fallback(base, section).Some? <==> Managed(base, section)
    ensures Fallback(base, section).Some? ==> Fallback(base, section).value != map[]
  {
    if section == "dns" {
      assert "servers" in DnsFallback(base.dns);
    } else if section == "proxy" {
      assert "public_host" in ProxyFallback(base);
    } else if section == "security" {
      assert "admin_groups" in SecurityFallback(base);
    } else if section == "redis_ttl" {
      assert "rdp_token_ttl" in RedisFallback(base);
    } else if section == "relay" {
      assert "idle_timeout" in RelayFallback(base);
    } else if section == "portal" {
      assert "name" in Fallback(base, section).value;
    } else if section == "ldap" && base.ldap.Some? {
      assert "bind_password" in Fallback(base, section).value;
    }
  }

  /** The sections that YAML has values for. */
  ghost predicate Managed(base: Base, section: string) {
    || section == "dns" || section == "proxy" || section == "security" || section == "redis_ttl"
    || section == "relay" || section == "portal" || (section == "ldap" && base.ldap.Some?)
  }

  /** What the cache holds at a subkey of a section. */
  ghost function Cached(cache: Cache, section: string, k: string): Option<Value> {
    if section in cache then At(cache[section], k) else None
  }

  /** `n` is the stored number without its fraction, and the YAML one when no number or boolean is stored. */
  ghost predicate NumberIs(stored: Option<Value>, yaml: int, n: int) {
    match stored
    case Some(Int(i)) => n == i
    case Some(Float(r)) => if r >= 0.0 then n as real <= r < n as real + 1.0 else n as real - 1.0 < r <= n as real
    case Some(Bool(b)) => n == if b then 1 else 0
    case _ => n == yaml
  }

  lemma NumberIsStored(cached: Option<Fields>, k: string, yaml: int)
    ensures NumberIs(if cached.Some? then At(cached.value, k) else None, yaml, Number(cached, k, yaml))
  {
  }

  /** The security parameters: what is stored, but never the encryption key, and otherwise what YAML says. */
  ghost predicate SecurityIs(base: Base, cache: Cache, security: Fields) {
    forall k ::
      At(security, k) == if k != "encryption_key" && Cached(cache, "security", k).Some?
                         then Cached(cache, "security", k) else Yaml(base, "security", k)
  }

  lemma SecurityIsStored(base: Base, cache: Cache)
    ensures SecurityIs(base, cache, SecurityParams(base, At(cache, "security")))
  {
    FallbackIsYaml(base, "security");
  }

  lemma ProxyIsStored(base: Base, cache: Cache)
    ensures PublicHost(base, At(cache, "proxy")) == Cached(cache, "proxy", "public_host").GetOr(Str(base.publicHost))
    ensures PublicPort(base, At(cache, "proxy")) == Cached(cache, "proxy", "public_port").GetOr(
      Cached(cache, "proxy", "listen_port").GetOr(Int(base.publicPort)))
  {
  }

  lemma NumbersAreStored(base: Base, cache: Cache)
    ensures var ttl := RedisTtl(base, At(cache, "redis_ttl"));
      && NumberIs(Cached(cache, "redis_ttl", "web_session_ttl"), base.webSessionTtl, ttl.0)
      && NumberIs(Cached(cache, "redis_ttl", "web_idle_ttl"), base.webIdleTtl, ttl.1)
      && NumberIs(Cached(cache, "redis_ttl", "rdp_token_ttl"), base.rdpTokenTtl, ttl.2)
    ensures var relay := RelayParams(base, At(cache, "relay"));
      && NumberIs(Cached(cache, "relay", "max_connections"), base.maxConnections, relay.0)
      && NumberIs(Cached(cache, "relay", "idle_timeout"), base.idleTimeout, relay.1)
      && NumberIs(Cached(cache, "relay", "max_session_duration"), base.maxSessionDuration, relay.2)
  {
    NumberIsStored(At(cache, "redis_ttl"), "web_session_ttl", base.webSessionTtl);
    NumberIsStored(At(cache, "redis_ttl"), "web_idle_ttl", base.webIdleTtl);
    NumberIsStored(At(cache, "redis_ttl"), "rdp_token_ttl", base.rdpTokenTtl);
    NumberIsStored(At(cache, "relay"), "max_connections", base.maxConnections);
    NumberIsStored(At(cache, "relay"), "idle_timeout", base.idleTimeout);
    NumberIsStored(At(cache, "relay"), "max_session_duration", base.maxSessionDuration);
  }

  /** Every accessor, key by key: the stored value overrides the YAML one. The encryption key is never
      taken from the table, a legacy port counts where no public one is stored, only numbers count where
      numbers are wanted, and DNS settings of which one is invalid are those of YAML. */
  lemma StoredOrYaml(base: Base, model: DnsModel, cache: Cache)
    ensures var v := ViewOf(base, model, cache);
      && v.host == Cached(cache, "proxy", "public_host").GetOr(Str(base.publicHost))
      && v.port == Cached(cache, "proxy", "public_port").GetOr(
           Cached(cache, "proxy", "listen_port").GetOr(Int(base.publicPort)))
      && SecurityIs(base, cache, v.security)
      && NumberIs(Cached(cache, "redis_ttl", "web_session_ttl"), base.webSessionTtl, v.redisTtl.0)
      && NumberIs(Cached(cache, "redis_ttl", "web_idle_ttl"), base.webIdleTtl, v.redisTtl.1)
      && NumberIs(Cached(cache, "redis_ttl", "rdp_token_ttl"), base.rdpTokenTtl, v.redisTtl.2)
      && NumberIs(Cached(cache, "relay", "max_connections"), base.maxConnections, v.relay.0)
      && NumberIs(Cached(cache, "relay", "idle_timeout"), base.idleTimeout, v.relay.1)
      && NumberIs(Cached(cache, "relay", "max_session_duration"), base.maxSessionDuration, v.relay.2)
      && DnsIs(base, model, cache, v.dns)
  {
    ProxyIsStored(base, cache);
    SecurityIsStored(base, cache);
    NumbersAreStored(base, cache);
    DnsIsStored(base, model, cache);
  }

  /** The DNS settings: those of YAML when nothing or an invalid value is stored; otherwise each stored
      value as validated, and the class's own default where none is stored. */
  ghost predicate DnsIs(base: Base, model: DnsModel, cache: Cache, dns: DnsConfig) {
    var servers, timeout, ttl :=
      Cached(cache, "dns", "servers"), Cached(cache, "dns", "timeout"), Cached(cache, "dns", "cache_ttl");
    var invalid :=
      || (servers.Some? && model.servers(servers.value).None?)
      || (timeout.Some? && model.timeout(timeout.value).None?)
      || (ttl.Some? && model.cacheTtl(ttl.value).None?);
    if "dns" !in cache || invalid then dns == base.dns
    else
      && dns.servers == (if servers.Some? then model.servers(servers.value).value else model.defaults.servers)
      && dns.timeout == (if timeout.Some? then model.timeout(timeout.value).value else model.defaults.timeout)
      && dns.cacheTtl == (if ttl.Some? then model.cacheTtl(ttl.value).value else model.defaults.cacheTtl)
  }

  lemma DnsIsStored(base: Base, model: DnsModel, cache: Cache)
    ensures DnsIs(base, model, cache, Dns(base, model, At(cache, "dns")))
  {
  }

  /** `after` are the fields `before` with the value saved over them: a saved public port takes the legacy
      one away, and the LDAP password never gets in, but its ciphertext when it is not empty. */
  ghost predicate SavedOver(section: string, before: Fields, value: Fields, blob: string, after: Fields) {
    forall k ::
      At(after, k) ==
        if section == "proxy" && k == "listen_port" && "public_port" in value then None
        else if section == "ldap" && k == "bind_password" then At(before, k)
        else if section == "ldap" && k == "bind_password_enc" && SetsPassword(value) then Some(Str(blob))
        else if k in value then Some(value[k]) else At(before, k)
  }

  /** The value has a password that Python does not take as false. */
  ghost predicate SetsPassword(value: Fields) {
    && "bind_password" in value
    && value["bind_password"] !in [Int(0), Float(0.0), Bool(false), Str(""), List([]), Null]
  }

  lemma ToStoreIs(section: string, value: Fields, blob: string)
    ensures forall k ::
              At(ToStore(section, value, blob), k) ==
                if section == "ldap" && k == "bind_password" then None
                else if section == "ldap" && k == "bind_password_enc" && SetsPassword(value) then Some(Str(blob))
                else At(value, k)
  {
    assert "bind_password" in value ==> (Truthy(value["bind_password"]) <==> SetsPassword(value));
  }

  lemma MergedIsSavedOver(section: string, before: Fields, value: Fields, blob: string)
    ensures SavedOver(section, before, value, blob, Merged(section, before, ToStore(section, value, blob)))
  {
    ToStoreIs(section, value, blob);
  }

  lemma NormIsSavedOver(section: string, value: Fields, blob: string)
    ensures SavedOver(section, map[], value, blob, Norm(section, ToStore(section, value, blob)))
    ensures section == "proxy" ==> ToStore(section, value, blob) == value
    ensures section != "proxy" ==> SavedOver(section, map[], value, blob, ToStore(section, value, blob))
  {
    ToStoreIs(section, value, blob);
  }

  lemma SavedCacheIs(section: string, cached: Option<Fields>, value: Fields, blob: string)
    ensures SavedOver(section, cached.GetOr(map[]), value, blob,
                      SavedCache(section, cached, ToStore(section, value, blob)))
  {
    if cached.Some? {
      MergedIsSavedOver(section, cached.value, value, blob);
    } else {
      NormIsSavedOver(section, value, blob);
    }
  }

  /** The saved row; one that was no object is replaced as a whole, with the legacy port. */
  ghost predicate RowSavedOver(section: string, row: Option<Stored>, value: Fields, blob: string, row': Stored) {
    && row'.Object?
    && if section == "proxy" && row == Some(OtherJson) then row'.fields == value
       else SavedOver(section, FieldsOf(row).GetOr(map[]), value, blob, row'.fields)
  }

  lemma SavedRowIs(section: string, row: Option<Stored>, value: Fields, blob: string)
    ensures RowSavedOver(section, row, value, blob, SavedRow(section, row, ToStore(section, value, blob)))
  {
    if FieldsOf(row).Some? {
      MergedIsSavedOver(section, FieldsOf(row).value, value, blob);
    } else {
      NormIsSavedOver(section, value, blob);
    }
  }

  /** A saved security setting is the answer from then on, whatever was stored and whatever YAML says. */
  lemma SavedSecurityIsUsed(base: Base, model: DnsModel, before: Fields, value: Fields, blob: string, cache: Cache)
    requires "security" in cache && SavedOver("security", before, value, blob, cache["security"])
    ensures forall k :: k in value && k != "encryption_key" ==>
      At(ViewOf(base, model, cache).security, k) == Some(value[k])
  {
    StoredOrYaml(base, model, cache);
  }

  /** What a load without seeding makes of the rows: the object rows as they are, but no legacy port beside
      a public one. */
  ghost predicate Mirrors(rows: Rows, cache: Cache) {
    && (forall section :: section in cache <==> section in rows && rows[section].Object?)
    && (forall section, k :: section in cache ==>
          At(cache[section], k) == (if HidesPort(rows[section].fields, section, k) then None
                                    else At(rows[section].fields, k)))
  }

  /** The subkey is the legacy port beside a public one. */
  ghost predicate HidesPort(f: Fields, section: string, k: string) {
    section == "proxy" && k == "listen_port" && "public_port" in f
  }

  lemma FreshMirrors(rows: Rows)
    ensures Mirrors(rows, Fresh(rows))
  {
  }

  /** `row'` is the row of a section after seeding: a missing subkey gets its YAML value and a stored one
      stays. The LDAP password is only stored as ciphertext, and only with a new row. */
  ghost predicate SeededAt(base: Base, section: string, row: Option<Stored>, blob: string, row': Option<Stored>) {
    if !Managed(base, section) || row == Some(OtherJson) then row' == row
    else
      && row'.Some? && row'.value.Object?
      && forall k :: At(row'.value.fields, k) == SeededValue(base, section, row, blob, k)
  }

  ghost function SeededValue(base: Base, section: string, row: Option<Stored>, blob: string, k: string): Option<Value>
    requires Managed(base, section) && row != Some(OtherJson)
  {
    if row.Some? && k in row.value.fields then Some(row.value.fields[k])
    else if section == "ldap" && k == "bind_password" then None
    else if section == "ldap" && k == "bind_password_enc" && row.None? && base.ldap.value.bindPassword != ""
    then Some(Str(blob))
    else Yaml(base, section, k)
  }

  lemma SeededRowIs(base: Base, section: string, row: Option<Stored>, blob: string)
    ensures SeededAt(base, section, row, blob, SeededRow(base, section, row, blob))
  {
    FallbackIsYaml(base, section);
    FallbackIsManaged(base, section);
    if Managed(base, section) {
      ToStoreIs(section, Fallback(base, section).value, blob);
    }
  }

  /** Every section is seeded or left alone. */
  ghost predicate AllSeeded(base: Base, rows: Rows, blob: string, rows': Rows) {
    forall section :: SeededAt(base, section, At(rows, section), blob, At(rows', section))
  }

  lemma SeededForIs(base: Base, rows: Rows, blob: string, rows': Rows)
    requires SeededFor(base, MANAGED_KEYS, rows, blob, rows')
    ensures AllSeeded(base, rows, blob, rows')
  {
    forall section
      ensures SeededAt(base, section, At(rows, section), blob, At(rows', section))
    {
      assert At(rows', section) == SeededRowOf(base, MANAGED_KEYS, rows, blob, section);
      SeededRowIs(base, section, At(rows, section), blob);
      if section !in MANAGED_KEYS {
        assert MANAGED_KEYS[0] == "ldap" && MANAGED_KEYS[1] == "dns" && MANAGED_KEYS[2] == "proxy";
        assert MANAGED_KEYS[3] == "security" && MANAGED_KEYS[4] == "redis_ttl" && MANAGED_KEYS[5] == "portal";
        assert MANAGED_KEYS[6] == "relay";
      }
    }
  }

  // ---- seeding ----

  /** The fallback values that the first load may write for a key, without the LDAP plain password. */
  function PatchSource(base: Base, key: string): Option<Fields> {
    var fallback := Fallback(base, key);
    if fallback.None? || fallback.value == map[] then None
    else Some(if key == "ldap" then fallback.value - {"bind_password"} else fallback.value)
  }

  /** The row of a managed key after seeding. */
  function SeededRow(base: Base, key: string, row: Option<Stored>, blob: string): Option<Stored> {
    var source := PatchSource(base, key);
    if source.None? then row
    else match row
      case None => Some(Object(ToStore(key, Fallback(base, key).value, blob)))
      case Some(OtherJson) => row
      case Some(Object(f)) => Some(Object(source.value + f))
  }

  function SeededRowOf(base: Base, keys: seq<string>, rows: Rows, blob: string, k: string): Option<Stored> {
    if k in keys then SeededRow(base, k, At(rows, k), blob) else At(rows, k)
  }

  /** `rows'` is `rows` with the given keys seeded. */
  ghost predicate SeededFor(base: Base, keys: seq<string>, rows: Rows, blob: string, rows': Rows) {
    forall k :: At(rows', k) == SeededRowOf(base, keys, rows, blob, k)
  }

  lemma SourceHasNoLegacyPort(base: Base)
    ensures PatchSource(base, "proxy") == Some(ProxyFallback(base)) && "listen_port" !in ProxyFallback(base)
  {
    assert "public_host" in ProxyFallback(base);
  }

  /** Seeding twice writes what seeding once does. */
  lemma SeedingIsIdempotent(base: Base, key: string, row: Option<Stored>, blob: string, blob': string)
    ensures SeededRow(base, key, SeededRow(base, key, row, blob), blob') == SeededRow(base, key, row, blob)
  {
    var source := PatchSource(base, key);
    if source.Some? && row.None? {
      var store := ToStore(key, Fallback(base, key).value, blob);
      assert source.value + store == store;
    } else if source.Some? && row.value.Object? {
      var f := row.value.fields;
      assert source.value + (source.value + f) == source.value + f;
    }
  }

  /** Seeding leaves every object row with all fallback subkeys, and never changes a stored one. */
  lemma SeedingOnlyAdds(base: Base, key: string, row: Option<Stored>, blob: string, k: string)
    ensures var r := SeededRow(base, key, row, blob);
      && (row.Some? && row.value.Object? && k in row.value.fields ==>
            r.Some? && r.value.Object? && k in r.value.fields && r.value.fields[k] == row.value.fields[k])
      && (Fallback(base, key).Some? && k in Fallback(base, key).value && (key == "ldap" ==> k != "bind_password")
            && !(row.Some? && row.value.OtherJson?) ==>
            r.Some? && r.value.Object? && k in r.value.fields)
  {
  }

  function FieldsOf(row: Option<Stored>): Option<Fields> {
    if row.Some? && row.value.Object? then Some(row.value.fields) else None
  }

  /** A row with only a legacy port that is not the YAML port. */
  predicate LegacyPortDiffers(base: Base, f: Option<Fields>) {
    && f.Some? && "listen_port" in f.value && "public_port" !in f.value
    && f.value["listen_port"] != Int(base.publicPort)
  }

  /** Seeding keeps the port that clients are sent to, except for exactly those rows: they gain the
      YAML port, which hides their own. */
  lemma SeedingKeepsPort(base: Base, row: Option<Stored>, blob: string)
    ensures PublicPort(base, FieldsOf(SeededRow(base, "proxy", row, blob))) == PublicPort(base, FieldsOf(row))
      <==> !LegacyPortDiffers(base, FieldsOf(row))
  {
    SourceHasNoLegacyPort(base);
  }

  /** A row that seeding touches ends up as the fallback overridden by what it held. */
  lemma SeededFields(base: Base, key: string, source: Fields, row: Option<Stored>, blob: string)
    requires PatchSource(base, key) == Some(source) && key != "ldap"
    requires row.Some? ==> row.value.Object?
    ensures FieldsOf(SeededRow(base, key, row, blob)) == Some(source + FieldsOf(row).GetOr(map[]))
  {
    assert source + map[] == source;
  }

  lemma NumberWithFallback(source: Fields, f: Option<Fields>, k: string, default: int)
    requires k in source && source[k] == Int(default)
    ensures Number(Some(source + f.GetOr(map[])), k, default) == Number(f, k, default)
  {
  }

  lemma SeedingKeepsHost(base: Base, row: Option<Stored>, blob: string)
    ensures PublicHost(base, FieldsOf(SeededRow(base, "proxy", row, blob))) == PublicHost(base, FieldsOf(row))
  {
    SourceHasNoLegacyPort(base);
  }

  lemma SeedingKeepsSecurity(base: Base, row: Option<Stored>, blob: string)
    ensures SecurityParams(base, FieldsOf(SeededRow(base, "security", row, blob)))
         == SecurityParams(base, FieldsOf(row))
  {
    assert "token_fingerprint_enforce" in SecurityFallback(base);
    if row.Some? ==> row.value.Object? {
      SeededFields(base, "security", SecurityFallback(base), row, blob);
      SecurityWithFallback(base, FieldsOf(row));
    }
  }

  lemma SeedingKeepsTtl(base: Base, row: Option<Stored>, blob: string)
    ensures RedisTtl(base, FieldsOf(SeededRow(base, "redis_ttl", row, blob))) == RedisTtl(base, FieldsOf(row))
  {
    var source := RedisFallback(base);
    assert "rdp_token_ttl" in source;
    if row.Some? ==> row.value.Object? {
      SeededFields(base, "redis_ttl", source, row, blob);
      NumberWithFallback(source, FieldsOf(row), "web_session_ttl", base.webSessionTtl);
      NumberWithFallback(source, FieldsOf(row), "web_idle_ttl", base.webIdleTtl);
      NumberWithFallback(source, FieldsOf(row), "rdp_token_ttl", base.rdpTokenTtl);
    }
  }

  lemma SeedingKeepsRelay(base: Base, row: Option<Stored>, blob: string)
    ensures RelayParams(base, FieldsOf(SeededRow(base, "relay", row, blob))) == RelayParams(base, FieldsOf(row))
  {
    var source := RelayFallback(base);
    assert "idle_timeout" in source;
    if row.Some? ==> row.value.Object? {
      SeededFields(base, "relay", source, row, blob);
      NumberWithFallback(source, FieldsOf(row), "max_connections", base.maxConnections);
      NumberWithFallback(source, FieldsOf(row), "idle_timeout", base.idleTimeout);
      NumberWithFallback(source, FieldsOf(row), "max_session_duration", base.maxSessionDuration);
    }
  }

  /** A stored row whose values are all valid lacks one that the YAML and the model class give differently. */
  predicate DnsCompletionDiffers(base: Base, model: DnsModel, f: Option<Fields>) {
    && f.Some? && model.Parse(f.value).Some?
    && (("servers" !in f.value && base.dns.servers != model.defaults.servers)
        || ("timeout" !in f.value && base.dns.timeout != model.defaults.timeout)
        || ("cache_ttl" !in f.value && base.dns.cacheTtl != model.defaults.cacheTtl))
  }

  /** Seeding keeps the DNS settings, except for exactly those rows: what the model class stood in for
      is the YAML value from then on. */
  lemma SeedingKeepsDns(base: Base, model: DnsModel, row: Option<Stored>, blob: string)
    requires model.Valid()
    ensures Dns(base, model, FieldsOf(SeededRow(base, "dns", row, blob))) == Dns(base, model, FieldsOf(row))
      <==> !DnsCompletionDiffers(base, model, FieldsOf(row))
  {
    var source := DnsFallback(base.dns);
    assert "servers" in source;
    if row.Some? ==> row.value.Object? {
      SeededFields(base, "dns", source, row, blob);
      DnsCompleted(base, model, source, FieldsOf(row).GetOr(map[]));
    }
  }

  lemma DnsCompleted(base: Base, model: DnsModel, source: Fields, f: Fields)
    requires model.Valid() && source == DnsFallback(base.dns)
    ensures model.Servers(source + f) == if "servers" in f then model.Servers(f) else Some(base.dns.servers)
    ensures model.Timeout(source + f) == if "timeout" in f then model.Timeout(f) else Some(base.dns.timeout)
    ensures model.CacheTtl(source + f) == if "cache_ttl" in f then model.CacheTtl(f) else Some(base.dns.cacheTtl)
  {
  }

  lemma SecurityWithFallback(base: Base, f: Option<Fields>)
    ensures SecurityParams(base, Some(SecurityFallback(base) + f.GetOr(map[]))) == SecurityParams(base, f)
  {
    var d, g := SecurityFallback(base), f.GetOr(map[]);
    assert d + ((d + g) - {"encryption_key"}) == d + (g - {"encryption_key"});
    if f.None? {
      assert d + (g - {"encryption_key"}) == d;
    }
  }

  lemma SectionFromRow(rows: Rows, k: string)
    requires k != "proxy"
    ensures At(Fresh(rows), k) == FieldsOf(At(rows, k))
  {
  }

  lemma ProxyFromRow(base: Base, rows: Rows)
    ensures PublicHost(base, At(Fresh(rows), "proxy")) == PublicHost(base, FieldsOf(At(rows, "proxy")))
    ensures PublicPort(base, At(Fresh(rows), "proxy")) == PublicPort(base, FieldsOf(At(rows, "proxy")))
  {
    FreshAt(rows, "proxy");
  }

  /** The first load of an upgraded deployment: whatever rows it finds, host, security parameters,
      lifetimes and limits stay what the unseeded rows say. So does the port, except for exactly the rows
      with only a legacy port that differs from the YAML port, and so do the DNS settings, except for
      exactly the valid rows that lack a value which YAML and model class give differently. */
  lemma FirstLoadKeepsViews(base: Base, model: DnsModel, rows: Rows, blob: string, rows': Rows)
    requires model.Valid() && SeededFor(base, MANAGED_KEYS, rows, blob, rows')
    ensures var before, after := ViewOf(base, model, Fresh(rows)), ViewOf(base, model, Fresh(rows'));
      && after.host == before.host && after.security == before.security
      && after.redisTtl == before.redisTtl && after.relay == before.relay
      && (after.port == before.port <==> !LegacyPortDiffers(base, FieldsOf(At(rows, "proxy"))))
      && (after.dns == before.dns <==> !DnsCompletionDiffers(base, model, FieldsOf(At(rows, "dns"))))
  {
    assert MANAGED_KEYS[1] == "dns";
    SectionSeeded(base, rows, blob, rows', "dns");
    SeedingKeepsDns(base, model, At(rows, "dns"), blob);
    assert MANAGED_KEYS[2] == "proxy" && MANAGED_KEYS[3] == "security";
    assert MANAGED_KEYS[4] == "redis_ttl" && MANAGED_KEYS[6] == "relay";
    assert At(rows', "proxy") == SeededRowOf(base, MANAGED_KEYS, rows, blob, "proxy");
    ProxyFromRow(base, rows);
    ProxyFromRow(base, rows');
    SeedingKeepsHost(base, At(rows, "proxy"), blob);
    SeedingKeepsPort(base, At(rows, "proxy"), blob);
    SectionSeeded(base, rows, blob, rows', "security");
    SeedingKeepsSecurity(base, At(rows, "security"), blob);
    SectionSeeded(base, rows, blob, rows', "redis_ttl");
    SeedingKeepsTtl(base, At(rows, "redis_ttl"), blob);
    SectionSeeded(base, rows, blob, rows', "relay");
    SeedingKeepsRelay(base, At(rows, "relay"), blob);
  }

  lemma SectionSeeded(base: Base, rows: Rows, blob: string, rows': Rows, k: string)
    requires SeededFor(base, MANAGED_KEYS, rows, blob, rows') && k in MANAGED_KEYS && k != "proxy"
    ensures At(Fresh(rows), k) == FieldsOf(At(rows, k))
    ensures At(Fresh(rows'), k) == FieldsOf(SeededRow(base, k, At(rows, k), blob))
  {
    assert At(rows', k) == SeededRowOf(base, MANAGED_KEYS, rows, blob, k);
    SectionFromRow(rows, k);
    SectionFromRow(rows', k);
  }

  lemma ManagedKeysDiffer(i: int, j: int)
    requires 0 <= i < j < |MANAGED_KEYS|
    ensures MANAGED_KEYS[i] != MANAGED_KEYS[j]
  {
    assert |MANAGED_KEYS| == 7;
    assert |MANAGED_KEYS[0]| == 4 && |MANAGED_KEYS[1]| == 3 && |MANAGED_KEYS[2]| == 5 && |MANAGED_KEYS[3]| == 8;
    assert |MANAGED_KEYS[4]| == 9 && |MANAGED_KEYS[5]| == 6 && |MANAGED_KEYS[6]| == 5;
    assert MANAGED_KEYS[2][0] != MANAGED_KEYS[6][0];
  }

  /** The cache entry after seeding: the row as written where seeding wrote it, otherwise as before. */
  ghost predicate CacheSeeded(rows: Rows, cache: Cache, rows': Rows, cache': Cache) {
    forall k :: At(cache', k) == (if At(rows', k) == At(rows, k) then At(cache, k) else FieldsOf(At(rows', k)))
  }

  /** The row and the cache entry of one key after its turn; all others are as they were. */
  ghost predicate KeySeeded(base: Base, key: string, blob: string,
                            rows: Rows, cache: Cache, rows': Rows, cache': Cache)
  {
    && At(rows', key) == SeededRow(base, key, At(rows, key), blob)
    && At(cache', key) == (if At(rows', key) == At(rows, key) then At(cache, key) else FieldsOf(At(rows', key)))
    && forall k :: k != key ==> At(rows', k) == At(rows, k) && At(cache', k) == At(cache, k)
  }

  lemma OneMoreSeeded(base: Base, keys: seq<string>, key: string, blob: string,
                      rows0: Rows, cache0: Cache, rows: Rows, cache: Cache, rows': Rows, cache': Cache)
    requires key !in keys && KeySeeded(base, key, blob, rows, cache, rows', cache')
    requires SeededFor(base, keys, rows0, blob, rows) && CacheSeeded(rows0, cache0, rows, cache)
    ensures SeededFor(base, keys + [key], rows0, blob, rows') && CacheSeeded(rows0, cache0, rows', cache')
  {
    forall k
      ensures At(rows', k) == SeededRowOf(base, keys + [key], rows0, blob, k)
      ensures At(cache', k) == (if At(rows', k) == At(rows0, k) then At(cache0, k) else FieldsOf(At(rows', k)))
    {
      assert At(rows, k) == SeededRowOf(base, keys, rows0, blob, k);
      assert At(cache, k) == (if At(rows, k) == At(rows0, k) then At(cache0, k) else FieldsOf(At(rows, k)));
    }
  }

  // ---- the manager ----

  method StoreValue(key: string, value: Fields, blob: string) returns (store: Fields)
    ensures store == ToStore(key, value, blob)
  {
    store := value;
    if key == "ldap" && "bind_password" in store {
      var pwd := store["bind_password"];
      store := store - {"bind_password"};
      if Truthy(pwd) {
        store := store["bind_password_enc" := Str(blob)];
      }
    }
  }

  /** A write of a public port drops the legacy one. */
  method WithoutLegacyPort(key: string, f: Fields, store: Fields) returns (r: Fields)
    ensures r == if DropsPort(key, store) then f - {"listen_port"} else f
  {
    r := f;
    if key == "proxy" && "public_port" in store {
      r := r - {"listen_port"};
    }
  }

  class SettingsManager {
    const base: Base
    const decrypt: string -> Option<string>
    /** The table, written by this manager alone. */
    var rows: Rows
    var cache: Cache
    var seeded: bool
    /** A load has happened. */
    ghost var loaded: bool

    ghost predicate Valid()
      reads this
    {
      (loaded ==> Synced(rows, cache)) && (seeded ==> loaded)
    }

    constructor (base: Base, decrypt: string -> Option<string>, rows: Rows)
      ensures Valid() && !loaded && !seeded && cache == map[] && this.rows == rows
      ensures this.base == base && this.decrypt == decrypt
    {
      this.base, this.decrypt, this.rows := base, decrypt, rows;
      cache, seeded, loaded := map[], false, false;
    }

    /** `blob` is the ciphertext of the YAML password, should it be stored now. */
    method Load(blob: string)
      requires Valid()
      modifies this
      ensures Valid() && loaded && seeded
      ensures old(seeded) ==> rows == old(rows) && cache == Fresh(rows) && Mirrors(rows, cache)
      ensures !old(seeded) ==>
        && AllSeeded(base, old(rows), blob, rows) && SeededFor(base, MANAGED_KEYS, old(rows), blob, rows)
        && CacheSeeded(old(rows), Fresh(old(rows)), rows, cache) && Mirrors(old(rows), Fresh(old(rows)))
    {
      var latest := ReadRows();
      cache := latest;
      loaded := true;
      FreshIsSynced(rows);
      FreshMirrors(rows);
      if !seeded {
        SeedFromYaml(blob);
        SeededForIs(base, old(rows), blob, rows);
        seeded := true;
      }
    }

    method ReadRows() returns (latest: Cache)
      ensures latest == Fresh(rows)
    {
      latest := map[];
      var todo := rows.Keys;
      while todo != {}
        invariant todo <= rows.Keys
        invariant latest == map k | k in rows.Keys - todo && rows[k].Object? :: rows[k].fields
        decreases |todo|
      {
        var k :| k in todo;
        if rows[k].Object? {
          latest := latest[k := rows[k].fields];
        }
        todo := todo - {k};
      }
      if "proxy" in latest && "public_port" in latest["proxy"] && "listen_port" in latest["proxy"] {
        latest := latest["proxy" := latest["proxy"] - {"listen_port"}];
      }
      FreshIs(rows, latest);
    }

    method SeedFromYaml(blob: string)
      requires loaded && Synced(rows, cache)
      modifies `rows, `cache
      ensures Synced(rows, cache) && SeededFor(base, MANAGED_KEYS, old(rows), blob, rows)
      ensures CacheSeeded(old(rows), old(cache), rows, cache)
    {
      for i := 0 to |MANAGED_KEYS|
        invariant Synced(rows, cache)
        invariant SeededFor(base, MANAGED_KEYS[..i], old(rows), blob, rows)
        invariant CacheSeeded(old(rows), old(cache), rows, cache)
      {
        var key := MANAGED_KEYS[i];
        forall j | 0 <= j < i
          ensures MANAGED_KEYS[j] != key
        {
          ManagedKeysDiffer(j, i);
        }
        assert MANAGED_KEYS[..i + 1] == MANAGED_KEYS[..i] + [key];
        ghost var r, c := rows, cache;
        SeedKey(key, blob);
        OneMoreSeeded(base, MANAGED_KEYS[..i], key, blob, old(rows), old(cache), r, c, rows, cache);
      }
      assert MANAGED_KEYS[..|MANAGED_KEYS|] == MANAGED_KEYS;
    }

    method SeedKey(key: string, blob: string)
      requires Synced(rows, cache)
      modifies `rows, `cache
      ensures Synced(rows, cache)
      ensures KeySeeded(base, key, blob, old(rows), old(cache), rows, cache)
    {
      ghost var before, cached := rows, cache;
      assert SyncedAt(At(rows, key), At(cache, key), key);
      var fallback := Fallback(base, key);
      if fallback.None? || fallback.value == map[] {
        return;
      }
      if key !in cache {
        var store := ToStore(key, fallback.value, blob);
        if key !in rows {
          rows := rows[key := Object(store)];
          cache := cache[key := store];
        }
      } else {
        var source := PatchSource(base, key).value;
        var missing := map k | k in source && k !in cache[key] :: source[k];
        if missing == map[] {
          NothingMissing(base, key, cache[key], rows[key].fields);
          return;
        }
        MissingIsPatch(base, key, cache[key], rows[key].fields);
        MissingIsNew(base, key, cache[key], rows[key].fields);
        var patched := rows[key].fields + missing;
        rows := rows[key := Object(patched)];
        cache := cache[key := patched];
      }
      OneKeySynced(before, cached, rows, cache, key);
    }

    /** A stale cache is loaded again; None stands for a ciphertext that cannot be decrypted. */
    method Get(key: string, stale: bool, blob: string) returns (r: Option<Fields>)
      requires Valid()
      modifies this
      ensures Valid() && (!stale ==> rows == old(rows) && cache == old(cache) && loaded == old(loaded))
      ensures stale ==> loaded && (old(seeded) ==> rows == old(rows) && cache == Fresh(rows) && Mirrors(rows, cache))
      ensures stale && !old(seeded) ==>
        && AllSeeded(base, old(rows), blob, rows) && SeededFor(base, MANAGED_KEYS, old(rows), blob, rows)
        && CacheSeeded(old(rows), Fresh(old(rows)), rows, cache) && Mirrors(old(rows), Fresh(old(rows)))
      ensures key !in cache ==> r.Some? && forall k :: At(r.value, k) == Yaml(base, key, k)
      ensures key in cache && key != "ldap" ==> r == Some(cache[key])
      ensures key in cache && key == "ldap" ==> r == Revealed(decrypt, cache[key]) && Reveals(decrypt, cache[key], r)
    {
      FallbackIsYaml(base, key);
      if stale {
        Load(blob);
      }
      if key in cache {
        var raw := cache[key];
        if key == "ldap" && "bind_password_enc" in raw {
          var enc := raw["bind_password_enc"];
          if !enc.Str? || decrypt(enc.s).None? {
            return None;
          }
          raw := raw - {"bind_password_enc"};
          raw := raw["bind_password" := Str(decrypt(enc.s).value)];
        }
        return Some(raw);
      }
      r := Some(Fallback(base, key).GetOr(map[]));
    }

    method StoreRow(key: string, store: Fields)
      modifies `rows
      ensures rows == old(rows)[key := SavedRow(key, At(old(rows), key), store)]
    {
      if key !in rows {
        var toStore := WithoutLegacyPort(key, store, store);
        rows := rows[key := Object(toStore)];
      } else if rows[key].Object? {
        var merged := WithoutLegacyPort(key, rows[key].fields + store, store);
        rows := rows[key := Object(merged)];
      } else {
        rows := rows[key := Object(store)];
      }
    }

    method StoreCache(key: string, store: Fields)
      modifies `cache
      ensures cache == old(cache)[key := SavedCache(key, At(old(cache), key), store)]
    {
      if key in cache {
        var merged := WithoutLegacyPort(key, cache[key] + store, store);
        cache := cache[key := merged];
      } else {
        var toCache := WithoutLegacyPort(key, store, store);
        cache := cache[key := toCache];
      }
    }

    method Save(key: string, value: Fields, blob: string)
      requires Valid()
      modifies `rows, `cache
      ensures Valid()
      ensures rows == old(rows)[key := SavedRow(key, At(old(rows), key), ToStore(key, value, blob))]
      ensures cache == old(cache)[key := SavedCache(key, At(old(cache), key), ToStore(key, value, blob))]
      ensures SavedOver(key, At(old(cache), key).GetOr(map[]), value, blob, cache[key])
      ensures RowSavedOver(key, At(old(rows), key), value, blob, rows[key])
    {
      SavedCacheIs(key, At(cache, key), value, blob);
      SavedRowIs(key, At(rows, key), value, blob);
      var store := StoreValue(key, value, blob);
      StoreRow(key, store);
      StoreCache(key, store);
      if loaded {
        assert SyncedAt(At(old(rows), key), At(old(cache), key), key);
        SaveKeepsSync(key, At(old(rows), key), At(old(cache), key), store);
        OneKeySynced(old(rows), old(cache), rows, cache, key);
      }
    }
  }

  // ---- what a save does to later reads ----

  /** The fields with the stored ciphertext replaced by the password, None when it cannot be decrypted. */
  function Revealed(decrypt: string -> Option<string>, f: Fields): Option<Fields> {
    if "bind_password_enc" !in f then Some(f)
    else if !f["bind_password_enc"].Str? || decrypt(f["bind_password_enc"].s).None? then None
    else Some((f - {"bind_password_enc"})["bind_password" := Str(decrypt(f["bind_password_enc"].s).value)])
  }

  /** The fields come out as they are, but with the password for its ciphertext; there is no answer when
      that is no text or cannot be decrypted. */
  ghost predicate Reveals(decrypt: string -> Option<string>, f: Fields, r: Option<Fields>) {
    if "bind_password_enc" !in f then r == Some(f)
    else if !f["bind_password_enc"].Str? || decrypt(f["bind_password_enc"].s).None? then r == None
    else
      && r.Some?
      && forall k ::
        At(r.value, k) ==
          if k == "bind_password_enc" then None
          else if k == "bind_password" then Some(Str(decrypt(f["bind_password_enc"].s).value)) else At(f, k)
  }

  /** A saved public port is the port from then on, whatever legacy port was stored or sent with it. */
  lemma SavedPortIsUsed(base: Base, cached: Option<Fields>, store: Fields)
    requires "public_port" in store
    ensures var after := SavedCache("proxy", cached, store);
      "listen_port" !in after && PublicPort(base, Some(after)) == store["public_port"]
  {
  }

  /** The password comes back through encryption; an empty one keeps the stored ciphertext. */
  lemma PasswordReadsBack(decrypt: string -> Option<string>, cached: Option<Fields>, value: Fields, blob: string)
    requires "bind_password" in value && value["bind_password"].Str? && "bind_password_enc" !in value
    ensures var p, after := value["bind_password"].s, SavedCache("ldap", cached, ToStore("ldap", value, blob));
      && (p != [] && decrypt(blob) == Some(p) ==>
            Revealed(decrypt, after).Some? && At(Revealed(decrypt, after).value, "bind_password") == Some(Str(p)))
      && (p == [] && cached.Some? ==> At(after, "bind_password_enc") == At(cached.value, "bind_password_enc"))
  {
  }

  /** No row of the LDAP settings holds the password in plain text, if none did before. */
  predicate NoPlainPassword(row: Option<Stored>) {
    FieldsOf(row).Some? ==> "bind_password" !in FieldsOf(row).value
  }

  lemma PasswordNeverStored(base: Base, row: Option<Stored>, value: Fields, blob: string)
    requires NoPlainPassword(row)
    ensures NoPlainPassword(Some(SavedRow("ldap", row, ToStore("ldap", value, blob))))
    ensures NoPlainPassword(SeededRow(base, "ldap", row, blob))
  {
  }

  /** A save before the first load leaves the cache in agreement exactly when it overwrites the whole row. */
  lemma SaveBeforeLoad(key: string, row: Option<Stored>, store: Fields)
    ensures SyncedAt(Some(SavedRow(key, row, store)), Some(SavedCache(key, None, store)), key)
      <==> FieldsOf(row).Some? ==>
             forall k :: k in FieldsOf(row).value ==> k in store || (DropsPort(key, store) && k == "listen_port")
  {
    if FieldsOf(row).Some? {
      var f := FieldsOf(row).value;
      var merged, n := Merged(key, f, store), Norm(key, store);
      if forall k :: k in f ==> k in store || (DropsPort(key, store) && k == "listen_port") {
        assert merged == n;
      } else {
        var k :| k in f && k !in store && !(DropsPort(key, store) && k == "listen_port");
        var inCache, inRow := Norm(key, n), Norm(key, merged);
        var odd := if k in inRow then k else "public_port";
        assert k in merged && k !in n;
        assert odd in inRow && odd !in inCache;
      }
    }
  }

  lemma FreshIs(rows: Rows, latest: Cache)
    requires var all: Cache := map k | k in rows && rows[k].Object? :: rows[k].fields;
      latest == if "proxy" in all && "public_port" in all["proxy"] && "listen_port" in all["proxy"]
        then all["proxy" := all["proxy"] - {"listen_port"}] else all
    ensures latest == Fresh(rows)
  {
    forall k | k in latest
      ensures k in Fresh(rows) && latest[k] == Fresh(rows)[k]
    {
      if k == "proxy" && "listen_port" !in rows[k].fields {
        assert rows[k].fields - {"listen_port"} == rows[k].fields;
      }
    }
  }

  lemma FreshIsSynced(rows: Rows)
    ensures Synced(rows, Fresh(rows))
  {
    forall k
      ensures SyncedAt(At(rows, k), At(Fresh(rows), k), k)
    {
      FreshAt(rows, k);
      if k in Fresh(rows) {
        assert Norm(k, Norm(k, rows[k].fields)) == Norm(k, rows[k].fields);
      }
    }
  }

  lemma OneKeySynced(rows: Rows, cache: Cache, rows': Rows, cache': Cache, key: string)
    requires Synced(rows, cache) && SyncedAt(At(rows', key), At(cache', key), key)
    requires forall k :: k != key ==> At(rows', k) == At(rows, k) && At(cache', k) == At(cache, k)
    ensures Synced(rows', cache')
  {
    forall k
      ensures SyncedAt(At(rows', k), At(cache', k), k)
    {
      assert SyncedAt(At(rows, k), At(cache, k), k);
    }
  }

  lemma SameSubkeys(base: Base, key: string, cached: Fields, f: Fields, source: Fields)
    requires Norm(key, cached) == Norm(key, f) && PatchSource(base, key) == Some(source)
    ensures forall k :: k in source ==> (k in cached <==> k in f)
  {
    SourceHasNoLegacyPort(base);
    forall k | k in source
      ensures k in cached <==> k in f
    {
      assert k in cached <==> k in Norm(key, cached);
      assert k in f <==> k in Norm(key, f);
    }
  }

  /** The subkeys that the cache misses are those that the row misses. */
  lemma MissingIsPatch(base: Base, key: string, cached: Fields, f: Fields)
    requires Norm(key, cached) == Norm(key, f) && PatchSource(base, key).Some?
    ensures var source := PatchSource(base, key).value;
      f + (map k | k in source && k !in cached :: source[k]) == source + f
  {
    SameSubkeys(base, key, cached, f, PatchSource(base, key).value);
  }

  lemma MissingIsNew(base: Base, key: string, cached: Fields, f: Fields)
    requires Norm(key, cached) == Norm(key, f) && PatchSource(base, key).Some?
    requires var source := PatchSource(base, key).value; (map k | k in source && k !in cached :: source[k]) != map[]
    ensures var source := PatchSource(base, key).value; f + (map k | k in source && k !in cached :: source[k]) != f
  {
    var source := PatchSource(base, key).value;
    var missing := map k | k in source && k !in cached :: source[k];
    SameSubkeys(base, key, cached, f, source);
    var k :| k in missing;
    assert k in f + missing && k !in f;
  }

  lemma NothingMissing(base: Base, key: string, cached: Fields, f: Fields)
    requires Norm(key, cached) == Norm(key, f) && PatchSource(base, key).Some?
    requires var source := PatchSource(base, key).value; (map k | k in source && k !in cached :: source[k]) == map[]
    ensures PatchSource(base, key).value + f == f
  {
    MissingIsPatch(base, key, cached, f);
  }
}
