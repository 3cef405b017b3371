/**
  The limiter registry: `ReqConfig`, `New` and `ReqConfig.NewLimiter` in
  reqlimit.go.  The Redis connection pool is reduced to the settings it would
  be built from; the registry's only state is the set of names already used.
 */
module Registry {
  import opened Wrappers
  import Config

  /** What `redisPool` is built from: host, password and the idle-pool size. */
  datatype PoolSettings = PoolSettings(host: string, password: string, maxIdle: int)

  /** A registry: key namespace, store connection settings and the names taken so far. */
  datatype ReqConfig = ReqConfig(namespace: string, pool: PoolSettings, names: set<string>)

  /**
    A named limiter: at most `limit` requests per `interval` seconds.  The
    namespace is the one of the registry that minted it (the source reaches it
    through the `reqConfig` back-pointer, which never changes).
   */
  datatype ReqLimiter = ReqLimiter(name: string, namespace: string, interval: int, limit: int)

  /** The source panics with "Name must be unique"; here it is a value. */
  datatype RegistryError = DuplicateName(name: string)

  /** A fresh registry built from the positional arguments: no names taken yet. */
  function New(a: Config.Args): (rc: ReqConfig)
    ensures rc.names == {}
    ensures rc.namespace == a.namespace.GetOr(Config.DefaultNamespace)
    ensures rc.pool.host == a.host.GetOr(Config.DefaultHost)
    ensures rc.pool.password == a.password.GetOr(Config.DefaultPassword)
    ensures a.poolCount.Some? && a.poolCount.value > 0 ==> rc.pool.maxIdle == a.poolCount.value
    ensures (a.poolCount.None? || a.poolCount.value <= 0) ==> rc.pool.maxIdle == Config.DefaultPoolCount
  {
    var cf := Config.AssignConfig(a);
    ReqConfig(cf.namespace, PoolSettings(cf.host, cf.password, cf.poolCount), {})
  }

  /**
    Register a limiter under `name`.  A name already taken is refused and the
    registry is left as it was; a fresh name is added and nothing else changes.
   */
  function NewLimiter(rc: ReqConfig, name: string, interval: int, limit: int)
    : (r: Result<(ReqConfig, ReqLimiter), RegistryError>)
    ensures r.Failure? <==> name in rc.names
    ensures r.Failure? ==> r.error == DuplicateName(name)
    ensures r.Success? ==> r.value.0.names == rc.names + {name}
    ensures r.Success? ==> r.value.0.namespace == rc.namespace && r.value.0.pool == rc.pool
    ensures r.Success? ==> r.value.1 == ReqLimiter(name, rc.namespace, interval, limit)
  {
    if name in rc.names then
      Failure(DuplicateName(name))
    else
      var rc' := rc.(names := rc.names + {name});
      Success((rc', ReqLimiter(name, rc.namespace, interval, limit)))
  }

  /**
    Once a name has been registered, any later attempt to register it again
    on the resulting registry fails, whatever interval and limit it asks for.
   */
  lemma SecondRegistrationFails(rc: ReqConfig, name: string, i1: int, l1: int, i2: int, l2: int)
    requires NewLimiter(rc, name, i1, l1).Success?
    ensures NewLimiter(NewLimiter(rc, name, i1, l1).value.0, name, i2, l2) == Failure(DuplicateName(name))
  {
  }

  /**
    Registration only ever grows the name set: a successful registration adds
    exactly one name that was absent before, and every other name keeps its
    membership.
   */
  lemma NamesOnlyGrow(rc: ReqConfig, name: string, interval: int, limit: int, other: string)
    requires NewLimiter(rc, name, interval, limit).Success?
    ensures name !in rc.names && name in NewLimiter(rc, name, interval, limit).value.0.names
    ensures |NewLimiter(rc, name, interval, limit).value.0.names| == |rc.names| + 1
    ensures other != name ==> (other in NewLimiter(rc, name, interval, limit).value.0.names <==> other in rc.names)
  {
  }
}
