/**
  Configuration defaulting for a registry (`assignConfig` in reqlimit.go).

  `New(attrs ...interface{})` takes up to four positional arguments
  (namespace, Redis host, Redis password, pool count).  Here each position is
  a typed optional field: `Some(v)` when the caller passed that argument.
 */
module Config {
  import opened Wrappers

  const DefaultNamespace: string := ""
  const DefaultHost: string := "localhost:6379"
  const DefaultPassword: string := ""
  const DefaultPoolCount: int := 5

  /** The resolved configuration record (`config` in the source). */
  datatype Settings = Settings(namespace: string, host: string, password: string, poolCount: int)

  /** The positional arguments of `New`, one optional field per position. */
  datatype Args = Args(
    namespace: Option<string>,
    host: Option<string>,
    password: Option<string>,
    poolCount: Option<int>)

  /** `New()` called with no arguments at all. */
  const NoArgs: Args := Args(None, None, None, None)

  const Defaults: Settings := Settings(DefaultNamespace, DefaultHost, DefaultPassword, DefaultPoolCount)

  /**
    Start from the defaults and let each present argument override its own
    field; a pool count only replaces the default when it is strictly positive.
   */
  function AssignConfig(a: Args): (c: Settings)
    ensures c.namespace == a.namespace.GetOr(DefaultNamespace)
    ensures c.host == a.host.GetOr(DefaultHost)
    ensures c.password == a.password.GetOr(DefaultPassword)
    ensures c.poolCount >= 1
    ensures a.poolCount.Some? && a.poolCount.value > 0 ==> c.poolCount == a.poolCount.value
    ensures (a.poolCount.None? || a.poolCount.value <= 0) ==> c.poolCount == DefaultPoolCount
  {
    var cf := Defaults;
    var cf := if a.namespace.Some? then cf.(namespace := a.namespace.value) else cf;
    var cf := if a.host.Some? then cf.(host := a.host.value) else cf;
    var cf := if a.password.Some? then cf.(password := a.password.value) else cf;
    if a.poolCount.Some? && a.poolCount.value > 0 then cf.(poolCount := a.poolCount.value) else cf
  }

  /** With no arguments every field takes its documented default. */
  lemma NoArgsGivesDefaults()
    ensures AssignConfig(NoArgs) == Settings("", "localhost:6379", "", 5)
  {
  }

  /** Passing a namespace changes the namespace and nothing else. */
  lemma NamespaceOverridesOnlyNamespace(a: Args, ns: string)
    ensures AssignConfig(a.(namespace := Some(ns))) == AssignConfig(a).(namespace := ns)
  {
  }

  /** Passing a host changes the host and nothing else. */
  lemma HostOverridesOnlyHost(a: Args, host: string)
    ensures AssignConfig(a.(host := Some(host))) == AssignConfig(a).(host := host)
  {
  }

  /** Passing a password changes the password and nothing else. */
  lemma PasswordOverridesOnlyPassword(a: Args, password: string)
    ensures AssignConfig(a.(password := Some(password))) == AssignConfig(a).(password := password)
  {
  }

  /**
    Passing a pool count changes at most the pool count: to the value when it
    is positive, otherwise it is ignored exactly as if it had been left out.
   */
  lemma PoolCountOverridesOnlyPoolCount(a: Args, n: int)
    ensures n > 0 ==> AssignConfig(a.(poolCount := Some(n))) == AssignConfig(a).(poolCount := n)
    ensures n <= 0 ==> AssignConfig(a.(poolCount := Some(n))) == AssignConfig(a.(poolCount := None))
  {
  }
}
