# go-reqlimit: a Dafny model of the rate limiter

This project models the core of `go-reqlimit`, a per-key request rate limiter
that keeps its counters in Redis. The model covers five pieces:

- **Configuration defaulting** (`assignConfig`). Up to four positional arguments
  to `New` become a settings record. The defaults are namespace `""`, host
  `"localhost:6379"`, password `""` and pool count 5. A pool count that is not
  positive is ignored.
- **Limiter registry** (`ReqConfig`, `New`, `NewLimiter`). A registry holds the
  set of limiter names it has handed out. That set only grows. Registering a
  name twice is an error: the source panics, and the model returns
  `Failure(DuplicateName(name))`.
- **Window keys** (`limitKey`). The key is `limiter:<name>:<ip>` when the
  namespace is empty and `<namespace>:limiter:<name>:<ip>` otherwise.
- **Fixed-window counting** (`incr`, `Exceed`). The store is a map from key to
  `Entry(count, expiresAt)` with an explicit clock. `INCR` creates a missing or
  expired key at 1 and keeps the TTL of a live key. `EXPIRE` with the limiter's
  interval is sent only when the new count is exactly 1. The verdict is
  `count > limit`. A failing `INCR` gives `(false, error)`.
- **Identity selection** (`realIPAddress`). The first non-empty value of
  `X-Real-IP`, `X-Forwarded-For`, `X-Forwarded` and `Client-IP` is used.
  Otherwise the host part of the remote address is used.

Files: `wrappers.dfy` (Option/Result), `config.dfy`, `registry.dfy`,
`keys.dfy`, `store.dfy` (the Redis `INCR`/`EXPIRE` semantics),
`limiter.dfy` and `identity.dfy`.

Modelling choices:

- Each evaluation takes a `Faults(incr, expireFails)` parameter describing
  what happens on the wire. The `INCR` is either delivered, refused before
  the server applies it, or applied by the server with its reply lost.
- An `INCR` whose reply is lost is reported as an error, as every `INCR`
  error is. `redis.Int` then yields 0, so no `EXPIRE` is sent. The count
  has still gone up, and a window opened this way is left with no TTL.
- Redis counters are signed 64-bit. An `INCR` on a counter already at
  `MaxInt64` is an `Overflow` error and changes nothing.
- An `EXPIRE` that fails is ignored, as in the source. The entry then has no
  TTL and its window never closes.
- A TTL that is not positive makes the entry expire at once. This matches
  Redis deleting a key given a non-positive `EXPIRE`.
- The source sends `EXPIRE` whenever the post-increment count is 1. That
  includes a live key that someone else set to 0, whose TTL is then replaced.
  The model does the same.

Facts about the code that a reader might expect otherwise:

- `limitKey` does not escape `:`. A key therefore identifies the (namespace,
  name, identity) triple only one component at a time: fix two components
  and the key determines the third (`Keys.KeyDetermines*`).
  `Keys.KeysCollideAcrossComponents` shows two different triples with the
  same key.
- `redisPool` only builds a pool value; connections are dialled when first
  borrowed (reqlimit.go:94-115). So `Registry.New` cannot fail.
- `NewLimiter` checks neither the interval nor the limit. The model accepts
  any integers for both.

## Model

| member | source | states |
|---|---|---|
| Config.AssignConfig | reqlimit.go:68-91 | each field is the argument when one is passed and the default otherwise; the pool count is replaced only by a strictly positive value, so it is always at least 1 |
| Config.NoArgsGivesDefaults | reqlimit.go:69-74 | with no arguments the settings are namespace "", host "localhost:6379", password "" and pool count 5 |
| Config.NamespaceOverridesOnlyNamespace | reqlimit.go:75-77 | passing a namespace changes the namespace and no other field |
| Config.HostOverridesOnlyHost | reqlimit.go:78-80 | passing a host changes the host and no other field |
| Config.PasswordOverridesOnlyPassword | reqlimit.go:81-83 | passing a password changes the password and no other field |
| Config.PoolCountOverridesOnlyPoolCount | reqlimit.go:84-89 | a positive pool count replaces only the pool count; a count of 0 or less has the same effect as passing none |
| Registry.New | reqlimit.go:26-34 | a new registry has no names registered; its namespace, host and password are the argument or the default; the pool size is the pool-count argument when it is positive and 5 otherwise |
| Registry.NewLimiter | reqlimit.go:40-53 | it fails exactly when the name is already registered, and then returns the duplicate-name error; otherwise it adds exactly that name, keeps namespace and pool, and returns a limiter with the given name, interval, limit and the registry's namespace |
| Registry.SecondRegistrationFails | reqlimit.go:41-44 | after a successful registration, registering the same name again fails, whatever interval and limit are asked for |
| Registry.NamesOnlyGrow | reqlimit.go:41-44 | a successful registration adds one previously absent name, grows the set by exactly one, and keeps every other name's membership |
| Keys.LimitKey | reqlimit.go:142-147 | the key's length is that of its parts; it ends with the identity; a non-empty namespace followed by ':' is its prefix |
| Keys.KeyLayout | reqlimit.go:142-147 | every key is the namespace scope ("limiter:" or "<ns>:limiter:"), then the name, then ':', then the identity |
| Keys.KeyDeterminesIdentity | reqlimit.go:142-147 | with namespace and name fixed, two keys are equal exactly when the identities are equal |
| Keys.KeyDeterminesName | reqlimit.go:142-147 | with namespace and identity fixed, two keys are equal exactly when the limiter names are equal |
| Keys.KeyDeterminesNamespace | reqlimit.go:142-147 | with name and identity fixed, two keys are equal exactly when the namespaces are equal, the empty namespace included |
| Keys.KeysCollideAcrossComponents | reqlimit.go:143-146 | two different triples can give the same key, because ':' inside a name, identity or namespace is not escaped |
| Keys.KeyExamples | reqlimit.go:142-147 | namespace "Appname", name "rps", identity "1.2.3.4" gives "Appname:limiter:rps:1.2.3.4"; the empty namespace gives "limiter:rps:1.2.3.4" |
| CounterStore.Incr | reqlimit.go:154 | INCR fails with an overflow error exactly when the live count is MaxInt64; otherwise it returns the live count plus one, creates a missing or expired key at 1 without a TTL, keeps a live key's TTL and changes no other key |
| CounterStore.Expire | reqlimit.go:156 | EXPIRE gives a live key the expiry now plus the given seconds and keeps its count; it leaves a missing key alone and changes no other key |
| Limiter.IncrAndExpire | reqlimit.go:150-160 | an error is returned exactly when the INCR is not delivered or would overflow; on success the count rises by exactly one, the TTL is set to the interval only when the new count is 1 and is otherwise left as it was; a refused or overflowing INCR changes nothing; an INCR whose reply is lost raises the count and leaves the TTL as it was; no other key changes |
| Limiter.Evaluate | reqlimit.go:133-138 | the error is set exactly when INCR fails, and then the verdict is false; the store is unchanged unless the INCR was applied with its reply lost; without an error the verdict is whether the incremented count exceeds the limit; only the identity's key changes |
| Limiter.Exceed | reqlimit.go:131-139 | with the key of the identity realIPAddress picks: the error is set exactly when INCR fails, and then the verdict is false; without an error that key's count rises by one and the verdict is whether it now exceeds the limit; a refused INCR changes nothing; no other key changes |
| Limiter.WindowContinues | reqlimit.go:154-157 | inside an open window, each evaluation before the expiry adds one to the count, leaves the expiry unchanged, and gets the verdict "new count > limit" |
| Limiter.FixedWindow | reqlimit.go:134-157 | from a key with no live count, evaluations made before the first one's window closes have no error; the first `limit` of them are not exceeded and every later one is |
| Limiter.RequestsShareWindow | reqlimit.go:131-139 | fault-free Exceed calls on requests that all pick the same identity give the same verdicts and store as evaluating that identity directly |
| Limiter.FixedWindowForRequests | reqlimit.go:131-157 | for requests that all pick the same identity, starting from no live count and within the first window, the first `limit` requests pass without error and every later one is refused |
| Limiter.WindowResets | reqlimit.go:154-157 | once the expiry has passed, the next evaluation sees count 1 again and sets a fresh TTL of the interval |
| Limiter.StoreFailureIsReported | reqlimit.go:134-137 | an INCR refused on the wire yields (false, error), no EXPIRE is sent and the store is unchanged |
| Limiter.LostReplyLeavesWindowOpen | reqlimit.go:154-159 | an INCR applied with its reply lost yields (false, error) on a missing or expired key, and leaves the count at 1 with no TTL at every later time |
| Limiter.IdentitiesAreIndependent | reqlimit.go:142-147 | evaluating one identity never changes another identity's count under the same limiter, at any time |
| Limiter.LimitersAreIndependent | reqlimit.go:142-147 | two limiters with different names in the same namespace never share a counter |
| Limiter.NamespacesAreIndependent | reqlimit.go:142-147 | the same limiter name and identity in two different namespaces never share a counter |
| Limiter.TwentyPerMinute | example/limit.go:42 | a limiter "rps" of 20 per 60 seconds allows 20 requests, one per second from a fresh key, and refuses the 21st |
| Identity.RealIPAddress | reqlimit.go:163-178 | the result is the first non-empty value among X-Real-IP, X-Forwarded-For, X-Forwarded and Client-IP; if all four are empty it is the host part of the remote address |
| Identity.FirstNonEmptySpec | reqlimit.go:163-175 | the priority-list reference returns the first non-empty header value, or the fallback when every header is empty |
| Identity.RealIPAddressFollowsPriority | reqlimit.go:163-178 | the source's nested checks agree with the priority-list reference on every request |
| Identity.NoProxyHeadersUsesRemoteHost | reqlimit.go:176-177 | a request with no headers is counted under the host part of its remote address |
| Identity.RealIPHeaderWins | reqlimit.go:164-169 | when both X-Real-IP and X-Forwarded-For are set, X-Real-IP is used |

## Left out

- The Redis connection pool (`redisPool`, `Dial`, `AUTH`, `PING`, `IdleTimeout`) and connection get/release are left out. They are network I/O; the registry keeps only the host, password and pool size they would use.
- `ReqConfig.Close` is left out. It only releases pooled connections.
- The gap between `INCR` and `EXPIRE`, and concurrent callers, are left out. Each evaluation is one atomic step.
- The runtime type assertions of `assignConfig` are left out, along with their panics. Arguments are typed optional fields.
- Arguments past the fourth, which `New` ignores, are left out.
- Config.AssignConfig: the four optional fields are independent, so the model also admits a password without a host. Go's positional list cannot express that.
- `net.SplitHostPort` is the parameter `hostOf` and is not modelled further.
- Header-name canonicalisation by `http.Header.Get` is left out. The header map is keyed by canonical names, so `X-Real-IP` is looked up as `X-Real-Ip` and `Client-IP` as `Client-Ip`.
- Redis type errors on a key that holds a non-integer are left out. The store holds only counters.
- Redis limits on `EXPIRE` arguments are left out, as is the millisecond resolution of its clock. Time is whole seconds with no upper bound.
- `example/limit.go` is left out. It is HTTP middleware and server glue: `requestLimiter`, `main`, a global limiter and `ListenAndServe`.
