/**
  The counter store the limiter talks to (Redis in the source), reduced to the
  two commands it issues: INCR and EXPIRE.  Time is an explicit parameter in
  whole seconds; an entry whose expiry time has been reached behaves as if it
  had been deleted.
 */
module CounterStore {
  import opened Wrappers

  /** Redis integers are signed 64-bit; INCR refuses to go past this value. */
  const MaxInt64: int := 0x7FFF_FFFF_FFFF_FFFF

  /** One counter: its value and, when a TTL has been set, the time it expires. */
  datatype Entry = Entry(count: int, expiresAt: Option<int>)

  type Store = map<string, Entry>

  /** Why a store command failed. */
  datatype StoreError =
    | Unavailable   // connection, protocol or server failure: outside the model
    | Overflow      // INCR on a counter already at MaxInt64

  /** An entry is still there at `now` if it has no TTL or its expiry lies in the future. */
  predicate Live(e: Entry, now: int) {
    e.expiresAt.None? || now < e.expiresAt.value
  }

  /** Whether `key` holds a live entry at `now`. */
  predicate Present(s: Store, key: string, now: int) {
    key in s && Live(s[key], now)
  }

  /** The value INCR would start from: the live count, or 0 for a missing or expired key. */
  function Count(s: Store, key: string, now: int): (c: int) {
    if Present(s, key, now) then s[key].count else 0
  }

  /** The expiry a live key carries at `now`; a missing or expired key has none. */
  function Expiry(s: Store, key: string, now: int): (e: Option<int>)
    ensures e.Some? ==> now < e.value
  {
    if Present(s, key, now) then s[key].expiresAt else None
  }

  /** Two stores agree on `key` from the point of view of every later command. */
  predicate SameAt(s: Store, t: Store, key: string) {
    (key in s <==> key in t) && (key in s ==> s[key] == t[key])
  }

  /**
    INCR: add one to the live count of `key`, creating it at 1 (with no TTL)
    when it is missing or expired.  A live key keeps its TTL.  Incrementing
    past MaxInt64 is an error and changes nothing.
   */
  function Incr(s: Store, key: string, now: int): (r: Result<(int, Store), StoreError>)
    ensures r.Failure? <==> Count(s, key, now) == MaxInt64
    ensures r.Failure? ==> r.error == Overflow
    ensures r.Success? ==> r.value.0 == Count(s, key, now) + 1
    ensures r.Success? ==> key in r.value.1 && r.value.1[key] == Entry(r.value.0, Expiry(s, key, now))
    ensures r.Success? ==> forall k :: k != key ==> SameAt(s, r.value.1, k)
  {
    var c := Count(s, key, now);
    if c == MaxInt64 then
      Failure(Overflow)
    else
      Success((c + 1, s[key := Entry(c + 1, Expiry(s, key, now))]))
  }

  /**
    EXPIRE: give a live `key` a TTL of `seconds` from `now`, replacing any
    previous one.  A missing or expired key is left alone.  A TTL that is not
    positive makes the key expire at once.
   */
  function Expire(s: Store, key: string, seconds: int, now: int): (t: Store)
    ensures Present(s, key, now) ==> key in t && t[key] == Entry(s[key].count, Some(now + seconds))
    ensures !Present(s, key, now) ==> t == s
    ensures forall k :: k != key ==> SameAt(s, t, k)
  {
    if Present(s, key, now) then s[key := Entry(s[key].count, Some(now + seconds))] else s
  }
}
