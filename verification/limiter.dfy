/**
  Fixed-window counting (`ReqLimiter.incr` and `ReqLimiter.Exceed` in
  reqlimit.go) over the abstract counter store, with the clock and the
  store's failures made explicit parameters.  Each evaluation is one atomic
  step: INCR, then EXPIRE when the new count is exactly 1.
 */
module Limiter {
  import opened Wrappers
  import CounterStore
  import Keys
  import Identity
  import opened Registry

  type Store = CounterStore.Store
  type StoreError = CounterStore.StoreError

  /**
    What happens to the INCR of one evaluation on the wire: it reaches the
    server and its reply comes back; it is refused before the server applies
    it; or the server applies it and the reply is lost, so the caller sees an
    error although the count did go up.
   */
  datatype Delivery = Delivered | Refused | ReplyLost

  /** The wire behaviour of one evaluation: its INCR, and whether its EXPIRE fails. */
  datatype Faults = Faults(incr: Delivery, expireFails: bool)

  const NoFaults: Faults := Faults(Delivered, false)

  /** What `Exceed` returns: Go's `(bool, error)` pair. */
  datatype Verdict = Verdict(exceeded: bool, err: Option<StoreError>)

  /** The window key of `ip` for limiter `rl`. */
  function Key(rl: ReqLimiter, ip: string): (key: string) {
    Keys.LimitKey(rl.namespace, rl.name, ip)
  }

  /**
    `incr`: INCR the key and, only when that made the count exactly 1 (a new
    window), set its TTL to the limiter's interval.  The EXPIRE reply is
    ignored, so a failing EXPIRE leaves the entry without a TTL.  On an INCR
    error `redis.Int` yields 0, so no EXPIRE is sent; whether the INCR was
    applied depends on where it failed.
   */
  function IncrAndExpire(rl: ReqLimiter, key: string, s: Store, now: int, f: Faults)
    : (r: (Result<int, StoreError>, Store))
    ensures r.0.Failure? <==> f.incr != Delivered || CounterStore.Count(s, key, now) == CounterStore.MaxInt64
    ensures r.0.Failure? && f.incr != Delivered ==> r.0.error == CounterStore.Unavailable
    ensures r.0.Failure? && (f.incr != ReplyLost || CounterStore.Count(s, key, now) == CounterStore.MaxInt64) ==>
              r.1 == s
    ensures f.incr == ReplyLost && CounterStore.Count(s, key, now) != CounterStore.MaxInt64 ==>
              key in r.1 && r.1[key] == CounterStore.Entry(CounterStore.Count(s, key, now) + 1, CounterStore.Expiry(s, key, now))
    ensures r.0.Success? ==> r.0.value == CounterStore.Count(s, key, now) + 1
    ensures r.0.Success? ==> key in r.1 && r.1[key].count == r.0.value
    ensures r.0.Success? && r.0.value == 1 && !f.expireFails ==>
              r.1[key].expiresAt == Some(now + rl.interval)
    ensures r.0.Success? && (r.0.value != 1 || f.expireFails) ==>
              r.1[key].expiresAt == CounterStore.Expiry(s, key, now)
    ensures forall k :: k != key ==> CounterStore.SameAt(s, r.1, k)
  {
    match f.incr
    case Refused => (Failure(CounterStore.Unavailable), s)
    case ReplyLost =>
      var applied := CounterStore.Incr(s, key, now);
      (Failure(CounterStore.Unavailable), if applied.Success? then applied.value.1 else s)
    case Delivered =>
      match CounterStore.Incr(s, key, now)
      case Failure(e) => (Failure(e), s)
      case Success((n, s1)) =>
        var s2 := if n == 1 && !f.expireFails then CounterStore.Expire(s1, key, rl.interval, now) else s1;
        (Success(n), s2)
  }

  /**
    One evaluation for identity `ip`: count the request and report whether
    the count now exceeds the limit.  A store error yields "not exceeded"
    together with the error; the store is then unchanged unless the INCR was
    applied and only its reply lost.
   */
  function Evaluate(rl: ReqLimiter, ip: string, s: Store, now: int, f: Faults): (r: (Verdict, Store))
    ensures r.0.err.Some? <==> f.incr != Delivered || CounterStore.Count(s, Key(rl, ip), now) == CounterStore.MaxInt64
    ensures r.0.err.Some? ==> !r.0.exceeded
    ensures r.0.err.Some? && (f.incr != ReplyLost || CounterStore.Count(s, Key(rl, ip), now) == CounterStore.MaxInt64) ==>
              r.1 == s
    ensures r.0.err.None? ==> (r.0.exceeded <==> CounterStore.Count(s, Key(rl, ip), now) + 1 > rl.limit)
    ensures (r.0.err.None? || f.incr == ReplyLost) && CounterStore.Count(s, Key(rl, ip), now) != CounterStore.MaxInt64 ==>
              Key(rl, ip) in r.1 && r.1[Key(rl, ip)].count == CounterStore.Count(s, Key(rl, ip), now) + 1
    ensures forall k :: k != Key(rl, ip) ==> CounterStore.SameAt(s, r.1, k)
  {
    var (reply, s') := IncrAndExpire(rl, Key(rl, ip), s, now, f);
    match reply
    case Failure(e) => (Verdict(false, Some(e)), s')
    case Success(n) => (Verdict(n > rl.limit, None), s')
  }

  /**
    `Exceed`: evaluate the request under the identity `realIPAddress` picks
    for it.  Only that identity's window key is touched.
   */
  function Exceed(rl: ReqLimiter, req: Identity.Request, hostOf: string -> string, s: Store, now: int, f: Faults)
    : (r: (Verdict, Store))
    ensures var key := Key(rl, Identity.RealIPAddress(req, hostOf));
            r.0.err.Some? <==> f.incr != Delivered || CounterStore.Count(s, key, now) == CounterStore.MaxInt64
    ensures r.0.err.Some? ==> !r.0.exceeded
    ensures var key := Key(rl, Identity.RealIPAddress(req, hostOf));
            r.0.err.Some? && f.incr == Refused ==> r.1 == s
    ensures var key := Key(rl, Identity.RealIPAddress(req, hostOf));
            r.0.err.None? ==> (r.0.exceeded <==> CounterStore.Count(s, key, now) + 1 > rl.limit)
    ensures var key := Key(rl, Identity.RealIPAddress(req, hostOf));
            r.0.err.None? ==> key in r.1 && r.1[key].count == CounterStore.Count(s, key, now) + 1
    ensures forall k :: k != Key(rl, Identity.RealIPAddress(req, hostOf)) ==> CounterStore.SameAt(s, r.1, k)
  {
    var ip := Identity.RealIPAddress(req, hostOf);
    Evaluate(rl, ip, s, now, f)
  }

  /** A run of fault-free evaluations of `ip`, one per instant in `times`. */
  function Replay(rl: ReqLimiter, ip: string, s: Store, times: seq<int>): (r: (seq<Verdict>, Store))
    ensures |r.0| == |times|
    decreases |times|
  {
    if times == [] then ([], s)
    else
      var (v, s1) := Evaluate(rl, ip, s, times[0], NoFaults);
      var (vs, s2) := Replay(rl, ip, s1, times[1..]);
      ([v] + vs, s2)
  }

  /**
    Inside an open window (count c >= 1, expiry e) every further evaluation
    before e raises the count by one without touching the expiry, and its
    verdict is whether the new count exceeds the limit.
   */
  lemma {:induction false} WindowContinues(rl: ReqLimiter, ip: string, s: Store, times: seq<int>, c: int, e: int)
    requires Key(rl, ip) in s && s[Key(rl, ip)] == CounterStore.Entry(c, Some(e))
    requires 1 <= c && c + |times| <= CounterStore.MaxInt64
    requires forall i :: 0 <= i < |times| ==> times[i] < e
    ensures forall i :: 0 <= i < |times| ==> Replay(rl, ip, s, times).0[i] == Verdict(c + i + 1 > rl.limit, None)
    ensures Key(rl, ip) in Replay(rl, ip, s, times).1
    ensures Replay(rl, ip, s, times).1[Key(rl, ip)] == CounterStore.Entry(c + |times|, Some(e))
  {
    if times != [] {
      var key := Key(rl, ip);
      var (v, s1) := Evaluate(rl, ip, s, times[0], NoFaults);
      assert CounterStore.Count(s, key, times[0]) == c;
      assert s1[key] == CounterStore.Entry(c + 1, Some(e));
      assert forall i :: 0 <= i < |times[1..]| ==> times[1..][i] < e by {
        forall i | 0 <= i < |times[1..]| ensures times[1..][i] < e {
          assert times[1..][i] == times[i + 1];
        }
      }
      WindowContinues(rl, ip, s1, times[1..], c + 1, e);
      var r := Replay(rl, ip, s, times);
      assert r.0 == [v] + Replay(rl, ip, s1, times[1..]).0;
      forall i | 0 <= i < |times|
        ensures r.0[i] == Verdict(c + i + 1 > rl.limit, None)
      {
        if i > 0 {
          assert r.0[i] == Replay(rl, ip, s1, times[1..]).0[i - 1];
        }
      }
    }
  }

  /**
    Fixed window: starting from a key with no live count, and with every
    evaluation before the window opened by the first one closes, the first
    `limit` evaluations are allowed and every later one is refused.
   */
  lemma FixedWindow(rl: ReqLimiter, ip: string, s: Store, times: seq<int>)
    requires |times| >= 1 && |times| <= CounterStore.MaxInt64
    requires CounterStore.Count(s, Key(rl, ip), times[0]) == 0
    requires forall i :: 0 <= i < |times| ==> times[i] < times[0] + rl.interval
    ensures forall i :: 0 <= i < |times| ==> Replay(rl, ip, s, times).0[i].err == None
    ensures forall i :: 0 <= i < |times| ==> (Replay(rl, ip, s, times).0[i].exceeded <==> i >= rl.limit)
  {
    var key := Key(rl, ip);
    var (v, s1) := Evaluate(rl, ip, s, times[0], NoFaults);
    assert s1[key] == CounterStore.Entry(1, Some(times[0] + rl.interval));
    assert forall i :: 0 <= i < |times[1..]| ==> times[1..][i] < times[0] + rl.interval by {
      forall i | 0 <= i < |times[1..]| ensures times[1..][i] < times[0] + rl.interval {
        assert times[1..][i] == times[i + 1];
      }
    }
    WindowContinues(rl, ip, s1, times[1..], 1, times[0] + rl.interval);
    var r := Replay(rl, ip, s, times);
    assert r.0 == [v] + Replay(rl, ip, s1, times[1..]).0;
    forall i | 0 <= i < |times|
      ensures r.0[i] == Verdict(i + 1 > rl.limit, None)
    {
      if i > 0 {
        assert r.0[i] == Replay(rl, ip, s1, times[1..]).0[i - 1];
      }
    }
  }

  /**
    Once the window's expiry has passed, the next fault-free evaluation starts
    a fresh window: the count is 1 again and a new TTL of `interval` is set.
   */
  lemma WindowResets(rl: ReqLimiter, ip: string, s: Store, e: int, now: int)
    requires Key(rl, ip) in s && s[Key(rl, ip)].expiresAt == Some(e) && e <= now
    ensures Evaluate(rl, ip, s, now, NoFaults).0 == Verdict(1 > rl.limit, None)
    ensures Evaluate(rl, ip, s, now, NoFaults).1[Key(rl, ip)] == CounterStore.Entry(1, Some(now + rl.interval))
  {
  }

  /**
    An INCR refused by the wire makes `Evaluate` report "not exceeded"
    together with the error, sends no EXPIRE and leaves the store untouched.
   */
  lemma StoreFailureIsReported(rl: ReqLimiter, ip: string, s: Store, now: int, expireFails: bool)
    ensures Evaluate(rl, ip, s, now, Faults(Refused, expireFails)) == (Verdict(false, Some(CounterStore.Unavailable)), s)
  {
  }

  /**
    An INCR applied by the server whose reply is lost is still reported as
    "not exceeded" with an error, but the count did go up and no EXPIRE was
    sent: when it opened a new window, the entry is left at 1 with no TTL,
    so that window never closes on its own.
   */
  lemma LostReplyLeavesWindowOpen(rl: ReqLimiter, ip: string, s: Store, now: int, expireFails: bool, later: int)
    requires !CounterStore.Present(s, Key(rl, ip), now)
    ensures Evaluate(rl, ip, s, now, Faults(ReplyLost, expireFails)).0 == Verdict(false, Some(CounterStore.Unavailable))
    ensures CounterStore.Count(Evaluate(rl, ip, s, now, Faults(ReplyLost, expireFails)).1, Key(rl, ip), later) == 1
  {
  }

  /** Evaluating one identity never changes the count of another under the same limiter. */
  lemma IdentitiesAreIndependent(rl: ReqLimiter, a: string, b: string, s: Store, now: int, f: Faults, t: int)
    requires a != b
    ensures CounterStore.Count(Evaluate(rl, a, s, now, f).1, Key(rl, b), t) == CounterStore.Count(s, Key(rl, b), t)
  {
    Keys.KeyDeterminesIdentity(rl.namespace, rl.name, a, b);
  }

  /** Two limiters of one namespace with different names never share a counter. */
  lemma LimitersAreIndependent(rl1: ReqLimiter, rl2: ReqLimiter, ip: string, s: Store, now: int, f: Faults, t: int)
    requires rl1.namespace == rl2.namespace && rl1.name != rl2.name
    ensures CounterStore.Count(Evaluate(rl1, ip, s, now, f).1, Key(rl2, ip), t) == CounterStore.Count(s, Key(rl2, ip), t)
  {
    Keys.KeyDeterminesName(rl1.namespace, rl1.name, rl2.name, ip);
  }

  /** The same limiter name and identity under two namespaces never share a counter. */
  lemma NamespacesAreIndependent(rl1: ReqLimiter, rl2: ReqLimiter, ip: string, s: Store, now: int, f: Faults, t: int)
    requires rl1.name == rl2.name && rl1.namespace != rl2.namespace
    ensures CounterStore.Count(Evaluate(rl1, ip, s, now, f).1, Key(rl2, ip), t) == CounterStore.Count(s, Key(rl2, ip), t)
  {
    Keys.KeyDeterminesNamespace(rl1.namespace, rl2.namespace, rl1.name, ip);
  }

  /** A run of fault-free `Exceed` calls: request `reqs[i]` arrives at `times[i]`. */
  function ReplayRequests(rl: ReqLimiter, hostOf: string -> string, s: Store,
                          reqs: seq<Identity.Request>, times: seq<int>): (r: (seq<Verdict>, Store))
    requires |reqs| == |times|
    ensures |r.0| == |times|
    decreases |times|
  {
    if times == [] then ([], s)
    else
      var (v, s1) := Exceed(rl, reqs[0], hostOf, s, times[0], NoFaults);
      var (vs, s2) := ReplayRequests(rl, hostOf, s1, reqs[1..], times[1..]);
      ([v] + vs, s2)
  }

  /** Requests whose picked identity is the same are counted in one shared window. */
  lemma {:induction false} RequestsShareWindow(rl: ReqLimiter, hostOf: string -> string, s: Store,
                                               reqs: seq<Identity.Request>, times: seq<int>, ip: string)
    requires |reqs| == |times|
    requires forall i :: 0 <= i < |reqs| ==> Identity.RealIPAddress(reqs[i], hostOf) == ip
    ensures ReplayRequests(rl, hostOf, s, reqs, times) == Replay(rl, ip, s, times)
    decreases |times|
  {
    if times != [] {
      var s1 := Exceed(rl, reqs[0], hostOf, s, times[0], NoFaults).1;
      assert forall i :: 0 <= i < |reqs[1..]| ==> Identity.RealIPAddress(reqs[1..][i], hostOf) == ip by {
        forall i | 0 <= i < |reqs[1..]| ensures Identity.RealIPAddress(reqs[1..][i], hostOf) == ip {
          assert reqs[1..][i] == reqs[i + 1];
        }
      }
      RequestsShareWindow(rl, hostOf, s1, reqs[1..], times[1..], ip);
    }
  }

  /**
    Fixed window over requests: when every request is attributed to the same
    identity, starting from no live count and staying inside the window the
    first one opens, the first `limit` requests pass and every later one is
    refused, whichever proxy header the identity came from.
   */
  lemma FixedWindowForRequests(rl: ReqLimiter, hostOf: string -> string, s: Store,
                               reqs: seq<Identity.Request>, times: seq<int>, ip: string)
    requires |reqs| == |times| && 1 <= |times| <= CounterStore.MaxInt64
    requires forall i :: 0 <= i < |reqs| ==> Identity.RealIPAddress(reqs[i], hostOf) == ip
    requires CounterStore.Count(s, Key(rl, ip), times[0]) == 0
    requires forall i :: 0 <= i < |times| ==> times[i] < times[0] + rl.interval
    ensures forall i :: 0 <= i < |times| ==>
              ReplayRequests(rl, hostOf, s, reqs, times).0[i] == Verdict(i >= rl.limit, None)
  {
    RequestsShareWindow(rl, hostOf, s, reqs, times, ip);
    FixedWindow(rl, ip, s, times);
  }

  /**
    The documented example: a limiter "rps" allowing 20 requests per 60
    seconds lets 20 requests through within one window and refuses the 21st.
   */
  lemma TwentyPerMinute(s: Store, t0: int, ip: string)
    requires CounterStore.Count(s, Keys.LimitKey("Appname", "rps", ip), t0) == 0
    ensures var rl := ReqLimiter("rps", "Appname", 60, 20);
            var vs := Replay(rl, ip, s, seq(21, i => t0 + i)).0;
            (forall i :: 0 <= i < 20 ==> vs[i] == Verdict(false, None)) && vs[20] == Verdict(true, None)
  {
    var rl := ReqLimiter("rps", "Appname", 60, 20);
    FixedWindow(rl, ip, s, seq(21, i => t0 + i));
  }
}
