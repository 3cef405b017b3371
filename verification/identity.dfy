/**
  Identity selection (`realIPAddress` in reqlimit.go): the address a request
  is counted under, taken from proxy headers in priority order, falling back
  to the host part of the connection's remote address.
 */
module Identity {

  /**
    A request as far as the limiter looks at it.  `header` maps canonical
    header names to their values in arrival order, as Go's `http.Header` does.
   */
  datatype Request = Request(header: map<string, seq<string>>, remoteAddr: string)

  // `Header.Get` canonicalises its argument, so "X-Real-IP" and "Client-IP"
  // are looked up under these spellings.
  const XRealIP: string := "X-Real-Ip"
  const XForwardedFor: string := "X-Forwarded-For"
  const XForwarded: string := "X-Forwarded"
  const ClientIP: string := "Client-Ip"

  /** The proxy headers, highest priority first. */
  const ProxyHeaders: seq<string> := [XRealIP, XForwardedFor, XForwarded, ClientIP]

  /** `Header.Get`: the first value stored under `name`, or "" when there is none. */
  function HeaderGet(header: map<string, seq<string>>, name: string): (v: string) {
    if name in header && |header[name]| > 0 then header[name][0] else ""
  }

  /**
    The identity of a request.  `hostOf` stands for the host result of
    `net.SplitHostPort` (which yields "" when the address cannot be split).
   */
  function RealIPAddress(r: Request, hostOf: string -> string): (ip: string)
    ensures forall i :: 0 <= i < |ProxyHeaders| && HeaderGet(r.header, ProxyHeaders[i]) != ""
              && (forall j :: 0 <= j < i ==> HeaderGet(r.header, ProxyHeaders[j]) == "")
              ==> ip == HeaderGet(r.header, ProxyHeaders[i])
    ensures (forall i :: 0 <= i < |ProxyHeaders| ==> HeaderGet(r.header, ProxyHeaders[i]) == "")
              ==> ip == hostOf(r.remoteAddr)
  {
    assert ProxyHeaders[0] == XRealIP && ProxyHeaders[1] == XForwardedFor;
    assert ProxyHeaders[2] == XForwarded && ProxyHeaders[3] == ClientIP;
    var ip := HeaderGet(r.header, XRealIP);
    if |ip| > 0 then ip else
    var ip := HeaderGet(r.header, XForwardedFor);
    if |ip| > 0 then ip else
    var ip := HeaderGet(r.header, XForwarded);
    if |ip| > 0 then ip else
    var ip := HeaderGet(r.header, ClientIP);
    if |ip| > 0 then ip else
    hostOf(r.remoteAddr)
  }

  /** Reference definition: the first non-empty value among `names`, else `fallback`. */
  function FirstNonEmpty(header: map<string, seq<string>>, names: seq<string>, fallback: string): (v: string)
  {
    if names == [] then fallback
    else if HeaderGet(header, names[0]) != "" then HeaderGet(header, names[0])
    else FirstNonEmpty(header, names[1..], fallback)
  }

  /** `FirstNonEmpty` is the first non-empty value, or the fallback when all are empty. */
  lemma {:induction false} FirstNonEmptySpec(header: map<string, seq<string>>, names: seq<string>, fallback: string)
    ensures (forall i :: 0 <= i < |names| ==> HeaderGet(header, names[i]) == "")
              ==> FirstNonEmpty(header, names, fallback) == fallback
    ensures forall i :: 0 <= i < |names| && HeaderGet(header, names[i]) != ""
              && (forall j :: 0 <= j < i ==> HeaderGet(header, names[j]) == "")
              ==> FirstNonEmpty(header, names, fallback) == HeaderGet(header, names[i])
  {
    if names != [] {
      FirstNonEmptySpec(header, names[1..], fallback);
      forall i | 0 <= i < |names| && HeaderGet(header, names[i]) != ""
                 && (forall j :: 0 <= j < i ==> HeaderGet(header, names[j]) == "")
        ensures FirstNonEmpty(header, names, fallback) == HeaderGet(header, names[i])
      {
        if i > 0 {
          assert HeaderGet(header, names[0]) == "";
          assert names[1..][i - 1] == names[i];
          forall j | 0 <= j < i - 1
            ensures HeaderGet(header, names[1..][j]) == ""
          {
            assert names[1..][j] == names[j + 1];
          }
        }
      }
      if forall i :: 0 <= i < |names| ==> HeaderGet(header, names[i]) == "" {
        forall j | 0 <= j < |names| - 1
          ensures HeaderGet(header, names[1..][j]) == ""
        {
          assert names[1..][j] == names[j + 1];
        }
      }
    }
  }

  /** The nested checks of the source pick the same identity as the priority-list reference. */
  lemma RealIPAddressFollowsPriority(r: Request, hostOf: string -> string)
    ensures RealIPAddress(r, hostOf) == FirstNonEmpty(r.header, ProxyHeaders, hostOf(r.remoteAddr))
  {
    FirstNonEmptySpec(r.header, ProxyHeaders, hostOf(r.remoteAddr));
    var h := r.header;
    if HeaderGet(h, XRealIP) == "" && HeaderGet(h, XForwardedFor) == ""
       && HeaderGet(h, XForwarded) == "" && HeaderGet(h, ClientIP) == "" {
      assert forall i :: 0 <= i < |ProxyHeaders| ==> HeaderGet(h, ProxyHeaders[i]) == "";
    } else {
      var i := if HeaderGet(h, XRealIP) != "" then 0
               else if HeaderGet(h, XForwardedFor) != "" then 1
               else if HeaderGet(h, XForwarded) != "" then 2 else 3;
      assert HeaderGet(h, ProxyHeaders[i]) != "";
      assert forall j :: 0 <= j < i ==> HeaderGet(h, ProxyHeaders[j]) == "";
    }
  }

  /** A request carrying only a remote address is counted under its host part. */
  lemma NoProxyHeadersUsesRemoteHost(remoteAddr: string, hostOf: string -> string)
    ensures RealIPAddress(Request(map[], remoteAddr), hostOf) == hostOf(remoteAddr)
  {
  }

  /** X-Real-IP wins over X-Forwarded-For when both are set. */
  lemma RealIPHeaderWins(hostOf: string -> string)
    ensures RealIPAddress(Request(map[XRealIP := ["1.2.3.4"], XForwardedFor := ["5.6.7.8"]], "9.9.9.9:80"), hostOf)
            == "1.2.3.4"
  {
  }
}
