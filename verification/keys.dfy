/**
  Window-key construction (`ReqLimiter.limitKey` in reqlimit.go): the store key
  under which one requester's count for one limiter lives.
 */
module Keys {

  /** The fixed marker between the namespace and the limiter name. */
  const Marker: string := "limiter:"

  /**
    `limiter:<name>:<ip>` when the namespace is empty, and
    `<namespace>:limiter:<name>:<ip>` otherwise.
   */
  function LimitKey(namespace: string, name: string, ip: string): (key: string)
    ensures |key| == (if namespace == "" then 0 else |namespace| + 1) + |Marker| + |name| + 1 + |ip|
    ensures key[|key| - |ip|..] == ip
    ensures namespace != "" ==> key[..|namespace| + 1] == namespace + ":"
  {
    if namespace == "" then
      Marker + name + ":" + ip
    else
      namespace + ":" + Marker + name + ":" + ip
  }

  /** The part of the key in front of the limiter name. */
  function Scope(namespace: string): (p: string) {
    if namespace == "" then Marker else namespace + ":" + Marker
  }

  /** Every key is the namespace scope, the name, a colon and the identity, in that order. */
  lemma KeyLayout(namespace: string, name: string, ip: string)
    ensures LimitKey(namespace, name, ip) == Scope(namespace) + name + ":" + ip
  {
  }

  /** Same namespace and limiter: the key determines the identity. */
  lemma KeyDeterminesIdentity(namespace: string, name: string, ip1: string, ip2: string)
    ensures LimitKey(namespace, name, ip1) == LimitKey(namespace, name, ip2) <==> ip1 == ip2
  {
  }

  /** Same namespace and identity: the key determines the limiter name. */
  lemma KeyDeterminesName(namespace: string, name1: string, name2: string, ip: string)
    ensures LimitKey(namespace, name1, ip) == LimitKey(namespace, name2, ip) <==> name1 == name2
  {
    var k1, k2 := LimitKey(namespace, name1, ip), LimitKey(namespace, name2, ip);
    if k1 == k2 {
      KeyLayout(namespace, name1, ip);
      KeyLayout(namespace, name2, ip);
      var p := |Scope(namespace)|;
      assert |name1| == |name2|;
      assert k1[p..p + |name1|] == name1;
      assert k2[p..p + |name2|] == name2;
    }
  }

  /** Same limiter name and identity: the key determines the namespace. */
  lemma KeyDeterminesNamespace(ns1: string, ns2: string, name: string, ip: string)
    ensures LimitKey(ns1, name, ip) == LimitKey(ns2, name, ip) <==> ns1 == ns2
  {
    var k1, k2 := LimitKey(ns1, name, ip), LimitKey(ns2, name, ip);
    if k1 == k2 && ns1 != "" && ns2 != "" {
      assert |ns1| == |ns2|;
      assert k1[..|ns1| + 1] == ns1 + ":";
      assert k2[..|ns2| + 1] == ns2 + ":";
      assert (ns1 + ":")[..|ns1|] == ns1;
      assert (ns2 + ":")[..|ns2|] == ns2;
    }
  }

  /**
    The key format does not escape ':', so the whole triple is not recovered
    from the key: a colon can move between the name and the identity.
   */
  lemma KeysCollideAcrossComponents()
    ensures LimitKey("", "rps:a", "b") == LimitKey("", "rps", "a:b")
    ensures LimitKey("limiter:x", "n", "i") == LimitKey("", "x:limiter:n", "i")
  {
  }

  /** The two documented example keys. */
  lemma KeyExamples()
    ensures LimitKey("Appname", "rps", "1.2.3.4") == "Appname:limiter:rps:1.2.3.4"
    ensures LimitKey("", "rps", "1.2.3.4") == "limiter:rps:1.2.3.4"
  {
  }
}
