/**
 * The routing decision made for every request: find a table key that is a
 * suffix of the request's Host, or answer 502 Bad Gateway.  The table is
 * scanned in the map's iteration order, which is unspecified, so any
 * matching key may be the one chosen.
 */
module Routing {
  import opened Text
  import opened Urls
  import opened Config

  /** The chosen route, or the 502 Bad Gateway answer. */
  datatype Decision = Found(key: string, url: Url) | BadGateway

  /** The keys the scan may stop at: those of `t` that are plain string suffixes of `hostname`. */
  function Matches(t: Table, hostname: string): set<string> {
    set k | k in t && HasSuffix(hostname, k)
  }

  /**
   * Picks the upstream for a request to `hostname`.  A found key is a
   * suffix of the hostname and comes with its own URL; the answer is Bad
   * Gateway exactly when no key matches; with a single matching key, that
   * key is chosen.
   */
  method SelectUpstream(t: Table, hostname: string) returns (d: Decision)
    ensures d.Found? ==> d.key in t && HasSuffix(hostname, d.key) && d.url == t[d.key]
    ensures d.BadGateway? <==> forall k :: k in t ==> !HasSuffix(hostname, k)
    ensures |Matches(t, hostname)| == 1 ==> d.Found? && Matches(t, hostname) == {d.key}
  {
    var found := false;
    var proxyKey := "";
    var proxyUrl := Url("", "", "", "", "", "");
    var unvisited := t.Keys;
    while unvisited != {}
      invariant unvisited <= t.Keys
      invariant forall k :: k in t && k !in unvisited ==> !HasSuffix(hostname, k)
      invariant !found
      decreases |unvisited|
    {
      var host :| host in unvisited;
      if HasSuffix(hostname, host) {
        found := true;
        proxyKey, proxyUrl := host, t[host];
        break;
      }
      unvisited := unvisited - {host};
    }
    if !found {
      return BadGateway;
    }
    d := Found(proxyKey, proxyUrl);
    var m := Matches(t, hostname);
    if |m| == 1 {
      assert proxyKey in m;
      assert m - {proxyKey} == {} by {
        assert |m - {proxyKey}| == |m| - 1;
      }
    }
  }
}
