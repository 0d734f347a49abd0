/** `getRequestDetails`: splitting the request-URI into the service alias and the rest. */
module RequestDetails {
  import opened Strings
  import opened Http

  /** The method, the alias ("host") and the remaining path without its leading `/`. */
  datatype Details = Details(verb: string, host: string, path: string)

  /**
   * One leading `/` is trimmed from the request-URI; the alias is the text up
   * to the next `/`, the path everything after it (empty when there is none).
   */
  function GetRequestDetails(r: Request): (d: Details)
    ensures d.verb == r.verb
    ensures '/' !in d.host
    ensures var trimmed := TrimPrefix(r.requestURI, "/");
      if '/' in trimmed then d.host + "/" + d.path == trimmed
      else d.host == trimmed && d.path == ""
  {
    var trimmed := TrimPrefix(r.requestURI, "/");
    var parts := SplitOnce(trimmed, '/');
    var host := parts[0];
    var path := if |parts| == 2 then parts[1] else "";
    Details(r.verb, host, path)
  }

  /** The split can be undone: a URI built from an alias and a path yields them back. */
  lemma {:induction false} DetailsRoundTrip(r: Request, host: string, path: string)
    requires '/' !in host
    requires r.requestURI == "/" + host + "/" + path
    ensures GetRequestDetails(r) == Details(r.verb, host, path)
  {
    var trimmed := TrimPrefix(r.requestURI, "/");
    assert trimmed == host + "/" + path;
    SplitUnique(trimmed, host, path);
  }

  /** A URI that is only `/` and an alias yields that alias and an empty path. */
  lemma AliasOnly(r: Request, host: string)
    requires '/' !in host
    requires r.requestURI == "/" + host
    ensures GetRequestDetails(r) == Details(r.verb, host, "")
  {
    assert TrimPrefix(r.requestURI, "/") == host;
  }

  /** Splitting at the first `/` has only one answer. */
  lemma SplitUnique(s: string, host: string, path: string)
    requires '/' !in host
    requires s == host + "/" + path
    ensures SplitOnce(s, '/') == [host, path]
  {
    var parts := SplitOnce(s, '/');
    assert s[|host|] == '/';
    assert |parts| == 2;
    assert parts[0] == host;
  }
}
