/**
 * `issueToken` and `createJWT`: turning the reserved headers of an upstream
 * response into a signed token for the client.
 */
module Issuance {
  import opened Wrappers
  import opened Strings
  import opened Http
  import opened Jwt
  import opened Config
  import opened TokenHeaders

  /** `time.Hour`, in nanoseconds. */
  const Hour: int := 3_600_000_000_000

  /** Lifetime of an issued token when the backend does not override it. */
  const DefaultTokenLifetime: int := 2 * Hour

  /**
   * The lifetime `issueToken` picks from the moved headers: the default,
   * unless the exact name `TokenExpHeader` is present and its first value
   * parses as a duration. An empty value list makes `expVals[0]` panic.
   */
  function TokenLifetime(tokenHeaders: Header, parseDuration: string -> Option<int>): (lifetime: Result<int, Panic>) {
    if TokenExpHeader in tokenHeaders then
      var expVals := tokenHeaders[TokenExpHeader];
      if |expVals| == 0 then Failure(IndexOutOfRange)
      else match parseDuration(expVals[0])
        case Some(parsed) => Success(parsed)
        case None => Success(DefaultTokenLifetime)
    else Success(DefaultTokenLifetime)
  }

  /** The lifetime falls back to the default in every case but a parsed override. */
  lemma LifetimeChoice(tokenHeaders: Header, parseDuration: string -> Option<int>)
    ensures TokenExpHeader !in tokenHeaders ==>
      TokenLifetime(tokenHeaders, parseDuration) == Success(DefaultTokenLifetime)
    ensures TokenExpHeader in tokenHeaders && tokenHeaders[TokenExpHeader] == [] ==>
      TokenLifetime(tokenHeaders, parseDuration) == Failure(IndexOutOfRange)
    ensures TokenExpHeader in tokenHeaders && tokenHeaders[TokenExpHeader] != [] ==>
      TokenLifetime(tokenHeaders, parseDuration) ==
        Success(match parseDuration(tokenHeaders[TokenExpHeader][0])
          case Some(d) => d
          case None => DefaultTokenLifetime)
  {
  }

  /** The moved headers minus the two exact non-claim names. */
  function ClaimHeaders(tokenHeaders: Header): (h: Header)
    ensures h.Keys == tokenHeaders.Keys - {RequireTokenHeader, TokenExpHeader}
    ensures forall k :: k in h ==> h[k] == tokenHeaders[k]
  {
    tokenHeaders - {RequireTokenHeader} - {TokenExpHeader}
  }

  /** A claim's name: the header name with `TokenHeaderPrefix + "-"` removed, case-sensitively. */
  function ClaimName(header: string): string {
    TrimPrefix(header, TokenHeaderPrefix + "-")
  }

  /** Every name `order` visits is one of `keys`. */
  predicate Visits(order: seq<string>, keys: set<string>) {
    forall i :: 0 <= i < |order| ==> order[i] in keys
  }

  /** `order` visits each name of `keys` exactly once: one possible order of a Go `range` over a map. */
  predicate IsEnumeration(order: seq<string>, keys: set<string>) {
    Visits(order, keys) && multiset(order) == multiset(keys)
  }

  /** An enumeration holds the names of `keys`, each of them once. */
  lemma EnumerationElements(order: seq<string>, keys: set<string>)
    requires IsEnumeration(order, keys)
    ensures forall k :: k in keys ==> k in order
    ensures forall i, j :: 0 <= i < j < |order| ==> order[i] != order[j]
  {
    forall k | k in keys ensures k in order {
      assert k in multiset(keys);
    }
    forall i, j | 0 <= i < j < |order| ensures order[i] != order[j] {
      CountOfRepeated(order, i, j);
      assert multiset(keys)[order[i]] <= 1;
    }
  }

  /** A name found at two positions of a sequence occurs in it at least twice. */
  lemma CountOfRepeated(order: seq<string>, i: nat, j: nat)
    requires i < j < |order|
    ensures order[i] == order[j] ==> multiset(order)[order[i]] >= 2
  {
    var k := order[i];
    assert order == order[..i] + [k] + order[i + 1..j] + [order[j]] + order[j + 1..];
  }

  /** The claims map the loop of `issueToken` builds when it visits the headers in `order`. */
  function ClaimsInOrder(h: Header, order: seq<string>): (claims: Claims)
    requires Visits(order, h.Keys)
    decreases |order|
  {
    if order == [] then map[]
    else
      var last := order[|order| - 1];
      ClaimsInOrder(h, order[..|order| - 1])[ClaimName(last) := Text(h[last])]
  }

  /** The claim names are exactly the renamed header names visited. */
  lemma {:induction false} ClaimsInOrderKeys(h: Header, order: seq<string>)
    requires Visits(order, h.Keys)
    ensures ClaimsInOrder(h, order).Keys == set i | 0 <= i < |order| :: ClaimName(order[i])
  {
    if order != [] {
      var prefix := order[..|order| - 1];
      ClaimsInOrderKeys(h, prefix);
      assert forall i :: 0 <= i < |prefix| ==> prefix[i] == order[i];
      assert (set i | 0 <= i < |order| :: ClaimName(order[i])) ==
        (set i | 0 <= i < |prefix| :: ClaimName(prefix[i])) + {ClaimName(order[|order| - 1])};
    }
  }

  /**
   * Each claim holds the values of the last header visited that renames to
   * it: when two headers rename to the same claim, the map's iteration order
   * decides which survives.
   */
  lemma {:induction false} LastWriterWins(h: Header, order: seq<string>, i: nat)
    requires forall j :: 0 <= j < |order| ==> order[j] in h
    requires i < |order|
    requires forall j :: i < j < |order| ==> ClaimName(order[j]) != ClaimName(order[i])
    ensures ClaimName(order[i]) in ClaimsInOrder(h, order)
    ensures ClaimsInOrder(h, order)[ClaimName(order[i])] == Text(h[order[i]])
    decreases |order|
  {
    if i < |order| - 1 {
      var prefix := order[..|order| - 1];
      assert prefix[i] == order[i];
      LastWriterWins(h, prefix, i);
    }
  }

  /** No two header names rename to the same claim name. */
  predicate ClaimNamesDistinct(h: Header) {
    forall a, b :: a in h && b in h && ClaimName(a) == ClaimName(b) ==> a == b
  }

  /**
   * Without renaming collisions every header becomes the claim named after
   * it with its values, whatever the iteration order.
   */
  lemma {:induction false} ClaimsWithoutCollision(h: Header, order: seq<string>)
    requires IsEnumeration(order, h.Keys)
    requires ClaimNamesDistinct(h)
    ensures ClaimsInOrder(h, order).Keys == set k | k in h :: ClaimName(k)
    ensures forall k :: k in h ==> ClaimsInOrder(h, order)[ClaimName(k)] == Text(h[k])
  {
    EnumerationElements(order, h.Keys);
    ClaimsInOrderKeys(h, order);
    RenamedVisited(order, h.Keys);
    forall k | k in h
      ensures ClaimName(k) in ClaimsInOrder(h, order) && ClaimsInOrder(h, order)[ClaimName(k)] == Text(h[k])
    {
      ClaimOfHeader(h, order, k);
    }
  }

  /** Renaming the names an order visits gives the renamed key set when the order covers the keys. */
  lemma RenamedVisited(order: seq<string>, keys: set<string>)
    requires Visits(order, keys)
    requires forall k :: k in keys ==> k in order
    ensures (set i | 0 <= i < |order| :: ClaimName(order[i])) == set k | k in keys :: ClaimName(k)
  {
    var visited := set i | 0 <= i < |order| :: ClaimName(order[i]);
    var renamed := set k | k in keys :: ClaimName(k);
    forall c | c in visited ensures c in renamed {
      var i :| 0 <= i < |order| && ClaimName(order[i]) == c;
      assert order[i] in keys;
    }
    forall c | c in renamed ensures c in visited {
      var k :| k in keys && ClaimName(k) == c;
      var i :| 0 <= i < |order| && order[i] == k;
    }
  }

  /** One header, under distinct claim names, becomes the claim named after it. */
  lemma ClaimOfHeader(h: Header, order: seq<string>, k: string)
    requires Visits(order, h.Keys)
    requires k in order
    requires forall i, j :: 0 <= i < j < |order| ==> order[i] != order[j]
    requires ClaimNamesDistinct(h)
    ensures ClaimName(k) in ClaimsInOrder(h, order) && ClaimsInOrder(h, order)[ClaimName(k)] == Text(h[k])
  {
    var i :| 0 <= i < |order| && order[i] == k;
    forall j | i < j < |order| ensures ClaimName(order[j]) != ClaimName(order[i]) {
      assert order[j] != order[i];
      assert order[j] in h;
    }
    LastWriterWins(h, order, i);
  }

  /** Hence, without collisions, the claims do not depend on the iteration order. */
  lemma ClaimsOrderIndependent(h: Header, order1: seq<string>, order2: seq<string>)
    requires IsEnumeration(order1, h.Keys) && IsEnumeration(order2, h.Keys)
    requires ClaimNamesDistinct(h)
    ensures ClaimsInOrder(h, order1) == ClaimsInOrder(h, order2)
  {
    ClaimsWithoutCollision(h, order1);
    ClaimsWithoutCollision(h, order2);
    forall c | c in ClaimsInOrder(h, order1)
      ensures ClaimsInOrder(h, order1)[c] == ClaimsInOrder(h, order2)[c]
    {
      var k :| k in h && ClaimName(k) == c;
    }
  }

  /** The loop of `issueToken` that renames each claim header into the claims map. */
  method MapClaims(tokenHeaders: Header, order: seq<string>) returns (claims: Claims)
    requires IsEnumeration(order, tokenHeaders.Keys)
    ensures claims == ClaimsInOrder(tokenHeaders, order)
  {
    claims := map[];
    for i := 0 to |order|
      invariant claims == ClaimsInOrder(tokenHeaders, order[..i])
    {
      var k := order[i];
      var key := TrimPrefix(k, TokenHeaderPrefix + "-");
      assert order[..i + 1][..i] == order[..i];
      claims := claims[key := Text(tokenHeaders[k])];
    }
    assert order[..|order|] == order;
  }

  /** `time.Now().Add(lifetime).UnixMilli()` with `now` in Unix nanoseconds: rounded down to the millisecond. */
  function ExpiryMillis(now: int, lifetime: int): (ms: int)
    ensures ms * 1_000_000 <= now + lifetime < (ms + 1) * 1_000_000
  {
    (now + lifetime) / 1_000_000
  }

  /**
   * The claim set `createJWT` signs: `exp` first, then every supplied claim,
   * which overwrites `exp` when it has that name.
   */
  function JwtClaims(claims: Claims, expMillis: int): (r: Claims)
    ensures r.Keys == claims.Keys + {"exp"}
    ensures forall k :: k in claims ==> r[k] == claims[k]
    ensures "exp" !in claims ==> r["exp"] == Number(expMillis)
  {
    map["exp" := Number(expMillis)] + claims
  }

  /** `createJWT`: builds the claim set in a loop, then signs it with the service secret. */
  method CreateJWT(claims: Claims, lifetime: int, secret: string, now: int, sign: Signer)
    returns (token: Result<string, string>)
    ensures token == sign(JwtClaims(claims, ExpiryMillis(now, lifetime)), secret)
  {
    var expMillis := (now + lifetime) / 1_000_000;
    var clms: Claims := map["exp" := Number(expMillis)];
    var todo := claims.Keys;
    while todo != {}
      invariant todo <= claims.Keys
      invariant clms == map["exp" := Number(expMillis)] + (claims - todo)
      decreases todo
    {
      var k :| k in todo;
      clms := clms[k := claims[k]];
      todo := todo - {k};
    }
    assert claims - {} == claims;
    token := sign(clms, secret);
  }

  /** What `issueToken` did, including the panic on an empty `X-Proxy-Token-Exp` list. */
  datatype Issuance = NotRequested | LifetimePanicked(panic: Panic) | SignFailed(error: string) | Issued(token: string)

  /** The claims of the token issued for moved headers `tokenHeaders` with lifetime `lifetime`. */
  function TokenClaims(tokenHeaders: Header, lifetime: int, now: int, order: seq<string>): (claims: Claims)
    requires Visits(order, ClaimHeaders(tokenHeaders).Keys)
  {
    JwtClaims(ClaimsInOrder(ClaimHeaders(tokenHeaders), order), ExpiryMillis(now, lifetime))
  }

  /**
   * The outcome of `issueToken` as a function of the headers it moved out of
   * the upstream response.
   */
  function IssuanceOf(tokenHeaders: Header, secret: string, now: int, parseDuration: string -> Option<int>,
                      sign: Signer, order: seq<string>): (outcome: Issuance)
    requires Visits(order, ClaimHeaders(tokenHeaders).Keys)
  {
    if |tokenHeaders| == 0 then NotRequested
    else match TokenLifetime(tokenHeaders, parseDuration)
      case Failure(p) => LifetimePanicked(p)
      case Success(lifetime) =>
        match sign(TokenClaims(tokenHeaders, lifetime, now, order), secret)
        case Failure(e) => SignFailed(e)
        case Success(t) => Issued(t)
  }

  /**
   * `issueToken`: moves the reserved headers out of the upstream response
   * and, when there were any, issues a token from them.
   */
  method IssueToken(w: ResponseWriter, r: Response, secret: string, now: int,
                    parseDuration: string -> Option<int>, sign: Signer, order: seq<string>)
    returns (outcome: Issuance)
    requires IsEnumeration(order, ClaimHeaders(Reserved(r.header)).Keys)
    modifies w, r
    ensures r.header == Unreserved(old(r.header))
    ensures outcome == IssuanceOf(Reserved(old(r.header)), secret, now, parseDuration, sign, order)
    ensures w.header == if outcome.Issued? then Added(old(w.header), AuthorizationHeader, "Bearer " + outcome.token)
      else old(w.header)
    ensures w.status == if outcome.SignFailed? then (if old(w.status).None? then Some(500) else old(w.status))
      else old(w.status)
  {
    var tokenHeaders, ok := RemoveProxyTokenHeaders(r);
    if ok {
      outcome := IssueFromTokenHeaders(w, tokenHeaders, secret, now, parseDuration, sign, order);
    } else {
      outcome := NotRequested;
    }
  }

  /**
   * The body of `issueToken` once headers were moved: picks the lifetime,
   * drops the two non-claim names, maps the rest into claims, signs, and adds
   * `Authorization: Bearer <token>` to the writer, or writes status 500 when
   * signing fails.
   */
  method IssueFromTokenHeaders(w: ResponseWriter, tokenHeaders: Header, secret: string, now: int,
                               parseDuration: string -> Option<int>, sign: Signer, order: seq<string>)
    returns (outcome: Issuance)
    requires |tokenHeaders| > 0
    requires IsEnumeration(order, ClaimHeaders(tokenHeaders).Keys)
    modifies w
    ensures outcome == IssuanceOf(tokenHeaders, secret, now, parseDuration, sign, order)
    ensures w.header == if outcome.Issued? then Added(old(w.header), AuthorizationHeader, "Bearer " + outcome.token)
      else old(w.header)
    ensures w.status == if outcome.SignFailed? then (if old(w.status).None? then Some(500) else old(w.status))
      else old(w.status)
  {
    var lifetime := DefaultTokenLifetime;
    var expVals, present := Values(tokenHeaders, TokenExpHeader), TokenExpHeader in tokenHeaders;
    if present {
      if |expVals| == 0 {
        // expVals[0] on an empty slice
        return LifetimePanicked(IndexOutOfRange);
      }
      var parsedExp := parseDuration(expVals[0]);
      if parsedExp.Some? {
        lifetime := parsedExp.value;
      }
    }
    assert TokenLifetime(tokenHeaders, parseDuration) == Success(lifetime);
    var claimHeaders := tokenHeaders - {RequireTokenHeader};
    claimHeaders := claimHeaders - {TokenExpHeader};
    assert claimHeaders == ClaimHeaders(tokenHeaders);
    var claims := MapClaims(claimHeaders, order);
    var token := CreateJWT(claims, lifetime, secret, now, sign);
    assert token == sign(TokenClaims(tokenHeaders, lifetime, now, order), secret);
    if token.Failure? {
      w.WriteHeader(500);
      return SignFailed(token.error);
    }
    w.Add(AuthorizationHeader, "Bearer " + token.value);
    return Issued(token.value);
  }
}
