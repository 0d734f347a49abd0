/**
 * How the gate and the issuance fit together in the request handler, and the
 * concrete scenarios of the proxy's intended use: a secured service with one
 * public route, and a backend asking for a token with a lifetime and a role.
 */
module Handler {
  import opened Wrappers
  import opened Strings
  import opened Http
  import opened Jwt
  import opened Types
  import opened Config
  import opened Authorization
  import opened TokenHeaders
  import opened Issuance

  /**
   * A token issued for a service authorizes a later request to that service:
   * presented as the first `Authorization` value of a non-public request, it
   * is parsed with the same secret and, for a signer and parser that agree,
   * the request passes carrying exactly the claims of the token.
   */
  lemma IssuedTokenAuthorizes(h: Header, s: Service, now: int, parseDuration: string -> Option<int>,
                              sign: Signer, parse: Parser, order: seq<string>, r: Request, rest: seq<string>)
    requires IsEnumeration(order, ClaimHeaders(Reserved(h)).Keys)
    requires SignParseRoundTrip(sign, parse)
    requires IssuanceOf(Reserved(h), s.secret, now, parseDuration, sign, order).Issued?
    requires s.secured && !IsPublicPath(s, r.urlPath)
    requires AuthorizationHeader in r.header
    requires r.header[AuthorizationHeader] ==
      ["Bearer " + IssuanceOf(Reserved(h), s.secret, now, parseDuration, sign, order).token] + rest
    ensures TokenLifetime(Reserved(h), parseDuration).Success?
    ensures Authorize(r, s, parse) == Returned(Verdict(true,
      Some(TokenClaims(Reserved(h), TokenLifetime(Reserved(h), parseDuration).value, now, order)), None))
  {
    MovedTokenAuthorizes(Reserved(h), s, now, parseDuration, sign, parse, order, r, rest);
  }

  /** `IssuedTokenAuthorizes` for any moved headers. */
  lemma MovedTokenAuthorizes(tokenHeaders: Header, s: Service, now: int, parseDuration: string -> Option<int>,
                             sign: Signer, parse: Parser, order: seq<string>, r: Request, rest: seq<string>)
    requires Visits(order, ClaimHeaders(tokenHeaders).Keys)
    requires SignParseRoundTrip(sign, parse)
    requires IssuanceOf(tokenHeaders, s.secret, now, parseDuration, sign, order).Issued?
    requires s.secured && !IsPublicPath(s, r.urlPath)
    requires AuthorizationHeader in r.header
    requires r.header[AuthorizationHeader] ==
      ["Bearer " + IssuanceOf(tokenHeaders, s.secret, now, parseDuration, sign, order).token] + rest
    ensures TokenLifetime(tokenHeaders, parseDuration).Success?
    ensures Authorize(r, s, parse) == Returned(Verdict(true,
      Some(TokenClaims(tokenHeaders, TokenLifetime(tokenHeaders, parseDuration).value, now, order)), None))
  {
    var token := IssuanceOf(tokenHeaders, s.secret, now, parseDuration, sign, order).token;
    var lifetime := TokenLifetime(tokenHeaders, parseDuration).value;
    var claims := TokenClaims(tokenHeaders, lifetime, now, order);
    assert sign(claims, s.secret) == Success(token);
    BearerValue(token);
    var values := r.header[AuthorizationHeader];
    assert values[0] == "Bearer " + token;
    assert FirstBearer(values) == Some(0);
  }

  /**
   * The headers relayed to the client when the upstream response asks for a
   * token (request_hander.go:50-56, the writer starting empty): the issued
   * `Authorization` value comes first under its name, and no reserved name
   * reaches the client. When the lifetime lookup panics the handler stops
   * before `copyHeaders` and relays nothing, so the relay conclusion is
   * stated for the other outcomes.
   */
  lemma RelayedHeadersAfterIssuance(h: Header, secret: string, now: int, parseDuration: string -> Option<int>,
                                    sign: Signer, order: seq<string>)
    requires RequireTokenHeader in h
    requires IsEnumeration(order, ClaimHeaders(Reserved(h)).Keys)
    ensures IssuanceOf(Reserved(h), secret, now, parseDuration, sign, order) != NotRequested
    ensures var issued := IssuanceOf(Reserved(h), secret, now, parseDuration, sign, order);
      var writer: Header := if issued.Issued? then Added(map[], AuthorizationHeader, "Bearer " + issued.token) else map[];
      var relayed := Appended(writer, Unreserved(h));
      && (!issued.LifetimePanicked? ==> forall k :: k in relayed ==> !IsReserved(k))
      && (issued.Issued? ==> AuthorizationHeader in relayed && relayed[AuthorizationHeader][0] == "Bearer " + issued.token)
  {
    TriggerIsReserved(h);
    var issued := IssuanceOf(Reserved(h), secret, now, parseDuration, sign, order);
    var writer: Header := if issued.Issued? then Added(map[], AuthorizationHeader, "Bearer " + issued.token) else map[];
    RelayedHasNoReserved(writer, h);
    if issued.Issued? {
      AppendedKeepsExisting(writer, Unreserved(h));
      assert writer[AuthorizationHeader] == ["Bearer " + issued.token];
    }
  }

  /** The trigger header is itself reserved, so it is always among the moved headers. */
  lemma TriggerIsReserved(h: Header)
    requires RequireTokenHeader in h
    ensures RequireTokenHeader in Reserved(h) && |Reserved(h)| > 0
  {
    assert RequireTokenHeader == TokenHeaderPrefix + "-Required";
    PrefixedIsReserved(RequireTokenHeader);
  }

  /** A writer holding at most `Authorization` relays no reserved name after the unreserved headers are copied. */
  lemma RelayedHasNoReserved(writer: Header, h: Header)
    requires writer.Keys <= {AuthorizationHeader}
    ensures forall k :: k in Appended(writer, Unreserved(h)) ==> !IsReserved(k)
  {
    AuthorizationNotReserved();
    AppendedRelaysSource(writer, Unreserved(h));
  }

  /** `Authorization` is not a reserved name. */
  lemma AuthorizationNotReserved()
    ensures !IsReserved(AuthorizationHeader)
  {
    assert ToLower(AuthorizationHeader)[0] == 'a';
    assert ToLower(TokenHeaderPrefix)[0] == 'x';
  }

  /**
   * Without the trigger header the handler does not call `issueToken`: the
   * client receives every upstream header with values, reserved ones included.
   */
  lemma RelayedHeadersWithoutTrigger(h: Header)
    ensures forall k :: k in Appended(map[], h) <==> k in h && h[k] != []
    ensures forall k :: k in Appended(map[], h) ==> Appended(map[], h)[k] == h[k]
  {
  }

  /** The registry entry of the scenarios: `dd-api` as in main.go, secured, with public route `/hash`. */
  function DdApi(): (s: Service)
    ensures s.pathAlias == "dd-api" && s.secured && s.publicRoutes == ["/hash"] && s.secret == "marshal"
  {
    Service("dd-gpi", "http://localhost:8080", "dd-api", "", "marshal", -1, true, true, ["/hash"])
  }

  /** `GET /dd-api/hash` without credentials passes: it is a public route. */
  lemma PublicHashAllowed(r: Request, parse: Parser)
    requires r.urlPath == "/dd-api/hash" && AuthorizationHeader !in r.header
    ensures Authorize(r, DdApi(), parse) == Returned(Allow)
  {
    PublicRouteAllows(r, DdApi(), parse, 0, r.header);
  }

  /** `GET /dd-api/other` without credentials is denied. */
  lemma OtherRouteDenied(r: Request, parse: Parser)
    requires r.urlPath == "/dd-api/other" && AuthorizationHeader !in r.header
    ensures Authorize(r, DdApi(), parse) == Returned(Deny)
  {
    assert FullRoute("dd-api", "/hash")[8] != r.urlPath[8];
    assert !IsPublicPath(DdApi(), r.urlPath);
  }

  /** The response headers of the issuance scenario. */
  function ScenarioHeaders(): Header {
    map["X-Proxy-Token-Required" := ["true"],
        "X-Proxy-Token-Exp" := ["30m"],
        "X-Proxy-Token-Role" := ["admin"],
        "Content-Type" := ["text/plain"]]
  }

  /** The moved headers of the issuance scenario. */
  function ScenarioTokenHeaders(): Header {
    map["X-Proxy-Token-Required" := ["true"],
        "X-Proxy-Token-Exp" := ["30m"],
        "X-Proxy-Token-Role" := ["admin"]]
  }

  /** In the issuance scenario the three proxy-token headers are moved and only `Content-Type` is relayed. */
  lemma ScenarioPartition()
    ensures Reserved(ScenarioHeaders()) == ScenarioTokenHeaders()
    ensures Unreserved(ScenarioHeaders()) == map["Content-Type" := ["text/plain"]]
  {
    assert "X-Proxy-Token-Required" == TokenHeaderPrefix + "-Required";
    assert "X-Proxy-Token-Exp" == TokenHeaderPrefix + "-Exp";
    assert "X-Proxy-Token-Role" == TokenHeaderPrefix + "-Role";
    PrefixedIsReserved("X-Proxy-Token-Required");
    PrefixedIsReserved("X-Proxy-Token-Exp");
    PrefixedIsReserved("X-Proxy-Token-Role");
    assert ToLower("Content-Type")[0] == 'c';
    assert ToLower(TokenHeaderPrefix)[0] == 'x';
  }

  /** In the issuance scenario only the `Role` header is left once the two non-claim names are dropped. */
  lemma ScenarioClaimHeaders()
    ensures ClaimHeaders(ScenarioTokenHeaders()) == map["X-Proxy-Token-Role" := ["admin"]]
  {
    assert ClaimHeaders(ScenarioTokenHeaders()).Keys == {"X-Proxy-Token-Role"};
  }

  /** The 30-minute override of the issuance scenario is the token's lifetime. */
  lemma ScenarioLifetime(parseDuration: string -> Option<int>)
    requires parseDuration("30m") == Some(30 * 60 * 1_000_000_000)
    ensures TokenLifetime(ScenarioTokenHeaders(), parseDuration) == Success(30 * 60 * 1_000_000_000)
  {
    assert ScenarioTokenHeaders()[TokenExpHeader] == ["30m"];
  }

  /** The `Role` header becomes the `Role` claim. */
  lemma ScenarioRoleClaim()
    ensures ClaimsInOrder(map["X-Proxy-Token-Role" := ["admin"]], ["X-Proxy-Token-Role"]) ==
      map["Role" := Text(["admin"])]
  {
    assert "X-Proxy-Token-Role" == (TokenHeaderPrefix + "-") + "Role";
    assert ClaimName("X-Proxy-Token-Role") == "Role";
    assert ["X-Proxy-Token-Role"][..0] == [];
  }

  /**
   * Trigger, a 30-minute override and one `Role` claim: the token lives thirty
   * minutes and its claim set is `Role` with its value plus `exp`.
   */
  lemma IssuanceScenario(now: int, parseDuration: string -> Option<int>)
    requires parseDuration("30m") == Some(30 * 60 * 1_000_000_000)
    ensures IsEnumeration(["X-Proxy-Token-Role"], ClaimHeaders(ScenarioTokenHeaders()).Keys)
    ensures TokenLifetime(ScenarioTokenHeaders(), parseDuration) == Success(30 * 60 * 1_000_000_000)
    ensures TokenClaims(ScenarioTokenHeaders(), 30 * 60 * 1_000_000_000, now, ["X-Proxy-Token-Role"]) ==
      map["exp" := Number((now + 1_800_000_000_000) / 1_000_000), "Role" := Text(["admin"])]
  {
    ScenarioClaimHeaders();
    ScenarioLifetime(parseDuration);
    ScenarioRoleClaim();
    ScenarioEnumeration();
    var role := map["Role" := Text(["admin"])];
    assert ClaimsInOrder(ClaimHeaders(ScenarioTokenHeaders()), ["X-Proxy-Token-Role"]) == role;
    ScenarioJwtClaims(role, ExpiryMillis(now, 30 * 60 * 1_000_000_000));
  }

  /** The only claim header of the scenario, visited once. */
  lemma ScenarioEnumeration()
    ensures IsEnumeration(["X-Proxy-Token-Role"], {"X-Proxy-Token-Role"})
  {
    assert multiset(["X-Proxy-Token-Role"]) == multiset({"X-Proxy-Token-Role"});
  }

  /** `exp` added to the single `Role` claim. */
  lemma ScenarioJwtClaims(role: Claims, ms: int)
    requires role == map["Role" := Text(["admin"])]
    ensures JwtClaims(role, ms) == map["exp" := Number(ms), "Role" := Text(["admin"])]
  {
    assert "exp"[0] != "Role"[0];
  }
}
