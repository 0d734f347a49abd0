/** `authorizeRequest`: the gate every request to a registered service passes through. */
module Authorization {
  import opened Wrappers
  import opened Strings
  import opened Http
  import opened Jwt
  import opened Types
  import opened Config

  /** The result of `authorizeRequest`: its returned triple, or the panic of an unguarded index. */
  datatype AuthResult = Returned(verdict: Verdict) | Panicked(panic: Panic)

  /** `(true, nil, nil)`. */
  const Allow: Verdict := Verdict(true, None, None)

  /** `(false, nil, nil)`. */
  const Deny: Verdict := Verdict(false, None, None)

  /** The full path of a public route: no separator is inserted between alias and route. */
  function FullRoute(alias: string, route: string): string {
    "/" + alias + route
  }

  /** The request path equals the full path of some public route of the service. */
  predicate IsPublicPath(s: Service, path: string) {
    exists j :: 0 <= j < |s.publicRoutes| && FullRoute(s.pathAlias, s.publicRoutes[j]) == path
  }

  /**
   * The format check of one `Authorization` value: split at the first space,
   * at most two parts (always true of a split in two), and the first part
   * lower-cases to "bearer".
   */
  predicate IsBearer(value: string) {
    var parts := SplitOnce(value, ' ');
    !(|parts| > 2) && ToLower(parts[0]) == "bearer"
  }

  /** Index of the first value at or after `start` that satisfies `p`. */
  function FirstFrom(values: seq<string>, start: nat, p: string -> bool): (r: Option<nat>)
    requires start <= |values|
    ensures r.Some? ==> start <= r.value < |values| && p(values[r.value])
    ensures r.Some? ==> forall j :: start <= j < r.value ==> !p(values[j])
    ensures r.None? <==> forall j :: start <= j < |values| ==> !p(values[j])
    decreases |values| - start
  {
    if start == |values| then None
    else if p(values[start]) then Some(start)
    else FirstFrom(values, start + 1, p)
  }

  /** Index of the first value that passes the format check: the only one ever used. */
  function FirstBearer(values: seq<string>): (r: Option<nat>)
    ensures r.Some? ==> r.value < |values| && IsBearer(values[r.value])
    ensures r.Some? ==> forall j :: 0 <= j < r.value ==> !IsBearer(values[j])
    ensures r.None? <==> forall j :: 0 <= j < |values| ==> !IsBearer(values[j])
  {
    FirstFrom(values, 0, IsBearer)
  }

  /**
   * The decision `authorizeRequest` makes, as a function of the request, the
   * service and the token parser.
   */
  function Authorize(r: Request, s: Service, parse: Parser): (res: AuthResult) {
    if !s.secured then Returned(Allow)
    else if IsPublicPath(s, r.urlPath) then Returned(Allow)
    else if AuthorizationHeader !in r.header then Returned(Deny)
    else
      var values := r.header[AuthorizationHeader];
      match FirstBearer(values)
      case None => Returned(Deny)
      case Some(i) =>
        var parts := SplitOnce(values[i], ' ');
        if |parts| < 2 then Panicked(IndexOutOfRange)
        else Returned(ParseJWT(parts[1], s.secret, parse))
  }

  /**
   * `authorizeRequest`: the unsecured check, the loop over public routes, the
   * `Authorization` lookup and the loop over its values, each with the
   * source's early returns.
   */
  method AuthorizeRequest(r: Request, s: Service, parse: Parser) returns (res: AuthResult)
    ensures res == Authorize(r, s, parse)
  {
    if !s.secured {
      return Returned(Allow);
    }
    var path := r.urlPath;
    var i := 0;
    while i < |s.publicRoutes|
      invariant 0 <= i <= |s.publicRoutes|
      invariant forall j :: 0 <= j < i ==> FullRoute(s.pathAlias, s.publicRoutes[j]) != path
    {
      var fullRoute := "/" + s.pathAlias + s.publicRoutes[i];
      if fullRoute == path {
        return Returned(Allow);
      }
      i := i + 1;
    }
    assert !IsPublicPath(s, path);
    if AuthorizationHeader !in r.header {
      return Returned(Deny);
    }
    var authVals := r.header[AuthorizationHeader];
    var k := 0;
    while k < |authVals|
      invariant 0 <= k <= |authVals|
      invariant forall j :: 0 <= j < k ==> !IsBearer(authVals[j])
    {
      var parts := SplitOnce(authVals[k], ' ');
      assert IsBearer(authVals[k]) <==> !(|parts| > 2 || ToLower(parts[0]) != "bearer");
      if |parts| > 2 || ToLower(parts[0]) != "bearer" {
        k := k + 1;
        continue;
      }
      assert FirstBearer(authVals) == Some(k);
      if |parts| < 2 {
        // parts[1] on a one-element slice
        return Panicked(IndexOutOfRange);
      }
      return Returned(ParseJWT(parts[1], s.secret, parse));
    }
    assert FirstBearer(authVals).None?;
    return Returned(Deny);
  }

  // Properties of the decision.

  /** An unsecured service lets every request through, whatever its headers. */
  lemma UnsecuredAllows(r: Request, s: Service, parse: Parser)
    requires !s.secured
    ensures Authorize(r, s, parse) == Returned(Allow)
  {
  }

  /**
   * A secured service lets a request for one of its public routes through
   * with no claims, whatever headers the request carries.
   */
  lemma {:induction false} PublicRouteAllows(r: Request, s: Service, parse: Parser, j: nat, other: Header)
    requires s.secured
    requires j < |s.publicRoutes|
    requires "/" + s.pathAlias + s.publicRoutes[j] == r.urlPath
    ensures Authorize(r, s, parse) == Returned(Allow)
    ensures Authorize(r.(header := other), s, parse) == Returned(Allow)
  {
    assert FullRoute(s.pathAlias, s.publicRoutes[j]) == r.urlPath;
  }

  /**
   * On a secured, non-public route the gate allows a request exactly when its
   * first bearer value carries a credential that parses, with the service
   * secret, as a valid token with map claims.
   */
  lemma SecuredAllowNeedsValidToken(r: Request, s: Service, parse: Parser)
    requires s.secured
    requires !IsPublicPath(s, r.urlPath)
    ensures (Authorize(r, s, parse).Returned? && Authorize(r, s, parse).verdict.ok) <==>
      && AuthorizationHeader in r.header
      && FirstBearer(r.header[AuthorizationHeader]).Some?
      && var parts := SplitOnce(r.header[AuthorizationHeader][FirstBearer(r.header[AuthorizationHeader]).value], ' ');
         && |parts| == 2
         && parse(parts[1], s.secret).Token?
         && parse(parts[1], s.secret).valid
         && parse(parts[1], s.secret).mapClaims.Some?
  {
  }

  /** A secured service denies a non-public request without an `Authorization` header. */
  lemma MissingAuthorizationDenies(r: Request, s: Service, parse: Parser)
    requires s.secured
    requires !IsPublicPath(s, r.urlPath)
    requires AuthorizationHeader !in r.header
    ensures Authorize(r, s, parse) == Returned(Deny)
  {
  }

  /** A request none of whose `Authorization` values is a bearer value is denied. */
  lemma {:induction false} NoBearerDenies(r: Request, s: Service, parse: Parser)
    requires s.secured
    requires !IsPublicPath(s, r.urlPath)
    requires AuthorizationHeader in r.header
    requires forall v :: v in r.header[AuthorizationHeader] ==> !IsBearer(v)
    ensures Authorize(r, s, parse) == Returned(Deny)
  {
    var values := r.header[AuthorizationHeader];
    assert forall j :: 0 <= j < |values| ==> !IsBearer(values[j]) by {
      forall j | 0 <= j < |values| ensures !IsBearer(values[j]) {
        assert values[j] in values;
      }
    }
  }

  /**
   * Only the first bearer value is consulted: whatever follows it among the
   * `Authorization` values (another, valid, token included) never changes
   * the result.
   */
  lemma {:induction false} OnlyFirstBearerConsulted(r: Request, s: Service, parse: Parser, i: nat, rest: seq<string>)
    requires AuthorizationHeader in r.header
    requires FirstBearer(r.header[AuthorizationHeader]) == Some(i)
    ensures Authorize(r.(header := r.header[AuthorizationHeader := r.header[AuthorizationHeader][..i + 1] + rest]),
      s, parse) == Authorize(r, s, parse)
  {
    var values := r.header[AuthorizationHeader];
    var longer := values[..i + 1] + rest;
    assert FirstBearer(longer) == Some(i) && longer[i] == values[i] by {
      FirstBearerOfPrefix(values, i, rest);
    }
    SameFirstBearerSameResult(r, r.(header := r.header[AuthorizationHeader := longer]), s, parse);
  }

  /**
   * The decision depends on the `Authorization` values only through the
   * first bearer value.
   */
  lemma SameFirstBearerSameResult(r1: Request, r2: Request, s: Service, parse: Parser)
    requires r1.urlPath == r2.urlPath
    requires AuthorizationHeader in r1.header && AuthorizationHeader in r2.header
    requires FirstBearer(r1.header[AuthorizationHeader]) == FirstBearer(r2.header[AuthorizationHeader])
    requires FirstBearer(r1.header[AuthorizationHeader]).Some? ==>
      var i := FirstBearer(r1.header[AuthorizationHeader]).value;
      r1.header[AuthorizationHeader][i] == r2.header[AuthorizationHeader][i]
    ensures Authorize(r1, s, parse) == Authorize(r2, s, parse)
  {
  }

  /** The first bearer index is determined by the values up to and including it. */
  lemma {:induction false} FirstBearerOfPrefix(values: seq<string>, i: nat, rest: seq<string>)
    requires FirstBearer(values) == Some(i)
    ensures FirstBearer(values[..i + 1] + rest) == Some(i)
  {
    var longer := values[..i + 1] + rest;
    assert longer[i] == values[i];
    forall j | 0 <= j < i
      ensures !IsBearer(longer[j])
    {
      assert longer[j] == values[j];
    }
    var f := FirstBearer(longer);
    assert f.Some?;
    assert !(f.value < i) && !(f.value > i);
  }

  /**
   * The first bearer value decides, even when its token fails and a later one
   * would pass: the parser's verdict on the first one is returned as it is.
   */
  lemma {:induction false} FirstBearerDecides(r: Request, s: Service, parse: Parser, first: string, second: string)
    requires s.secured
    requires !IsPublicPath(s, r.urlPath)
    requires r.header == map[AuthorizationHeader := ["Bearer " + first, "Bearer " + second]]
    ensures Authorize(r, s, parse) == Returned(ParseJWT(first, s.secret, parse))
  {
    BearerValue(first);
    var values := r.header[AuthorizationHeader];
    assert FirstBearer(values) == Some(0);
  }

  /** `"Bearer " + token` passes the format check and carries exactly `token`. */
  lemma BearerValue(token: string)
    ensures IsBearer("Bearer " + token)
    ensures SplitOnce("Bearer " + token, ' ') == ["Bearer", token]
  {
    assert "Bearer " + token == "Bearer" + " " + token;
    SchemeSplit("Bearer", token);
    LowerBearer();
  }

  /** "Bearer" lower-cases to "bearer". */
  lemma LowerBearer()
    ensures ToLower("Bearer") == "bearer"
  {
    var l := ToLower("Bearer");
    assert l[0] == 'b' && l[1] == 'e' && l[2] == 'a' && l[3] == 'r' && l[4] == 'e' && l[5] == 'r';
  }

  /** Splitting `scheme + " " + rest` at the first space, when the scheme has no space. */
  lemma SchemeSplit(scheme: string, rest: string)
    requires ' ' !in scheme
    ensures SplitOnce(scheme + " " + rest, ' ') == [scheme, rest]
  {
    var s := scheme + " " + rest;
    var parts := SplitOnce(s, ' ');
    assert s[|scheme|] == ' ';
    assert parts[0] == scheme;
  }

  /**
   * A first bearer value with no space in it ("bearer" in any letter case)
   * passes the format check but has no credential part: indexing it panics.
   */
  lemma {:induction false} BareBearerPanics(r: Request, s: Service, parse: Parser, i: nat)
    requires s.secured
    requires !IsPublicPath(s, r.urlPath)
    requires AuthorizationHeader in r.header
    requires FirstBearer(r.header[AuthorizationHeader]) == Some(i)
    requires ' ' !in r.header[AuthorizationHeader][i]
    ensures Authorize(r, s, parse) == Panicked(IndexOutOfRange)
  {
  }

  /** The value "bearer", alone, is such a value. */
  lemma BareBearerIsBearer()
    ensures IsBearer("bearer") && ' ' !in "bearer"
  {
    assert SplitOnce("bearer", ' ') == ["bearer"];
    assert ToLower("bearer") == "bearer";
  }

  /** A value of another scheme is skipped. */
  lemma BasicIsNotBearer(credential: string)
    ensures !IsBearer("Basic " + credential)
  {
    SchemeSplit("Basic", credential);
    assert ToLower("Basic")[0] == 'b';
    assert ToLower("Basic")[1] == 'a';
  }
}
