/**
 * Signed claim sets (JSON Web Tokens, RFC 7519, signed with HS256 as in
 * section 3.2 of RFC 7518). Signing and parsing are cryptographic and are
 * kept abstract: the model receives them as function parameters.
 */
module Jwt {
  import opened Wrappers

  /** A claim value: the header values a backend declared, or a number such as `exp`. */
  datatype ClaimValue = Text(values: seq<string>) | Number(n: int)

  /** `jwt.MapClaims`. */
  type Claims = map<string, ClaimValue>

  /**
   * What `jwt.Parse` yields for a token and a key: a parsed token (whether it
   * is valid, and its claims when they are a `MapClaims`) or an error.
   */
  datatype Parsed = Token(valid: bool, mapClaims: Option<Claims>) | ParseError(message: string)

  /** `jwt.Parse(token, key)`, abstract. */
  type Parser = (string, string) -> Parsed

  /** `t.SignedString(key)` for a token over the given claims, abstract: a token or an error. */
  type Signer = (Claims, string) -> Result<string, string>

  /** The `(bool, jwt.MapClaims, error)` triple that `parseJWT` and `authorizeRequest` return. */
  datatype Verdict = Verdict(ok: bool, claims: Option<Claims>, err: Option<string>)

  /**
   * `parseJWT`: a parse error is passed on with `ok` false; claims that are not
   * a `MapClaims` give the error "invalid claims"; otherwise `ok` is the
   * token's validity and the claims are returned.
   */
  function ParseJWT(token: string, secret: string, parse: Parser): (v: Verdict)
    ensures v.err.None? <==> parse(token, secret).Token? && parse(token, secret).mapClaims.Some?
    ensures v.err.Some? ==> !v.ok && v.claims.None?
    ensures parse(token, secret).Token? && parse(token, secret).mapClaims.None? ==> v.err == Some("invalid claims")
    ensures parse(token, secret).ParseError? ==> v.err == Some(parse(token, secret).message)
    ensures v.err.None? ==> v.ok == parse(token, secret).valid && v.claims == parse(token, secret).mapClaims
  {
    match parse(token, secret)
    case ParseError(e) => Verdict(false, None, Some(e))
    case Token(valid, None) => Verdict(false, None, Some("invalid claims"))
    case Token(valid, Some(claims)) => Verdict(valid, Some(claims), None)
  }

  /**
   * The property a correct signer/parser pair has: a token signed with a
   * secret parses, with that secret, as a valid token carrying exactly the
   * signed claims. (The real parser also rejects expired tokens; this is the
   * property for a token still within its lifetime.)
   */
  ghost predicate SignParseRoundTrip(sign: Signer, parse: Parser) {
    forall claims: Claims, secret: string {:trigger sign(claims, secret)} ::
      sign(claims, secret).Success? ==>
        parse(sign(claims, secret).value, secret) == Token(true, Some(claims))
  }
}
