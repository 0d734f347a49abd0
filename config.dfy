/** The reserved header names of the proxy's signalling vocabulary. */
module Config {

  /** Prefix, matched case-insensitively, of every proxy-token header. */
  const TokenHeaderPrefix: string := "X-Proxy-Token"

  /** Response header whose first value overrides the token lifetime. */
  const TokenExpHeader: string := "X-Proxy-Token-Exp"

  /** Response header that asks the proxy to issue a token (default of `requireTokenHeader`). */
  const RequireTokenHeader: string := "X-Proxy-Token-Required"

  /** Request header carrying credentials; response header carrying an issued token. */
  const AuthorizationHeader: string := "Authorization"
}
