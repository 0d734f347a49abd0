# yxorp request handler: authorization gate and token issuance

yxorp is a small reverse proxy written in Go. It keeps a registry of backend
services. Each service has a path alias, a secret, a `Secured` flag and a
list of public routes. This project models the security core of its request
handler (`request_hander.go`) and proves properties of the model:

- **`getRequestDetails`** splits the request-URI into the method, the service
  alias and the rest of the path.
- **`authorizeRequest`** is the gate:
  - An unsecured service lets everything through.
  - A public route (`"/" + alias + route`, with no separator between alias and
    route) passes without credentials.
  - Otherwise the request needs an `Authorization` header. The first value
    whose scheme lower-cases to `bearer` is parsed as a JWT with the service
    secret, and the parse result is returned as it is.
- **`issueToken`** acts when a backend response carries
  `X-Proxy-Token-Required`:
  - It moves every header whose lower-cased name starts with the lower-cased
    `X-Proxy-Token` prefix out of the response (`removeProxyTokenHeaders`).
  - It picks the token lifetime: two hours, or the parsed `X-Proxy-Token-Exp`.
  - It renames the remaining moved headers into claims by trimming
    `X-Proxy-Token-`.
  - It signs the claims together with `exp` (`createJWT`).
  - It adds `Authorization: Bearer <token>` to the client response, or writes
    status 500 when signing fails.
- **`copyHeaders`** relays the remaining upstream headers, appending each
  value after the writer's own values.

The model is organised by module:

- `Wrappers`: `Option`, `Result`, and the `Panic` outcome of a Go runtime
  index error.
- `Strings`: the Go `strings` functions used: `SplitN(…, 2)`, `TrimPrefix`,
  `HasPrefix` and `ToLower`.
- `Http`: header maps, the request, and the upstream response and
  client-facing writer as classes whose fields change.
- `Types`: the service descriptor of `types.go`.
- `Config`: the reserved header names.
- `Jwt`: claims, the `parseJWT` triple, and signing and parsing as
  function parameters.
- `RequestDetails`, `Authorization`, `TokenHeaders` and `Issuance`: the
  handler's functions.
- `Handler`: how the pieces compose, and concrete scenarios of the
  proxy's intended use.

Functions written as loops in Go are Dafny methods with loops. Each one is
proved equal to a specification function, and the properties are lemmas
about those functions:

| method | specification function |
|---|---|
| `AuthorizeRequest` | `Authorize` |
| `RemoveProxyTokenHeaders` | `Reserved` / `Unreserved` |
| `CopyHeaders` | `Appended` |
| `MapClaims` | `ClaimsInOrder` |
| `CreateJWT` | `JwtClaims` |
| `IssueToken` | `IssuanceOf` |

Go's map iteration order is unspecified. Where it matters (the claims loop,
on renamed-key collisions) it is an explicit parameter `order`, the sequence
in which the loop visits the names. The issuance methods require `order` to
be an enumeration of the claim header names (each name exactly once), which
is what a Go `range` visits. The specification functions accept any order
that visits names of the map. The remove and
copy loops pick names with `:|`, because their result does not depend on the
order.

Time is a parameter: `now` is the current time in Unix nanoseconds, and
durations are in nanoseconds as in Go's `time.Duration`. Duration parsing
(`time.ParseDuration`) is a function parameter returning `None` on error.

## Where the code and the documented intent differ

The model follows the code in every case:

- **Only the first bearer value is tried.** The documented intent is that
  later `Authorization` values are tried until one verifies. The code returns the
  parse result of the first value that passes the format check
  (request_hander.go:111), even when it fails. See
  `Authorization.OnlyFirstBearerConsulted` and
  `Authorization.FirstBearerDecides`.
- **The format check cannot reject a bare scheme.** The check
  `len(parts) > 2` is never true after `SplitN(v, " ", 2)`. So a value made
  of "bearer" alone passes the check, and `parts[1]` at
  request_hander.go:111 panics with index out of range. The model returns
  that panic as an outcome (`Authorization.BareBearerPanics`). An empty
  `X-Proxy-Token-Exp` value list panics the same way at line 122.
- **Only exact names are deleted.** The trigger and lifetime headers are
  removed from the claim headers under their exact names (lines 130-131).
  - A differently cased variant such as `X-Proxy-Token-exp` is still moved
    and becomes a claim.
  - A variant that trims to `exp` overwrites the computed expiry, because
    supplied claims are copied over `exp` (lines 177-179).
  - Trimming `X-Proxy-Token-` is case-sensitive, so `x-proxy-token-role`
    becomes the claim `x-proxy-token-role`, not `role`.
  - Two headers can rename to the same claim. The survivor then depends on
    the map's iteration order (`Issuance.LastWriterWins`).

  The three case-variant effects need a header map whose names were never
  canonicalised. net/http canonicalises the names of a response read through
  `http.DefaultClient.Do`, so a real upstream reply delivers
  `X-Proxy-Token-Exp` and `X-Proxy-Token-Role`. The model keeps names as
  given (see the MIME normalisation line under "Left out").
- **Claim values are lists.** A claim's value is the header's value list
  (`[]string`), not a single string. So the scenario's `Role` claim is
  `["admin"]`.
- **Verified claims include `exp`.** The documented intent is to return
  the token's claims without `exp`. `parseJWT` returns the whole `MapClaims`, `exp` included
  (request_hander.go:199), and so does `Jwt.ParseJWT`.
- **`exp` is in milliseconds.** Line 174 writes `UnixMilli`. A NumericDate
  in section 2 of RFC 7519 counts seconds. So a standard parser such as
  golang-jwt reads the issued `exp` as seconds: it lies about a thousand times
  the current Unix time after the epoch, tens of thousands of years ahead
  whatever the chosen lifetime, and issued tokens in effect never expire. The model keeps
  the milliseconds (`Issuance.ExpiryMillis`).
- **The scenario descriptor is partly assumed.** `main.go` declares its own
  `Service` type without `Secured` and `PublicRoutes`. The registry entry
  `dd-api` (main.go:30-38) also lacks them. The scenarios take `dd-api` as
  secured, with public route `/hash`, and otherwise as in main.go.

## Model

| member | source | states |
|---|---|---|
| Strings.HasPrefix | request_hander.go:155 | `strings.HasPrefix`: the prefix is an initial segment of the string |
| Strings.ToLower | request_hander.go:107 | `strings.ToLower` on ASCII: same length, each letter `A`-`Z` mapped to its lower case, every other character kept |
| Authorization.Authorize | request_hander.go:82-115 | the decision as a function. It allows when the service is unsecured or the path equals a public full route. It denies without `Authorization` or without a value that passes the format check. It panics when the first such value has no credential part. Otherwise it returns `parseJWT` of that credential with the service secret |
| Authorization.FullRoute | request_hander.go:92 | `"/" + alias + route`, with no separator added between alias and route |
| Authorization.IsPublicPath | request_hander.go:91-96 | the path equals the full route of some public route of the service |
| Authorization.IsBearer | request_hander.go:105-107 | the format check. The text before the first space lower-cases to "bearer". The `len(parts) > 2` test is kept and never fires |
| Authorization.SecuredAllowNeedsValidToken | request_hander.go:99-112 | on a secured, non-public route the request is allowed exactly when the first bearer value carries a credential that parses as a valid token with map claims |
| TokenHeaders.IsReserved | request_hander.go:155 | a name is reserved when its lower-cased form starts with the lower-cased `X-Proxy-Token` |
| TokenHeaders.Reserved | request_hander.go:151-162 | the reserved names of the response, with their values: what `removeProxyTokenHeaders` returns |
| TokenHeaders.Unreserved | request_hander.go:151-162 | the other names, with their values: what stays in the response |
| TokenHeaders.Appended | request_hander.go:164-170 | every name of the writer, or of the source with a non-empty list, maps to the writer's values followed by the source's values |
| Issuance.TokenLifetime | request_hander.go:119-128 | the lifetime `issueToken` picks: two hours unless the exact `X-Proxy-Token-Exp` is moved. Then its first value is parsed, keeping the default on a parse error. An empty list panics |
| Issuance.ClaimName | request_hander.go:136 | a claim's name: the header name with `X-Proxy-Token-` removed, case-sensitively, when it starts with it |
| Issuance.ClaimsInOrder | request_hander.go:134-138 | the claims after visiting the names in `order`. Each visited name sets the claim of its trimmed name to its values, so later names overwrite earlier ones |
| Issuance.TokenClaims | request_hander.go:129-140 | the claim set a token is signed over: the claims of the claim headers plus `exp` for the given lifetime |
| Issuance.IssuanceOf | request_hander.go:117-148 | the outcome of `issueToken` for the moved headers. Nothing when none were moved; the panic of the lifetime; a signing error; or the signed token |
| Strings.IndexOf | request_hander.go:105 | the position `SplitN` splits at: the first occurrence of the separator, with none before it, and `None` exactly when it does not occur |
| Http.Values | request_hander.go:120 | the values stored under a name, and the empty list (Go's nil slice) for a missing name |
| Strings.SplitOnce | request_hander.go:105 | `SplitN(s, sep, 2)`: one part equal to `s` exactly when `sep` does not occur, otherwise the text before the first `sep` and the text after it, rejoining to `s` |
| Strings.TrimPrefix | request_hander.go:136 | removes the prefix when `s` starts with it, otherwise leaves `s` unchanged |
| Strings.LowerKeepsPrefix | request_hander.go:155 | lower-casing both strings keeps a prefix a prefix |
| Http.Added | request_hander.go:146 | `Header.Add`: the value is appended to the name's list and every other name keeps its values |
| Http.ResponseWriter.Add | request_hander.go:167 | the writer's headers become `Added(old, name, value)` and the status is untouched |
| Http.ResponseWriter.WriteHeader | request_hander.go:142 | the first status written is kept and headers are untouched |
| RequestDetails.GetRequestDetails | request_hander.go:65-80 | the method is copied and one leading `/` is trimmed; the alias (which has no `/`) and the path rejoin with `/` to the trimmed URI, or the path is empty when there is no `/` |
| RequestDetails.DetailsRoundTrip | request_hander.go:65-80 | a URI built as `"/" + alias + "/" + path` gives back exactly that alias and path |
| RequestDetails.AliasOnly | request_hander.go:72-77 | a URI `"/" + alias` gives that alias and an empty path |
| RequestDetails.SplitUnique | request_hander.go:70 | splitting `alias + "/" + path` at the first `/` gives exactly `[alias, path]` when the alias has no `/` |
| Jwt.ParseJWT | request_hander.go:186-200 | a parse error is passed on with `ok` false; non-map claims give the error "invalid claims"; otherwise `ok` is the token's validity with its claims and no error |
| Authorization.FirstFrom | request_hander.go:104-110 | the least index at or after `start` whose value satisfies the predicate, and `None` exactly when no value from `start` on satisfies it |
| Authorization.FirstBearer | request_hander.go:104-110 | the index the value loop stops at: the least index whose value passes the format check, and `None` exactly when no value passes |
| Authorization.AuthorizeRequest | request_hander.go:82-115 | the loops with their early returns compute exactly `Authorize`: unsecured, public route, missing header, first bearer value (or none), panic on a missing credential, `parseJWT`'s triple |
| Authorization.UnsecuredAllows | request_hander.go:83-86 | an unsecured service allows every request with no claims |
| Authorization.PublicRouteAllows | request_hander.go:88-97 | a secured service allows a request whose path equals `"/" + alias + route` for a public route, whatever its headers |
| Authorization.MissingAuthorizationDenies | request_hander.go:99-102 | a secured, non-public request without `Authorization` is denied |
| Authorization.NoBearerDenies | request_hander.go:104-114 | a secured, non-public request none of whose `Authorization` values passes the format check is denied |
| Authorization.OnlyFirstBearerConsulted | request_hander.go:104-112 | replacing everything after the first bearer value by any other values leaves the decision unchanged |
| Authorization.SameFirstBearerSameResult | request_hander.go:104-112 | two requests with the same path and the same first bearer value (at the same index) get the same decision |
| Authorization.FirstBearerOfPrefix | request_hander.go:104-110 | the first bearer index depends only on the values up to and including it |
| Authorization.FirstBearerDecides | request_hander.go:104-111 | with two bearer tokens, the verdict is `parseJWT` of the first, whatever the second is |
| Authorization.BearerValue | request_hander.go:105-107 | `"Bearer " + token` passes the format check and splits into `["Bearer", token]` |
| Authorization.SchemeSplit | request_hander.go:105 | a scheme without spaces, a space and a rest split into exactly `[scheme, rest]` |
| Authorization.LowerBearer | request_hander.go:107 | "Bearer" lower-cases to "bearer" |
| Authorization.BareBearerPanics | request_hander.go:105-111 | when the first bearer value has no space, the gate panics with index out of range |
| Authorization.BareBearerIsBearer | request_hander.go:107 | "bearer" alone passes the format check and holds no space |
| Authorization.BasicIsNotBearer | request_hander.go:107-108 | a `Basic` value never passes the format check |
| TokenHeaders.PrefixedIsReserved | request_hander.go:155 | a name starting with `X-Proxy-Token` exactly as written is reserved |
| TokenHeaders.Partition | request_hander.go:151-162 | the reserved and unreserved parts are disjoint, together make up the headers and keep every value |
| TokenHeaders.RemoveProxyTokenHeaders | request_hander.go:151-162 | returns exactly the reserved headers, leaves exactly the unreserved ones in the response, and `ok` holds exactly when some name was reserved |
| TokenHeaders.AppendedKeepsExisting | request_hander.go:164-170 | every writer value list keeps its old values at the front, and names the source lacks are unchanged |
| TokenHeaders.AppendedRelaysSource | request_hander.go:164-170 | every non-empty source list is relayed after the writer's values under its own name, and no other name appears |
| TokenHeaders.CopyHeaders | request_hander.go:164-170 | the writer's headers become `Appended(old, src)` and the status is untouched |
| TokenHeaders.AddValues | request_hander.go:166-168 | the values of one name are appended in order after its existing values, and an empty list changes nothing |
| Issuance.LifetimeChoice | request_hander.go:119-128 | the lifetime is the default without `X-Proxy-Token-Exp`, a panic on an empty value list, and otherwise the parsed duration or the default when parsing fails |
| Issuance.ClaimHeaders | request_hander.go:130-131 | the moved headers without the exact trigger and lifetime names, with values unchanged |
| Issuance.EnumerationElements | request_hander.go:135 | a map enumeration holds each name of the map, each exactly once |
| Issuance.CountOfRepeated | request_hander.go:135 | a name at two positions of the order occurs at least twice in it |
| Issuance.ClaimsInOrderKeys | request_hander.go:134-138 | the claim names are exactly the trimmed names visited |
| Issuance.LastWriterWins | request_hander.go:135-138 | a claim holds the values of the last visited header that renames to it |
| Issuance.ClaimsWithoutCollision | request_hander.go:134-138 | without renaming collisions, each claim header becomes the claim of its trimmed name with its values, and there are no other claims |
| Issuance.RenamedVisited | request_hander.go:135-136 | the trimmed names visited by an order that covers the map are the trimmed names of the map |
| Issuance.ClaimOfHeader | request_hander.go:135-138 | with distinct trimmed names, a visited header's claim holds its values |
| Issuance.ClaimsOrderIndependent | request_hander.go:134-138 | without collisions, any two iteration orders give the same claims |
| Issuance.MapClaims | request_hander.go:134-138 | the claims loop computes `ClaimsInOrder` for the order it visits |
| Issuance.ExpiryMillis | request_hander.go:174 | `UnixMilli` of now plus the lifetime, rounded down to the millisecond |
| Issuance.JwtClaims | request_hander.go:173-179 | the signed claims are the supplied claims plus `exp`, and `exp` is the expiry unless a supplied claim named `exp` replaces it |
| Issuance.CreateJWT | request_hander.go:172-184 | signs exactly `JwtClaims(claims, ExpiryMillis(now, lifetime))` with the secret |
| Issuance.IssueToken | request_hander.go:117-148 | the response keeps only unreserved headers; the outcome is `IssuanceOf` the moved headers; the writer gains `Authorization: Bearer <token>` only when a token is issued, and its status becomes 500 (if none was set) only when signing fails |
| Issuance.IssueFromTokenHeaders | request_hander.go:119-146 | from non-empty moved headers: the lifetime, the claims and the signature of `IssuanceOf`, with the writer changed as in `IssueToken` |
| Handler.IssuedTokenAuthorizes | request_hander.go:104-111 | for a signer and parser that agree, an issued token presented first as `Bearer <token>` to a secured non-public route passes, carrying exactly the issued claims |
| Handler.MovedTokenAuthorizes | request_hander.go:104-111 | the same, for any moved headers |
| Handler.RelayedHeadersAfterIssuance | request_hander.go:50-56 | with the trigger present a token is always attempted; unless the lifetime lookup panics (and the handler stops), no reserved name reaches the client; an issued token is the first client `Authorization` value |
| Handler.TriggerIsReserved | request_hander.go:51-52 | the trigger header is always among the moved headers |
| Handler.RelayedHasNoReserved | request_hander.go:56 | copying the unreserved headers onto a writer that holds at most `Authorization` relays no reserved name |
| Handler.AuthorizationNotReserved | request_hander.go:146 | `Authorization` is not a reserved name |
| Handler.RelayedHeadersWithoutTrigger | request_hander.go:56 | without the trigger, every upstream header that has values is relayed with exactly those values |
| Handler.DdApi | main.go:30-38 | the `dd-api` descriptor: secured, secret "marshal", public route `/hash` |
| Handler.PublicHashAllowed | request_hander.go:91-96 | `/dd-api/hash` without credentials is allowed |
| Handler.OtherRouteDenied | request_hander.go:99-102 | `/dd-api/other` without credentials is denied |
| Handler.ScenarioPartition | request_hander.go:151-162 | the three proxy-token headers are moved and only `Content-Type` is relayed |
| Handler.ScenarioClaimHeaders | request_hander.go:130-131 | only the `Role` header is left after the two deletions |
| Handler.ScenarioLifetime | request_hander.go:119-125 | a parsed `30m` is the lifetime |
| Handler.ScenarioRoleClaim | request_hander.go:135-138 | `X-Proxy-Token-Role` becomes the claim `Role` with its values |
| Handler.ScenarioEnumeration | request_hander.go:135 | the single claim header, visited once, is an enumeration |
| Handler.ScenarioJwtClaims | request_hander.go:173-179 | `exp` and the `Role` claim form the signed claim set |
| Handler.IssuanceScenario | request_hander.go:117-140 | trigger, `30m` and `Role: admin` give a 30-minute lifetime and the claims `{exp: now + 30 min in ms, Role: ["admin"]}` |

## Left out

- Forwarding in `requestHandler` (request_hander.go:14-62) is I/O: the registry lookup, the 400 and 401 responses, building and sending the upstream request, and streaming the body. Only how the handler uses the trigger, `issueToken` and `copyHeaders` is modelled, in `Handler`.
- The bootstrap in `main.go` (server, router, registry, environment loader) is left out. main.go's own older `requestHandler` and `getRequestDetails` copies are left out too.
- The `requireTokenHeader` override from the environment (main.go:15) is left out; its fallback `X-Proxy-Token-Required` is a constant.
- `tokenHeaderPrefix` and `tokenExpHeader` are not defined in the files modelled. They are constants `X-Proxy-Token` and `X-Proxy-Token-Exp`.
- Signing (HS256) and `jwt.Parse`, including its expiry check, are cryptographic. They are function parameters. The round-trip property a correct pair has is a hypothesis (`Jwt.SignParseRoundTrip`), true of a token still within its lifetime. Because `exp` is written in milliseconds, a standard parser reads it as tens of thousands of years ahead, so an issued token in effect never expires.
- An issued token being rejected by another service (a different secret) is a property of the cryptography, which is not modelled.
- The clock (`time.Now`) and `time.ParseDuration` are parameters. Durations have no 64-bit bound.
- Issuance.ExpiryMillis: does not model int64 overflow of `time.Time` arithmetic, because the integers are unbounded.
- Go's canonical MIME header-key normalisation (`Header.Add` canonicalises names) is left out. Header names are kept as given, which matches the direct map accesses at lines 51, 99 and 120.
- Strings.ToLower: lower-cases ASCII letters only, not the full Unicode mapping of Go's `strings.ToLower`.
- Logging (`fmt.Println` at lines 34, 60 and 93) is output only and is left out.
- Headers added after `WriteHeader` are ignored by Go's `ResponseWriter`. The writer model keeps them in its map.
- Concurrency: net/http serves each request in its own goroutine. The model treats one request at a time; the modelled functions share no mutable state (the registry is only read).
