/** The service descriptor kept in the registry (types.go). */
module Types {

  /**
   * One registered backend. `pathAlias` is the first path segment that selects
   * it; `secret` both verifies inbound bearer tokens and signs issued ones;
   * when `secured` is false every request passes; `publicRoutes` are sub-paths
   * of the alias that pass without a token.
   */
  datatype Service = Service(
    name: string,
    baseUrl: string,
    pathAlias: string,
    serviceToken: string,
    secret: string,
    lastUsed: int,
    enabled: bool,
    secured: bool,
    publicRoutes: seq<string>)
}
