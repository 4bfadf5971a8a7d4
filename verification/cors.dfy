/** The CORS decision shared by both API routes and the middleware: which origin a response
    names, and the fixed header sets that go with it. */
module Cors {
  import opened Wrappers
  import opened Http

  const DevOrigin := "http://localhost:3000"

  const AllowOriginHeader := "Access-Control-Allow-Origin"
  const AllowMethodsHeader := "Access-Control-Allow-Methods"
  const AllowHeadersHeader := "Access-Control-Allow-Headers"
  const MaxAgeHeader := "Access-Control-Max-Age"
  const AllowCredentialsHeader := "Access-Control-Allow-Credentials"

  const RouteMethods := "GET, POST, OPTIONS"
  const RouteAllowedHeaders := "Content-Type, Authorization"
  const MiddlewareMethods := "GET,DELETE,PATCH,POST,PUT,OPTIONS"
  const MiddlewareAllowedHeaders := "X-CSRF-Token, X-Requested-With, Accept, Accept-Version, Content-Length, Content-MD5, Content-Type, Date, X-Api-Version, Authorization"

  /** The allow-list: the frontend URL, then the local development origin in development. */
  function AllowedOrigins(cfg: Config): seq<string> {
    [cfg.frontendUrl] + (if cfg.development then [DevOrigin] else [])
  }

  /** The origin a response names: the request's own origin when it is listed, the frontend
      URL otherwise. */
  function AllowOrigin(origin: string, cfg: Config): (r: string)
    ensures r in AllowedOrigins(cfg)
    ensures r == origin <==> origin in AllowedOrigins(cfg)
    ensures origin !in AllowedOrigins(cfg) ==> r == cfg.frontendUrl
  {
    if origin in AllowedOrigins(cfg) then origin else cfg.frontendUrl
  }

  /** Development mode adds exactly the local origin to the list. */
  lemma DevelopmentWidensList(cfg: Config)
    ensures AllowedOrigins(cfg.(development := true)) == AllowedOrigins(cfg.(development := false)) + [DevOrigin]
    ensures DevOrigin in AllowedOrigins(cfg) <==> cfg.development || cfg.frontendUrl == DevOrigin
    ensures forall o :: o in AllowedOrigins(cfg) <==> o == cfg.frontendUrl || (cfg.development && o == DevOrigin)
  {
  }

  /** The CORS headers of the two API routes. */
  function RouteHeaders(origin: string, cfg: Config): (h: Headers)
    ensures h.Keys == {AllowOriginHeader, AllowMethodsHeader, AllowHeadersHeader, MaxAgeHeader}
    ensures h[AllowOriginHeader] == AllowOrigin(origin, cfg)
    ensures h[AllowMethodsHeader] == RouteMethods && h[AllowHeadersHeader] == RouteAllowedHeaders
    // preflight results may be cached for a day, 24 * 60 * 60 seconds
    ensures h[MaxAgeHeader] == "86400"
  {
    map[AllowOriginHeader := AllowOrigin(origin, cfg),
        AllowMethodsHeader := RouteMethods,
        AllowHeadersHeader := RouteAllowedHeaders,
        MaxAgeHeader := "86400"]
  }

  /** Only the allowed origin depends on the request; the other route headers are fixed. */
  lemma RouteHeadersFixed(o1: string, o2: string, cfg: Config)
    ensures RouteHeaders(o1, cfg) - {AllowOriginHeader} == RouteHeaders(o2, cfg) - {AllowOriginHeader}
    ensures RouteHeaders(o1, cfg) == RouteHeaders(o2, cfg)[AllowOriginHeader := AllowOrigin(o1, cfg)]
  {
  }

  /** `response` carries every route CORS header for `origin`, possibly among others. */
  predicate CarriesRouteCors(response: Response, origin: string, cfg: Config) {
    forall k :: k in RouteHeaders(origin, cfg) ==>
      k in response.headers && response.headers[k] == RouteHeaders(origin, cfg)[k]
  }

  /** The preflight answer of both API routes: 204, no body, the route CORS headers. */
  function RoutePreflight(originHeader: Option<string>, cfg: Config): (r: Response)
    ensures r.status == 204 && r.body == NoBody
    ensures CarriesRouteCors(r, OriginOf(originHeader), cfg)
    ensures r.headers.Keys == RouteHeaders(OriginOf(originHeader), cfg).Keys
  {
    Response(204, RouteHeaders(OriginOf(originHeader), cfg), NoBody)
  }

  /** The headers the middleware adds to every `/api` response. */
  function MiddlewareHeaders(origin: string, cfg: Config): (h: Headers)
    ensures h.Keys == {AllowOriginHeader, AllowCredentialsHeader, AllowMethodsHeader, AllowHeadersHeader}
    ensures h[AllowOriginHeader] == AllowOrigin(origin, cfg)
    ensures h[AllowCredentialsHeader] == "true"
    ensures h[AllowMethodsHeader] == MiddlewareMethods && h[AllowHeadersHeader] == MiddlewareAllowedHeaders
  {
    map[AllowOriginHeader := AllowOrigin(origin, cfg),
        AllowCredentialsHeader := "true",
        AllowMethodsHeader := MiddlewareMethods,
        AllowHeadersHeader := MiddlewareAllowedHeaders]
  }

  /** Only the allowed origin depends on the request; credentials, methods and allowed headers
      are the same for every origin. */
  lemma MiddlewareHeadersFixed(o1: string, o2: string, cfg: Config)
    ensures MiddlewareHeaders(o1, cfg) - {AllowOriginHeader} == MiddlewareHeaders(o2, cfg) - {AllowOriginHeader}
  {
  }
}
