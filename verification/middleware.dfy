/** The request gate in front of every `/api` route: it computes the CORS headers, answers a
    preflight itself, and lets every other request through with those headers added. */
module Middleware {
  import opened Wrappers
  import opened Http
  import Cors

  /** What the gate does with a request. */
  datatype Outcome =
    | Continue(headers: Headers)    // `NextResponse.next()` carrying the headers
    | Respond(response: Response)   // answered here

  function HeadersOf(r: Outcome): Headers {
    match r
    case Continue(h) => h
    case Respond(response) => response.headers
  }

  function Handle(cfg: Config, requestMethod: string, originHeader: Option<string>): (r: Outcome)
    ensures r.Respond? <==> requestMethod == "OPTIONS"
    ensures r.Respond? ==> r.response.status == 204 && r.response.body == NoBody
    ensures HeadersOf(r) == Cors.MiddlewareHeaders(OriginOf(originHeader), cfg)
    ensures var allowed := HeadersOf(r)[Cors.AllowOriginHeader];
            && allowed in Cors.AllowedOrigins(cfg)
            && (allowed == OriginOf(originHeader) <==> OriginOf(originHeader) in Cors.AllowedOrigins(cfg))
    ensures HeadersOf(r)[Cors.AllowCredentialsHeader] == "true"
  {
    var headers := Cors.MiddlewareHeaders(OriginOf(originHeader), cfg);
    if requestMethod == "OPTIONS" then Respond(Response(204, headers, NoBody)) else Continue(headers)
  }

  /** The gate and the two routes name the same origin for every request. */
  lemma OneOriginDecision(cfg: Config, requestMethod: string, originHeader: Option<string>)
    ensures HeadersOf(Handle(cfg, requestMethod, originHeader))[Cors.AllowOriginHeader]
            == Cors.RoutePreflight(originHeader, cfg).headers[Cors.AllowOriginHeader]
  {
  }
}
