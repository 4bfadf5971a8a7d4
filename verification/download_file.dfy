/** The `/api/download-file` route: it validates the configuration and the `path` parameter,
    resolves the path against the remote service's base URL, and relays the file with its
    content headers. */
module DownloadFile {
  import opened Wrappers
  import opened Js
  import opened Http
  import opened Strings
  import Cors
  import Uri

  const ConfigMissing := "Server configuration error. API base URL is not defined."
  const NoPath := "No file path provided"
  const InvalidDownloadUrl := "Server configuration error. Invalid download URL."
  const DownloadFailed := "Failed to download file"
  const Unexpected := "Failed to download file. Please try again."
  const DefaultContentType := "application/octet-stream"
  /** `attachment; filename="processed_crime_stats.xlsx"`, written as its parts. */
  const DefaultDisposition := "attachment; " + "filename=" + "\"" + "processed_crime_stats" + ".xlsx" + "\""
  const ContentTypeHeader := "Content-Type"
  const ContentDispositionHeader := "Content-Disposition"

  /** Where the file is fetched from: a path starting with `http` is taken as it is, any other
      path is resolved against the base URL. The test is a plain prefix test. */
  function ResolveTarget(path: string, base: string, parseUrl: UrlParser): (r: Option<string>)
    ensures StartsWith(path, "http") ==> r == Some(path)
    ensures !StartsWith(path, "http") ==> r == parseUrl(path, base)
  {
    if StartsWith(path, "http") then Some(path) else parseUrl(path, base)
  }

  /** The route CORS headers plus the relayed content type and disposition. */
  function FileHeaders(origin: string, cfg: Config, upstream: Headers): (h: Headers)
    ensures h.Keys == Cors.RouteHeaders(origin, cfg).Keys + {ContentTypeHeader, ContentDispositionHeader}
    ensures h[ContentTypeHeader] == HeaderOr(upstream, "content-type", DefaultContentType)
    ensures h[ContentDispositionHeader] == HeaderOr(upstream, "content-disposition", DefaultDisposition)
    ensures forall k :: k in Cors.RouteHeaders(origin, cfg) ==> h[k] == Cors.RouteHeaders(origin, cfg)[k]
  {
    Cors.RouteHeaders(origin, cfg)[ContentTypeHeader := HeaderOr(upstream, "content-type", DefaultContentType)]
                                  [ContentDispositionHeader := HeaderOr(upstream, "content-disposition", DefaultDisposition)]
  }

  function Failure(status: int, origin: string, cfg: Config, detail: string): Response {
    Response(status, Cors.RouteHeaders(origin, cfg), DetailJson(Str(detail)))
  }

  /** The `GET` handler. `query` is the request URL's query, `parseUrl` stands for the URL
      constructor and `fetched` for how the upstream `fetch` settles. */
  function Get(cfg: Config, originHeader: Option<string>, query: string, parseUrl: UrlParser,
               fetched: FetchOutcome): (r: Exchange)
    ensures Cors.CarriesRouteCors(r.response, OriginOf(originHeader), cfg)
    // validation order: base URL, then path, and only then a URL is formed
    ensures cfg.apiBaseUrl == "" ==>
              r == Exchange(Failure(500, OriginOf(originHeader), cfg, ConfigMissing), None)
    ensures var path := Uri.SearchGet(Uri.ParseForm(query), "path");
            cfg.apiBaseUrl != "" && (path.None? || path.value == "") ==>
              r == Exchange(Failure(400, OriginOf(originHeader), cfg, NoPath), None)
    // a path the URL constructor rejects is a configuration error
    ensures var path := Uri.SearchGet(Uri.ParseForm(query), "path");
            cfg.apiBaseUrl != "" && path.Some? && path.value != "" &&
            ResolveTarget(path.value, cfg.apiBaseUrl, parseUrl).None? ==>
              r == Exchange(Failure(500, OriginOf(originHeader), cfg, InvalidDownloadUrl), None)
    // the one upstream call fetches the resolved path
    ensures var path := Uri.SearchGet(Uri.ParseForm(query), "path");
            r.upstream.Some? <==>
              cfg.apiBaseUrl != "" && path.Some? && path.value != "" &&
              ResolveTarget(path.value, cfg.apiBaseUrl, parseUrl).Some?
    ensures var path := Uri.SearchGet(Uri.ParseForm(query), "path");
            r.upstream.Some? ==>
              path.Some? && r.upstream.value == GetUrl(ResolveTarget(path.value, cfg.apiBaseUrl, parseUrl).value)
    // a 2xx answer comes only with the file, and every error body has a non-empty detail
    ensures IsOk(r.response.status) <==> r.response.body.Binary?
    ensures r.response.body.DetailJson? ==> Truthy(r.response.body.detail)
    // relayed refusal and relayed file
    ensures r.upstream.Some? && fetched.Answered? && !IsOk(fetched.answer.status) && !NullBodyStatus(fetched.answer.status) ==>
              r.response == Failure(fetched.answer.status, OriginOf(originHeader), cfg, DownloadFailed)
    ensures r.upstream.Some? && fetched.Answered? && IsOk(fetched.answer.status) ==>
              r.response.status == 200 && r.response.body == Binary(fetched.answer.bytes) &&
              r.response.headers == FileHeaders(OriginOf(originHeader), cfg, fetched.answer.headers)
    // a rejected fetch, and a refusal whose status cannot carry a body, end as the generic 500
    ensures r.upstream.Some? && (fetched.Rejected? || (!IsOk(fetched.answer.status) && NullBodyStatus(fetched.answer.status))) ==>
              r.response == Failure(500, OriginOf(originHeader), cfg, Unexpected)
  {
    var origin := OriginOf(originHeader);
    if cfg.apiBaseUrl == "" then
      Exchange(Failure(500, origin, cfg, ConfigMissing), None)
    else
      match Uri.SearchGet(Uri.ParseForm(query), "path")
      case None => Exchange(Failure(400, origin, cfg, NoPath), None)
      case Some(path) =>
        if path == "" then Exchange(Failure(400, origin, cfg, NoPath), None)
        else
          match ResolveTarget(path, cfg.apiBaseUrl, parseUrl)
          case None => Exchange(Failure(500, origin, cfg, InvalidDownloadUrl), None)
          case Some(url) =>
            var call := Some(GetUrl(url));
            match fetched
            case Rejected(_) => Exchange(Failure(500, origin, cfg, Unexpected), call)
            case Answered(answer) =>
              if !IsOk(answer.status) then
                // `NextResponse.json` throws on a body with such a status; the catch answers
                if NullBodyStatus(answer.status) then Exchange(Failure(500, origin, cfg, Unexpected), call)
                else Exchange(Failure(answer.status, origin, cfg, DownloadFailed), call)
              else
                Exchange(Response(200, FileHeaders(origin, cfg, answer.headers), Binary(answer.bytes)), call)
  }

  /** The `http` test is on the text only: any path with that prefix, `httpx/report` as much as
      `https://host/report`, is fetched verbatim, and the URL constructor is never consulted. */
  lemma PrefixDecidesVerbatim(cfg: Config, originHeader: Option<string>, query: string, path: string,
                              parse1: UrlParser, parse2: UrlParser, fetched: FetchOutcome)
    requires cfg.apiBaseUrl != ""
    requires Uri.SearchGet(Uri.ParseForm(query), "path") == Some(path) && StartsWith(path, "http")
    ensures Get(cfg, originHeader, query, parse1, fetched) == Get(cfg, originHeader, query, parse2, fetched)
    ensures Get(cfg, originHeader, query, parse1, fetched).upstream == Some(GetUrl(path))
  {
  }
}
