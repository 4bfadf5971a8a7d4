/** The `/api/process-crimes` route: it checks the configuration, rebuilds the uploaded form,
    forwards it to the remote service, relays failures and rewrites the returned download URL
    into a link to the `/api/download-file` route. */
module ProcessCrimes {
  import opened Wrappers
  import opened Js
  import opened Http
  import Cors
  import Seqs
  import Strings
  import Uri

  const ConfigMissing := "Server configuration error. API base URL is not defined."
  const InvalidApiUrl := "Server configuration error. Invalid API URL."
  const ProcessingFailed := "Failed to process files"
  const Unexpected := "Failed to process files. Please try again."
  const ProcessPath := "/process-crimes/"
  const DownloadRoute := "/api/download-file"
  const PathParam := "path"
  /** `/api/download-file?path=` */
  const LinkPrefix := DownloadRoute + "?" + PathParam + "="
  const DefaultMergeType := "vertical"

  predicate IsFilesPart(e: FormEntry) {
    e.name == "files"
  }

  /** `formData.get(name)`: the value of the first entry called `name`. */
  function FirstValue(form: Form, name: string): (r: Option<FormValue>)
    ensures r.Some? <==> exists i :: 0 <= i < |form| && form[i].name == name
    ensures r.Some? ==> exists i :: 0 <= i < |form| && form[i] == FormEntry(name, r.value) &&
                                    forall j :: 0 <= j < i ==> form[j].name != name
  {
    if |form| == 0 then None
    else if form[0].name == name then Some(form[0].value)
    else FirstValue(form[1..], name)
  }

  /** `formData.get('merge_type') as string || 'vertical'`: a missing or empty value becomes
      `vertical`; any other value, a file included, is passed on as it came. */
  function MergeType(form: Form): (v: FormValue)
    ensures v != TextValue("")
    ensures FirstValue(form, "merge_type").None? || FirstValue(form, "merge_type") == Some(TextValue("")) ==>
              v == TextValue(DefaultMergeType)
    ensures forall t :: FirstValue(form, "merge_type") == Some(TextValue(t)) && t != "" ==> v == TextValue(t)
    ensures forall f :: FirstValue(form, "merge_type") == Some(FileValue(f)) ==> v == FileValue(f)
  {
    match FirstValue(form, "merge_type")
    case None => TextValue(DefaultMergeType)
    case Some(TextValue(t)) => if t == "" then TextValue(DefaultMergeType) else TextValue(t)
    case Some(f) => f
  }

  /** The form forwarded upstream: every `files` entry, in order, then one `merge_type`. */
  function RebuildForm(incoming: Form): (out: Form)
    ensures |out| >= 1 && out[|out| - 1] == FormEntry("merge_type", MergeType(incoming))
    ensures forall i :: 0 <= i < |out| - 1 ==> out[i].name == "files"
    ensures forall e :: e in out[..|out| - 1] <==> e in incoming && e.name == "files"
  {
    var files := Seqs.Filter(incoming, IsFilesPart);
    var out := files + [FormEntry("merge_type", MergeType(incoming))];
    assert out[..|out| - 1] == files;
    out
  }

  /** Each `files` entry is forwarded as often as it came, and nothing else is forwarded
      before the `merge_type` entry. */
  lemma RebuildFormCounts(incoming: Form, e: FormEntry)
    ensures var out := RebuildForm(incoming);
            multiset(out[..|out| - 1])[e] == if e.name == "files" then multiset(incoming)[e] else 0
  {
    var out := RebuildForm(incoming);
    assert out[..|out| - 1] == Seqs.Filter(incoming, IsFilesPart);
    Seqs.FilterCount(incoming, IsFilesPart, e);
  }

  /** The `files` entries of a concatenated upload come forward in the same order. */
  lemma RebuildKeepsOrder(a: Form, b: Form)
    ensures var out := RebuildForm(a + b);
            out[..|out| - 1] == Seqs.Filter(a, IsFilesPart) + Seqs.Filter(b, IsFilesPart)
  {
    Seqs.FilterConcat(a, b, IsFilesPart);
    var out := RebuildForm(a + b);
    assert out[..|out| - 1] == Seqs.Filter(a + b, IsFilesPart);
  }

  /** `/api/download-file?path=${encodeURIComponent(url)}` */
  function DownloadLink(url: string): (link: string)
    ensures Strings.StartsWith(link, LinkPrefix)
    ensures Uri.WellEncoded(link[|LinkPrefix|..])
  {
    var link := LinkPrefix + Uri.EncodeUriComponent(url);
    assert link[|LinkPrefix|..] == Uri.EncodeUriComponent(url);
    link
  }

  /** A JSON error response with the route CORS headers. */
  function Failure(status: int, origin: string, cfg: Config, detail: JsValue): Response {
    Response(status, Cors.RouteHeaders(origin, cfg), DetailJson(detail))
  }

  /** The `POST` handler. `form` is the request's form data (`None` where reading it throws),
      `parseUrl` stands for the URL constructor and `fetched` for how the upstream `fetch`
      settles. */
  function Post(cfg: Config, originHeader: Option<string>, form: Option<Form>, parseUrl: UrlParser,
                fetched: FetchOutcome): (r: Exchange)
    // every path, errors included, carries the CORS headers
    ensures Cors.CarriesRouteCors(r.response, OriginOf(originHeader), cfg)
    // configuration first: no form read, no upstream call
    ensures cfg.apiBaseUrl == "" ==>
              r == Exchange(Failure(500, OriginOf(originHeader), cfg, Str(ConfigMissing)), None)
    // a processing URL the URL constructor rejects is a configuration error
    ensures cfg.apiBaseUrl != "" && form.Some? && parseUrl(ProcessPath, cfg.apiBaseUrl).None? ==>
              r == Exchange(Failure(500, OriginOf(originHeader), cfg, Str(InvalidApiUrl)), None)
    // the one upstream call posts the rebuilt form to the resolved processing URL
    ensures r.upstream.Some? <==>
              cfg.apiBaseUrl != "" && form.Some? && parseUrl(ProcessPath, cfg.apiBaseUrl).Some?
    ensures r.upstream.Some? ==>
              r.upstream.value == PostForm(parseUrl(ProcessPath, cfg.apiBaseUrl).value, RebuildForm(form.value))
    // a 2xx answer comes only with a download link, and every error body has a non-empty detail
    ensures IsOk(r.response.status) <==> r.response.body.DownloadJson?
    ensures r.response.body.DetailJson? ==> Truthy(r.response.body.detail)
    // an upstream refusal is relayed with its own status, unless that status cannot carry a body
    ensures r.upstream.Some? && fetched.Answered? && fetched.answer.json.Parsed? &&
            !IsOk(fetched.answer.status) && !NullBodyStatus(fetched.answer.status) ==>
              r.response == Failure(fetched.answer.status, OriginOf(originHeader), cfg,
                                    Or(Field(fetched.answer.json.obj, "detail"), ProcessingFailed))
    // success: the upstream download URL becomes a link to the download route
    ensures r.upstream.Some? && fetched.Answered? && fetched.answer.json.Parsed? && IsOk(fetched.answer.status) ==>
              r.response == Response(200, Cors.RouteHeaders(OriginOf(originHeader), cfg),
                                     DownloadJson(DownloadLink(ToString(Field(fetched.answer.json.obj, "download_url")))))
    // whatever throws on the way ends as the generic 500: reading the form, the fetch, the JSON
    // body, or relaying a refusal whose status cannot carry a body
    ensures cfg.apiBaseUrl != "" && (form.None? || (r.upstream.Some? && (fetched.Rejected? || fetched.answer.json.Unparsable? ||
                                                                          (!IsOk(fetched.answer.status) && NullBodyStatus(fetched.answer.status))))) ==>
              r.response == Failure(500, OriginOf(originHeader), cfg, Str(Unexpected))
  {
    var origin := OriginOf(originHeader);
    if cfg.apiBaseUrl == "" then
      Exchange(Failure(500, origin, cfg, Str(ConfigMissing)), None)
    else
      match form
      case None => Exchange(Failure(500, origin, cfg, Str(Unexpected)), None)
      case Some(incoming) =>
        var outgoing := RebuildForm(incoming);
        match parseUrl(ProcessPath, cfg.apiBaseUrl)
        case None => Exchange(Failure(500, origin, cfg, Str(InvalidApiUrl)), None)
        case Some(url) =>
          var call := Some(PostForm(url, outgoing));
          match fetched
          case Rejected(_) => Exchange(Failure(500, origin, cfg, Str(Unexpected)), call)
          case Answered(answer) =>
            match answer.json
            case Unparsable(_) => Exchange(Failure(500, origin, cfg, Str(Unexpected)), call)
            case Parsed(obj) =>
              if !IsOk(answer.status) then
                // `NextResponse.json` throws on a body with such a status; the catch answers
                if NullBodyStatus(answer.status) then Exchange(Failure(500, origin, cfg, Str(Unexpected)), call)
                else Exchange(Failure(answer.status, origin, cfg, Or(Field(obj, "detail"), ProcessingFailed)), call)
              else
                var link := DownloadLink(ToString(Field(obj, "download_url")));
                Exchange(Response(200, Cors.RouteHeaders(origin, cfg), DownloadJson(link)), call)
  }

  /** Without a base URL the answer does not depend on the request body, the URL constructor or
      the remote service: none of them is consulted. */
  lemma ConfigCheckedFirst(cfg: Config, originHeader: Option<string>,
                           form1: Option<Form>, parse1: UrlParser, fetched1: FetchOutcome,
                           form2: Option<Form>, parse2: UrlParser, fetched2: FetchOutcome)
    requires cfg.apiBaseUrl == ""
    ensures Post(cfg, originHeader, form1, parse1, fetched1) == Post(cfg, originHeader, form2, parse2, fetched2)
    ensures Post(cfg, originHeader, form1, parse1, fetched1).upstream.None?
  {
  }

  /** The link handed to the browser leads back to the original download URL: the download
      route's `searchParams.get('path')` reads exactly the string that was encoded. */
  lemma DownloadLinkRoundTrip(url: string)
    ensures Uri.SearchGet(Uri.ParseForm(Uri.QueryOf(DownloadLink(url))), "path") == Some(url)
  {
    Uri.QueryParamRoundTrip(DownloadRoute, PathParam, url);
  }
}
