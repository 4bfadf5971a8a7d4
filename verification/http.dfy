/** Requests and responses as the handlers see them. The network is not modelled: what the remote
    service answers is an input value, and what a handler sends it is part of the output. */
module Http {
  import opened Wrappers
  import opened Js
  import Utf8

  /** Header name to value. Fetch header names are case-insensitive; every name this model
      writes is distinct from the others ignoring case, and upstream names are kept in lower case. */
  type Headers = map<string, string>

  /** The statuses a Fetch response carries: the range 200 to 599 the Response constructor
      accepts. A status in that range can still be refused together with a body: see
      `NullBodyStatus`. */
  type Status = s: int | 200 <= s <= 599 witness 200

  /** The null body statuses of the Fetch standard. The Response constructor, and with it
      `NextResponse.json`, throws a TypeError when it is given one of them together with a body.
      Of those a Fetch response can carry, 204 and 205 are ok, so 304 is the only one a handler
      relaying a refusal can meet. */
  predicate NullBodyStatus(status: int) {
    status == 101 || status == 103 || status == 204 || status == 205 || status == 304
  }

  /** `response.ok` */
  predicate IsOk(status: int) {
    200 <= status <= 299
  }

  /** What a handler puts in the body of its response. */
  datatype Body =
    | NoBody
    | DetailJson(detail: JsValue)          // `{ detail }`
    | DownloadJson(downloadUrl: string)    // `{ download_url }`
    | Binary(bytes: seq<Utf8.Byte>)

  datatype Response = Response(status: int, headers: Headers, body: Body)

  /** A multipart form entry: a file, identified by the object it is, or a string. */
  datatype FormValue = FileValue(file: nat) | TextValue(text: string)
  datatype FormEntry = FormEntry(name: string, value: FormValue)
  type Form = seq<FormEntry>

  /** `await response.json()`: the parsed object, or the message of the SyntaxError it throws. */
  datatype JsonBody = Parsed(obj: JsonObject) | Unparsable(message: string)

  /** A response of the remote service. Each handler reads its body once, either as JSON or as
      bytes, so both readings are given. Header names are in lower case. */
  datatype Answer = Answer(status: Status, headers: Headers, json: JsonBody, bytes: seq<Utf8.Byte>)

  /** How an awaited `fetch` settles: it rejects (network failure) or it yields a response. */
  datatype FetchOutcome = Rejected(reason: string) | Answered(answer: Answer)

  /** The one request a handler sends to the remote service. */
  datatype UpstreamCall = PostForm(url: string, form: Form) | GetUrl(url: string)

  /** A handled request: the response, and the upstream request made on the way, if any. */
  datatype Exchange = Exchange(response: Response, upstream: Option<UpstreamCall>)

  /** `new URL(input, base).toString()`, or `None` where the constructor throws. URL parsing
      itself is not part of this model. */
  type UrlParser = (string, string) -> Option<string>

  /** The deployment settings: the canonical frontend origin, the remote service's base URL and
      whether `NODE_ENV` is `development`. */
  datatype Config = Config(frontendUrl: string, apiBaseUrl: string, development: bool)

  /** `headers.get(name)` on upstream headers. */
  function HeaderGet(headers: Headers, name: string): Option<string> {
    if name in headers then Some(headers[name]) else None
  }

  /** `headers.get(name) || fallback`: a missing or empty header gives `fallback`. */
  function HeaderOr(headers: Headers, name: string, fallback: string): (v: string)
    ensures fallback != "" ==> v != ""
    ensures name in headers && headers[name] != "" ==> v == headers[name]
    ensures !(name in headers && headers[name] != "") ==> v == fallback
  {
    match HeaderGet(headers, name)
    case Some(v) => if v == "" then fallback else v
    case None => fallback
  }

  /** `request.headers.get('origin') || ''` */
  function OriginOf(header: Option<string>): string {
    header.GetOr("")
  }
}
