# crime-stat-webapp-demo: the proxy routes, the CORS decision and the dashboard workflow

The repository is a Next.js web page for a remote crime-statistics service. It also holds two
server routes that forward to that service. This project models the decision logic of that glue
as pure Dafny functions over immutable data, and proves what the code promises about it.

- **CORS** (`Cors`): the origin decision, which appears three times in the code. An origin on the
  allow-list is echoed back; any other origin is replaced by the frontend URL. The allow-list is
  the frontend URL, plus `http://localhost:3000` in development. The module also holds the fixed
  header sets of the two routes and of the middleware. The two route copies of `getCorsHeaders`
  are character-for-character identical, so one function models both.
- **`POST /api/process-crimes`** (`ProcessCrimes`):
  - checks the configuration before anything else;
  - rebuilds the uploaded form;
  - relays an upstream refusal with its status and `detail` (except 304, see below);
  - rewrites the returned `download_url` into `/api/download-file?path=` followed by
    `encodeURIComponent` of it;
  - answers a failing URL constructor with 500 `Server configuration error. Invalid API URL.`;
  - turns every other thrown exception into the generic 500.
- **`GET /api/download-file`** (`DownloadFile`):
  - checks the base URL, then the `path` parameter;
  - takes a path starting with `http` verbatim and resolves any other path against the base URL,
    answering a failing URL constructor with 500 `Server configuration error. Invalid download URL.`;
  - relays upstream failures (except 304, see below);
  - copies the file with default `Content-Type` and `Content-Disposition` headers.
- **OPTIONS** (`Cors.RoutePreflight`): the 204 preflight of both routes.
- **Middleware** (`Middleware`): it adds its own header set to every `/api` response and answers
  `OPTIONS` itself.
- **Dashboard** (`Dashboard`, `DownloadName`), in `src/components/modern-crime-stats-dashboard.tsx`:
  - the file queue: drop, select, remove and clear;
  - the progress animation `min(p + 5, 90)` and the processing run, with its interval timer
    counted as live or cleared;
  - the download: the `YYYYMMDD-HHMMSS` stamp and the saved file name taken from
    `Content-Disposition`.
- **Supporting modules**:
  - `Uri`: `encodeURIComponent` (section 19.2.6 of ECMA-262) over full UTF-8 (`Utf8`). It also
    models how the download route reads `path` back: the URL parser's query state and
    application/x-www-form-urlencoded parsing, both from the WHATWG URL Standard.
  - `Js`: JavaScript truthiness, `||` and `String()`.
  - `Http`: requests, responses and upstream outcomes.
  - `Seqs`: order-preserving filtering.
  - `Strings`: string helpers.
  - `EndToEnd`: how the page, the process route and the download route would compose if the
    page's requests went through the routes. The page as written calls the remote host directly,
    so these lemmas describe the parts fitting together, not a path the page takes.
  - `Scenarios`: one worked intake example.

Network results are input values (`FetchOutcome`). Each handler returns the response together
with the one upstream request it made, so "no upstream call" is a statement about the result.
The URL constructor is a parameter (`UrlParser`). The configuration (`Config`: frontend URL,
base URL, development flag) is a parameter too. The clock reading is a `LocalTime` value.

Facts about the code that shape the model:

- The page calls the hard-coded service `https://apicrimestat.rvcodes.com` directly
  (src/components/modern-crime-stats-dashboard.tsx:23, 93, 129). It does not go through the
  `/api` proxy routes.
- The page stores `API_BASE_URL + download_url`, not the bare returned path.
- The middleware sends `Access-Control-Allow-Credentials` and no `Access-Control-Max-Age`.
- Both routes relay an upstream refusal with `NextResponse.json` and the upstream status. For
  304, a null body status in the Fetch standard, the constructor throws a TypeError, so the
  route's `catch` answers with its generic 500 instead. 204 and 205, the other null body
  statuses a fetch can return, are ok and never relayed.
- The progress interval is cleared by the `clearInterval` call at
  src/components/modern-crime-stats-dashboard.tsx:98, which runs only once `fetch` resolves. When
  `fetch` rejects, the `catch` skips it and the interval keeps running (see Findings).

## Model

| member | source | states |
|---|---|---|
| Cors.AllowOrigin | src/app/api/process-crimes/route.ts:120-133 | The emitted origin is always on the allow-list. It equals the request origin exactly when that origin is listed, and is the frontend URL otherwise, so a disallowed origin is never echoed. The copy in src/app/api/download-file/route.ts:128-141 is identical. |
| Cors.DevelopmentWidensList | src/app/api/process-crimes/route.ts:120-123 | Development mode appends exactly `http://localhost:3000` to the list. That origin is listed iff in development or it is the frontend URL. An origin is listed iff it is the frontend URL or, in development, the local one. |
| Cors.RouteHeaders | src/app/api/process-crimes/route.ts:116-140 | A route sets exactly four CORS headers: allow-origin, methods, allowed headers and max-age. The allow-origin value is the origin decision. The methods are `GET, POST, OPTIONS`, the allowed headers `Content-Type, Authorization`, and preflight results may be cached for 86400 seconds, one day. The download route's copy is src/app/api/download-file/route.ts:124-148. |
| Cors.RouteHeadersFixed | src/app/api/process-crimes/route.ts:135-137 | Two origins give the same route headers apart from allow-origin. |
| Cors.RoutePreflight | src/app/api/process-crimes/route.ts:7-14 | `OPTIONS` on either route gives 204 with no body and exactly the route CORS headers for the request origin (also src/app/api/download-file/route.ts:7-14). Under the middleware's `/api/:path*` matcher, the middleware answers every `OPTIONS` first, so these handlers are not reached while it is installed. |
| Cors.MiddlewareHeaders | src/middleware.ts:14-32 | The middleware sets exactly allow-origin, credentials, methods and allowed headers. Allow-origin is the shared origin decision and credentials is `true`. The methods are `GET,DELETE,PATCH,POST,PUT,OPTIONS` and the allowed headers are its ten-name list. |
| Cors.MiddlewareHeadersFixed | src/middleware.ts:30-32 | Credentials, the six-method list and the allowed-headers list are the same for every origin. |
| Middleware.Handle | src/middleware.ts:6-43 | The gate answers iff the method is `OPTIONS`, then with 204 and no body. The headers the middleware sets are exactly its four CORS headers. Their allow-origin is listed and echoes the origin iff it is allowed, and credentials is `true`. |
| Middleware.OneOriginDecision | src/middleware.ts:14-28 | The middleware and the routes name the same allowed origin for every request. |
| ProcessCrimes.FirstValue | src/app/api/process-crimes/route.ts:54 | `formData.get`: a value is found iff some entry has that name, and the value found is that of the first such entry. |
| ProcessCrimes.MergeType | src/app/api/process-crimes/route.ts:54 | The forwarded `merge_type` is never empty. A non-empty incoming text value or an incoming file is passed on as it is. A missing or empty value becomes `vertical`. |
| ProcessCrimes.RebuildForm | src/app/api/process-crimes/route.ts:42-54 | The forwarded form ends with one `merge_type` entry carrying `MergeType`. Every earlier entry is a `files` entry, and an entry is among them iff it is an incoming `files` entry. |
| ProcessCrimes.RebuildFormCounts | src/app/api/process-crimes/route.ts:42-51 | Each `files` entry is forwarded as many times as it came, and no other entry is forwarded before `merge_type`. |
| ProcessCrimes.RebuildKeepsOrder | src/app/api/process-crimes/route.ts:49-51 | The files of an upload `a + b` are forwarded as those of `a`, then those of `b`. |
| ProcessCrimes.DownloadLink | src/app/api/process-crimes/route.ts:97 | The link starts with `/api/download-file?path=`. The rest contains only unreserved characters and `%XX` triples with upper-case hexadecimal digits. |
| ProcessCrimes.Post | src/app/api/process-crimes/route.ts:20-111 | Every response carries the CORS headers. A missing base URL gives 500 and no upstream call. There is an upstream call iff the config, form and URL all succeed, and it posts the rebuilt form. 2xx comes iff a link is returned. Error details are truthy. A refusal relays its status, the route CORS headers and `detail`, or `Failed to process files`. A refusal with status 304, a null body status, makes `NextResponse.json` throw and ends as the generic 500 `Failed to process files. Please try again.`, like a rejected fetch, an unreadable form or an unparsable body. Success is 200 with the route CORS headers and the link to the download route. A failing URL constructor gives 500 `Server configuration error. Invalid API URL.` and no upstream call. |
| ProcessCrimes.ConfigCheckedFirst | src/app/api/process-crimes/route.ts:29-38 | Without a base URL the response depends on neither the form, the URL constructor nor the upstream answer, and no call is made. |
| ProcessCrimes.DownloadLinkRoundTrip | src/app/api/process-crimes/route.ts:97 | Requesting the returned link, `searchParams.get('path')` gives back exactly the original URL, for every string of Unicode scalar values. |
| DownloadFile.ResolveTarget | src/app/api/download-file/route.ts:58-64 | A path starting with `http` is taken verbatim. Any other path goes through the URL constructor. |
| DownloadFile.FileHeaders | src/app/api/download-file/route.ts:92-101 | The file response has the route CORS headers unchanged plus `Content-Type` and `Content-Disposition`. Each of those two is the upstream value, or `application/octet-stream` or `attachment; filename="processed_crime_stats.xlsx"` when that value is missing or empty. |
| DownloadFile.Get | src/app/api/download-file/route.ts:20-119 | Every response carries the CORS headers. The checks run in order: base URL (500), then a missing or empty `path` (400). A target the URL constructor rejects gives 500 `Server configuration error. Invalid download URL.` and no upstream call. There is an upstream call iff both checks pass and the target resolves, and it fetches the resolved target. 2xx comes iff the body is the file. A refusal relays its status with the route CORS headers and `Failed to download file`. Success gives 200, the upstream bytes and the file headers. A rejection, and a refusal with status 304 (a null body status, on which `NextResponse.json` throws), give the generic 500 `Failed to download file. Please try again.`. |
| DownloadFile.PrefixDecidesVerbatim | src/app/api/download-file/route.ts:60-64 | For a `path` starting with `http`, `httpx/…` included, the URL constructor is never consulted and that exact path is fetched. |
| Uri.EncodeUriComponent | src/app/api/process-crimes/route.ts:97 | The output contains only unreserved characters and `%XX` triples with upper-case hexadecimal digits, and is no shorter than the input. It equals the input iff every input character is unreserved. |
| Uri.EncodeUriComponentConcat | src/app/api/process-crimes/route.ts:97 | Encoding a concatenation gives the concatenation of the encodings. |
| Uri.PercentDecodeEncoded | src/app/api/download-file/route.ts:41-42 | The parser's query-state text of an encoded string percent-decodes to the UTF-8 bytes of that string. |
| Uri.ComponentRoundTrip | src/app/api/download-file/route.ts:41-42 | Decoding the query-state text of `encodeURIComponent(s)` as a form-urlencoded component gives back `s`. |
| Uri.QueryParamRoundTrip | src/app/api/download-file/route.ts:41-42 | For a route without `?` and an unreserved parameter name, `get(name)` on the request URL `route?name=encodeURIComponent(s)` gives `s`. |
| Uri.SearchGet | src/app/api/download-file/route.ts:42 | `get` finds a value iff some parameter has the name, and the value found is that of such a parameter. |
| Uri.DecodeComponent | src/app/api/download-file/route.ts:41-42 | A name or value with neither `+` nor `%` decodes to itself. |
| Uri.ParseForm | src/app/api/download-file/route.ts:41-42 | A query without `&` is one parameter, or none when empty. |
| Uri.ParseFormConcat | src/app/api/download-file/route.ts:41-42 | The parameters of `a&b` are those of `a` followed by those of `b`. |
| Uri.SplitConcat | src/app/api/download-file/route.ts:41-42 | Splitting `a`, a separator and `b` gives the parts of `a` followed by the parts of `b`. |
| Http.HeaderOr | src/app/api/download-file/route.ts:92-101 | `headers.get(name)` with a fallback for a falsy result: a present non-empty header gives its value. A missing or empty one gives the fallback. With a non-empty fallback the result is never empty. |
| Js.Or | src/app/api/process-crimes/route.ts:84 | JavaScript `or` of a value and a fallback string: a truthy value is kept, any other gives the fallback string. With a non-empty fallback the result is truthy. The dashboard uses the same rule at src/components/modern-crime-stats-dashboard.tsx:103. |
| Seqs.Filter | src/components/modern-crime-stats-dashboard.tsx:49-51 | `.filter`: no longer than the input, every kept element passes, and an element is kept iff it is in the input and passes. Order is kept across concatenation (`FilterConcat`). |
| Seqs.FilterConcat | src/components/modern-crime-stats-dashboard.tsx:49-51 | Filtering a concatenation filters each part and keeps the parts in order. |
| Seqs.FilterCount | src/components/modern-crime-stats-dashboard.tsx:64-66 | A kept element keeps all its copies and a dropped one loses all of them. |
| Utf8.DecodeEncode | src/app/api/download-file/route.ts:41-42 | UTF-8 decoding, which `URLSearchParams` applies, undoes UTF-8 encoding. |
| Dashboard.Drop | src/components/modern-crime-stats-dashboard.tsx:46-53 | The old queue is kept as a prefix. What follows it is exactly the dropped spreadsheets, in the order dropped. A file is appended iff it was dropped and is a spreadsheet, as often as it was dropped. Nothing outside the queue changes. |
| Dashboard.DropTwice | src/components/modern-crime-stats-dashboard.tsx:46-53 | Dropping `a` and then `b` queues what dropping `a + b` at once queues. |
| Dashboard.Select | src/components/modern-crime-stats-dashboard.tsx:55-62 | Without a file list nothing changes. With one, it acts as a drop of that list. |
| Dashboard.Remove | src/components/modern-crime-stats-dashboard.tsx:64-66 | A file stays iff it was queued and is not the removed object. Every copy of the removed object goes, and every other file keeps its count. Nothing outside the queue changes. |
| Dashboard.Clear | src/components/modern-crime-stats-dashboard.tsx:68-75 | The queue is empty and the download link is forgotten. The run state is unchanged. |
| Dashboard.QueueInvariant | src/components/modern-crime-stats-dashboard.tsx:49-70 | If every queued name ends in `.xlsx` or `.xls`, that still holds after a drop, a select, a remove or a clear. |
| Dashboard.RemoveProperties | src/components/modern-crime-stats-dashboard.tsx:64-66 | Removing twice is removing once. Removing after a drop removes from the old queue and from the dropped spreadsheets separately, in order. |
| Dashboard.Tick | src/components/modern-crime-stats-dashboard.tsx:90 | One step never passes 90, never goes down from a value of at most 90, and adds 5 or lands on 90. |
| Dashboard.TicksClimb | src/components/modern-crime-stats-dashboard.tsx:89-91 | From a value `p` of at most 90, `k` steps give `min(p + 5k, 90)`. |
| Dashboard.TickBounds | src/components/modern-crime-stats-dashboard.tsx:89-91 | The step is monotone. From `[0, 90]` repeated steps stay in `[p, 90]`. From 0, 90 is reached after `k` steps iff `k` is at least 18. |
| Dashboard.Fire | src/components/modern-crime-stats-dashboard.tsx:89-91 | One interval callback: with no live interval nothing changes; otherwise the progress takes one step. |
| Dashboard.FireTimes | src/components/modern-crime-stats-dashboard.tsx:89-91 | Any number of firings changes nothing but the progress. |
| Dashboard.FireTimesTicks | src/components/modern-crime-stats-dashboard.tsx:89-91 | `k` firings change only the progress, by `k` steps when an interval is live. |
| Dashboard.ClientForm | src/components/modern-crime-stats-dashboard.tsx:82-86 | The page posts one `files` entry per queued file, in queue order, then `merge_type=vertical`. |
| Dashboard.Start | src/components/modern-crime-stats-dashboard.tsx:77-96 | A run sets `isProcessing`, resets progress to 0 and starts one interval. It leaves the queue and link alone and posts the queue's form to the hard-coded service. |
| Dashboard.Settle | src/components/modern-crime-stats-dashboard.tsx:93-122 | As written, every exit clears `isProcessing` and keeps the queue. An answer sets 100 and clears one interval. A rejection changes nothing else and shows its reason. The link is set on an ok, parsed answer, to `API_BASE_URL + download_url`, and changes on no other. Success is shown iff the answer is ok and parsed, with `Files processed successfully! Click 'Download Result' to get your file.`. A refusal shows `detail` or `Failed to process files`. An unparsable body shows the parse error's message. |
| Dashboard.SettleCorrected | src/components/modern-crime-stats-dashboard.tsx:93-122 | Like `Settle`, but the interval is cleared on every exit. |
| Dashboard.Run | src/components/modern-crime-stats-dashboard.tsx:77-122 | A whole run as written ends with `isProcessing` false and the queue unchanged. An answered run ends at 100 with as many intervals as it found. A rejected run leaves one more interval live and shows the rejection's reason. |
| Dashboard.RunCorrected | src/components/modern-crime-stats-dashboard.tsx:77-122 | With the interval cleared on every exit, a run ends with `isProcessing` false, the queue unchanged and as many intervals as it found. |
| Dashboard.RunOutcome | src/components/modern-crime-stats-dashboard.tsx:77-122 | A whole run ends with `isProcessing` false and the queue unchanged. An answered run ends at 100 and leaves no new interval: as many as it found, so one leaked by an earlier run survives. A rejected run ends at `min(5k, 90)` with its interval still live. |
| Dashboard.LeakedTimerExample | src/components/modern-crime-stats-dashboard.tsx:89-99 | After a rejected run the interval is still live and moves the progress. After a later successful run sets 100, the leaked interval pulls it back to 90. |
| Dashboard.CorrectedRunLeavesNoTimer | src/components/modern-crime-stats-dashboard.tsx:89-99 | With the interval cleared on every exit, a run leaves as many intervals as it found, and otherwise ends exactly as the written run does. From a state with none, no firing moves the result. |
| Dashboard.Download | src/components/modern-crime-stats-dashboard.tsx:125-171 | Without a link (null or empty) nothing happens. Otherwise the link is fetched once. A file is saved iff the answer is ok, with the answer's bytes under the final file name. Every failure shows `Failed to download file. Please try again.`. |
| DownloadName.Pad2 | src/components/modern-crime-stats-dashboard.tsx:140-145 | A clock component is written as two digits that read back as it. |
| DownloadName.Pad2IsPadStart | src/components/modern-crime-stats-dashboard.tsx:140 | The two digits are `String(n).padStart(2, '0')`. |
| DownloadName.DatePartShape | src/components/modern-crime-stats-dashboard.tsx:139-141 | For a four-digit year the date part is 8 digits that read back as year, month (from 1) and day. |
| DownloadName.TimePartShape | src/components/modern-crime-stats-dashboard.tsx:143-145 | The time part is 6 digits that read back as hours, minutes and seconds. |
| DownloadName.Timestamp | src/components/modern-crime-stats-dashboard.tsx:139-145 | For every year, the stamp is the year as `String` writes it, then two-digit month (from 1) and day, a dash, and two-digit hours, minutes and seconds. It is 11 characters longer than the year. |
| DownloadName.TimestampShape | src/components/modern-crime-stats-dashboard.tsx:139-145 | For a four-digit year the stamp has 15 characters: a dash at index 8 and digits elsewhere. Each field reads back as the clock component it came from. |
| DownloadName.FilenameCapture | src/components/modern-crime-stats-dashboard.tsx:134 | The regex capture is non-empty and quote-free. There is none iff no position matches. Otherwise it is the capture of the leftmost match, as `String.prototype.match` returns it. |
| DownloadName.MatchAt | src/components/modern-crime-stats-dashboard.tsx:134 | A match at a position needs `filename=` there. With the marker present, it fails iff the text ends or a quote follows the marker and its optional quote. A capture is the whole quote-free run from there, ending at a quote or the end of the text. |
| DownloadName.CaptureStart | src/components/modern-crime-stats-dashboard.tsx:134 | The capture starts right after `filename=`, one further exactly when a quote follows the marker. |
| DownloadName.FirstMatch | src/components/modern-crime-stats-dashboard.tsx:134 | The position found matches, and no earlier position from the start does. None is found iff no position matches. |
| DownloadName.CaptureAt | src/components/modern-crime-stats-dashboard.tsx:134 | A position that matches, with no match before it, gives the capture. |
| DownloadName.QuotedCapture | src/components/modern-crime-stats-dashboard.tsx:134 | For `…filename="name"` with no `f` before the marker, the capture is exactly `name`. |
| DownloadName.StripExtension | src/components/modern-crime-stats-dashboard.tsx:146 | Replacing the first `.xlsx` in `stem.xlsx`, where the stem has no dot, leaves the stem. |
| DownloadName.BaseName | src/components/modern-crime-stats-dashboard.tsx:146 | The base is never empty and has no quote. It is `processed_crime_stats` when there is no header or no match. Otherwise it is `Strip` of the captured name. |
| DownloadName.Strip | src/components/modern-crime-stats-dashboard.tsx:146 | A name without `.xlsx` is kept as it is. Otherwise its first `.xlsx` is cut out. An empty result becomes `processed_crime_stats`. The result never holds a quote. |
| Strings.IndexOf | src/components/modern-crime-stats-dashboard.tsx:146 | The position found is at or after the start and holds the pattern, and no earlier position from the start does. None is found iff no position from the start holds it. |
| Strings.PadStart | src/components/modern-crime-stats-dashboard.tsx:140-145 | `padStart`: the result has the target width, or the string's own length when it is longer. It ends with the string, and everything before it is the fill character. |
| Strings.Decimal | src/components/modern-crime-stats-dashboard.tsx:139-145 | `String(n)` for a clock component: at least one digit, only digits, reads back as `n`, and no leading zero unless it is the only digit. |
| Strings.DecimalCanonical | src/components/modern-crime-stats-dashboard.tsx:139-145 | Every digit string without a leading zero is `String` of its value, so the rendering is unique. |
| Strings.IntToString | src/components/modern-crime-stats-dashboard.tsx:139 | `getFullYear()` added to a string: a non-negative year is its canonical digits, which read back as it. A negative year is a minus sign and then the digits of its magnitude. |
| Strings.ReplaceFirst | src/components/modern-crime-stats-dashboard.tsx:146 | `replace` with a string pattern: without an occurrence the string is unchanged. Otherwise only the first occurrence is replaced. |
| DownloadName.QuotedBaseName | src/components/modern-crime-stats-dashboard.tsx:134-146 | A header `…filename="stem.xlsx"` gives the base `stem`. |
| DownloadName.FinalFilename | src/components/modern-crime-stats-dashboard.tsx:147 | The saved name starts with the base and `_`, holds the stamp right after, and ends with `.xlsx`. It is 6 characters longer than base and stamp together. |
| DownloadName.FinalFilenameShape | src/components/modern-crime-stats-dashboard.tsx:147 | The saved name is the base, `_`, the 15-character stamp and `.xlsx`, 21 characters longer than the base. Without a header it starts with `processed_crime_stats_`. |
| EndToEnd.ClientFormForwardedUnchanged | src/app/api/process-crimes/route.ts:42-54 | The process route forwards the page's own form exactly as it came. |
| EndToEnd.LinkReachesDownload | src/app/api/download-file/route.ts:40-64 | Requesting the returned link makes the download route fetch the original URL, resolved against the base unless it starts with `http`. An empty URL comes back as an empty `path` and gets the 400 `No file path provided` with no fetch. |
| EndToEnd.DefaultDispositionGivesDefaultBase | src/app/api/download-file/route.ts:101 | The route's default `Content-Disposition` makes the page save under its own default base `processed_crime_stats`. |
| Scenarios.IntakeExample | src/components/modern-crime-stats-dashboard.tsx:49-52 | Dropping `report.csv` and `report.xlsx` on an empty queue queues only `report.xlsx`. |

## Left out

- `fetch`, `FormData`, `Blob` and `arrayBuffer`: the network is not modelled. An upstream result is the input `FetchOutcome`, and a file part is an opaque id.
- A stream failure while reading the body (`response.blob()`, `response.arrayBuffer()`) is not modelled. In both places it would end in the same catch as a rejected fetch.
- `new URL(input, base)`: WHATWG URL resolution is the parameter `UrlParser`, which may fail. Only the query state of the URL parser is modelled, because the link round trip depends on it.
- Uri.EncodeUriComponent: strings are sequences of Unicode scalar values, so a lone surrogate cannot occur. For such input the JavaScript function throws a `URIError`.
- A JSON error or success body that is not an object is not modelled. For example, on `null` the `.detail` read throws and the generic 500 follows. `JsonBody` is either a parsed object or a parse failure.
- The `Content-Type: application/json` header that `NextResponse.json` adds is not part of the modelled response headers.
- The values in `src/lib/constants.ts` and their environment fallbacks: `src/lib/constants.ts` is not part of this model. `FRONTEND_URL`, `API_BASE_URL` and `NODE_ENV === 'development'` are the fields of `Config`.
- The middleware `matcher` and how Next.js chains the middleware before a route are framework semantics. `Middleware.Handle` states what the middleware returns, not which route then runs.
- `console.log` and `console.error` calls.
- React state plumbing: hooks, the dark-mode effect, animation, the disabled button while processing, the DOM anchor used to save the file, object URLs, and toast titles and variants. A toast is reduced to its text (`Notice`).
- The unused `toLocaleString` stamp (dashboard lines 135-137) is not modelled. It feeds nothing.
- The file-size display (floating point) is not modelled.
- The `setInterval` timer itself: its 500 ms timing is not modelled. A run is modelled with the number of live intervals and a given number `k` of firings while the request is out.
- The dashboard's fallback message `Failed to process files. Please try again.` is not modelled. It appears only for a thrown non-`Error` value, and everything thrown there is an `Error`.
- DownloadName.Pad2: defined only below 100, where `padStart(2, '0')` gives two digits. Every clock component is below 100.
- DownloadName.TimestampShape: the 15-character shape is stated for four-digit years. Other years change only the length of the year field.
- DownloadName.FinalFilenameShape: stated for four-digit years, like `TimestampShape`.
- DownloadName.QuotedBaseName: stated for headers whose lead-in has no `f` and stems with no `.`. That covers the route's default header. A stem containing `.xlsx`, such as `a.xlsx.xlsx`, loses only its first `.xlsx`; `BaseName` and `Strip` state that general case, and `FilenameCapture` describes the capture of any header.
- Middleware.Handle: states the headers the middleware itself sets. `NextResponse.next()` may carry framework headers of its own, and the 204 answer copies `response.headers` (src/middleware.ts:11, 36-39), so those would also appear.
- The `Files Cleared` toast of `clearAllFiles` (dashboard lines 71-74) and the `File downloaded successfully!` toast (dashboard lines 160-163) are not modelled. Only the notices of `processFiles` and the download failure text are.

## Findings

| source | as written | input that shows it | evidently intended | confidence | as-written member | corrected member |
|---|---|---|---|---|---|---|
| src/components/modern-crime-stats-dashboard.tsx:89-99 | The progress interval is cleared only after `fetch` resolves. When `fetch` rejects, control jumps to `catch` and skips `clearInterval`, so the interval keeps running after the run has ended. | A run whose `fetch` rejects (a network failure), then a successful run. The leaked interval fires after the second run has set 100 and sets the progress back to 90. | The interval is cleared on every exit, for instance in `finally`. The `clearInterval` at line 98 runs when the request settles, so the interval is meant to stop once the request is over. | high; not executed | Dashboard.Settle, Dashboard.LeakedTimerExample | Dashboard.SettleCorrected, Dashboard.CorrectedRunLeavesNoTimer |
