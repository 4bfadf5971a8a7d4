/** The upload dashboard: the queue of spreadsheet files, the processing run with its progress
    timer, and the download of the result. React state is a value of `State`; each handler is a
    function from the state (and what the outside world answered) to the next state. */
module Dashboard {
  import opened Wrappers
  import opened Js
  import opened Http
  import opened Strings
  import Seqs
  import DownloadName
  import Utf8

  /** The remote service the page calls directly; it does not go through the `/api` routes. */
  const ApiBaseUrl := "https://apicrimestat.rvcodes.com"
  const ProcessPath := "/process-crimes/"
  const ProcessFailed := "Failed to process files"
  const Processed := "Files processed successfully! Click 'Download Result' to get your file."
  const DownloadRetry := "Failed to download file. Please try again."
  const ProgressCap := 90
  const ProgressStep := 5

  /** A browser `File`: `id` stands for the object's identity. */
  datatype File = File(id: nat, name: string)

  /** The component's state. `liveTimers` counts the progress intervals started and not yet
      cleared; each live interval keeps advancing `progress`. */
  datatype State = State(files: seq<File>, processing: bool, progress: int,
                         downloadUrl: Option<string>, liveTimers: nat)

  /** A toast shown to the user. */
  datatype Notice = Success(text: string) | Failure(text: string)

  const Initial := State([], false, 0, None, 0)

  predicate IsSpreadsheet(f: File) {
    EndsWith(f.name, ".xlsx") || EndsWith(f.name, ".xls")
  }

  /** The queue invariant: every queued file has a spreadsheet suffix. */
  predicate AllSpreadsheets(files: seq<File>) {
    forall i :: 0 <= i < |files| ==> IsSpreadsheet(files[i])
  }

  // ---------------------------------------------------------------------------------------------
  // The file queue
  // ---------------------------------------------------------------------------------------------

  /** `handleDrop`: the dropped spreadsheets go after the queued files, in the order dropped;
      other files are ignored. */
  function Drop(s: State, dropped: seq<File>): (r: State)
    ensures |s.files| <= |r.files| && r.files[..|s.files|] == s.files
    ensures r.files[|s.files|..] == Seqs.Filter(dropped, IsSpreadsheet)
    ensures forall i :: |s.files| <= i < |r.files| ==> IsSpreadsheet(r.files[i])
    ensures forall f :: f in r.files[|s.files|..] <==> f in dropped && IsSpreadsheet(f)
    ensures forall f :: multiset(r.files)[f] ==
              multiset(s.files)[f] + if IsSpreadsheet(f) then multiset(dropped)[f] else 0
    ensures r == s.(files := r.files)
  {
    var added := Seqs.Filter(dropped, IsSpreadsheet);
    var files := s.files + added;
    assert files[..|s.files|] == s.files;
    assert files[|s.files|..] == added;
    forall f
      ensures multiset(added)[f] == if IsSpreadsheet(f) then multiset(dropped)[f] else 0
    {
      Seqs.FilterCount(dropped, IsSpreadsheet, f);
    }
    s.(files := files)
  }

  /** Two drops queue what one drop of both lists, in the same order, would queue. */
  lemma DropTwice(s: State, a: seq<File>, b: seq<File>)
    ensures Drop(Drop(s, a), b) == Drop(s, a + b)
  {
    var fa, fb := Seqs.Filter(a, IsSpreadsheet), Seqs.Filter(b, IsSpreadsheet);
    Seqs.FilterConcat(a, b, IsSpreadsheet);
    Seqs.ConcatAssoc(s.files, fa, fb);
    assert Drop(s, a).files == s.files + fa;
    assert Drop(Drop(s, a), b).files == s.files + fa + fb;
  }

  /** `handleFileSelect`: the same as a drop, and nothing at all when the input has no file
      list. */
  function Select(s: State, picked: Option<seq<File>>): (r: State)
    ensures picked.None? ==> r == s
    ensures picked.Some? ==> r == Drop(s, picked.value)
  {
    match picked
    case None => s
    case Some(list) => Drop(s, list)
  }

  /** `removeFile`: every entry that is the given file goes, the others stay in order. */
  function Remove(s: State, target: File): (r: State)
    ensures forall f :: f in r.files <==> f in s.files && f.id != target.id
    ensures forall f :: multiset(r.files)[f] == if f.id == target.id then 0 else multiset(s.files)[f]
    ensures r == s.(files := r.files)
  {
    var keep := (f: File) => f.id != target.id;
    var files := Seqs.Filter(s.files, keep);
    forall f
      ensures multiset(files)[f] == if f.id == target.id then 0 else multiset(s.files)[f]
    {
      Seqs.FilterCount(s.files, keep, f);
    }
    s.(files := files)
  }

  /** `clearAllFiles`: the queue is emptied and the download link forgotten. */
  function Clear(s: State): (r: State)
    ensures r.files == [] && r.downloadUrl.None?
    ensures r.processing == s.processing && r.progress == s.progress && r.liveTimers == s.liveTimers
  {
    s.(files := [], downloadUrl := None)
  }

  /** No queue operation lets a file without a spreadsheet suffix in. */
  lemma {:induction false} QueueInvariant(s: State, dropped: seq<File>, picked: Option<seq<File>>, target: File)
    requires AllSpreadsheets(s.files)
    ensures AllSpreadsheets(Drop(s, dropped).files)
    ensures AllSpreadsheets(Select(s, picked).files)
    ensures AllSpreadsheets(Remove(s, target).files)
    ensures AllSpreadsheets(Clear(s).files)
  {
    DropKeepsSpreadsheets(s, dropped);
    if picked.Some? {
      DropKeepsSpreadsheets(s, picked.value);
    }
    RemoveKeepsSpreadsheets(s, target);
  }

  lemma DropKeepsSpreadsheets(s: State, dropped: seq<File>)
    requires AllSpreadsheets(s.files)
    ensures AllSpreadsheets(Drop(s, dropped).files)
  {
    var d := Drop(s, dropped).files;
    forall i | 0 <= i < |d|
      ensures IsSpreadsheet(d[i])
    {
      if i < |s.files| {
        assert d[i] == d[..|s.files|][i];
      }
    }
  }

  lemma RemoveKeepsSpreadsheets(s: State, target: File)
    requires AllSpreadsheets(s.files)
    ensures AllSpreadsheets(Remove(s, target).files)
  {
    var r := Remove(s, target).files;
    forall i | 0 <= i < |r|
      ensures IsSpreadsheet(r[i])
    {
      assert r[i] in s.files;
      var j :| 0 <= j < |s.files| && s.files[j] == r[i];
    }
  }

  /** Removing the same file twice is removing it once, and removal keeps the order of the
      remaining files: removing from a concatenation removes from each part. */
  lemma RemoveProperties(s: State, extra: seq<File>, target: File)
    ensures Remove(Remove(s, target), target) == Remove(s, target)
    ensures Remove(Drop(s, extra), target).files ==
              Remove(s, target).files + Remove(s.(files := Seqs.Filter(extra, IsSpreadsheet)), target).files
  {
    var keep := (f: File) => f.id != target.id;
    var once := Remove(s, target).files;
    assert forall i :: 0 <= i < |once| ==> keep(once[i]);
    Seqs.FilterAll(once, keep);
    Seqs.FilterConcat(s.files, Seqs.Filter(extra, IsSpreadsheet), keep);
  }

  // ---------------------------------------------------------------------------------------------
  // The processing run
  // ---------------------------------------------------------------------------------------------

  /** One step of the progress animation: `Math.min(prev + 5, 90)`. */
  function Tick(p: int): (r: int)
    ensures r <= ProgressCap
    ensures p <= ProgressCap ==> p <= r
    ensures r == p + ProgressStep || r == ProgressCap
  {
    if p + ProgressStep < ProgressCap then p + ProgressStep else ProgressCap
  }

  function Ticks(p: int, k: nat): int
    decreases k
  {
    if k == 0 then p else Ticks(Tick(p), k - 1)
  }

  function Min(a: int, b: int): int {
    if a <= b then a else b
  }

  /** From any value up to 90, `k` ticks advance by `5k`, stopping at 90. */
  lemma {:induction false} TicksClimb(p: int, k: nat)
    requires p <= ProgressCap
    ensures Ticks(p, k) == Min(p + ProgressStep * k, ProgressCap)
    decreases k
  {
    if k > 0 {
      TicksClimb(Tick(p), k - 1);
    }
  }

  /** The animation is monotone, never passes 90, and from 0 reaches 90 after 18 ticks and not before. */
  lemma TickBounds(p: int, q: int, k: nat)
    requires p <= q
    ensures Tick(p) <= Tick(q)
    ensures 0 <= p <= ProgressCap ==> 0 <= Ticks(p, k) <= ProgressCap && p <= Ticks(p, k)
    ensures Ticks(0, k) == ProgressCap <==> k >= 18
  {
    if p <= ProgressCap {
      TicksClimb(p, k);
    }
    TicksClimb(0, k);
  }

  /** One firing of a live progress interval. Without a live interval nothing fires. */
  function Fire(s: State): (r: State)
    ensures s.liveTimers == 0 ==> r == s
    ensures s.liveTimers > 0 ==> r == s.(progress := Tick(s.progress))
  {
    if s.liveTimers == 0 then s else s.(progress := Tick(s.progress))
  }

  function FireTimes(s: State, k: nat): (r: State)
    ensures r == s.(progress := r.progress)
    decreases k
  {
    if k == 0 then s else FireTimes(Fire(s), k - 1)
  }

  /** `k` firings only move the progress, by `k` ticks when an interval is live. */
  lemma {:induction false} FireTimesTicks(s: State, k: nat)
    ensures FireTimes(s, k) == s.(progress := if s.liveTimers > 0 then Ticks(s.progress, k) else s.progress)
    decreases k
  {
    if k > 0 {
      FireTimesTicks(Fire(s), k - 1);
    }
  }

  /** The form the page posts: every queued file as a `files` part, in queue order, then
      `merge_type=vertical`. */
  function ClientForm(files: seq<File>): (form: Form)
    ensures |form| == |files| + 1
    ensures forall i :: 0 <= i < |files| ==> form[i] == FormEntry("files", FileValue(files[i].id))
    ensures form[|files|] == FormEntry("merge_type", TextValue("vertical"))
  {
    if |files| == 0 then [FormEntry("merge_type", TextValue("vertical"))]
    else [FormEntry("files", FileValue(files[0].id))] + ClientForm(files[1..])
  }

  /** The first half of `processFiles`, up to the `fetch`: the run is marked as processing,
      the progress restarts at 0, a progress interval is started, and the queued files are
      posted to the remote service. */
  function Start(s: State): (r: (State, UpstreamCall))
    ensures r.0.processing && r.0.progress == 0 && r.0.liveTimers == s.liveTimers + 1
    ensures r.0.files == s.files && r.0.downloadUrl == s.downloadUrl
    ensures r.1 == PostForm(ApiBaseUrl + ProcessPath, ClientForm(s.files))
  {
    (s.(processing := true, progress := 0, liveTimers := s.liveTimers + 1),
     PostForm(ApiBaseUrl + ProcessPath, ClientForm(s.files)))
  }

  /** What a settled request leaves in the state and shows the user, shared by both versions of
      the settle step: the response is read as the code reads it. */
  function Read(s: State, answer: Answer): (r: (State, Notice))
  {
    match answer.json
    case Unparsable(message) => (s, Failure(message))
    case Parsed(obj) =>
      if !IsOk(answer.status) then
        (s, Failure(ToString(Or(Field(obj, "detail"), ProcessFailed))))
      else
        (s.(downloadUrl := Some(ApiBaseUrl + ToString(Field(obj, "download_url")))), Success(Processed))
  }

  /** The second half of `processFiles` as written: once the request settles the run ends, and
      an answer clears the interval and sets the progress to 100. A rejected `fetch` jumps past
      both, so its interval is never cleared. */
  function Settle(s: State, fetched: FetchOutcome): (r: (State, Notice))
    requires s.liveTimers > 0
    ensures !r.0.processing && r.0.files == s.files
    ensures fetched.Answered? ==> r.0.progress == 100 && r.0.liveTimers == s.liveTimers - 1
    ensures fetched.Rejected? ==>
              r == (s.(processing := false), Failure(fetched.reason))
    ensures r.0.downloadUrl != s.downloadUrl ==>
              fetched.Answered? && IsOk(fetched.answer.status) && fetched.answer.json.Parsed? &&
              r.0.downloadUrl == Some(ApiBaseUrl + ToString(Field(fetched.answer.json.obj, "download_url")))
    ensures fetched.Answered? && IsOk(fetched.answer.status) && fetched.answer.json.Parsed? ==>
              r.0.downloadUrl == Some(ApiBaseUrl + ToString(Field(fetched.answer.json.obj, "download_url")))
    ensures r.1.Success? <==> fetched.Answered? && IsOk(fetched.answer.status) && fetched.answer.json.Parsed?
    ensures r.1.Success? ==> r.1.text == Processed
    ensures fetched.Answered? && !IsOk(fetched.answer.status) && fetched.answer.json.Parsed? ==>
              r.1 == Failure(ToString(Or(Field(fetched.answer.json.obj, "detail"), ProcessFailed)))
    ensures fetched.Answered? && fetched.answer.json.Unparsable? ==>
              r.1 == Failure(fetched.answer.json.message)
  {
    match fetched
    case Rejected(reason) => (s.(processing := false), Failure(reason))
    case Answered(answer) =>
      var cleared := s.(liveTimers := s.liveTimers - 1, progress := 100);
      var (t, notice) := Read(cleared, answer);
      (t.(processing := false), notice)
  }

  /** The settle step with the interval cleared on every exit, as a `finally` would: nothing
      else differs from `Settle`. */
  function SettleCorrected(s: State, fetched: FetchOutcome): (r: (State, Notice))
    requires s.liveTimers > 0
    ensures r.0.liveTimers == s.liveTimers - 1
    ensures r.0 == Settle(s, fetched).0.(liveTimers := s.liveTimers - 1)
    ensures r.1 == Settle(s, fetched).1
  {
    match fetched
    case Rejected(reason) => (s.(processing := false, liveTimers := s.liveTimers - 1), Failure(reason))
    case Answered(answer) =>
      var cleared := s.(liveTimers := s.liveTimers - 1, progress := 100);
      var (t, notice) := Read(cleared, answer);
      (t.(processing := false), notice)
  }

  /** A whole `processFiles` run as written: start, `k` firings of the interval while the
      request is out, then settle. */
  function Run(s: State, k: nat, fetched: FetchOutcome): (r: (State, Notice))
    ensures !r.0.processing && r.0.files == s.files
    // an answer clears the run's interval; a rejection leaves it live
    ensures fetched.Answered? ==> r.0.progress == 100 && r.0.liveTimers == s.liveTimers
    ensures fetched.Rejected? ==> r.0.liveTimers == s.liveTimers + 1 && r.1 == Failure(fetched.reason)
  {
    Settle(FireTimes(Start(s).0, k), fetched)
  }

  function RunCorrected(s: State, k: nat, fetched: FetchOutcome): (r: (State, Notice))
    // every settled run clears the interval it started
    ensures !r.0.processing && r.0.files == s.files && r.0.liveTimers == s.liveTimers
  {
    SettleCorrected(FireTimes(Start(s).0, k), fetched)
  }

  /** Every run ends with `isProcessing` false and the queue untouched. An answered run ends
      at 100 with no new interval left behind; a rejected run ends where the animation got to,
      at most 90, and leaves its interval running. */
  lemma RunOutcome(s: State, k: nat, fetched: FetchOutcome)
    ensures var r := Run(s, k, fetched).0;
            && !r.processing && r.files == s.files
            && (fetched.Answered? ==> r.progress == 100 && r.liveTimers == s.liveTimers)
            && (fetched.Rejected? ==>
                  r.progress == Min(ProgressStep * k, ProgressCap) && r.liveTimers == s.liveTimers + 1)
  {
    FireTimesTicks(Start(s).0, k);
    TicksClimb(0, k);
  }

  /** Running the page's own request twice, the first rejected and the second answered: the
      leaked interval is still live after the first run, and after the second run has set the
      progress to 100 it fires and drags the progress back to 90. */
  lemma LeakedTimerExample(answer: Answer)
    ensures var first := Run(Initial, 0, Rejected("Failed to fetch")).0;
            && first.liveTimers == 1 && !first.processing
            && Fire(first).progress == ProgressStep
            && var second := Run(first, 0, Answered(answer)).0;
               second.progress == 100 && second.liveTimers == 1 && Fire(second).progress == ProgressCap
  {
  }

  /** With the interval cleared on every exit no run leaves an interval behind, so from the
      initial state the progress never moves once a run is over. */
  lemma CorrectedRunLeavesNoTimer(s: State, k: nat, fetched: FetchOutcome)
    ensures RunCorrected(s, k, fetched).0.liveTimers == s.liveTimers
    ensures RunCorrected(s, k, fetched) == (Run(s, k, fetched).0.(liveTimers := s.liveTimers), Run(s, k, fetched).1)
    ensures s.liveTimers == 0 ==> Fire(RunCorrected(s, k, fetched).0) == RunCorrected(s, k, fetched).0
  {
  }

  // ---------------------------------------------------------------------------------------------
  // The download
  // ---------------------------------------------------------------------------------------------

  datatype Saving = Saved(name: string, bytes: seq<Utf8.Byte>) | SaveFailed(message: string)

  /** What `handleDownload` does: nothing without a link, otherwise one fetch of the link and
      either a saved file or the error toast. */
  datatype DownloadOutcome = NotAttempted | Attempted(url: string, result: Saving)

  /** `handleDownload`: `t` is the local clock reading taken once the answer is in. */
  function Download(downloadUrl: Option<string>, fetched: FetchOutcome, t: DownloadName.LocalTime): (r: DownloadOutcome)
    requires DownloadName.ValidTime(t)
    ensures r.NotAttempted? <==> downloadUrl.None? || downloadUrl.value == ""
    ensures r.Attempted? ==> r.url == downloadUrl.value
    ensures r.Attempted? ==> (r.result.Saved? <==> fetched.Answered? && IsOk(fetched.answer.status))
    ensures r.Attempted? && r.result.Saved? ==>
              r.result.bytes == fetched.answer.bytes &&
              r.result.name == DownloadName.FinalFilename(HeaderGet(fetched.answer.headers, "content-disposition"), t)
    ensures r.Attempted? && r.result.SaveFailed? ==> r.result.message == DownloadRetry
  {
    match downloadUrl
    case None => NotAttempted
    case Some(url) =>
      if url == "" then NotAttempted
      else
        match fetched
        case Rejected(_) => Attempted(url, SaveFailed(DownloadRetry))
        case Answered(answer) =>
          if !IsOk(answer.status) then Attempted(url, SaveFailed(DownloadRetry))
          else
            var name := DownloadName.FinalFilename(HeaderGet(answer.headers, "content-disposition"), t);
            Attempted(url, Saved(name, answer.bytes))
  }
}
