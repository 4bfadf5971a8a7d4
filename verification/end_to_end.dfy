/** How the pieces would fit together if the page's requests went through the two API routes:
    the page's form would pass through the process route unchanged, and the link the process
    route hands out would lead the download route to the original URL. The page as written
    calls the remote host directly (src/components/modern-crime-stats-dashboard.tsx:23, 93,
    129), so these lemmas describe a composition of the parts, not a path the page takes. */
module EndToEnd {
  import opened Wrappers
  import opened Http
  import Seqs
  import Strings
  import Uri
  import ProcessCrimes
  import DownloadFile
  import Dashboard
  import DownloadName

  /** The page's form: its `files` entries are all but the last. */
  lemma {:induction false} ClientFiles(files: seq<Dashboard.File>)
    ensures var form := Dashboard.ClientForm(files);
            Seqs.Filter(form, ProcessCrimes.IsFilesPart) == form[..|files|]
    decreases |files|
  {
    var form := Dashboard.ClientForm(files);
    if |files| == 0 {
      assert !ProcessCrimes.IsFilesPart(form[0]);
      assert form[1..] == [];
    } else {
      var tail := Dashboard.ClientForm(files[1..]);
      var keep := ProcessCrimes.IsFilesPart;
      assert Seqs.Filter(form, keep) == [form[0]] + Seqs.Filter(tail, keep) by {
        assert form[1..] == tail;
        assert keep(form[0]);
      }
      assert form[..|files|] == [form[0]] + tail[..|files| - 1] by {
        assert form == [form[0]] + tail;
      }
      ClientFiles(files[1..]);
    }
  }

  /** The page's form: its one `merge_type` is `vertical`. */
  lemma {:induction false} ClientMergeType(files: seq<Dashboard.File>)
    ensures ProcessCrimes.FirstValue(Dashboard.ClientForm(files), "merge_type") == Some(TextValue("vertical"))
    ensures ProcessCrimes.MergeType(Dashboard.ClientForm(files)) == TextValue("vertical")
    decreases |files|
  {
    var form := Dashboard.ClientForm(files);
    if |files| > 0 {
      var tail := Dashboard.ClientForm(files[1..]);
      assert ProcessCrimes.FirstValue(form, "merge_type") == ProcessCrimes.FirstValue(tail, "merge_type") by {
        assert form[1..] == tail;
        assert form[0].name == "files";
      }
      ClientMergeType(files[1..]);
    }
  }

  /** The process route forwards the page's form as it came: the files in queue order and
      `merge_type=vertical`. */
  lemma ClientFormForwardedUnchanged(files: seq<Dashboard.File>)
    ensures ProcessCrimes.RebuildForm(Dashboard.ClientForm(files)) == Dashboard.ClientForm(files)
  {
    var form := Dashboard.ClientForm(files);
    var last := FormEntry("merge_type", TextValue("vertical"));
    calc {
      ProcessCrimes.RebuildForm(form);
      Seqs.Filter(form, ProcessCrimes.IsFilesPart) + [FormEntry("merge_type", ProcessCrimes.MergeType(form))];
      { ClientFiles(files); ClientMergeType(files); }
      form[..|files|] + [last];
      { assert form[|files|] == last; assert form == form[..|files|] + [form[|files|]]; }
      form;
    }
  }

  /** A request for the link the process route returned makes the download route fetch the
      original download URL, resolved against the base URL unless it starts with `http`. An
      empty download URL (a missing `download_url` gives `"undefined"`, not this) comes back as
      an empty `path`, which the download route refuses with 400 before any fetch. */
  lemma LinkReachesDownload(cfg: Config, originHeader: Option<string>, url: string,
                            parseUrl: UrlParser, fetched: FetchOutcome)
    requires cfg.apiBaseUrl != ""
    ensures var r := DownloadFile.Get(cfg, originHeader, Uri.QueryOf(ProcessCrimes.DownloadLink(url)), parseUrl, fetched);
            url == "" ==>
              r == Exchange(DownloadFile.Failure(400, OriginOf(originHeader), cfg, DownloadFile.NoPath), None)
    ensures var r := DownloadFile.Get(cfg, originHeader, Uri.QueryOf(ProcessCrimes.DownloadLink(url)), parseUrl, fetched);
            url != "" ==>
              && (r.upstream.Some? <==> DownloadFile.ResolveTarget(url, cfg.apiBaseUrl, parseUrl).Some?)
              && (r.upstream.Some? ==> r.upstream.value == GetUrl(DownloadFile.ResolveTarget(url, cfg.apiBaseUrl, parseUrl).value))
              && (Strings.StartsWith(url, "http") ==> r.upstream == Some(GetUrl(url)))
  {
    ProcessCrimes.DownloadLinkRoundTrip(url);
  }

  /** When the remote service sends no `Content-Disposition`, the download route's default
      one names the file so that the page saves it under its own default base name. */
  lemma DefaultDispositionGivesDefaultBase()
    ensures DownloadName.BaseName(Some(DownloadFile.DefaultDisposition)) == DownloadName.DefaultBase
  {
    var lead := "attachment; ";
    assert DownloadFile.DefaultDisposition ==
           lead + DownloadName.Marker + "\"" + DownloadName.DefaultBase + ".xlsx" + "\"";
    DownloadName.QuotedBaseName(lead, DownloadName.DefaultBase);
  }
}
