/** The name under which the dashboard saves a downloaded result: a base name taken from the
    `Content-Disposition` header, and a local-time stamp. */
module DownloadName {
  import opened Wrappers
  import opened Strings

  const DefaultBase := "processed_crime_stats"
  const Marker := "filename="
  const Extension := ".xlsx"

  /** A local clock reading as the `Date` getters return it; `month` counts from 0. */
  datatype LocalTime = LocalTime(year: int, month: int, day: int, hours: int, minutes: int, seconds: int)

  predicate ValidTime(t: LocalTime) {
    && 0 <= t.month <= 11 && 1 <= t.day <= 31
    && 0 <= t.hours <= 23 && 0 <= t.minutes <= 59 && 0 <= t.seconds <= 59
  }

  /** A clock component below 100 as two decimal digits; it reads back as the number. */
  function Pad2(n: nat): (r: string)
    requires n < 100
    ensures |r| == 2 && AllDigits(r) && ParseDecimal(r) == n
  {
    var r := [DigitChar(n / 10), DigitChar(n % 10)];
    assert r[..1] == [DigitChar(n / 10)];
    assert ParseDecimal(r[..1]) == n / 10 by {
      assert r[..1][..0] == [];
    }
    r
  }

  /** `Pad2` is what `String(n).padStart(2, '0')` gives for a number below 100. */
  lemma Pad2IsPadStart(n: nat)
    requires n < 100
    ensures Pad2(n) == PadStart(Decimal(n), 2, '0')
  {
    if n < 10 {
      assert Decimal(n) == [DigitChar(n)];
      assert Repeat('0', 1) == "0";
    } else {
      assert Decimal(n / 10) == [DigitChar(n / 10)];
    }
  }

  /** The date half of the stamp: year, month and day. */
  function DatePart(t: LocalTime): string
    requires ValidTime(t)
  {
    IntToString(t.year) + Pad2(t.month + 1) + Pad2(t.day)
  }

  /** The time half of the stamp: hours, minutes and seconds. */
  function TimePart(t: LocalTime): string
    requires ValidTime(t)
  {
    Pad2(t.hours) + Pad2(t.minutes) + Pad2(t.seconds)
  }

  /** `YYYYMMDD-HHMMSS` from the local clock: the year as `String` writes it, then month (from
      1), day, hours, minutes and seconds, each padded to two digits. */
  function Timestamp(t: LocalTime): (r: string)
    requires ValidTime(t)
    // whatever the year: it leads, a dash follows the day, and each other field is the
    // two-digit rendering of its clock component
    ensures var n := |IntToString(t.year)|;
            && |r| == n + 11 && r[..n] == IntToString(t.year) && r[n + 4] == '-'
            && r[n..n + 2] == Pad2(t.month + 1) && r[n + 2..n + 4] == Pad2(t.day)
            && r[n + 5..n + 7] == Pad2(t.hours) && r[n + 7..n + 9] == Pad2(t.minutes)
            && r[n + 9..n + 11] == Pad2(t.seconds)
  {
    var y := IntToString(t.year);
    var mo, d := Pad2(t.month + 1), Pad2(t.day);
    var h, mi, sec := Pad2(t.hours), Pad2(t.minutes), Pad2(t.seconds);
    StampLayout(y, mo, d, h, mi, sec);
    DatePart(t) + "-" + TimePart(t)
  }

  /** Where the six fields of the stamp sit once they are joined. */
  lemma StampLayout(y: string, mo: string, d: string, h: string, mi: string, sec: string)
    requires |mo| == 2 && |d| == 2 && |h| == 2 && |mi| == 2 && |sec| == 2
    ensures var r := y + mo + d + "-" + (h + mi + sec); |r| == |y| + 11 && r[..|y|] == y
    ensures var r := y + mo + d + "-" + (h + mi + sec); r[|y| + 4] == '-'
    ensures var r := y + mo + d + "-" + (h + mi + sec); r[|y|..|y| + 2] == mo && r[|y| + 2..|y| + 4] == d
    ensures var r := y + mo + d + "-" + (h + mi + sec);
              r[|y| + 5..|y| + 7] == h && r[|y| + 7..|y| + 9] == mi && r[|y| + 9..|y| + 11] == sec
  {
    var r := y + mo + d + "-" + (h + mi + sec);
    var n := |y|;
    assert r[..n] == y;
    assert r[n + 4] == '-';
    assert r[n..n + 2] == mo;
    assert r[n + 2..n + 4] == d;
    assert r[n + 5..n + 7] == h;
    assert r[n + 7..n + 9] == mi;
    assert r[n + 9..n + 11] == sec;
  }

  /** Three fields of known widths sit at known offsets of their concatenation. */
  lemma Fields3(a: string, b: string, c: string)
    requires AllDigits(a) && AllDigits(b) && AllDigits(c)
    ensures var abc := a + b + c;
            && abc[..|a|] == a && abc[|a|..|a| + |b|] == b && abc[|a| + |b|..] == c
            && AllDigits(abc)
  {
    var abc := a + b + c;
    assert abc[..|a|] == a;
    assert abc[|a|..|a| + |b|] == b;
    assert abc[|a| + |b|..] == c;
  }

  lemma DatePartShape(t: LocalTime)
    requires ValidTime(t) && 1000 <= t.year <= 9999
    ensures var d := DatePart(t);
            && |d| == 8 && AllDigits(d)
            && ParseDecimal(d[..4]) == t.year && ParseDecimal(d[4..6]) == t.month + 1
            && ParseDecimal(d[6..8]) == t.day
  {
    assert Pow10(3) == 1000 && Pow10(4) == 10000;
    DecimalLength(t.year, 4);
    Fields3(IntToString(t.year), Pad2(t.month + 1), Pad2(t.day));
  }

  lemma TimePartShape(t: LocalTime)
    requires ValidTime(t)
    ensures var h := TimePart(t);
            && |h| == 6 && AllDigits(h)
            && ParseDecimal(h[..2]) == t.hours && ParseDecimal(h[2..4]) == t.minutes
            && ParseDecimal(h[4..6]) == t.seconds
  {
    Fields3(Pad2(t.hours), Pad2(t.minutes), Pad2(t.seconds));
  }

  /** For a four-digit year the stamp is 15 characters: 14 digits with a dash at index 8, and
      each field reads back as the clock component it came from. */
  lemma TimestampShape(t: LocalTime)
    requires ValidTime(t) && 1000 <= t.year <= 9999
    ensures var ts := Timestamp(t);
            && |ts| == 15 && ts[8] == '-'
            && (forall i :: 0 <= i < 15 && i != 8 ==> IsDigit(ts[i]))
            && ParseDecimal(ts[..4]) == t.year
            && ParseDecimal(ts[4..6]) == t.month + 1
            && ParseDecimal(ts[6..8]) == t.day
            && ParseDecimal(ts[9..11]) == t.hours
            && ParseDecimal(ts[11..13]) == t.minutes
            && ParseDecimal(ts[13..15]) == t.seconds
  {
    DatePartShape(t);
    TimePartShape(t);
    var d := DatePart(t);
    var h := TimePart(t);
    var ts := d + "-" + h;
    assert ts[..8] == d;
    assert ts[9..] == h;
    assert ts[..4] == d[..4] && ts[4..6] == d[4..6] && ts[6..8] == d[6..8];
    assert ts[9..11] == h[..2] && ts[11..13] == h[2..4] && ts[13..15] == h[4..6];
    assert forall i :: 0 <= i < 8 ==> ts[i] == d[i];
    assert forall i :: 9 <= i < 15 ==> ts[i] == h[i - 9];
  }

  /** The longest run of characters other than `"` starting at index `k`. */
  function NonQuoteRun(s: string, k: nat): (r: string)
    requires k <= |s|
    ensures k + |r| <= |s| && r == s[k..k + |r|]
    ensures '"' !in r
    ensures k + |r| == |s| || s[k + |r|] == '"'
    decreases |s| - k
  {
    if k == |s| || s[k] == '"' then "" else [s[k]] + NonQuoteRun(s, k + 1)
  }

  /** What `/filename="?([^"]+)"?/` captures in a match starting at index `i`, if one does:
      `filename=`, an optional quote taken when present, then a non-empty greedy run of
      non-quote characters. Leaving the quote out cannot help, since the run would then have
      to start at that quote. */
  function MatchAt(s: string, i: nat): (r: Option<string>)
    requires i <= |s|
    ensures r.Some? ==> OccursAt(s, Marker, i)
    // with the marker present, the match fails iff the text ends or a quote follows
    ensures OccursAt(s, Marker, i) ==>
              (r.None? <==> CaptureStart(s, i) == |s| || s[CaptureStart(s, i)] == '"')
    // a capture is the whole quote-free run from the capture start, up to a quote or the end
    ensures r.Some? ==>
              var k := CaptureStart(s, i);
              && r.value != "" && '"' !in r.value
              && k + |r.value| <= |s| && s[k..k + |r.value|] == r.value
              && (k + |r.value| == |s| || s[k + |r.value|] == '"')
  {
    if !OccursAt(s, Marker, i) then None
    else
      var run := NonQuoteRun(s, CaptureStart(s, i));
      if run == "" then None else Some(run)
  }

  /** Where the capture of a match at `i` starts: after `filename=` and the quote, if any. */
  function CaptureStart(s: string, i: nat): (k: nat)
    requires OccursAt(s, Marker, i)
    ensures i + |Marker| <= k <= i + |Marker| + 1 && k <= |s|
    ensures k == i + |Marker| + 1 <==> i + |Marker| < |s| && s[i + |Marker|] == '"'
  {
    var j := i + |Marker|;
    if j < |s| && s[j] == '"' then j + 1 else j
  }

  /** Where the leftmost match at or after `from` starts. */
  function FirstMatch(s: string, from: nat): (r: Option<nat>)
    requires from <= |s|
    ensures r.Some? ==> from <= r.value <= |s| && MatchAt(s, r.value).Some?
    ensures forall j :: from <= j <= |s| && (r.None? || j < r.value) ==> MatchAt(s, j).None?
    decreases |s| - from
  {
    if MatchAt(s, from).Some? then Some(from)
    else if from == |s| then None
    else FirstMatch(s, from + 1)
  }

  /** `s.match(/filename="?([^"]+)"?/)?.[1]`: the capture of the leftmost match. */
  function FilenameCapture(s: string): (r: Option<string>)
    ensures r.Some? ==> r.value != "" && '"' !in r.value
    ensures r.None? <==> forall i :: 0 <= i <= |s| ==> MatchAt(s, i).None?
    ensures r.Some? ==> exists i :: 0 <= i <= |s| && MatchAt(s, i) == r && OccursAt(s, Marker, i)
    // the capture is that of the leftmost match
    ensures forall i :: 0 <= i <= |s| && MatchAt(s, i).Some? && (forall j :: 0 <= j < i ==> MatchAt(s, j).None?) ==>
              r == MatchAt(s, i)
  {
    match FirstMatch(s, 0)
    case None => None
    case Some(first) =>
      var capture := MatchAt(s, first);
      assert forall i :: 0 <= i <= |s| && MatchAt(s, i).Some? && (forall j :: 0 <= j < i ==> MatchAt(s, j).None?) ==>
               i == first by {
        forall i | 0 <= i <= |s| && MatchAt(s, i).Some? && (forall j :: 0 <= j < i ==> MatchAt(s, j).None?)
          ensures i == first
        {
          assert first < i ==> capture.None?;
        }
      }
      capture
  }

  /** The base of the saved name: the captured file name with its first `.xlsx` removed, or
      `processed_crime_stats` when there is no header, no match, or nothing left. */
  function BaseName(disposition: Option<string>): (b: string)
    ensures b != ""
    ensures '"' !in b
    ensures (disposition.None? || FilenameCapture(disposition.value).None?) ==> b == DefaultBase
    ensures disposition.Some? && FilenameCapture(disposition.value).Some? ==>
              b == Strip(FilenameCapture(disposition.value).value)
  {
    match disposition
    case None => DefaultBase
    case Some(header) =>
      match FilenameCapture(header)
      case None => DefaultBase
      case Some(name) => Strip(name)
  }

  /** `name.replace('.xlsx', '') || 'processed_crime_stats'` for a captured name. */
  function Strip(name: string): (b: string)
    requires '"' !in name
    ensures b != "" && '"' !in b
    // a name without `.xlsx` is the base as it is
    ensures (forall i: nat :: !OccursAt(name, Extension, i)) ==> b == (if name == "" then DefaultBase else name)
    // otherwise its first `.xlsx` is cut out, and nothing left means the default
    ensures forall i: nat :: OccursAt(name, Extension, i) && (forall j: nat :: j < i ==> !OccursAt(name, Extension, j)) ==>
              b == (if name[..i] + name[i + |Extension|..] == "" then DefaultBase else name[..i] + name[i + |Extension|..])
  {
    var stripped := ReplaceFirst(name, Extension, "");
    ReplaceFirstKeepsOut(name, Extension, "", '"');
    ReplaceWithNothing(name, Extension);
    if stripped == "" then DefaultBase else stripped
  }

  /** Before a closing quote at `e`, the run from `k` is everything up to that quote. */
  lemma RunToQuote(s: string, k: nat, e: nat)
    requires k <= e < |s| && s[e] == '"'
    requires forall j :: k <= j < e ==> s[j] != '"'
    ensures NonQuoteRun(s, k) == s[k..e]
  {
  }

  /** The pattern cannot start inside a lead-in that has no `f`. */
  lemma NoMatchInLead(s: string, lead: string)
    requires |lead| <= |s| && s[..|lead|] == lead && 'f' !in lead
    ensures forall j :: 0 <= j < |lead| ==> MatchAt(s, j).None?
  {
    forall j | 0 <= j < |lead|
      ensures MatchAt(s, j).None?
    {
      assert s[j] == lead[j];
      assert j + |Marker| <= |s| ==> s[j..j + |Marker|][0] == s[j];
    }
  }

  /** The capture is the match at `i` when no match starts before it. */
  lemma CaptureAt(s: string, i: nat)
    requires i <= |s| && MatchAt(s, i).Some?
    requires forall j :: 0 <= j < i ==> MatchAt(s, j).None?
    ensures FilenameCapture(s) == MatchAt(s, i)
  {
  }

  /** At `filename="name"` the pattern takes the opening quote and captures `name`. */
  lemma QuotedMatch(lead: string, name: string)
    requires name != "" && '"' !in name
    ensures MatchAt(lead + Marker + "\"" + name + "\"", |lead|) == Some(name)
  {
    var s := lead + Marker + "\"" + name + "\"";
    var i := |lead|;
    assert s[i..i + |Marker|] == Marker;
    assert s[i + |Marker|] == '"';
    var k := i + |Marker| + 1;
    assert forall j :: k <= j < |s| - 1 ==> s[j] == name[j - k];
    RunToQuote(s, k, |s| - 1);
    assert s[k..|s| - 1] == name;
  }

  /** A header `…filename="name"` whose lead-in has no `f` yields exactly `name`. */
  lemma QuotedCapture(lead: string, name: string)
    requires 'f' !in lead && name != "" && '"' !in name
    ensures FilenameCapture(lead + Marker + "\"" + name + "\"") == Some(name)
  {
    var s := lead + Marker + "\"" + name + "\"";
    assert s[..|lead|] == lead;
    NoMatchInLead(s, lead);
    QuotedMatch(lead, name);
    CaptureAt(s, |lead|);
  }

  /** Stripping `.xlsx` from a name with no other dot leaves the stem. */
  lemma StripExtension(stem: string)
    requires '.' !in stem
    ensures ReplaceFirst(stem + ".xlsx", ".xlsx", "") == stem
  {
    var name := stem + ".xlsx";
    forall j: nat | j < |stem|
      ensures !OccursAt(name, ".xlsx", j)
    {
      assert name[j] == stem[j];
      assert j + 5 <= |name| ==> name[j..j + 5][0] == name[j];
    }
    forall j: nat | j > |stem|
      ensures !OccursAt(name, ".xlsx", j)
    {
    }
    assert name[|stem|..|stem| + 5] == ".xlsx";
    assert name[..|stem|] + "" + name[|stem| + 5..] == stem;
  }

  /** A header `…filename="stem.xlsx"` gives the base name `stem`. */
  lemma QuotedBaseName(lead: string, stem: string)
    requires 'f' !in lead && stem != "" && '"' !in stem && '.' !in stem
    ensures BaseName(Some(lead + Marker + "\"" + stem + ".xlsx" + "\"")) == stem
  {
    var name := stem + ".xlsx";
    assert '"' !in name by {
      assert forall j :: 0 <= j < |name| ==> name[j] == if j < |stem| then stem[j] else ".xlsx"[j - |stem|];
    }
    assert lead + Marker + "\"" + stem + ".xlsx" + "\"" == lead + Marker + "\"" + name + "\"";
    QuotedCapture(lead, name);
    StripExtension(stem);
  }

  /** `${filename}_${formattedTimestamp}.xlsx` */
  function FinalFilename(disposition: Option<string>, t: LocalTime): (f: string)
    requires ValidTime(t)
    // the base, an underscore, the stamp, and the spreadsheet extension, in that order
    ensures var b := BaseName(disposition);
            && |f| == |b| + |Timestamp(t)| + 6
            && StartsWith(f, b + "_") && EndsWith(f, Extension)
            && f[|b| + 1..|b| + 1 + |Timestamp(t)|] == Timestamp(t)
  {
    NameParts(BaseName(disposition), Timestamp(t));
    BaseName(disposition) + "_" + Timestamp(t) + Extension
  }

  /** The saved name is the base, `_`, the 15-character stamp and `.xlsx`; without a
      `Content-Disposition` header it is `processed_crime_stats_<14 digits and a dash>.xlsx`. */
  lemma FinalFilenameShape(disposition: Option<string>, t: LocalTime)
    requires ValidTime(t) && 1000 <= t.year <= 9999
    ensures var f := FinalFilename(disposition, t);
            var b := BaseName(disposition);
            && |f| == |b| + 21
            && StartsWith(f, b + "_") && EndsWith(f, ".xlsx")
            && f[|b| + 1..|b| + 16] == Timestamp(t)
    ensures disposition.None? ==> StartsWith(FinalFilename(disposition, t), DefaultBase + "_")
  {
    TimestampShape(t);
  }

  lemma NameParts(b: string, ts: string)
    ensures var f := b + "_" + ts + Extension;
            && |f| == |b| + |ts| + 6
            && StartsWith(f, b + "_") && EndsWith(f, Extension)
            && f[|b| + 1..|b| + 1 + |ts|] == ts
  {
    var f := b + "_" + ts + Extension;
    assert f[..|b| + 1] == b + "_";
    assert f[|b| + 1..|b| + 1 + |ts|] == ts;
    assert f[|f| - 5..] == Extension;
  }
}
