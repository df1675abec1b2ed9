/**
 * `ProgressMonitor`: success and failure counters for an export run, the error
 * records it accumulates, the 40-character progress bar, the remaining-time
 * estimate, the hours/minutes/seconds split of the run time and the
 * "last ten errors" summary.
 *
 * Time is whole seconds read from a clock the caller passes in; the float
 * formulas of the progress percentage and the estimate are replaced by the exact
 * integer floors they approximate.
 */
module ProgressMonitor {
  import opened Wrappers
  import opened Text

  /** One entry of `self.errors` (its timestamp is not modelled). */
  datatype ErrorRecord = ErrorRecord(url: string, error: string)

  /**
   * What `load_log` finds: no log file, a file that cannot be read or parsed
   * (the bare `except` gives `[]`), or a parsed log whose `errors` key may be
   * missing (`.get('errors', [])`).
   */
  datatype PriorLog = NoLog | Unparsable | Log(errors: Option<seq<ErrorRecord>>)

  function PriorErrors(prior: PriorLog): (r: seq<ErrorRecord>)
    ensures prior.Log? && prior.errors.Some? ==> r == prior.errors.value
    ensures !(prior.Log? && prior.errors.Some?) ==> r == []
  {
    match prior
    case Log(Some(errors)) => errors
    case _ => []
  }

  // ---------------------------------------------------------------------------
  // The progress bar

  const BarLength: nat := 40

  /**
   * `int(bar_length * progress_percent // 100)` with `progress_percent` the exact
   * ratio `done / total * 100`: the largest `f` with `f * total <= 40 * done`.
   */
  function FilledLength(done: nat, total: nat): (f: nat)
    requires total > 0
    ensures f * total <= BarLength * done < (f + 1) * total
    ensures done <= total ==> f <= BarLength
    ensures done == total ==> f == BarLength
  {
    var f := BarLength * done / total;
    FilledBounds(done, total, f);
    f
  }

  lemma FilledBounds(done: nat, total: nat, f: int)
    requires total > 0 && f == BarLength * done / total
    ensures f * total <= BarLength * done < (f + 1) * total
    ensures done <= total ==> f <= BarLength
    ensures done == total ==> f == BarLength
  {
    assert BarLength * done == total * f + BarLength * done % total;
    if done <= total && f > BarLength { MulLe(BarLength + 1, f, total); }
    if done == total && f < BarLength { MulLe(f + 1, BarLength, total); }
  }

  lemma MulLe(x: nat, y: nat, t: nat)
    requires x <= y
    ensures x * t <= y * t
  {
  }

  /**
   * `'█' * filled + '-' * (40 - filled)`. Past the end (more updates than
   * documents) the dashes vanish and the filled part keeps growing.
   */
  function Bar(done: nat, total: nat): (bar: string)
    requires total > 0
    ensures |bar| == if FilledLength(done, total) <= BarLength then BarLength else FilledLength(done, total)
    ensures forall k :: 0 <= k < |bar| ==> bar[k] == if k < FilledLength(done, total) then '█' else '-'
  {
    var f := FilledLength(done, total);
    Repeat('█', f) + Repeat('-', BarLength - f)
  }

  /** The bar is exactly 40 characters wide while no more documents are done than announced. */
  lemma BarWidth(done: nat, total: nat)
    requires total > 0 && done <= total
    ensures |Bar(done, total)| == BarLength
    ensures done == 0 ==> forall k :: 0 <= k < BarLength ==> Bar(done, total)[k] == '-'
    ensures done == total ==> forall k :: 0 <= k < BarLength ==> Bar(done, total)[k] == '█'
  {
  }

  /** Counting every document twice overflows the bar to twice its width once all updates are in. */
  lemma BarOverflow(total: nat)
    requires total > 0
    ensures |Bar(2 * total, total)| == 2 * BarLength
  {
    assert FilledLength(2 * total, total) == 2 * BarLength by {
      var f := FilledLength(2 * total, total);
      assert f * total <= 2 * BarLength * total < (f + 1) * total;
      MulCancel(f, 2 * BarLength, total);
    }
  }

  lemma MulCancel(f: nat, g: nat, t: nat)
    requires t > 0 && f * t <= g * t < (f + 1) * t
    ensures f == g
  {
    if f < g { MulLe(f + 1, g, t); }
    if f > g { MulLe(g + 1, f, t); }
  }

  // ---------------------------------------------------------------------------
  // The remaining-time estimate

  /**
   * "计算中..." or "{m}分{s}秒". With `eta = remaining * elapsed / done` taken
   * exactly, `m = int(eta // 60)` and `s = int(eta % 60)`.
   */
  datatype Eta = Computing | Remaining(minutes: int, seconds: int)

  /**
   * The estimate after `done >= 1` updates: computed only when a start time is
   * set. `remaining` is negative once more updates than documents have arrived.
   */
  function EstimateEta(startTime: Option<int>, now: int, total: nat, done: nat): (eta: Eta)
    requires done > 0
    ensures eta.Computing? <==> startTime.None?
    ensures eta.Remaining? ==>
      var product := (total - done) * (now - startTime.value);
      0 <= eta.seconds < 60
      && (60 * eta.minutes + eta.seconds) * done <= product < (60 * eta.minutes + eta.seconds + 1) * done
  {
    match startTime
    case None => Computing
    case Some(start) =>
      var product := (total - done) * (now - start);
      var m := product / (60 * done);
      var s := product % (60 * done) / done;
      EtaSplit(product, done);
      Remaining(m, s)
  }

  /** Splitting `x / d` into minutes and seconds by floors: `60 m + s == floor(x / d)`, `0 <= s < 60`. */
  lemma EtaSplit(x: int, d: nat)
    requires d > 0
    ensures var m, s := x / (60 * d), x % (60 * d) / d;
      0 <= s < 60 && (60 * m + s) * d <= x < (60 * m + s + 1) * d
  {
    var q, r := x / (60 * d), x % (60 * d);
    assert x == 60 * d * q + r && 0 <= r < 60 * d;
    var s, t := r / d, r % d;
    assert r == d * s + t && 0 <= t < d;
    assert (60 * q + s) * d == 60 * d * q + d * s;
    assert (60 * q + s + 1) * d == 60 * d * q + d * s + d;
  }

  // ---------------------------------------------------------------------------
  // The run time

  /** `int(t // 3600)`, `int((t % 3600) // 60)`, `int(t % 60)`. */
  datatype Hms = Hms(hours: int, minutes: int, seconds: int)

  function SplitDuration(t: int): (r: Hms)
    ensures r.hours * 3600 + r.minutes * 60 + r.seconds == t
    ensures 0 <= r.minutes < 60 && 0 <= r.seconds < 60
  {
    var h := t / 3600;
    var m := t % 3600 / 60;
    var s := t % 60;
    HmsSplit(t);
    Hms(h, m, s)
  }

  lemma HmsSplit(t: int)
    ensures var h, m, s := t / 3600, t % 3600 / 60, t % 60;
      h * 3600 + m * 60 + s == t && 0 <= m < 60 && 0 <= s < 60
  {
    var h, r := t / 3600, t % 3600;
    assert t == 3600 * h + r && 0 <= r < 3600;
    var m, s := r / 60, r % 60;
    assert r == 60 * m + s && 0 <= s < 60;
    assert t == 60 * (60 * h + m) + s;
    ModUnique(t, 60 * h + m, s);
  }

  lemma ModUnique(t: int, q: int, s: int)
    requires t == 60 * q + s && 0 <= s < 60
    ensures t % 60 == s
  {
  }

  /** The split is unique: any decomposition with minutes and seconds below 60 is this one. */
  lemma SplitDurationUnique(t: int, h: int, m: int, s: int)
    requires h * 3600 + m * 60 + s == t && 0 <= m < 60 && 0 <= s < 60
    ensures SplitDuration(t) == Hms(h, m, s)
  {
    var r := SplitDuration(t);
    var a := h * 60 + m;
    var b := r.hours * 60 + r.minutes;
    assert 60 * a + s == 60 * b + r.seconds;
    QuotientUnique(a, s, b, r.seconds);
    QuotientUnique(h, m, r.hours, r.minutes);
  }

  lemma QuotientUnique(q1: int, r1: int, q2: int, r2: int)
    requires 60 * q1 + r1 == 60 * q2 + r2 && 0 <= r1 < 60 && 0 <= r2 < 60
    ensures q1 == q2 && r1 == r2
  {
  }

  // ---------------------------------------------------------------------------
  // What the monitor shows and saves

  /** What one `update_progress` call displays. */
  datatype Display = Display(
    bar: string,
    done: nat,
    total: nat,
    succeeded: nat,
    failed: nat,
    eta: Eta,
    current: string,
    errorShown: Option<string>)

  /** `save_log`'s record (its export time is not modelled). */
  datatype LogData = LogData(totalDocs: nat, processedDocs: nat, failedDocs: nat, errors: seq<ErrorRecord>)

  /** What `finish_export` reports and saves, when the run was started. */
  datatype Finish = Finish(runTime: Hms, log: LogData)

  /** `s[:n]`. */
  function Take(s: string, n: nat): (r: string)
    ensures r <= s && |r| == if |s| <= n then |s| else n
  {
    if |s| <= n then s else s[..n]
  }

  /** One entry of the error summary: its number, the message and the URL cut to 60 characters. */
  datatype SummaryLine = SummaryLine(number: nat, error: string, url: string)

  datatype ErrorSummary =
    | NoErrors
    | Summary(count: nat, lines: seq<SummaryLine>, hidden: Option<nat>)

  const SummaryWindow: nat := 10

  /** `errors[-10:]`: the last ten records, or all of them when there are fewer. */
  function LastErrors(errors: seq<ErrorRecord>): (w: seq<ErrorRecord>)
    ensures |w| == if |errors| < SummaryWindow then |errors| else SummaryWindow
    ensures w == errors[|errors| - |w|..]
  {
    if |errors| < SummaryWindow then errors else errors[|errors| - SummaryWindow..]
  }

  class Monitor {
    const logFile: string
    var startTime: Option<int>
    var totalDocs: nat
    var processedDocs: nat
    var failedDocs: nat
    var currentDoc: string
    var errors: seq<ErrorRecord>

    /** Every failure since the last start left a record, so there are at least as many records as failures. */
    predicate Valid()
      reads this
    {
      failedDocs <= |errors|
    }

    /** `__init__` followed by `load_log`. */
    constructor (logFile: string, prior: PriorLog)
      ensures this.logFile == logFile
      ensures startTime == None && totalDocs == 0 && processedDocs == 0 && failedDocs == 0 && currentDoc == ""
      ensures errors == PriorErrors(prior)
      ensures Valid()
    {
      this.logFile := logFile;
      startTime := None;
      totalDocs := 0;
      processedDocs := 0;
      failedDocs := 0;
      currentDoc := "";
      errors := PriorErrors(prior);
    }

    /** `start_export`: a fresh count, a start time, and the old error records kept. */
    method StartExport(total: nat, now: int)
      modifies this
      ensures startTime == Some(now) && totalDocs == total
      ensures processedDocs == 0 && failedDocs == 0 && currentDoc == ""
      ensures errors == old(errors)
      ensures Valid()
    {
      startTime := Some(now);
      totalDocs := total;
      processedDocs := 0;
      failedDocs := 0;
      currentDoc := "";
    }

    /**
     * `update_progress`: count one success or one failure (recording it), then
     * compute what is displayed. The division by `total_docs` needs it non-zero.
     */
    method UpdateProgress(url: string, success: bool, errorMsg: string, now: int) returns (shown: Display)
      requires totalDocs > 0
      modifies this
      ensures success ==> processedDocs == old(processedDocs) + 1 && failedDocs == old(failedDocs)
      ensures success ==> errors == old(errors)
      ensures !success ==> failedDocs == old(failedDocs) + 1 && processedDocs == old(processedDocs)
      ensures !success ==> errors == old(errors) + [ErrorRecord(url, errorMsg)]
      ensures processedDocs + failedDocs == old(processedDocs) + old(failedDocs) + 1
      ensures currentDoc == url && startTime == old(startTime) && totalDocs == old(totalDocs)
      ensures old(Valid()) ==> Valid()
      ensures shown.done == processedDocs + failedDocs && shown.total == totalDocs
      ensures shown.succeeded == processedDocs && shown.failed == failedDocs
      ensures shown.bar == Bar(shown.done, totalDocs)
      ensures shown.eta == EstimateEta(startTime, now, totalDocs, shown.done)
      ensures shown.eta.Computing? <==> startTime.None?
      ensures shown.current == Take(url, 50)
      ensures shown.errorShown == if !success && errorMsg != "" then Some(errorMsg) else None
    {
      currentDoc := url;
      if success {
        processedDocs := processedDocs + 1;
      } else {
        failedDocs := failedDocs + 1;
        errors := errors + [ErrorRecord(url, errorMsg)];
      }
      var done := processedDocs + failedDocs;
      var eta := EstimateEta(startTime, now, totalDocs, done);
      var bar := Bar(done, totalDocs);
      shown := Display(bar, done, totalDocs, processedDocs, failedDocs, eta, Take(url, 50),
        if !success && errorMsg != "" then Some(errorMsg) else None);
    }

    /** `finish_export`: nothing unless the run was started; otherwise the run time split and the log saved. */
    method FinishExport(now: int) returns (result: Option<Finish>)
      ensures startTime.None? <==> result.None?
      ensures result.Some? ==> result.value.runTime == SplitDuration(now - startTime.value)
      ensures result.Some? ==> result.value.log == LogData(totalDocs, processedDocs, failedDocs, errors)
    {
      match startTime
      case None =>
        result := None;
      case Some(start) =>
        result := Some(Finish(SplitDuration(now - start), LogData(totalDocs, processedDocs, failedDocs, errors)));
    }

    /** `print_error_summary`: the last ten records, numbered from 1, and how many more there are. */
    method SummarizeErrors() returns (summary: ErrorSummary)
      ensures SummaryOf(errors, summary)
    {
      if errors == [] {
        return NoErrors;
      }
      var window := LastErrors(errors);
      var lines: seq<SummaryLine> := [];
      var i := 0;
      while i < |window|
        invariant 0 <= i <= |window|
        invariant |lines| == i
        invariant forall k :: 0 <= k < i ==> lines[k] == SummaryLine(k + 1, window[k].error, Take(window[k].url, 60))
      {
        lines := lines + [SummaryLine(i + 1, window[i].error, Take(window[i].url, 60))];
        i := i + 1;
      }
      var hidden := if |errors| > SummaryWindow then Some(|errors| - SummaryWindow) else None;
      summary := Summary(|errors|, lines, hidden);
    }
  }

  /**
   * What `print_error_summary` shows for `errors`: nothing without errors; otherwise
   * the count, the last ten records numbered from 1 with their URL cut to 60
   * characters, and how many earlier ones are hidden when there are more than ten.
   */
  predicate SummaryOf(errors: seq<ErrorRecord>, summary: ErrorSummary) {
    && (errors == [] <==> summary.NoErrors?)
    && (summary.Summary? ==>
          var w := LastErrors(errors);
          && summary.count == |errors|
          && |summary.lines| == |w|
          && (forall k :: 0 <= k < |w| ==>
                summary.lines[k] == SummaryLine(k + 1, w[k].error, Take(w[k].url, 60)))
          && (summary.hidden.Some? <==> |errors| > SummaryWindow)
          && (summary.hidden.Some? ==> summary.hidden.value == |errors| - SummaryWindow))
  }

  /** The records fix the summary: two summaries of the same records are the same. */
  lemma SummaryOfUnique(errors: seq<ErrorRecord>, s1: ErrorSummary, s2: ErrorSummary)
    requires SummaryOf(errors, s1) && SummaryOf(errors, s2)
    ensures s1 == s2
  {
    if s1.Summary? {
      assert s1.lines == s2.lines;
    }
  }

  /** The summary's window: at most ten records, all of them when there are at most ten, and always the newest. */
  lemma LastErrorsWindow(errors: seq<ErrorRecord>, e: ErrorRecord)
    ensures |errors| <= SummaryWindow ==> LastErrors(errors) == errors
    ensures LastErrors(errors + [e])[|LastErrors(errors + [e])| - 1] == e
    ensures |errors| >= SummaryWindow ==> LastErrors(errors + [e]) == LastErrors(errors)[1..] + [e]
  {
    var s := errors + [e];
    if |errors| >= SummaryWindow {
      assert s[|s| - SummaryWindow..] == errors[|errors| - SummaryWindow + 1..] + [e];
    }
  }
}
