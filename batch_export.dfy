/**
 * `FeishuBatchExporter`'s bookkeeping: which list each document lands in, the
 * two progress updates it makes per document, the order in which the export
 * button is looked for, the pauses between documents, and the totals of the
 * closing summary and report.
 *
 * The browser is an oracle: for each document the caller says how the page
 * behaved (`PageOutcome`), whether the Chrome driver starts, and what the clock
 * reads. Sleeping is recorded as the list of pauses taken.
 */
module BatchExport {
  import opened Wrappers
  import opened Text
  import opened LineFile
  import opened ProgressMonitor

  /**
   * How a document page behaves: loading it times out, loading it raises
   * something else, or it loads, and then the print hotkey either works or
   * raises, and each export-button selector either finds a clickable element or not.
   */
  datatype PageOutcome =
    | LoadTimeout(message: string)
    | LoadError(message: string)
    | Loaded(hotkeyRaises: bool, clickable: string -> bool)

  /** The XPath selectors tried, in this order, once the hotkey has failed. */
  const ExportSelectors: seq<string> := [
    "//button[contains(text(), '导出')]",
    "//button[contains(@title, '导出')]",
    "//div[contains(@class, 'export')]",
    "//span[contains(text(), '导出')]",
    "//button[contains(@aria-label, '导出')]"
  ]

  /** Which way `click_export_button` succeeded, if it did. */
  datatype ClickPath = Hotkey | Selector(index: nat) | NotFound

  /** Whether `click_export_button` returns `True`. */
  predicate ClickSucceeds(hotkeyRaises: bool, clickable: string -> bool) {
    !hotkeyRaises || exists i :: 0 <= i < |ExportSelectors| && clickable(ExportSelectors[i])
  }

  /** Whether the document ends up exported (in `processed_links`). */
  predicate Exported(outcome: PageOutcome) {
    outcome.Loaded? && ClickSucceeds(outcome.hotkeyRaises, outcome.clickable)
  }

  /** The progress message recorded before anything is tried. */
  const Pending: string := "正在处理..."

  /** The error message of a document that was not exported. */
  function FailureMessage(outcome: PageOutcome): string {
    match outcome
    case LoadTimeout(m) => "页面加载超时: " + m
    case LoadError(m) => "处理出错: " + m
    case Loaded(_, _) => "无法找到导出按钮"
  }

  /** The error records one document leaves on the monitor: always the pending one, then the real failure if any. */
  function DocTrail(url: string, outcome: PageOutcome): (t: seq<ErrorRecord>)
    ensures |t| == if Exported(outcome) then 1 else 2
    ensures t[0] == ErrorRecord(url, Pending)
    ensures !Exported(outcome) ==> t[1] == ErrorRecord(url, FailureMessage(outcome))
  {
    [ErrorRecord(url, Pending)] + (if Exported(outcome) then [] else [ErrorRecord(url, FailureMessage(outcome))])
  }

  // ---------------------------------------------------------------------------
  // A whole run, as functions of the links and the outcomes (document i, from 1, meets outcomes(i))

  function Processed(links: seq<string>, outcomes: nat -> PageOutcome): seq<string>
    decreases |links|
  {
    if links == [] then []
    else
      var n := |links|;
      Processed(links[..n - 1], outcomes) + (if Exported(outcomes(n)) then [links[n - 1]] else [])
  }

  function Failed(links: seq<string>, outcomes: nat -> PageOutcome): seq<string>
    decreases |links|
  {
    if links == [] then []
    else
      var n := |links|;
      Failed(links[..n - 1], outcomes) + (if Exported(outcomes(n)) then [] else [links[n - 1]])
  }

  function Trail(links: seq<string>, outcomes: nat -> PageOutcome): seq<ErrorRecord>
    decreases |links|
  {
    if links == [] then []
    else
      var n := |links|;
      Trail(links[..n - 1], outcomes) + DocTrail(links[n - 1], outcomes(n))
  }

  /** Every link goes to exactly one of the two lists: together they hold the links, each as often as it occurs. */
  lemma {:induction false} Partition(links: seq<string>, outcomes: nat -> PageOutcome)
    ensures multiset(Processed(links, outcomes)) + multiset(Failed(links, outcomes)) == multiset(links)
    decreases |links|
  {
    if links != [] {
      var n := |links|;
      Partition(links[..n - 1], outcomes);
      assert links == links[..n - 1] + [links[n - 1]];
    }
  }

  /** The two lists count the links, and the monitor gets one pending record per link plus one per failure. */
  lemma {:induction false} PartitionSizes(links: seq<string>, outcomes: nat -> PageOutcome)
    ensures |Processed(links, outcomes)| + |Failed(links, outcomes)| == |links|
    ensures |Trail(links, outcomes)| == |links| + |Failed(links, outcomes)|
    decreases |links|
  {
    if links != [] {
      PartitionSizes(links[..|links| - 1], outcomes);
    }
  }

  /**
   * Runs chain through the log: a run that loaded `prior` saves its records
   * followed by the run's trail, and the next run's `load_log` reads back exactly
   * that, so it starts with every earlier record and one more per link and per
   * failure.
   */
  lemma NextRunErrors(prior: PriorLog, links: seq<string>, outcomes: nat -> PageOutcome, log: LogData)
    requires log.errors == PriorErrors(prior) + Trail(links, outcomes)
    ensures PriorErrors(Log(Some(log.errors))) == PriorErrors(prior) + Trail(links, outcomes)
    ensures PriorErrors(prior) <= PriorErrors(Log(Some(log.errors)))
    ensures |PriorErrors(Log(Some(log.errors)))| == |PriorErrors(prior)| + |links| + |Failed(links, outcomes)|
  {
    PartitionSizes(links, outcomes);
  }

  /** Every failed link is one of the links, so a links file reloads the failures unchanged. */
  lemma {:induction false} FailedFromLinks(links: seq<string>, outcomes: nat -> PageOutcome)
    ensures forall k :: 0 <= k < |Failed(links, outcomes)| ==> Failed(links, outcomes)[k] in links
    ensures forall k :: 0 <= k < |Processed(links, outcomes)| ==> Processed(links, outcomes)[k] in links
    decreases |links|
  {
    if links != [] {
      var n := |links|;
      var init := links[..n - 1];
      FailedFromLinks(init, outcomes);
      forall k | 0 <= k < |Failed(links, outcomes)| ensures Failed(links, outcomes)[k] in links {
        if k < |Failed(init, outcomes)| { InPrefix(links, n - 1, Failed(init, outcomes)[k]); }
      }
      forall k | 0 <= k < |Processed(links, outcomes)| ensures Processed(links, outcomes)[k] in links {
        if k < |Processed(init, outcomes)| { InPrefix(links, n - 1, Processed(init, outcomes)[k]); }
      }
    }
  }

  lemma InPrefix(s: seq<string>, n: nat, x: string)
    requires n <= |s|
    requires x in s[..n]
    ensures x in s
  {
    var k :| 0 <= k < n && s[..n][k] == x;
    assert s[k] == x;
  }

  /** The failed-links file, read back, gives the failed links in order. */
  lemma FailedFileReloads(links: seq<string>, outcomes: nat -> PageOutcome)
    requires forall k :: 0 <= k < |links| ==> IsLine(links[k])
    ensures ParseLinks(WriteLines(Failed(links, outcomes))) == Failed(links, outcomes)
  {
    FailedAreLines(links, outcomes);
    ParseWriteLines(Failed(links, outcomes));
  }

  lemma FailedAreLines(links: seq<string>, outcomes: nat -> PageOutcome)
    requires forall k :: 0 <= k < |links| ==> IsLine(links[k])
    ensures forall k :: 0 <= k < |Failed(links, outcomes)| ==> IsLine(Failed(links, outcomes)[k])
  {
    FailedFromLinks(links, outcomes);
    var f := Failed(links, outcomes);
    forall k | 0 <= k < |f| ensures IsLine(f[k]) {
      var j :| 0 <= j < |links| && links[j] == f[k];
    }
  }

  /** The pause after the i-th document (from 1): 30 seconds after every tenth, `delay` otherwise. */
  function Pause(i: nat, delay: nat): nat {
    if i % 10 == 0 then 30 else delay
  }

  function Pauses(n: nat, delay: nat): (p: seq<nat>)
    ensures |p| == n
    ensures forall k :: 0 <= k < n ==> p[k] == Pause(k + 1, delay)
  {
    if n == 0 then [] else Pauses(n - 1, delay) + [Pause(n, delay)]
  }

  function Sum(s: seq<nat>): nat {
    if s == [] then 0 else Sum(s[..|s| - 1]) + s[|s| - 1]
  }

  /** Seconds slept after the first n documents, one pause at a time. */
  function Slept(n: nat, delay: nat): nat {
    if n == 0 then 0 else Slept(n - 1, delay) + Pause(n, delay)
  }

  /** The n-th pause adds its own length to the total of the first n - 1. */
  lemma PausesSnoc(n: nat, delay: nat)
    requires n > 0
    ensures Sum(Pauses(n, delay)) == Sum(Pauses(n - 1, delay)) + Pause(n, delay)
  {
    var p := Pauses(n, delay);
    assert p[..n - 1] == Pauses(n - 1, delay);
  }

  lemma {:induction false} SumPauses(n: nat, delay: nat)
    ensures Sum(Pauses(n, delay)) == Slept(n, delay)
  {
    if n > 0 {
      PausesSnoc(n, delay);
      SumPauses(n - 1, delay);
    }
  }

  /** The closed form carries over from n - 1 documents to n. */
  lemma PauseArith(n: nat, delay: nat, before: int, after: int)
    requires n > 0
    requires before == 30 * ((n - 1) / 10) + delay * (n - 1 - (n - 1) / 10)
    requires after == before + Pause(n, delay)
    ensures after == 30 * (n / 10) + delay * (n - n / 10)
  {
    var q, l := (n - 1) / 10, n / 10;
    var r := (n - 1) % 10;
    assert n - 1 == 10 * q + r && 0 <= r < 10;
    if r == 9 {
      assert n == 10 * (q + 1);
      assert l == q + 1;
    } else {
      assert n == 10 * q + (r + 1);
      assert l == q && n % 10 == r + 1;
      assert delay * (n - q) == delay * (n - 1 - q) + delay;
    }
  }

  lemma {:induction false} SleptClosed(n: nat, delay: nat)
    ensures Slept(n, delay) == 30 * (n / 10) + delay * (n - n / 10)
  {
    if n > 0 {
      SleptClosed(n - 1, delay);
      PauseArith(n, delay, Slept(n - 1, delay), Slept(n, delay));
    }
  }

  /** Over n documents: n / 10 long rests and `delay` after all the others. */
  lemma {:induction false} TotalPause(n: nat, delay: nat)
    ensures Sum(Pauses(n, delay)) == 30 * (n / 10) + delay * (n - n / 10)
  {
    SumPauses(n, delay);
    SleptClosed(n, delay);
  }

  /** One more document: each list and the trail grow by what that document contributes. */
  lemma RunStep(links: seq<string>, i: nat, outcomes: nat -> PageOutcome)
    requires i < |links|
    ensures Processed(links[..i + 1], outcomes) == Processed(links[..i], outcomes) + (if Exported(outcomes(i + 1)) then [links[i]] else [])
    ensures Failed(links[..i + 1], outcomes) == Failed(links[..i], outcomes) + (if Exported(outcomes(i + 1)) then [] else [links[i]])
    ensures Trail(links[..i + 1], outcomes) == Trail(links[..i], outcomes) + DocTrail(links[i], outcomes(i + 1))
  {
    assert links[..i + 1][..i] == links[..i];
  }

  // ---------------------------------------------------------------------------
  // The exporter

  /** `create_export_report`'s record (its time stamp is not modelled). */
  datatype ExportReport = ExportReport(
    totalDocs: nat,
    successful: nat,
    failed: nat,
    downloadDirectory: string,
    processedLinks: seq<string>,
    failedLinks: seq<string>)

  /** What `print_export_summary` shows and writes. */
  datatype ExportSummary = ExportSummary(
    successful: nat,
    failed: nat,
    errors: ErrorSummary,
    failedFile: Option<string>,
    report: ExportReport)

  /**
   * How `export_all_documents` ends. Writing failed_links.txt is the one step of
   * the summary outside any `try`: when it raises, the report is never made and
   * the outer `except Exception` finishes the monitor a second time.
   */
  datatype RunEnd =
    | NoLinks
    | DriverFailed
    | Finished(pauses: seq<nat>, finish: Option<Finish>, summary: ExportSummary)
    | SummaryFailed(pauses: seq<nat>, finish: Option<Finish>, refinish: Option<Finish>)

  class Exporter {
    const linksFile: string
    const downloadDir: string
    const delay: nat
    const monitor: Monitor
    var processedLinks: seq<string>
    var failedLinks: seq<string>

    constructor (linksFile: string, downloadDir: string, delay: nat, prior: PriorLog)
      ensures this.linksFile == linksFile && this.downloadDir == downloadDir && this.delay == delay
      ensures processedLinks == [] && failedLinks == []
      ensures fresh(monitor) && monitor.errors == PriorErrors(prior) && monitor.startTime == None
      ensures monitor.processedDocs == 0 && monitor.failedDocs == 0
    {
      this.linksFile := linksFile;
      this.downloadDir := downloadDir;
      this.delay := delay;
      processedLinks := [];
      failedLinks := [];
      monitor := new Monitor("export_log.json", prior);
    }

    /**
     * `click_export_button`: the hotkey path wins when it does not raise;
     * otherwise the selectors are tried in order and the first clickable one wins.
     */
    method ClickExportButton(hotkeyRaises: bool, clickable: string -> bool) returns (clicked: bool, via: ClickPath)
      ensures clicked <==> ClickSucceeds(hotkeyRaises, clickable)
      ensures clicked <==> !via.NotFound?
      ensures via.Hotkey? <==> !hotkeyRaises
      ensures via.Selector? ==>
        via.index < |ExportSelectors| && clickable(ExportSelectors[via.index])
        && forall j :: 0 <= j < via.index ==> !clickable(ExportSelectors[j])
    {
      if !hotkeyRaises {
        return true, Hotkey;
      }
      var i := 0;
      while i < |ExportSelectors|
        invariant 0 <= i <= |ExportSelectors|
        invariant forall j :: 0 <= j < i ==> !clickable(ExportSelectors[j])
      {
        if clickable(ExportSelectors[i]) {
          return true, Selector(i);
        }
        i := i + 1;
      }
      return false, NotFound;
    }

    /**
     * `export_single_document`: a pending failure is reported first, then the
     * real outcome, and the URL is appended to exactly one of the two lists.
     */
    method ExportSingleDocument(url: string, outcome: PageOutcome, now: int)
      requires monitor.totalDocs > 0
      modifies this, monitor
      ensures Exported(outcome) ==> processedLinks == old(processedLinks) + [url] && failedLinks == old(failedLinks)
      ensures !Exported(outcome) ==> failedLinks == old(failedLinks) + [url] && processedLinks == old(processedLinks)
      ensures monitor.errors == old(monitor.errors) + DocTrail(url, outcome)
      ensures monitor.processedDocs == old(monitor.processedDocs) + (if Exported(outcome) then 1 else 0)
      ensures monitor.failedDocs == old(monitor.failedDocs) + (if Exported(outcome) then 1 else 2)
      ensures monitor.totalDocs == old(monitor.totalDocs) && monitor.startTime == old(monitor.startTime)
      ensures old(monitor.Valid()) ==> monitor.Valid()
    {
      var shown := monitor.UpdateProgress(url, false, Pending, now);
      match outcome
      case LoadTimeout(m) =>
        shown := monitor.UpdateProgress(url, false, "页面加载超时: " + m, now);
        failedLinks := failedLinks + [url];
      case LoadError(m) =>
        shown := monitor.UpdateProgress(url, false, "处理出错: " + m, now);
        failedLinks := failedLinks + [url];
      case Loaded(hotkeyRaises, clickable) =>
        var exported, via := ClickExportButton(hotkeyRaises, clickable);
        if exported {
          shown := monitor.UpdateProgress(url, true, "", now);
          processedLinks := processedLinks + [url];
        } else {
          shown := monitor.UpdateProgress(url, false, "无法找到导出按钮", now);
          failedLinks := failedLinks + [url];
        }
    }

    /** `create_export_report`: the total is the two lists together. */
    function Report(): (r: ExportReport)
      reads this
      ensures r.totalDocs == r.successful + r.failed
      ensures r.successful == |processedLinks| && r.failed == |failedLinks|
      ensures r.processedLinks == processedLinks && r.failedLinks == failedLinks
      ensures r.downloadDirectory == downloadDir
    {
      ExportReport(|processedLinks| + |failedLinks|, |processedLinks|, |failedLinks|, downloadDir, processedLinks, failedLinks)
    }

    /**
     * `print_export_summary`: counts, the error summary, the failed-links file
     * when there are failures, the report. `None`: the failed-links file could
     * not be written (`writable` false), which raises before the report is made.
     */
    method PrintExportSummary(writable: bool) returns (summary: Option<ExportSummary>)
      ensures summary.None? <==> failedLinks != [] && !writable
      ensures summary.Some? ==> summary.value.successful == |processedLinks| && summary.value.failed == |failedLinks|
      ensures summary.Some? ==> SummaryOf(monitor.errors, summary.value.errors)
      ensures summary.Some? ==> (summary.value.failedFile.Some? <==> failedLinks != [])
      ensures summary.Some? && summary.value.failedFile.Some? ==> summary.value.failedFile.value == WriteLines(failedLinks)
      ensures summary.Some? ==> summary.value.report == Report()
    {
      var errors := monitor.SummarizeErrors();
      var failedFile := None;
      if failedLinks != [] {
        if !writable {
          return None;
        }
        failedFile := Some(WriteLines(failedLinks));
      }
      summary := Some(ExportSummary(|processedLinks|, |failedLinks|, errors, failedFile, Report()));
    }

    /** The `for` loop of `export_all_documents`: each link exported in turn, then the pause after it. */
    method ExportEach(links: seq<string>, outcomes: nat -> PageOutcome, clock: nat -> int) returns (pauses: seq<nat>)
      requires monitor.totalDocs > 0
      modifies this, monitor
      ensures processedLinks == old(processedLinks) + Processed(links, outcomes)
      ensures failedLinks == old(failedLinks) + Failed(links, outcomes)
      ensures monitor.errors == old(monitor.errors) + Trail(links, outcomes)
      ensures monitor.processedDocs == old(monitor.processedDocs) + |Processed(links, outcomes)|
      ensures monitor.failedDocs == old(monitor.failedDocs) + |links| + |Failed(links, outcomes)|
      ensures monitor.totalDocs == old(monitor.totalDocs) && monitor.startTime == old(monitor.startTime)
      ensures pauses == Pauses(|links|, delay)
    {
      pauses := [];
      var i := 0;
      while i < |links|
        invariant 0 <= i <= |links|
        invariant monitor.totalDocs == old(monitor.totalDocs) && monitor.startTime == old(monitor.startTime)
        invariant processedLinks == old(processedLinks) + Processed(links[..i], outcomes)
        invariant failedLinks == old(failedLinks) + Failed(links[..i], outcomes)
        invariant monitor.errors == old(monitor.errors) + Trail(links[..i], outcomes)
        invariant monitor.processedDocs == old(monitor.processedDocs) + |Processed(links[..i], outcomes)|
        invariant monitor.failedDocs == old(monitor.failedDocs) + i + |Failed(links[..i], outcomes)|
        invariant pauses == Pauses(i, delay)
      {
        ExportSingleDocument(links[i], outcomes(i + 1), clock(i + 1));
        RunStep(links, i, outcomes);
        var exported := Exported(outcomes(i + 1));
        AppendAssoc(old(processedLinks), Processed(links[..i], outcomes), if exported then [links[i]] else []);
        AppendAssoc(old(failedLinks), Failed(links[..i], outcomes), if exported then [] else [links[i]]);
        AppendAssoc(old(monitor.errors), Trail(links[..i], outcomes), DocTrail(links[i], outcomes(i + 1)));
        pauses := pauses + [Pause(i + 1, delay)];
        i := i + 1;
      }
      assert links[..|links|] == links;
    }

    /**
     * What a run over `links` leaves behind, once the monitor was started and the
     * driver runs: the summary completes unless there are failures and the
     * failed-links file is not `writable`; then the monitor is finished again,
     * saving the same log with a later run time.
     */
    ghost predicate RunEffect(links: seq<string>, outcomes: nat -> PageOutcome, clock: nat -> int, writable: bool, end: RunEnd,
                              processed0: seq<string>, failed0: seq<string>, errors0: seq<ErrorRecord>)
      reads this, monitor
    {
      && (end.Finished? || end.SummaryFailed?)
      && (end.SummaryFailed? <==> failedLinks != [] && !writable)
      && processedLinks == processed0 + Processed(links, outcomes)
      && failedLinks == failed0 + Failed(links, outcomes)
      && monitor.errors == errors0 + Trail(links, outcomes)
      && monitor.processedDocs == |Processed(links, outcomes)|
      && monitor.processedDocs + monitor.failedDocs == 2 * |links|
      && end.pauses == Pauses(|links|, delay)
      && end.finish.Some?
      && end.finish.value.runTime == SplitDuration(clock(|links| + 1) - clock(0))
      && end.finish.value.log == LogData(|links|, monitor.processedDocs, monitor.failedDocs, monitor.errors)
      && (end.Finished? ==> end.summary.report.totalDocs == |processed0| + |failed0| + |links|)
      && (end.Finished? ==> end.summary.failed == |failed0| + |Failed(links, outcomes)|)
      && (end.Finished? ==> SummaryOf(monitor.errors, end.summary.errors))
      && (end.Finished? ==> end.summary.failedFile == (if failedLinks != [] then Some(WriteLines(failedLinks)) else None))
      && (end.SummaryFailed? ==>
            && end.refinish.Some?
            && end.refinish.value.runTime == SplitDuration(clock(|links| + 2) - clock(0))
            && end.refinish.value.log == end.finish.value.log)
    }

    /** The part of `export_all_documents` after the driver has started. */
    method RunLinks(links: seq<string>, outcomes: nat -> PageOutcome, clock: nat -> int, writable: bool) returns (end: RunEnd)
      requires links != [] && monitor.totalDocs == |links| && monitor.startTime == Some(clock(0))
      requires monitor.processedDocs == 0 && monitor.failedDocs == 0
      modifies this, monitor
      ensures monitor.totalDocs == |links| && monitor.startTime == Some(clock(0))
      ensures RunEffect(links, outcomes, clock, writable, end, old(processedLinks), old(failedLinks), old(monitor.errors))
    {
      var pauses := ExportEach(links, outcomes, clock);
      PartitionSizes(links, outcomes);
      assert monitor.processedDocs + monitor.failedDocs == 2 * |links|;
      var finish := monitor.FinishExport(clock(|links| + 1));
      var summary := PrintExportSummary(writable);
      if summary.None? {
        var refinish := monitor.FinishExport(clock(|links| + 2));
        end := SummaryFailed(pauses, finish, refinish);
      } else {
        end := Finished(pauses, finish, summary.value);
        assert end.summary.report.totalDocs == |old(processedLinks)| + |old(failedLinks)| + |links|;
      }
    }

    /**
     * `export_all_documents`: load the links; stop if there are none; start the
     * monitor; stop if the driver does not start; otherwise export every link,
     * pause after each, finish the monitor and summarize.
     */
    method ExportAllDocuments(file: FileRead, driverStarts: bool, outcomes: nat -> PageOutcome, clock: nat -> int,
                              writable: bool)
      returns (end: RunEnd)
      modifies this, monitor
      ensures LoadOrEmpty(file) == [] ==> end == NoLinks && unchanged(monitor)
      ensures LoadOrEmpty(file) != [] && !driverStarts ==> end == DriverFailed
      ensures LoadOrEmpty(file) != [] && driverStarts ==> end.Finished? || end.SummaryFailed?
      ensures end.NoLinks? || end.DriverFailed? ==> processedLinks == old(processedLinks) && failedLinks == old(failedLinks)
      ensures LoadOrEmpty(file) != [] ==> monitor.startTime == Some(clock(0)) && monitor.totalDocs == |LoadOrEmpty(file)|
      ensures end.DriverFailed? ==> monitor.processedDocs == 0 && monitor.failedDocs == 0 && monitor.errors == old(monitor.errors)
      ensures end.Finished? || end.SummaryFailed? ==>
        RunEffect(LoadOrEmpty(file), outcomes, clock, writable, end, old(processedLinks), old(failedLinks), old(monitor.errors))
    {
      var links := LoadOrEmpty(file);
      if links == [] {
        return NoLinks;
      }
      monitor.StartExport(|links|, clock(0));
      if !driverStarts {
        return DriverFailed;
      }
      end := RunLinks(links, outcomes, clock, writable);
    }
  }
}
