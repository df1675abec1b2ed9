/**
 * `SimpleFeishuTest`: a dry run that classifies each link (document type,
 * domain, whether an export looks feasible, notes) without opening it, sorts
 * the links into feasible and infeasible ones, and reports the totals.
 */
module SimpleTest {
  import opened Wrappers
  import opened Text
  import opened UrlParse
  import opened LineFile

  /** The notes `test_link_access` attaches, with the text each prints as. */
  datatype Note = ChinaDomain | OtherDomain | WikiFormat | DocxFormat | UnknownFormat

  function NoteText(n: Note): string {
    match n
    case ChinaDomain => "✅ 飞书中国域名"
    case OtherDomain => "⚠️ 非标准飞书域名"
    case WikiFormat => "✅ Wiki文档格式"
    case DocxFormat => "✅ Docx文档格式"
    case UnknownFormat => "⚠️ 未知文档格式"
  }

  /** The `doc_type` values, `'wiki'` and `'docx'`. */
  datatype DocType = Wiki | Docx

  /** `test_link_access`'s result dict (its timestamp is not modelled); `exportMethod` is the optional key. */
  datatype TestResult = TestResult(
    url: string,
    accessible: bool,
    docType: DocType,
    domain: string,
    exportFeasible: bool,
    notes: seq<Note>,
    exportMethod: Option<string>)

  const ExportMethod: string := "Ctrl+P打印或页面导出按钮"

  /** `url.split('/')[2] if len(url.split('/')) > 2 else 'unknown'`. */
  function Domain(url: string): string {
    var pieces := Split(url, '/');
    if |pieces| > 2 then pieces[2] else "unknown"
  }

  /** Whether the link names a wiki page or a docx document, the two kinds an export is expected to work for. */
  predicate IsFeasible(url: string) {
    Contains(url, "/wiki/") || Contains(url, "/docx/")
  }

  /** `test_link_access`: the classification of one link from its text alone. */
  function TestLinkAccess(url: string): (r: TestResult)
    ensures r.url == url && r.accessible && r.domain == Domain(url)
    ensures r.docType == Wiki <==> Contains(url, "/wiki/")
    ensures r.exportFeasible == IsFeasible(url)
    ensures r.exportMethod.Some? <==> r.exportFeasible
    ensures r.exportMethod.Some? ==> r.exportMethod.value == ExportMethod
    ensures |r.notes| == 2
    ensures r.notes[0] == if Contains(url, "feishu.cn") then ChinaDomain else OtherDomain
    ensures r.notes[1] ==
      if Contains(url, "/wiki/") then WikiFormat
      else if Contains(url, "/docx/") then DocxFormat
      else UnknownFormat
  {
    var domainNote := if Contains(url, "feishu.cn") then ChinaDomain else OtherDomain;
    var docType := if Contains(url, "/wiki/") then Wiki else Docx;
    if Contains(url, "/wiki/") then
      TestResult(url, true, docType, Domain(url), true, [domainNote, WikiFormat], Some(ExportMethod))
    else if Contains(url, "/docx/") then
      TestResult(url, true, docType, Domain(url), true, [domainNote, DocxFormat], Some(ExportMethod))
    else
      TestResult(url, true, docType, Domain(url), false, [domainNote, UnknownFormat], None)
  }

  /**
   * For "scheme://host" followed by nothing or by a '/'-path, the third piece is
   * the host, whatever the rest holds.
   */
  lemma DomainOfUrl(scheme: string, host: string, tail: string)
    requires '/' !in scheme && '/' !in host
    requires tail == [] || tail[0] == '/'
    ensures Domain(scheme + "://" + host + tail) == host
  {
    var url := scheme + "://" + host + tail;
    assert url == scheme + ":" + ['/'] + (['/'] + (host + tail));
    assert '/' !in scheme + ":";
    SplitAtSep(scheme + ":", ['/'] + (host + tail), '/');
    assert ['/'] + (host + tail) == [] + ['/'] + (host + tail);
    SplitAtSep([], host + tail, '/');
    if tail == [] {
      assert host + tail == host;
      SplitWithoutSep(host, '/');
    } else {
      assert host + tail == host + ['/'] + tail[1..];
      SplitAtSep(host, tail[1..], '/');
    }
  }

  /** There, the domain shown is the netloc `urlparse` finds, so the two agree on ordinary links. */
  lemma DomainIsNetloc(scheme: string, host: string, tail: string)
    requires scheme != [] && IsAsciiAlpha(scheme[0])
    requires forall k :: 0 <= k < |scheme| ==> IsSchemeChar(scheme[k])
    requires forall k :: 0 <= k < |host| ==> !IsNetlocEnd(host[k]) && !IsUnsafe(host[k]) && host[k] != '[' && host[k] != ']' && IsAscii(host[k])
    requires tail == [] || tail[0] == '/'
    requires forall k :: 0 <= k < |tail| ==> !IsUnsafe(tail[k])
    ensures Netloc(scheme + "://" + host + tail) == Some(Domain(scheme + "://" + host + tail))
  {
    HostUrlNetloc(scheme, host, tail);
    assert '/' !in host;
    assert '/' !in scheme;
    DomainOfUrl(scheme, host, tail);
  }

  /** `s.count(c)`. */
  function Count(s: string, c: char): nat {
    if s == [] then 0 else (if s[0] == c then 1 else 0) + Count(s[1..], c)
  }

  /** `split` gives one more piece than there are separators. */
  lemma {:induction false} SplitCount(s: string, c: char)
    ensures |Split(s, c)| == 1 + Count(s, c)
    decreases |s|
  {
    if |s| > 0 { SplitCount(s[1..], c); }
  }

  /** Links with fewer than two '/' get the domain "unknown"; others get the third piece, which may itself read "unknown". */
  lemma DomainUnknown(url: string)
    ensures Count(url, '/') < 2 ==> Domain(url) == "unknown"
    ensures Count(url, '/') >= 2 ==> |Split(url, '/')| > 2 && Domain(url) == Split(url, '/')[2]
  {
    SplitCount(url, '/');
  }

  /** The results of `run_test`'s loop, one per link, in order. */
  function Results(links: seq<string>): seq<TestResult>
    decreases |links|
  {
    if links == [] then [] else Results(links[..|links| - 1]) + [TestLinkAccess(links[|links| - 1])]
  }

  /** One result per link, the k-th being the classification of the k-th link. */
  lemma {:induction false} ResultsAt(links: seq<string>)
    ensures |Results(links)| == |links|
    ensures forall k :: 0 <= k < |links| ==> Results(links)[k] == TestLinkAccess(links[k])
    decreases |links|
  {
    if links != [] {
      var n := |links|;
      ResultsAt(links[..n - 1]);
      forall k | 0 <= k < n ensures Results(links)[k] == TestLinkAccess(links[k]) {
        if k < n - 1 { assert links[..n - 1][k] == links[k]; }
      }
    }
  }

  function Feasible(links: seq<string>): seq<string>
    decreases |links|
  {
    if links == [] then []
    else
      var n := |links|;
      Feasible(links[..n - 1]) + (if IsFeasible(links[n - 1]) then [links[n - 1]] else [])
  }

  function Infeasible(links: seq<string>): seq<string>
    decreases |links|
  {
    if links == [] then []
    else
      var n := |links|;
      Infeasible(links[..n - 1]) + (if IsFeasible(links[n - 1]) then [] else [links[n - 1]])
  }

  /** Each link is feasible or not, never both: the two lists split the links. */
  lemma {:induction false} FeasiblePartition(links: seq<string>)
    ensures multiset(Feasible(links)) + multiset(Infeasible(links)) == multiset(links)
    decreases |links|
  {
    if links != [] {
      var n := |links|;
      var init, last := links[..n - 1], links[n - 1];
      FeasiblePartition(init);
      assert links == init + [last];
      if IsFeasible(last) {
        assert Feasible(links) == Feasible(init) + [last] && Infeasible(links) == Infeasible(init);
      } else {
        assert Feasible(links) == Feasible(init) && Infeasible(links) == Infeasible(init) + [last];
      }
    }
  }

  /** The two lists together are as long as the links. */
  lemma {:induction false} FeasibleSizes(links: seq<string>)
    ensures |Feasible(links)| + |Infeasible(links)| == |links|
    decreases |links|
  {
    if links != [] {
      FeasibleSizes(links[..|links| - 1]);
    }
  }

  /** The first list holds only feasible links, the second only infeasible ones. */
  lemma {:induction false} FeasibleSorted(links: seq<string>)
    ensures forall k :: 0 <= k < |Feasible(links)| ==> IsFeasible(Feasible(links)[k])
    ensures forall k :: 0 <= k < |Infeasible(links)| ==> !IsFeasible(Infeasible(links)[k])
    decreases |links|
  {
    if links != [] {
      var n := |links|;
      FeasibleSorted(links[..n - 1]);
      var f, g := Feasible(links[..n - 1]), Infeasible(links[..n - 1]);
      forall k | 0 <= k < |Feasible(links)| ensures IsFeasible(Feasible(links)[k]) {
        if k < |f| { assert Feasible(links)[k] == f[k]; }
      }
      forall k | 0 <= k < |Infeasible(links)| ensures !IsFeasible(Infeasible(links)[k]) {
        if k < |g| { assert Infeasible(links)[k] == g[k]; }
      }
    }
  }

  /** One more link: the results and exactly one of the two lists grow by it. */
  lemma TestStep(links: seq<string>, i: nat)
    requires i < |links|
    ensures Results(links[..i + 1]) == Results(links[..i]) + [TestLinkAccess(links[i])]
    ensures Feasible(links[..i + 1]) == Feasible(links[..i]) + (if IsFeasible(links[i]) then [links[i]] else [])
    ensures Infeasible(links[..i + 1]) == Infeasible(links[..i]) + (if IsFeasible(links[i]) then [] else [links[i]])
  {
    assert links[..i + 1][..i] == links[..i];
  }

  /** `generate_report`'s record (its time stamp is not modelled). */
  datatype TestReport = TestReport(
    totalLinks: nat,
    successful: nat,
    failed: nat,
    results: seq<TestResult>,
    linksLookUsable: bool)

  class Tester {
    var processedLinks: seq<string>
    var failedLinks: seq<string>
    var testResults: seq<TestResult>

    /** Every result has its link in exactly one of the two lists. */
    predicate Valid()
      reads this
    {
      |testResults| == |processedLinks| + |failedLinks|
    }

    constructor ()
      ensures processedLinks == [] && failedLinks == [] && testResults == []
      ensures Valid()
    {
      processedLinks := [];
      failedLinks := [];
      testResults := [];
    }

    /** One pass of the loop: the link's result is kept and the link joins the list its result names. */
    method ClassifyLink(url: string)
      modifies this
      ensures testResults == old(testResults) + [TestLinkAccess(url)]
      ensures processedLinks == old(processedLinks) + (if IsFeasible(url) then [url] else [])
      ensures failedLinks == old(failedLinks) + (if IsFeasible(url) then [] else [url])
    {
      var result := TestLinkAccess(url);
      testResults := testResults + [result];
      if result.exportFeasible {
        processedLinks := processedLinks + [url];
      } else {
        failedLinks := failedLinks + [url];
      }
    }

    /** The `for` loop of `run_test`: each link classified, its result kept, the link sorted. */
    method ClassifyAll(links: seq<string>)
      modifies this
      ensures testResults == old(testResults) + Results(links)
      ensures processedLinks == old(processedLinks) + Feasible(links)
      ensures failedLinks == old(failedLinks) + Infeasible(links)
    {
      var i := 0;
      while i < |links|
        invariant 0 <= i <= |links|
        invariant testResults == old(testResults) + Results(links[..i])
        invariant processedLinks == old(processedLinks) + Feasible(links[..i])
        invariant failedLinks == old(failedLinks) + Infeasible(links[..i])
      {
        TestStep(links, i);
        ClassifyLink(links[i]);
        AppendAssoc(old(testResults), Results(links[..i]), [TestLinkAccess(links[i])]);
        AppendAssoc(old(processedLinks), Feasible(links[..i]), if IsFeasible(links[i]) then [links[i]] else []);
        AppendAssoc(old(failedLinks), Infeasible(links[..i]), if IsFeasible(links[i]) then [] else [links[i]]);
        i := i + 1;
      }
      assert links[..|links|] == links;
    }

    /** `run_test`: classify every link of the file, sort it, then report; no report without links. */
    method RunTest(file: FileRead) returns (report: Option<TestReport>)
      modifies this
      ensures LoadOrEmpty(file) == [] ==> report.None? && unchanged(this)
      ensures LoadOrEmpty(file) != [] ==> report.Some?
      ensures report.Some? ==>
        var links := LoadOrEmpty(file);
        && testResults == old(testResults) + Results(links)
        && processedLinks == old(processedLinks) + Feasible(links)
        && failedLinks == old(failedLinks) + Infeasible(links)
        && report.value.totalLinks == |testResults|
        && report.value.successful == |processedLinks| && report.value.failed == |failedLinks|
        && report.value.results == testResults
        && (report.value.linksLookUsable <==> processedLinks != [])
      ensures old(Valid()) ==> Valid()
    {
      var links := LoadOrEmpty(file);
      if links == [] {
        return None;
      }
      ClassifyAll(links);
      FeasibleSizes(links);
      ResultsAt(links);
      var r := GenerateReport();
      report := Some(r);
    }

    /** `generate_report`: the success rate divides by the number of results, so there must be some. */
    method GenerateReport() returns (report: TestReport)
      requires testResults != []
      ensures report.totalLinks == |testResults| && report.results == testResults
      ensures report.successful == |processedLinks| && report.failed == |failedLinks|
      ensures Valid() ==> report.totalLinks == report.successful + report.failed
      ensures report.linksLookUsable <==> processedLinks != []
    {
      report := TestReport(|testResults|, |processedLinks|, |failedLinks|, testResults, |processedLinks| > 0);
    }
  }
}
