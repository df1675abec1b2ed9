/**
 * The stand-alone link validation script: its own copy of the Feishu link
 * validator, the sample link it checks, and the document-type label it prints.
 */
module LinkValidation {
  import opened Wrappers
  import opened Text
  import opened UrlParse
  import LinkCollector
  import SimpleTest
  import LineFile

  const Domains: set<string> := {"feishu.cn", "larksuite.com", "docs.feishu.cn", "bytedance.com"}
  const Markers: set<string> := {"/docx/", "/wiki/", "/docs/", "/doc/"}

  /** `is_valid_feishu_url` of the script: some allowed domain in the netloc, some marker in the URL. */
  predicate IsValidUrl(url: string) {
    match Netloc(url)
    case None => false
    case Some(netloc) =>
      (exists d :: d in Domains && Contains(netloc, d)) && (exists m :: m in Markers && Contains(url, m))
  }

  /** The script's validator accepts exactly the links the collector accepts. */
  lemma SameAsCollector(url: string)
    ensures IsValidUrl(url) <==> LinkCollector.IsValidFeishuUrl(url)
  {
    if Netloc(url).Some? {
      DomainsAgree(Netloc(url).value);
      MarkersAgree(url);
    }
  }

  lemma DomainsAgree(netloc: string)
    ensures (exists d :: d in Domains && Contains(netloc, d)) <==> LinkCollector.HasValidDomain(netloc)
  {
    var ds := LinkCollector.ValidDomains;
    if exists d :: d in Domains && Contains(netloc, d) {
      var d :| d in Domains && Contains(netloc, d);
      var k := if d == ds[0] then 0 else if d == ds[1] then 1 else if d == ds[2] then 2 else 3;
      assert ds[k] == d;
    }
    if LinkCollector.HasValidDomain(netloc) {
      var k :| 0 <= k < |ds| && Contains(netloc, ds[k]);
      assert ds[k] in Domains;
    }
  }

  lemma MarkersAgree(url: string)
    ensures (exists m :: m in Markers && Contains(url, m)) <==> LinkCollector.HasDocMarker(url)
  {
    if LinkCollector.HasDocMarker(url) {
      var m := if Contains(url, "/docx/") then "/docx/" else if Contains(url, "/wiki/") then "/wiki/"
        else if Contains(url, "/docs/") then "/docs/" else "/doc/";
      assert m in Markers && Contains(url, m);
    }
  }

  /** Any netloc holding "docs.feishu.cn" also holds "feishu.cn". */
  lemma DocsDomainRedundant(netloc: string)
    requires Contains(netloc, "docs.feishu.cn")
    ensures Contains(netloc, "feishu.cn")
  {
    assert "docs.feishu.cn"[5..14] == "feishu.cn";
    ContainsAt("docs.feishu.cn", "feishu.cn", 5);
    ContainsTrans(netloc, "docs.feishu.cn", "feishu.cn");
  }

  /** So the validity of any link is the same without that entry in the list. */
  lemma ValidWithoutDocsDomain(url: string)
    ensures IsValidUrl(url) <==>
      match Netloc(url)
      case None => false
      case Some(netloc) =>
        (exists d :: d in Domains - {"docs.feishu.cn"} && Contains(netloc, d))
          && (exists m :: m in Markers && Contains(url, m))
  {
    if Netloc(url).Some? {
      DomainsWithoutDocs(Netloc(url).value);
    }
  }

  lemma DomainsWithoutDocs(netloc: string)
    ensures (exists d :: d in Domains && Contains(netloc, d)) <==>
      (exists d :: d in Domains - {"docs.feishu.cn"} && Contains(netloc, d))
  {
    if Contains(netloc, "docs.feishu.cn") {
      DocsDomainRedundant(netloc);
      assert "feishu.cn" in Domains - {"docs.feishu.cn"};
    }
  }

  const SampleScheme: string := "https"
  const SampleHost: string := "uvw8s43wky3.feishu.cn"
  const SampleTail: string := "/wiki/" + SampleId
  const SampleId: string := "X9OAwWHJViGlyMkr5LrcZdZZndg"
  /** "https://uvw8s43wky3.feishu.cn/wiki/X9OAwWHJViGlyMkr5LrcZdZZndg", the link `test_link` checks. */
  const SampleUrl: string := SampleScheme + "://" + SampleHost + SampleTail

  predicate IsPlain(c: char) {
    ('a' <= c <= 'z') || ('A' <= c <= 'Z') || ('0' <= c <= '9') || c == '.'
  }

  /** The sample link is valid, and its netloc is its host. */
  lemma SampleUrlIsValid()
    ensures Netloc(SampleUrl) == Some(SampleHost)
    ensures IsValidUrl(SampleUrl) && LinkCollector.IsValidFeishuUrl(SampleUrl)
  {
    SampleHostPlain();
    HostUrlNetloc(SampleScheme, SampleHost, SampleTail);
    SampleHostDomain();
    assert LinkCollector.ValidDomains[0] == "feishu.cn";
    SampleUrlMarker();
    SameAsCollector(SampleUrl);
  }

  lemma SampleHostPlain()
    ensures SampleScheme != [] && forall k :: 0 <= k < |SampleScheme| ==> IsAsciiAlpha(SampleScheme[k])
    ensures forall k :: 0 <= k < |SampleHost| ==> IsPlain(SampleHost[k])
    ensures SampleTail[0] == '/' && forall k :: 0 <= k < |SampleTail| ==> IsPlain(SampleTail[k]) || SampleTail[k] == '/'
  {
  }

  lemma SampleHostDomain()
    ensures Contains(SampleHost, "feishu.cn")
  {
    assert SampleHost == "uvw8s43wky3." + "feishu.cn";
    ContainsAt("feishu.cn", "feishu.cn", 0);
    ContainsSuffix("uvw8s43wky3.", "feishu.cn", "feishu.cn");
  }

  lemma SampleUrlMarker()
    ensures Contains(SampleUrl, "/wiki/")
  {
    var head := SampleScheme + "://" + SampleHost;
    assert SampleUrl == head + SampleTail;
    ContainsAt("/wiki/", "/wiki/", 0);
    ContainsPrefix("/wiki/", SampleId, "/wiki/");
    ContainsSuffix(head, SampleTail, "/wiki/");
  }

  /** The three labels `test_link` prints for the document type. */
  const WikiLabel: string := "Wiki文档"
  const DocxLabel: string := "Docx文档"
  const OtherLabel: string := "其他文档"

  /** The type label: wiki before docx, anything else "other". */
  function DocTypeLabel(url: string): (r: string)
    ensures r == WikiLabel || r == DocxLabel || r == OtherLabel
  {
    if Contains(url, "/wiki/") then WikiLabel
    else if Contains(url, "/docx/") then DocxLabel
    else OtherLabel
  }

  /**
   * The label and the dry-run tester agree: "Wiki" exactly when the tester
   * types the link as a wiki, and "other" exactly when it finds no export feasible.
   */
  lemma LabelAgreesWithTester(url: string)
    ensures DocTypeLabel(url) == WikiLabel <==> SimpleTest.TestLinkAccess(url).docType == SimpleTest.Wiki
    ensures DocTypeLabel(url) == OtherLabel <==> !SimpleTest.TestLinkAccess(url).exportFeasible
    ensures DocTypeLabel(url) == DocxLabel ==> SimpleTest.TestLinkAccess(url).notes[1] == SimpleTest.DocxFormat
  {
  }

  /** "https://a.feishu.cn/docs/b". */
  const DocsUrl: string := "https" + "://" + "a.feishu.cn" + "/docs/b"

  /** A link can be valid yet be labelled "other": "/docs/" counts as a marker, not as a type. */
  lemma ValidButOther()
    ensures IsValidUrl(DocsUrl)
    ensures DocTypeLabel(DocsUrl) == OtherLabel
  {
    DocsUrlParts();
    HostUrlNetloc("https", "a.feishu.cn", "/docs/b");
    DocsUrlPieces();
    assert "feishu.cn" in Domains && "/docs/" in Markers;
    DocsUrlNoType();
  }

  lemma DocsUrlParts()
    ensures forall k :: 0 <= k < |"https"| ==> IsAsciiAlpha("https"[k])
    ensures forall k :: 0 <= k < |"a.feishu.cn"| ==> IsPlain("a.feishu.cn"[k])
    ensures forall k :: 0 <= k < |"/docs/b"| ==> IsPlain("/docs/b"[k]) || "/docs/b"[k] == '/'
  {
  }

  lemma DocsUrlPieces()
    ensures Contains("a.feishu.cn", "feishu.cn") && Contains(DocsUrl, "/docs/")
  {
    assert "a.feishu.cn" == "a." + "feishu.cn";
    ContainsAt("feishu.cn", "feishu.cn", 0);
    ContainsSuffix("a.", "feishu.cn", "feishu.cn");
    var head := "https" + "://" + "a.feishu.cn";
    assert "/docs/b" == "/docs/" + "b";
    assert DocsUrl == head + "/docs/b";
    ContainsAt("/docs/", "/docs/", 0);
    ContainsPrefix("/docs/", "b", "/docs/");
    ContainsSuffix(head, "/docs/b", "/docs/");
  }

  /** Neither type marker occurs: the link has no 'w' and no 'x'. */
  lemma DocsUrlNoType()
    ensures !Contains(DocsUrl, "/wiki/") && !Contains(DocsUrl, "/docx/")
  {
    assert 'w' !in "https" && 'x' !in "https";
    assert 'w' !in "://" && 'x' !in "://";
    assert 'w' !in "a.feishu.cn" && 'x' !in "a.feishu.cn";
    assert 'w' !in "/docs/b" && 'x' !in "/docs/b";
    if Contains(DocsUrl, "/wiki/") { ContainsChar(DocsUrl, "/wiki/", 1); }
    if Contains(DocsUrl, "/docx/") { ContainsChar(DocsUrl, "/docx/", 4); }
  }

  /** `[line.strip() for line in f.readlines() if line.strip()]`, or nothing when the file cannot be read. */
  function ReadLinks(file: LineFile.FileRead): (r: Option<seq<string>>)
    ensures r.Some? <==> file.Readable?
    ensures r.Some? ==> r.value == LineFile.LoadOrEmpty(file)
  {
    if file.Readable? then Some(LineFile.ParseLinks(file.text)) else None
  }
}
