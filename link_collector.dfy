/**
 * `FeishuLinkCollector`: an append-only, duplicate-rejecting list of document
 * links, the URL validity test it applies, the URL scanner that feeds it from
 * free text, order-preserving de-duplication, and its one-link-per-line file.
 */
module LinkCollector {
  import opened Text
  import opened Wrappers
  import opened UrlParse
  import opened LineFile

  // ---------------------------------------------------------------------------
  // Validity

  /** The host fragments a link's netloc must contain one of. */
  const ValidDomains: seq<string> := ["feishu.cn", "larksuite.com", "docs.feishu.cn", "bytedance.com"]

  /** `any(domain in parsed.netloc for domain in valid_domains)`. */
  predicate HasValidDomain(netloc: string) {
    exists k :: 0 <= k < |ValidDomains| && Contains(netloc, ValidDomains[k])
  }

  /** The path markers, tested against the whole URL rather than its path. */
  predicate HasDocMarker(url: string) {
    Contains(url, "/docx/") || Contains(url, "/wiki/") || Contains(url, "/docs/") || Contains(url, "/doc/")
  }

  /** `is_valid_feishu_url`: a parse error counts as invalid. */
  predicate IsValidFeishuUrl(url: string) {
    match Netloc(url)
    case None => false
    case Some(netloc) => HasValidDomain(netloc) && HasDocMarker(url)
  }

  /**
   * For a URL "scheme://host" + tail, validity is exactly: the host holds an
   * allowed domain and the URL (path, query or fragment alike) holds a marker.
   */
  lemma ValidHostUrl(scheme: string, host: string, tail: string)
    requires scheme != [] && IsAsciiAlpha(scheme[0])
    requires forall k :: 0 <= k < |scheme| ==> IsSchemeChar(scheme[k])
    requires forall k :: 0 <= k < |host| ==> !IsNetlocEnd(host[k]) && !IsUnsafe(host[k]) && host[k] != '[' && host[k] != ']' && IsAscii(host[k])
    requires tail == [] || IsNetlocEnd(tail[0])
    requires forall k :: 0 <= k < |tail| ==> !IsUnsafe(tail[k])
    ensures IsValidFeishuUrl(scheme + "://" + host + tail) <==> HasValidDomain(host) && HasDocMarker(scheme + "://" + host + tail)
  {
    HostUrlNetloc(scheme, host, tail);
  }

  /** A netloc with an unmatched bracket makes `urlparse` raise, so the URL is invalid whatever it holds. */
  lemma UnmatchedBracketInvalid(scheme: string, host: string, tail: string)
    requires scheme != [] && IsAsciiAlpha(scheme[0])
    requires forall k :: 0 <= k < |scheme| ==> IsSchemeChar(scheme[k])
    requires forall k :: 0 <= k < |host| ==> !IsNetlocEnd(host[k]) && !IsUnsafe(host[k])
    requires tail == [] || IsNetlocEnd(tail[0])
    requires forall k :: 0 <= k < |tail| ==> !IsUnsafe(tail[k])
    requires ('[' in host) != (']' in host)
    ensures Netloc(scheme + "://" + host + tail) == None
    ensures !IsValidFeishuUrl(scheme + "://" + host + tail)
  {
    NetlocOfParts(scheme, host, tail);
  }

  /** A blank string is never a valid link: its netloc is empty. */
  lemma BlankIsInvalid(url: string)
    requires Strip(url) == ""
    ensures Netloc(url) == Some("")
    ensures !IsValidFeishuUrl(url)
  {
    var l := LStripC0(url);
    assert AllSpace(l) by {
      forall k | 0 <= k < |l| ensures IsSpace(l[k]) { assert l[k] == url[|url| - |l| + k]; }
    }
    RemoveUnsafeAllSpace(l);
    SpaceNoScheme(RemoveUnsafe(l));
    EmptyHasNoDomain();
  }

  lemma EmptyHasNoDomain()
    ensures !HasValidDomain("")
  {
  }

  lemma {:induction false} RemoveUnsafeAllSpace(s: string)
    requires AllSpace(s)
    ensures AllSpace(RemoveUnsafe(s))
  {
    if s != [] { RemoveUnsafeAllSpace(s[1..]); }
  }

  /** Whitespace holds neither ':' nor '/', so it has neither a scheme nor a netloc. */
  lemma SpaceNoScheme(s: string)
    requires AllSpace(s)
    ensures AfterScheme(s) == s && !("//" <= s)
  {
    if |s| >= 1 { assert IsSpace(s[0]); }
  }

  // ---------------------------------------------------------------------------
  // Adding links

  /** Whether `add_link(url)` accepts `url` into `links`. */
  predicate Accepts(links: seq<string>, url: string) {
    Strip(url) != "" && IsValidFeishuUrl(url) && url !in links
  }

  /** The list after `add_link(url)`. */
  function Add(links: seq<string>, url: string): seq<string> {
    if Accepts(links, url) then links + [url] else links
  }

  /** The list after `add_link` on each of `urls` in turn. */
  function AddAll(links: seq<string>, urls: seq<string>): seq<string>
    decreases |urls|
  {
    if urls == [] then links else Add(AddAll(links, urls[..|urls| - 1]), urls[|urls| - 1])
  }

  /** One more URL of the same list. */
  lemma AddAllStep(links: seq<string>, urls: seq<string>, i: nat)
    requires i < |urls|
    ensures AddAll(links, urls[..i + 1]) == Add(AddAll(links, urls[..i]), urls[i])
  {
    assert urls[..i + 1][..i] == urls[..i];
  }

  /** Adding keeps a duplicate-free list duplicate-free. */
  lemma AddKeepsNoDup(links: seq<string>, url: string)
    requires NoDup(links)
    ensures NoDup(Add(links, url))
  {
    if Accepts(links, url) {
      var r := links + [url];
      forall i, j | 0 <= i < j < |r| ensures r[i] != r[j] {
        if j == |links| { assert r[i] == links[i]; }
      }
    }
  }

  /**
   * Bulk adding only appends: the old list is a prefix, every new entry is valid,
   * comes from `urls`, and duplicates are never introduced.
   */
  lemma {:induction false} AddAllAppends(links: seq<string>, urls: seq<string>)
    ensures links <= AddAll(links, urls)
    ensures forall k :: |links| <= k < |AddAll(links, urls)| ==>
      AddAll(links, urls)[k] in urls && IsValidFeishuUrl(AddAll(links, urls)[k])
    ensures NoDup(links) ==> NoDup(AddAll(links, urls))
    decreases |urls|
  {
    if urls != [] {
      var init := urls[..|urls| - 1];
      AddAllAppends(links, init);
      var before := AddAll(links, init);
      if NoDup(links) { AddKeepsNoDup(before, urls[|urls| - 1]); }
      forall k | |links| <= k < |AddAll(links, urls)|
        ensures AddAll(links, urls)[k] in urls && IsValidFeishuUrl(AddAll(links, urls)[k])
      {
        if k < |before| { assert before[k] in init; assert AddAll(links, urls)[k] == before[k]; }
      }
    }
  }

  /** What bulk adding appends all comes from `urls` and is valid. */
  lemma AddedAreFound(links: seq<string>, urls: seq<string>)
    ensures |links| <= |AddAll(links, urls)|
    ensures forall u :: u in AddAll(links, urls)[|links|..] ==> u in urls && IsValidFeishuUrl(u)
  {
    AddAllAppends(links, urls);
    var added := AddAll(links, urls);
    forall u | u in added[|links|..] ensures u in urls && IsValidFeishuUrl(u) {
      var k :| 0 <= k < |added| - |links| && added[|links|..][k] == u;
      assert added[|links| + k] == u;
    }
  }

  // ---------------------------------------------------------------------------
  // Scanning text for URLs: `re.findall` with a pattern made of an "http://" or
  // "https://" head and a greedy run of URL characters.

  /** A character the pattern's negated class admits. */
  predicate IsUrlChar(c: char) {
    !IsSpace(c) && c != '<' && c != '>' && c != '"' && c != '{' && c != '}'
      && c != '|' && c != '\\' && c != '^' && c != '`' && c != '[' && c != ']'
  }

  lemma HeadsAreUrlChars()
    ensures forall k :: 0 <= k < |"https://"| ==> IsUrlChar("https://"[k])
    ensures forall k :: 0 <= k < |"http://"| ==> IsUrlChar("http://"[k])
  {
  }

  /** The greedy `[...]+` part: the number of URL characters `s` starts with. */
  function RunLength(s: string): (n: nat)
    ensures n <= |s|
  {
    if s != [] && IsUrlChar(s[0]) then 1 + RunLength(s[1..]) else 0
  }

  /** The run is made of URL characters and stops at the first other character or at the end. */
  lemma {:induction false} RunLengthSpec(s: string)
    ensures forall k :: 0 <= k < RunLength(s) ==> IsUrlChar(s[k])
    ensures RunLength(s) == |s| || !IsUrlChar(s[RunLength(s)])
  {
    if s != [] && IsUrlChar(s[0]) {
      RunLengthSpec(s[1..]);
      forall k | 0 <= k < RunLength(s) ensures IsUrlChar(s[k]) {
        if k > 0 { assert s[k] == s[1..][k - 1]; }
      }
    }
  }

  /** A run of URL characters followed by the end or by another character is counted whole. */
  lemma {:induction false} RunLengthOf(x: string, b: string)
    requires forall k :: 0 <= k < |x| ==> IsUrlChar(x[k])
    requires b == [] || !IsUrlChar(b[0])
    ensures RunLength(x + b) == |x|
  {
    if x != [] {
      assert (x + b)[1..] == x[1..] + b;
      RunLengthOf(x[1..], b);
    } else {
      assert x + b == b;
    }
  }

  /**
   * Length of the `https?://` head `s` starts with (0: none). Where "https://" is
   * present but no URL character follows, "http://" cannot match either, since
   * the fifth character is 's', so the greedy `s?` needs no second try.
   */
  function HeadLength(s: string): (h: nat)
    ensures h == 0 || h == 7 || h == 8
    ensures h <= |s|
  {
    if "https://" <= s then 8
    else if "http://" <= s then 7
    else 0
  }

  lemma HttpsExcludesHttp(s: string)
    requires "https://" <= s
    ensures !("http://" <= s)
  {
    assert s[4] == "https://"[4] == 's';
  }

  /** Length of the match `s` starts with (0: none). */
  function MatchLength(s: string): (n: nat)
    ensures n <= |s|
  {
    var h := HeadLength(s);
    if h > 0 && RunLength(s[h..]) > 0 then h + RunLength(s[h..]) else 0
  }

  /** What the pattern can match: "http://" or "https://" then at least one more URL character, and only those. */
  predicate IsUrlCandidate(u: string) {
    ("https://" <= u || "http://" <= u)
      && |u| > (if "https://" <= u then 8 else 7)
      && forall k :: 0 <= k < |u| ==> IsUrlChar(u[k])
  }

  /** A match is a candidate. */
  lemma MatchIsCandidate(s: string)
    requires MatchLength(s) > 0
    ensures IsUrlCandidate(s[..MatchLength(s)])
  {
    var n := MatchLength(s);
    var h := HeadLength(s);
    var u := s[..n];
    RunLengthSpec(s[h..]);
    HeadsAreUrlChars();
    var head := if h == 8 then "https://" else "http://";
    assert u[..h] == head;
    forall k | 0 <= k < |u| ensures IsUrlChar(u[k]) {
      if k < h { assert u[k] == head[k]; } else { assert u[k] == s[h..][k - h]; }
    }
    if h == 7 && |u| >= 8 { assert u[..8] == s[..8]; }
  }

  /** `findall` on `s`: after a match the search resumes at its end, otherwise one character on. */
  function FindUrlsIn(s: string): seq<string>
    decreases |s|
  {
    if s == [] then []
    else if MatchLength(s) > 0 then [s[..MatchLength(s)]] + FindUrlsIn(s[MatchLength(s)..])
    else FindUrlsIn(s[1..])
  }

  /** `re.findall(url_pattern, text)`: every URL it returns is a candidate that occurs in the text. */
  function FindUrls(text: string): (r: seq<string>)
    ensures AllFound(text, r)
  {
    FindUrlsSound(text);
    FindUrlsIn(text)
  }

  // Soundness: every URL found is a candidate that occurs in the text.

  /** Every entry of `found` is a candidate that occurs in `text`. */
  predicate AllFound(text: string, found: seq<string>)
    decreases |found|
  {
    found == [] || (IsUrlCandidate(found[0]) && Contains(text, found[0]) && AllFound(text, found[1..]))
  }

  /** The same, entry by entry. */
  lemma {:induction false} AllFoundAt(text: string, found: seq<string>)
    ensures AllFound(text, found) <==> forall k :: 0 <= k < |found| ==> IsUrlCandidate(found[k]) && Contains(text, found[k])
    decreases |found|
  {
    if found != [] {
      AllFoundAt(text, found[1..]);
      if forall k :: 0 <= k < |found| ==> IsUrlCandidate(found[k]) && Contains(text, found[k]) {
        forall k | 0 <= k < |found| - 1 ensures IsUrlCandidate(found[1..][k]) && Contains(text, found[1..][k]) {
          assert found[1..][k] == found[k + 1];
        }
      }
      if AllFound(text, found) {
        forall k | 0 <= k < |found| ensures IsUrlCandidate(found[k]) && Contains(text, found[k]) {
          if k > 0 { assert found[k] == found[1..][k - 1]; }
        }
      }
    }
  }

  lemma {:induction false} AllFoundSuffix(a: string, b: string, found: seq<string>)
    requires AllFound(b, found)
    ensures AllFound(a + b, found)
    decreases |found|
  {
    if found != [] {
      ContainsSuffix(a, b, found[0]);
      AllFoundSuffix(a, b, found[1..]);
    }
  }

  /** Every URL `findall` returns is a candidate that occurs in the text. */
  lemma {:induction false} FindUrlsSound(s: string)
    ensures AllFound(s, FindUrlsIn(s))
    decreases |s|
  {
    if s != [] {
      var n := MatchLength(s);
      var m := if n > 0 then n else 1;
      var rest := FindUrlsIn(s[m..]);
      FindUrlsSound(s[m..]);
      assert s == s[..m] + s[m..];
      AllFoundSuffix(s[..m], s[m..], rest);
      if n > 0 {
        MatchIsCandidate(s);
        ContainsAt(s, s[..n], 0);
        assert ([s[..n]] + rest)[1..] == rest;
      }
    }
  }

  // Completeness: `findall` finds every candidate set off by non-URL characters,
  // and a text split at such a character is scanned piece by piece.

  /** A head of URL characters cannot run over a non-URL character that ends `a`. */
  lemma HeadPrefix(a: string, b: string, head: string)
    requires a != [] && !IsUrlChar(a[|a| - 1])
    requires forall k :: 0 <= k < |head| ==> IsUrlChar(head[k])
    ensures (head <= a + b) == (head <= a)
    ensures head <= a ==> |head| < |a|
  {
    if head <= a + b {
      assert forall k :: 0 <= k < |head| && k < |a| ==> head[k] == a[k] by {
        forall k | 0 <= k < |head| && k < |a| ensures head[k] == a[k] { assert (a + b)[k] == a[k]; }
      }
      assert |head| < |a|;
      assert (a + b)[..|head|] == a[..|head|];
    }
    if head <= a {
      assert forall k :: 0 <= k < |head| ==> head[k] == a[k];
      assert |head| != |a|;
      assert (a + b)[..|head|] == a[..|head|];
    }
  }

  lemma {:induction false} RunLengthPrefix(a: string, b: string)
    requires a != [] && !IsUrlChar(a[|a| - 1])
    ensures RunLength(a + b) == RunLength(a) < |a|
  {
    assert (a + b)[0] == a[0];
    if IsUrlChar(a[0]) {
      assert |a| > 1;
      assert (a + b)[1..] == a[1..] + b;
      RunLengthPrefix(a[1..], b);
    }
  }

  /** A match inside `a` does not depend on what follows `a`, and ends before `a` does. */
  lemma MatchPrefix(a: string, b: string)
    requires a != [] && !IsUrlChar(a[|a| - 1])
    ensures MatchLength(a + b) == MatchLength(a) < |a|
  {
    HeadsAreUrlChars();
    HeadPrefix(a, b, "https://");
    HeadPrefix(a, b, "http://");
    var h := HeadLength(a);
    assert h < |a|;
    assert (a + b)[h..] == a[h..] + b;
    RunLengthPrefix(a[h..], b);
  }

  /** Text split at a non-URL character is scanned piece by piece. */
  lemma {:induction false} FindUrlsSplit(a: string, b: string)
    requires a == [] || !IsUrlChar(a[|a| - 1])
    ensures FindUrlsIn(a + b) == FindUrlsIn(a) + FindUrlsIn(b)
    decreases |a|
  {
    if a == [] {
      assert a + b == b;
    } else {
      MatchPrefix(a, b);
      var n := MatchLength(a);
      var m := if n > 0 then n else 1;
      var found := if n > 0 then [a[..n]] else [];
      var tail := a[m..];
      assert (a + b)[m..] == tail + b;
      assert n > 0 ==> (a + b)[..n] == a[..n];
      assert tail == [] || tail[|tail| - 1] == a[|a| - 1];
      FindUrlsStep(a, m, found);
      FindUrlsStep(a + b, m, found);
      FindUrlsSplit(tail, b);
      AppendAssoc(found, FindUrlsIn(tail), FindUrlsIn(b));
    }
  }

  /** One step of the scan: the match at the start, if any, then the scan from where it ends. */
  lemma FindUrlsStep(s: string, m: nat, found: seq<string>)
    requires s != [] && m == (if MatchLength(s) > 0 then MatchLength(s) else 1)
    requires found == if MatchLength(s) > 0 then [s[..m]] else []
    ensures m <= |s| && FindUrlsIn(s) == found + FindUrlsIn(s[m..])
  {
  }

  /** A candidate at the start of the text, not followed by a URL character, is found whole. */
  lemma FindsCandidate(u: string, b: string)
    requires IsUrlCandidate(u) && (b == [] || !IsUrlChar(b[0]))
    ensures FindUrlsIn(u + b) == [u] + FindUrlsIn(b)
  {
    var t := u + b;
    var h := if "https://" <= u then 8 else 7;
    assert t[..8] == u[..8];
    assert t[..7] == u[..7];
    assert HeadLength(t) == h;
    assert t[h..] == u[h..] + b;
    assert forall k :: 0 <= k < |u[h..]| ==> IsUrlChar(u[h..][k]);
    RunLengthOf(u[h..], b);
    assert MatchLength(t) == |u|;
    assert t[..|u|] == u;
    assert t[|u|..] == b;
  }

  /**
   * `findall` finds every candidate that stands between non-URL characters (or
   * the ends of the text), in its place among the other matches.
   */
  lemma FindsDelimited(a: string, u: string, b: string)
    requires a == [] || !IsUrlChar(a[|a| - 1])
    requires IsUrlCandidate(u) && (b == [] || !IsUrlChar(b[0]))
    ensures FindUrls(a + u + b) == FindUrls(a) + [u] + FindUrls(b)
    ensures u in FindUrls(a + u + b)
  {
    assert a + u + b == a + (u + b);
    FindUrlsSplit(a, u + b);
    FindsCandidate(u, b);
    AppendAssoc(FindUrlsIn(a), [u], FindUrlsIn(b));
  }

  // ---------------------------------------------------------------------------
  // De-duplication: list(dict.fromkeys(links))

  /** Keeps `s[k]` exactly when it does not occur in `s[..k]`: first occurrences, in order. */
  function Dedup<T(==)>(s: seq<T>): seq<T>
    decreases |s|
  {
    if s == [] then []
    else
      var init := s[..|s| - 1];
      Dedup(init) + (if s[|s| - 1] in init then [] else [s[|s| - 1]])
  }

  /** The de-duplicated list has the same links and no duplicates. */
  lemma {:induction false} DedupSpec<T>(s: seq<T>)
    ensures forall x :: x in Dedup(s) <==> x in s
    ensures NoDup(Dedup(s))
    ensures |Dedup(s)| <= |s|
    decreases |s|
  {
    if s != [] {
      var init := s[..|s| - 1];
      DedupSpec(init);
      assert s == init + [s[|s| - 1]];
    }
  }

  lemma DedupMember<T>(s: seq<T>, x: T)
    requires x in Dedup(s)
    ensures x in s
  {
    DedupSpec(s);
  }

  /** A duplicate-free list is left as it is, so a second de-duplication removes nothing. */
  lemma {:induction false} DedupOfNoDup<T>(s: seq<T>)
    requires NoDup(s)
    ensures Dedup(s) == s
    decreases |s|
  {
    if s != [] {
      var init := s[..|s| - 1];
      NoDupInit(s);
      DedupOfNoDup(init);
      assert s == init + [s[|s| - 1]];
    }
  }

  lemma DedupIdempotent<T>(s: seq<T>)
    ensures Dedup(Dedup(s)) == Dedup(s)
  {
    DedupSpec(s);
    DedupOfNoDup(Dedup(s));
  }

  /** Index of the first occurrence of `x` in `s`. */
  function FirstIndex<T(==)>(s: seq<T>, x: T): (i: nat)
    requires x in s
    ensures i < |s| && s[i] == x && x !in s[..i]
  {
    if s[0] == x then 0 else 1 + FirstIndex(s[1..], x)
  }

  lemma FirstIndexInPrefix<T>(s: seq<T>, n: nat, x: T)
    requires n <= |s| && x in s[..n]
    ensures FirstIndex(s, x) == FirstIndex(s[..n], x)
  {
    var j := FirstIndex(s[..n], x);
    assert s[..n][..j] == s[..j];
  }

  /** The survivors keep the order of their first occurrences in the original list. */
  lemma {:induction false} DedupKeepsFirstOrder<T>(s: seq<T>, i: nat, j: nat)
    requires i < j < |Dedup(s)|
    ensures Dedup(s)[i] in s && Dedup(s)[j] in s
    ensures FirstIndex(s, Dedup(s)[i]) < FirstIndex(s, Dedup(s)[j])
    decreases |s|
  {
    DedupSpec(s);
    assert s != [];
    var init := s[..|s| - 1];
    var d := Dedup(init);
    DedupSpec(init);
    assert Dedup(s) == d + (if s[|s| - 1] in init then [] else [s[|s| - 1]]);
    var x, y := Dedup(s)[i], Dedup(s)[j];
    assert i < |d| && x == d[i];
    DedupMember(init, x);
    FirstIndexInPrefix(s, |s| - 1, x);
    if j < |d| {
      assert y == d[j];
      DedupKeepsFirstOrder(init, i, j);
      FirstIndexInPrefix(s, |s| - 1, y);
    } else {
      assert y == s[|s| - 1] && y !in init;
      assert FirstIndex(s, y) == |s| - 1;
    }
  }

  /** The example `[a, a, b, a]` becomes `[a, b]`. */
  lemma DedupExample<T>(a: T, b: T)
    requires a != b
    ensures Dedup([a, a, b, a]) == [a, b]
  {
    assert [a, a, b, a][..3] == [a, a, b];
    assert [a, a, b][..2] == [a, a];
    assert [a, a][..1] == [a];
    assert [a][..0] == [];
    assert Dedup([a]) == [a];
    assert Dedup([a, a]) == [a];
    assert Dedup([a, a, b]) == [a, b];
  }

  // ---------------------------------------------------------------------------
  // The collector

  class Collector {
    const outputFile: string
    var links: seq<string>

    constructor (outputFile: string)
      ensures this.outputFile == outputFile && links == []
    {
      this.outputFile := outputFile;
      links := [];
    }

    /** `add_link`: rejects blank, invalid and already-present links; otherwise appends. */
    method AddLink(url: string) returns (added: bool)
      modifies this
      ensures added <==> Strip(url) != "" && IsValidFeishuUrl(url) && url !in old(links)
      ensures added ==> links == old(links) + [url]
      ensures !added ==> links == old(links)
      ensures links == Add(old(links), url)
    {
      if Strip(url) == "" {
        return false;
      }
      if !IsValidFeishuUrl(url) {
        return false;
      }
      if url in links {
        return false;
      }
      links := links + [url];
      return true;
    }

    /** `add_links_from_text`: scan, add each URL found, count the ones added. */
    method AddLinksFromText(text: string) returns (added: nat)
      modifies this
      ensures links == AddAll(old(links), FindUrls(text))
      ensures added == |links| - |old(links)|
      ensures forall u :: u in links[|old(links)|..] ==> u in FindUrls(text) && IsValidFeishuUrl(u)
    {
      var found := FindUrls(text);
      added := AddEach(found);
      AddedAreFound(old(links), found);
    }

    /** The loop of `add_links_from_text`: `add_link` on each URL in turn, counting the successes. */
    method AddEach(found: seq<string>) returns (added: nat)
      modifies this
      ensures links == AddAll(old(links), found)
      ensures added == |links| - |old(links)|
    {
      added := 0;
      var i := 0;
      while i < |found|
        invariant 0 <= i <= |found|
        invariant links == AddAll(old(links), found[..i])
        invariant added == |links| - |old(links)|
      {
        AddAllStep(old(links), found, i);
        added := AddCounting(found[i], added);
        i := i + 1;
      }
      assert found[..|found|] == found;
    }

    /** The loop body of `add_links_from_text`: `add_link(url)`, and one more counted when it succeeds. */
    method AddCounting(url: string, count: nat) returns (counted: nat)
      modifies this
      ensures links == Add(old(links), url)
      ensures counted == count + |links| - |old(links)|
    {
      var ok := AddLink(url);
      counted := if ok then count + 1 else count;
    }

    /** `remove_duplicates`: keeps first occurrences, returns how many entries went. */
    method RemoveDuplicates() returns (removed: nat)
      modifies this
      ensures links == Dedup(old(links))
      ensures removed == |old(links)| - |links|
    {
      DedupSpec(links);
      var before := |links|;
      links := Dedup(links);
      removed := before - |links|;
    }

    /** `load_existing_links`: a missing or unreadable file leaves the list alone and reports false. */
    method LoadExistingLinks(file: FileRead) returns (loaded: bool)
      modifies this
      ensures loaded <==> file.Readable?
      ensures loaded ==> links == ParseLinks(file.text)
      ensures !loaded ==> links == old(links)
    {
      match file
      case Missing => loaded := false;
      case Unreadable => loaded := false;
      case Readable(text) =>
        links := ParseLinks(text);
        loaded := true;
    }

    /** `save_links`: the file text written, or `None` when the file cannot be opened for writing. */
    method SaveLinks(writable: bool) returns (written: Option<string>)
      ensures written.Some? <==> writable
      ensures writable ==> written.value == WriteLines(links)
    {
      if writable {
        written := Some(WriteLines(links));
      } else {
        written := None;
      }
    }

    /**
     * Menu option 6: the user enters a 1-based number (`None`: not a number).
     * Only a number naming an entry removes it.
     */
    method DeleteEntry(entered: Option<int>) returns (removed: Option<string>)
      modifies this
      ensures removed.Some? <==> entered.Some? && 1 <= entered.value <= |old(links)|
      ensures removed.Some? ==>
        (removed.value == old(links)[entered.value - 1]
          && links == old(links)[..entered.value - 1] + old(links)[entered.value..])
      ensures removed.None? ==> links == old(links)
    {
      removed := None;
      if entered.Some? {
        var index := entered.value - 1;
        if 0 <= index < |links| {
          removed := Some(links[index]);
          links := links[..index] + links[index + 1..];
        }
      }
    }
  }
}
