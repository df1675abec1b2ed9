/**
 * The part of `urllib.parse.urlparse` the validators use: the network location
 * (`netloc`). It follows `urlsplit` as CPython 3.12 writes it: leading C0 controls
 * and spaces are dropped, tab, CR and LF are removed everywhere, a scheme is
 * split off at the first ':' when everything before it is a scheme character and
 * the first is an ASCII letter, and a netloc follows only a "//", running up to
 * the first '/', '?' or '#'. An unmatched '[' or ']' in the netloc raises
 * `ValueError("Invalid IPv6 URL")`, modelled as `None`. The later checks on a
 * netloc that is not plain ASCII (NFKC normalisation) or that is bracketed (IPv6
 * address syntax) are not modelled, so the lemmas below speak of ASCII hosts.
 */
module UrlParse {
  import opened Text
  import opened Wrappers

  predicate IsAsciiAlpha(c: char) {
    ('a' <= c <= 'z') || ('A' <= c <= 'Z')
  }

  /** `urllib.parse.scheme_chars`. */
  predicate IsSchemeChar(c: char) {
    IsAsciiAlpha(c) || ('0' <= c <= '9') || c == '+' || c == '-' || c == '.'
  }

  /** Tab, CR and LF, which `urlsplit` deletes wherever they occur. */
  predicate IsUnsafe(c: char) {
    c == '\t' || c == '\r' || c == '\n'
  }

  /** An ASCII character: a netloc made of these passes `_checknetloc` unchanged. */
  predicate IsAscii(c: char) {
    c < '\U{80}'
  }

  predicate IsNetlocEnd(c: char) {
    c == '/' || c == '?' || c == '#'
  }

  /** `url.lstrip(_WHATWG_C0_CONTROL_OR_SPACE)`: drop leading characters up to and including ' '. */
  function LStripC0(s: string): (r: string)
    ensures |r| <= |s| && r == s[|s| - |r|..]
    ensures forall i :: 0 <= i < |s| - |r| ==> s[i] <= ' '
    ensures r == [] || r[0] > ' '
    ensures (s == [] || s[0] > ' ') ==> r == s
  {
    if s != [] && s[0] <= ' ' then LStripC0(s[1..]) else s
  }

  /** Every tab, CR and LF removed. */
  function RemoveUnsafe(s: string): (r: string)
    ensures forall k :: 0 <= k < |r| ==> !IsUnsafe(r[k])
    ensures (forall k :: 0 <= k < |s| ==> !IsUnsafe(s[k])) ==> r == s
  {
    if s == [] then []
    else (if IsUnsafe(s[0]) then [] else [s[0]]) + RemoveUnsafe(s[1..])
  }

  /** Removal works piece by piece: the characters of `a` kept, then those of `b`. */
  lemma {:induction false} RemoveUnsafeConcat(a: string, b: string)
    ensures RemoveUnsafe(a + b) == RemoveUnsafe(a) + RemoveUnsafe(b)
    decreases |a|
  {
    if a != [] {
      var head := if IsUnsafe(a[0]) then [] else [a[0]];
      RemoveUnsafeConcat(a[1..], b);
      RemoveUnsafeStep(a + b, head, a[1..] + b);
      RemoveUnsafeStep(a, head, a[1..]);
      AppendAssoc(head, RemoveUnsafe(a[1..]), RemoveUnsafe(b));
    } else {
      assert a + b == b;
    }
  }

  lemma RemoveUnsafeStep(s: string, head: string, tail: string)
    requires s != [] && head == (if IsUnsafe(s[0]) then [] else [s[0]]) && tail == s[1..]
    ensures RemoveUnsafe(s) == head + RemoveUnsafe(tail)
  {
  }

  /** A single character is dropped exactly when it is a tab, CR or LF. */
  lemma RemoveUnsafeChar(c: char)
    ensures RemoveUnsafe([c]) == if IsUnsafe(c) then [] else [c]
  {
    assert [c][1..] == [];
  }

  /** `s.find(c)`, with "not found" as `|s|` in place of -1. */
  function IndexOf(s: string, c: char): (i: nat)
    ensures i <= |s| && c !in s[..i]
    ensures i < |s| ==> s[i] == c
  {
    if s == [] || s[0] == c then 0 else 1 + IndexOf(s[1..], c)
  }

  /** Whether `url[:i]` is a scheme: `i > 0`, an ASCII letter first, scheme characters only. */
  predicate IsScheme(url: string, i: nat)
    requires i <= |url|
  {
    0 < i && IsAsciiAlpha(url[0]) && forall k :: 0 <= k < i ==> IsSchemeChar(url[k])
  }

  /** What follows the scheme and its ':' (all of `url` when there is no scheme). */
  function AfterScheme(url: string): string {
    var i := IndexOf(url, ':');
    if i < |url| && IsScheme(url, i) then url[i + 1..] else url
  }

  /** `_splitnetloc`: the text up to the first '/', '?' or '#'. */
  function TakeNetloc(s: string): (r: string)
    ensures r <= s
    ensures forall k :: 0 <= k < |r| ==> !IsNetlocEnd(r[k])
    ensures |r| < |s| ==> IsNetlocEnd(s[|r|])
  {
    if s == [] || IsNetlocEnd(s[0]) then [] else [s[0]] + TakeNetloc(s[1..])
  }

  /** `urlparse(url).netloc`, or `None` where `urlparse` raises for an unmatched bracket; the NFKC check on non-ASCII netlocs is not modelled. */
  function Netloc(url: string): Option<string> {
    var rest := AfterScheme(RemoveUnsafe(LStripC0(url)));
    if "//" <= rest then
      var n := TakeNetloc(rest[2..]);
      if ('[' in n) != (']' in n) then None else Some(n)
    else Some("")
  }

  lemma {:induction false} TakeNetlocOf(host: string, tail: string)
    requires forall k :: 0 <= k < |host| ==> !IsNetlocEnd(host[k])
    requires tail == [] || IsNetlocEnd(tail[0])
    ensures TakeNetloc(host + tail) == host
  {
    if host != [] {
      TakeNetlocOf(host[1..], tail);
      assert (host + tail)[1..] == host[1..] + tail;
    } else {
      assert host + tail == tail;
    }
  }

  lemma {:induction false} IndexOfAt(a: string, c: char, b: string)
    requires c !in a
    ensures IndexOf(a + [c] + b, c) == |a|
  {
    if a != [] {
      IndexOfAt(a[1..], c, b);
      assert (a + [c] + b)[1..] == a[1..] + [c] + b;
    }
  }

  /** A scheme followed by ':' is split off, leaving what follows the ':'. */
  lemma SchemeSplit(scheme: string, rest: string)
    requires scheme != [] && IsAsciiAlpha(scheme[0])
    requires forall k :: 0 <= k < |scheme| ==> IsSchemeChar(scheme[k])
    ensures AfterScheme(scheme + ":" + rest) == rest
  {
    var url := scheme + ":" + rest;
    assert ':' !in scheme;
    assert url == scheme + [':'] + rest;
    IndexOfAt(scheme, ':', rest);
    assert url[..|scheme|] == scheme;
    assert IsScheme(url, |scheme|);
    assert url[|scheme| + 1..] == rest;
  }

  lemma NoUnsafeConcat(a: string, b: string)
    requires forall k :: 0 <= k < |a| ==> !IsUnsafe(a[k])
    requires forall k :: 0 <= k < |b| ==> !IsUnsafe(b[k])
    ensures forall k :: 0 <= k < |a + b| ==> !IsUnsafe((a + b)[k])
  {
    forall k | 0 <= k < |a + b| ensures !IsUnsafe((a + b)[k]) {
      if k >= |a| { assert (a + b)[k] == b[k - |a|]; }
    }
  }

  /**
   * A URL written "scheme://" + host, followed by nothing or by a path, query or
   * fragment, has `host` as its netloc in the model, unless `host` holds one bracket
   * without the other. A host holding both is taken as it is: the IPv6 syntax check
   * `urlsplit` applies to it is not modelled.
   */
  lemma SchemeHostNetloc(scheme: string, host: string, tail: string)
    requires scheme != [] && IsAsciiAlpha(scheme[0])
    requires forall k :: 0 <= k < |scheme| ==> IsSchemeChar(scheme[k])
    requires forall k :: 0 <= k < |host| ==> !IsNetlocEnd(host[k]) && !IsUnsafe(host[k]) && IsAscii(host[k])
    requires tail == [] || IsNetlocEnd(tail[0])
    requires forall k :: 0 <= k < |tail| ==> !IsUnsafe(tail[k])
    ensures Netloc(scheme + "://" + host + tail) == if ('[' in host) != (']' in host) then None else Some(host)
  {
    NetlocOfParts(scheme, host, tail);
  }

  /** The same for any host, as far as the model goes (the ASCII test of `_checknetloc` aside). */
  lemma NetlocOfParts(scheme: string, host: string, tail: string)
    requires scheme != [] && IsAsciiAlpha(scheme[0])
    requires forall k :: 0 <= k < |scheme| ==> IsSchemeChar(scheme[k])
    requires forall k :: 0 <= k < |host| ==> !IsNetlocEnd(host[k]) && !IsUnsafe(host[k])
    requires tail == [] || IsNetlocEnd(tail[0])
    requires forall k :: 0 <= k < |tail| ==> !IsUnsafe(tail[k])
    ensures Netloc(scheme + "://" + host + tail) == if ('[' in host) != (']' in host) then None else Some(host)
  {
    var rest := "//" + host + tail;
    var url := scheme + ":" + rest;
    assert url == scheme + "://" + host + tail;
    NoUnsafeConcat(host, tail);
    NoUnsafeConcat("//", host + tail);
    assert rest == "//" + (host + tail);
    NoUnsafeConcat(scheme + ":", rest);
    assert url[0] == scheme[0];
    CleanNetloc(url);
    SchemeSplit(scheme, rest);
    assert rest[2..] == host + tail;
    TakeNetlocOf(host, tail);
  }

  /** A URL with no leading control or space and no tab, CR or LF is parsed as it stands. */
  lemma CleanNetloc(url: string)
    requires url != [] && url[0] > ' '
    requires forall k :: 0 <= k < |url| ==> !IsUnsafe(url[k])
    ensures Netloc(url) == var rest := AfterScheme(url);
      if "//" <= rest then
        var n := TakeNetloc(rest[2..]);
        if ('[' in n) != (']' in n) then None else Some(n)
      else Some("")
  {
    assert RemoveUnsafe(LStripC0(url)) == url;
  }

  /** The same, for a host without brackets: the netloc is the host. */
  lemma HostUrlNetloc(scheme: string, host: string, tail: string)
    requires scheme != [] && IsAsciiAlpha(scheme[0])
    requires forall k :: 0 <= k < |scheme| ==> IsSchemeChar(scheme[k])
    requires forall k :: 0 <= k < |host| ==> !IsNetlocEnd(host[k]) && !IsUnsafe(host[k]) && host[k] != '[' && host[k] != ']' && IsAscii(host[k])
    requires tail == [] || IsNetlocEnd(tail[0])
    requires forall k :: 0 <= k < |tail| ==> !IsUnsafe(tail[k])
    ensures Netloc(scheme + "://" + host + tail) == Some(host)
  {
    SchemeHostNetloc(scheme, host, tail);
    assert '[' !in host && ']' !in host;
  }
}
