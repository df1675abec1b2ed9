/**
 * The line-oriented link files every script reads and writes: one URL per line.
 * Reading is `[line.strip() for line in f.readlines() if line.strip()]`; writing is
 * `f.write(link + '\n')` for each link in order.
 */
module LineFile {
  import opened Text

  /**
   * What opening and reading a file gives. `Readable` carries the text as Python's
   * text-mode reader delivers it (line ends already translated to '\n').
   */
  datatype FileRead = Missing | Unreadable | Readable(text: string)

  /** `f.readlines()`: each line keeps its '\n'; a last line without one is kept as it is. */
  function ReadLines(text: string): (r: seq<string>)
    ensures forall k :: 0 <= k < |r| ==> r[k] != ""
    decreases |text|
  {
    if text == "" then []
    else
      var rest := ReadLines(text[1..]);
      if text[0] == '\n' || rest == [] then [[text[0]]] + rest
      else [[text[0]] + rest[0]] + rest[1..]
  }

  function Concat(lines: seq<string>): string {
    if lines == [] then "" else lines[0] + Concat(lines[1..])
  }

  /** The lines are the file cut after each '\n': gluing them back gives the file. */
  lemma {:induction false} ReadLinesConcat(text: string)
    ensures Concat(ReadLines(text)) == text
    decreases |text|
  {
    if text != "" {
      ReadLinesConcat(text[1..]);
      var rest := ReadLines(text[1..]);
      if text[0] == '\n' || rest == [] {
        assert ([[text[0]]] + rest)[1..] == rest;
      } else {
        var r := [[text[0]] + rest[0]] + rest[1..];
        assert r[1..] == rest[1..];
        assert Concat(rest) == rest[0] + Concat(rest[1..]);
      }
      assert text == [text[0]] + text[1..];
    }
  }

  /** The comprehension's filter: strip each line, keep the non-empty results. */
  function KeepNonBlank(lines: seq<string>): (r: seq<string>)
    ensures |r| <= |lines|
    ensures forall k :: 0 <= k < |r| ==> r[k] != "" && Stripped(r[k])
  {
    if lines == [] then []
    else
      var line := Strip(lines[0]);
      var rest := KeepNonBlank(lines[1..]);
      var head := if line != "" then [line] else [];
      KeptAppend(head, rest);
      head + rest
  }

  /** Entries that are all stripped and non-empty stay so when two lists are joined. */
  lemma KeptAppend(a: seq<string>, b: seq<string>)
    requires forall k :: 0 <= k < |a| ==> a[k] != "" && Stripped(a[k])
    requires forall k :: 0 <= k < |b| ==> b[k] != "" && Stripped(b[k])
    ensures forall k :: 0 <= k < |a + b| ==> (a + b)[k] != "" && Stripped((a + b)[k])
  {
    forall k | 0 <= k < |a + b| ensures (a + b)[k] != "" && Stripped((a + b)[k]) {
      if k >= |a| { assert (a + b)[k] == b[k - |a|]; }
    }
  }

  /** Filtering works line by line: the kept lines of `a`, then those of `b`. */
  lemma {:induction false} KeepNonBlankConcat(a: seq<string>, b: seq<string>)
    ensures KeepNonBlank(a + b) == KeepNonBlank(a) + KeepNonBlank(b)
    decreases |a|
  {
    if a != [] {
      var x, tail := a[0], a[1..];
      assert a == [x] + tail;
      assert a + b == [x] + (tail + b);
      KeepNonBlankConcat(tail, b);
      KeepNonBlankCons(x, tail);
      KeepNonBlankCons(x, tail + b);
      AppendAssoc(KeepNonBlank([x]), KeepNonBlank(tail), KeepNonBlank(b));
    } else {
      assert a + b == b;
    }
  }

  lemma KeepNonBlankCons(x: string, rest: seq<string>)
    ensures KeepNonBlank([x] + rest) == KeepNonBlank([x]) + KeepNonBlank(rest)
  {
    assert ([x] + rest)[1..] == rest;
    assert [x][1..] == [];
  }

  /** One step of the filter: the first line, if kept, then the rest. */
  lemma KeepNonBlankStep(lines: seq<string>, line: string, head: seq<string>, tail: seq<string>)
    requires lines != [] && line == Strip(lines[0]) && tail == lines[1..]
    requires head == if line != "" then [line] else []
    ensures KeepNonBlank(lines) == head + KeepNonBlank(tail)
  {
  }

  /** A string is kept exactly when it is non-empty and some line strips to it. */
  lemma {:induction false} KeepNonBlankMember(lines: seq<string>, x: string)
    ensures x in KeepNonBlank(lines) <==> x != "" && exists k :: 0 <= k < |lines| && Strip(lines[k]) == x
    decreases |lines|
  {
    if lines != [] {
      var tail := lines[1..];
      KeepNonBlankMember(tail, x);
      var line := Strip(lines[0]);
      var head := if line != "" then [line] else [];
      KeepNonBlankStep(lines, line, head, tail);
      if x != "" && exists k :: 0 <= k < |lines| && Strip(lines[k]) == x {
        var k :| 0 <= k < |lines| && Strip(lines[k]) == x;
        if k > 0 { assert Strip(tail[k - 1]) == x; }
      }
      if x in KeepNonBlank(tail) {
        var k :| 0 <= k < |tail| && Strip(tail[k]) == x;
        assert Strip(lines[k + 1]) == x;
      }
    }
  }

  /** One line is kept, stripped, exactly when stripping leaves something. */
  lemma KeepNonBlankLine(line: string)
    ensures KeepNonBlank([line]) == if Strip(line) != "" then [Strip(line)] else []
  {
    assert [line][1..] == [];
  }

  /** The links a file holds. */
  function ParseLinks(text: string): seq<string> {
    KeepNonBlank(ReadLines(text))
  }

  /** What `save_links` (and the failed-links file) writes: each link followed by '\n'. */
  function WriteLines(links: seq<string>): string {
    if links == [] then "" else links[0] + "\n" + WriteLines(links[1..])
  }

  /** A link that survives a save and a load unchanged: non-empty, stripped, on one line. */
  predicate IsLine(link: string) {
    link != "" && Stripped(link) && '\n' !in link
  }

  function LoadOrEmpty(file: FileRead): (r: seq<string>)
    ensures file.Readable? ==> r == ParseLinks(file.text)
    ensures !file.Readable? ==> r == []
    ensures forall k :: 0 <= k < |r| ==> IsLine(r[k])
  {
    match file
    case Readable(text) =>
      var links := ParseLinks(text);
      assert forall k :: 0 <= k < |links| ==> '\n' !in links[k] by {
        ParsedWithoutNewline(text);
      }
      links
    case _ => []
  }

  lemma {:induction false} ReadLinesLine(line: string, rest: string)
    requires '\n' !in line
    ensures ReadLines(line + "\n" + rest) == [line + "\n"] + ReadLines(rest)
    decreases |line|
  {
    if line == "" {
      assert line + "\n" + rest == "\n" + rest;
      assert ("\n" + rest)[1..] == rest;
    } else {
      ReadLinesLine(line[1..], rest);
      var text := line + "\n" + rest;
      assert text[0] == line[0] && text[1..] == line[1..] + "\n" + rest;
      assert [line[0]] + (line[1..] + "\n") == line + "\n";
    }
  }

  /** A last line without '\n' is one line by itself. */
  lemma {:induction false} ReadLinesLast(line: string)
    requires line != "" && '\n' !in line
    ensures ReadLines(line) == [line]
    decreases |line|
  {
    if |line| > 1 {
      assert line[1] in line;
      ReadLinesLast(line[1..]);
      assert [line[0]] + line[1..] == line;
    } else {
      assert [line[0]] == line;
    }
  }

  lemma StripLine(line: string)
    requires IsLine(line)
    ensures Strip(line + "\n") == line
  {
    var s := line + "\n";
    assert LStrip(s) == s;
    assert s[..|s| - 1] == line;
    assert RStrip(s) == RStrip(line) == line;
  }

  /** Loading what was saved gives back the links, in order (lines starting with '#' included). */
  lemma {:induction false} ParseWriteLines(links: seq<string>)
    requires forall k :: 0 <= k < |links| ==> IsLine(links[k])
    ensures ParseLinks(WriteLines(links)) == links
  {
    if links != [] {
      var rest := WriteLines(links[1..]);
      ParseWriteLines(links[1..]);
      ReadLinesLine(links[0], rest);
      StripLine(links[0]);
      var lines := ReadLines(WriteLines(links));
      assert lines == [links[0] + "\n"] + ReadLines(rest);
      KeepNonBlankStep(lines, links[0], [links[0]], ReadLines(rest));
    }
  }

  /** Every loaded link is on one line: no link returned contains '\n'. */
  lemma {:induction false} ParsedWithoutNewline(text: string)
    ensures forall k :: 0 <= k < |ParseLinks(text)| ==> '\n' !in ParseLinks(text)[k]
  {
    var lines := ReadLines(text);
    ReadLinesShape(text);
    KeepNonBlankSingleLines(lines);
  }

  /** Each line holds '\n' at most once, and only as its last character. */
  lemma {:induction false} ReadLinesShape(text: string)
    ensures forall k, i :: 0 <= k < |ReadLines(text)| && 0 <= i < |ReadLines(text)[k]| - 1 ==> ReadLines(text)[k][i] != '\n'
    decreases |text|
  {
    if text != "" {
      ReadLinesShape(text[1..]);
      var rest := ReadLines(text[1..]);
      var r := ReadLines(text);
      if text[0] == '\n' || rest == [] {
        assert r == [[text[0]]] + rest;
        assert forall k :: 1 <= k < |r| ==> r[k] == rest[k - 1];
      } else {
        assert r == [[text[0]] + rest[0]] + rest[1..];
        assert forall k :: 1 <= k < |r| ==> r[k] == rest[k];
        forall i | 0 <= i < |r[0]| - 1 ensures r[0][i] != '\n' {
          if i > 0 { assert r[0][i] == rest[0][i - 1]; }
        }
      }
    }
  }

  lemma StripNoNewline(line: string)
    requires forall i :: 0 <= i < |line| - 1 ==> line[i] != '\n'
    ensures '\n' !in Strip(line)
  {
  }

  lemma KeepNonBlankSingleLines(lines: seq<string>)
    requires forall k, i :: 0 <= k < |lines| && 0 <= i < |lines[k]| - 1 ==> lines[k][i] != '\n'
    ensures forall k :: 0 <= k < |KeepNonBlank(lines)| ==> '\n' !in KeepNonBlank(lines)[k]
  {
    var r := KeepNonBlank(lines);
    forall k | 0 <= k < |r| ensures '\n' !in r[k] {
      KeepNonBlankMember(lines, r[k]);
      var j :| 0 <= j < |lines| && Strip(lines[j]) == r[k];
      StripNoNewline(lines[j]);
    }
  }

  /** Saving what was loaded and loading it again gives the same links. */
  lemma ParseIdempotent(text: string)
    ensures ParseLinks(WriteLines(ParseLinks(text))) == ParseLinks(text)
  {
    ParsedWithoutNewline(text);
    ParseWriteLines(ParseLinks(text));
  }
}
