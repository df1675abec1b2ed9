/**
 * `merge_pdfs`: which files of a folder are merged and in what order. The PDF
 * files are the entries whose name ends in ".pdf" in any letter case; the first
 * one whose stem starts with "选调面试" goes first, the rest follow sorted by
 * name. The folder listing is an input (`None` when the folder does not exist);
 * reading and writing PDF files is not modelled.
 */
module MergePdfs {
  import opened Wrappers
  import opened Text

  const OutputName: string := "选调面试_合并.pdf"
  const Lead: string := "选调面试"

  /** `f.lower().endswith(".pdf")`. */
  predicate IsPdfName(f: string) {
    |f| >= 4 && Lower(f[|f| - 4..]) == ".pdf"
  }

  predicate AllDots(s: string) {
    forall i :: 0 <= i < |s| ==> s[i] == '.'
  }

  /**
   * `os.path.splitext(f)[0]` for a PDF name: everything before the final ".pdf",
   * unless only dots precede it, in which case `splitext` finds no extension.
   */
  function Stem(f: string): (r: string)
    requires IsPdfName(f)
    ensures r == f || r == f[..|f| - 4]
    ensures r == f <==> AllDots(f[..|f| - 4])
  {
    var before := f[..|f| - 4];
    if AllDots(before) then f else before
  }

  /** `name == "选调面试" or name.startswith("选调面试")`. */
  predicate IsLeadName(f: string)
    requires IsPdfName(f)
  {
    Stem(f) == Lead || Lead <= Stem(f)
  }

  /** The lead test is a prefix test on the name less its last four characters. */
  lemma LeadNameByPrefix(f: string)
    requires IsPdfName(f)
    ensures IsLeadName(f) <==> Lead <= f[..|f| - 4]
  {
    var before := f[..|f| - 4];
    if AllDots(before) {
      if before != [] { assert before[0] == '.'; }
      assert f[0] == if before == [] then '.' else before[0];
      assert !(Lead <= f) by { assert Lead[0] != '.'; }
    }
  }

  /** The merged file's own name qualifies, so a second run in the same folder may take it as the lead file. */
  lemma OutputNameIsLead()
    ensures IsPdfName(OutputName) && IsLeadName(OutputName)
  {
    assert OutputName[|OutputName| - 4..] == ".pdf";
    assert Lower(".pdf") == ".pdf";
    var before := OutputName[..|OutputName| - 4];
    assert before[0] != '.';
    assert Lead <= before;
  }

  /** `[f for f in listing if f.lower().endswith(".pdf")]`. */
  function PdfFiles(listing: seq<string>): (r: seq<string>)
    ensures |r| <= |listing|
    ensures forall k :: 0 <= k < |r| ==> IsPdfName(r[k])
    decreases |listing|
  {
    if listing == [] then []
    else
      var n := |listing|;
      PdfFiles(listing[..n - 1]) + (if IsPdfName(listing[n - 1]) then [listing[n - 1]] else [])
  }

  /** The filter keeps the listing's order: the PDF names of `a`, then those of `b`. */
  lemma {:induction false} PdfFilesConcat(a: seq<string>, b: seq<string>)
    ensures PdfFiles(a + b) == PdfFiles(a) + PdfFiles(b)
    decreases |b|
  {
    if b != [] {
      var n := |b|;
      PdfFilesConcat(a, b[..n - 1]);
      assert (a + b)[..|a + b| - 1] == a + b[..n - 1];
    } else {
      assert a + b == a;
    }
  }

  /** One entry is kept exactly when it is a PDF name. */
  lemma PdfFilesOne(f: string)
    ensures PdfFiles([f]) == if IsPdfName(f) then [f] else []
  {
    assert [f][..0] == [];
  }

  /** The filter keeps exactly the PDF names of the listing. */
  lemma {:induction false} PdfFilesExactly(listing: seq<string>, f: string)
    ensures f in PdfFiles(listing) <==> f in listing && IsPdfName(f)
    decreases |listing|
  {
    if listing != [] {
      var n := |listing|;
      PdfFilesExactly(listing[..n - 1], f);
      assert listing == listing[..n - 1] + [listing[n - 1]];
    }
  }

  /** A listing without repeated names, as `os.listdir` gives, leaves PDF names without repeats. */
  lemma {:induction false} PdfFilesNoDup(listing: seq<string>)
    requires NoDup(listing)
    ensures NoDup(PdfFiles(listing))
    decreases |listing|
  {
    if listing != [] {
      var n := |listing|;
      var init, x := listing[..n - 1], listing[n - 1];
      NoDupInit(listing);
      PdfFilesNoDup(init);
      if IsPdfName(x) {
        PdfFilesExactly(init, x);
        NoDupSnoc(PdfFiles(init), x);
      }
    }
  }

  /** The first lead name of the list, which the `for` loop with `break` finds. */
  function FirstLead(files: seq<string>): (r: Option<string>)
    requires forall k :: 0 <= k < |files| ==> IsPdfName(files[k])
    ensures r.Some? ==> IsPdfName(r.value) && IsLeadName(r.value) && r.value in files
    ensures r.None? ==> forall k :: 0 <= k < |files| ==> !IsLeadName(files[k])
  {
    if files == [] then None
    else if IsLeadName(files[0]) then Some(files[0])
    else FirstLead(files[1..])
  }

  /** It is the first: no earlier entry is a lead name. */
  lemma {:induction false} FirstLeadIsFirst(files: seq<string>)
    requires forall k :: 0 <= k < |files| ==> IsPdfName(files[k])
    ensures FirstLead(files).Some? ==>
      exists i :: 0 <= i < |files| && files[i] == FirstLead(files).value
        && forall j :: 0 <= j < i ==> !IsLeadName(files[j])
  {
    if files != [] && !IsLeadName(files[0]) {
      FirstLeadIsFirst(files[1..]);
      if FirstLead(files).Some? {
        var i :| 0 <= i < |files[1..]| && files[1..][i] == FirstLead(files).value
          && forall j :: 0 <= j < i ==> !IsLeadName(files[1..][j]);
        assert files[i + 1] == FirstLead(files).value;
        assert forall j :: 0 <= j < i + 1 ==> !IsLeadName(files[j]) by {
          forall j | 0 <= j < i + 1 ensures !IsLeadName(files[j]) {
            if j > 0 { assert files[j] == files[1..][j - 1]; }
          }
        }
      }
    } else if files != [] {
      assert files[0] == FirstLead(files).value;
    }
  }

  /** `[f for f in files if f != first]`: with no lead file every entry is kept. */
  function Without(files: seq<string>, first: Option<string>): (r: seq<string>)
    ensures forall k :: 0 <= k < |r| ==> r[k] in files && (first.Some? ==> r[k] != first.value)
    decreases |files|
  {
    if files == [] then []
    else
      var n := |files|;
      var init := Without(files[..n - 1], first);
      assert forall k :: 0 <= k < |init| ==> init[k] in files by {
        forall k | 0 <= k < |init| ensures init[k] in files {
          var m :| 0 <= m < n - 1 && files[..n - 1][m] == init[k];
          assert files[m] == init[k];
        }
      }
      init + (if first.Some? && files[n - 1] == first.value then [] else [files[n - 1]])
  }

  /** With no lead file nothing is dropped. */
  lemma {:induction false} WithoutNone(files: seq<string>)
    ensures Without(files, None) == files
    decreases |files|
  {
    if files != [] {
      var n := |files|;
      WithoutNone(files[..n - 1]);
      assert files == files[..n - 1] + [files[n - 1]];
    }
  }

  /** Dropping a name keeps every other entry, as often as before. */
  lemma {:induction false} WithoutCount(files: seq<string>, x: string)
    ensures multiset(Without(files, Some(x))) == multiset(files)[x := 0]
    decreases |files|
  {
    if files != [] {
      var n := |files|;
      WithoutCount(files[..n - 1], x);
      assert files == files[..n - 1] + [files[n - 1]];
      assert multiset(files) == multiset(files[..n - 1]) + multiset{files[n - 1]};
    }
  }

  lemma NoDupCount(files: seq<string>, x: string)
    requires NoDup(files) && x in files
    ensures multiset(files)[x] == 1
  {
    var i :| 0 <= i < |files| && files[i] == x;
    assert files == files[..i] + [x] + files[i + 1..];
    assert x !in files[..i];
    assert x !in files[i + 1..];
    assert multiset(files) == multiset(files[..i]) + multiset{x} + multiset(files[i + 1..]);
  }

  // ---------------------------------------------------------------------------
  // sorted()

  predicate Sorted(s: seq<string>) {
    forall i, j :: 0 <= i < j < |s| ==> Le(s[i], s[j])
  }

  function Insert(x: string, s: seq<string>): (r: seq<string>)
    ensures multiset(r) == multiset(s) + multiset{x}
    ensures |r| == |s| + 1
  {
    if s == [] then [x]
    else if Le(x, s[0]) then [x] + s
    else
      assert s == [s[0]] + s[1..];
      [s[0]] + Insert(x, s[1..])
  }

  lemma {:induction false} InsertSorted(x: string, s: seq<string>)
    requires Sorted(s)
    ensures Sorted(Insert(x, s))
  {
    if s != [] {
      if Le(x, s[0]) {
        var r := [x] + s;
        forall i, j | 0 <= i < j < |r| ensures Le(r[i], r[j]) {
          if i == 0 {
            if j > 1 { LeTrans(x, s[0], s[j - 1]); }
          } else {
            assert r[i] == s[i - 1] && r[j] == s[j - 1];
          }
        }
      } else {
        var t := Insert(x, s[1..]);
        InsertSorted(x, s[1..]);
        LeTotal(x, s[0]);
        forall k | 0 <= k < |t| ensures Le(s[0], t[k]) {
          var y := t[k];
          assert y in multiset(t);
          if y != x {
            assert y in multiset(s[1..]);
            var m :| 0 <= m < |s[1..]| && s[1..][m] == y;
            assert s[m + 1] == y;
          }
        }
        var r := [s[0]] + t;
        forall i, j | 0 <= i < j < |r| ensures Le(r[i], r[j]) {
          if i == 0 { assert r[j] == t[j - 1]; } else { assert r[i] == t[i - 1] && r[j] == t[j - 1]; }
        }
      }
    }
  }

  /** `sorted(s)`: ascending by code point, the same names as often as before. */
  function Sort(s: seq<string>): (r: seq<string>)
    ensures Sorted(r) && multiset(r) == multiset(s)
  {
    if s == [] then []
    else
      var t := Sort(s[1..]);
      InsertSorted(s[0], t);
      assert s == [s[0]] + s[1..];
      Insert(s[0], t)
  }

  /** A sorted list is fixed by its elements: whatever sort Python uses, the order is this one. */
  lemma {:induction false} SortedUnique(a: seq<string>, b: seq<string>)
    requires Sorted(a) && Sorted(b) && multiset(a) == multiset(b)
    ensures a == b
    decreases |a|
  {
    if a != [] {
      assert |b| == |a| by { assert |multiset(a)| == |multiset(b)|; }
      assert a[0] in multiset(b) && b[0] in multiset(a);
      var i :| 0 <= i < |b| && b[i] == a[0];
      var j :| 0 <= j < |a| && a[j] == b[0];
      if i > 0 { assert Le(b[0], b[i]); }
      if j > 0 { assert Le(a[0], a[j]); }
      LeTotal(a[0], b[0]);
      if i > 0 && j > 0 { LeAntisymmetric(a[0], b[0]); }
      assert a[0] == b[0];
      assert a == [a[0]] + a[1..] && b == [b[0]] + b[1..];
      assert multiset(a) == multiset{a[0]} + multiset(a[1..]);
      assert multiset(b) == multiset{b[0]} + multiset(b[1..]);
      forall y ensures multiset(a[1..])[y] == multiset(b[1..])[y] {
        assert multiset(a)[y] == multiset(b)[y];
      }
      assert multiset(a[1..]) == multiset(b[1..]);
      SortedUnique(a[1..], b[1..]);
    }
  }

  // ---------------------------------------------------------------------------
  // The merge order

  /** `([first_pdf] if first_pdf else []) + sorted(f for f in pdf_files if f != first_pdf)`. */
  function Ordered(files: seq<string>, first: Option<string>): seq<string> {
    (if first.Some? then [first.value] else []) + Sort(Without(files, first))
  }

  /** The lead file, when there is one, comes first and nowhere else, and the rest is sorted. */
  lemma OrderedShape(files: seq<string>, first: Option<string>)
    ensures first.Some? ==> Ordered(files, first)[0] == first.value
    ensures first.Some? ==> first.value !in Ordered(files, first)[1..]
    ensures first.Some? ==> Sorted(Ordered(files, first)[1..])
    ensures first.None? ==> Sorted(Ordered(files, first))
  {
    var others := Without(files, first);
    if first.Some? {
      var x := first.value;
      assert Ordered(files, first)[1..] == Sort(others);
      assert x !in others;
      assert multiset(Sort(others)) == multiset(others);
      assert x !in multiset(Sort(others));
    }
  }

  /** For a listing without repeated names, every PDF is merged exactly once. */
  lemma OrderedPermutation(files: seq<string>, first: Option<string>)
    requires NoDup(files)
    requires first.Some? ==> first.value in files
    ensures multiset(Ordered(files, first)) == multiset(files)
  {
    var others := Without(files, first);
    if first.Some? {
      var x := first.value;
      WithoutCount(files, x);
      NoDupCount(files, x);
      assert multiset(files) == multiset(others) + multiset{x};
    } else {
      WithoutNone(files);
    }
  }

  /** The order `merge_pdfs` builds from a listing without repeated names. */
  lemma MergeOrderShape(files: seq<string>)
    requires forall k :: 0 <= k < |files| ==> IsPdfName(files[k])
    requires NoDup(files)
    ensures FirstLead(files).Some? ==> Ordered(files, FirstLead(files))[0] == FirstLead(files).value
    ensures multiset(Ordered(files, FirstLead(files))) == multiset(files)
  {
    OrderedShape(files, FirstLead(files));
    OrderedPermutation(files, FirstLead(files));
  }

  datatype MergeResult = NotADirectory | NoPdfs | Merge(order: seq<string>)

  /** `merge_pdfs`: stop when the folder is missing or holds no PDF; otherwise the merge order. */
  method MergeOrder(listing: Option<seq<string>>) returns (result: MergeResult)
    ensures listing.None? <==> result.NotADirectory?
    ensures listing.Some? ==> (PdfFiles(listing.value) == [] <==> result.NoPdfs?)
    ensures result.Merge? ==>
      var files := PdfFiles(listing.value);
      result.order == Ordered(files, FirstLead(files))
    ensures result.Merge? && NoDup(listing.value) ==> multiset(result.order) == multiset(PdfFiles(listing.value))
  {
    if listing.None? {
      return NotADirectory;
    }
    var pdfFiles := PdfFiles(listing.value);
    if pdfFiles == [] {
      return NoPdfs;
    }
    var first := FindFirstPdf(pdfFiles);
    var others := Sort(Without(pdfFiles, first));
    result := Merge((if first.Some? then [first.value] else []) + others);
    if NoDup(listing.value) {
      PdfFilesNoDup(listing.value);
      MergeOrderShape(pdfFiles);
    }
  }

  /** The `for` loop that finds the lead file, leaving at the first hit. */
  method FindFirstPdf(files: seq<string>) returns (first: Option<string>)
    requires forall k :: 0 <= k < |files| ==> IsPdfName(files[k])
    ensures first == FirstLead(files)
    ensures first.Some? <==> exists k :: 0 <= k < |files| && IsLeadName(files[k])
  {
    first := None;
    var i := 0;
    while i < |files|
      invariant 0 <= i <= |files|
      invariant FirstLead(files) == FirstLead(files[i..])
      invariant forall k :: 0 <= k < i ==> !IsLeadName(files[k])
    {
      assert files[i..][1..] == files[i + 1..];
      if IsLeadName(files[i]) {
        first := Some(files[i]);
        return;
      }
      i := i + 1;
    }
  }
}
