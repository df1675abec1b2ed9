# feishu-docx-exports in Dafny

A verified model of the bookkeeping in the Feishu document batch-export tools.

- **Link collector** (`link_collector.py`):
  - the Feishu URL test;
  - the duplicate-rejecting, append-only link list;
  - the URL scanner that feeds it from free text;
  - order-preserving de-duplication;
  - the links file, one link per line;
  - delete-by-number from the menu.
- **Progress monitor** (`progress_monitor.py`):
  - the success and failure counters;
  - the error records;
  - the 40-character progress bar;
  - the remaining-time estimate;
  - the hours/minutes/seconds run time;
  - the "last ten errors" summary.
- **Batch exporter** (`feishu_batch_export.py`):
  - loading the links file;
  - where each document lands (exported or failed);
  - the two monitor updates each document makes;
  - the fallback order for finding the export button;
  - the pause schedule;
  - the closing summary, the failed-links file and the report totals.
- **Dry-run tester** (`simple_test.py`):
  - the text-only classification of a link (document type, domain, feasibility, notes);
  - the split of the links into feasible and infeasible ones;
  - the report totals.
- **PDF merge order** (`merge_pdfs.py`):
  - which files of a folder are PDFs;
  - which one goes first;
  - the sorted order of the rest.
- **Stand-alone validator** (`test_link_validation.py`):
  - its own copy of the URL test;
  - the sample link;
  - the document-type label.

## Modules

| Module | Contents |
|---|---|
| `Wrappers` | `Option` |
| `Text` | Python `str.strip`, `in`, `split('/')`, `lower()`, `*` and `<=`, each as a function on `seq<char>` |
| `UrlParse` | the part of `urllib.parse.urlsplit` that finds the netloc |
| `LineFile` | `readlines()`, keeping the stripped non-blank lines, and writing `link + '\n'` per link |
| `LinkCollector` | the validator, the regex scanner, de-duplication, and `class Collector` |
| `ProgressMonitor` | bar, estimate and duration arithmetic, and `class Monitor` |
| `BatchExport` | a run as functions of the links and the page outcomes, and `class Exporter` |
| `SimpleTest` | classification, partition, and `class Tester` |
| `MergePdfs` | filter, lead file, sort, and merge order |
| `LinkValidation` | the second validator, the sample link and the labels |

## What the model shows about the program as written

- The collector checks the document markers (`/docx/`, `/wiki/`, `/docs/`, `/doc/`) against the whole URL, not only its path. `LinkCollector.ValidHostUrl` states it so.
- The exporter reports to the monitor twice per document: first a failure carrying "正在处理...", then the real outcome. Consequences:
  - after n documents, the monitor's counters sum to 2n (`BatchExport.Exporter.RunLinks`, through `RunEffect`);
  - every document leaves at least one error record (`BatchExport.DocTrail`);
  - with the counters past the announced total, the progress bar grows to twice its width (`ProgressMonitor.BarOverflow`).
- `merge_pdfs.py` writes its output into the folder it reads, under a name that qualifies as the lead file (`MergePdfs.OutputNameIsLead`). A second run therefore merges the previous output again. It takes that output as the lead file when no other lead name is listed before it (`MergePdfs.FirstLeadIsFirst`).
- The write of failed_links.txt in `print_export_summary` is not guarded. When it raises, the report is not made, and the `except Exception` of `export_all_documents` calls `finish_export` a second time, which saves the log again (`BatchExport.Exporter.PrintExportSummary`, `BatchExport.Exporter.RunLinks`).
- A link can pass the validator and still get the type label "其他文档" (`LinkValidation.ValidButOther`). `/docs/` and `/doc/` are markers, but neither is one of the two types.

## Model

| member | source | states |
|---|---|---|
| `LinkCollector.IsValidFeishuUrl` | link_collector.py:27-45 | The definition: the netloc parses, holds one of the four domains, and the whole URL holds one of the four markers. `ValidHostUrl`, `UnmatchedBracketInvalid` and `BlankIsInvalid` state what it gives |
| `LinkCollector.ValidHostUrl` | link_collector.py:27-45 | For "scheme://host" + tail with an ASCII host, the URL is valid iff the host contains one of the four domains and the whole URL contains one of the four markers |
| `LinkCollector.UnmatchedBracketInvalid` | link_collector.py:27-45 | A netloc with one of '[' and ']' but not the other makes parsing fail, so the URL is invalid |
| `LinkCollector.BlankIsInvalid` | link_collector.py:60-67 | A blank string has an empty netloc and is never valid |
| `LinkCollector.AddKeepsNoDup` | link_collector.py:69-75 | Adding to a list without duplicates keeps it without duplicates |
| `LinkCollector.AddAllAppends` | link_collector.py:77-89 | Adding a batch only appends: the old list is a prefix, each appended entry is from the batch and valid, and no duplicates appear |
| `LinkCollector.Collector.constructor` | link_collector.py:17-24 | A collector starts with its file name and no links |
| `LinkCollector.Collector.AddLink` | link_collector.py:60-75 | True iff the URL is non-blank, valid and not yet listed. Then it is appended at the end; otherwise the list is unchanged |
| `LinkCollector.Collector.AddLinksFromText` | link_collector.py:77-89 | Each scanned URL is added in order. The count returned is the growth of the list, and every new entry was scanned and is valid |
| `LinkCollector.Collector.AddEach` | link_collector.py:83-86 | `add_link` runs on each URL in order, and the count is the number of links actually appended |
| `LinkCollector.Collector.AddCounting` | link_collector.py:85-86 | One pass of the loop body: the list becomes the result of `add_link`, and the count grows by one iff the link was appended |
| `LinkCollector.AddedAreFound` | link_collector.py:77-89 | Every entry a batch appends is one of the batch's URLs and is valid |
| `LinkCollector.RunLengthSpec` | link_collector.py:80-81 | The greedy `[^...]+` run is made of URL characters and stops at the first other character or at the end |
| `LinkCollector.RunLengthOf` | link_collector.py:80-81 | A stretch of URL characters followed by the end or by another character is taken whole |
| `LinkCollector.HttpsExcludesHttp` | link_collector.py:80 | A position starting "https://" does not start "http://", so the two heads of `https?://` never overlap |
| `LinkCollector.MatchIsCandidate` | link_collector.py:80-81 | A match is "http://" or "https://" followed by at least one more character, and holds only URL characters |
| `LinkCollector.FindUrls` | link_collector.py:80-81 | Every URL `findall` returns is a candidate and occurs in the text |
| `LinkCollector.AllFoundAt` | link_collector.py:80-81 | The recursive "all found" property is the same as every returned entry being a candidate that occurs in the text |
| `LinkCollector.FindUrlsSound` | link_collector.py:80-81 | The scan from any position returns only candidates that occur in the text |
| `LinkCollector.FindUrlsSplit` | link_collector.py:80-81 | Text cut after a non-URL character is scanned piece by piece: the matches of the first part, then those of the second |
| `LinkCollector.FindsCandidate` | link_collector.py:80-81 | A candidate at the start of the text, not followed by a URL character, is returned whole, and the scan goes on after it |
| `LinkCollector.FindsDelimited` | link_collector.py:80-81 | A candidate between non-URL characters (or the ends) is found, in its place between the matches before and after it |
| `LinkCollector.Dedup` | link_collector.py:94 | The definition: each entry kept iff it did not occur earlier. `DedupSpec`, `DedupOfNoDup`, `DedupIdempotent` and `DedupKeepsFirstOrder` state what it gives |
| `LinkCollector.DedupSpec` | link_collector.py:94 | De-duplication keeps the same set of links, has no duplicates and is no longer than the original |
| `LinkCollector.DedupOfNoDup` | link_collector.py:91-100 | A list without duplicates is left as it is |
| `LinkCollector.DedupIdempotent` | link_collector.py:91-100 | De-duplicating twice equals de-duplicating once, so a second `remove_duplicates` removes nothing |
| `LinkCollector.DedupKeepsFirstOrder` | link_collector.py:94 | The survivors keep the order of their first occurrences |
| `LinkCollector.DedupExample` | link_collector.py:94 | `[a, a, b, a]` becomes `[a, b]` |
| `LinkCollector.Collector.RemoveDuplicates` | link_collector.py:91-100 | The new list is the de-duplicated old one, and the count returned is the old length minus the new |
| `LinkCollector.Collector.LoadExistingLinks` | link_collector.py:47-58 | True iff the file is readable, and then the list is its stripped non-blank lines. Otherwise the list is unchanged |
| `LinkCollector.Collector.SaveLinks` | link_collector.py:102-113 | When the file can be opened, the text written is each link followed by a newline; otherwise nothing is written |
| `LinkCollector.Collector.DeleteEntry` | link_collector.py:186-194 | An entry is removed iff a number in 1..len was entered. Exactly that entry goes and the rest keep their order |
| `LineFile.ReadLines` | link_collector.py:52 | `readlines()` gives non-empty lines |
| `LineFile.ReadLinesConcat` | link_collector.py:52 | The lines of `readlines()` concatenate back to the text |
| `LineFile.ReadLinesLast` | link_collector.py:52 | A non-empty text without '\n' is one line by itself |
| `LineFile.KeepNonBlank` | link_collector.py:52 | The kept entries are stripped and non-empty, and there are no more of them than lines |
| `LineFile.KeepNonBlankMember` | link_collector.py:52 | A string is kept iff it is non-empty and some line strips to it |
| `LineFile.KeepNonBlankConcat` | link_collector.py:52 | The filter works line by line, in order: the kept lines of the first part, then those of the second |
| `LineFile.KeepNonBlankLine` | link_collector.py:52 | One line is kept, stripped, iff stripping leaves something |
| `LineFile.ParseLinks` | link_collector.py:47-58 | The definition: the stripped non-blank lines of `readlines()`. `ParsedWithoutNewline`, `ParseWriteLines` and `ParseIdempotent` state what it gives |
| `LineFile.ParsedWithoutNewline` | link_collector.py:52 | No loaded link contains a newline |
| `LineFile.LoadOrEmpty` | feishu_batch_export.py:95-105 | A readable file gives its stripped non-blank lines in order and any read error gives [], as in simple_test.py:19-27. Every entry is a single stripped, non-empty line |
| `LineFile.WriteLines` | link_collector.py:102-107 | The definition: each link followed by '\n', as also written at feishu_batch_export.py:281-283. `ParseWriteLines` states that loading inverts it |
| `LineFile.ParseWriteLines` | link_collector.py:102-107 | Saving a list of single-line stripped links and loading the file back gives the same list |
| `LineFile.ParseIdempotent` | link_collector.py:47-52 | Loading, saving and loading again gives what the first load gave |
| `UrlParse.Netloc` | link_collector.py:30 | The definition: strip leading C0 and spaces, delete tab, CR and LF, split off a scheme, take the part after "//" up to '/', '?' or '#', fail on one unmatched bracket. `HostUrlNetloc`, `SchemeHostNetloc` and `BlankIsInvalid` state what it gives |
| `UrlParse.HostUrlNetloc` | link_collector.py:30 | The netloc of "scheme://host" + tail, with an ASCII host and the tail starting at '/', '?' or '#', is the host |
| `UrlParse.SchemeHostNetloc` | link_collector.py:30 | The model's netloc with brackets allowed in the ASCII host: `None` exactly when the host holds one of '[' and ']' without the other, and the host otherwise. For a host holding both, this is the model's answer, not always the source's (see "## Left out") |
| `UrlParse.TakeNetloc` | link_collector.py:30 | The netloc is the longest prefix before '/', '?' or '#' |
| `UrlParse.LStripC0` | link_collector.py:30 | The result is a suffix of the input, everything dropped is a control character or a space, and it starts with neither |
| `UrlParse.RemoveUnsafe` | link_collector.py:30 | No tab, CR or LF is left, and a URL without them is unchanged |
| `UrlParse.RemoveUnsafeConcat` | link_collector.py:30 | Removal works piece by piece, keeping the order: the kept characters of the first part, then those of the second |
| `UrlParse.RemoveUnsafeChar` | link_collector.py:30 | One character is dropped iff it is a tab, CR or LF |
| `Text.Strip` | link_collector.py:62 | `strip()` gives a stripped string, empty iff the input is all whitespace, and leaves a stripped string alone |
| `Text.StripPiece` | link_collector.py:62 | `strip()` returns the contiguous piece that starts where `lstrip()` stops, with only whitespace before and after it |
| `Text.JoinSplit` | simple_test.py:39 | Joining the pieces of `split('/')` with '/' gives the string back |
| `Text.LeTotal` | merge_pdfs.py:44 | The string order that `sorted` uses is total |
| `Text.LeAntisymmetric` | merge_pdfs.py:44 | Two names each `<=` the other are equal |
| `ProgressMonitor.PriorErrors` | progress_monitor.py:32-41 | The errors carried over come from a log with an "errors" entry; a missing or unreadable log gives none. `BatchExport.NextRunErrors` chains two runs through it |
| `ProgressMonitor.Monitor.constructor` | progress_monitor.py:14-30 | A monitor starts with no start time, zero counters, no current document, and the prior log's errors |
| `ProgressMonitor.Monitor.StartExport` | progress_monitor.py:43-54 | Sets the start time and total and zeroes both counters and the current document, but keeps earlier error records |
| `ProgressMonitor.Monitor.UpdateProgress` | progress_monitor.py:56-108 | Success adds one to the success count only. Failure adds one to the failure count and appends exactly one record with this URL and message. The two counters grow by one in total. The bar, estimate, current document (first 50 characters) and error line shown follow from the new counts |
| `ProgressMonitor.FilledLength` | progress_monitor.py:90-91 | The filled length is floor(40·done/total): at most 40 while done ≤ total, and exactly 40 when done = total |
| `ProgressMonitor.Bar` | progress_monitor.py:90-92 | The bar is the filled length in '█' followed by '-' up to 40 characters |
| `ProgressMonitor.BarWidth` | progress_monitor.py:90-92 | While done ≤ total the bar is exactly 40 characters ('-' only at 0, '█' only at total) |
| `ProgressMonitor.BarOverflow` | progress_monitor.py:76-92 | With twice as many updates as documents the bar is 80 characters wide |
| `ProgressMonitor.EstimateEta` | progress_monitor.py:79-87 | "计算中..." exactly when there is no start time. Otherwise minutes and seconds are the floor split of remaining·elapsed/done, with seconds in 0..59 |
| `ProgressMonitor.SplitDuration` | progress_monitor.py:113-116 | hours·3600 + minutes·60 + seconds is the run time, with minutes and seconds below 60 |
| `ProgressMonitor.SplitDurationUnique` | progress_monitor.py:113-116 | Any split with minutes and seconds below 60 is this one |
| `ProgressMonitor.Monitor.FinishExport` | progress_monitor.py:110-132 | Nothing happens without a start time. Otherwise the run time is split and the log saved is the counters and error records |
| `ProgressMonitor.Take` | progress_monitor.py:103 | `s[:n]` is a prefix of length min(n, len) |
| `ProgressMonitor.LastErrors` | progress_monitor.py:160 | `errors[-10:]` is the last min(10, n) records |
| `ProgressMonitor.LastErrorsWindow` | progress_monitor.py:160-167 | With at most ten errors all are shown, and the newest is always the last shown; beyond ten, a new error pushes the oldest out |
| `ProgressMonitor.Monitor.SummarizeErrors` | progress_monitor.py:151-169 | The summary is `SummaryOf` the records: none iff there are no errors. Otherwise the last min(10, n) records are numbered from 1 with their URL cut to 60 characters, and n−10 hidden ones are reported iff n > 10 |
| `ProgressMonitor.SummaryOf` | progress_monitor.py:151-169 | The definition of what `print_error_summary` shows for a list of records. `SummaryOfUnique` states that it fixes the summary |
| `ProgressMonitor.SummaryOfUnique` | progress_monitor.py:151-169 | Two summaries of the same records are equal, so the summary shown depends on the records alone |
| `BatchExport.Exporter.constructor` | feishu_batch_export.py:35-55 | An exporter starts with empty lists and a fresh monitor that read the prior log |
| `BatchExport.Exporter.ClickExportButton` | feishu_batch_export.py:153-196 | True without further checks when the hotkey path does not raise. Otherwise the five selectors are tried in order and the first clickable one wins; False when none is |
| `BatchExport.DocTrail` | feishu_batch_export.py:116-151 | Each document leaves the pending record, then one with the real failure message iff it was not exported |
| `BatchExport.Exporter.ExportSingleDocument` | feishu_batch_export.py:107-151 | The URL joins exactly one of the two lists. The monitor gets two updates, the first always a failure |
| `BatchExport.Processed` | feishu_batch_export.py:232-235 | The definition: the links whose document was exported, in order. `Partition`, `PartitionSizes` and `FailedFromLinks` state what it gives |
| `BatchExport.Failed` | feishu_batch_export.py:232-235 | The definition: the links whose document was not exported, in order. `Partition`, `PartitionSizes`, `FailedFromLinks` and `FailedFileReloads` state what it gives |
| `BatchExport.Partition` | feishu_batch_export.py:134-151 | Exported and failed links together are the links, as a multiset |
| `BatchExport.PartitionSizes` | feishu_batch_export.py:134-151 | The two lists together are as long as the links; the records number the links plus the failures |
| `BatchExport.NextRunErrors` | progress_monitor.py:32-41 | A log saved with the prior errors followed by a run's records is read back by the next run as exactly those, one more record per link and per failure |
| `BatchExport.FailedFromLinks` | feishu_batch_export.py:134-151 | Every exported or failed link is one of the input links |
| `BatchExport.FailedFileReloads` | feishu_batch_export.py:274-283 | failed_links.txt, read back as a links file, gives the failed links in order |
| `BatchExport.Pauses` | feishu_batch_export.py:234-243 | The pause after document i (from 1) is 30 seconds when i % 10 == 0 and the delay otherwise; the delay and every pause are whole non-negative seconds |
| `BatchExport.TotalPause` | feishu_batch_export.py:234-243 | The pauses of n documents sum to 30·(n / 10) + delay·(n − n / 10) |
| `BatchExport.RunStep` | feishu_batch_export.py:234-235 | One more document extends the exported list, the failed list and the record trail by exactly its own contribution |
| `BatchExport.Exporter.ExportEach` | feishu_batch_export.py:232-243 | After the loop, the lists, records and counters are the old ones extended by the run's, and the pauses are the schedule |
| `BatchExport.Exporter.Report` | feishu_batch_export.py:292-302 | The report's total is successes plus failures, equal to the two lists' lengths |
| `BatchExport.Exporter.PrintExportSummary` | feishu_batch_export.py:263-290 | No summary iff there are failures and failed_links.txt cannot be written, which raises before the report. Otherwise: the two counts, the monitor's error summary (`SummaryOf` its records: the last ten numbered, URLs cut to 60, the hidden count), the file written iff there are failures, and the report |
| `BatchExport.Exporter.RunLinks` | feishu_batch_export.py:232-256 | Every link is exported in turn. The counters sum to twice the number of links, and the run time is split. A finished run shows `SummaryOf` the monitor's records and writes failed_links.txt as the failed links, one per line, iff there are failures. A failed summary is followed by a second `finish_export` that saves the same log |
| `BatchExport.Exporter.ExportAllDocuments` | feishu_batch_export.py:214-261 | No links: nothing happens. The driver fails to start: the monitor is started but nothing is exported. Otherwise the full run happens (`RunEffect`), ending with the summary, its error lines and failed_links.txt, or with the second `finish_export` |
| `SimpleTest.TestLinkAccess` | simple_test.py:29-63 | Type 'wiki' iff "/wiki/" occurs. The domain is the third '/'-piece. Feasible and given an export method iff "/wiki/" or "/docx/" occurs. Two notes: domain, then format |
| `SimpleTest.Domain` | simple_test.py:39 | The definition: the third '/'-piece, or "unknown" when there are fewer than three. `DomainOfUrl`, `DomainIsNetloc` and `DomainUnknown` state what it gives |
| `SimpleTest.IsFeasible` | simple_test.py:41-55 | The definition: "/wiki/" or "/docx/" occurs. `TestLinkAccess` and `FeasibleSorted` state how the tester uses it |
| `SimpleTest.DomainOfUrl` | simple_test.py:39 | For "scheme://host/..." the domain shown is the host |
| `SimpleTest.DomainIsNetloc` | simple_test.py:39 | There, with an ASCII host, the domain shown equals the netloc `urlparse` finds |
| `SimpleTest.SplitCount` | simple_test.py:39 | `split('/')` gives one more piece than there are '/' |
| `SimpleTest.DomainUnknown` | simple_test.py:39 | With fewer than two '/' the domain is "unknown". With two or more it is the third piece, which can itself read "unknown" |
| `SimpleTest.ResultsAt` | simple_test.py:77-81 | There is one result per link, the k-th classifying the k-th link |
| `SimpleTest.FeasiblePartition` | simple_test.py:83-88 | The feasible and infeasible lists together are the links, as a multiset |
| `SimpleTest.FeasibleSizes` | simple_test.py:83-88 | The feasible and infeasible lists together are as long as the links |
| `SimpleTest.FeasibleSorted` | simple_test.py:83-88 | The first list holds only feasible links and the second only infeasible ones |
| `SimpleTest.TestStep` | simple_test.py:77-88 | One more link adds its result and joins exactly one list |
| `SimpleTest.Tester.constructor` | simple_test.py:14-17 | A tester starts with three empty lists |
| `SimpleTest.Tester.ClassifyLink` | simple_test.py:80-88 | One link: its result is appended and the link joins the feasible list exactly when its result is feasible, otherwise the infeasible one |
| `SimpleTest.Tester.ClassifyAll` | simple_test.py:77-93 | The loop appends every result and sorts every link into its list |
| `SimpleTest.Tester.RunTest` | simple_test.py:65-95 | No links: nothing changes and there is no report. Otherwise every link is classified and the report is generated: its totals, all the results, and "links look usable" iff some link is feasible |
| `SimpleTest.Tester.GenerateReport` | simple_test.py:97-133 | Totals from the three lists; the links look usable iff some link is feasible |
| `MergePdfs.PdfFiles` | merge_pdfs.py:32 | The kept entries are PDF names |
| `MergePdfs.PdfFilesConcat` | merge_pdfs.py:32 | The filter keeps the listing's order: the PDF names of the first part, then those of the second |
| `MergePdfs.PdfFilesOne` | merge_pdfs.py:32 | One entry is kept iff it is a PDF name |
| `MergePdfs.PdfFilesExactly` | merge_pdfs.py:32 | A name is kept iff it is in the listing and ends with ".pdf" in any letter case |
| `MergePdfs.PdfFilesNoDup` | merge_pdfs.py:32 | A listing without repeated names, as `os.listdir` gives, yields PDF names without repeats |
| `MergePdfs.Stem` | merge_pdfs.py:39 | `splitext` drops the final ".pdf", and keeps the whole name iff only dots precede it |
| `MergePdfs.IsLeadName` | merge_pdfs.py:39-40 | The definition: the stem is "选调面试" or starts with it. `LeadNameByPrefix` states what it gives |
| `MergePdfs.LeadNameByPrefix` | merge_pdfs.py:39-40 | A lead file is one whose name, less its last four characters, starts with "选调面试" |
| `MergePdfs.OutputNameIsLead` | merge_pdfs.py:24 | The output name is a PDF name and a lead name |
| `MergePdfs.FirstLead` | merge_pdfs.py:37-42 | The lead file found is a listed lead name; none is found only when no name qualifies |
| `MergePdfs.FirstLeadIsFirst` | merge_pdfs.py:37-42 | No earlier name qualifies |
| `MergePdfs.FindFirstPdf` | merge_pdfs.py:37-42 | The loop with `break` finds the first lead name, and one is found iff some name qualifies |
| `MergePdfs.Without` | merge_pdfs.py:44 | The names kept are listed names other than the lead file |
| `MergePdfs.WithoutNone` | merge_pdfs.py:44 | With no lead file, every name is kept |
| `MergePdfs.WithoutCount` | merge_pdfs.py:44 | Every other name is kept as often as it was listed |
| `MergePdfs.Sort` | merge_pdfs.py:44 | `sorted` gives an ascending permutation |
| `MergePdfs.SortedUnique` | merge_pdfs.py:44 | Only one ascending permutation exists, so the order does not depend on the sorting algorithm |
| `MergePdfs.Ordered` | merge_pdfs.py:44-45 | The definition: the lead file if any, then the sorted rest. `OrderedShape` and `OrderedPermutation` state what it gives |
| `MergePdfs.OrderedShape` | merge_pdfs.py:44-45 | The lead file, if any, is first and nowhere else, and the rest is ascending |
| `MergePdfs.OrderedPermutation` | merge_pdfs.py:44-45 | With distinct names, every PDF is merged exactly once |
| `MergePdfs.MergeOrderShape` | merge_pdfs.py:37-45 | For the lead file actually found, the order starts with it and merges every PDF once |
| `MergePdfs.MergeOrder` | merge_pdfs.py:27-45 | A missing folder and a folder without PDFs each stop the merge. Otherwise the order is the lead file then the sorted rest, and for a listing without repeated names it merges every PDF exactly once |
| `LinkValidation.IsValidUrl` | test_link_validation.py:10-28 | The definition: the script's own copy of the URL test. `SameAsCollector` states that it agrees with the collector's |
| `LinkValidation.SameAsCollector` | test_link_validation.py:10-28 | The script's validator accepts exactly the URLs the collector's accepts |
| `LinkValidation.DomainsAgree` | test_link_validation.py:14-21 | The domain test agrees with the collector's |
| `LinkValidation.MarkersAgree` | test_link_validation.py:21-26 | The marker test agrees with the collector's |
| `LinkValidation.DocsDomainRedundant` | test_link_validation.py:14-21 | A netloc holding "docs.feishu.cn" holds "feishu.cn" |
| `LinkValidation.ValidWithoutDocsDomain` | test_link_validation.py:14-21 | Removing "docs.feishu.cn" from the list does not change which URLs are valid |
| `LinkValidation.SampleUrlIsValid` | test_link_validation.py:32-44 | The sample link is valid under both validators, and its netloc is its host |
| `LinkValidation.DocTypeLabel` | test_link_validation.py:48-53 | The label is one of the three type labels |
| `LinkValidation.LabelAgreesWithTester` | test_link_validation.py:48-53 | "Wiki文档" iff the tester types the link 'wiki'; "其他文档" iff the tester finds no export feasible |
| `LinkValidation.ValidButOther` | test_link_validation.py:21-53 | A valid "/docs/" link is labelled "其他文档" |
| `LinkValidation.ReadLinks` | test_link_validation.py:57-65 | The links read are the stripped non-blank lines of a readable file, and nothing otherwise |

## Left out

- Browser automation is left out: Selenium, `WebDriverWait`, page loads and the pyautogui hotkey and key presses, including `setup_chrome_driver` and `handle_download_dialog`. A page's behaviour is an input (`PageOutcome`), and whether the driver starts is a flag.
- `time.sleep` is left out; the pauses are returned as a list of seconds. The delay is a natural number, as the only caller passes 3 (feishu_batch_export.py:320); a negative delay, for which `time.sleep` raises and every page fails, is outside the model. `time.time()` becomes a clock value in whole seconds passed in by the caller.
- Timestamps (`datetime.now()`) are left out of error records, reports and printed lines.
- JSON reading and writing is left out. A prior log is a `PriorLog` value, and the report and log are records.
- `os.system('clear')` and the printed text are left out; each `print` becomes a returned record of what is shown.
- The interactive menu, `input()`, the clipboard and `create_sample_links_file` are left out. Delete-by-number takes the entered number as an input.
- `show_links` is left out; it only prints.
- `pdf_link_extractor.py` is not part of this model.
- `PdfMerger`, `os.listdir` and `os.path.isdir` are left out; the listing is an input and `None` stands for a missing folder.
- The real file system is left out: a read is `Missing`, `Unreadable` or `Readable(text)` with newlines already translated, and a write is a flag.
- KeyboardInterrupt, and exceptions other than a failed write of failed_links.txt, inside `export_all_documents`'s `try` are left out. In the source they end the loop early and still call `finish_export`.
- `urlparse` is modelled only as far as the netloc. IPv6 hosts and ports are not modelled.
- UrlParse.Netloc: does not model `_checknetloc` (the NFKC check on non-ASCII netlocs) or `_check_bracketed_netloc`. For a non-ASCII netloc whose NFKC form gains '/', '?', '#', '@' or ':', the model gives a netloc where `urlsplit` raises. `LinkCollector.IsValidFeishuUrl` and `LinkValidation.IsValidUrl` inherit this. The netloc lemmas state results for ASCII hosts only. For bracket-free ASCII hosts `_checknetloc` and `_check_bracketed_netloc` do nothing, so `UrlParse.HostUrlNetloc`, `LinkCollector.ValidHostUrl` and `SimpleTest.DomainIsNetloc` agree with the source.
- UrlParse.SchemeHostNetloc: for an ASCII host holding both '[' and ']', it gives the model's `Some(host)`, where `urlsplit`'s `_check_bracketed_netloc` raises unless, after any userinfo ending in '@', the text before '[' is empty, the text after ']' is empty or starts a port with ':', and the part inside is an IPv6 or IPvFuture address. So "https://[feishu.cn]/wiki/x" and "https://a[b]feishu.cn/docx/y" are valid to the model and invalid to the source.
- ProgressMonitor.FilledLength: uses the exact floor of 40·done/total, not the float computation through a percentage, which can round differently.
- ProgressMonitor.EstimateEta: uses exact arithmetic on whole seconds where the source uses float time.
- The progress percentage and the success rates are left out; they are floats.
- ProgressMonitor.Monitor.UpdateProgress: reads the clock once per call. The exporter passes the same reading to both of a document's updates.
- ProgressMonitor.Monitor.FinishExport: treats any start time as set, where Python's `if self.start_time` would also skip an epoch-0 start time.
- ProgressMonitor.EstimateEta: treats any start time as set, where Python's `if self.start_time` at progress_monitor.py:80 would show "计算中..." for an epoch-0 start time.
- ProgressMonitor.Monitor.UpdateProgress: shows the estimate of `EstimateEta`, so an epoch-0 start time gives minutes and seconds where the source shows "计算中...".
- Text.Lower: lowers ASCII letters only. It is used only to compare a four-character suffix with ".pdf", where full Unicode `lower()` gives the same answer.
- ProgressMonitor.Monitor.UpdateProgress: requires a non-zero total, because the source divides by it. The exporter always starts the monitor with the number of links, which is positive there.
- SimpleTest.Tester.GenerateReport: requires at least one result, because the source divides by their number. `run_test` calls it only after classifying at least one link.
