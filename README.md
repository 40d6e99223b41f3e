# vtr runner and report model

A Dafny model of the core of `bin/vtr.py`, the command-line wrapper that runs
avocado-vt test cases one after another, collects each run's log and
`results.xml`, merges them into a single xUnit report `vtr_result_<stamp>`, and
can rerun the cases of an earlier report.

The model is split into modules that follow the script's own parts:

- `Runner` (`runner.dfy`) covers `CmdResult` and `cmd_run`. `CmdResult` is a
  class whose fields change step by step. `CmdRun` is the polling loop, proved
  against `Expected`, which describes what the first stopping pass leaves in
  the result. Process control is given as a trace of `Poll` values: what
  `process.poll()`, the clock and `select` report on each pass.
- `Escaping` (`escaping.dfy`) covers `escape`, the four chained `replace`
  calls. It is proved free of markup, lossless (`Unescape` inverts it) and the
  identity on text with none of `&`, `<`, `>` and `"`.
- `Text` (`text.dfy`) holds the string operations that Python supplies:
  `splitlines`, `split()`, `split(sep)`, `join`, `startswith`, substring search
  and "last line matching". Each comes with the properties the rest of the
  model needs.
- `Splitting` (`splitting.dfy`) covers the record splitter behind
  `_split_log`, generic in the marker test. `Records` is defined by marker
  positions. Every step of the loop is proved to keep the relation between
  the loop's `logs`/`cur_line` and that definition.
- `Classify` (`classify.dfy`) covers `run_test` and `parse_result`:
  - the marker regular expression;
  - `_split_log` as the method `SplitLog`;
  - the stdout scan for status and log path (`ScanStdout`);
  - the result-line summary (`Summarize`);
  - `os.path.split` on the log path;
  - `run_test` itself (`RunTest`).
- `Xunit` (`report.dfy`) covers `generate_etree_root` and
  `append_etree_element`, with the root element as the class `Suite`, and
  `_run` (`RunAll`). `MergeAll` folds the merge over the cases. The counters
  are shown to stay consistent with the cases, provided each test's own
  `results.xml` report has consistent counters.
- `Rerun` (`rerun.dfy`) covers `rerun`:
  - the time stamp cut out of a file name;
  - choosing the newest `vtr_result` report, which is the first maximum of a
    stable descending sort;
  - selecting the cases to run again.

One behaviour of the code is modelled as written. For a test that left no
`results.xml`, `append_etree_element` builds the error case with
`ET.Element('testcase', attr_dict=attr_dict)`. That gives the element an
attribute literally named `attr_dict` and no `name` attribute. A later `rerun`
of that report then fails on `case.attrib['name']`.
`Rerun.RerunAfterMissingResults` states this consequence.

## Model

| member | source | states |
|---|---|---|
| Runner.CmdResult.constructor | bin/vtr.py:38-45 | a new result has empty output, no exit code, status undefined and duration 0, and satisfies the status/code invariant |
| Runner.CmdResult.Step | bin/vtr.py:94-114 | one pass appends what was read to stdout and stderr, records the elapsed time, and sets code and status (0 is success, anything else failure) once the process has exited; it reports done exactly when the process exited or the elapsed time exceeds the timeout |
| Runner.CmdResult.Finish | bin/vtr.py:145-156 | with no exit code the status becomes timeout; with `ignore_fail` unset, any final status other than success yields the matching `CmdError` (failed or timed out, never "unknown"); output, code and duration are untouched |
| Runner.FirstStop | bin/vtr.py:142-144 | the loop returns at the first pass that reports done: no earlier pass does |
| Runner.CmdRun | bin/vtr.py:65-156 | the result holds exactly the output read up to and including the stopping pass, that pass's code and time, and the derived status; the raised error depends only on the final status and `ignore_fail` |
| Runner.Expected | bin/vtr.py:94-156 | the closed form of `cmd_run` on a poll trace: output read up to the first stopping pass, that pass's code and time, status from the code or timeout; `CmdRun` is proved equal to it and `ExitWithinTimeout`, `TimeoutWithoutExitCode` and `CapturedIsPrefix` state its properties |
| Runner.ExitWithinTimeout | bin/vtr.py:104-113 | a process that exits before the time is up leaves an exit code, a duration within the timeout, and status success exactly when the code is 0 |
| Runner.TimeoutWithoutExitCode | bin/vtr.py:112-113 | the final status is timeout exactly when there is no exit code; then the duration exceeded the limit and the process had not exited on any pass up to that point |
| Runner.CapturedIsPrefix | bin/vtr.py:99-103 | the captured stdout and stderr are prefixes of everything the streams delivered |
| Escaping.Escape | bin/vtr.py:167-176 | `&`, `<`, `>` and `"` replaced in that order; `EscapeAppend`, `EscapeHasNoMarkup`, `EscapeKeepsPlainText` and `UnescapeEscape` state its properties |
| Escaping.EscapeAppend | bin/vtr.py:167-176 | escaping distributes over concatenation, so the result line may be built piece by piece |
| Escaping.EscapeHasNoMarkup | bin/vtr.py:171-175 | the escaped text contains no `<`, `>` or `"` |
| Escaping.EscapeKeepsPlainText | bin/vtr.py:171-175 | text without `&`, `<`, `>` and `"` comes back unchanged |
| Escaping.UnescapeEscape | bin/vtr.py:171-175 | decoding the four entities restores the original text, because `&` is replaced first |
| Text.SplitLinesKeepsText | bin/vtr.py:238 | the lines of `splitlines` joined together are the text with its line breaks removed |
| Text.JoinSplitOn | bin/vtr.py:436 | joining the fields of `split('_')` with the separator gives back the name, so the fields are a faithful cut of it |
| Splitting.Records | bin/vtr.py:236-246 | the log cut at its start, at every marker line and at its end, an empty last piece dropped; `RecordsKeepText`, `RecordsOpenWithMarker`, `SingleMarkerLine` and `NoMarkerOneRecord` state its properties and `Classify.SplitLog` is proved equal to it |
| Splitting.RecordsKeepText | bin/vtr.py:236-247 | the records joined together are the lines joined together: splitting loses and duplicates nothing |
| Splitting.RecordsOpenWithMarker | bin/vtr.py:240-242 | every record after the first begins with a marker line |
| Splitting.SingleMarkerLine | bin/vtr.py:240-246 | a lone marker line gives an empty first record and then itself |
| Splitting.FirstLineMarkerGivesEmptyRecord | bin/vtr.py:239-242 | any log whose first line is a marker line has at least two records, the first of them empty |
| Splitting.NoMarkerOneRecord | bin/vtr.py:243-246 | without a marker line, non-empty text is one record and empty text none |
| Classify.IsMarker | bin/vtr.py:239-240 | the `.*`-anchored marker pattern on one line, as a test that the line contains one of the four level tags followed by a bar; `MarkerPrefix` and `LaterRecordsAreMarked` state what it gives |
| Classify.SplitLog | bin/vtr.py:232-247 | the loop's records are exactly `Records` of the log text's lines under the marker regular expression |
| Classify.SplitLogKeepsText | bin/vtr.py:232-247 | the records together hold the whole log text without its line breaks |
| Classify.SplitLogEmpty | bin/vtr.py:236-247 | an empty log gives no records |
| Classify.LaterRecordsAreMarked | bin/vtr.py:239-242 | every record after the first is non-empty and matches the marker regular expression |
| Classify.MarkerFirstLineEmptyRecord | bin/vtr.py:236-242 | a log whose first `splitlines` piece matches the marker pattern splits into at least two records, the first of them empty, whatever follows |
| Classify.LoneMarkerLine | bin/vtr.py:238-246 | a log made of a single marker line splits into an empty record and that line |
| Classify.IsProgressLine | bin/vtr.py:253 | the progress pattern: the line opens with `(1/1)`, with at most one blank before it; used by `StatusIsLastProgressLine` |
| Classify.IsLogLine | bin/vtr.py:258 | the log-line pattern: the line opens with `JOB LOG` or `DEBUG LOG`; used by `LogPathIsLastLogLine` |
| Classify.StatusOf | bin/vtr.py:250-257 | the status the scan ends with; `StatusIsLastProgressLine` states it and `ScanStdout` is proved to compute it |
| Classify.LogPathOf | bin/vtr.py:258-262 | the log path the scan ends with; `LogPathIsLastLogLine` and `FoundPathNonEmpty` state it and `ScanStdout` is proved to compute it |
| Classify.StatusIsLastProgressLine | bin/vtr.py:251-257 | the status is "INVALID" when no `(1/1)` line has a third word, and otherwise is the third word of the last such line |
| Classify.LogPathIsLastLogLine | bin/vtr.py:252-262 | a log path is found exactly when some line starts with `JOB LOG` or `DEBUG LOG`, and then it is the last word of the last such line |
| Classify.FoundPathNonEmpty | bin/vtr.py:259-261 | a found log path is never empty, so the `not log_file` test fails only when no line matched |
| Classify.ScanStdout | bin/vtr.py:249-263 | the loop computes the status and log path that the two characterizations above describe |
| Classify.MatchAt | bin/vtr.py:282-283 | a match's third group is a proper suffix of the record that does not start with white space; when it matches is stated by `MatchAtIff` |
| Classify.MatchAtIff | bin/vtr.py:282-283 | the pattern matches at the start of a record and captures `m` exactly when the record is one of the two level prefixes (`ERROR` or `INFO `, then a bar and a blank), one of the seven status words, a blank, a token without white space, a non-empty run of white space and `m`, with `m` empty or not opening with white space |
| Classify.FindMessage | bin/vtr.py:286-288 | `findall(...)[0][2]`: the captured message is shorter than the record; which match it is is stated by `FindMessageLeftmost` |
| Classify.FindMessageLeftmost | bin/vtr.py:286-288 | the message is the one captured at the leftmost position where the pattern matches, and there is none exactly when it matches at no position |
| Classify.StripArrow | bin/vtr.py:289-290 | drops one leading `-> `; `SummaryStep` and `Summarize` state the summary it feeds |
| Classify.Messages | bin/vtr.py:285-291 | the stripped message plus newline of each record with a match, in record order; `SummaryStep` gives its one-record step and `Summarize` proves the loop builds its escape |
| Classify.Summarize | bin/vtr.py:284-291 | the result line is the escaped concatenation of each matching record's message (`-> ` stripped, newline added); it has no markup and decodes back to that concatenation |
| Classify.DirName | bin/vtr.py:293 | the head of `os.path.split` is a prefix of the path, empty when there is no `/`, with trailing slashes removed unless it is all slashes; what follows it is a run of `/` and then a `/`-free tail, and that run is empty exactly when the head is empty or all slashes |
| Classify.RunTest | bin/vtr.py:224-304 | the test runs with the 1800-second timeout; without a log path the call fails; otherwise the result carries the test name, log path, duration, the status (TIMEOUT when the command timed out), the split log, its escaped summary and `results.xml` beside the log |
| Xunit.FileName | bin/vtr.py:319 | the report file is `vtr_result`, the separator `_`, and the time stamp |
| Xunit.Suite.constructor | bin/vtr.py:307-318 | a new root has all counters 0, no cases, and is named `avocado_vt_cases_` plus the stamp |
| Xunit.Suite.Append | bin/vtr.py:322-346 | the root after appending is `Merge` of the root before, in both the missing and the present `results.xml` branch |
| Xunit.GenerateRoot | bin/vtr.py:307-319 | returns a fresh empty root and the report file name for the stamp |
| Xunit.Merge | bin/vtr.py:322-346 | `append_etree_element` on values; `MergeMissing`, `MergePresent` and `MergeKeepsConsistent` state its two branches and the invariant it keeps, and `Suite.Append` is proved equal to it |
| Xunit.MergeMissing | bin/vtr.py:323-333 | without `results.xml`: errors and tests rise by one, the earlier cases are kept, and one case is appended with an `error` child, the logs as text and no `name` |
| Xunit.MergePresent | bin/vtr.py:334-344 | with `results.xml`: each counter rises by the nested report's, and its cases are appended in order, renamed to the test, with their children kept and the logs as text exactly when the status is not PASS |
| Xunit.CountAppend | bin/vtr.py:332-340 | counting the cases with a given child adds up over appended cases |
| Xunit.MergeKeepsConsistent | bin/vtr.py:322-346 | a merge keeps errors, failures, skipped and tests equal to the counts of error, failure and skipped children and of cases, provided the nested report is consistent |
| Xunit.MergeAllKeepsConsistent | bin/vtr.py:392-397 | the fold over all cases keeps the counters consistent, provided each test's own `results.xml` report has consistent counters |
| Xunit.MergeAllKeepsPrefix | bin/vtr.py:392-397 | the fold only appends: the cases already in the root stay first and unchanged |
| Xunit.MergeAllPrefixOf | bin/vtr.py:392-397 | the cases the fold holds after the first tests stay, unchanged and first, in the fold over all tests |
| Xunit.CountPass | bin/vtr.py:390-398 | the pass count never exceeds the number of cases run |
| Xunit.RunAll | bin/vtr.py:387-410 | the run succeeds exactly when every `run_test` returns; then the written report is the fold of the merges over the results in order, the file is `vtr_result_<stamp>`, and the pass count is the number of PASS results |
| Xunit.RunReportConsistent | bin/vtr.py:387-409 | the report `_run` writes has counters consistent with its cases, provided each test's own `results.xml` report has consistent counters |
| Rerun.BeforeOrder | bin/vtr.py:437-439 | comparing parsed stamps is a strict total order |
| Rerun.StampText | bin/vtr.py:436 | the cut exists exactly when the name has at least three `_` fields; `StampTextOfSuffix` and `StampTextOfFileName` say what it gives |
| Rerun.StampTextOfSuffix | bin/vtr.py:436 | the stamp text is the third- and second-last `_` fields of the name |
| Rerun.StampTextOfFileName | bin/vtr.py:436-437 | for a report named by `generate_etree_root`, the name starts with `vtr_result` and the cut gives back its date and time |
| Rerun.Candidates | bin/vtr.py:434-438 | building the list fails only on a name with too few fields or a stamp that does not parse, and it has no more entries than the listing has names |
| Rerun.CandidatesAreReports | bin/vtr.py:434-438 | the candidates are exactly the listed `vtr_result` files, each with its parsed stamp |
| Rerun.FirstMax | bin/vtr.py:439-440 | the chosen entry has no later-stamped entry, and every entry before it is strictly older, as the first element of a stable descending sort |
| Rerun.LatestReport | bin/vtr.py:432-440 | the loop's choice equals `Latest` of the listing |
| Rerun.Latest | bin/vtr.py:432-440 | the report `rerun` picks without `--xunit`; `LatestIsNewest` and `NoReportsNoChoice` state its properties and `LatestReport` is proved to compute it |
| Rerun.LatestIsNewest | bin/vtr.py:432-440 | the chosen file is a listed `vtr_result` file whose stamp no other such file's exceeds; failures are only "no report", a bad name or a bad stamp |
| Rerun.NoReportsNoChoice | bin/vtr.py:432-440 | with no `vtr_result` file in the listing, no report can be chosen |
| Rerun.Written | bin/vtr.py:408-409 | a case read back from the written report has the same attribute names and children |
| Rerun.Names | bin/vtr.py:443-445 | selection fails only on a missing `name` and returns no more names than there are cases |
| Rerun.Picked | bin/vtr.py:444 | a case is picked when `--ignore-pass` is not given or it has an `error`, `skipped` or `failure` child; used by `SelectAll` and `SelectNotPassed` |
| Rerun.Selection | bin/vtr.py:442-448 | `legal_cases` or the reason to stop; `Names`, `SelectAll`, `SelectNotPassed` and `MissingNameStops` state its properties and `SelectCases` is proved to compute it |
| Rerun.SelectCases | bin/vtr.py:442-448 | the loop's selection equals `Selection`: the names of the picked cases, a failure on a missing name, and "nothing to rerun" when none is picked |
| Rerun.SelectAll | bin/vtr.py:444-445 | without `--ignore-pass`, every case's name is selected, in order |
| Rerun.SelectNotPassed | bin/vtr.py:444-445 | with `--ignore-pass`, the names are exactly those of the cases with an error, skipped or failure child |
| Rerun.MissingNameStops | bin/vtr.py:445 | a picked case without a `name` makes the selection fail |
| Rerun.RerunAfterMissingResults | bin/vtr.py:443-445 | when any test of a run left no `results.xml`, the report `_run` writes (the fold from an empty root, whatever tests follow) cannot be rerun: selection fails on the missing name with or without `--ignore-pass` |
| Rerun.SelectForRerun | bin/vtr.py:427-448 | `--xunit` wins when given; otherwise the newest report is chosen; an unreadable file fails; then the cases are selected as above |

## Left out

- Process control (`Popen`, `fcntl`, `select`, `os.killpg`, `time.time`) is
  not modelled. The runner reads a trace of polls. Elapsed time is a whole
  number, and killing the process group is not represented.
- Runner.CmdRun: requires a trace that reaches a stopping pass. The source
  loops for ever otherwise, but a real clock always passes the timeout.
- `_collect_output` is left out, including its `IOError` handling. Line 90
  reads `errno.EAGAIN`, but `errno` is never imported, so the handler would
  itself raise `NameError`; this is not modelled. Debug logging and `print`
  are not modelled either.
- `CmdResult.__str__`, `stdout_lines` and the messages' formatted text are
  left out. Errors are the three kinds of `CmdError`.
- `decode_to_text`, `std_output` and the coloured progress output are not
  modelled. The same goes for `prepare_guest`, `_list`/`list` (the case
  listing through avocado) and the argument parsing and sub-command dispatch.
- Reading files is modelled by a map from path to text. `os.path.isfile` and
  `ET.parse` are modelled by the nested report being present or absent. A
  file that exists but cannot be parsed is not represented.
- `str(test_result['logs'])` and `str(attr_dict)` are left as function
  parameters (`repr`, `dictText`), because Python's `repr` of a list is not
  modelled.
- The `time` attribute is left out: a float summed and printed with `%.3f`,
  with no floating point in the model. Counters are integers, so `int()`
  failing on a malformed attribute is not modelled.
- `time.strftime`/`time.strptime` are parameters. The stamp is taken as
  given, and a parsed stamp is six integers ordered lexicographically.
- The regular expressions are written out by hand for the patterns used.
- Classify.MatchAt: it assumes a record without line breaks, since records
  are built from `splitlines` pieces.
- Xunit.MergeAllKeepsConsistent, Xunit.RunReportConsistent: consistency of
  the written report is proved only when every nested `results.xml` report
  has consistent counters; the script adds those counters up without
  checking them, and the nested files come from outside it.
- Xunit.RunAll: `run_test` outcomes and nested reports are inputs rather than
  calls. A `run_test` that raises (no log path) ends the run before the
  report is written.
- Records of `_split_log` follow the code, not the one-record reading of its
  purpose: a log that starts with a marker line gives an empty first record
  (see Splitting.FirstLineMarkerGivesEmptyRecord, Classify.MarkerFirstLineEmptyRecord
  and, for a one-line log, Splitting.SingleMarkerLine).
