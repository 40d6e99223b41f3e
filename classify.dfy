/**
 * `run_test` and its helper `parse_result`: splitting a job log into records,
 * scanning the runner's stdout for the status and the log path, the TIMEOUT
 * override, the summary of result lines, and the path of the per-test report.
 */
module Classify {
  import opened Wrappers
  import opened Text
  import opened Escaping
  import Runner
  import opened Splitting

  // ---------------------------------------------------------------------
  // _split_log

  /** The marker pattern `.*(ERROR|INFO |WARNI|DEBUG)\|.*`: anchored only by a
      leading `.*`, so on a single line it is a substring test. */
  predicate IsMarker(line: string)
  {
    Contains(line, "ERROR|") || Contains(line, "INFO |") || Contains(line, "WARNI|") || Contains(line, "DEBUG|")
  }

  /** Marker lines are never empty, so a record opened by one is not empty either. */
  lemma MarkersNonEmpty()
    ensures forall line :: IsMarker(line) ==> line != ""
  {
  }

  /** `_split_log`: each marker line closes the record being built and opens the next. */
  method SplitLog(logText: string) returns (logs: seq<string>)
    ensures logs == Records(SplitLines(logText), IsMarker)
  {
    var lines := SplitLines(logText);
    logs := [];
    var cur := "";
    SplitStart(lines, IsMarker);
    for i := 0 to |lines|
      invariant SplitState(lines, IsMarker, i, logs, cur)
    {
      logs, cur := SplitLine(lines, i, logs, cur);
    }
    MarkersNonEmpty();
    SplitEnd(lines, IsMarker, logs, cur);
    if cur != "" {
      logs := logs + [cur];
    }
  }

  /** One pass of the loop in `_split_log`. */
  method SplitLine(lines: seq<string>, i: nat, logs: seq<string>, cur: string) returns (logs': seq<string>, cur': string)
    requires i < |lines| && SplitState(lines, IsMarker, i, logs, cur)
    ensures SplitState(lines, IsMarker, i + 1, logs', cur')
  {
    var line := lines[i];
    if IsMarker(line) {
      SplitStepMarker(lines, IsMarker, i, logs, cur);
      logs', cur' := logs + [cur], line;
    } else {
      SplitStepPlain(lines, IsMarker, i, logs, cur);
      logs', cur' := logs, cur + line;
    }
  }

  /** Nothing of the log is lost: the records joined are its text without the line breaks. */
  lemma SplitLogKeepsText(logText: string)
    ensures Concat(Records(SplitLines(logText), IsMarker)) == RemoveBreaks(logText)
  {
    RecordsKeepText(SplitLines(logText), IsMarker);
    SplitLinesKeepsText(logText);
  }

  /** An empty log has no records. */
  lemma SplitLogEmpty()
    ensures Records(SplitLines(""), IsMarker) == []
  {
    assert SplitLines("") == [];
  }

  /** A string opening with a marker line matches the marker pattern itself. */
  lemma MarkerPrefix(rec: string, line: string)
    requires IsMarker(line) && StartsWith(rec, line)
    ensures IsMarker(rec)
  {
    var rest := rec[|line|..];
    assert rec == line + rest;
    if Contains(line, "ERROR|") {
      ContainsExtend(line, rest, "ERROR|");
    } else if Contains(line, "INFO |") {
      ContainsExtend(line, rest, "INFO |");
    } else if Contains(line, "WARNI|") {
      ContainsExtend(line, rest, "WARNI|");
    } else {
      ContainsExtend(line, rest, "DEBUG|");
    }
  }

  /** Every record but the first opens with a marker line, so it matches the
      marker pattern and is not empty. */
  lemma LaterRecordsAreMarked(logText: string, j: nat)
    requires 1 <= j < |Records(SplitLines(logText), IsMarker)|
    ensures IsMarker(Records(SplitLines(logText), IsMarker)[j])
    ensures Records(SplitLines(logText), IsMarker)[j] != ""
  {
    var lines := SplitLines(logText);
    MarkersNonEmpty();
    RecordsOpenWithMarker(lines, IsMarker, j);
    var i :| 0 <= i < |lines| && IsMarker(lines[i]) && StartsWith(Records(lines, IsMarker)[j], lines[i]);
    MarkerPrefix(Records(lines, IsMarker)[j], lines[i]);
  }

  /** The empty accumulator is still closed by a first marker line: a log that
      is one marker line splits into `["", line]`. */
  lemma LoneMarkerLine(line: string)
    requires IsMarker(line) && OneLine(line)
    ensures Records(SplitLines(line), IsMarker) == ["", line]
  {
    MarkersNonEmpty();
    SplitLinesOneLine(line);
    SingleMarkerLine(line, IsMarker);
  }

  /** Whatever follows, a log whose first line is a marker line opens with an empty record. */
  lemma MarkerFirstLineEmptyRecord(logText: string)
    requires SplitLines(logText) != [] && IsMarker(SplitLines(logText)[0])
    ensures var logs := Records(SplitLines(logText), IsMarker); |logs| >= 2 && logs[0] == ""
  {
    FirstLineMarkerGivesEmptyRecord(SplitLines(logText), IsMarker);
  }

  // ---------------------------------------------------------------------
  // The scan of stdout in parse_result

  /** `re.match(r' ?\(1/1\)', line)`. */
  predicate IsProgressLine(line: string)
  {
    StartsWith(line, "(1/1)") || StartsWith(line, " (1/1)")
  }

  /** A progress line from which `line.split()[2]` can be read. */
  predicate GivesStatus(line: string)
  {
    IsProgressLine(line) && |Words(line)| >= 3
  }

  /** `re.match(r'(JOB|DEBUG) LOG', line)`. */
  predicate IsLogLine(line: string)
  {
    StartsWith(line, "JOB LOG") || StartsWith(line, "DEBUG LOG")
  }

  /** A log line opens with a letter, so it has a last word to take. */
  lemma LogLineHasWords(line: string)
    requires IsLogLine(line)
    ensures Words(line) != []
  {
    assert line[0] == line[..7][0];
    WordsOfNonSpaceStart(line);
  }

  /** The status: third word of the last progress line that has one, else `INVALID`. */
  function StatusOf(lines: seq<string>): string
  {
    match LastMatch(lines, GivesStatus)
    case Some(k) => Words(lines[k])[2]
    case None => "INVALID"
  }

  /** `line.split()[-1]` on a log line: never empty. */
  function PathIn(line: string): (p: string)
    requires IsLogLine(line)
    ensures p != ""
  {
    LogLineHasWords(line);
    Words(line)[|Words(line)| - 1]
  }

  /** The log path: last word of the last log line, if there is one. */
  function LogPathOf(lines: seq<string>): Option<string>
  {
    match LastMatch(lines, IsLogLine)
    case Some(k) => Some(PathIn(lines[k]))
    case None => None
  }

  /** The text `parse_result` keeps in `log_file`: the path, or `''` when none was seen. */
  function FoundPath(lines: seq<string>): string
  {
    match LogPathOf(lines)
    case Some(p) => p
    case None => ""
  }

  /** The status is `INVALID` when no progress line has three words, and
      otherwise the third word of the last one that has. */
  lemma StatusIsLastProgressLine(lines: seq<string>)
    ensures (forall j :: 0 <= j < |lines| ==> !GivesStatus(lines[j])) ==> StatusOf(lines) == "INVALID"
    ensures (exists j :: 0 <= j < |lines| && GivesStatus(lines[j])) ==>
              exists k :: 0 <= k < |lines| && GivesStatus(lines[k]) && StatusOf(lines) == Words(lines[k])[2]
                          && forall j :: k < j < |lines| ==> !GivesStatus(lines[j])
  {
    var m := LastMatch(lines, GivesStatus);
    if m.Some? {
      assert GivesStatus(lines[m.value]);
    }
  }

  /** There is a log path exactly when some line is a log line, and it is the
      last word of the last such line. */
  lemma LogPathIsLastLogLine(lines: seq<string>)
    ensures LogPathOf(lines).None? <==> forall j :: 0 <= j < |lines| ==> !IsLogLine(lines[j])
    ensures LogPathOf(lines).Some? ==>
              exists k :: 0 <= k < |lines| && IsLogLine(lines[k]) && Words(lines[k]) != []
                          && LogPathOf(lines).value == Words(lines[k])[|Words(lines[k])| - 1]
                          && forall j :: k < j < |lines| ==> !IsLogLine(lines[j])
  {
    var m := LastMatch(lines, IsLogLine);
    if m.Some? {
      LogLineHasWords(lines[m.value]);
    }
  }

  /** One line of the scan: a progress line with three words sets the status. */
  lemma StatusStep(lines: seq<string>, i: nat, status: string)
    requires i < |lines| && status == StatusOf(lines[..i])
    ensures StatusOf(lines[..i + 1])
            == if GivesStatus(lines[i]) then Words(lines[i])[2] else status
  {
    LastMatchStep(lines, GivesStatus, i);
  }

  /** One line of the scan: a log line sets the path to its last word. */
  lemma LogPathStep(lines: seq<string>, i: nat, found: string)
    requires i < |lines| && found == FoundPath(lines[..i])
    ensures FoundPath(lines[..i + 1]) == if IsLogLine(lines[i]) then PathIn(lines[i]) else found
  {
    LastMatchStep(lines, IsLogLine, i);
  }

  /** A path read from a log line is never empty, so `''` means "none seen". */
  lemma FoundPathNonEmpty(lines: seq<string>)
    ensures LogPathOf(lines).Some? ==> LogPathOf(lines).value != ""
  {
  }

  /** The loop of `parse_result` over the stdout lines: later matches overwrite earlier ones. */
  method ScanStdout(lines: seq<string>) returns (status: string, logFile: Option<string>)
    ensures status == StatusOf(lines)
    ensures logFile == LogPathOf(lines)
  {
    status := "INVALID";
    var found := "";
    for i := 0 to |lines|
      invariant status == StatusOf(lines[..i])
      invariant found == FoundPath(lines[..i])
    {
      StatusStep(lines, i, status);
      LogPathStep(lines, i, found);
      status := StatusFrom(lines[i], status);
      found := PathFrom(lines[i], found);
    }
    assert lines[..|lines|] == lines;
    FoundPathNonEmpty(lines);
    if found == "" {
      logFile := None;
    } else {
      logFile := Some(found);
    }
  }

  /** The status part of one pass: a progress line with three words sets it. */
  method StatusFrom(line: string, status: string) returns (status': string)
    ensures status' == if GivesStatus(line) then Words(line)[2] else status
  {
    status' := status;
    if IsProgressLine(line) {
      var words := Words(line);
      if |words| >= 3 {
        status' := words[2];
      }
    }
  }

  /** The path part of one pass: a log line sets it to its last word. */
  method PathFrom(line: string, found: string) returns (found': string)
    ensures found' == if IsLogLine(line) then PathIn(line) else found
  {
    found' := found;
    if IsLogLine(line) {
      found' := PathIn(line);
    }
  }

  // ---------------------------------------------------------------------
  // The result-line summary in run_test

  /** The status words of the result-line pattern, in the order of its alternation. */
  const StatusWords: seq<string> := ["FAIL", "ERROR", "PASS", "SKIP", "CANCEL", "WARN", "TEST_NA"]

  /** `w` holds no blank, so `w + " "` cannot end inside another such word. */
  predicate NoBlank(w: string)
  {
    forall k :: 0 <= k < |w| ==> w[k] != ' '
  }

  /** Length of `WORD ` when `t` opens with one of `words` and a blank, tried in order; else 0. */
  function PrefixLength(t: string, words: seq<string>): (n: nat)
    ensures n <= |t|
  {
    if words == [] then 0
    else if StartsWith(t, words[0] + " ") then |words[0]| + 1
    else PrefixLength(t, words[1..])
  }

  /** A non-zero length is one of the words followed by a blank. */
  lemma {:induction false} PrefixLengthSound(t: string, words: seq<string>)
    requires PrefixLength(t, words) > 0
    ensures var n := PrefixLength(t, words); t == t[..n - 1] + " " + t[n..] && t[..n - 1] in words
  {
    var w := words[0];
    if StartsWith(t, w + " ") {
      assert t[..|w| + 1] == w + " ";
      assert t[..|w|] == t[..|w| + 1][..|w|];
      assert t == t[..|w| + 1] + t[|w| + 1..];
    } else {
      PrefixLengthSound(t, words[1..]);
    }
  }

  /** Two blank-free words that each open `t` followed by a blank are the same word. */
  lemma SameWord(t: string, v: string, w: string)
    requires NoBlank(v) && NoBlank(w) && StartsWith(t, v + " ") && StartsWith(t, w + " ")
    ensures v == w
  {
    assert t[..|v| + 1] == v + " " && t[..|w| + 1] == w + " ";
    var k := if |v| < |w| then |v| else |w|;
    assert t[k] == ' ';
    assert v == t[..|v| + 1][..|v|];
    assert w == t[..|w| + 1][..|w|];
  }

  /** A listed blank-free word followed by a blank is recognised with its own length. */
  lemma {:induction false} PrefixLengthOf(st: string, rest: string, words: seq<string>)
    requires st in words && NoBlank(st)
    requires forall i :: 0 <= i < |words| ==> NoBlank(words[i])
    ensures PrefixLength(st + " " + rest, words) == |st| + 1
  {
    var t := st + " " + rest;
    assert t[..|st| + 1] == st + " ";
    if StartsWith(t, words[0] + " ") {
      SameWord(t, words[0], st);
    } else {
      assert st != words[0];
      assert st in words[1..];
      PrefixLengthOf(st, rest, words[1..]);
    }
  }

  lemma StatusWordsNoBlank()
    ensures forall i :: 0 <= i < |StatusWords| ==> NoBlank(StatusWords[i])
  {
  }

  /** The tail `\S+\s+(.*)$` of the result-line pattern tried at the start of `u`:
      a token, white space, and the captured rest once the greedy `\s+` is done. */
  function AfterToken(u: string): (r: Option<string>)
    ensures r.Some? ==> |r.value| < |u| && u[|u| - |r.value|..] == r.value
    ensures r.Some? && r.value != "" ==> !IsSpace(r.value[0])
  {
    var w := RunLength(u, false);
    if w == 0 || w == |u| then None
    else
      var v := u[w..];
      var msg := v[RunLength(v, true)..];
      assert u[|u| - |msg|..] == msg;
      Some(msg)
  }

  /** The part `(FAIL|...|TEST_NA) \S+\s+(.*)$` of the result-line pattern tried at
      the start of `t`, with the status words `words`. */
  function AfterStatus(t: string, words: seq<string>): (r: Option<string>)
    ensures r.Some? ==> |r.value| < |t| && t[|t| - |r.value|..] == r.value
    ensures r.Some? && r.value != "" ==> !IsSpace(r.value[0])
  {
    var n := PrefixLength(t, words);
    if n == 0 then None
    else
      var r := AfterToken(t[n..]);
      assert r.Some? ==> t[|t| - |r.value|..] == t[n..][|t[n..]| - |r.value|..];
      r
  }

  /** The result-line pattern `(ERROR|INFO )\| (FAIL|...|TEST_NA) \S+\s+(.*)$`
      tried at the start of `s`; the captured message on success. */
  function MatchAt(s: string): (r: Option<string>)
    ensures r.Some? ==> |r.value| < |s| && s[|s| - |r.value|..] == r.value
    ensures r.Some? && r.value != "" ==> !IsSpace(r.value[0])
  {
    if !(StartsWith(s, "ERROR| ") || StartsWith(s, "INFO | ")) then None
    else
      var r := AfterStatus(s[7..], StatusWords);
      assert r.Some? ==> s[|s| - |r.value|..] == s[7..][|s[7..]| - |r.value|..];
      r
  }

  /** Every character of `w` is white space. */
  predicate AllSpace(w: string)
  {
    forall k :: 0 <= k < |w| ==> IsSpace(w[k])
  }

  /** `s` is a result line read as level, status word, blank, token, white space and
      the captured message `m`, the greedy `\s+` leaving no white space at its head. */
  predicate ResultLineParts(s: string, level: string, status: string, token: string, gap: string, m: string)
  {
    (level == "ERROR| " || level == "INFO | ") && status in StatusWords && IsWord(token)
    && gap != "" && AllSpace(gap) && (m == "" || !IsSpace(m[0]))
    && s == level + status + " " + token + gap + m
  }

  /** A run of characters all on one side of `IsSpace`, cut by one on the other side. */
  lemma RunLengthOf(a: string, b: string, space: bool)
    requires forall k :: 0 <= k < |a| ==> IsSpace(a[k]) == space
    requires b == "" || IsSpace(b[0]) != space
    ensures RunLength(a + b, space) == |a|
  {
    assert forall k :: 0 <= k < |a| ==> (a + b)[k] == a[k];
    assert b != "" ==> (a + b)[|a|] == b[0];
  }

  /** A token, white space and a message that does not open with white space are
      read back by `AfterToken` as that message. */
  lemma AfterTokenOf(token: string, gap: string, m: string)
    requires IsWord(token) && gap != "" && AllSpace(gap) && (m == "" || !IsSpace(m[0]))
    ensures AfterToken(token + gap + m) == Some(m)
  {
    var u := token + gap + m;
    assert u == token + (gap + m);
    RunLengthOf(token, gap + m, false);
    assert u[|token|..] == gap + m;
    RunLengthOf(gap, m, true);
  }

  /** What `AfterToken` accepts is a token, white space and the captured message. */
  lemma AfterTokenParts(u: string) returns (token: string, gap: string)
    requires AfterToken(u).Some?
    ensures var m := AfterToken(u).value;
      IsWord(token) && gap != "" && AllSpace(gap) && u == token + gap + m
  {
    var m := AfterToken(u).value;
    var w := RunLength(u, false);
    var v := u[w..];
    var r := RunLength(v, true);
    token, gap := u[..w], v[..r];
    assert IsWord(token);
    assert v == gap + m;
    assert u == token + v;
  }

  /** A listed blank-free status word, a blank, a token, white space and a message
      that does not open with white space are read back as that message. */
  lemma AfterStatusOf(status: string, token: string, gap: string, m: string, words: seq<string>)
    requires status in words && forall i :: 0 <= i < |words| ==> NoBlank(words[i])
    requires IsWord(token) && gap != "" && AllSpace(gap) && (m == "" || !IsSpace(m[0]))
    ensures AfterStatus(status + " " + (token + gap + m), words) == Some(m)
  {
    var t := status + " " + (token + gap + m);
    PrefixLengthOf(status, token + gap + m, words);
    assert t[|status| + 1..] == token + gap + m;
    AfterTokenOf(token, gap, m);
  }

  /** What `AfterStatus` accepts is a listed word, a blank, a token, white space and
      the captured message. */
  lemma AfterStatusParts(t: string, words: seq<string>) returns (status: string, token: string, gap: string)
    requires AfterStatus(t, words).Some?
    ensures var m := AfterStatus(t, words).value;
      status in words && IsWord(token) && gap != "" && AllSpace(gap) && t == status + " " + (token + gap + m)
  {
    var n := PrefixLength(t, words);
    PrefixLengthSound(t, words);
    var u := t[n..];
    token, gap := AfterTokenParts(u);
    status := t[..n - 1];
  }

  lemma Reassoc(a: string, b: string, c: string, d: string, e: string, f: string)
    ensures a + (b + c + (d + e + f)) == a + b + c + d + e + f
  {
  }

  /** Every result line is matched at its start, with its own message captured. */
  lemma MatchAtOfParts(level: string, status: string, token: string, gap: string, m: string)
    requires ResultLineParts(level + status + " " + token + gap + m, level, status, token, gap, m)
    ensures MatchAt(level + status + " " + token + gap + m) == Some(m)
  {
    var s := level + status + " " + token + gap + m;
    var t := status + " " + (token + gap + m);
    Reassoc(level, status, " ", token, gap, m);
    assert s[..7] == level && s[7..] == t;
    StatusWordsNoBlank();
    AfterStatusOf(status, token, gap, m, StatusWords);
  }

  /** A match at the start of `s` reads `s` as a result line with the captured message. */
  lemma MatchAtParts(s: string) returns (level: string, status: string, token: string, gap: string)
    requires MatchAt(s).Some?
    ensures ResultLineParts(s, level, status, token, gap, MatchAt(s).value)
  {
    assert StartsWith(s, "ERROR| ") || StartsWith(s, "INFO | ");
    level := s[..7];
    var t := s[7..];
    var m := MatchAt(s).value;
    assert AfterStatus(t, StatusWords) == Some(m);
    status, token, gap := AfterStatusParts(t, StatusWords);
    assert s == level + t;
    Reassoc(level, status, " ", token, gap, m);
  }

  /** The pattern matches at the start of `s`, capturing `m`, exactly when `s` is a
      result line with message `m`. */
  lemma MatchAtIff(s: string, m: string)
    ensures MatchAt(s) == Some(m)
            <==> exists level, status, token, gap :: ResultLineParts(s, level, status, token, gap, m)
  {
    if MatchAt(s) == Some(m) {
      var level, status, token, gap := MatchAtParts(s);
    }
    if exists level, status, token, gap :: ResultLineParts(s, level, status, token, gap, m) {
      var level, status, token, gap :| ResultLineParts(s, level, status, token, gap, m);
      MatchAtOfParts(level, status, token, gap, m);
    }
  }

  /** `re.findall(...)[0][2]`: the message of the leftmost match. */
  function FindMessage(s: string): (r: Option<string>)
    ensures r.Some? ==> |r.value| < |s|
    decreases |s|
  {
    if MatchAt(s).Some? then MatchAt(s)
    else if s == "" then None
    else FindMessage(s[1..])
  }

  /** `FindMessage` gives the match at the leftmost position where the pattern matches,
      and nothing when it matches nowhere. */
  lemma {:induction false} FindMessageLeftmost(s: string)
    ensures FindMessage(s).None? <==> forall i :: 0 <= i <= |s| ==> MatchAt(s[i..]).None?
    ensures FindMessage(s).Some? ==>
      exists i :: 0 <= i <= |s| && FindMessage(s) == MatchAt(s[i..])
                  && forall j :: 0 <= j < i ==> MatchAt(s[j..]).None?
    decreases |s|
  {
    assert s[0..] == s;
    if MatchAt(s).Some? {
    } else if s == "" {
    } else {
      var s' := s[1..];
      FindMessageLeftmost(s');
      assert forall i :: 0 <= i <= |s'| ==> s'[i..] == s[i + 1..];
      if FindMessage(s).Some? {
        var i :| 0 <= i <= |s'| && FindMessage(s') == MatchAt(s'[i..])
                 && forall j :: 0 <= j < i ==> MatchAt(s'[j..]).None?;
        assert FindMessage(s) == MatchAt(s[i + 1..]);
        forall j | 0 <= j < i + 1
          ensures MatchAt(s[j..]).None?
        {
          if j > 0 {
            assert s[j..] == s'[j - 1..];
          }
        }
      } else {
        forall i | 0 <= i <= |s|
          ensures MatchAt(s[i..]).None?
        {
          if i > 0 {
            assert s[i..] == s'[i - 1..];
          }
        }
      }
    }
  }

  /** One leading `-> ` is dropped from a message. */
  function StripArrow(msg: string): string
  {
    if StartsWith(msg, "-> ") then msg[3..] else msg
  }

  /** The messages of the records that hold a result line, each with its newline. */
  function Messages(logs: seq<string>): seq<string>
  {
    if logs == [] then []
    else Messages(logs[..|logs| - 1])
         + match FindMessage(logs[|logs| - 1])
           case Some(msg) => [StripArrow(msg) + "\n"]
           case None => []
  }

  /** One record of the summary loop: a record with a result line appends its escaped message. */
  lemma SummaryStep(logs: seq<string>, i: nat, resultLine: string)
    requires i < |logs| && resultLine == Escape(Concat(Messages(logs[..i])))
    ensures Escape(Concat(Messages(logs[..i + 1])))
            == match FindMessage(logs[i])
               case Some(msg) => resultLine + Escape(StripArrow(msg) + "\n")
               case None => resultLine
  {
    var before := Messages(logs[..i]);
    assert logs[..i + 1][..i] == logs[..i];
    match FindMessage(logs[i])
    case Some(msg) =>
      var piece := StripArrow(msg) + "\n";
      assert Messages(logs[..i + 1]) == before + [piece];
      ConcatAppend(before, [piece]);
      ConcatSingle(piece);
      EscapeAppend(Concat(before), piece);
    case None =>
      assert Messages(logs[..i + 1]) == before;
  }

  /** The body of the summary loop for a record that matched: `escape(match_text + '\n')`
      once a leading `-> ` is dropped. */
  method EscapedMessage(msg: string) returns (piece: string)
    ensures piece == Escape(StripArrow(msg) + "\n")
  {
    var text := msg;
    if StartsWith(text, "-> ") {
      text := text[3..];
    }
    piece := Escape(text + "\n");
  }

  /** The loop building `result_line`: escaped messages appended one by one. */
  method Summarize(logs: seq<string>) returns (resultLine: string)
    ensures resultLine == Escape(Concat(Messages(logs)))
    ensures Unescape(resultLine) == Concat(Messages(logs))
    ensures forall k :: 0 <= k < |resultLine| ==> !IsMarkup(resultLine[k])
  {
    resultLine := "";
    var i := 0;
    assert Escape("") == "";
    while i < |logs|
      invariant 0 <= i <= |logs|
      invariant resultLine == Escape(Concat(Messages(logs[..i])))
    {
      var line := logs[i];
      SummaryStep(logs, i, resultLine);
      var matched := FindMessage(line);
      if matched.Some? {
        var piece := EscapedMessage(matched.value);
        resultLine := resultLine + piece;
      }
      i := i + 1;
    }
    assert logs[..i] == logs;
    UnescapeEscape(Concat(Messages(logs)));
    EscapeHasNoMarkup(Concat(Messages(logs)));
  }

  // ---------------------------------------------------------------------
  // The per-test report path

  /** Length of `p` once trailing `/` are removed. */
  function TrimmedLength(p: string): (n: nat)
    ensures n <= |p| && forall k :: n <= k < |p| ==> p[k] == '/'
    ensures n > 0 ==> p[n - 1] != '/'
  {
    if p == "" || p[|p| - 1] != '/' then |p| else TrimmedLength(p[..|p| - 1])
  }

  /** Length of the prefix of `p` up to and including its last `/` (0 when there is none). */
  function HeadLength(p: string): (n: nat)
    ensures n <= |p| && forall k :: n <= k < |p| ==> p[k] != '/'
    ensures n > 0 ==> p[n - 1] == '/'
  {
    if p == "" then 0 else if p[|p| - 1] == '/' then |p| else HeadLength(p[..|p| - 1])
  }

  /** `os.path.split(p)[0]`: everything up to the last `/`, with trailing slashes
      removed unless the head is all slashes. */
  function DirName(p: string): (head: string)
    ensures StartsWith(p, head)
    ensures (forall k :: 0 <= k < |p| ==> p[k] != '/') ==> head == ""
    ensures head != "" && head[|head| - 1] == '/' ==> forall k :: 0 <= k < |head| ==> head[k] == '/'
    ensures forall i, k :: |head| <= i < k < |p| && p[k] == '/' ==> p[i] == '/'
    ensures (|head| < |p| && p[|head|] == '/') <==> (head != "" && exists k :: 0 <= k < |head| && head[k] != '/')
  {
    var h := HeadLength(p);
    var head := p[..h];
    var n := TrimmedLength(head);
    if n == 0 then head
    else
      assert head[h - 1] == '/' && p[n] == head[n];
      assert head[..n][n - 1] != '/';
      head[..n]
  }

  // ---------------------------------------------------------------------
  // run_test

  /** `cmd_run(cmd, timeout=1800)` in `run_test`. */
  const TestTimeout: int := 1800

  /** The dictionary `run_test` returns. */
  datatype TestResult = TestResult(test: string, status: string, logFile: string, logs: seq<string>,
                                   xmlFile: string, resultLine: string, duration: int)

  /** `run_test` raises when stdout names no log file: `os.path.split(None)`. */
  datatype TestError = NoLogPath

  /** The command line `run_test` runs. */
  function TestCommand(uri: string, machineType: string, testName: string): string
  {
    "`which avocado` run --vt-type libvirt --vt-connect-uri " + uri + " --vt-machine-type " + machineType + " " + testName
  }

  /** The log records `parse_result` reads: split from the file when it can be read, else none. */
  function LogsAt(path: string, files: map<string, string>): seq<string>
  {
    if path in files then Records(SplitLines(files[path]), IsMarker) else []
  }

  /** `run_test`. `polls` is what the runner observes while the command runs and
      `files` the readable files by path. */
  method RunTest(machineType: string, uri: string, testName: string, polls: seq<Runner.Poll>,
                 files: map<string, string>) returns (r: Result<TestResult, TestError>)
    requires Runner.Terminates(polls, TestTimeout)
    ensures var o := Runner.Expected(polls, TestTimeout);
      var lines := SplitLines(o.stdout);
      match LogPathOf(lines)
      case None => r == Err(NoLogPath)
      case Some(path) =>
        r.Ok? && r.value.test == testName && r.value.logFile == path && r.value.duration == o.duration
        && r.value.status == (if o.exitStatus == Runner.Timeout then "TIMEOUT" else StatusOf(lines))
        && r.value.logs == LogsAt(path, files)
        && r.value.resultLine == Escape(Concat(Messages(r.value.logs)))
        && r.value.xmlFile == DirName(path) + "/results.xml"
  {
    var cmd := TestCommand(uri, machineType, testName);
    var result, _ := Runner.CmdRun(cmd, TestTimeout, polls, true);
    var lines := SplitLines(result.stdout);
    var status, logFile := ScanStdout(lines);
    var logs: seq<string> := [];
    if logFile.Some? && logFile.value in files {
      logs := SplitLog(files[logFile.value]);
    }
    if result.exitStatus == Runner.Timeout {
      status := "TIMEOUT";
    }
    var resultLine := Summarize(logs);
    if logFile.None? {
      return Err(NoLogPath);
    }
    var path := logFile.value;
    r := Ok(TestResult(testName, status, path, logs, DirName(path) + "/results.xml", resultLine, result.duration));
  }
}
