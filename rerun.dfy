/**
 * `SubCMD.rerun`: choosing the report to rerun from (the one given, or the
 * newest `vtr_result_*` file by the time stamp in its name) and selecting the
 * cases to run again from it.
 */
module Rerun {
  import opened Wrappers
  import opened Text
  import Xunit
  import Classify

  /** Why `rerun` stops: `IndexError` when no report file is found, `IndexError`
      or `ValueError` on a report name whose time stamp cannot be read, an
      unreadable report, `KeyError` on a selected case without a `name`, and
      `exit(1)` when nothing is selected. */
  datatype RerunError =
    | NoReportFound
    | BadName(file: string)
    | BadStamp(file: string)
    | Unreadable(file: string)
    | MissingName
    | NothingToRerun

  // ---------------------------------------------------------------------
  // Time stamps

  /** What `time.strptime` gives, reduced to the fields that order it. */
  datatype Stamp = Stamp(year: int, month: int, day: int, hour: int, minute: int, second: int)

  function Fields(s: Stamp): seq<int>
  {
    [s.year, s.month, s.day, s.hour, s.minute, s.second]
  }

  /** Lexicographic order on equally long integer tuples. */
  predicate LexLess(x: seq<int>, y: seq<int>)
    requires |x| == |y|
  {
    x != [] && (x[0] < y[0] || (x[0] == y[0] && LexLess(x[1..], y[1..])))
  }

  /** `a < b` for `struct_time` values. */
  predicate Before(a: Stamp, b: Stamp)
  {
    LexLess(Fields(a), Fields(b))
  }

  lemma {:induction false} LexLessTransitive(x: seq<int>, y: seq<int>, z: seq<int>)
    requires |x| == |y| == |z| && LexLess(x, y) && LexLess(y, z)
    ensures LexLess(x, z)
  {
    if x[0] == y[0] == z[0] {
      LexLessTransitive(x[1..], y[1..], z[1..]);
    }
  }

  lemma {:induction false} LexLessIrreflexive(x: seq<int>)
    ensures !LexLess(x, x)
  {
    if x != [] {
      LexLessIrreflexive(x[1..]);
    }
  }

  lemma {:induction false} LexLessTotal(x: seq<int>, y: seq<int>)
    requires |x| == |y|
    ensures LexLess(x, y) || LexLess(y, x) || x == y
  {
    if x != [] && x[0] == y[0] {
      LexLessTotal(x[1..], y[1..]);
      if x[1..] == y[1..] {
        assert x == [x[0]] + x[1..] && y == [y[0]] + y[1..];
      }
    }
  }

  /** `Before` is a strict total order on stamps. */
  lemma BeforeOrder(a: Stamp, b: Stamp, c: Stamp)
    ensures !Before(a, a)
    ensures Before(a, b) && Before(b, c) ==> Before(a, c)
    ensures Before(a, b) || Before(b, a) || a == b
  {
    LexLessIrreflexive(Fields(a));
    if Before(a, b) && Before(b, c) {
      LexLessTransitive(Fields(a), Fields(b), Fields(c));
    }
    LexLessTotal(Fields(a), Fields(b));
  }

  /** The text `rerun` hands to `strptime`: the third- and second-last
      `_`-separated fields of the name, or `None` (an `IndexError`) when the
      name has fewer than three fields. */
  function StampText(file: string): (r: Option<string>)
    ensures r.Some? <==> |SplitOn(file, '_')| >= 3
  {
    var fields := SplitOn(file, '_');
    if |fields| < 3 then None else Some(fields[|fields| - 3] + "_" + fields[|fields| - 2])
  }

  /** Fields [-3] and [-2] of a name ending in `_` + date + `_` + time +
      `_` + zone are the date and the time, whatever precedes them. */
  lemma StampTextOfSuffix(prefix: string, date: string, time: string, zone: string)
    requires '_' !in date && '_' !in time && '_' !in zone
    ensures StampText(prefix + "_" + date + "_" + time + "_" + zone) == Some(date + "_" + time)
  {
    var p1 := prefix + "_" + date;
    var p2 := p1 + "_" + time;
    SplitOnSnoc(prefix, date, '_');
    SplitOnSnoc(p1, time, '_');
    SplitOnSnoc(p2, zone, '_');
  }

  /** Reading back the name `_run` writes gives the stamp it was made from:
      for `vtr_result_` + date + `_` + time + `_UTC`, the text handed to
      `strptime` is date + `_` + time. */
  lemma StampTextOfFileName(date: string, time: string)
    requires '_' !in date && '_' !in time
    ensures StartsWith(Xunit.FileName(date + "_" + time + "_UTC"), "vtr_result")
    ensures StampText(Xunit.FileName(date + "_" + time + "_UTC")) == Some(date + "_" + time)
  {
    var name := Xunit.FileName(date + "_" + time + "_UTC");
    assert name == "vtr_result" + "_" + date + "_" + time + "_" + "UTC";
    StampTextOfSuffix("vtr_result", date, time, "UTC");
  }

  // ---------------------------------------------------------------------
  // The newest report

  /** A report file with its time stamp, an entry of `result_list`. */
  datatype Candidate = Candidate(file: string, stamp: Stamp)

  /** The time stamp of a report name, read with `parse` (`time.strptime`). */
  function StampOf(file: string, parse: string -> Option<Stamp>): Result<Stamp, RerunError>
  {
    match StampText(file)
    case None => Err(BadName(file))
    case Some(text) =>
      match parse(text)
      case None => Err(BadStamp(file))
      case Some(st) => Ok(st)
  }

  /** `result_list`: the `vtr_result` files in listing order with their stamps;
      the first name whose stamp cannot be read stops the scan. */
  function Candidates(files: seq<string>, parse: string -> Option<Stamp>): (r: Result<seq<Candidate>, RerunError>)
    ensures r.Err? ==> r.error.BadName? || r.error.BadStamp?
    ensures r.Ok? ==> |r.value| <= |files|
  {
    if files == [] then Ok([])
    else
      var n := |files| - 1;
      match Candidates(files[..n], parse)
      case Err(e) => Err(e)
      case Ok(cs) =>
        if !StartsWith(files[n], "vtr_result") then Ok(cs)
        else
          match StampOf(files[n], parse)
          case Err(e) => Err(e)
          case Ok(st) => Ok(cs + [Candidate(files[n], st)])
  }

  /** `sorted(result_list, key=stamp, reverse=True)[0]`: the sort is stable,
      so it is the first candidate whose stamp no other exceeds. */
  function FirstMax(cs: seq<Candidate>): (k: nat)
    requires cs != []
    ensures k < |cs|
    ensures forall j :: 0 <= j < |cs| ==> !Before(cs[k].stamp, cs[j].stamp)
    ensures forall j :: 0 <= j < k ==> Before(cs[j].stamp, cs[k].stamp)
  {
    if |cs| == 1 then
      BeforeOrder(cs[0].stamp, cs[0].stamp, cs[0].stamp);
      0
    else
      var n := |cs| - 1;
      var k := FirstMax(cs[..n]);
      if Before(cs[k].stamp, cs[n].stamp) then
        assert forall j :: 0 <= j < n ==> Before(cs[j].stamp, cs[n].stamp) by {
          forall j | 0 <= j < n
            ensures Before(cs[j].stamp, cs[n].stamp)
          {
            BeforeOrder(cs[j].stamp, cs[k].stamp, cs[n].stamp);
          }
        }
        assert forall j :: 0 <= j < |cs| ==> !Before(cs[n].stamp, cs[j].stamp) by {
          forall j | 0 <= j < |cs|
            ensures !Before(cs[n].stamp, cs[j].stamp)
          {
            BeforeOrder(cs[n].stamp, cs[j].stamp, cs[n].stamp);
          }
        }
        n
      else
        k
  }

  /** A name that stops the scan stops it for any longer listing too. */
  lemma {:induction false} CandidatesStopped(files: seq<string>, parse: string -> Option<Stamp>, i: nat, e: RerunError)
    requires i <= |files| && Candidates(files[..i], parse) == Err(e)
    ensures Candidates(files, parse) == Err(e)
    decreases |files| - i
  {
    if i < |files| {
      assert files[..i + 1][..i] == files[..i];
      CandidatesStopped(files, parse, i + 1, e);
    } else {
      assert files[..i] == files;
    }
  }

  /** The report `rerun` picks when `--xunit` is not given. */
  function Latest(files: seq<string>, parse: string -> Option<Stamp>): Result<string, RerunError>
  {
    match Candidates(files, parse)
    case Err(e) => Err(e)
    case Ok(cs) => if cs == [] then Err(NoReportFound) else Ok(cs[FirstMax(cs)].file)
  }

  /** The scan of the directory listing and the choice of the newest report. */
  method LatestReport(files: seq<string>, parse: string -> Option<Stamp>) returns (r: Result<string, RerunError>)
    ensures r == Latest(files, parse)
  {
    var resultList: seq<Candidate> := [];
    for i := 0 to |files|
      invariant Candidates(files[..i], parse) == Ok(resultList)
    {
      assert files[..i + 1][..i] == files[..i];
      var file := files[i];
      if StartsWith(file, "vtr_result") {
        var fields := SplitOn(file, '_');
        if |fields| < 3 {
          CandidatesStopped(files, parse, i + 1, BadName(file));
          return Err(BadName(file));
        }
        var stamp := parse(fields[|fields| - 3] + "_" + fields[|fields| - 2]);
        if stamp.None? {
          CandidatesStopped(files, parse, i + 1, BadStamp(file));
          return Err(BadStamp(file));
        }
        resultList := resultList + [Candidate(file, stamp.value)];
      }
    }
    assert files[..|files|] == files;
    if resultList == [] {
      return Err(NoReportFound);
    }
    r := Ok(resultList[FirstMax(resultList)].file);
  }

  /** Every candidate is a listed `vtr_result` file with its stamp, and every
      listed `vtr_result` file is a candidate. */
  lemma {:induction false} CandidatesAreReports(files: seq<string>, parse: string -> Option<Stamp>)
    ensures match Candidates(files, parse)
      case Ok(cs) =>
        && (forall c :: c in cs ==> c.file in files && StartsWith(c.file, "vtr_result") && StampOf(c.file, parse) == Ok(c.stamp))
        && (forall f :: f in files && StartsWith(f, "vtr_result") ==> exists c :: c in cs && c.file == f)
      case Err(_) => true
  {
    if files != [] {
      var n := |files| - 1;
      CandidatesAreReports(files[..n], parse);
      assert files == files[..n] + [files[n]];
    }
  }

  /** The chosen report is a listed `vtr_result` file whose stamp no other
      report's stamp exceeds. */
  lemma LatestIsNewest(files: seq<string>, parse: string -> Option<Stamp>)
    ensures match Latest(files, parse)
      case Ok(f) =>
        && f in files && StartsWith(f, "vtr_result")
        && exists st :: StampOf(f, parse) == Ok(st)
                        && forall g :: g in files && StartsWith(g, "vtr_result") ==>
                             StampOf(g, parse).Ok? && !Before(st, StampOf(g, parse).value)
      case Err(e) => e.NoReportFound? || e.BadName? || e.BadStamp?
  {
    CandidatesAreReports(files, parse);
    match Candidates(files, parse)
    case Err(_) =>
    case Ok(cs) =>
      if cs != [] {
        var k := FirstMax(cs);
        var st := cs[k].stamp;
        assert StampOf(cs[k].file, parse) == Ok(st);
        forall g | g in files && StartsWith(g, "vtr_result")
          ensures StampOf(g, parse).Ok? && !Before(st, StampOf(g, parse).value)
        {
          var c :| c in cs && c.file == g;
          var j :| 0 <= j < |cs| && cs[j] == c;
        }
      }
  }

  /** With no `vtr_result` file in the listing there is nothing to pick. */
  lemma NoReportsNoChoice(files: seq<string>, parse: string -> Option<Stamp>)
    requires forall i :: 0 <= i < |files| ==> !StartsWith(files[i], "vtr_result")
    ensures Latest(files, parse) == Err(NoReportFound)
  {
    CandidatesAreReports(files, parse);
    NoCandidates(files, parse);
  }

  lemma {:induction false} NoCandidates(files: seq<string>, parse: string -> Option<Stamp>)
    requires forall i :: 0 <= i < |files| ==> !StartsWith(files[i], "vtr_result")
    ensures Candidates(files, parse) == Ok([])
  {
    if files != [] {
      NoCandidates(files[..|files| - 1], parse);
    }
  }

  /** `--xunit` when given (a non-empty string), else the newest report. */
  function Chosen(xunit: string, files: seq<string>, parse: string -> Option<Stamp>): Result<string, RerunError>
  {
    if xunit != "" then Ok(xunit) else Latest(files, parse)
  }

  // ---------------------------------------------------------------------
  // Case selection

  /** A `testcase` element as read back from a written report: every
      attribute value is text. */
  datatype XmlCase = XmlCase(attrs: map<string, string>, children: seq<string>)

  /** An attribute as written out; a dictionary value is written as its `str`. */
  function AttrText(a: Xunit.Attr, dictText: map<string, string> -> string): string
  {
    match a
    case Str(s) => s
    case Dict(d) => dictText(d)
  }

  /** A case as `ET.write` then `ET.parse` see it: the same attribute names,
      their values as text, the same children. */
  function Written(c: Xunit.Case, dictText: map<string, string> -> string): (x: XmlCase)
    ensures x.attrs.Keys == c.attrs.Keys && x.children == c.children
  {
    XmlCase(map k | k in c.attrs :: AttrText(c.attrs[k], dictText), c.children)
  }

  /** `not ignore_pass or case has an error, skipped or failure child`. */
  predicate Picked(c: XmlCase, ignorePass: bool)
  {
    !ignorePass || "error" in c.children || "skipped" in c.children || "failure" in c.children
  }

  /** The names of the picked cases in report order, or `MissingName` at the
      first picked case without a `name`. */
  function Names(cases: seq<XmlCase>, ignorePass: bool): (r: Result<seq<string>, RerunError>)
    ensures r.Err? ==> r.error == MissingName
    ensures r.Ok? ==> |r.value| <= |cases|
  {
    if cases == [] then Ok([])
    else
      var n := |cases| - 1;
      match Names(cases[..n], ignorePass)
      case Err(e) => Err(e)
      case Ok(ns) =>
        if !Picked(cases[n], ignorePass) then Ok(ns)
        else if "name" !in cases[n].attrs then Err(MissingName)
        else Ok(ns + [cases[n].attrs["name"]])
  }

  /** A case that stops the selection stops it for any longer report too. */
  lemma {:induction false} NamesStopped(cases: seq<XmlCase>, ignorePass: bool, i: nat)
    requires i <= |cases| && Names(cases[..i], ignorePass).Err?
    ensures Names(cases, ignorePass) == Err(MissingName)
    decreases |cases| - i
  {
    if i < |cases| {
      assert cases[..i + 1][..i] == cases[..i];
      NamesStopped(cases, ignorePass, i + 1);
    } else {
      assert cases[..i] == cases;
    }
  }

  /** `legal_cases`, or the reason `rerun` stops before running anything. */
  function Selection(cases: seq<XmlCase>, ignorePass: bool): Result<seq<string>, RerunError>
  {
    match Names(cases, ignorePass)
    case Err(e) => Err(e)
    case Ok(ns) => if ns == [] then Err(NothingToRerun) else Ok(ns)
  }

  /** The loop of `rerun` over the cases of the chosen report. */
  method SelectCases(cases: seq<XmlCase>, ignorePass: bool) returns (r: Result<seq<string>, RerunError>)
    ensures r == Selection(cases, ignorePass)
  {
    var legalCases: seq<string> := [];
    for i := 0 to |cases|
      invariant Names(cases[..i], ignorePass) == Ok(legalCases)
    {
      assert cases[..i + 1][..i] == cases[..i];
      var c := cases[i];
      if !ignorePass || "error" in c.children || "skipped" in c.children || "failure" in c.children {
        if "name" !in c.attrs {
          NamesStopped(cases, ignorePass, i + 1);
          return Err(MissingName);
        }
        legalCases := legalCases + [c.attrs["name"]];
      }
    }
    assert cases[..|cases|] == cases;
    if legalCases == [] {
      return Err(NothingToRerun);
    }
    r := Ok(legalCases);
  }

  /** The `name` of every case, in order. */
  function NameList(cases: seq<XmlCase>): (ns: seq<string>)
    requires forall i :: 0 <= i < |cases| ==> "name" in cases[i].attrs
    ensures |ns| == |cases| && forall i :: 0 <= i < |cases| ==> ns[i] == cases[i].attrs["name"]
  {
    seq(|cases|, i requires 0 <= i < |cases| => cases[i].attrs["name"])
  }

  /** Without `--ignore-pass`, every case is selected, in report order. */
  lemma {:induction false} SelectAll(cases: seq<XmlCase>)
    requires forall i :: 0 <= i < |cases| ==> "name" in cases[i].attrs
    ensures Names(cases, false) == Ok(NameList(cases))
  {
    if cases != [] {
      var n := |cases| - 1;
      var pre := cases[..n];
      assert forall i :: 0 <= i < n ==> pre[i] == cases[i];
      SelectAll(pre);
      assert NameList(cases) == NameList(pre) + [cases[n].attrs["name"]];
    }
  }

  /** With `--ignore-pass`, exactly the names of the cases that have an
      `error`, `skipped` or `failure` child are selected. */
  lemma {:induction false} SelectNotPassed(cases: seq<XmlCase>, ns: seq<string>)
    requires Names(cases, true) == Ok(ns)
    ensures forall i :: 0 <= i < |cases| && Picked(cases[i], true) ==> "name" in cases[i].attrs && cases[i].attrs["name"] in ns
    ensures forall name :: name in ns ==>
              exists i :: 0 <= i < |cases| && Picked(cases[i], true) && "name" in cases[i].attrs && cases[i].attrs["name"] == name
  {
    if cases != [] {
      var n := |cases| - 1;
      var ns' :| Names(cases[..n], true) == Ok(ns');
      SelectNotPassed(cases[..n], ns');
      assert forall i :: 0 <= i < n ==> cases[..n][i] == cases[i];
    }
  }

  /** A picked case without a `name` stops the rerun with `KeyError`. */
  lemma MissingNameStops(cases: seq<XmlCase>, ignorePass: bool, i: nat)
    requires i < |cases| && Picked(cases[i], ignorePass) && "name" !in cases[i].attrs
    ensures Names(cases, ignorePass) == Err(MissingName)
    ensures Selection(cases, ignorePass) == Err(MissingName)
  {
    assert cases[..i + 1][..i] == cases[..i];
    NamesStopped(cases, ignorePass, i + 1);
  }

  /** Consequence of the `attr_dict` case: once any test of a run has left no
      `results.xml`, rerunning from the report `_run` writes stops with `KeyError`,
      whatever tests follow it and whether or not `--ignore-pass` is given. */
  lemma RerunAfterMissingResults(results: seq<Classify.TestResult>, nested: seq<Option<Xunit.Report>>,
                                 repr: seq<string> -> string, dictText: map<string, string> -> string,
                                 ignorePass: bool, i: nat)
    requires |results| == |nested| && i < |nested| && nested[i] == None
    ensures var m := Xunit.MergeAll(Xunit.Empty, results, nested, repr);
      Selection(seq(|m.cases|, k requires 0 <= k < |m.cases| => Written(m.cases[k], dictText)), ignorePass)
        == Err(MissingName)
  {
    var before := Xunit.MergeAll(Xunit.Empty, results[..i], nested[..i], repr);
    var after := Xunit.Merge(before, results[i], None, repr);
    Xunit.MergeMissing(before, results[i], repr);
    assert results[..i + 1][..i] == results[..i] && nested[..i + 1][..i] == nested[..i];
    assert after == Xunit.MergeAll(Xunit.Empty, results[..i + 1], nested[..i + 1], repr);
    Xunit.MergeAllPrefixOf(Xunit.Empty, results, nested, repr, i + 1);
    var m := Xunit.MergeAll(Xunit.Empty, results, nested, repr);
    var last := |before.cases|;
    assert m.cases[last] == after.cases[last];
    var xs := seq(|m.cases|, k requires 0 <= k < |m.cases| => Written(m.cases[k], dictText));
    assert xs[last] == Written(after.cases[last], dictText);
    MissingNameStops(xs, ignorePass, last);
  }

  /** `rerun` up to `_run`: choose the report, read it (`reports` holds the
      files `ET.parse` can read, as their cases) and select the cases. */
  method SelectForRerun(xunit: string, files: seq<string>, parse: string -> Option<Stamp>,
                        reports: map<string, seq<XmlCase>>, ignorePass: bool)
    returns (r: Result<seq<string>, RerunError>)
    ensures r == match Chosen(xunit, files, parse)
      case Err(e) => Err(e)
      case Ok(f) => if f in reports then Selection(reports[f], ignorePass) else Err(Unreadable(f))
  {
    var file: string;
    if xunit != "" {
      file := xunit;
    } else {
      var latest := LatestReport(files, parse);
      if latest.Err? {
        return Err(latest.error);
      }
      file := latest.value;
    }
    if file !in reports {
      return Err(Unreadable(file));
    }
    r := SelectCases(reports[file], ignorePass);
  }
}
