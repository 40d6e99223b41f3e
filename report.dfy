/**
 * The cumulative xunit report: the root `testsuite` element built by
 * `generate_etree_root`, the merge of one test's outcome into it by
 * `append_etree_element`, and the `_run` loop that folds every test into it.
 */
module Xunit {
  import opened Wrappers
  import Classify

  /** An attribute value held by an element in memory. `Dict` is what the
      keyword argument `attr_dict=...` of `ET.Element` stores. */
  datatype Attr = Str(s: string) | Dict(d: map<string, string>)

  /** A `testcase` element: attributes, text, and the tags of its children
      (`error`, `failure`, `skipped`, ...). */
  datatype Case = Case(attrs: map<string, Attr>, text: Option<string>, children: seq<string>)

  /** A `testsuite` element: its integer counters and its cases. */
  datatype Report = Report(errors: int, failures: int, skipped: int, tests: int, cases: seq<Case>)

  /** The counters of a fresh root are all `'0'` and it has no case. */
  const Empty: Report := Report(0, 0, 0, 0, [])

  /** The name under which `_run` writes the report. */
  function FileName(timeStamp: string): (f: string)
    ensures |f| == 11 + |timeStamp| && f[..10] == "vtr_result" && f[10] == '_' && f[11..] == timeStamp
  {
    "vtr_result_" + timeStamp
  }

  /** The case added for a test that left no `results.xml`. The name is passed
      as `attr_dict=attr_dict`, so the case holds one attribute literally named
      `attr_dict` whose value is the dictionary, and no `name` attribute. */
  function ErrorCase(test: string, logText: string): Case
  {
    Case(map["attr_dict" := Dict(map["name" := test])], Some(logText), ["error"])
  }

  /** A case of the test's own report as it is moved into the root: renamed to
      the test, and given the log text unless the test passed. */
  function Adopt(c: Case, test: string, status: string, logText: string): Case
  {
    Case(c.attrs["name" := Str(test)], if status != "PASS" then Some(logText) else c.text, c.children)
  }

  function AdoptAll(cs: seq<Case>, test: string, status: string, logText: string): (r: seq<Case>)
    ensures |r| == |cs|
  {
    seq(|cs|, k requires 0 <= k < |cs| => Adopt(cs[k], test, status, logText))
  }

  /** `append_etree_element` on values. `nested` is the test's own report,
      `None` when its `results.xml` is not a file; `repr` is `str` on the list
      of log records. */
  function Merge(r: Report, t: Classify.TestResult, nested: Option<Report>, repr: seq<string> -> string): Report
  {
    match nested
    case None =>
      Report(r.errors + 1, r.failures, r.skipped, r.tests + 1, r.cases + [ErrorCase(t.test, repr(t.logs))])
    case Some(n) =>
      Report(r.errors + n.errors, r.failures + n.failures, r.skipped + n.skipped, r.tests + n.tests,
             r.cases + AdoptAll(n.cases, t.test, t.status, repr(t.logs)))
  }

  /** The root `testsuite` element, updated in place. */
  class Suite {
    const timeStamp: string
    const timeStampBare: string
    const name: string
    var errors: int
    var failures: int
    var skipped: int
    var tests: int
    var cases: seq<Case>

    function Value(): Report
      reads this
    {
      Report(errors, failures, skipped, tests, cases)
    }

    /** `generate_etree_root`: the clock readings are parameters. */
    constructor (timeStamp: string, timeStampBare: string)
      ensures this.timeStamp == timeStamp && this.timeStampBare == timeStampBare
      ensures name == "avocado_vt_cases_" + timeStamp
      ensures Value() == Empty
    {
      this.timeStamp := timeStamp;
      this.timeStampBare := timeStampBare;
      name := "avocado_vt_cases_" + timeStamp;
      errors, failures, skipped, tests := 0, 0, 0, 0;
      cases := [];
    }

    /** `append_etree_element(test_result, root)`. */
    method Append(t: Classify.TestResult, nested: Option<Report>, repr: seq<string> -> string)
      modifies this
      ensures Value() == Merge(old(Value()), t, nested, repr)
    {
      if nested.None? {
        errors := errors + 1;
        tests := tests + 1;
        var errorCase := Case(map["attr_dict" := Dict(map["name" := t.test])], None, []);
        errorCase := errorCase.(children := errorCase.children + ["error"]);
        errorCase := errorCase.(text := Some(repr(t.logs)));
        assert errorCase.children == ["error"];
        cases := cases + [errorCase];
        return;
      }
      var tmp := nested.value;
      var i := 0;
      while i < |tmp.cases|
        invariant 0 <= i <= |tmp.cases|
        invariant cases == old(cases) + AdoptAll(tmp.cases[..i], t.test, t.status, repr(t.logs))
        invariant errors == old(errors) && failures == old(failures)
        invariant skipped == old(skipped) && tests == old(tests)
      {
        var x := tmp.cases[i];
        if t.status != "PASS" {
          x := x.(text := Some(repr(t.logs)));
        }
        x := x.(attrs := x.attrs["name" := Str(t.test)]);
        cases := cases + [x];
        i := i + 1;
      }
      assert tmp.cases[..i] == tmp.cases;
      errors := errors + tmp.errors;
      failures := failures + tmp.failures;
      skipped := skipped + tmp.skipped;
      tests := tests + tmp.tests;
    }
  }

  /** `generate_etree_root`: the root and the name it will be written under. */
  method GenerateRoot(timeStamp: string, timeStampBare: string) returns (root: Suite, xmlFile: string)
    ensures fresh(root) && root.Value() == Empty
    ensures root.name == "avocado_vt_cases_" + timeStamp
    ensures xmlFile == FileName(timeStamp)
  {
    root := new Suite(timeStamp, timeStampBare);
    xmlFile := "vtr_result_" + root.timeStamp;
  }

  // ---------------------------------------------------------------------
  // What a merge keeps and changes

  /** Without `results.xml`: one error and one test more, the other counters
      kept, and one case appended after the untouched earlier ones; that case
      carries an `error` child and the log text, and has no `name`. */
  lemma MergeMissing(r: Report, t: Classify.TestResult, repr: seq<string> -> string)
    ensures var m := Merge(r, t, None, repr);
      && m.errors == r.errors + 1 && m.tests == r.tests + 1
      && m.failures == r.failures && m.skipped == r.skipped
      && |m.cases| == |r.cases| + 1 && m.cases[..|r.cases|] == r.cases
      && "error" in m.cases[|r.cases|].children
      && m.cases[|r.cases|].text == Some(repr(t.logs))
      && "name" !in m.cases[|r.cases|].attrs
  {
    var m := Merge(r, t, None, repr);
    assert m.cases[..|r.cases|] == r.cases;
  }

  /** With `results.xml`: every counter rises by the test report's, and its
      cases follow the untouched earlier ones in order, each named after the
      test, with the log text exactly when the test did not pass, and with its
      children kept. */
  lemma MergePresent(r: Report, t: Classify.TestResult, n: Report, repr: seq<string> -> string)
    ensures var m := Merge(r, t, Some(n), repr);
      && m.errors == r.errors + n.errors && m.failures == r.failures + n.failures
      && m.skipped == r.skipped + n.skipped && m.tests == r.tests + n.tests
      && |m.cases| == |r.cases| + |n.cases| && m.cases[..|r.cases|] == r.cases
      && forall k :: 0 <= k < |n.cases| ==>
           var c := m.cases[|r.cases| + k];
           && c.attrs == n.cases[k].attrs["name" := Str(t.test)]
           && c.children == n.cases[k].children
           && (t.status != "PASS" ==> c.text == Some(repr(t.logs)))
           && (t.status == "PASS" ==> c.text == n.cases[k].text)
  {
    var m := Merge(r, t, Some(n), repr);
    assert m.cases[..|r.cases|] == r.cases;
  }

  // ---------------------------------------------------------------------
  // Consistent counters

  /** Number of cases with a child tagged `tag`. */
  function Count(cs: seq<Case>, tag: string): (n: nat)
    ensures n <= |cs|
  {
    if cs == [] then 0
    else Count(cs[..|cs| - 1], tag) + (if tag in cs[|cs| - 1].children then 1 else 0)
  }

  /** The counters of a report agree with its cases. */
  predicate Consistent(r: Report)
  {
    && r.tests == |r.cases|
    && r.errors == Count(r.cases, "error")
    && r.failures == Count(r.cases, "failure")
    && r.skipped == Count(r.cases, "skipped")
  }

  lemma {:induction false} CountAppend(a: seq<Case>, b: seq<Case>, tag: string)
    ensures Count(a + b, tag) == Count(a, tag) + Count(b, tag)
    decreases |b|
  {
    if b == [] {
      assert a + b == a;
    } else {
      var b' := b[..|b| - 1];
      assert (a + b)[..|a + b| - 1] == a + b';
      CountAppend(a, b', tag);
    }
  }

  /** Moving cases into the root keeps their children, so it keeps every count. */
  lemma {:induction false} CountAdopt(cs: seq<Case>, test: string, status: string, logText: string, tag: string)
    ensures Count(AdoptAll(cs, test, status, logText), tag) == Count(cs, tag)
    decreases |cs|
  {
    if cs != [] {
      var cs' := cs[..|cs| - 1];
      var a := AdoptAll(cs, test, status, logText);
      assert a[..|a| - 1] == AdoptAll(cs', test, status, logText);
      CountAdopt(cs', test, status, logText, tag);
    }
  }

  /** Merging keeps the counters in agreement with the cases, provided the
      test's own report was. */
  lemma MergeKeepsConsistent(r: Report, t: Classify.TestResult, nested: Option<Report>, repr: seq<string> -> string)
    requires Consistent(r)
    requires nested.Some? ==> Consistent(nested.value)
    ensures Consistent(Merge(r, t, nested, repr))
  {
    var m := Merge(r, t, nested, repr);
    var added := m.cases[|r.cases|..];
    assert m.cases == r.cases + added;
    CountAppend(r.cases, added, "error");
    CountAppend(r.cases, added, "failure");
    CountAppend(r.cases, added, "skipped");
    match nested
    case None =>
      assert added == [ErrorCase(t.test, repr(t.logs))];
      assert [ErrorCase(t.test, repr(t.logs))][..0] == [];
    case Some(n) =>
      assert added == AdoptAll(n.cases, t.test, t.status, repr(t.logs));
      CountAdopt(n.cases, t.test, t.status, repr(t.logs), "error");
      CountAdopt(n.cases, t.test, t.status, repr(t.logs), "failure");
      CountAdopt(n.cases, t.test, t.status, repr(t.logs), "skipped");
  }

  // ---------------------------------------------------------------------
  // The _run loop

  /** The root after merging each test in turn. */
  function MergeAll(r: Report, results: seq<Classify.TestResult>, nested: seq<Option<Report>>,
                    repr: seq<string> -> string): Report
    requires |results| == |nested|
  {
    if results == [] then r
    else
      var n := |results| - 1;
      Merge(MergeAll(r, results[..n], nested[..n], repr), results[n], nested[n], repr)
  }

  /** Number of results whose status is `PASS`. */
  function CountPass(results: seq<Classify.TestResult>): (n: nat)
    ensures n <= |results|
  {
    if results == [] then 0
    else CountPass(results[..|results| - 1]) + (if results[|results| - 1].status == "PASS" then 1 else 0)
  }

  /** Folding one more test merges it into the fold so far. */
  lemma MergeAllSnoc(r: Report, results: seq<Classify.TestResult>, nested: seq<Option<Report>>,
                     t: Classify.TestResult, n: Option<Report>, repr: seq<string> -> string)
    requires |results| == |nested|
    ensures MergeAll(r, results + [t], nested + [n], repr) == Merge(MergeAll(r, results, nested, repr), t, n, repr)
  {
    assert (results + [t])[..|results|] == results;
    assert (nested + [n])[..|nested|] == nested;
  }

  lemma CountPassSnoc(results: seq<Classify.TestResult>, t: Classify.TestResult)
    ensures CountPass(results + [t]) == CountPass(results) + (if t.status == "PASS" then 1 else 0)
  {
    assert (results + [t])[..|results|] == results;
  }

  /** The fold keeps the counters consistent, from a fresh root on. */
  lemma {:induction false} MergeAllKeepsConsistent(r: Report, results: seq<Classify.TestResult>,
                                                   nested: seq<Option<Report>>, repr: seq<string> -> string)
    requires |results| == |nested| && Consistent(r)
    requires forall i :: 0 <= i < |nested| && nested[i].Some? ==> Consistent(nested[i].value)
    ensures Consistent(MergeAll(r, results, nested, repr))
    decreases |results|
  {
    if results != [] {
      var n := |results| - 1;
      MergeAllKeepsConsistent(r, results[..n], nested[..n], repr);
      MergeKeepsConsistent(MergeAll(r, results[..n], nested[..n], repr), results[n], nested[n], repr);
    }
  }

  /** The fold never rewrites a case already in the root: earlier cases stay a prefix. */
  lemma {:induction false} MergeAllKeepsPrefix(r: Report, results: seq<Classify.TestResult>,
                                               nested: seq<Option<Report>>, repr: seq<string> -> string)
    requires |results| == |nested|
    ensures |r.cases| <= |MergeAll(r, results, nested, repr).cases|
    ensures MergeAll(r, results, nested, repr).cases[..|r.cases|] == r.cases
    decreases |results|
  {
    if results != [] {
      var n := |results| - 1;
      var before := MergeAll(r, results[..n], nested[..n], repr);
      MergeAllKeepsPrefix(r, results[..n], nested[..n], repr);
      var after := MergeAll(r, results, nested, repr);
      assert after.cases[..|before.cases|] == before.cases;
      assert after.cases[..|r.cases|] == before.cases[..|r.cases|];
    }
  }

  /** Later tests only append: the cases of the fold over the first `j` tests stay a
      prefix of the fold over all of them. */
  lemma {:induction false} MergeAllPrefixOf(r: Report, results: seq<Classify.TestResult>,
                                            nested: seq<Option<Report>>, repr: seq<string> -> string, j: nat)
    requires |results| == |nested| && j <= |results|
    ensures var early := MergeAll(r, results[..j], nested[..j], repr).cases;
      |early| <= |MergeAll(r, results, nested, repr).cases|
      && MergeAll(r, results, nested, repr).cases[..|early|] == early
    decreases |results|
  {
    if j == |results| {
      assert results[..j] == results && nested[..j] == nested;
    } else {
      var n := |results| - 1;
      MergeAllPrefixOf(r, results[..n], nested[..n], repr, j);
      assert results[..n][..j] == results[..j] && nested[..n][..j] == nested[..j];
      var early := MergeAll(r, results[..j], nested[..j], repr).cases;
      var before := MergeAll(r, results[..n], nested[..n], repr);
      var after := MergeAll(r, results, nested, repr);
      assert after.cases[..|before.cases|] == before.cases;
      assert after.cases[..|early|] == before.cases[..|early|];
    }
  }

  /** What `_run` produces: the report, the file it is written to, and the
      number of passed tests it reports. */
  datatype RunSummary = RunSummary(report: Report, xmlFile: string, passCount: nat)

  /** The results of the tests that ran, when none raised. */
  function Values(outcomes: seq<Result<Classify.TestResult, Classify.TestError>>): (rs: seq<Classify.TestResult>)
    requires forall i :: 0 <= i < |outcomes| ==> outcomes[i].Ok?
    ensures |rs| == |outcomes| && forall i :: 0 <= i < |rs| ==> rs[i] == outcomes[i].value
  {
    seq(|outcomes|, i requires 0 <= i < |outcomes| => outcomes[i].value)
  }

  /** `_run`: every case is run in order (`outcomes[i]` is what `run_test`
      gives for `cases[i]`, `nested[i]` its own report) and merged into a fresh
      root; a `run_test` that raises ends the run before the report is written. */
  method RunAll(cases: seq<string>, outcomes: seq<Result<Classify.TestResult, Classify.TestError>>,
                nested: seq<Option<Report>>, timeStamp: string, timeStampBare: string,
                repr: seq<string> -> string) returns (r: Result<RunSummary, Classify.TestError>)
    requires |outcomes| == |cases| && |nested| == |cases|
    ensures r.Ok? <==> forall i :: 0 <= i < |outcomes| ==> outcomes[i].Ok?
    ensures r.Ok? ==>
      && r.value.report == MergeAll(Empty, Values(outcomes), nested, repr)
      && r.value.xmlFile == FileName(timeStamp)
      && r.value.passCount == CountPass(Values(outcomes))
      && r.value.passCount <= |cases|
  {
    var root, xmlFile := GenerateRoot(timeStamp, timeStampBare);
    var passCount := 0;
    ghost var done: seq<Classify.TestResult> := [];
    for i := 0 to |cases|
      invariant |done| == i && forall j :: 0 <= j < i ==> outcomes[j] == Ok(done[j])
      invariant root.Value() == MergeAll(Empty, done, nested[..i], repr)
      invariant passCount == CountPass(done)
    {
      if outcomes[i].Err? {
        return Err(outcomes[i].error);
      }
      var testResult := outcomes[i].value;
      assert nested[..i + 1] == nested[..i] + [nested[i]];
      MergeAllSnoc(Empty, done, nested[..i], testResult, nested[i], repr);
      CountPassSnoc(done, testResult);
      passCount := RunOne(root, testResult, nested[i], repr, passCount);
      done := done + [testResult];
    }
    assert done == Values(outcomes) && nested[..|cases|] == nested;
    r := Ok(RunSummary(root.Value(), xmlFile, passCount));
  }

  /** One pass of the `_run` loop once `run_test` has returned: the result is
      merged into the root and counted when it passed. */
  method RunOne(root: Suite, t: Classify.TestResult, nested: Option<Report>, repr: seq<string> -> string,
                passCount: nat) returns (passCount': nat)
    modifies root
    ensures root.Value() == Merge(old(root.Value()), t, nested, repr)
    ensures passCount' == passCount + (if t.status == "PASS" then 1 else 0)
  {
    root.Append(t, nested, repr);
    passCount' := passCount;
    if t.status == "PASS" {
      passCount' := passCount' + 1;
    }
  }

  /** A fresh root is consistent, so with consistent test reports the written
      report has as many tests as cases. */
  lemma RunReportConsistent(results: seq<Classify.TestResult>, nested: seq<Option<Report>>, repr: seq<string> -> string)
    requires |results| == |nested|
    requires forall i :: 0 <= i < |nested| && nested[i].Some? ==> Consistent(nested[i].value)
    ensures Consistent(MergeAll(Empty, results, nested, repr))
  {
    MergeAllKeepsConsistent(Empty, results, nested, repr);
  }
}
