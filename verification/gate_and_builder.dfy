/** The release gate of infra/release_check.py against the report builder of
    infra/provider_certification.py: exactly which built reports the gate accepts. */
module GateAndBuilder {
  import opened Sequences
  import opened Text
  import opened Json
  import opened ProviderCertification
  import opened ReleaseGate

  /** One certification run and the settings its report is built with. */
  datatype Certification = Certification(
    checks: seq<ProviderCheck>,
    outcomes: seq<Collected>,
    reasons: map<string, string>,
    testPath: Option<string>,
    testPaths: seq<string>,
    selected: seq<string>,
    generatedAt: string,
    environ: map<string, string>,
    available: string -> bool,
    exitCode: Option<int>)

  function Results(c: Certification): seq<CheckResult> {
    EvaluateProviderCertification(c.outcomes, c.checks, c.reasons)
  }

  function Report(c: Certification): Object {
    BuildReport(Results(c), c.testPath, c.testPaths, c.selected, c.generatedAt, c.environ, c.available, c.exitCode)
  }

  /** What the catalog validator guarantees of the checks: distinct names, at least one
      test each, and a test path. */
  ghost predicate FromCatalog(checks: seq<ProviderCheck>, catalog: Catalog) {
    && (forall i :: 0 <= i < |checks| ==> checks[i].name in catalog && catalog[checks[i].name] == checks[i])
    && (forall i, j :: 0 <= i < j < |checks| ==> checks[i].name != checks[j].name)
    && (forall i :: 0 <= i < |checks| ==> checks[i].tests != [] && checks[i].testPath != "")
  }

  function CheckNames(checks: seq<ProviderCheck>): set<string> {
    set c | c in checks :: c.name
  }

  /** The gate finds evidence for each required test of `check` at its declared path. */
  ghost predicate Located(check: ProviderCheck, outcomes: seq<Collected>) {
    forall t :: t in check.tests ==>
      exists d :: PassedFor(check, outcomes, d) && DetailMatchesTest(d, t, check.testPath)
  }

  /** An override of the test paths is not given, or lists every declared path. */
  ghost predicate PathsFit(c: Certification) {
    c.testPaths == [] ||
    (Distinct(c.testPaths) && "" !in c.testPaths && forall k :: k in c.checks ==> k.testPath in c.testPaths)
  }

  /** An override of the selection is not given, or lists exactly the checks that ran. */
  ghost predicate SelectionFits(c: Certification) {
    c.selected == [] || (Distinct(c.selected) && (set s | s in c.selected) == CheckNames(c.checks))
  }

  /** At most a day old, and at most five minutes ahead of the clock. */
  ghost predicate FreshAt(at: string, clock: Clock) {
    at != "" && clock.parse(at).Some? && -300.0 <= clock.now - clock.parse(at).value <= 86400.0
  }

  /** Nothing named like a test of the check failed or was skipped, and each of its tests
      passed somewhere. */
  ghost predicate RanWell(k: ProviderCheck, outcomes: seq<Collected>) {
    && (forall o :: o in outcomes && BaseName(o.nodeid) in k.tests ==> !o.outcome.Failed? && !o.outcome.Skipped?)
    && (forall t :: t in k.tests ==> exists o :: o in outcomes && o.outcome.Passed? && BaseName(o.nodeid) == t)
  }

  /** Its variables are set and its packages are available. */
  ghost predicate RequirementsMet(k: ProviderCheck, environ: map<string, string>, available: string -> bool) {
    && (forall n :: n in k.requiredEnv ==> n in environ && environ[n] != "")
    && (forall n :: n in k.requiredPackages ==> available(n))
  }

  /** All checks ran well, with all they require, in a test run that succeeded. */
  ghost predicate RunSucceeded(c: Certification) {
    && (forall k :: k in c.checks ==> RanWell(k, c.outcomes) && RequirementsMet(k, c.environ, c.available))
    && (c.exitCode.Some? ==> c.exitCode.value == 0)
  }

  /** What a caller can check before handing a built report to the gate. */
  ghost predicate Acceptable(c: Certification, expected: set<string>, clock: Clock) {
    && c.checks != [] && RunSucceeded(c)
    && FreshAt(c.generatedAt, clock)
    && PathsFit(c) && SelectionFits(c)
    && (forall p :: p in expected ==> exists k :: k in c.checks && k.name == p)
    && forall k :: k in c.checks && (expected == {} || k.name in expected) ==> Located(k, c.outcomes)
  }

  /** The report says that the run is certified exactly when it succeeded. */
  lemma CertifiedMeans(c: Certification)
    requires forall k :: k in c.checks ==> k.tests != []
    ensures Certified(Results(c), c.environ, c.available, c.exitCode) <==> RunSucceeded(c)
  {
    hide EvaluateProviderCheck, RanWell, CountOf, Unset, Unavailable;
    var results := Results(c);
    AllPassedCounts(results);
    forall i | 0 <= i < |results|
      ensures results[i].outcome == Passed <==> RanWell(c.checks[i], c.outcomes)
      ensures Unset(results[i].check.requiredEnv, c.environ) == []
           && Unavailable(results[i].check.requiredPackages, c.available) == []
        <==> RequirementsMet(c.checks[i], c.environ, c.available)
    {
      assert c.checks[i] in c.checks;
      RanWellMeans(c.checks[i], c.outcomes, c.reasons);
      UnsetHolds(c.checks[i].requiredEnv, c.environ);
      UnavailableHolds(c.checks[i].requiredPackages, c.available);
    }
  }

  lemma RanWellMeans(k: ProviderCheck, outcomes: seq<Collected>, reasons: map<string, string>)
    requires k.tests != []
    ensures EvaluateProviderCheck(k, outcomes, reasons).outcome == Passed <==> RanWell(k, outcomes)
  {
    hide EvaluateProviderCheck, BaseName;
    PassedOutcome(k, outcomes, reasons);
  }

  // --------------------------------------------------- reading the report

  lemma ReportFields(c: Certification)
    ensures var r := Report(c);
            var paths := if c.testPaths != [] then c.testPaths else TestPaths(Results(c));
            && Get(r, "certified") == Bool(Certified(Results(c), c.environ, c.available, c.exitCode))
            && Get(r, "generated_at") == Str(c.generatedAt)
            && Get(r, "test_paths") == Strings(paths)
            && Get(r, "selected_providers") == Strings(if c.selected != [] then c.selected else Names(Results(c)))
            && Get(r, "providers") == List(ReportItems(Results(c), c.environ, c.available))
            && Get(r, "summary") == Obj(Summary(Results(c)))
  {
    hide Report, Certified, TestPaths, Names, ReportItems, Strings, Summary;
    ReportHeadFields(c);
    ReportBodyFields(c);
  }

  lemma ReportHeadFields(c: Certification)
    ensures var r := Report(c);
            && Get(r, "certified") == Bool(Certified(Results(c), c.environ, c.available, c.exitCode))
            && Get(r, "generated_at") == Str(c.generatedAt)
            && Get(r, "test_paths") == Strings(if c.testPaths != [] then c.testPaths else TestPaths(Results(c)))
  {
    hide Certified, TestPaths, Names, ReportItems, Strings, EvaluateProviderCertification, Summary, WithExitCode;
    ExitCodeAddsOnly(c.exitCode);
  }

  lemma ReportBodyFields(c: Certification)
    ensures var r := Report(c);
            && Get(r, "selected_providers") == Strings(if c.selected != [] then c.selected else Names(Results(c)))
            && Get(r, "providers") == List(ReportItems(Results(c), c.environ, c.available))
            && Get(r, "summary") == Obj(Summary(Results(c)))
  {
    hide Certified, TestPaths, Names, ReportItems, Strings, EvaluateProviderCertification, Summary, WithExitCode;
    ExitCodeAddsOnly(c.exitCode);
  }

  /** The exit code is added under names of its own. */
  lemma ExitCodeAddsOnly(exitCode: Option<int>)
    ensures forall report, key :: key !in {"pytest_exit_code", "pytest_success"} ==>
              Get(WithExitCode(report, exitCode), key) == Get(report, key)
  {
  }

  lemma SummaryFields(results: seq<CheckResult>)
    ensures var s := Summary(results);
            && Get(s, "total") == Number(|results|)
            && Get(s, "passed") == Number(CountOf(results, Passed))
            && Get(s, "failed") == Number(CountOf(results, Failed))
            && Get(s, "skipped") == Number(CountOf(results, Skipped))
            && Get(s, "missing") == Number(CountOf(results, Missing))
  {
    hide CountOf;
  }

  lemma ItemFields(r: CheckResult, environ: map<string, string>, available: string -> bool)
    ensures var item := ReportItem(r, environ, available);
            && Get(item, "name") == Str(r.check.name)
            && Get(item, "outcome") == Str(OutcomeText(r.outcome))
            && Get(item, "tests") == Strings(r.check.tests)
            && Get(item, "details") == Strings(r.details)
            && Get(item, "requirements") == Obj(RequirementsReport(r.check, environ, available))
    ensures WellFormedResult(Obj(ReportItem(r, environ, available)))
    ensures NameOf(Obj(ReportItem(r, environ, available))) == r.check.name
    ensures HasOutcome(Obj(ReportItem(r, environ, available)), "passed") <==> r.outcome == Passed
  {
    hide Strings, RequirementsReport;
  }

  lemma RequirementFields(k: ProviderCheck, environ: map<string, string>, available: string -> bool)
    ensures var q := RequirementsReport(k, environ, available);
            && Get(q, "required_env") == Strings(k.requiredEnv)
            && Get(q, "required_packages") == Strings(k.requiredPackages)
            && Get(q, "missing_required_env") == Strings(Unset(k.requiredEnv, environ))
            && Get(q, "missing_required_packages") == Strings(Unavailable(k.requiredPackages, available))
  {
    hide Strings, Unset, Unavailable;
  }

  lemma ListsAreComplete(values: seq<string>)
    ensures ContainsAll(Strings(values), values) && StringList(Strings(values))
    ensures Strings(values).items == [] <==> values == []
  {
    StringsAreTexts(values);
  }

  /** A reported result is vouched for exactly when its details locate every test and
      nothing it needs is missing. */
  lemma VouchedMeans(r: CheckResult, environ: map<string, string>, available: string -> bool)
    ensures Vouched(ReportItem(r, environ, available), r.check) <==>
      && (forall t :: t in r.check.tests ==> exists d :: d in r.details && DetailMatchesTest(d, t, r.check.testPath))
      && Unset(r.check.requiredEnv, environ) == [] && Unavailable(r.check.requiredPackages, available) == []
  {
    hide DetailMatchesTest, Strings, RequirementsReport, ReportItem, Unset, Unavailable;
    ItemFields(r, environ, available);
    RequirementFields(r.check, environ, available);
    ListsAreComplete(r.check.requiredEnv);
    ListsAreComplete(r.check.requiredPackages);
    ListsAreComplete(Unset(r.check.requiredEnv, environ));
    ListsAreComplete(Unavailable(r.check.requiredPackages, available));
    StringsAreTexts(r.check.tests);
    StringsAreTexts(r.details);
  }

  // -------------------------------------------------- part by part

  lemma OwnPaths(c: Certification, catalog: Catalog)
    requires FromCatalog(c.checks, catalog)
    ensures var paths := TestPaths(Results(c));
            Distinct(paths) && "" !in paths && forall k :: k in c.checks ==> k.testPath in paths
  {
    var results := Results(c);
    var own := seq(|results|, i requires 0 <= i < |results| => results[i].check.testPath);
    UniqueHolds(own);
    forall k | k in c.checks ensures k.testPath in own {
      var i :| 0 <= i < |c.checks| && c.checks[i] == k;
      assert own[i] == k.testPath;
    }
  }

  lemma CoveredMeans(checks: seq<ProviderCheck>, catalog: Catalog, paths: set<string>)
    requires FromCatalog(checks, catalog)
    ensures (forall p :: p in CheckNames(checks) && p in catalog ==> catalog[p].testPath in paths)
      <==> (forall k :: k in checks ==> k.testPath in paths)
  {
    forall k | k in checks ensures k.name in CheckNames(checks) && k.name in catalog && catalog[k.name] == k {
    }
  }

  lemma PathsMatch(c: Certification, catalog: Catalog)
    requires FromCatalog(c.checks, catalog)
    ensures PathsCovered(Report(c), catalog, CheckNames(c.checks)) <==> PathsFit(c)
  {
    hide Report, Strings, TestPaths, FromCatalog, CheckNames, Distinct, EvaluateProviderCertification;
    var paths := if c.testPaths != [] then c.testPaths else TestPaths(Results(c));
    ReportFields(c);
    OwnPaths(c, catalog);
    StringsAreTexts(paths);
    StringsDistinct(paths);
    CoveredMeans(c.checks, catalog, set p | p in paths);
  }

  lemma StringsDistinct(values: seq<string>)
    ensures Distinct(Strings(values).items) <==> Distinct(values)
    ensures Str("") in Strings(values).items <==> "" in values
  {
    var items := Strings(values).items;
    forall i | 0 <= i < |values| ensures items[i] == Str(values[i]) {
    }
    if "" in values {
      var i :| 0 <= i < |values| && values[i] == "";
      assert items[i] == Str("");
    }
  }

  lemma SelectionMatch(c: Certification, catalog: Catalog)
    requires FromCatalog(c.checks, catalog)
    ensures var selected := Get(Report(c), "selected_providers");
            && selected.List?
            && (SelectionIsKnown(selected, catalog) && Texts(selected.items) == CheckNames(c.checks)
                <==> SelectionFits(c))
  {
    hide Report, Strings;
    var results := Results(c);
    var names := if c.selected != [] then c.selected else Names(results);
    ReportFields(c);
    StringsAreTexts(names);
    StringsDistinct(names);
    OwnNames(c, catalog);
    forall p | p in CheckNames(c.checks) ensures p in catalog {
    }
  }

  lemma OwnNames(c: Certification, catalog: Catalog)
    requires FromCatalog(c.checks, catalog)
    ensures Distinct(Names(Results(c))) && (set n | n in Names(Results(c))) == CheckNames(c.checks)
  {
    var names := Names(Results(c));
    assert forall i :: 0 <= i < |names| ==> names[i] == c.checks[i].name;
    forall k | k in c.checks ensures k.name in names {
      var i :| 0 <= i < |c.checks| && c.checks[i] == k;
      assert names[i] == k.name;
    }
  }

  lemma ResultsMatch(c: Certification, catalog: Catalog)
    requires FromCatalog(c.checks, catalog)
    ensures ResultsAllPassed(Report(c), CheckNames(c.checks)) <==>
      c.checks != [] && CountOf(Results(c), Passed) == |Results(c)|
  {
    hide Report, ReportItem, CountOf, EvaluateProviderCheck, WellFormedResult, HasOutcome;
    var results, items := Results(c), ReportItems(Results(c), c.environ, c.available);
    ReportFields(c);
    SummaryFields(results);
    AllPassedCounts(results);
    forall i | 0 <= i < |items|
      ensures items[i] == Obj(ReportItem(results[i], c.environ, c.available))
      ensures WellFormedResult(items[i]) && NameOf(items[i]) == c.checks[i].name
      ensures HasOutcome(items[i], "passed") <==> results[i].outcome == Passed
    {
      ItemFields(results[i], c.environ, c.available);
    }
    ItemNames(items, c.checks);
    if forall j :: j in items ==> HasOutcome(j, "passed") {
      forall i | 0 <= i < |results| ensures results[i].outcome == Passed {
        assert items[i] in items;
      }
    }
  }

  lemma ItemNames(items: seq<Json>, checks: seq<ProviderCheck>)
    requires |items| == |checks| && forall j :: j in items ==> WellFormedResult(j)
    requires forall i :: 0 <= i < |items| ==> NameOf(items[i]) == checks[i].name
    requires forall i, j :: 0 <= i < j < |checks| ==> checks[i].name != checks[j].name
    ensures DistinctNames(items) && (set j | j in items :: NameOf(j)) == CheckNames(checks)
  {
    hide WellFormedResult;
    forall k | k in checks ensures k.name in set j | j in items :: NameOf(j) {
      var i :| 0 <= i < |checks| && checks[i] == k;
      assert items[i] in items && NameOf(items[i]) == k.name;
    }
  }

  /** The relevant results of a certified run are vouched for exactly when each relevant
      check's tests are located. */
  lemma VouchedMatch(c: Certification, catalog: Catalog, relevant: set<string>)
    requires FromCatalog(c.checks, catalog) && Certified(Results(c), c.environ, c.available, c.exitCode)
    ensures var items := ReportItems(Results(c), c.environ, c.available);
            && (forall j :: j in items ==> WellFormedResult(j) && NameOf(j) in catalog)
            && ((forall j :: j in items && NameOf(j) in relevant ==> Vouched(j.fields, catalog[NameOf(j)]))
                <==> (forall k :: k in c.checks && k.name in relevant ==> Located(k, c.outcomes)))
  {
    hide ReportItem, CountOf, EvaluateProviderCheck, WellFormedResult, Vouched, Located;
    var results, items := Results(c), ReportItems(Results(c), c.environ, c.available);
    AllPassedCounts(results);
    forall i | 0 <= i < |items|
      ensures items[i] == Obj(ReportItem(results[i], c.environ, c.available))
      ensures WellFormedResult(items[i]) && NameOf(items[i]) == c.checks[i].name
      ensures Vouched(items[i].fields, c.checks[i]) <==> Located(c.checks[i], c.outcomes)
    {
      ItemFields(results[i], c.environ, c.available);
      OneVouched(c, i);
    }
    if forall j :: j in items && NameOf(j) in relevant ==> Vouched(j.fields, catalog[NameOf(j)]) {
      forall k | k in c.checks && k.name in relevant ensures Located(k, c.outcomes) {
        var i :| 0 <= i < |c.checks| && c.checks[i] == k;
        assert items[i] in items;
      }
    }
  }

  lemma OneVouched(c: Certification, i: nat)
    requires i < |c.checks| && c.checks[i].tests != []
    requires Certified(Results(c), c.environ, c.available, c.exitCode)
    ensures Vouched(ReportItem(Results(c)[i], c.environ, c.available), c.checks[i])
      <==> Located(c.checks[i], c.outcomes)
  {
    hide DetailMatchesTest, ReportItem, Vouched, CountOf;
    var r := Results(c)[i];
    VouchedMeans(r, c.environ, c.available);
    AllPassedCounts(Results(c));
    PassedDetails(c.checks[i], c.outcomes, c.reasons);
  }

  /** The gate and the builder agree: a built report is accepted if and only if there are
      checks, all ran well with their variables set and packages available, the test run
      succeeded, the report is fresh and covers what is expected, any overrides fit, and
      each relevant test passed at its declared path. */
  lemma GateAcceptsBuilt(c: Certification, expected: set<string>, catalog: Catalog, clock: Clock)
    requires FromCatalog(c.checks, catalog)
    ensures Accepts(Report(c), expected, catalog, clock) <==> Acceptable(c, expected, clock)
  {
    hide Report, SelectionIsKnown, SelectionFits, PathsCovered, PathsFit, ResultsAllPassed, Vouched, Located,
         FromCatalog;
    hide EvaluateProviderCertification, ReportItems, RunSucceeded, Certified;
    ReportFields(c);
    ChecksHaveTests(c, catalog);
    CertifiedMeans(c);
    FreshMeans(Report(c), c.generatedAt, clock);
    SelectionMatch(c, catalog);
    PathsMatch(c, catalog);
    ResultsMatch(c, catalog);
    var selected := Texts(Get(Report(c), "selected_providers").items);
    if ResultsAllPassed(Report(c), selected) {
      SelectedAreResults(c, catalog, selected);
    }
    if selected == CheckNames(c.checks) && Certified(Results(c), c.environ, c.available, c.exitCode) {
      VouchedMatch(c, catalog, Relevant(expected, selected));
    }
  }

  lemma ChecksHaveTests(c: Certification, catalog: Catalog)
    requires FromCatalog(c.checks, catalog)
    ensures forall k :: k in c.checks ==> k.tests != []
    ensures Certified(Results(c), c.environ, c.available, c.exitCode) ==> CountOf(Results(c), Passed) == |Results(c)|
  {
    hide EvaluateProviderCertification;
  }

  lemma FreshMeans(report: Object, at: string, clock: Clock)
    requires Get(report, "generated_at") == Str(at)
    ensures Fresh(report, clock) <==> FreshAt(at, clock)
  {
  }

  /** Behind a built report that is accepted, every check had its variables set and its
      packages available, and nothing named like one of its tests failed. */
  lemma AcceptedBuiltIsMet(c: Certification, expected: set<string>, catalog: Catalog, clock: Clock, k: ProviderCheck)
    requires FromCatalog(c.checks, catalog) && Accepts(Report(c), expected, catalog, clock) && k in c.checks
    ensures forall n :: n in k.requiredEnv ==> n in c.environ && c.environ[n] != ""
    ensures forall n :: n in k.requiredPackages ==> c.available(n)
    ensures forall o :: o in c.outcomes && BaseName(o.nodeid) in k.tests ==> !o.outcome.Failed? && !o.outcome.Skipped?
  {
    hide Accepts, Report, FromCatalog, BaseName;
    GateAcceptsBuilt(c, expected, catalog, clock);
  }

  /** What else a built report says: the one path there is, the exit code of the test run,
      and of every check its outcome, its path and the variables it can do without. */
  lemma ReportTells(c: Certification)
    ensures var r := Report(c);
            var paths := if c.testPaths != [] then c.testPaths else TestPaths(Results(c));
            && (c.testPath.Some? && c.testPath.value != "" ==> Get(r, "test_path") == Str(c.testPath.value))
            && (c.testPath == None || c.testPath == Some("") ==>
                  Get(r, "test_path") == if |paths| == 1 then Str(paths[0]) else Null)
            && (c.exitCode == None ==> "pytest_exit_code" !in r && "pytest_success" !in r)
            && (c.exitCode.Some? ==>
                  Get(r, "pytest_exit_code") == Num(c.exitCode.value as real)
                  && Get(r, "pytest_success") == Bool(c.exitCode.value == 0))
  {
    hide Certified, TestPaths, Names, ReportItems, Strings, EvaluateProviderCertification, Summary;
  }

  lemma ItemTells(k: CheckResult, environ: map<string, string>, available: string -> bool)
    ensures var item := ReportItem(k, environ, available);
            && Get(item, "test_path") == Str(k.check.testPath)
            && (k.outcome == Passed ==> Get(item, "outcome") == Str("passed"))
            && (k.outcome == Failed ==> Get(item, "outcome") == Str("failed"))
            && (k.outcome == Skipped ==> Get(item, "outcome") == Str("skipped"))
            && (k.outcome == Missing ==> Get(item, "outcome") == Str("missing"))
    ensures Get(RequirementsReport(k.check, environ, available), "optional_env") == Strings(k.check.optionalEnv)
  {
    hide Strings, Unset, Unavailable;
  }

  predicate Empty(environ: map<string, string>, name: string) {
    name !in environ || environ[name] == ""
  }

  /** What a built report lists as missing is what the check requires and does not find. */
  lemma MissingIsListed(c: Certification, i: nat)
    requires i < |c.checks|
    ensures var item := ReportItems(Results(c), c.environ, c.available)[i];
            var q := Get(item.fields, "requirements");
            && item.Obj? && Get(item.fields, "name") == Str(c.checks[i].name) && q.Obj?
            && Get(q.fields, "missing_required_env").List? && Get(q.fields, "missing_required_packages").List?
            && (forall n :: Str(n) in Get(q.fields, "missing_required_env").items
                 <==> n in c.checks[i].requiredEnv && Empty(c.environ, n))
            && (forall n :: Str(n) in Get(q.fields, "missing_required_packages").items
                 <==> n in c.checks[i].requiredPackages && !c.available(n))
  {
    hide ReportItem, RequirementsReport, Unset, Unavailable, Strings, EvaluateProviderCheck;
    var k := c.checks[i];
    ItemFields(Results(c)[i], c.environ, c.available);
    RequirementFields(k, c.environ, c.available);
    UnsetHolds(k.requiredEnv, c.environ);
    UnavailableHolds(k.requiredPackages, c.available);
    ListedTexts(Unset(k.requiredEnv, c.environ));
    ListedTexts(Unavailable(k.requiredPackages, c.available));
  }

  lemma ListedTexts(values: seq<string>)
    ensures Strings(values).List? && forall n :: Str(n) in Strings(values).items <==> n in values
  {
    var items := Strings(values).items;
    forall n | n in values ensures Str(n) in items {
      var i :| 0 <= i < |values| && values[i] == n;
      assert items[i] == Str(n);
    }
  }

  /** Exactly which details the gate takes as evidence: the node id of the test in the file
      at the declared path, with parameters or without, and with a reason or without. */
  lemma DetailMatchesExactly(path: string, name: string, rest: string, reason: string, test: string, testPath: string)
    requires '[' !in name && Plain(path, "::") && (rest == "" || rest[0] == '[') && Unbroken(name + rest)
    requires Plain(path + ("::" + (name + rest)), ": ")
    ensures var nodeid := path + ("::" + (name + rest));
            && (DetailMatchesTest(nodeid, test, testPath) <==> path == testPath && name == test)
            && (DetailMatchesTest(nodeid + (": " + reason), test, testPath) <==> path == testPath && name == test)
  {
    hide BaseName, Before, Plain, Unbroken;
    var nodeid := path + ("::" + (name + rest));
    BeforeFirst(nodeid, ": ", reason);
    NeverOccurs(nodeid, ": ");
    BeforeAbsent(nodeid, ": ");
    BeforeFirst(path, "::", name + rest);
    if rest == "" {
      assert name + rest == name;
      BaseNameIs(path, name, "");
    } else {
      assert rest == "[" + rest[1..];
      BaseNameIs(path, name, rest[1..]);
    }
  }

  lemma NeverOccurs(s: string, sep: string)
    requires Plain(s, sep)
    ensures forall i :: 0 <= i < |s| ==> !(sep <= s[i..])
  {
    forall i | 0 <= i < |s| ensures !(sep <= s[i..]) {
      assert (s + sep)[i..] == s[i..] + sep;
    }
  }

  lemma SelectedAreResults(c: Certification, catalog: Catalog, selected: set<string>)
    requires FromCatalog(c.checks, catalog) && ResultsAllPassed(Report(c), selected)
    ensures selected == CheckNames(c.checks)
  {
    hide Report, ReportItem, EvaluateProviderCheck, WellFormedResult, HasOutcome, SummaryPassed;
    var results, items := Results(c), ReportItems(Results(c), c.environ, c.available);
    ReportFields(c);
    forall i | 0 <= i < |items| ensures WellFormedResult(items[i]) && NameOf(items[i]) == c.checks[i].name {
      ItemFields(results[i], c.environ, c.available);
    }
    ItemNames(items, c.checks);
  }

  // ----------------------------------------- where node ids usually point

  /** A node id as pytest writes it for a test of the file `path`. */
  ghost predicate WellPlaced(nodeid: string, path: string) {
    && (exists item :: nodeid == path + ("::" + item))
    && forall i :: 0 <= i < |nodeid| ==> !(": " <= nodeid[i..])
  }

  /** If the node ids a passing check rests on name its file and hold no ": ", its tests
      are located; so the gate's path test never rejects such a run. */
  lemma WellPlacedMeansLocated(check: ProviderCheck, outcomes: seq<Collected>, reasons: map<string, string>)
    requires check.tests != [] && EvaluateProviderCheck(check, outcomes, reasons).outcome == Passed
    requires Plain(check.testPath, "::")
    requires forall d :: PassedFor(check, outcomes, d) ==> WellPlaced(d, check.testPath)
    ensures Located(check, outcomes)
  {
    hide BaseName, EvaluateProviderCheck, Before;
    PassedOutcome(check, outcomes, reasons);
    forall t | t in check.tests
      ensures exists d :: PassedFor(check, outcomes, d) && DetailMatchesTest(d, t, check.testPath)
    {
      var c :| c in outcomes && c.outcome.Passed? && BaseName(c.nodeid) == t;
      assert c == Collected(c.nodeid, Passed);
      assert PassedFor(check, outcomes, c.nodeid);
      var item :| c.nodeid == check.testPath + ("::" + item);
      BeforeAbsent(c.nodeid, ": ");
      BeforeFirst(check.testPath, "::", item);
      assert DetailMatchesTest(c.nodeid, t, check.testPath);
    }
  }

  /** The promise to someone who runs the certification as intended: without overrides,
      a run that succeeded, fresh, not empty, covering what is expected and with node ids
      as pytest writes them, its report is accepted. */
  lemma IntendedRunIsAccepted(c: Certification, expected: set<string>, catalog: Catalog, clock: Clock)
    requires FromCatalog(c.checks, catalog) && c.checks != []
    requires c.testPaths == [] && c.selected == [] && RunSucceeded(c)
    requires FreshAt(c.generatedAt, clock)
    requires forall p :: p in expected ==> exists k :: k in c.checks && k.name == p
    requires forall k :: k in c.checks ==> Plain(k.testPath, "::")
    requires forall k, d :: k in c.checks && PassedFor(k, c.outcomes, d) ==> WellPlaced(d, k.testPath)
    ensures Accepts(Report(c), expected, catalog, clock)
  {
    hide Accepts, Report, FreshAt, EvaluateProviderCheck, Plain, WellPlaced, PassedFor, Located, RanWell,
         RequirementsMet;
    ChecksHaveTests(c, catalog);
    forall k | k in c.checks ensures Located(k, c.outcomes) {
      RanWellMeans(k, c.outcomes, c.reasons);
      WellPlacedMeansLocated(k, c.outcomes, c.reasons);
    }
    GateAcceptsBuilt(c, expected, catalog, clock);
  }
}
