/** Provider certification of infra/provider_certification.py: matching collected
    test outcomes to provider checks, and building the report. */
module ProviderCertification {
  import opened Text
  import opened Json

  datatype Outcome = Passed | Failed | Skipped | Missing

  datatype ProviderCheck = ProviderCheck(
    name: string,
    tests: seq<string>,
    requiredEnv: seq<string>,
    optionalEnv: seq<string>,
    requiredPackages: seq<string>,
    testPath: string)

  datatype CheckResult = CheckResult(check: ProviderCheck, outcome: Outcome, details: seq<string>)

  /** The outcome of one collected test, as the dictionary lists them. */
  datatype Collected = Collected(nodeid: string, outcome: Outcome)

  // ------------------------------------------------------ node identifiers

  /** `s.split(sep, 1)[0]`. */
  function Before(s: string, sep: string): string {
    if s == "" || sep <= s then "" else [s[0]] + Before(s[1..], sep)
  }

  /** `s.rsplit(sep, 1)[-1]`, looking for `sep` at `i` and to the left of it. */
  function AfterLastFrom(s: string, sep: string, i: int): string
    requires i <= |s| - |sep|
    decreases i
  {
    if i < 0 then s
    else if s[i..i + |sep|] == sep then s[i + |sep|..]
    else AfterLastFrom(s, sep, i - 1)
  }

  function AfterLast(s: string, sep: string): string {
    AfterLastFrom(s, sep, |s| - |sep|)
  }

  /** The test function a node id names, without the parameters of a parametrised test. */
  function BaseName(nodeid: string): string {
    Before(AfterLast(nodeid, "::"), "[")
  }

  predicate NodeidMatchesTest(nodeid: string, test: string) {
    BaseName(nodeid) == test
  }

  /** `sep` first occurs in `path + sep` after the whole of `path`. */
  predicate Plain(path: string, sep: string) {
    forall i :: 0 <= i < |path| ==> !(sep <= (path + sep)[i..])
  }

  lemma {:induction false} BeforeAbsent(s: string, sep: string)
    requires forall i :: 0 <= i < |s| ==> !(sep <= s[i..])
    ensures Before(s, sep) == s
  {
    if s != "" {
      assert s[0..] == s;
      forall i | 0 <= i < |s[1..]| ensures !(sep <= s[1..][i..]) {
        assert s[1..][i..] == s[i + 1..];
      }
      BeforeAbsent(s[1..], sep);
    }
  }

  lemma {:induction false} BeforeFirst(path: string, sep: string, rest: string)
    requires sep != "" && Plain(path, sep)
    ensures Before(path + (sep + rest), sep) == path
    decreases |path|
  {
    var s := path + (sep + rest);
    if path == "" {
      assert s == sep + rest && sep <= s;
    } else {
      assert (path + sep)[0..] == path + sep && s == (path + sep) + rest;
      assert s[..|sep|] == (path + sep)[..|sep|];
      forall i | 0 <= i < |path[1..]| ensures !(sep <= (path[1..] + sep)[i..]) {
        assert (path[1..] + sep)[i..] == (path + sep)[i + 1..];
      }
      assert s[1..] == path[1..] + (sep + rest);
      BeforeFirst(path[1..], sep, rest);
    }
  }

  /** No "::" begins in `:name` before its end, so the last one of `path::name` is there. */
  predicate Unbroken(name: string) {
    forall i :: 0 <= i < |name| ==> !("::" <= (":" + name)[i..])
  }

  lemma {:induction false} LastSeparator(path: string, name: string, i: int)
    requires Unbroken(name) && |path| <= i <= |path| + |name|
    ensures AfterLastFrom(path + ("::" + name), "::", i) == name
    decreases i
  {
    hide Unbroken;
    if i > |path| {
      NotThere(path, name, i);
      LastSeparator(path, name, i - 1);
    } else {
      assert (path + ("::" + name))[i..i + 2] == "::" && (path + ("::" + name))[i + 2..] == name;
    }
  }

  lemma NotThere(path: string, name: string, i: int)
    requires Unbroken(name) && |path| < i <= |path| + |name|
    ensures (path + ("::" + name))[i..i + 2] != "::"
  {
    var s, t, k := path + ("::" + name), ":" + name, i - |path| - 1;
    assert !("::" <= t[k..]);
    assert s[i] == t[k] && s[i + 1] == t[k + 1];
    assert s[i..i + 2] == [t[k], t[k + 1]] && t[k..][..2] == [t[k], t[k + 1]];
  }

  lemma AfterLastIs(path: string, name: string)
    requires Unbroken(name)
    ensures AfterLast(path + ("::" + name), "::") == name
  {
    LastSeparator(path, name, |path| + |name|);
  }

  lemma {:induction false} PlainWithout(name: string)
    requires '[' !in name
    ensures Plain(name, "[")
  {
    forall i | 0 <= i < |name| ensures !("[" <= (name + "[")[i..]) {
      assert (name + "[")[i..][0] == name[i];
    }
  }

  /** What pytest's node ids name: the test after the last "::", without the parameters of
      a parametrised test. */
  lemma BaseNameIs(path: string, name: string, parameters: string)
    requires '[' !in name
    ensures Unbroken(name) ==> BaseName(path + ("::" + name)) == name
    ensures Unbroken(name + ("[" + parameters)) ==> BaseName(path + ("::" + (name + ("[" + parameters)))) == name
  {
    PlainWithout(name);
    BeforeFirst(name, "[", parameters);
    forall i | 0 <= i < |name| ensures !("[" <= name[i..]) {
      assert name[i..][0] == name[i];
    }
    BeforeAbsent(name, "[");
    if Unbroken(name) {
      AfterLastIs(path, name);
    }
    if Unbroken(name + ("[" + parameters)) {
      AfterLastIs(path, name + ("[" + parameters));
    }
  }

  /** A "::" inside the parameters is taken for the separator, and the test is not found. */
  lemma ParametersMayHideTheName(path: string, name: string, x: string, y: string)
    requires Unbroken(y) && '[' !in y
    ensures BaseName(path + ("::" + (name + ("[" + (x + ("::" + y)))))) == y
  {
    var whole := path + ("::" + (name + ("[" + (x + ("::" + y)))));
    assert whole == (path + ("::" + (name + ("[" + x)))) + ("::" + y);
    BaseNameIs(path + ("::" + (name + ("[" + x))), y, "");
  }

  // ------------------------------------------------------------ evaluation

  /** The tests of `check` that a collected item is taken for, in the check's order. */
  function MatchesOf(c: Collected, tests: seq<string>): seq<(string, Collected)> {
    if tests == [] then []
    else (if NodeidMatchesTest(c.nodeid, tests[0]) then [(tests[0], c)] else []) + MatchesOf(c, tests[1..])
  }

  function Matched(check: ProviderCheck, outcomes: seq<Collected>): seq<(string, Collected)> {
    if outcomes == [] then [] else MatchesOf(outcomes[0], check.tests) + Matched(check, outcomes[1..])
  }

  function WithOutcome(matched: seq<(string, Collected)>, outcome: Outcome): seq<(string, Collected)> {
    if matched == [] then []
    else (if matched[0].1.outcome == outcome then [matched[0]] else []) + WithOutcome(matched[1..], outcome)
  }

  function DetailWithReason(nodeid: string, reasons: map<string, string>): string {
    if nodeid in reasons && reasons[nodeid] != "" then nodeid + ": " + reasons[nodeid] else nodeid
  }

  function Details(matched: seq<(string, Collected)>, reasons: map<string, string>): seq<string> {
    seq(|matched|, i requires 0 <= i < |matched| => DetailWithReason(matched[i].1.nodeid, reasons))
  }

  function Nodeids(matched: seq<(string, Collected)>): seq<string> {
    seq(|matched|, i requires 0 <= i < |matched| => matched[i].1.nodeid)
  }

  function TestNames(matched: seq<(string, Collected)>): set<string> {
    set m | m in matched :: m.0
  }

  function EvaluateProviderCheck(check: ProviderCheck, outcomes: seq<Collected>, reasons: map<string, string>)
    : (r: CheckResult)
    ensures r.check == check
  {
    var matched := Matched(check, outcomes);
    var passed := WithOutcome(matched, Passed);
    if matched == [] then CheckResult(check, Missing, ["no matching test result was collected"])
    else if WithOutcome(matched, Failed) != [] then
      CheckResult(check, Failed, Details(WithOutcome(matched, Failed), reasons))
    else if WithOutcome(matched, Skipped) != [] then
      CheckResult(check, Skipped, Details(WithOutcome(matched, Skipped), reasons))
    else if (set t | t in check.tests) <= TestNames(passed) then CheckResult(check, Passed, Nodeids(passed))
    else CheckResult(check, Missing, ["not every required test produced a result"])
  }

  function EvaluateProviderCertification(outcomes: seq<Collected>, checks: seq<ProviderCheck>,
                                         reasons: map<string, string>)
    : (results: seq<CheckResult>)
    ensures |results| == |checks|
    ensures forall i :: 0 <= i < |checks| ==> results[i] == EvaluateProviderCheck(checks[i], outcomes, reasons)
  {
    seq(|checks|, i requires 0 <= i < |checks| => EvaluateProviderCheck(checks[i], outcomes, reasons))
  }

  lemma {:induction false} MatchesAre(c: Collected, tests: seq<string>)
    ensures forall m :: m in MatchesOf(c, tests) <==> m.1 == c && m.0 in tests && BaseName(c.nodeid) == m.0
  {
    if tests != [] {
      MatchesAre(c, tests[1..]);
    }
  }

  lemma {:induction false} MatchedAre(check: ProviderCheck, outcomes: seq<Collected>)
    ensures forall m :: m in Matched(check, outcomes) <==>
      m.1 in outcomes && m.0 in check.tests && BaseName(m.1.nodeid) == m.0
  {
    if outcomes != [] {
      MatchesAre(outcomes[0], check.tests);
      MatchedAre(check, outcomes[1..]);
    }
  }

  lemma {:induction false} WithOutcomeAre(matched: seq<(string, Collected)>, outcome: Outcome)
    ensures forall m :: m in WithOutcome(matched, outcome) <==> m in matched && m.1.outcome == outcome
  {
    if matched != [] {
      WithOutcomeAre(matched[1..], outcome);
    }
  }

  /** The node ids of the passing tests that a passing check rests on. */
  ghost predicate PassedFor(check: ProviderCheck, outcomes: seq<Collected>, nodeid: string) {
    Collected(nodeid, Passed) in outcomes && BaseName(nodeid) in check.tests
  }

  /** A check (it has at least one test) passes exactly when no test of its name failed
      or was skipped and each of its tests passed somewhere. */
  lemma PassedOutcome(check: ProviderCheck, outcomes: seq<Collected>, reasons: map<string, string>)
    requires check.tests != []
    ensures var r := EvaluateProviderCheck(check, outcomes, reasons);
            r.outcome == Passed <==>
              && (forall c :: c in outcomes && BaseName(c.nodeid) in check.tests ==>
                   !c.outcome.Failed? && !c.outcome.Skipped?)
              && (forall t :: t in check.tests ==>
                   exists c :: c in outcomes && c.outcome.Passed? && BaseName(c.nodeid) == t)
  {
    hide BaseName, Matched, WithOutcome;
    var matched := Matched(check, outcomes);
    var failed, skipped := WithOutcome(matched, Failed), WithOutcome(matched, Skipped);
    var passed := WithOutcome(matched, Passed);
    MatchedAre(check, outcomes);
    WithOutcomeAre(matched, Failed);
    WithOutcomeAre(matched, Skipped);
    WithOutcomeAre(matched, Passed);
    assert failed != [] ==> failed[0] in failed;
    assert skipped != [] ==> skipped[0] in skipped;
    forall c | c in outcomes && BaseName(c.nodeid) in check.tests
      ensures (c.outcome.Failed? ==> failed != []) && (c.outcome.Skipped? ==> skipped != [])
    {
      assert (BaseName(c.nodeid), c) in matched;
    }
    forall t | t in check.tests
      ensures t in TestNames(passed) <==> exists c :: c in outcomes && c.outcome.Passed? && BaseName(c.nodeid) == t
    {
      if c :| c in outcomes && c.outcome.Passed? && BaseName(c.nodeid) == t {
        assert (t, c) in passed;
      }
    }
    assert check.tests[0] in check.tests;
  }

  /** Some collected item named like a test of `check` has `outcome`. */
  predicate SomeConcerned(check: ProviderCheck, outcomes: seq<Collected>, outcome: Outcome) {
    exists c :: c in outcomes && c.outcome == outcome && BaseName(c.nodeid) in check.tests
  }

  /** `d` is the node id, followed by its reason if one is known. */
  predicate TellsNode(d: string, nodeid: string, reasons: map<string, string>) {
    if nodeid in reasons && reasons[nodeid] != "" then d == nodeid + ": " + reasons[nodeid] else d == nodeid
  }

  /** `d` tells of such an item, with its reason if one is known. */
  ghost predicate TellsOf(check: ProviderCheck, outcomes: seq<Collected>, outcome: Outcome,
                          reasons: map<string, string>, d: string)
  {
    exists c :: c in outcomes && c.outcome == outcome && BaseName(c.nodeid) in check.tests
                && TellsNode(d, c.nodeid, reasons)
  }

  /** A failure outweighs everything and a skip all but a failure; the details tell of
      exactly the items that failed, or that were skipped. */
  lemma WorstOutcome(check: ProviderCheck, outcomes: seq<Collected>, reasons: map<string, string>)
    ensures var r := EvaluateProviderCheck(check, outcomes, reasons);
            && (r.outcome == Failed <==> SomeConcerned(check, outcomes, Failed))
            && (r.outcome == Skipped
                <==> !SomeConcerned(check, outcomes, Failed) && SomeConcerned(check, outcomes, Skipped))
            && (r.outcome == Failed || r.outcome == Skipped ==>
                 forall d :: d in r.details <==> TellsOf(check, outcomes, r.outcome, reasons, d))
  {
    hide BaseName, Matched, WithOutcome, Details, SomeConcerned, TellsOf;
    DetailsTell(check, outcomes, reasons, Failed);
    DetailsTell(check, outcomes, reasons, Skipped);
    assert Matched(check, outcomes) == [] ==> WithOutcome(Matched(check, outcomes), Failed) == []
                                              && WithOutcome(Matched(check, outcomes), Skipped) == [] by {
      NoneMatched(Failed);
      NoneMatched(Skipped);
    }
  }

  lemma NoneMatched(outcome: Outcome)
    ensures WithOutcome([], outcome) == []
  {
  }

  lemma DetailTells(reasons: map<string, string>)
    ensures forall d, nodeid :: TellsNode(d, nodeid, reasons) <==> d == DetailWithReason(nodeid, reasons)
  {
  }

  lemma DetailsTell(check: ProviderCheck, outcomes: seq<Collected>, reasons: map<string, string>, outcome: Outcome)
    ensures var found := WithOutcome(Matched(check, outcomes), outcome);
            && (found != [] <==> SomeConcerned(check, outcomes, outcome))
            && forall d :: d in Details(found, reasons) <==> TellsOf(check, outcomes, outcome, reasons, d)
  {
    hide BaseName, Matched, WithOutcome, DetailWithReason, TellsNode;
    DetailTells(reasons);
    var found := WithOutcome(Matched(check, outcomes), outcome);
    MatchedAre(check, outcomes);
    WithOutcomeAre(Matched(check, outcomes), outcome);
    if found != [] {
      assert found[0] in found;
    }
    forall c | c in outcomes && c.outcome == outcome && BaseName(c.nodeid) in check.tests
      ensures DetailWithReason(c.nodeid, reasons) in Details(found, reasons)
    {
      assert (BaseName(c.nodeid), c) in found;
      var i :| 0 <= i < |found| && found[i] == (BaseName(c.nodeid), c);
      assert Details(found, reasons)[i] == DetailWithReason(c.nodeid, reasons);
    }
    forall d | d in Details(found, reasons) ensures TellsOf(check, outcomes, outcome, reasons, d) {
      var i :| 0 <= i < |found| && Details(found, reasons)[i] == d;
      assert found[i] in found;
    }
  }

  /** The details of a passing check are exactly the node ids of its passing tests. */
  lemma PassedDetails(check: ProviderCheck, outcomes: seq<Collected>, reasons: map<string, string>)
    ensures var r := EvaluateProviderCheck(check, outcomes, reasons);
            r.outcome == Passed ==> forall d :: d in r.details <==> PassedFor(check, outcomes, d)
  {
    hide BaseName, Matched, WithOutcome;
    var matched := Matched(check, outcomes);
    var passed := WithOutcome(matched, Passed);
    MatchedAre(check, outcomes);
    WithOutcomeAre(matched, Passed);
    forall d ensures d in Nodeids(passed) <==> PassedFor(check, outcomes, d) {
      if PassedFor(check, outcomes, d) {
        var m := (BaseName(d), Collected(d, Passed));
        assert m in passed;
        var i :| 0 <= i < |passed| && passed[i] == m;
        assert Nodeids(passed)[i] == d;
      }
      if d in Nodeids(passed) {
        var i :| 0 <= i < |passed| && Nodeids(passed)[i] == d;
        assert passed[i] in passed;
      }
    }
  }

  /** What is said where something is missing: either nothing concerned the check at all,
      or some required test did not pass. */
  lemma MissingDetails(check: ProviderCheck, outcomes: seq<Collected>, reasons: map<string, string>)
    ensures var r := EvaluateProviderCheck(check, outcomes, reasons);
            && ((forall c :: c in outcomes ==> BaseName(c.nodeid) !in check.tests) ==>
                  r == CheckResult(check, Missing, ["no matching test result was collected"]))
            && (r.outcome == Missing && (exists c :: c in outcomes && BaseName(c.nodeid) in check.tests) ==>
                  r.details == ["not every required test produced a result"])
  {
    hide BaseName, Matched, WithOutcome;
    var matched := Matched(check, outcomes);
    MatchedAre(check, outcomes);
    assert matched != [] ==> matched[0] in matched;
    forall c | c in outcomes && BaseName(c.nodeid) in check.tests ensures (BaseName(c.nodeid), c) in matched {
    }
  }

  // ---------------------------------------------------------------- report

  function OutcomeText(o: Outcome): string {
    match o
    case Passed => "passed"
    case Failed => "failed"
    case Skipped => "skipped"
    case Missing => "missing"
  }

  function CountOf(results: seq<CheckResult>, o: Outcome): nat {
    if results == [] then 0 else (if results[0].outcome == o then 1 else 0) + CountOf(results[1..], o)
  }

  function Number(n: int): Json {
    Num(n as real)
  }

  function Unset(names: seq<string>, environ: map<string, string>): seq<string> {
    if names == [] then []
    else (if names[0] in environ && environ[names[0]] != "" then [] else [names[0]]) + Unset(names[1..], environ)
  }

  function Unavailable(names: seq<string>, available: string -> bool): seq<string> {
    if names == [] then []
    else (if available(names[0]) then [] else [names[0]]) + Unavailable(names[1..], available)
  }

  /** The variables that are missing are those required and absent or empty. */
  lemma {:induction false} UnsetHolds(names: seq<string>, environ: map<string, string>)
    ensures forall n :: n in Unset(names, environ) <==> n in names && (n !in environ || environ[n] == "")
    ensures Unset(names, environ) == [] <==> forall n :: n in names ==> n in environ && environ[n] != ""
  {
    if names != [] {
      UnsetHolds(names[1..], environ);
      assert forall n :: n in names <==> n == names[0] || n in names[1..];
    }
  }

  /** The packages that are missing are those required and not available. */
  lemma {:induction false} UnavailableHolds(names: seq<string>, available: string -> bool)
    ensures forall n :: n in Unavailable(names, available) <==> n in names && !available(n)
    ensures Unavailable(names, available) == [] <==> forall n :: n in names ==> available(n)
  {
    if names != [] {
      UnavailableHolds(names[1..], available);
      assert forall n :: n in names <==> n == names[0] || n in names[1..];
    }
  }

  function RequirementsReport(c: ProviderCheck, environ: map<string, string>, available: string -> bool): Object {
    map["required_env" := Strings(c.requiredEnv),
        "optional_env" := Strings(c.optionalEnv),
        "required_packages" := Strings(c.requiredPackages),
        "missing_required_env" := Strings(Unset(c.requiredEnv, environ)),
        "missing_required_packages" := Strings(Unavailable(c.requiredPackages, available))]
  }

  function ReportItem(r: CheckResult, environ: map<string, string>, available: string -> bool): Object {
    map["name" := Str(r.check.name),
        "outcome" := Str(OutcomeText(r.outcome)),
        "test_path" := Str(r.check.testPath),
        "tests" := Strings(r.check.tests),
        "details" := Strings(r.details),
        "requirements" := Obj(RequirementsReport(r.check, environ, available))]
  }

  function ReportItems(results: seq<CheckResult>, environ: map<string, string>, available: string -> bool): seq<Json> {
    seq(|results|, i requires 0 <= i < |results| => Obj(ReportItem(results[i], environ, available)))
  }

  predicate RequirementsSatisfied(results: seq<CheckResult>, environ: map<string, string>, available: string -> bool) {
    forall i :: 0 <= i < |results| ==>
      && Unset(results[i].check.requiredEnv, environ) == []
      && Unavailable(results[i].check.requiredPackages, available) == []
  }

  /** `dict.fromkeys(...)`: each value once, where it first occurs. */
  function Unique(values: seq<string>): seq<string> {
    if values == [] then []
    else
      var rest, last := Unique(values[..|values| - 1]), values[|values| - 1];
      if last in rest then rest else rest + [last]
  }

  function TestPaths(results: seq<CheckResult>): seq<string> {
    Unique(seq(|results|, i requires 0 <= i < |results| => results[i].check.testPath))
  }

  function Names(results: seq<CheckResult>): seq<string> {
    seq(|results|, i requires 0 <= i < |results| => results[i].check.name)
  }

  predicate Certified(results: seq<CheckResult>, environ: map<string, string>, available: string -> bool,
                      exitCode: Option<int>)
  {
    && CountOf(results, Passed) == |results|
    && RequirementsSatisfied(results, environ, available)
    && (exitCode == None || exitCode == Some(0))
  }

  function Summary(results: seq<CheckResult>): Object {
    map[
      "total" := Number(|results|),
      "passed" := Number(CountOf(results, Passed)),
      "failed" := Number(CountOf(results, Failed)),
      "skipped" := Number(CountOf(results, Skipped)),
      "missing" := Number(CountOf(results, Missing))]
  }

  function WithExitCode(report: Object, exitCode: Option<int>): Object {
    match exitCode
    case None => report
    case Some(code) => report["pytest_exit_code" := Number(code)]["pytest_success" := Bool(code == 0)]
  }

  /** Overrides that are absent or empty leave the values computed from the results. */
  function BuildReport(results: seq<CheckResult>, testPath: Option<string>, testPaths: seq<string>,
                       selected: seq<string>, generatedAt: string, environ: map<string, string>,
                       available: string -> bool, exitCode: Option<int>): Object
  {
    var paths := if testPaths != [] then testPaths else TestPaths(results);
    var path := if testPath.Some? && testPath.value != "" then Str(testPath.value)
                else if |paths| == 1 then Str(paths[0]) else Null;
    var report := map[
      "certified" := Bool(Certified(results, environ, available, exitCode)),
      "generated_at" := Str(generatedAt),
      "test_path" := path,
      "test_paths" := Strings(paths),
      "selected_providers" := Strings(if selected != [] then selected else Names(results)),
      "summary" := Obj(Summary(results)),
      "providers" := List(ReportItems(results, environ, available))];
    WithExitCode(report, exitCode)
  }

  lemma {:induction false} UniqueHolds(values: seq<string>)
    ensures forall v :: v in Unique(values) <==> v in values
    ensures forall i, j :: 0 <= i < j < |Unique(values)| ==> Unique(values)[i] != Unique(values)[j]
  {
    if values != [] {
      UniqueHolds(values[..|values| - 1]);
      assert values == values[..|values| - 1] + [values[|values| - 1]];
    }
  }

  /** `v` occurs, and `w` not yet. */
  ghost predicate ComesFirst(values: seq<string>, v: string, w: string) {
    exists p :: 0 <= p < |values| && values[p] == v && w !in values[..p + 1]
  }

  /** They are in the order in which they first occur. */
  lemma {:induction false} UniqueInOrder(values: seq<string>)
    ensures forall i, j :: 0 <= i < j < |Unique(values)| ==> ComesFirst(values, Unique(values)[i], Unique(values)[j])
  {
    if values != [] {
      var front := values[..|values| - 1];
      UniqueInOrder(front);
      UniqueHolds(front);
      forall i, j | 0 <= i < j < |Unique(values)|
        ensures ComesFirst(values, Unique(values)[i], Unique(values)[j])
      {
        var v, w := Unique(values)[i], Unique(values)[j];
        if j < |Unique(front)| {
          var p :| 0 <= p < |front| && front[p] == v && w !in front[..p + 1];
          assert values[..p + 1] == front[..p + 1] && values[p] == v;
        } else {
          assert v in Unique(front) && w !in Unique(front);
          var p :| 0 <= p < |front| && front[p] == v;
          assert forall x :: x in values[..p + 1] ==> x in front;
          assert values[p] == v;
        }
      }
    }
  }

  /** Counting adds up over parts, and counts a single result for its outcome alone. */
  lemma {:induction false} CountsAdd(a: seq<CheckResult>, b: seq<CheckResult>, o: Outcome)
    ensures CountOf(a + b, o) == CountOf(a, o) + CountOf(b, o)
    ensures |a| == 1 ==> CountOf(a, o) == if a[0].outcome == o then 1 else 0
  {
    if a == [] {
      assert a + b == b;
    } else {
      assert (a + b)[1..] == a[1..] + b;
      CountsAdd(a[1..], b, o);
    }
  }

  lemma {:induction false} AllPassedCounts(results: seq<CheckResult>)
    ensures CountOf(results, Passed) + CountOf(results, Failed)
          + CountOf(results, Skipped) + CountOf(results, Missing) == |results|
    ensures CountOf(results, Passed) == |results| <==> forall i :: 0 <= i < |results| ==> results[i].outcome == Passed
  {
    if results != [] {
      AllPassedCounts(results[1..]);
      assert forall i :: 0 < i < |results| ==> results[i] == results[1..][i - 1];
      assert forall i :: 0 <= i < |results| - 1 ==> results[1..][i] == results[i + 1];
    }
  }
}
