/** The release gate of infra/release_check.py: `_check_provider_certification` and
    the checks it calls, re-examining a certification report that may come from
    anywhere.

    `Accepts` says outright what an accepted report contains; the methods are the
    program's checkers. The clock and the parsing of timestamps are parameters. */
module ReleaseGate {
  import opened Sequences
  import opened Text
  import opened Json
  import opened ProviderCertification

  datatype Code =
    | ReportRequired
    | NotPassed
    | Invalid
    | MissingProvider
    | Stale
    | ProviderTestsMissing
    | RequirementsIncomplete
    | RequirementsMissing

  /** The checks end at their first issue; comparing an unhashable outcome raises. */
  datatype Verdict = Clean | Reported(code: Code) | RaisesTypeError

  type Catalog = map<string, ProviderCheck>

  const MAX_AGE := 24.0 * 3600.0
  const MAX_CLOCK_SKEW := 5.0 * 60.0

  datatype Clock = Clock(now: real, parse: string -> Option<real>)

  // ------------------------------------------------- one provider's result

  /** `_provider_detail_matches_test`. */
  predicate DetailMatchesTest(detail: string, test: string, testPath: string) {
    var nodeid := Before(detail, ": ");
    Before(nodeid, "::") == testPath && BaseName(nodeid) == test
  }

  predicate HasEvidence(provider: Object, check: ProviderCheck) {
    var tests, details := Get(provider, "tests"), Get(provider, "details");
    && tests.List? && (forall t :: t in check.tests ==> t in Texts(tests.items))
    && details.List?
    && (forall t :: t in check.tests ==>
         exists d :: d in Texts(details.items) && DetailMatchesTest(d, t, check.testPath))
  }

  predicate ContainsAll(value: Json, wanted: seq<string>) {
    value.List? && forall w :: w in wanted ==> w in Texts(value.items)
  }

  predicate RequirementsComplete(provider: Object, check: ProviderCheck) {
    var requirements := Get(provider, "requirements");
    && requirements.Obj?
    && ContainsAll(Get(requirements.fields, "required_env"), check.requiredEnv)
    && ContainsAll(Get(requirements.fields, "required_packages"), check.requiredPackages)
  }

  predicate StringList(value: Json) {
    value.List? && forall j :: j in value.items ==> j.Str?
  }

  predicate HasUnmetRequirements(provider: Object) {
    var requirements := Get(provider, "requirements");
    if !requirements.Obj? then true
    else
      var env := Get(requirements.fields, "missing_required_env");
      var packages := Get(requirements.fields, "missing_required_packages");
      if !StringList(env) || !StringList(packages) then true else env.items != [] || packages.items != []
  }

  /** Passed, with evidence for every required test at its declared path, every
      requirement listed and none of them unmet. */
  predicate Vouched(provider: Object, check: ProviderCheck) {
    HasEvidence(provider, check) && RequirementsComplete(provider, check) && !HasUnmetRequirements(provider)
  }

  predicate WellFormedResult(j: Json) {
    j.Obj? && Get(j.fields, "name").Str?
    && Get(j.fields, "outcome") in {Str("passed"), Str("failed"), Str("skipped"), Str("missing")}
  }

  function NameOf(j: Json): string
    requires WellFormedResult(j)
  {
    Get(j.fields, "name").s
  }

  predicate HasOutcome(j: Json, outcome: string) {
    j.Obj? && Get(j.fields, "outcome") == Str(outcome)
  }

  // ------------------------------------------------ what acceptance means

  /** The value is the number `n`, as Python compares numbers. */
  predicate IsNumber(j: Json, n: int) {
    NumberOf(j) == Some(n as real)
  }

  predicate SelectionIsKnown(selected: Json, checks: Catalog) {
    StringList(selected) && Distinct(selected.items) && Texts(selected.items) <= checks.Keys
  }

  predicate Fresh(report: Object, clock: Clock) {
    var at := Get(report, "generated_at");
    && at.Str? && at.s != "" && clock.parse(at.s).Some?
    && -MAX_CLOCK_SKEW <= clock.now - clock.parse(at.s).value <= MAX_AGE
  }

  predicate TooOld(report: Object, clock: Clock) {
    var at := Get(report, "generated_at");
    at.Str? && at.s != "" && clock.parse(at.s).Some? && clock.now - clock.parse(at.s).value > MAX_AGE
  }

  /** The test files a report says it covers: `test_paths` if that is a list, which
      must then hold distinct non-empty strings, and otherwise `test_path`. */
  function ReportedPaths(report: Object): Option<set<string>> {
    var paths, path := Get(report, "test_paths"), Get(report, "test_path");
    if paths.List? then
      if StringList(paths) && Distinct(paths.items) && Str("") !in paths.items
      then Some(Texts(paths.items)) else None
    else if path.Str? && path.s != "" then Some({path.s})
    else None
  }

  predicate PathsCovered(report: Object, checks: Catalog, selected: set<string>) {
    var paths := ReportedPaths(report);
    paths.Some? && forall p :: p in selected && p in checks ==> checks[p].testPath in paths.value
  }

  predicate DistinctNames(providers: seq<Json>)
    requires forall j :: j in providers ==> WellFormedResult(j)
  {
    forall a, b :: 0 <= a < b < |providers| ==> NameOf(providers[a]) != NameOf(providers[b])
  }

  /** There are results, all of them passed, and the summary says so. */
  predicate SummaryPassed(report: Object, providers: seq<Json>) {
    var summary := Get(report, "summary");
    && providers != [] && summary.Obj?
    && (forall j :: j in providers ==> HasOutcome(j, "passed"))
    && IsNumber(Get(summary.fields, "total"), |providers|)
    && IsNumber(Get(summary.fields, "passed"), |providers|)
    && IsNumber(Get(summary.fields, "failed"), 0)
    && IsNumber(Get(summary.fields, "skipped"), 0)
    && IsNumber(Get(summary.fields, "missing"), 0)
  }

  /** The results, one per selected provider, have all passed. */
  predicate ResultsAllPassed(report: Object, selected: set<string>) {
    var providers := Get(report, "providers");
    && providers.List?
    && (forall j :: j in providers.items ==> WellFormedResult(j))
    && SummaryPassed(report, providers.items)
    && DistinctNames(providers.items)
    && (set j | j in providers.items :: NameOf(j)) == selected
  }

  predicate Accepts(report: Object, expected: set<string>, checks: Catalog, clock: Clock) {
    var selected := Get(report, "selected_providers");
    && Get(report, "certified") == Bool(true)
    && SelectionIsKnown(selected, checks)
    && expected <= Texts(selected.items)
    && Fresh(report, clock)
    && PathsCovered(report, checks, Texts(selected.items))
    && ResultsAllPassed(report, Texts(selected.items))
    && forall j :: j in Get(report, "providers").items && NameOf(j) in Relevant(expected, Texts(selected.items)) ==>
         Vouched(j.fields, checks[NameOf(j)])
  }

  /** `expected_providers or selected_provider_names`. */
  function Relevant(expected: set<string>, selected: set<string>): set<string> {
    if expected != {} then expected else selected
  }

  // -------------------------------------------------- the counting loops

  datatype Counts = Counts(total: nat, passed: nat, failed: nat, skipped: nat, missing: nat)

  datatype CountResult = Counted(counts: Counts) | InvalidEntry | Unhashable

  predicate HasUnhashableOutcome(j: Json) {
    j.Obj? && (Get(j.fields, "outcome").List? || Get(j.fields, "outcome").Obj?)
  }

  function CountWhere(providers: seq<Json>, outcome: string): nat {
    if providers == [] then 0
    else
      CountWhere(providers[..|providers| - 1], outcome)
      + (if HasOutcome(providers[|providers| - 1], outcome) then 1 else 0)
  }

  method ProviderResultCounts(providers: seq<Json>) returns (r: CountResult)
    ensures r.Counted? <==> forall j :: j in providers ==> WellFormedResult(j)
    ensures r.Counted? ==>
      r.counts == Counts(|providers|, CountWhere(providers, "passed"), CountWhere(providers, "failed"),
                         CountWhere(providers, "skipped"), CountWhere(providers, "missing"))
    ensures r.Unhashable? ==> exists j :: j in providers && HasUnhashableOutcome(j)
  {
    var passed, failed, skipped, missing := 0, 0, 0, 0;
    var i := 0;
    while i < |providers|
      invariant i <= |providers|
      invariant forall k :: 0 <= k < i ==> WellFormedResult(providers[k])
      invariant passed == CountWhere(providers[..i], "passed") && failed == CountWhere(providers[..i], "failed")
      invariant skipped == CountWhere(providers[..i], "skipped") && missing == CountWhere(providers[..i], "missing")
    {
      var provider := providers[i];
      assert providers[..i + 1][..i] == providers[..i];
      assert provider in providers;
      if !provider.Obj? || !Get(provider.fields, "name").Str? {
        return InvalidEntry;
      }
      var outcome := Get(provider.fields, "outcome");
      if outcome.List? || outcome.Obj? {
        return Unhashable;
      }
      if outcome == Str("passed") {
        passed := passed + 1;
      } else if outcome == Str("failed") {
        failed := failed + 1;
      } else if outcome == Str("skipped") {
        skipped := skipped + 1;
      } else if outcome == Str("missing") {
        missing := missing + 1;
      } else {
        return InvalidEntry;
      }
      i := i + 1;
    }
    assert providers[..i] == providers;
    r := Counted(Counts(|providers|, passed, failed, skipped, missing));
  }

  predicate Repeats(values: seq<string>, n: nat, v: string)
    requires n <= |values|
  {
    exists i, j :: 0 <= i < j < n && values[i] == v == values[j]
  }

  /** The values that occur more than once. */
  method DuplicateStrings(values: seq<string>) returns (duplicates: set<string>)
    ensures forall v :: v in duplicates <==> Repeats(values, |values|, v)
    ensures duplicates == {} <==> Distinct(values)
  {
    duplicates := {};
    var seen: set<string> := {};
    var i := 0;
    while i < |values|
      invariant i <= |values|
      invariant forall v :: v in seen <==> v in values[..i]
      invariant forall v :: v in duplicates <==> Repeats(values, i, v)
      invariant duplicates == {} <==> forall a, b :: 0 <= a < b < i ==> values[a] != values[b]
    {
      if values[i] in seen {
        ghost var a :| 0 <= a < i && values[..i][a] == values[i];
        assert values[a] == values[i] && Repeats(values, i + 1, values[i]);
        duplicates := duplicates + {values[i]};
      }
      seen := seen + {values[i]};
      i := i + 1;
    }
  }

  // ------------------------------------------------------------ the checkers

  function Column(items: seq<Json>): seq<string>
    requires forall j :: j in items ==> j.Str?
  {
    seq(|items|, i requires 0 <= i < |items| => items[i].s)
  }

  method CheckSelectedProviderEntries(selected: seq<Json>, checks: Catalog) returns (v: Verdict)
    ensures v == Clean || v == Reported(Invalid)
    ensures v == Clean <==> SelectionIsKnown(List(selected), checks)
  {
    if exists j :: j in selected && !j.Str? {
      return Reported(Invalid);
    }
    var names := Column(selected);
    var duplicates := DuplicateStrings(names);
    ColumnDistinct(selected);
    if duplicates != {} {
      return Reported(Invalid);
    }
    v := if Texts(selected) <= checks.Keys then Clean else Reported(Invalid);
  }

  lemma ColumnDistinct(items: seq<Json>)
    requires forall j :: j in items ==> j.Str?
    ensures Distinct(items) <==> Distinct(Column(items))
  {
    forall i | 0 <= i < |items| ensures items[i] == Str(Column(items)[i]) {
      assert items[i] in items;
    }
  }

  method CheckCertificationFreshness(report: Object, clock: Clock) returns (v: Verdict)
    ensures v == Clean <==> Fresh(report, clock)
    ensures v == Reported(Stale) <==> TooOld(report, clock)
    ensures v == Clean || v == Reported(Stale) || v == Reported(Invalid)
  {
    var generatedAt := Get(report, "generated_at");
    if !generatedAt.Str? || generatedAt.s == "" {
      return Reported(Invalid);
    }
    var time := clock.parse(generatedAt.s);
    if time.None? {
      return Reported(Invalid);
    }
    if time.value - clock.now > MAX_CLOCK_SKEW {
      return Reported(Invalid);
    }
    v := if clock.now - time.value > MAX_AGE then Reported(Stale) else Clean;
  }

  function NonEmptyTexts(items: seq<Json>): set<string> {
    set j | j in items && j.Str? && j.s != "" :: j.s
  }

  /** There are as many different non-empty strings in a list as it has entries if and
      only if the entries are distinct non-empty strings. */
  lemma {:induction false} AsManyTextsAsEntries(items: seq<Json>)
    ensures |NonEmptyTexts(items)| <= |items|
    ensures |NonEmptyTexts(items)| == |items| <==> StringList(List(items)) && Distinct(items) && Str("") !in items
  {
    hide NonEmptyTexts, Distinct, StringList;
    if items == [] {
      NoTexts();
    } else {
      var front, last := items[..|items| - 1], items[|items| - 1];
      assert items == front + [last];
      AsManyTextsAsEntries(front);
      OneMoreText(front, last);
      DistinctLast(front, last);
      StringsLast(front, last);
    }
  }

  lemma NoTexts()
    ensures NonEmptyTexts([]) == {} && StringList(List([])) && Distinct<Json>([])
  {
  }

  lemma OneMoreText(front: seq<Json>, last: Json)
    ensures NonEmptyTexts(front + [last])
         == NonEmptyTexts(front) + (if last.Str? && last.s != "" then {last.s} else {})
    ensures last.Str? && last.s != "" ==> (last.s in NonEmptyTexts(front) <==> last in front)
  {
    assert forall j :: j in front + [last] <==> j in front || j == last;
    if last.Str? && last.s != "" && last.s in NonEmptyTexts(front) {
      assert Str(last.s) in front;
    }
  }

  lemma DistinctLast(front: seq<Json>, last: Json)
    ensures Distinct(front + [last]) <==> Distinct(front) && last !in front
  {
    var items := front + [last];
    forall i | 0 <= i < |front| ensures items[i] == front[i] {
    }
    assert items[|front|] == last;
    if Distinct(items) {
      forall i | 0 <= i < |front| ensures front[i] != last {
        assert items[i] != items[|front|];
      }
    }
  }

  lemma StringsLast(front: seq<Json>, last: Json)
    ensures StringList(List(front + [last])) <==> StringList(List(front)) && last.Str?
    ensures Str("") in front + [last] <==> Str("") in front || last == Str("")
  {
    assert forall j :: j in front + [last] <==> j in front || j == last;
  }

  /** The program collects the non-empty strings in a set and compares sizes. */
  method ReportedCertificationTestPaths(report: Object) returns (r: Option<set<string>>)
    ensures r == ReportedPaths(report)
  {
    var testPaths := Get(report, "test_paths");
    if testPaths.List? {
      var paths := NonEmptyTexts(testPaths.items);
      AsManyTextsAsEntries(testPaths.items);
      if |paths| == |testPaths.items| {
        assert paths == Texts(testPaths.items);
        return Some(paths);
      }
      return None;
    }
    var testPath := Get(report, "test_path");
    if testPath.Str? && testPath.s != "" {
      return Some({testPath.s});
    }
    r := None;
  }

  method CheckCertificationTestPaths(report: Object, checks: Catalog, selected: set<string>) returns (v: Verdict)
    ensures v == Clean || v == Reported(Invalid)
    ensures v == Clean <==> PathsCovered(report, checks, selected)
  {
    var paths := ReportedCertificationTestPaths(report);
    if paths.None? {
      return Reported(Invalid);
    }
    var uncovered := exists p :: p in selected && p in checks && checks[p].testPath !in paths.value;
    v := if uncovered then Reported(Invalid) else Clean;
  }

  /** The summary holds the counts of the results, and the results are well formed. */
  predicate SummaryMatches(report: Object, providers: seq<Json>) {
    var summary := Get(report, "summary");
    && (forall j :: j in providers ==> WellFormedResult(j))
    && summary.Obj?
    && IsNumber(Get(summary.fields, "total"), |providers|)
    && IsNumber(Get(summary.fields, "passed"), CountWhere(providers, "passed"))
    && IsNumber(Get(summary.fields, "failed"), CountWhere(providers, "failed"))
    && IsNumber(Get(summary.fields, "skipped"), CountWhere(providers, "skipped"))
    && IsNumber(Get(summary.fields, "missing"), CountWhere(providers, "missing"))
  }

  method CheckProviderResultSummary(report: Object, providers: seq<Json>) returns (v: Verdict)
    ensures v == Clean <==> SummaryMatches(report, providers)
    ensures v == Clean || v == Reported(Invalid) || v == RaisesTypeError
    ensures v == RaisesTypeError ==> exists j :: j in providers && HasUnhashableOutcome(j)
  {
    hide CountWhere, WellFormedResult;
    var r := ProviderResultCounts(providers);
    if r.Unhashable? {
      return RaisesTypeError;
    }
    if r.InvalidEntry? {
      return Reported(Invalid);
    }
    var summary := Get(report, "summary");
    if !summary.Obj?
      || !Same(Get(summary.fields, "total"), Number(r.counts.total))
      || !Same(Get(summary.fields, "passed"), Number(r.counts.passed))
      || !Same(Get(summary.fields, "failed"), Number(r.counts.failed))
      || !Same(Get(summary.fields, "skipped"), Number(r.counts.skipped))
      || !Same(Get(summary.fields, "missing"), Number(r.counts.missing))
    {
      return Reported(Invalid);
    }
    v := Clean;
  }

  function ResultNames(providers: seq<Json>): seq<string>
    requires forall j :: j in providers ==> WellFormedResult(j)
  {
    seq(|providers|, i requires 0 <= i < |providers| => NameOf(providers[i]))
  }

  /** One result per selected provider, and the summary counts them. */
  predicate ResultsListed(report: Object, relevant: set<string>, selected: set<string>) {
    var providers := Get(report, "providers");
    && providers.List? && SummaryMatches(report, providers.items)
    && DistinctNames(providers.items)
    && (set j | j in providers.items :: NameOf(j)) == selected
    && relevant <= selected
  }

  predicate ResultsAccepted(report: Object, relevant: set<string>, selected: set<string>, checks: Catalog) {
    && ResultsListed(report, relevant, selected)
    && forall j :: j in Get(report, "providers").items && NameOf(j) in relevant ==>
         NameOf(j) in checks && Vouched(j.fields, checks[NameOf(j)])
  }

  predicate SomeWithoutEvidence(report: Object, relevant: set<string>, selected: set<string>, checks: Catalog)
    requires ResultsListed(report, relevant, selected) && selected <= checks.Keys
  {
    exists j :: j in Get(report, "providers").items && NameOf(j) in relevant
                && !HasEvidence(j.fields, checks[NameOf(j)])
  }

  predicate SomeIncomplete(report: Object, relevant: set<string>, selected: set<string>, checks: Catalog)
    requires ResultsListed(report, relevant, selected) && selected <= checks.Keys
  {
    exists j :: j in Get(report, "providers").items && NameOf(j) in relevant
                && !RequirementsComplete(j.fields, checks[NameOf(j)])
  }

  predicate SomeUnmet(report: Object, relevant: set<string>, selected: set<string>)
    requires ResultsListed(report, relevant, selected)
  {
    exists j :: j in Get(report, "providers").items && NameOf(j) in relevant && HasUnmetRequirements(j.fields)
  }

  /** The first reason to reject listed results, or none. */
  function ResultsVerdict(report: Object, relevant: set<string>, selected: set<string>, checks: Catalog): Verdict
    requires ResultsListed(report, relevant, selected) && selected <= checks.Keys
  {
    if SomeWithoutEvidence(report, relevant, selected, checks) then Reported(ProviderTestsMissing)
    else if SomeIncomplete(report, relevant, selected, checks) then Reported(RequirementsIncomplete)
    else if SomeUnmet(report, relevant, selected) then Reported(RequirementsMissing)
    else Clean
  }

  /** `_check_expected_provider_results`. The results are looked up by name; a selected
      name that is not in the catalog has been reported before this check. */
  method CheckExpectedProviderResults(report: Object, relevant: set<string>, selected: set<string>, checks: Catalog)
    returns (v: Verdict)
    requires selected <= checks.Keys
    ensures v == Clean <==> ResultsAccepted(report, relevant, selected, checks)
    ensures ResultsListed(report, relevant, selected) ==> v == ResultsVerdict(report, relevant, selected, checks)
    ensures ResultsListed(report, relevant, selected) ==>
      && (v == Reported(ProviderTestsMissing) <==> SomeWithoutEvidence(report, relevant, selected, checks))
      && (v == Reported(RequirementsIncomplete) <==>
            !SomeWithoutEvidence(report, relevant, selected, checks)
            && SomeIncomplete(report, relevant, selected, checks))
      && (v == Reported(RequirementsMissing) <==>
            !SomeWithoutEvidence(report, relevant, selected, checks)
            && !SomeIncomplete(report, relevant, selected, checks) && SomeUnmet(report, relevant, selected))
    ensures !ResultsListed(report, relevant, selected) ==> v == Reported(Invalid) || v == RaisesTypeError
  {
    hide SummaryMatches, HasEvidence, RequirementsComplete, HasUnmetRequirements;
    var providers := Get(report, "providers");
    if !providers.List? {
      return Reported(Invalid);
    }
    var results := providers.items;
    v := CheckProviderResultSummary(report, results);
    if v != Clean {
      return;
    }
    SummaryIsWellFormed(report, results);
    var names := ResultNames(results);
    var duplicates := DuplicateStrings(names);
    NamesAt(results);
    if duplicates != {} {
      return Reported(Invalid);
    }
    if selected != set j | j in results :: NameOf(j) {
      return Reported(Invalid);
    }
    if !(relevant <= selected) {
      return Reported(Invalid);
    }
    if exists j :: j in results && NameOf(j) in relevant && !HasEvidence(j.fields, checks[NameOf(j)]) {
      return Reported(ProviderTestsMissing);
    }
    if exists j :: j in results && NameOf(j) in relevant && !RequirementsComplete(j.fields, checks[NameOf(j)]) {
      return Reported(RequirementsIncomplete);
    }
    if exists j :: j in results && NameOf(j) in relevant && HasUnmetRequirements(j.fields) {
      return Reported(RequirementsMissing);
    }
  }

  lemma SummaryIsWellFormed(report: Object, providers: seq<Json>)
    requires SummaryMatches(report, providers)
    ensures forall j :: j in providers ==> WellFormedResult(j)
  {
  }

  lemma NamesAt(providers: seq<Json>)
    requires forall j :: j in providers ==> WellFormedResult(j)
    ensures DistinctNames(providers) <==> Distinct(ResultNames(providers))
  {
    hide WellFormedResult;
    forall i | 0 <= i < |providers| ensures ResultNames(providers)[i] == NameOf(providers[i]) {
    }
  }

  predicate SummaryLooksPassed(report: Object) {
    var summary := Get(report, "summary");
    && summary.Obj? && Truthy(Get(summary.fields, "total"))
    && Same(Get(summary.fields, "passed"), Get(summary.fields, "total"))
    && Same(GetOr(summary.fields, "failed", Number(0)), Number(0))
    && Same(GetOr(summary.fields, "skipped", Number(0)), Number(0))
    && Same(GetOr(summary.fields, "missing", Number(0)), Number(0))
  }

  function Selected(report: Object): set<string> {
    var selected := Get(report, "selected_providers");
    if selected.List? then Texts(selected.items) else {}
  }

  /** Certified for known providers. */
  predicate Claimed(report: Object, checks: Catalog) {
    Get(report, "certified") == Bool(true) && SelectionIsKnown(Get(report, "selected_providers"), checks)
  }

  predicate Uncovered(report: Object, expected: set<string>, checks: Catalog) {
    Claimed(report, checks) && !(expected <= Selected(report))
  }

  /** In order but for its age. */
  predicate OutOfDate(report: Object, expected: set<string>, checks: Catalog, clock: Clock) {
    Claimed(report, checks) && expected <= Selected(report) && SummaryLooksPassed(report) && TooOld(report, clock)
  }

  /** In order but for a result that does not bear out what it claims. */
  predicate OnlyResultsRejected(report: Object, expected: set<string>, checks: Catalog, clock: Clock) {
    var selected := Selected(report);
    && Claimed(report, checks) && expected <= selected && SummaryLooksPassed(report)
    && Fresh(report, clock) && PathsCovered(report, checks, selected)
    && ResultsListed(report, Relevant(expected, selected), selected)
    && ResultsVerdict(report, Relevant(expected, selected), selected, checks) != Clean
  }

  /** `_check_provider_certification`: a supplied report gets no issue if and only if it
      is acceptable; a missing one is an issue if and only if some provider is expected
      and certification is required. */
  method CheckProviderCertification(report: Option<Object>, expected: set<string>, required: bool,
                                    checks: Catalog, clock: Clock)
    returns (v: Verdict)
    ensures report.None? ==> v == if required && expected != {} then Reported(ReportRequired) else Clean
    ensures report.Some? ==> (v == Clean <==> Accepts(report.value, expected, checks, clock))
    ensures v == Reported(NotPassed) <==> report.Some? && Get(report.value, "certified") != Bool(true)
    ensures v == Reported(MissingProvider) <==> report.Some? && Uncovered(report.value, expected, checks)
    ensures v == Reported(Stale) <==> report.Some? && OutOfDate(report.value, expected, checks, clock)
    ensures v.Reported? && v.code in {ProviderTestsMissing, RequirementsIncomplete, RequirementsMissing} <==>
            report.Some? && OnlyResultsRejected(report.value, expected, checks, clock)
    ensures report.Some? && OnlyResultsRejected(report.value, expected, checks, clock) ==>
            var selected := Selected(report.value);
            v == ResultsVerdict(report.value, Relevant(expected, selected), selected, checks)
  {
    hide SelectionIsKnown, Fresh, PathsCovered, ResultsAllPassed, ResultsAccepted, ResultsListed,
         SomeWithoutEvidence, SomeIncomplete, SomeUnmet, SummaryLooksPassed, TooOld, Vouched, Same, Truthy;
    if report.None? {
      return if required && expected != {} then Reported(ReportRequired) else Clean;
    }
    var r := report.value;
    if Get(r, "certified") != Bool(true) {
      return Reported(NotPassed);
    }
    var selected := Get(r, "selected_providers");
    if !selected.List? {
      NotKnown(selected, checks);
      return Reported(Invalid);
    }
    v := CheckSelectedProviderEntries(selected.items, checks);
    if v != Clean {
      return;
    }
    Known(selected, checks);
    var names := Texts(selected.items);
    if !(expected <= names) {
      return Reported(MissingProvider);
    }
    AcceptedResults(r, Relevant(expected, names), expected, names, checks);
    if !SummaryLooksPassed(r) {
      return Reported(Invalid);
    }
    v := CheckCertificationFreshness(r, clock);
    if v != Clean {
      return;
    }
    v := CheckCertificationTestPaths(r, checks, names);
    if v != Clean {
      return;
    }
    v := CheckExpectedProviderResults(r, Relevant(expected, names), names, checks);
  }

  lemma NotKnown(selected: Json, checks: Catalog)
    requires !selected.List?
    ensures !SelectionIsKnown(selected, checks)
  {
  }

  lemma Known(selected: Json, checks: Catalog)
    requires SelectionIsKnown(selected, checks)
    ensures selected.List? && Texts(selected.items) <= checks.Keys
  {
  }

  lemma {:induction false} CountsMean(providers: seq<Json>)
    requires forall j :: j in providers ==> WellFormedResult(j)
    ensures CountWhere(providers, "passed") + CountWhere(providers, "failed")
          + CountWhere(providers, "skipped") + CountWhere(providers, "missing") == |providers|
    ensures CountWhere(providers, "passed") == |providers| <==> forall j :: j in providers ==> HasOutcome(j, "passed")
  {
    if providers != [] {
      var front, last := providers[..|providers| - 1], providers[|providers| - 1];
      assert providers == front + [last];
      CountsMean(front);
      OneOutcome(last);
    }
  }

  lemma OneOutcome(j: Json)
    requires WellFormedResult(j)
    ensures HasOutcome(j, "passed") ==> !HasOutcome(j, "failed") && !HasOutcome(j, "skipped")
    ensures HasOutcome(j, "passed") ==> !HasOutcome(j, "missing")
    ensures HasOutcome(j, "failed") ==> !HasOutcome(j, "skipped") && !HasOutcome(j, "missing")
    ensures HasOutcome(j, "skipped") ==> !HasOutcome(j, "missing")
    ensures HasOutcome(j, "passed") || HasOutcome(j, "failed") || HasOutcome(j, "skipped") || HasOutcome(j, "missing")
  {
    assert "passed" != "failed" && "passed" != "skipped" && "passed" != "missing";
    assert "failed" != "skipped" && "failed" != "missing";
    assert "skipped"[0] != "missing"[0];
  }

  /** The two looks at the summary together say that every result passed. */
  lemma SummaryMeansPassed(report: Object, providers: seq<Json>)
    requires forall j :: j in providers ==> WellFormedResult(j)
    ensures SummaryLooksPassed(report) && SummaryMatches(report, providers) <==> SummaryPassed(report, providers)
  {
    hide CountWhere, WellFormedResult, HasOutcome;
    CountsMean(providers);
  }

  /** The branches on the summary and the results amount to `Accepts`' last two parts. */
  lemma AcceptedResults(report: Object, relevant: set<string>, expected: set<string>, selected: set<string>,
                        checks: Catalog)
    requires relevant == Relevant(expected, selected) && expected <= selected <= checks.Keys
    ensures SummaryLooksPassed(report) && ResultsAccepted(report, relevant, selected, checks) <==>
      && ResultsAllPassed(report, selected)
      && forall j :: j in Get(report, "providers").items && NameOf(j) in relevant ==>
           Vouched(j.fields, checks[NameOf(j)])
  {
    hide SummaryLooksPassed, SummaryMatches, SummaryPassed, Vouched, HasOutcome, DistinctNames;
    var providers := Get(report, "providers");
    if providers.List? {
      if SummaryMatches(report, providers.items) {
        SummaryIsWellFormed(report, providers.items);
      }
      if forall j :: j in providers.items ==> WellFormedResult(j) {
        SummaryMeansPassed(report, providers.items);
      }
    }
  }

  /** An entry of a report that shows, outright, that `check` passed under the name `p`. */
  ghost predicate ShownToPass(j: Json, p: string, check: ProviderCheck) {
    && j.Obj? && Get(j.fields, "name") == Str(p) && Get(j.fields, "outcome") == Str("passed")
    && Get(j.fields, "tests").List? && Get(j.fields, "details").List? && Get(j.fields, "requirements").Obj?
    && (forall t :: t in check.tests ==> Str(t) in Get(j.fields, "tests").items)
    && (forall t :: t in check.tests ==> EvidenceFor(Get(j.fields, "details").items, t, check.testPath))
    && var q := Get(j.fields, "requirements").fields;
       && Get(q, "required_env").List? && Get(q, "required_packages").List?
       && (forall n :: n in check.requiredEnv ==> Str(n) in Get(q, "required_env").items)
       && (forall n :: n in check.requiredPackages ==> Str(n) in Get(q, "required_packages").items)
       && Get(q, "missing_required_env") == List([]) && Get(q, "missing_required_packages") == List([])
  }

  ghost predicate EvidenceFor(details: seq<Json>, test: string, testPath: string) {
    exists d :: Str(d) in details && DetailMatchesTest(d, test, testPath)
  }

  /** Soundness, provider by provider: behind an accepted report there is, for each
      expected provider (or each selected one, if none is expected), a passed result with
      evidence for every required test at its declared path, every requirement listed and
      nothing missing. */
  lemma AcceptedProviderPassed(report: Object, expected: set<string>, checks: Catalog, clock: Clock, p: string)
    requires Accepts(report, expected, checks, clock)
    requires p in expected || (expected == {} && Str(p) in Get(report, "selected_providers").items)
    ensures p in checks
    ensures exists j :: j in Get(report, "providers").items && ShownToPass(j, p, checks[p])
  {
    hide Vouched, HasOutcome, Fresh, PathsCovered, ShownToPass;
    var providers, selected := Get(report, "providers").items, Texts(Get(report, "selected_providers").items);
    assert p in selected;
    assert p in set j | j in providers :: NameOf(j);
    var j :| j in providers && NameOf(j) == p;
    VouchedShows(j, p, checks[p]);
  }

  lemma VouchedShows(j: Json, p: string, check: ProviderCheck)
    requires WellFormedResult(j) && NameOf(j) == p && HasOutcome(j, "passed") && Vouched(j.fields, check)
    ensures ShownToPass(j, p, check)
  {
    hide DetailMatchesTest;
    forall t | t in check.tests ensures EvidenceFor(Get(j.fields, "details").items, t, check.testPath) {
      var d :| d in Texts(Get(j.fields, "details").items) && DetailMatchesTest(d, t, check.testPath);
      assert Str(d) in Get(j.fields, "details").items;
    }
  }

  /** The paths that a report covers: those of its list, if it has one, which must then
      hold different non-empty strings, and else the single one it gives. */
  lemma PathsMean(report: Object, checks: Catalog, selected: set<string>)
    ensures var paths, path := Get(report, "test_paths"), Get(report, "test_path");
            PathsCovered(report, checks, selected) <==>
              if paths.List? then
                && (forall j :: j in paths.items ==> j.Str? && j.s != "") && Distinct(paths.items)
                && forall p :: p in selected && p in checks ==> Str(checks[p].testPath) in paths.items
              else
                && path.Str? && path.s != ""
                && forall p :: p in selected && p in checks ==> checks[p].testPath == path.s
  {
    hide Distinct;
    var paths := Get(report, "test_paths");
    if paths.List? && StringList(paths) {
      assert forall t :: t in Texts(paths.items) <==> Str(t) in paths.items;
    }
  }

  /** The value stands for zero: it is the number, `False`, or not there. */
  predicate ZeroOrAbsent(o: Object, key: string) {
    key in o ==> o[key] == Num(0.0) || o[key] == Bool(false)
  }

  /** What a summary must say before the results are looked at: some tests, all of which
      passed, and none that did otherwise. */
  lemma LooksPassedMeans(report: Object)
    ensures SummaryLooksPassed(report) <==>
      var summary := Get(report, "summary");
      && summary.Obj? && "total" in summary.fields
      && summary.fields["total"] !in {Null, Bool(false), Num(0.0), Str(""), List([]), Obj(map[])}
      && Same(Get(summary.fields, "passed"), summary.fields["total"])
      && ZeroOrAbsent(summary.fields, "failed")
      && ZeroOrAbsent(summary.fields, "skipped")
      && ZeroOrAbsent(summary.fields, "missing")
  {
    hide Same;
    var summary := Get(report, "summary");
    if summary.Obj? {
      IsZero(summary.fields, "failed");
      IsZero(summary.fields, "skipped");
      IsZero(summary.fields, "missing");
    }
  }

  lemma IsZero(o: Object, key: string)
    ensures Same(GetOr(o, key, Number(0)), Number(0)) <==> ZeroOrAbsent(o, key)
  {
  }

  /** The limits of freshness in seconds: a day back, five minutes ahead. */
  lemma FreshLimits(report: Object, clock: Clock)
    ensures Fresh(report, clock) <==>
      var at := Get(report, "generated_at");
      && at.Str? && at.s != "" && clock.parse(at.s).Some?
      && clock.now - 86400.0 <= clock.parse(at.s).value <= clock.now + 300.0
  {
  }
}
