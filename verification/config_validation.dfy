/** The static settings validator of infra/config/validation.py, and how far its
    verdict predicts what plugin start-up does. */
module ConfigValidation {
  import opened Text
  import opened Sequences
  import opened Graphs
  import opened PluginLifecycle
  import PluginOrder

  datatype Code = UnknownPlugin | UnknownDependency | InactiveDependency | MissingOptionalDependency | RejectedConfig

  datatype Issue = Issue(plugin: string, code: Code)

  predicate PluginIsActive(env: Env, name: string)
    requires name in env.plugins
  {
    match SettingsOf(env, name).enabled
    case Some(enabled) => enabled
    case None => env.plugins[name].defaultEnabled
  }

  function ActivePlugins(env: Env): set<string> {
    set name | name in env.plugins && PluginIsActive(env, name)
  }

  predicate HasUnknown(env: Env, name: string)
    requires name in env.plugins
  {
    exists d :: d in env.plugins[name].dependencies && d !in env.plugins
  }

  predicate HasInactive(env: Env, name: string)
    requires name in env.plugins
  {
    exists d :: d in env.plugins[name].dependencies && d in env.plugins && !PluginIsActive(env, d)
  }

  predicate HasMissingOptional(env: Env, name: string)
    requires name in env.plugins
  {
    exists d :: d in env.plugins[name].optionalDependencies && !env.importable(d)
  }

  /** What each code of the report stands for. */
  predicate IsIssue(env: Env, issue: Issue) {
    var name := issue.plugin;
    match issue.code
    case UnknownPlugin => name in env.settings && name !in env.plugins
    case UnknownDependency => name in ActivePlugins(env) && HasUnknown(env, name)
    case InactiveDependency => name in ActivePlugins(env) && HasInactive(env, name)
    case MissingOptionalDependency => name in ActivePlugins(env) && HasMissingOptional(env, name)
    case RejectedConfig =>
      && name in env.settings && name in env.plugins && PluginIsActive(env, name)
      && env.plugins[name].configModel.Some?
      && env.plugins[name].configModel.value(env.settings[name].config).Rejected?
  }

  function DependencyIssues(env: Env, name: string): seq<Issue>
    requires name in env.plugins
  {
    (if HasUnknown(env, name) then [Issue(name, UnknownDependency)] else [])
    + (if HasInactive(env, name) then [Issue(name, InactiveDependency)] else [])
    + (if HasMissingOptional(env, name) then [Issue(name, MissingOptionalDependency)] else [])
  }

  predicate IsDependencyCode(code: Code) {
    code.UnknownDependency? || code.InactiveDependency? || code.MissingOptionalDependency?
  }

  /** `issues` are those of this code for the plugins of `names`. */
  ghost predicate AreFor(issues: seq<Issue>, names: seq<string>, code: Code) {
    forall issue :: issue in issues <==> issue.code == code && issue.plugin in names
  }

  lemma OneMoreFor(issues: seq<Issue>, names: seq<string>, i: nat, code: Code)
    requires i < |names| && Distinct(names) && Distinct(issues) && AreFor(issues, names[..i], code)
    ensures var longer := issues + [Issue(names[i], code)];
            AreFor(longer, names[..i + 1], code) && Distinct(longer)
  {
    hide Distinct;
    assert names[..i + 1] == names[..i] + [names[i]];
    NotBefore(names, i);
    DistinctAppend(issues, Issue(names[i], code));
  }

  method UnknownPluginIssues(env: Env) returns (issues: seq<Issue>)
    ensures forall issue :: issue in issues <==> issue.code.UnknownPlugin? && IsIssue(env, issue)
    ensures Distinct(issues)
  {
    hide Sorted, Distinct, ActivePlugins, CheckConfig, PluginIsActive;
    issues := [];
    var unknown := Sorted(env.settings.Keys - env.plugins.Keys);
    var i := 0;
    SortedIsDistinct(env.settings.Keys - env.plugins.Keys);
    DistinctNothing<Issue>();
    while i < |unknown|
      invariant i <= |unknown| && Distinct(issues) && AreFor(issues, unknown[..i], UnknownPlugin)
    {
      OneMoreFor(issues, unknown, i, UnknownPlugin);
      issues := issues + [Issue(unknown[i], UnknownPlugin)];
      i := i + 1;
    }
    assert unknown[..i] == unknown;
    assert forall name :: name in env.settings.Keys - env.plugins.Keys <==> name in unknown;
  }

  lemma DependencyIssuesAre(env: Env, name: string)
    requires name in ActivePlugins(env)
    ensures forall issue :: issue in DependencyIssues(env, name) <==>
      issue.plugin == name && IsDependencyCode(issue.code) && IsIssue(env, issue)
    ensures Distinct(DependencyIssues(env, name))
  {
    hide HasUnknown, HasInactive, HasMissingOptional;
  }

  method DependencyProblems(env: Env) returns (issues: seq<Issue>)
    ensures forall issue :: issue in issues <==> IsDependencyCode(issue.code) && IsIssue(env, issue)
    ensures Distinct(issues)
  {
    hide Sorted, Distinct, DependencyIssues, PluginIsActive, HasUnknown, HasInactive, HasMissingOptional;
    issues := [];
    var active := Sorted(ActivePlugins(env));
    var i := 0;
    SortedIsDistinct(ActivePlugins(env));
    DistinctNothing<Issue>();
    while i < |active|
      invariant i <= |active| && Distinct(issues)
      invariant forall issue :: issue in issues <==>
        issue.plugin in active[..i] && IsDependencyCode(issue.code) && IsIssue(env, issue)
    {
      assert active[i] in ActivePlugins(env);
      DependencyIssuesAre(env, active[i]);
      NotBefore(active, i);
      DistinctConcat(issues, DependencyIssues(env, active[i]));
      issues := issues + DependencyIssues(env, active[i]);
      assert active[..i + 1] == active[..i] + [active[i]];
      i := i + 1;
    }
  }

  /** A plugin that the settings mention is validated on its own settings. */
  lemma OwnConfigIsChecked(env: Env, name: string)
    requires name in env.settings && name in env.plugins
    ensures IsIssue(env, Issue(name, RejectedConfig)) <==> PluginIsActive(env, name) && CheckConfig(env, name).Rejected?
  {
  }

  method ConfigProblems(env: Env) returns (issues: seq<Issue>)
    ensures forall issue :: issue in issues <==> issue.code.RejectedConfig? && IsIssue(env, issue)
    ensures Distinct(issues)
  {
    hide Sorted, Distinct, CheckConfig, PluginIsActive;
    issues := [];
    var configured := Sorted(env.settings.Keys * env.plugins.Keys);
    var i := 0;
    SortedIsDistinct(env.settings.Keys * env.plugins.Keys);
    DistinctNothing<Issue>();
    while i < |configured|
      invariant i <= |configured| && Distinct(issues)
      invariant forall issue :: issue in issues <==>
        issue.plugin in configured[..i] && issue.code.RejectedConfig? && IsIssue(env, issue)
    {
      var name := configured[i];
      assert name in env.settings.Keys * env.plugins.Keys;
      OwnConfigIsChecked(env, name);
      if PluginIsActive(env, name) && CheckConfig(env, name).Rejected? {
        NotBefore(configured, i);
        DistinctAppend(issues, Issue(name, RejectedConfig));
        issues := issues + [Issue(name, RejectedConfig)];
      }
      assert configured[..i + 1] == configured[..i] + [name];
      i := i + 1;
    }
    assert configured[..i] == configured;
    assert forall name :: name in env.settings.Keys * env.plugins.Keys <==> name in configured;
  }

  /** The report lists exactly the issues there are, each once. */
  method ValidateInfraSettings(env: Env) returns (issues: seq<Issue>)
    ensures forall issue :: issue in issues <==> IsIssue(env, issue)
    ensures Distinct(issues)
  {
    hide IsIssue, Distinct;
    var unknown := UnknownPluginIssues(env);
    var dependencies := DependencyProblems(env);
    var configs := ConfigProblems(env);
    DistinctConcat(unknown, dependencies);
    DistinctConcat(unknown + dependencies, configs);
    issues := unknown + dependencies + configs;
  }

  // ---------------------------------------------- what start-up does with them

  ghost predicate NoIssues(env: Env) {
    forall issue :: !IsIssue(env, issue)
  }

  /** Default-enabled plugins that the settings do not mention accept an empty
      configuration. The validator looks only at plugins the settings mention. */
  ghost predicate DefaultsAccept(env: Env) {
    forall name :: name in env.plugins && name !in env.settings && env.plugins[name].defaultEnabled ==>
      env.plugins[name].configModel == None || env.plugins[name].configModel.value(map[]).Accepted?
  }

  lemma EmptyConfigIsChecked(env: Env, name: string)
    requires name in env.plugins && name !in env.settings
    ensures env.plugins[name].configModel == None || env.plugins[name].configModel.value(map[]).Accepted?
      <==> CheckConfig(env, name).Accepted?
  {
  }

  /** Shown the services `s`, the hooks of `name` return, publish only what it declared
      and leave it healthy. */
  predicate HooksWork(env: Env, name: string, s: Services)
    requires name in env.plugins
  {
    var p, allowed := env.plugins[name], Allowed(env, name);
    var registered := p.register(s);
    && registered.Leaves? && ServicesRespected(s, registered.services, allowed)
    && var begun := p.startup(registered.services);
    && begun.Leaves? && ServicesRespected(s, begun.services, allowed)
    && p.health(begun.services).0 != Unhealthy
  }

  /** The hooks of each active plugin work on the services that start-up shows it. */
  ghost predicate HooksWorkAsShown(env: Env, order: seq<string>, n: nat)
    requires n <= |order| && AllKnown(env, order)
  {
    forall i :: 0 <= i < n && order[i] in ActivePlugins(env) ==> WorksAt(env, order, i)
  }

  predicate WorksAt(env: Env, order: seq<string>, i: nat)
    requires i < |order| && AllKnown(env, order)
  {
    HooksWork(env, order[i], StartAll(env, STOPPED, order, i).0.services)
  }

  /** Start-up has run through `order[..n]` and started every active plugin there. */
  ghost predicate AllUp(env: Env, order: seq<string>, n: nat, t: Tracking)
    requires n <= |order|
  {
    forall name :: name in t.active <==> name in order[..n] && name in ActivePlugins(env)
  }

  lemma DependenciesAreUp(env: Env, order: seq<string>, n: nat, t: Tracking)
    requires NoIssues(env) && TopologicalOrder(DependencyGraph(env), order) && AllKnown(env, order)
    requires n < |order| && AllUp(env, order, n, t) && PluginIsActive(env, order[n])
    ensures !DependenciesFail(env, order[n], t.active)
  {
    var name, p := order[n], env.plugins[order[n]];
    assert !IsIssue(env, Issue(name, UnknownDependency));
    assert !IsIssue(env, Issue(name, InactiveDependency));
    assert !IsIssue(env, Issue(name, MissingOptionalDependency));
    forall i | 0 <= i < |p.dependencies| ensures p.dependencies[i] in t.active {
      var d := p.dependencies[i];
      assert Edge(DependencyGraph(env), name, d) && d in DependencyGraph(env);
    }
    assert forall i :: 0 <= i < |p.optionalDependencies| ==> p.optionalDependencies[i] in p.optionalDependencies;
  }

  lemma ConfigIsAccepted(env: Env, name: string)
    requires NoIssues(env) && DefaultsAccept(env) && name in env.plugins && PluginIsActive(env, name)
    ensures CheckConfig(env, name).Accepted?
  {
    assert !IsIssue(env, Issue(name, RejectedConfig));
  }

  lemma OneMoreUp(env: Env, order: seq<string>, n: nat, t: Tracking)
    requires NoIssues(env) && DefaultsAccept(env)
    requires TopologicalOrder(DependencyGraph(env), order) && AllKnown(env, order)
    requires n < |order| && AllUp(env, order, n, t)
    requires order[n] in ActivePlugins(env) ==> HooksWork(env, order[n], t.services)
    ensures StartPlugin(env, t, order[n]).1 == None
    ensures AllUp(env, order, n + 1, StartPlugin(env, t, order[n]).0)
  {
    hide NoIssues, DefaultsAccept, DependenciesFail, TopologicalOrder, CheckConfig, Allowed;
    var name := order[n];
    assert order[..n + 1] == order[..n] + [name];
    assert SwitchedOff(env, name) <==> !PluginIsActive(env, name);
    if PluginIsActive(env, name) {
      DependenciesAreUp(env, order, n, t);
      ConfigIsAccepted(env, name);
    }
  }

  lemma {:induction false} AllComeUp(env: Env, order: seq<string>, n: nat)
    requires NoIssues(env) && DefaultsAccept(env)
    requires TopologicalOrder(DependencyGraph(env), order) && AllKnown(env, order) && n <= |order|
    requires HooksWorkAsShown(env, order, n)
    ensures StartAll(env, STOPPED, order, n).1 == None
    ensures AllUp(env, order, n, StartAll(env, STOPPED, order, n).0)
  {
    hide NoIssues, DefaultsAccept, TopologicalOrder, StartPlugin, HooksWork;
    if n > 0 {
      AllComeUp(env, order, n - 1);
      assert order[n - 1] in ActivePlugins(env) ==> WorksAt(env, order, n - 1);
      OneMoreUp(env, order, n - 1, StartAll(env, STOPPED, order, n - 1).0);
    }
  }

  /** A plugin that start-up has made active is statically active, its configuration was
      accepted and its dependencies are active too. */
  ghost predicate Earned(env: Env, t: Tracking) {
    forall name :: name in t.active ==>
      && name in ActivePlugins(env) && CheckConfig(env, name).Accepted?
      && !DependenciesFail(env, name, t.active)
  }

  lemma EarnedKept(env: Env, t: Tracking, name: string)
    requires name in env.plugins && Earned(env, t)
    ensures Earned(env, StartPlugin(env, t, name).0)
  {
    hide CheckConfig;
    var t' := StartPlugin(env, t, name).0;
    assert t.active <= t'.active <= t.active + {name};
    assert !SwitchedOff(env, name) ==> PluginIsActive(env, name);
  }

  lemma {:induction false} EarnedAlways(env: Env, order: seq<string>, n: nat)
    requires AllKnown(env, order) && n <= |order|
    ensures Earned(env, StartAll(env, STOPPED, order, n).0)
  {
    hide StartPlugin, Earned;
    if n > 0 {
      EarnedAlways(env, order, n - 1);
      if StartAll(env, STOPPED, order, n - 1).1 == None {
        EarnedKept(env, StartAll(env, STOPPED, order, n - 1).0, order[n - 1]);
      }
    } else {
      NothingEarned(env);
    }
  }

  lemma NothingEarned(env: Env)
    ensures Earned(env, STOPPED)
  {
  }

  /** Start-up succeeds and activates exactly the statically active plugins. */
  ghost predicate StartsAsPredicted(env: Env, order: seq<string>)
    requires AllKnown(env, order)
  {
    var (after, error) := StartupOutcome(env, STOPPED, order);
    error == None && after.active == ActivePlugins(env)
  }

  /** For acyclic dependencies and whatever hooks: start-up does what the settings say
      if and only if there is no issue, every default-enabled plugin the settings leave
      out accepts an empty config, and the hooks work on what start-up shows them. */
  lemma PredictedExactly(env: Env, order: seq<string>)
    requires TopologicalOrder(DependencyGraph(env), order) && AllKnown(env, order)
    ensures StartsAsPredicted(env, order)
      <==> NoIssues(env) && DefaultsAccept(env) && HooksWorkAsShown(env, order, |order|)
  {
    hide StartAll, HooksWorkAsShown;
    if NoIssues(env) && DefaultsAccept(env) && HooksWorkAsShown(env, order, |order|) {
      SettingsAreKnown(env);
      AllComeUp(env, order, |order|);
      assert order[..|order|] == order;
    }
    if StartsAsPredicted(env, order) {
      PredictedMeansNoIssue(env, order);
      PredictedMeansHooksWork(env, order);
    }
  }

  lemma PredictedMeansHooksWork(env: Env, order: seq<string>)
    requires AllKnown(env, order) && Distinct(order) && StartsAsPredicted(env, order)
    ensures HooksWorkAsShown(env, order, |order|)
  {
    hide StartPlugin, HooksWork;
    forall i | 0 <= i < |order| && order[i] in ActivePlugins(env) ensures WorksAt(env, order, i) {
      EarlierStepsSucceed(env, order, i, |order|);
      EarlierStepsSucceed(env, order, i + 1, |order|);
      ActiveLater(env, order, i + 1, |order|);
      ActiveAreTaken(env, order, i);
      NotBefore(order, i);
      StartedMeansHooksWork(env, StartAll(env, STOPPED, order, i).0, order[i]);
    }
  }

  /** A plugin that a step without an error has made active had working hooks. */
  lemma StartedMeansHooksWork(env: Env, t: Tracking, name: string)
    requires name in env.plugins && name !in t.active
    requires StartPlugin(env, t, name).1 == None && name in StartPlugin(env, t, name).0.active
    ensures HooksWork(env, name, t.services)
  {
  }

  lemma StepActivates(env: Env, t: Tracking, name: string)
    requires name in env.plugins
    ensures t.active <= StartPlugin(env, t, name).0.active <= t.active + {name}
  {
  }

  lemma {:induction false} ActiveAreTaken(env: Env, order: seq<string>, n: nat)
    requires n <= |order| && AllKnown(env, order)
    ensures forall name :: name in StartAll(env, STOPPED, order, n).0.active ==> name in order[..n]
  {
    if n > 0 {
      hide StartPlugin;
      ActiveAreTaken(env, order, n - 1);
      StepActivates(env, StartAll(env, STOPPED, order, n - 1).0, order[n - 1]);
      assert order[..n] == order[..n - 1] + [order[n - 1]];
    }
  }

  /** What becomes active after step `i` comes from the later part of the order. */
  lemma {:induction false} ActiveLater(env: Env, order: seq<string>, i: nat, n: nat)
    requires i <= n <= |order| && AllKnown(env, order) && StartAll(env, STOPPED, order, n).1 == None
    ensures forall name :: name in StartAll(env, STOPPED, order, n).0.active ==>
              name in StartAll(env, STOPPED, order, i).0.active || name in order[i..n]
    decreases n
  {
    if i < n {
      hide StartPlugin;
      EarlierStepsSucceed(env, order, n - 1, n);
      ActiveLater(env, order, i, n - 1);
      StepActivates(env, StartAll(env, STOPPED, order, n - 1).0, order[n - 1]);
      assert order[i..n] == order[i..n - 1] + [order[n - 1]];
    }
  }

  // ---------------------------------------------- hooks that keep their word

  /** Services by plugin: those its hooks need, or those it publishes. */
  type ServiceTable = map<string, set<string>>

  function Row(table: ServiceTable, name: string): set<string> {
    if name in table then table[name] else {}
  }

  /** The services that `name` leaves when its hooks are shown `s`. */
  function Afterwards(env: Env, name: string, s: Services): Services
    requires name in env.plugins && HooksWork(env, name, s)
  {
    var begun := env.plugins[name].startup(env.plugins[name].register(s).services);
    env.plugins[name].health(begun.services).1
  }

  /** What `name` needs is there, and nothing of what it gives. */
  predicate Fits(needs: ServiceTable, gives: ServiceTable, name: string, present: set<string>) {
    Row(needs, name) <= present && Row(gives, name) !! present
  }

  /** The hooks of `name` work on `s` and add exactly what it gives. */
  predicate WorksAsListed(env: Env, gives: ServiceTable, name: string, s: Services)
    requires name in env.plugins
  {
    HooksWork(env, name, s) && Afterwards(env, name, s).Keys == s.Keys + Row(gives, name)
  }

  /** Each active plugin works as listed wherever it fits. A plugin may need services of
      plugins that it does not declare as dependencies. */
  ghost predicate WellBehaved(env: Env, needs: ServiceTable, gives: ServiceTable) {
    forall name, s: Services :: name in ActivePlugins(env) && Fits(needs, gives, name, s.Keys) ==>
      WorksAsListed(env, gives, name, s)
  }

  /** Each active plugin works exactly where it fits, and then as listed. */
  ghost predicate ActsAsListed(env: Env, needs: ServiceTable, gives: ServiceTable) {
    && WellBehaved(env, needs, gives)
    && forall name, s: Services :: name in ActivePlugins(env) && HooksWork(env, name, s) ==>
         Fits(needs, gives, name, s.Keys)
  }

  ghost predicate GivenBefore(env: Env, gives: ServiceTable, order: seq<string>, i: nat, s: string)
    requires i <= |order|
  {
    exists j :: 0 <= j < i && order[j] in ActivePlugins(env) && s in Row(gives, order[j])
  }

  /** Whatever an active plugin needs, an active plugin earlier in the order gives. */
  ghost predicate NeedsInOrder(env: Env, needs: ServiceTable, gives: ServiceTable, order: seq<string>) {
    forall i, s :: 0 <= i < |order| && order[i] in ActivePlugins(env) && s in Row(needs, order[i]) ==>
      GivenBefore(env, gives, order, i, s)
  }

  /** No two active plugins give the same service. */
  ghost predicate GivesApart(env: Env, gives: ServiceTable) {
    forall a, b :: a in ActivePlugins(env) && b in ActivePlugins(env) && a != b ==> Row(gives, a) !! Row(gives, b)
  }

  ghost predicate GivenByOneOf(gives: ServiceTable, active: set<string>, s: string) {
    exists name :: name in active && s in Row(gives, name)
  }

  /** The services are exactly those that the active plugins give. */
  ghost predicate Served(gives: ServiceTable, t: Tracking) {
    forall s :: s in t.services <==> GivenByOneOf(gives, t.active, s)
  }

  /** In a suitable order the next plugin fits. */
  lemma NextFits(env: Env, needs: ServiceTable, gives: ServiceTable, order: seq<string>, n: nat, t: Tracking)
    requires NeedsInOrder(env, needs, gives, order) && GivesApart(env, gives)
    requires n < |order| && order[n] in ActivePlugins(env) && order[n] !in t.active
    requires AllUp(env, order, n, t) && Served(gives, t)
    ensures Fits(needs, gives, order[n], t.services.Keys)
  {
    hide Row, ActivePlugins;
    var name := order[n];
    forall s | s in Row(needs, name) ensures s in t.services {
      assert GivenBefore(env, gives, order, n, s);
      var j :| 0 <= j < n && order[j] in ActivePlugins(env) && s in Row(gives, order[j]);
      assert order[..n][j] == order[j] && order[j] in t.active;
      assert GivenByOneOf(gives, t.active, s);
    }
    forall s | s in Row(gives, name) ensures s !in t.services {
      NotGivenYet(env, gives, t.active, name, s);
    }
  }

  lemma NotGivenYet(env: Env, gives: ServiceTable, active: set<string>, name: string, s: string)
    requires GivesApart(env, gives) && active <= ActivePlugins(env)
    requires name in ActivePlugins(env) && name !in active && s in Row(gives, name)
    ensures !GivenByOneOf(gives, active, s)
  {
    hide Row, ActivePlugins;
  }

  lemma StepServed(env: Env, t: Tracking, name: string)
    requires name in env.plugins && StartPlugin(env, t, name).1 == None
    requires name in StartPlugin(env, t, name).0.active && name !in t.active
    ensures HooksWork(env, name, t.services)
    ensures StartPlugin(env, t, name).0.services == Afterwards(env, name, t.services)
    ensures StartPlugin(env, t, name).0.active == t.active + {name}
  {
  }

  lemma StepKeepsServed(env: Env, gives: ServiceTable, t: Tracking, name: string)
    requires name in env.plugins && Served(gives, t)
    requires StartPlugin(env, t, name).1 == None
    requires name in StartPlugin(env, t, name).0.active && name !in t.active
    requires WorksAsListed(env, gives, name, t.services)
    ensures Served(gives, StartPlugin(env, t, name).0)
  {
    hide Row, StartPlugin, HooksWork, Afterwards;
    StepServed(env, t, name);
    var t' := StartPlugin(env, t, name).0;
    forall s ensures s in t'.services <==> GivenByOneOf(gives, t'.active, s) {
      assert GivenByOneOf(gives, t'.active, s) <==> GivenByOneOf(gives, t.active, s) || s in Row(gives, name) by {
        OneMoreGiver(gives, t.active, name, s);
      }
    }
  }

  lemma OneMoreGiver(gives: ServiceTable, active: set<string>, name: string, s: string)
    ensures GivenByOneOf(gives, active + {name}, s) <==> GivenByOneOf(gives, active, s) || s in Row(gives, name)
  {
    hide Row;
    if x :| x in active && s in Row(gives, x) {
      assert x in active + {name};
    }
    if s in Row(gives, name) {
      assert name in active + {name};
    }
  }

  lemma StepNotTaken(env: Env, t: Tracking, name: string)
    requires name in env.plugins && name !in t.active
    requires StartPlugin(env, t, name).1 == None && name !in StartPlugin(env, t, name).0.active
    ensures StartPlugin(env, t, name).0 == t
  {
  }

  /** One step of a start-up in which the next plugin, if it is active, works as listed. */
  lemma ServedStep(env: Env, gives: ServiceTable, order: seq<string>, n: nat, t: Tracking)
    requires NoIssues(env) && DefaultsAccept(env)
    requires TopologicalOrder(DependencyGraph(env), order) && AllKnown(env, order)
    requires n < |order| && AllUp(env, order, n, t) && Served(gives, t)
    requires order[n] in ActivePlugins(env) ==> WorksAsListed(env, gives, order[n], t.services)
    ensures order[n] !in t.active && Served(gives, StartPlugin(env, t, order[n]).0)
  {
    hide NoIssues, DefaultsAccept, StartPlugin, HooksWork, Afterwards, Served, Row;
    var name := order[n];
    NotBefore(order, n);
    OneMoreUp(env, order, n, t);
    assert order[..n + 1] == order[..n] + [name];
    if name in ActivePlugins(env) {
      StepKeepsServed(env, gives, t, name);
    } else {
      StepNotTaken(env, t, name);
    }
  }

  lemma NotUpYet(env: Env, order: seq<string>, n: nat, t: Tracking)
    requires Distinct(order) && n < |order| && AllUp(env, order, n, t)
    ensures order[n] !in t.active
  {
    NotBefore(order, n);
  }

  /** Plugins that are well behaved are shown services on which they work, if the order
      puts a giver of each need first and no service is given twice. */
  lemma {:induction false} WellBehavedHooksWork(env: Env, needs: ServiceTable, gives: ServiceTable, order: seq<string>,
                                                n: nat)
    requires NoIssues(env) && DefaultsAccept(env) && WellBehaved(env, needs, gives)
    requires NeedsInOrder(env, needs, gives, order) && GivesApart(env, gives)
    requires TopologicalOrder(DependencyGraph(env), order) && AllKnown(env, order) && n <= |order|
    ensures HooksWorkAsShown(env, order, n)
    ensures Served(gives, StartAll(env, STOPPED, order, n).0)
  {
    hide NoIssues, DefaultsAccept, StartPlugin, HooksWork, Served, AllUp, ActivePlugins, NeedsInOrder, GivesApart, Fits,
         Distinct, DependenciesFirst;
    if n == 0 {
      NothingServed(gives);
    } else {
      var t := StartAll(env, STOPPED, order, n - 1).0;
      WellBehavedHooksWork(env, needs, gives, order, n - 1);
      AllComeUp(env, order, n - 1);
      if order[n - 1] in ActivePlugins(env) {
        NotUpYet(env, order, n - 1, t);
        NextFits(env, needs, gives, order, n - 1, t);
      }
      ServedStep(env, gives, order, n - 1, t);
      forall i | 0 <= i < n && order[i] in ActivePlugins(env) ensures WorksAt(env, order, i) {
      }
    }
  }

  lemma NothingServed(gives: ServiceTable)
    ensures Served(gives, STOPPED)
  {
  }

  /** For well-behaved plugins, an order that puts a giver of each need first and services
      that are not given twice, start-up does what the settings say if and only if there
      is no issue and every default-enabled plugin the settings leave out accepts an
      empty config. */
  lemma StaticMatchesRuntime(env: Env, needs: ServiceTable, gives: ServiceTable, order: seq<string>)
    requires TopologicalOrder(DependencyGraph(env), order) && AllKnown(env, order)
    requires WellBehaved(env, needs, gives) && NeedsInOrder(env, needs, gives, order) && GivesApart(env, gives)
    ensures StartsAsPredicted(env, order) <==> NoIssues(env) && DefaultsAccept(env)
  {
    hide StartAll, WellBehaved, HooksWorkAsShown, StartsAsPredicted, NeedsInOrder, GivesApart;
    PredictedExactly(env, order);
    if NoIssues(env) && DefaultsAccept(env) {
      WellBehavedHooksWork(env, needs, gives, order, |order|);
    }
  }

  ghost predicate FitsAt(env: Env, needs: ServiceTable, gives: ServiceTable, order: seq<string>, i: nat)
    requires i < |order| && AllKnown(env, order)
  {
    Fits(needs, gives, order[i], StartAll(env, STOPPED, order, i).0.services.Keys)
  }

  lemma WorkingFits(env: Env, needs: ServiceTable, gives: ServiceTable, name: string, s: Services)
    requires ActsAsListed(env, needs, gives) && name in ActivePlugins(env) && HooksWork(env, name, s)
    ensures Fits(needs, gives, name, s.Keys) && WorksAsListed(env, gives, name, s)
  {
  }

  /** If the hooks worked as shown, each plugin fitted when it was started. */
  lemma {:induction false} WorkedMeansFitted(env: Env, needs: ServiceTable, gives: ServiceTable, order: seq<string>,
                                             n: nat)
    requires NoIssues(env) && DefaultsAccept(env) && ActsAsListed(env, needs, gives)
    requires TopologicalOrder(DependencyGraph(env), order) && AllKnown(env, order) && n <= |order|
    requires HooksWorkAsShown(env, order, n)
    ensures Served(gives, StartAll(env, STOPPED, order, n).0)
    ensures forall i :: 0 <= i < n && order[i] in ActivePlugins(env) ==> FitsAt(env, needs, gives, order, i)
  {
    hide NoIssues, DefaultsAccept, ActsAsListed, TopologicalOrder, StartPlugin, HooksWork, WorksAsListed, Served, AllUp,
         ActivePlugins, Fits;
    if n == 0 {
      NothingServed(gives);
    } else {
      var t := StartAll(env, STOPPED, order, n - 1).0;
      WorkedMeansFitted(env, needs, gives, order, n - 1);
      AllComeUp(env, order, n - 1);
      if order[n - 1] in ActivePlugins(env) {
        assert WorksAt(env, order, n - 1);
        WorkingFits(env, needs, gives, order[n - 1], t.services);
      }
      ServedStep(env, gives, order, n - 1, t);
    }
  }

  ghost predicate NeedsMetAt(env: Env, needs: ServiceTable, gives: ServiceTable, order: seq<string>, i: nat)
    requires i < |order|
  {
    forall s :: s in Row(needs, order[i]) ==> GivenBefore(env, gives, order, i, s)
  }

  ghost predicate GivesNothingOf(env: Env, gives: ServiceTable, order: seq<string>, i: nat)
    requires i < |order|
  {
    forall j :: 0 <= j < i && order[j] in ActivePlugins(env) ==> Row(gives, order[j]) !! Row(gives, order[i])
  }

  /** A plugin that fits needs only what has been given before, and gives nothing of it. */
  lemma FittingMeans(env: Env, needs: ServiceTable, gives: ServiceTable, order: seq<string>, i: nat, t: Tracking)
    requires i < |order| && AllUp(env, order, i, t) && Served(gives, t)
    requires Fits(needs, gives, order[i], t.services.Keys)
    ensures NeedsMetAt(env, needs, gives, order, i) && GivesNothingOf(env, gives, order, i)
  {
    hide Row, ActivePlugins;
    forall s | s in Row(needs, order[i]) ensures GivenBefore(env, gives, order, i, s) {
      assert GivenByOneOf(gives, t.active, s);
      var name :| name in t.active && s in Row(gives, name);
      var j :| 0 <= j < i && order[..i][j] == name;
      assert order[j] == name;
    }
    forall j | 0 <= j < i && order[j] in ActivePlugins(env) ensures Row(gives, order[j]) !! Row(gives, order[i]) {
      assert order[..i][j] == order[j] && order[j] in t.active;
      assert forall s :: s in Row(gives, order[j]) ==> GivenByOneOf(gives, t.active, s);
    }
  }

  lemma MetIsInOrder(env: Env, needs: ServiceTable, gives: ServiceTable, order: seq<string>)
    requires forall i :: 0 <= i < |order| && order[i] in ActivePlugins(env) ==> NeedsMetAt(env, needs, gives, order, i)
    ensures NeedsInOrder(env, needs, gives, order)
  {
    hide ActivePlugins, Row, GivenBefore;
  }

  lemma ApartInOrder(env: Env, gives: ServiceTable, order: seq<string>)
    requires forall name :: name in env.plugins ==> name in order
    requires forall i :: 0 <= i < |order| && order[i] in ActivePlugins(env) ==> GivesNothingOf(env, gives, order, i)
    ensures GivesApart(env, gives)
  {
    hide Row;
    forall a, b | a in ActivePlugins(env) && b in ActivePlugins(env) && a != b ensures Row(gives, a) !! Row(gives, b) {
      var i :| 0 <= i < |order| && order[i] == a;
      var j :| 0 <= j < |order| && order[j] == b;
      assert GivesNothingOf(env, gives, order, i) && GivesNothingOf(env, gives, order, j);
    }
  }

  lemma FittedMeansInOrder(env: Env, needs: ServiceTable, gives: ServiceTable, order: seq<string>)
    requires NoIssues(env) && DefaultsAccept(env) && ActsAsListed(env, needs, gives)
    requires TopologicalOrder(DependencyGraph(env), order) && AllKnown(env, order)
    requires HooksWorkAsShown(env, order, |order|)
    ensures NeedsInOrder(env, needs, gives, order) && GivesApart(env, gives)
  {
    hide NoIssues, DefaultsAccept, ActsAsListed, StartAll, NeedsMetAt, GivesNothingOf, Served, AllUp, Fits,
         ActivePlugins, Distinct, DependenciesFirst, NeedsInOrder, GivesApart;
    forall i | 0 <= i < |order| && order[i] in ActivePlugins(env)
      ensures NeedsMetAt(env, needs, gives, order, i) && GivesNothingOf(env, gives, order, i)
    {
      WorkedMeansFitted(env, needs, gives, order, |order|);
      assert FitsAt(env, needs, gives, order, i);
      WorkedMeansFitted(env, needs, gives, order, i);
      AllComeUp(env, order, i);
      FittingMeans(env, needs, gives, order, i, StartAll(env, STOPPED, order, i).0);
    }
    MetIsInOrder(env, needs, gives, order);
    ApartInOrder(env, gives, order);
  }

  /** For plugins that act as listed: start-up in a given order does what the settings say
      if and only if there is no issue, the defaults accept an empty config, the order
      puts a giver of each need first, and no service is given twice. */
  lemma AgreementInOrder(env: Env, needs: ServiceTable, gives: ServiceTable, order: seq<string>)
    requires TopologicalOrder(DependencyGraph(env), order) && AllKnown(env, order)
    requires ActsAsListed(env, needs, gives)
    ensures StartsAsPredicted(env, order)
      <==> NoIssues(env) && DefaultsAccept(env) && NeedsInOrder(env, needs, gives, order) && GivesApart(env, gives)
  {
    hide StartAll, WellBehaved, HooksWork, Fits, HooksWorkAsShown, StartsAsPredicted, NoIssues, DefaultsAccept,
         NeedsInOrder, GivesApart, TopologicalOrder;
    if NeedsInOrder(env, needs, gives, order) && GivesApart(env, gives) {
      StaticMatchesRuntime(env, needs, gives, order);
    }
    PredictedExactly(env, order);
    if StartsAsPredicted(env, order) {
      FittedMeansInOrder(env, needs, gives, order);
    }
  }

  /** `startup` raises nothing and makes exactly the statically active plugins active. */
  ghost predicate StartsAsConfigured(env: Env, names: seq<string>)
    requires forall name :: name in names <==> name in env.plugins
  {
    var (after, error) := StartupOf(env, names, STOPPED);
    error == None && after.active == ActivePlugins(env)
  }

  /** The order that `startup` takes puts a giver of each need first. */
  ghost predicate NeedsInStartOrder(env: Env, names: seq<string>, needs: ServiceTable, gives: ServiceTable) {
    var r := PluginOrder.OrderOf(names, DependencyGraph(env));
    r.Ordered? ==> NeedsInOrder(env, needs, gives, r.names)
  }

  /** Static and runtime agree exactly, for plugins that act as listed, registered in the
      order `names`: `startup` does what the settings say if and only if the validator
      finds no issue, and beyond what it looks at, the unmentioned defaults accept an
      empty config, the dependencies have no cycle, the start order puts a giver of each
      need first, and no service is given twice. */
  lemma AgreementExactly(env: Env, names: seq<string>, needs: ServiceTable, gives: ServiceTable)
    requires forall name :: name in names <==> name in env.plugins
    requires ActsAsListed(env, needs, gives)
    ensures StartsAsConfigured(env, names)
      <==> NoIssues(env) && DefaultsAccept(env) && !HasCycle(DependencyGraph(env))
           && NeedsInStartOrder(env, names, needs, gives) && GivesApart(env, gives)
  {
    hide ActsAsListed, NoIssues, DefaultsAccept, NeedsInOrder, GivesApart, HasCycle, PluginOrder.OrderOf,
         StartupOutcome, TopologicalOrder;
    OrderIsKnown(env, names);
    var r := PluginOrder.OrderOf(names, DependencyGraph(env));
    if r.Ordered? {
      AgreementInOrder(env, needs, gives, r.names);
      UnknownIsRaised(env, r.names);
    }
  }

  lemma UnknownIsRaised(env: Env, order: seq<string>)
    requires AllKnown(env, order)
    ensures StartupOutcome(env, STOPPED, order).1 == None ==> env.settings.Keys <= env.plugins.Keys
  {
  }

  /** Needs that active declared dependencies give are met in every topological order. */
  lemma DeclaredNeedsAreInOrder(env: Env, needs: ServiceTable, gives: ServiceTable, order: seq<string>)
    requires TopologicalOrder(DependencyGraph(env), order) && AllKnown(env, order)
    requires forall name, s :: name in ActivePlugins(env) && s in Row(needs, name) ==>
               GivenByDependency(env, gives, name, s)
    ensures NeedsInOrder(env, needs, gives, order)
  {
    hide Row, ActivePlugins, TopologicalOrder, GivenBefore, GivenByDependency;
    forall i, s | 0 <= i < |order| && order[i] in ActivePlugins(env) && s in Row(needs, order[i])
      ensures GivenBefore(env, gives, order, i, s)
    {
      DependencyGivesBefore(env, gives, order, i, s);
    }
  }

  lemma DependencyGivesBefore(env: Env, gives: ServiceTable, order: seq<string>, i: nat, s: string)
    requires TopologicalOrder(DependencyGraph(env), order) && AllKnown(env, order)
    requires i < |order| && GivenByDependency(env, gives, order[i], s)
    ensures GivenBefore(env, gives, order, i, s)
  {
    hide Row, ActivePlugins, TopologicalOrder;
    var d :| d in env.plugins[order[i]].dependencies && d in env.plugins && d in ActivePlugins(env)
             && s in Row(gives, d);
    var j := EarlierDependency(DependencyGraph(env), order, i, d);
    assert order[j] in ActivePlugins(env) && s in Row(gives, order[j]);
  }

  ghost predicate GivenByDependency(env: Env, gives: ServiceTable, name: string, s: string)
    requires name in env.plugins
  {
    exists d :: d in env.plugins[name].dependencies && d in env.plugins && d in ActivePlugins(env) && s in Row(gives, d)
  }

  // -------------------------------------------------------------- instances

  /** A hook that publishes a new object under `name`, whatever is there. */
  function Publishing(name: string): Services -> HookResult {
    (s: Services) => Leaves(s[name := if name in s then s[name] + 1 else 0])
  }

  /** A hook that raises without the service `name`. */
  function Using(name: string): Services -> HookResult {
    (s: Services) => if name in s then Leaves(s) else Raises
  }

  function Idle(): Services -> HookResult {
    (s: Services) => Leaves(s)
  }

  function Well(): Services -> (HealthState, Services) {
    (s: Services) => (Healthy, s)
  }

  /** `database` publishes the service that the start-up of `ratelimit` raises without;
      `ratelimit` takes it by reference and declares `dependencies`. */
  function LimitedApp(dependencies: seq<string>): Env {
    Env(map["database" := Plugin("database", true, [], [], ["database"], None, Publishing("database"), Idle(), Well()),
            "ratelimit" := Plugin("ratelimit", true, dependencies, [], [], None, Idle(), Using("database"), Well())],
        map[], _ => true)
  }

  const NEEDS: ServiceTable := map["ratelimit" := {"database"}]
  const GIVES: ServiceTable := map["database" := {"database"}]

  lemma LimitedAppActsAsListed(dependencies: seq<string>)
    ensures ActsAsListed(LimitedApp(dependencies), NEEDS, GIVES)
    ensures GivesApart(LimitedApp(dependencies), GIVES)
  {
    var env := LimitedApp(dependencies);
    assert Allowed(env, "database") == {"database"} && Allowed(env, "ratelimit") == {};
    forall name, s: Services | name in ActivePlugins(env)
      ensures HooksWork(env, name, s) <==> Fits(NEEDS, GIVES, name, s.Keys)
      ensures HooksWork(env, name, s) ==> WorksAsListed(env, GIVES, name, s)
    {
      assert name == "database" || name == "ratelimit";
    }
  }

  /** Plugins that raise without another's service are covered by the theorems above. */
  lemma UsingADependencyIsWellBehaved(dependencies: seq<string>)
    ensures WellBehaved(LimitedApp(dependencies), NEEDS, GIVES)
    ensures LimitedApp(dependencies).plugins["ratelimit"].startup(map[]).Raises?
  {
    hide WellBehaved;
    LimitedAppActsAsListed(dependencies);
  }

  lemma LimitedAppIsClean(dependencies: seq<string>)
    requires forall d :: d in dependencies ==> d == "database"
    ensures NoIssues(LimitedApp(dependencies)) && DefaultsAccept(LimitedApp(dependencies))
    ensures ActivePlugins(LimitedApp(dependencies)) == {"database", "ratelimit"}
  {
  }

  /** Both orders of the two plugins are possible. */
  lemma LimitedAppOrders()
    ensures TopologicalOrder(DependencyGraph(LimitedApp([])), ["ratelimit", "database"])
    ensures TopologicalOrder(DependencyGraph(LimitedApp([])), ["database", "ratelimit"])
  {
  }

  /** Without a declared dependency the validator is satisfied, and `startup` succeeds if
      and only if the database is registered first. */
  lemma ProviderMayStartTooLate(names: seq<string>)
    requires names == ["ratelimit", "database"] || names == ["database", "ratelimit"]
    ensures NoIssues(LimitedApp([])) && DefaultsAccept(LimitedApp([]))
    ensures StartsAsConfigured(LimitedApp([]), names) <==> names == ["database", "ratelimit"]
  {
    hide StartsAsConfigured, NoIssues, DefaultsAccept, ActsAsListed, GivesApart, HasCycle, TopologicalOrder;
    var env := LimitedApp([]);
    LimitedAppActsAsListed([]);
    LimitedAppIsClean([]);
    LimitedAppOrders();
    OrderedMeansAcyclic(DependencyGraph(env), names);
    PluginOrder.RegistrationOrderIsKept(names, DependencyGraph(env));
    LimitedNeeds(names);
    AgreementExactly(env, names, NEEDS, GIVES);
  }

  lemma LimitedNeeds(names: seq<string>)
    requires names == ["ratelimit", "database"] || names == ["database", "ratelimit"]
    ensures NeedsInOrder(LimitedApp([]), NEEDS, GIVES, names) <==> names[0] == "database"
  {
    var env := LimitedApp([]);
    LimitedAppIsClean([]);
    if names[0] == "database" {
      assert "database" in Row(GIVES, names[0]);
      forall i, s | 0 <= i < |names| && names[i] in ActivePlugins(env) && s in Row(NEEDS, names[i])
        ensures GivenBefore(env, GIVES, names, i, s)
      {
        assert i == 1 && s == "database" && names[0] in ActivePlugins(env);
      }
    } else {
      assert "database" in Row(NEEDS, names[0]) && !GivenBefore(env, GIVES, names, 0, "database");
    }
  }

  /** With the dependency declared, `startup` succeeds in whatever order they are registered. */
  lemma DeclaredProviderIsInTime(names: seq<string>)
    requires forall name :: name in names <==> name in LimitedApp(["database"]).plugins
    ensures StartsAsConfigured(LimitedApp(["database"]), names)
  {
    hide StartsAsConfigured, NoIssues, DefaultsAccept, ActsAsListed, GivesApart, HasCycle, TopologicalOrder;
    var env := LimitedApp(["database"]);
    LimitedAppActsAsListed(["database"]);
    LimitedAppIsClean(["database"]);
    DeclaredOrder();
    OrderedMeansAcyclic(DependencyGraph(env), ["database", "ratelimit"]);
    OrderIsKnown(env, names);
    forall name, s | name in ActivePlugins(env) && s in Row(NEEDS, name)
      ensures GivenByDependency(env, GIVES, name, s)
    {
      assert "database" in env.plugins["ratelimit"].dependencies && s in Row(GIVES, "database");
    }
    DeclaredNeedsAreInOrder(env, NEEDS, GIVES, PluginOrder.OrderOf(names, DependencyGraph(env)).names);
    AgreementExactly(env, names, NEEDS, GIVES);
  }

  lemma DeclaredOrder()
    ensures TopologicalOrder(DependencyGraph(LimitedApp(["database"])), ["database", "ratelimit"])
  {
  }

  /** The limiter is configured to publish its service as "cache", beside the cache. */
  function Colliding(): Env {
    var named := Some((c: Config) => Accepted(Some("cache")));
    Env(map["cache" := Plugin("cache", true, [], [], ["cache"], None, Publishing("cache"), Idle(), Well()),
            "ratelimit" := Plugin("ratelimit", true, [], [], [], named, Publishing("cache"), Idle(), Well())],
        map[], _ => true)
  }

  const SAME: ServiceTable := map["cache" := {"cache"}, "ratelimit" := {"cache"}]

  lemma CollidingActsAsListed()
    ensures ActsAsListed(Colliding(), map[], SAME) && !GivesApart(Colliding(), SAME)
  {
    var env := Colliding();
    assert Allowed(env, "cache") == {"cache"} && Allowed(env, "ratelimit") == {"cache"};
    forall name, s: Services | name in ActivePlugins(env)
      ensures HooksWork(env, name, s) <==> Fits(map[], SAME, name, s.Keys)
      ensures HooksWork(env, name, s) ==> WorksAsListed(env, SAME, name, s)
    {
      assert name == "cache" || name == "ratelimit";
    }
    assert "cache" in ActivePlugins(env) && "ratelimit" in ActivePlugins(env);
    assert "cache" in Row(SAME, "cache") && "cache" in Row(SAME, "ratelimit");
  }

  lemma CollidingIsClean()
    ensures NoIssues(Colliding()) && DefaultsAccept(Colliding())
  {
    assert CheckConfig(Colliding(), "cache").Accepted? && CheckConfig(Colliding(), "ratelimit").Accepted?;
  }

  /** Two active plugins that publish one service: the validator is satisfied, and
      `startup` fails in whatever order they are registered. */
  lemma CollisionIsNotSeen(names: seq<string>)
    requires forall name :: name in names <==> name in Colliding().plugins
    ensures NoIssues(Colliding()) && DefaultsAccept(Colliding()) && !StartsAsConfigured(Colliding(), names)
  {
    hide StartsAsConfigured, NoIssues, DefaultsAccept, ActsAsListed, GivesApart;
    CollidingActsAsListed();
    CollidingIsClean();
    AgreementExactly(Colliding(), names, map[], SAME);
  }

  /** Two plugins that depend on each other. */
  function Circle(): Env {
    Env(map["a" := Plugin("a", true, ["b"], [], [], None, Idle(), Idle(), Well()),
            "b" := Plugin("b", true, ["a"], [], [], None, Idle(), Idle(), Well())], map[], _ => true)
  }

  /** Nor does the validator look for cycles, on which `startup` raises. */
  lemma CycleIsNotSeen(names: seq<string>)
    requires forall name :: name in names <==> name in Circle().plugins
    ensures NoIssues(Circle()) && DefaultsAccept(Circle())
    ensures StartupOf(Circle(), names, STOPPED) == (STOPPED, Some(CircularDependency))
  {
    hide PluginOrder.OrderOf, NoIssues, DefaultsAccept, HasCycle, Circle;
    CircleIsClean();
    CircleHasCycle();
    OrderIsKnown(Circle(), names);
  }

  lemma CircleIsClean()
    ensures NoIssues(Circle()) && DefaultsAccept(Circle()) && Circle().settings.Keys <= Circle().plugins.Keys
  {
    assert CheckConfig(Circle(), "a").Accepted? && CheckConfig(Circle(), "b").Accepted?;
  }

  lemma CircleHasCycle()
    ensures HasCycle(DependencyGraph(Circle()))
  {
    assert IsCycle(DependencyGraph(Circle()), ["a", "b", "a"]);
  }

  /** One plugin, which is enabled by default and rejects an empty config. */
  function Unmentioned(): Env {
    Env(map["a" := Plugin("a", true, [], [], [], Some(_ => Rejected), Idle(), Idle(), Well())], map[], _ => true)
  }

  /** The settings leave it out, so there is no issue; but start-up does not activate it. */
  lemma UnmentionedDefaultIsNotValidated()
    ensures NoIssues(Unmentioned()) && !DefaultsAccept(Unmentioned())
    ensures TopologicalOrder(DependencyGraph(Unmentioned()), ["a"]) && AllKnown(Unmentioned(), ["a"])
    ensures !StartsAsPredicted(Unmentioned(), ["a"]) && !StartsAsConfigured(Unmentioned(), ["a"])
  {
    hide StartsAsPredicted, PluginOrder.OrderOf, TopologicalOrder;
    UnmentionedOrder();
    assert CheckConfig(Unmentioned(), "a").Rejected?;
    if StartsAsPredicted(Unmentioned(), ["a"]) {
      PredictedMeansNoIssue(Unmentioned(), ["a"]);
    }
    PluginOrder.RegistrationOrderIsKept(["a"], DependencyGraph(Unmentioned()));
    OutcomePredicts(Unmentioned(), ["a"]);
  }

  lemma UnmentionedOrder()
    ensures TopologicalOrder(DependencyGraph(Unmentioned()), ["a"]) && AllKnown(Unmentioned(), ["a"])
  {
  }

  lemma OutcomePredicts(env: Env, order: seq<string>)
    requires AllKnown(env, order)
    ensures var (after, error) := StartupOutcome(env, STOPPED, order);
            StartsAsPredicted(env, order) <==> error == None && after.active == ActivePlugins(env)
  {
  }

  lemma SettingsAreKnown(env: Env)
    requires NoIssues(env)
    ensures env.settings.Keys <= env.plugins.Keys
  {
    forall name | name in env.settings ensures name in env.plugins {
      assert !IsIssue(env, Issue(name, UnknownPlugin));
    }
  }

  /** Whatever the hooks do, a start-up that ends as predicted had a clean report. */
  lemma PredictedMeansNoIssue(env: Env, order: seq<string>)
    requires AllKnown(env, order) && StartsAsPredicted(env, order)
    ensures NoIssues(env) && DefaultsAccept(env)
  {
    hide StartAll, CheckConfig;
    EarnedAlways(env, order, |order|);
    var t := StartAll(env, STOPPED, order, |order|).0;
    assert t.active == ActivePlugins(env);
    forall name | name in ActivePlugins(env)
      ensures !HasUnknown(env, name) && !HasInactive(env, name) && !HasMissingOptional(env, name)
      ensures CheckConfig(env, name).Accepted?
    {
      var p := env.plugins[name];
      assert !DependenciesFail(env, name, t.active);
      forall d | d in p.dependencies ensures d in t.active {
        var i :| 0 <= i < |p.dependencies| && p.dependencies[i] == d;
      }
      forall d | d in p.optionalDependencies ensures env.importable(d) {
        var i :| 0 <= i < |p.optionalDependencies| && p.optionalDependencies[i] == d;
      }
    }
    forall name | name in env.plugins && name !in env.settings && env.plugins[name].defaultEnabled
      ensures env.plugins[name].configModel == None || env.plugins[name].configModel.value(map[]).Accepted?
    {
      assert name in ActivePlugins(env);
      EmptyConfigIsChecked(env, name);
    }
    forall name | name in env.settings && name in env.plugins ensures !IsIssue(env, Issue(name, RejectedConfig)) {
      OwnConfigIsChecked(env, name);
    }
  }

  /** Whatever the hooks do, start-up raises if the settings name an unknown plugin, or
      if the validator reports a plugin that the settings switch on. */
  lemma ReportedMeansRaised(env: Env, order: seq<string>, issue: Issue)
    requires TopologicalOrder(DependencyGraph(env), order) && AllKnown(env, order) && IsIssue(env, issue)
    requires issue.code.UnknownPlugin? || SettingsOf(env, issue.plugin).enabled == Some(true)
    ensures StartupOutcome(env, STOPPED, order).1.Some?
  {
    hide StartAll, Distinct, DependenciesFirst;
    if env.settings.Keys <= env.plugins.Keys {
      var name := issue.plugin;
      assert name in DependencyGraph(env);
      var i :| 0 <= i < |order| && order[i] == name;
      StuckAt(env, order, i, issue);
      if StartAll(env, STOPPED, order, |order|).1 == None {
        EarlierStepsSucceed(env, order, i + 1, |order|);
        assert false;
      }
    } else {
      assert StartupOutcome(env, STOPPED, order).1 == Some(UnknownConfigured);
    }
  }

  lemma StuckAt(env: Env, order: seq<string>, i: nat, issue: Issue)
    requires AllKnown(env, order) && i < |order| && order[i] == issue.plugin && IsIssue(env, issue)
    requires !issue.code.UnknownPlugin? && SettingsOf(env, issue.plugin).enabled == Some(true)
    ensures StartAll(env, STOPPED, order, i + 1).1.Some?
  {
    hide CheckConfig;
    EarnedAlways(env, order, i);
    var t, name, p := StartAll(env, STOPPED, order, i).0, issue.plugin, env.plugins[issue.plugin];
    if issue.code.UnknownDependency? || issue.code.InactiveDependency? {
      var d :| d in p.dependencies && (d !in env.plugins || !PluginIsActive(env, d));
      var k :| 0 <= k < |p.dependencies| && p.dependencies[k] == d;
      assert d !in t.active;
      assert DependenciesFail(env, name, t.active);
    } else if issue.code.MissingOptionalDependency? {
      var d :| d in p.optionalDependencies && !env.importable(d);
      var k :| 0 <= k < |p.optionalDependencies| && p.optionalDependencies[k] == d;
      assert DependenciesFail(env, name, t.active);
    } else {
      OwnConfigIsChecked(env, name);
    }
    if StartAll(env, STOPPED, order, i).1 == None {
      assert StartPlugin(env, t, name).1.Some?;
    }
  }
}
