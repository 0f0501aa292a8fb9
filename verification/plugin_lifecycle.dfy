/** What plugin start-up, rollback and shutdown of infra/plugins/manager.py do to the
    manager's tracking state, and what every run of them keeps.

    A plugin's hooks are functions of the services they see; services are compared
    by identity, which stands for the objects themselves. Whether a shutdown hook
    raises is a parameter of the call that runs it. */
module PluginLifecycle {
  import opened Text
  import opened Sequences
  import opened Graphs
  import PluginOrder

  type Service = nat
  type Services = map<string, Service>
  type Config = map<string, string>

  datatype HookResult = Raises | Leaves(services: Services)

  datatype HealthState = Healthy | Degraded | Unhealthy | Disabled

  /** What validating a configuration yields: the text that the plugin's
      `service_name_config` field has in it, if there is one. */
  datatype ConfigCheck = Rejected | Accepted(serviceName: Option<string>)

  /** A health check that raises or times out counts as Unhealthy. */
  datatype Plugin = Plugin(
    name: string,
    defaultEnabled: bool,
    dependencies: seq<string>,
    optionalDependencies: seq<string>,
    offers: seq<string>,
    configModel: Option<Config -> ConfigCheck>,
    register: Services -> HookResult,
    startup: Services -> HookResult,
    health: Services -> (HealthState, Services))

  datatype PluginSettings = PluginSettings(enabled: Option<bool>, config: Config)

  datatype Env = Env(plugins: map<string, Plugin>, settings: map<string, PluginSettings>, importable: string -> bool)

  datatype StartError =
    | AlreadyStarted
    | UnknownConfigured
    | CircularDependency
    | DependencyProblem(name: string)
    | InvalidConfig(name: string)
    | HookRaised(name: string)
    | ServiceProblem(name: string)
    | UnhealthyPlugin(name: string)

  /** The state that start-up, rollback and shutdown update. */
  datatype Tracking = Tracking(
    services: Services,
    contexts: map<string, Services>,
    started: seq<string>,
    active: set<string>,
    flag: bool)

  const STOPPED := Tracking(map[], map[], [], {}, false)

  function SettingsOf(env: Env, name: string): PluginSettings {
    if name in env.settings then env.settings[name] else PluginSettings(None, map[])
  }

  function DependencyGraph(env: Env): Graph {
    map name | name in env.plugins :: env.plugins[name].dependencies
  }

  predicate SwitchedOff(env: Env, name: string)
    requires name in env.plugins
  {
    var enabled := SettingsOf(env, name).enabled;
    enabled == Some(false) || (enabled == None && !env.plugins[name].defaultEnabled)
  }

  predicate DependenciesFail(env: Env, name: string, active: set<string>)
    requires name in env.plugins
  {
    var p := env.plugins[name];
    || (exists i :: 0 <= i < |p.dependencies| && p.dependencies[i] !in env.plugins)
    || (exists i :: 0 <= i < |p.dependencies| && p.dependencies[i] !in active)
    || (exists i :: 0 <= i < |p.optionalDependencies| && !env.importable(p.optionalDependencies[i]))
  }

  function CheckConfig(env: Env, name: string): ConfigCheck
    requires name in env.plugins
  {
    match env.plugins[name].configModel
    case None => Accepted(None)
    case Some(validate) => validate(SettingsOf(env, name).config)
  }

  /** The service names a plugin may publish. */
  function Allowed(env: Env, name: string): set<string>
    requires name in env.plugins
  {
    var c := CheckConfig(env, name);
    (set s | s in env.plugins[name].offers)
    + (if c.Accepted? && c.serviceName.Some? then {c.serviceName.value} else {})
  }

  /** The plugin offers the service, or its own configuration names it. */
  predicate Declares(env: Env, name: string, s: string)
    requires name in env.plugins
  {
    || s in env.plugins[name].offers
    || (env.plugins[name].configModel.Some?
        && env.plugins[name].configModel.value(if name in env.settings then env.settings[name].config else map[])
           == Accepted(Some(s)))
  }

  lemma AllowedAreDeclared(env: Env, name: string)
    requires name in env.plugins
    ensures forall s :: s in Allowed(env, name) <==> Declares(env, name, s)
  {
  }

  /** Nothing removed, nothing replaced, nothing undeclared added. */
  predicate ServicesRespected(before: Services, after: Services, allowed: set<string>) {
    && before.Keys <= after.Keys
    && (forall s :: s in before ==> after[s] == before[s])
    && after.Keys - before.Keys <= allowed
  }

  /** Starting one plugin: the state reached, and the error that stopped it there. */
  function StartPlugin(env: Env, t: Tracking, name: string): (Tracking, Option<StartError>)
    requires name in env.plugins
  {
    var p, wanted := env.plugins[name], SettingsOf(env, name).enabled;
    if SwitchedOff(env, name) then (t, None)
    else if DependenciesFail(env, name, t.active) then
      (t, if wanted == Some(true) then Some(DependencyProblem(name)) else None)
    else if CheckConfig(env, name).Rejected? then
      (t, if wanted.Some? then Some(InvalidConfig(name)) else None)
    else
      var allowed := Allowed(env, name);
      var registering := t.(contexts := t.contexts[name := t.services]);
      var registered := p.register(t.services);
      if registered.Raises? then (registering, Some(HookRaised(name)))
      else if !ServicesRespected(t.services, registered.services, allowed) then
        (registering, Some(ServiceProblem(name)))
      else
        var starting := registering.(started := t.started + [name]);
        var begun := p.startup(registered.services);
        if begun.Raises? then (starting, Some(HookRaised(name)))
        else if !ServicesRespected(t.services, begun.services, allowed) then (starting, Some(ServiceProblem(name)))
        else
          var (health, services) := p.health(begun.services);
          var up := starting.(active := t.active + {name}, contexts := t.contexts[name := services]);
          if health == Unhealthy then (up, Some(UnhealthyPlugin(name))) else (up.(services := services), None)
  }

  predicate SwitchedOn(env: Env, name: string) {
    name in env.settings && env.settings[name].enabled == Some(true)
  }

  /** Switched off, or not said to be on and off by default. */
  predicate OffBySettings(env: Env, name: string)
    requires name in env.plugins
  {
    if name in env.settings && env.settings[name].enabled.Some? then !env.settings[name].enabled.value
    else !env.plugins[name].defaultEnabled
  }

  /** A dependency is not in the manager or not active, or a package cannot be imported. */
  ghost predicate LacksDependency(env: Env, name: string, active: set<string>)
    requires name in env.plugins
  {
    || (exists d :: d in env.plugins[name].dependencies && (d !in env.plugins || d !in active))
    || (exists d :: d in env.plugins[name].optionalDependencies && !env.importable(d))
  }

  lemma LacksExactly(env: Env, name: string, active: set<string>)
    requires name in env.plugins
    ensures LacksDependency(env, name, active) <==> DependenciesFail(env, name, active)
  {
  }

  /** What stops a plugin before its hooks run: nothing is done with one that is switched
      off; missing dependencies and a rejected configuration are raised for a plugin that
      is switched on, and pass over one that is merely on by default. */
  lemma BeforeHooks(env: Env, t: Tracking, name: string)
    requires name in env.plugins
    ensures OffBySettings(env, name) ==> StartPlugin(env, t, name) == (t, None)
    ensures !OffBySettings(env, name) && LacksDependency(env, name, t.active) ==>
      StartPlugin(env, t, name) == (t, if SwitchedOn(env, name) then Some(DependencyProblem(name)) else None)
    ensures !OffBySettings(env, name) && !LacksDependency(env, name, t.active) && CheckConfig(env, name).Rejected? ==>
      StartPlugin(env, t, name) == (t, if SwitchedOn(env, name) then Some(InvalidConfig(name)) else None)
  {
    LacksExactly(env, name, t.active);
  }

  /** Every service is still there, and new ones are declared by the plugin. */
  ghost predicate Fits(env: Env, name: string, before: Services, after: Services)
    requires name in env.plugins
  {
    && (forall s :: s in before ==> s in after && after[s] == before[s])
    && (forall s :: s in after && s !in before ==> Declares(env, name, s))
  }

  lemma FitsExactly(env: Env, name: string, before: Services, after: Services)
    requires name in env.plugins
    ensures Fits(env, name, before, after) <==> ServicesRespected(before, after, Allowed(env, name))
  {
    hide Declares, Allowed;
    AllowedAreDeclared(env, name);
  }

  /** What the hooks of a plugin that may start can be raised for, in this order. */
  lemma HookErrors(env: Env, t: Tracking, name: string)
    requires name in env.plugins && !OffBySettings(env, name) && !LacksDependency(env, name, t.active)
    requires CheckConfig(env, name).Accepted?
    ensures var p, error := env.plugins[name], StartPlugin(env, t, name).1;
            var registered := p.register(t.services);
            if registered == Raises then error == Some(HookRaised(name))
            else if !Fits(env, name, t.services, registered.services) then error == Some(ServiceProblem(name))
            else
              var begun := p.startup(registered.services);
              if begun == Raises then error == Some(HookRaised(name))
              else if !Fits(env, name, t.services, begun.services) then error == Some(ServiceProblem(name))
              else
                var healthy := p.health(begun.services).0 != Unhealthy;
                error == if healthy then None else Some(UnhealthyPlugin(name))
  {
    hide Fits, ServicesRespected, Allowed;
    LacksExactly(env, name, t.active);
    var registered := env.plugins[name].register(t.services);
    if registered.Leaves? {
      FitsExactly(env, name, t.services, registered.services);
      var begun := env.plugins[name].startup(registered.services);
      if begun.Leaves? {
        FitsExactly(env, name, t.services, begun.services);
      }
    }
  }

  predicate AllKnown(env: Env, order: seq<string>) {
    forall i :: 0 <= i < |order| ==> order[i] in env.plugins
  }

  /** The first `n` plugins of `order`, up to the first error. */
  function StartAll(env: Env, t: Tracking, order: seq<string>, n: nat): (Tracking, Option<StartError>)
    requires n <= |order| && AllKnown(env, order)
  {
    if n == 0 then (t, None)
    else
      var (before, error) := StartAll(env, t, order, n - 1);
      if error.Some? then (before, error) else StartPlugin(env, before, order[n - 1])
  }

  function StartupOutcome(env: Env, t: Tracking, order: seq<string>): (Tracking, Option<StartError>)
    requires AllKnown(env, order)
  {
    if t.flag then (t, Some(AlreadyStarted))
    else if !(env.settings.Keys <= env.plugins.Keys) then (t, Some(UnknownConfigured))
    else
      var (after, error) := StartAll(env, t, order, |order|);
      if error.Some? then (t, error) else (after.(flag := true), None)
  }

  function RemoveFirst(s: seq<string>, x: string): seq<string> {
    if s == [] then [] else if s[0] == x then s[1..] else [s[0]] + RemoveFirst(s[1..], x)
  }

  function Reverse(s: seq<string>): seq<string> {
    if s == [] then [] else [s[|s| - 1]] + Reverse(s[..|s| - 1])
  }

  /** Stopping one plugin: the new state, whether its hook was called and whether it raised. */
  function StopPlugin(t: Tracking, name: string, raises: string -> bool): (Tracking, bool, bool) {
    if name !in t.contexts then
      (t.(started := RemoveFirst(t.started, name), active := t.active - {name}), false, false)
    else if raises(name) then (t, true, true)
    else
      var started := RemoveFirst(t.started, name);
      (t.(started := started, contexts := t.contexts - {name}, active := t.active - {name}), true, false)
  }

  /** Stopping the plugins of `names` in turn: the state, the hooks called, and whether
      any of them raised. */
  function StopAll(t: Tracking, names: seq<string>, raises: string -> bool): (Tracking, seq<string>, bool)
    decreases |names|
  {
    if names == [] then (t, [], false)
    else
      var (t1, called, failed) := StopPlugin(t, names[0], raises);
      var (t2, calls, failures) := StopAll(t1, names[1..], raises);
      (t2, (if called then [names[0]] else []) + calls, failed || failures)
  }

  function ShutdownOutcome(t: Tracking, raises: string -> bool): (Tracking, seq<string>, bool) {
    var (after, calls, failed) := StopAll(t, Reverse(t.started), raises);
    (if failed then after else after.(services := map[], flag := false), calls, failed)
  }

  /** The shutdown hooks a failed start-up calls while it rolls back. */
  function RollbackCalls(env: Env, t: Tracking, order: seq<string>, raises: string -> bool): seq<string>
    requires AllKnown(env, order)
  {
    var (after, error) := StartAll(env, t, order, |order|);
    if error.Some? then ShutdownOutcome(after, raises).1 else []
  }

  /** Between calls: each started plugin has a context and is active, no plugin is
      started twice or before something it depends on, and while the flag is false
      nothing is tracked. */
  ghost predicate Consistent(env: Env, t: Tracking) {
    && Distinct(t.started)
    && (forall name :: name in t.started <==> name in t.active)
    && t.contexts.Keys == t.active && t.active <= env.plugins.Keys
    && DependenciesFirst(Restricted(env, t.active), t.started)
    && (!t.flag ==> t == STOPPED)
  }

  /** The dependency graph among `names`. */
  function Restricted(env: Env, names: set<string>): Graph {
    map name | name in env.plugins && name in names :: env.plugins[name].dependencies
  }

  /** A start-up from `t` that took the plugins in `order`. */
  ghost predicate StartedInOrder(env: Env, t: Tracking, raises: string -> bool, order: seq<string>,
                                 after: Tracking, error: Option<StartError>, stopped: seq<string>)
  {
    && TopologicalOrder(DependencyGraph(env), order) && AllKnown(env, order)
    && (after, error) == StartupOutcome(env, t, order)
    && stopped == RollbackCalls(env, t, order, raises)
  }

  /** The order that the manager takes is one of its plugins. */
  lemma OrderIsKnown(env: Env, names: seq<string>)
    requires forall name :: name in names <==> name in env.plugins
    ensures var r := PluginOrder.OrderOf(names, DependencyGraph(env));
            && (r.Ordered? ==> AllKnown(env, r.names) && TopologicalOrder(DependencyGraph(env), r.names))
            && (r.Circular? <==> HasCycle(DependencyGraph(env)))
  {
    hide PluginOrder.OrderOf, HasCycle;
    PluginOrder.OrderIsTopological(names, DependencyGraph(env));
  }

  /** `startup` as a whole, of plugins that are registered in the order `names`. */
  function StartupOf(env: Env, names: seq<string>, t: Tracking): (Tracking, Option<StartError>)
    requires forall name :: name in names <==> name in env.plugins
  {
    if t.flag then (t, Some(AlreadyStarted))
    else if !(env.settings.Keys <= env.plugins.Keys) then (t, Some(UnknownConfigured))
    else
      OrderIsKnown(env, names);
      match PluginOrder.OrderOf(names, DependencyGraph(env))
      case Circular(_) => (t, Some(CircularDependency))
      case Ordered(order) => StartupOutcome(env, t, order)
  }

  lemma StartNone(env: Env, t: Tracking, order: seq<string>)
    requires AllKnown(env, order)
    ensures StartAll(env, t, order, 0) == (t, None)
  {
  }

  lemma StartOneMore(env: Env, t: Tracking, order: seq<string>, i: nat)
    requires i < |order| && AllKnown(env, order)
    requires StartAll(env, t, order, i).1 == None
    ensures StartAll(env, t, order, i + 1) == StartPlugin(env, StartAll(env, t, order, i).0, order[i])
  {
  }

  lemma {:induction false} ErrorStays(env: Env, t: Tracking, order: seq<string>, i: nat, n: nat)
    requires i <= n <= |order| && AllKnown(env, order)
    requires StartAll(env, t, order, i).1.Some?
    ensures StartAll(env, t, order, n) == StartAll(env, t, order, i)
    decreases n
  {
    hide StartPlugin;
    if i < n {
      ErrorStays(env, t, order, i, n - 1);
    }
  }

  /** The errors of single plugins are not those raised before any plugin is started. */
  lemma {:induction false} StartErrors(env: Env, t: Tracking, order: seq<string>, n: nat)
    requires n <= |order| && AllKnown(env, order)
    ensures var e := StartAll(env, t, order, n).1;
            e.Some? ==> !e.value.AlreadyStarted? && !e.value.UnknownConfigured? && !e.value.CircularDependency?
  {
    if n > 0 {
      StartErrors(env, t, order, n - 1);
    }
  }

  lemma StopAllUnfold(t: Tracking, order: seq<string>, i: nat, raises: string -> bool, calls: seq<string>)
    requires i < |order|
    ensures var (t1, called, failed) := StopPlugin(t, order[i], raises);
            var (t2, later, failures) := StopAll(t1, order[i + 1..], raises);
            var r := StopAll(t, order[i..], raises);
            && r.0 == t2 && r.2 == (failed || failures)
            && calls + r.1 == (if called then calls + [order[i]] else calls) + later
  {
    assert order[i..][1..] == order[i + 1..];
    var later := StopAll(StopPlugin(t, order[i], raises).0, order[i + 1..], raises).1;
    assert calls + ([order[i]] + later) == (calls + [order[i]]) + later;
    assert calls + ([] + later) == calls + later;
  }

  // ------------------------------------------------- what start-up establishes

  /** The state after the first plugins of a start-up that has met no error. */
  ghost predicate Running(env: Env, order: seq<string>, n: nat, t: Tracking)
    requires n <= |order|
  {
    && Distinct(t.started)
    && (forall name :: name in t.started <==> name in t.active)
    && t.contexts.Keys == t.active && t.active <= env.plugins.Keys
    && (forall name :: name in t.active ==> name in order[..n])
    && DependenciesFirst(DependencyGraph(env), t.started)
    && !t.flag
  }

  lemma RunningStep(env: Env, order: seq<string>, n: nat, t: Tracking)
    requires n < |order| && AllKnown(env, order) && Distinct(order) && Running(env, order, n, t)
    requires StartPlugin(env, t, order[n]).1 == None
    ensures Running(env, order, n + 1, StartPlugin(env, t, order[n]).0)
  {
    hide DependenciesFirst;
    var name := order[n];
    var t' := StartPlugin(env, t, name).0;
    assert order[..n + 1] == order[..n] + [name];
    if t' != t && t'.started != t.started {
      assert name !in order[..n];
      assert !DependenciesFail(env, name, t.active);
      forall d | Edge(DependencyGraph(env), name, d) ensures d in t.started {
        var i :| 0 <= i < |env.plugins[name].dependencies| && env.plugins[name].dependencies[i] == d;
        assert d in t.active;
      }
      AppendKeepsOrder(DependencyGraph(env), t.started, name);
    }
  }

  lemma {:induction false} RunningAfter(env: Env, order: seq<string>, n: nat)
    requires n <= |order| && AllKnown(env, order) && Distinct(order)
    requires StartAll(env, STOPPED, order, n).1 == None
    ensures Running(env, order, n, StartAll(env, STOPPED, order, n).0)
  {
    hide StartPlugin, Running, Distinct;
    if n == 0 {
      RunningNothing(env, order);
    } else {
      RunningAfter(env, order, n - 1);
      RunningStep(env, order, n - 1, StartAll(env, STOPPED, order, n - 1).0);
    }
  }

  lemma RunningNothing(env: Env, order: seq<string>)
    ensures Running(env, order, 0, STOPPED)
  {
  }

  lemma RestrictedKeepsOrder(env: Env, t: Tracking)
    requires DependenciesFirst(DependencyGraph(env), t.started)
    ensures DependenciesFirst(Restricted(env, t.active), t.started)
  {
    var g, r := DependencyGraph(env), Restricted(env, t.active);
    forall i, d | 0 <= i < |t.started| && Edge(r, t.started[i], d) && d in r ensures d in t.started[..i] {
      assert Edge(g, t.started[i], d) && d in g;
    }
  }

  /** Between calls the tracking state stays consistent, whatever a start-up does. */
  lemma StartupKeepsConsistent(env: Env, t: Tracking, order: seq<string>)
    requires Consistent(env, t) && TopologicalOrder(DependencyGraph(env), order) && AllKnown(env, order)
    ensures Consistent(env, StartupOutcome(env, t, order).0)
  {
    hide StartAll;
    var (after, error) := StartupOutcome(env, t, order);
    if error == None {
      RunningAfter(env, order, |order|);
      RestrictedKeepsOrder(env, StartAll(env, t, order, |order|).0);
    }
  }

  lemma {:induction false} EarlierStepsSucceed(env: Env, order: seq<string>, i: nat, n: nat)
    requires i <= n <= |order| && AllKnown(env, order) && StartAll(env, STOPPED, order, n).1 == None
    ensures StartAll(env, STOPPED, order, i).1 == None
    decreases n
  {
    if i < n {
      EarlierStepsSucceed(env, order, i, n - 1);
    }
  }
}
