/** The plugin manager of infra/plugins/manager.py: the methods that update its
    tracking state in place. */
module PluginManagement {
  import opened Text
  import opened Graphs
  import opened PluginLifecycle
  import opened PluginShutdown
  import PluginOrder

  class PluginManager {
    const env: Env
    const names: seq<string>

    var services: Services
    var contexts: map<string, Services>
    var started: seq<string>
    var active: set<string>
    var flag: bool

    function State(): Tracking
      reads this
    {
      Tracking(services, contexts, started, active, flag)
    }

    ghost predicate Valid()
      reads this
    {
      (forall name :: name in names <==> name in env.plugins) && Consistent(env, State())
    }

    constructor (env: Env, names: seq<string>)
      requires forall name :: name in names <==> name in env.plugins
      ensures this.env == env && this.names == names && State() == STOPPED && Valid()
    {
      this.env, this.names := env, names;
      services, contexts, started, active, flag := map[], map[], [], {}, false;
    }

    method StartupPlugin(name: string) returns (error: Option<StartError>)
      requires name in env.plugins
      modifies this
      ensures (State(), error) == StartPlugin(env, old(State()), name)
    {
      var plugin, enabled := env.plugins[name], SettingsOf(env, name).enabled;
      if SwitchedOff(env, name) {
        return None;
      }
      if DependenciesFail(env, name, active) {
        return if enabled == Some(true) then Some(DependencyProblem(name)) else None;
      }
      if CheckConfig(env, name).Rejected? {
        return if enabled.Some? then Some(InvalidConfig(name)) else None;
      }
      var before, allowed := services, Allowed(env, name);
      contexts := contexts[name := before];
      var registered := plugin.register(before);
      if registered.Raises? {
        return Some(HookRaised(name));
      }
      if !ServicesRespected(before, registered.services, allowed) {
        return Some(ServiceProblem(name));
      }
      started := started + [name];
      var begun := plugin.startup(registered.services);
      if begun.Raises? {
        return Some(HookRaised(name));
      }
      if !ServicesRespected(before, begun.services, allowed) {
        return Some(ServiceProblem(name));
      }
      active := active + {name};
      var (health, published) := plugin.health(begun.services);
      assert contexts[name := published] == old(contexts)[name := published];
      contexts := contexts[name := published];
      if health == Unhealthy {
        return Some(UnhealthyPlugin(name));
      }
      services := published;
      error := None;
    }

    /** Every started plugin is asked to stop, last started first, whether or not
        others raise; the first error is raised at the end. */
    method Shutdown(raises: string -> bool) returns (failed: bool, calls: seq<string>)
      modifies this
      ensures old(Valid()) ==> Valid()
      ensures (State(), calls, failed) == ShutdownOutcome(old(State()), raises)
    {
      hide StopAll, RemoveFirst, Reverse, Consistent;
      var order := Reverse(started);
      failed, calls := false, [];
      var i := 0;
      assert order[0..] == order;
      assert [] + StopAll(State(), order, raises).1 == StopAll(State(), order, raises).1;
      while i < |order|
        invariant i <= |order|
        invariant var (after, later, failures) := StopAll(State(), order[i..], raises);
                  StopAll(old(State()), order, raises) == (after, calls + later, failed || failures)
      {
        var name := order[i];
        StopAllUnfold(State(), order, i, raises, calls);
        ghost var (stopped, called, raised) := StopPlugin(State(), name, raises);
        i := i + 1;
        if name !in contexts {
          started := RemoveFirst(started, name);
          active := active - {name};
          assert State() == stopped && !called && !raised;
          continue;
        }
        calls := calls + [name];
        if raises(name) {
          failed := true;
          assert State() == stopped && called && raised;
          continue;
        }
        started := RemoveFirst(started, name);
        contexts := contexts - {name};
        active := active - {name};
        assert State() == stopped && called && !raised;
      }
      assert order[i..] == [] && calls + [] == calls;
      StopNone(State(), raises);
      if !failed {
        services, flag := map[], false;
      }
      if old(Valid()) {
        ShutdownIs(env, old(State()), raises);
      }
    }

    /** Shuts down what was started, swallowing errors, and puts the snapshot back. */
    method RollbackStartup(snapshot: Tracking, raises: string -> bool) returns (stopped: seq<string>)
      modifies this
      ensures State() == snapshot
      ensures stopped == ShutdownOutcome(old(State()), raises).1
    {
      var failed;
      failed, stopped := Shutdown(raises);
      services, contexts := snapshot.services, snapshot.contexts;
      started, active, flag := snapshot.started, snapshot.active, snapshot.flag;
    }

    /** `error` is the exception the program raises, and `stopped` lists the shutdown
        hooks the rollback called. Whatever failed, and whichever rollback hooks raise,
        all tracking state is as before the call. */
    method Startup(raises: string -> bool) returns (error: Option<StartError>, stopped: seq<string>)
      requires Valid()
      modifies this
      ensures Valid()
      ensures error.Some? ==> State() == old(State())
      ensures error == Some(AlreadyStarted) <==> old(flag)
      ensures error == Some(UnknownConfigured) <==> !old(flag) && !(env.settings.Keys <= env.plugins.Keys)
      ensures error == Some(CircularDependency) <==>
        !old(flag) && env.settings.Keys <= env.plugins.Keys && HasCycle(DependencyGraph(env))
      ensures old(flag) || !(env.settings.Keys <= env.plugins.Keys) || HasCycle(DependencyGraph(env)) ==> stopped == []
      ensures !old(flag) && env.settings.Keys <= env.plugins.Keys && !HasCycle(DependencyGraph(env)) ==>
        var r := PluginOrder.OrderOf(names, DependencyGraph(env));
        r.Ordered? && StartedInOrder(env, old(State()), raises, r.names, State(), error, stopped)
      ensures (State(), error) == StartupOf(env, names, old(State()))
      ensures error == None ==> stopped == []
      ensures error.Some? && !old(flag) && env.settings.Keys <= env.plugins.Keys && !HasCycle(DependencyGraph(env)) ==>
        var order := PluginOrder.OrderOf(names, DependencyGraph(env)).names;
        AllKnown(env, order) && exists n: nat :: FailsAt(env, order, n) && RolledBack(env, order, n, stopped)
    {
      hide StartPlugin, StartAll, PluginOrder.OrderOf, HasCycle;
      stopped := [];
      OrderIsKnown(env, names);
      if flag {
        return Some(AlreadyStarted), [];
      }
      if !(env.settings.Keys <= env.plugins.Keys) {
        return Some(UnknownConfigured), [];
      }
      var snapshot := State();
      var resolver := new PluginOrder.Resolver(names, DependencyGraph(env));
      var resolution := resolver.ResolveOrder();
      if resolution.Circular? {
        stopped := RollbackStartup(snapshot, raises);
        return Some(CircularDependency), stopped;
      }
      var order := resolution.names;
      var i := 0;
      StartNone(env, snapshot, order);
      while i < |order|
        invariant i <= |order|
        invariant StartAll(env, snapshot, order, i) == (State(), None)
      {
        error := StartupPlugin(order[i]);
        StartOneMore(env, snapshot, order, i);
        i := i + 1;
        if error.Some? {
          ghost var k := FailsSomewhere(env, order, i);
          RollbackStops(env, order, k, raises);
          ErrorStays(env, snapshot, order, i, |order|);
          StartErrors(env, snapshot, order, |order|);
          stopped := RollbackStartup(snapshot, raises);
          assert StartedInOrder(env, snapshot, raises, order, State(), error, stopped);
          return;
        }
      }
      flag := true;
      error := None;
      assert StartedInOrder(env, snapshot, raises, order, State(), error, stopped);
      StartupKeepsConsistent(env, snapshot, order);
    }
  }
}
