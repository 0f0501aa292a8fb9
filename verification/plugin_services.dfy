/** Who owns a service after start-up, and when ownership holds (the service rules of
    infra/plugins/manager.py). */
module PluginServices {
  import opened Text
  import opened Graphs
  import opened PluginLifecycle

  /** What the health check of `name` is shown when start-up gets that far. */
  function Shown(env: Env, t: Tracking, name: string): Option<Services>
    requires name in env.plugins
  {
    if SwitchedOff(env, name) || DependenciesFail(env, name, t.active) || CheckConfig(env, name).Rejected? then None
    else
      var registered := env.plugins[name].register(t.services);
      if registered.Raises? then None
      else
        var begun := env.plugins[name].startup(registered.services);
        if begun.Raises? then None else Some(begun.services)
  }

  /** The health check, on the services it is in fact shown at step `i`, leaves earlier
      services alone and adds none that the plugin has not declared. */
  ghost predicate HealthRespects(env: Env, order: seq<string>, i: nat)
    requires i < |order| && AllKnown(env, order)
  {
    var t, name := StartAll(env, STOPPED, order, i).0, order[i];
    var shown := Shown(env, t, name);
    shown.Some? ==> ServicesRespected(t.services, env.plugins[name].health(shown.value).1, Allowed(env, name))
  }

  ghost predicate HealthChecksRespect(env: Env, order: seq<string>)
    requires AllKnown(env, order)
  {
    forall i :: 0 <= i < |order| ==> HealthRespects(env, order, i)
  }

  lemma StepServices(env: Env, t: Tracking, name: string)
    requires name in env.plugins && StartPlugin(env, t, name).1 == None
    ensures var t', shown := StartPlugin(env, t, name).0, Shown(env, t, name);
            && t.active <= t'.active
            && t'.services == (if shown.Some? then env.plugins[name].health(shown.value).1 else t.services)
            && (shown.Some? ==> name in t'.active)
  {
  }

  /** A step respects the services before it if and only if its health check does. */
  lemma StepRespects(env: Env, order: seq<string>, i: nat)
    requires i < |order| && AllKnown(env, order) && StartAll(env, STOPPED, order, i + 1).1 == None
    ensures var t, t' := StartAll(env, STOPPED, order, i).0, StartAll(env, STOPPED, order, i + 1).0;
            && (HealthRespects(env, order, i) <==> ServicesRespected(t.services, t'.services, Allowed(env, order[i])))
            && t.active <= t'.active && (t'.services != t.services ==> order[i] in t'.active)
  {
    hide StartPlugin, Shown, Allowed;
    EarlierStepsSucceed(env, order, i, i + 1);
    StepServices(env, StartAll(env, STOPPED, order, i).0, order[i]);
  }

  ghost predicate AddedAt(env: Env, order: seq<string>, i: nat, s: string)
    requires i < |order| && AllKnown(env, order)
  {
    s !in StartAll(env, STOPPED, order, i).0.services && s in StartAll(env, STOPPED, order, i + 1).0.services
  }

  ghost predicate Kept(early: Services, late: Services) {
    early.Keys <= late.Keys && forall s :: s in early ==> late[s] == early[s]
  }

  lemma {:induction false} ActivePersist(env: Env, order: seq<string>, i: nat, n: nat)
    requires i <= n <= |order| && AllKnown(env, order) && StartAll(env, STOPPED, order, n).1 == None
    ensures StartAll(env, STOPPED, order, i).0.active <= StartAll(env, STOPPED, order, n).0.active
    decreases n
  {
    if i < n {
      hide StartPlugin;
      EarlierStepsSucceed(env, order, n - 1, n);
      ActivePersist(env, order, i, n - 1);
      StepRespects(env, order, n - 1);
    }
  }

  /** A published service is never removed or replaced by a later plugin. */
  lemma {:induction false} ServicesPersist(env: Env, order: seq<string>, i: nat, n: nat)
    requires i <= n <= |order| && AllKnown(env, order) && HealthChecksRespect(env, order)
    requires StartAll(env, STOPPED, order, n).1 == None
    ensures Kept(StartAll(env, STOPPED, order, i).0.services, StartAll(env, STOPPED, order, n).0.services)
    decreases n
  {
    if i < n {
      hide StartPlugin, StartAll, HealthRespects, AllKnown, Kept;
      EarlierStepsSucceed(env, order, n - 1, n);
      ServicesPersist(env, order, i, n - 1);
      assert HealthRespects(env, order, n - 1);
      StepRespects(env, order, n - 1);
      RespectedIsKept(StartAll(env, STOPPED, order, i).0.services, StartAll(env, STOPPED, order, n - 1).0.services,
                      StartAll(env, STOPPED, order, n).0.services, Allowed(env, order[n - 1]));
    } else {
      KeepsItself(StartAll(env, STOPPED, order, n).0.services);
    }
  }

  lemma RespectedIsKept(a: Services, b: Services, c: Services, allowed: set<string>)
    requires Kept(a, b) && ServicesRespected(b, c, allowed)
    ensures Kept(a, c)
  {
  }

  lemma KeepsItself(s: Services)
    ensures Kept(s, s)
  {
  }

  lemma {:induction false} SomeoneAdded(env: Env, order: seq<string>, n: nat, s: string)
    requires n <= |order| && AllKnown(env, order) && s in StartAll(env, STOPPED, order, n).0.services
    ensures exists i :: 0 <= i < n && AddedAt(env, order, i, s)
  {
    if n > 0 && s in StartAll(env, STOPPED, order, n - 1).0.services {
      SomeoneAdded(env, order, n - 1, s);
    } else if n > 0 {
      assert AddedAt(env, order, n - 1, s);
    }
  }

  /** Step `i` published `s`: its plugin is active and declared it, the final object is
      the one it published, and no other step added it. */
  ghost predicate OwnerAt(env: Env, order: seq<string>, i: nat, s: string)
    requires i < |order| && AllKnown(env, order)
  {
    var since, last := StartAll(env, STOPPED, order, i + 1).0, StartAll(env, STOPPED, order, |order|).0;
    && AddedAt(env, order, i, s)
    && (forall j :: 0 <= j < |order| && AddedAt(env, order, j, s) ==> j == i)
    && order[i] in last.active && Declares(env, order[i], s)
    && s in since.services && s in last.services && last.services[s] == since.services[s]
  }

  ghost predicate HasOwner(env: Env, order: seq<string>, s: string)
    requires AllKnown(env, order)
  {
    exists i :: 0 <= i < |order| && OwnerAt(env, order, i, s)
  }

  /** After a start-up without an error every published service was added by exactly one
      plugin, which is active and declared it, and is the object that plugin published. */
  lemma ServicesAreOwned(env: Env, order: seq<string>, s: string)
    requires AllKnown(env, order) && HealthChecksRespect(env, order)
    requires StartAll(env, STOPPED, order, |order|).1 == None
    requires s in StartAll(env, STOPPED, order, |order|).0.services
    ensures HasOwner(env, order, s)
  {
    hide StartPlugin, StartAll, Allowed, Declares, HealthRespects;
    SomeoneAdded(env, order, |order|, s);
    var i :| 0 <= i < |order| && AddedAt(env, order, i, s);
    EarlierStepsSucceed(env, order, i + 1, |order|);
    assert HealthRespects(env, order, i);
    StepRespects(env, order, i);
    ActivePersist(env, order, i + 1, |order|);
    ServicesPersist(env, order, i + 1, |order|);
    forall j | 0 <= j < |order| && AddedAt(env, order, j, s) ensures j == i {
      EarlierStepsSucceed(env, order, j, |order|);
      if i < j {
        ServicesPersist(env, order, i + 1, j);
      } else if j < i {
        EarlierStepsSucceed(env, order, i, |order|);
        EarlierStepsSucceed(env, order, j + 1, |order|);
        ServicesPersist(env, order, j + 1, i);
      }
    }
    AllowedAreDeclared(env, order[i]);
    assert OwnerAt(env, order, i, s);
  }

  /** Services persist from every step to every later one, and each has its owner. */
  ghost predicate OwnershipHolds(env: Env, order: seq<string>)
    requires AllKnown(env, order)
  {
    && (forall i, n :: 0 <= i <= n <= |order| ==>
         Kept(StartAll(env, STOPPED, order, i).0.services, StartAll(env, STOPPED, order, n).0.services))
    && (forall s :: s in StartAll(env, STOPPED, order, |order|).0.services ==> HasOwner(env, order, s))
  }

  /** Over a start-up without an error, services persist and are owned if and only if
      each health check respects the services that it is shown. Health checks run after
      the last validation, so nothing else sees to that. */
  lemma OwnershipExactly(env: Env, order: seq<string>)
    requires AllKnown(env, order) && StartAll(env, STOPPED, order, |order|).1 == None
    ensures OwnershipHolds(env, order) <==> HealthChecksRespect(env, order)
  {
    hide StartPlugin, StartAll, HealthRespects, Kept, HasOwner;
    if HealthChecksRespect(env, order) {
      forall i, n | 0 <= i <= n <= |order|
        ensures Kept(StartAll(env, STOPPED, order, i).0.services, StartAll(env, STOPPED, order, n).0.services)
      {
        EarlierStepsSucceed(env, order, n, |order|);
        ServicesPersist(env, order, i, n);
      }
      forall s | s in StartAll(env, STOPPED, order, |order|).0.services ensures HasOwner(env, order, s) {
        ServicesAreOwned(env, order, s);
      }
    }
    if OwnershipHolds(env, order) {
      forall i | 0 <= i < |order| ensures HealthRespects(env, order, i) {
        OwnedStepRespects(env, order, i);
      }
    }
  }

  lemma OwnedStepRespects(env: Env, order: seq<string>, i: nat)
    requires i < |order| && AllKnown(env, order) && OwnershipHolds(env, order)
    requires StartAll(env, STOPPED, order, |order|).1 == None
    ensures HealthRespects(env, order, i)
  {
    hide StartPlugin, StartAll, HealthRespects, Allowed, Declares;
    var t, t' := StartAll(env, STOPPED, order, i).0, StartAll(env, STOPPED, order, i + 1).0;
    EarlierStepsSucceed(env, order, i + 1, |order|);
    StepRespects(env, order, i);
    AllowedAreDeclared(env, order[i]);
    assert Kept(t.services, t'.services);
    assert Kept(t'.services, StartAll(env, STOPPED, order, |order|).0.services);
    forall s | s in t'.services.Keys - t.services.Keys ensures s in Allowed(env, order[i]) {
      assert AddedAt(env, order, i, s);
      assert HasOwner(env, order, s);
    }
  }

  /** The plugin `b` is healthy and hands out another object under the name that `a`
      publishes, `db`. */
  function Replacing(): Env {
    var publish := (s: Services) => Leaves(s["db" := 1]);
    var keep := (s: Services) => Leaves(s);
    var well := (s: Services) => (Healthy, s);
    var supplant := (s: Services) => (Healthy, s["db" := 2]);
    Env(map["a" := Plugin("a", true, [], [], ["db"], None, publish, keep, well),
            "b" := Plugin("b", true, ["a"], [], [], None, keep, keep, supplant)], map[], _ => true)
  }

  const PUBLISHED: Services := map["db" := 1]
  const REPLACED: Services := map["db" := 2]

  function FirstUp(): Tracking {
    Tracking(PUBLISHED, map["a" := PUBLISHED], ["a"], {"a"}, false)
  }

  lemma FirstStarts()
    ensures StartPlugin(Replacing(), STOPPED, "a") == (FirstUp(), None)
  {
    var env := Replacing();
    assert Allowed(env, "a") == {"db"};
    assert !SwitchedOff(env, "a") && !DependenciesFail(env, "a", {});
    var begun := STOPPED.services["db" := 1];
    assert begun == PUBLISHED && ServicesRespected(STOPPED.services, begun, {"db"});
    var (after, error) := StartPlugin(env, STOPPED, "a");
    assert error == None && after.services == PUBLISHED;
    assert after.contexts == FirstUp().contexts && after.started == ["a"];
    assert after.active == {"a"} && !after.flag;
  }

  lemma SecondStarts()
    ensures StartPlugin(Replacing(), FirstUp(), "b").1 == None
    ensures StartPlugin(Replacing(), FirstUp(), "b").0.services == REPLACED
    ensures Shown(Replacing(), FirstUp(), "b") == Some(PUBLISHED)
  {
    var env := Replacing();
    assert Allowed(env, "b") == {};
    assert !SwitchedOff(env, "b") && !DependenciesFail(env, "b", {"a"});
  }

  lemma ReplacingInOrder()
    ensures TopologicalOrder(DependencyGraph(Replacing()), ["a", "b"]) && AllKnown(Replacing(), ["a", "b"])
    ensures Replacing().settings.Keys <= Replacing().plugins.Keys
    ensures Replacing().plugins["b"].health(PUBLISHED).1 == REPLACED
  {
  }

  lemma NotRespected(allowed: set<string>)
    ensures !ServicesRespected(PUBLISHED, REPLACED, allowed)
  {
    assert "db" in PUBLISHED && PUBLISHED["db"] != REPLACED["db"];
  }

  /** A start-up from scratch that succeeds although the health check of one plugin has
      replaced the service of another. */
  lemma HealthCheckCanReplace()
    ensures var env, order := Replacing(), ["a", "b"];
            && TopologicalOrder(DependencyGraph(env), order) && AllKnown(env, order)
            && StartupOutcome(env, STOPPED, order).1 == None
            && StartAll(env, STOPPED, order, 1).0 == FirstUp()
            && StartupOutcome(env, STOPPED, order).0.services == REPLACED
            && !HealthChecksRespect(env, order) && !OwnershipHolds(env, order)
  {
    hide Replacing, StartPlugin, StartAll, TopologicalOrder, Shown, OwnershipHolds, ServicesRespected;
    var env, order := Replacing(), ["a", "b"];
    ReplacingInOrder();
    FirstStarts();
    SecondStarts();
    StartNone(env, STOPPED, order);
    StartOneMore(env, STOPPED, order, 0);
    StartOneMore(env, STOPPED, order, 1);
    OwnershipExactly(env, order);
    NotRespected(Allowed(env, "b"));
    StepRespects(env, order, 1);
  }
}
