/** What shutdown of infra/plugins/manager.py does over any number of calls: the order of
    the hooks it calls, what remains and what never happens twice. */
module PluginShutdown {
  import opened Text
  import opened Sequences
  import opened Graphs
  import opened PluginLifecycle

  /** The plugins of `s` whose shutdown hook raises. */
  function Keep(s: seq<string>, raises: string -> bool): seq<string> {
    if s == [] then []
    else Keep(s[..|s| - 1], raises) + (if raises(s[|s| - 1]) then [s[|s| - 1]] else [])
  }

  lemma {:induction false} KeepHolds(s: seq<string>, raises: string -> bool)
    ensures forall x :: x in Keep(s, raises) <==> x in s && raises(x)
    ensures Distinct(s) ==> Distinct(Keep(s, raises))
  {
    if s != [] {
      KeepHolds(s[..|s| - 1], raises);
      assert s == s[..|s| - 1] + [s[|s| - 1]];
    }
  }

  lemma {:induction false} RemoveFirstMiddle(a: seq<string>, x: string, b: seq<string>)
    requires x !in a
    ensures RemoveFirst(a + ([x] + b), x) == a + b
  {
    if a == [] {
      assert a + ([x] + b) == [x] + b;
    } else {
      assert (a + ([x] + b))[1..] == a[1..] + ([x] + b);
      assert a == [a[0]] + a[1..];
      RemoveFirstMiddle(a[1..], x, b);
    }
  }

  function Stopped(s: seq<string>, raises: string -> bool): set<string> {
    set x | x in s && !raises(x)
  }

  lemma KeepGrows(front: seq<string>, x: string, raises: string -> bool)
    ensures Keep(front + [x], raises) == Keep(front, raises) + (if raises(x) then [x] else [])
    ensures Stopped(front + [x], raises) == Stopped(front, raises) + (if raises(x) then {} else {x})
    ensures Reverse(front + [x]) == [x] + Reverse(front)
  {
    assert (front + [x])[..|front|] == front;
  }

  lemma StopNext(t: Tracking, x: string, names: seq<string>, raises: string -> bool)
    ensures var (t1, called, raised) := StopPlugin(t, x, raises);
            var (t2, calls, failures) := StopAll(t1, names, raises);
            StopAll(t, [x] + names, raises) == (t2, (if called then [x] else []) + calls, raised || failures)
  {
    assert ([x] + names)[1..] == names;
  }

  lemma StopNone(t: Tracking, raises: string -> bool)
    ensures StopAll(t, [], raises) == (t, [], false)
  {
  }

  lemma StopLast(t: Tracking, front: seq<string>, x: string, kept: seq<string>, raises: string -> bool)
    requires t.started == front + ([x] + kept) && Distinct(t.started) && x in t.contexts
    ensures var (t1, called, raised) := StopPlugin(t, x, raises);
            && called && raised == raises(x) && Distinct(t1.started)
            && t1 == (if raises(x) then t
                      else t.(started := front + kept, contexts := t.contexts - {x}, active := t.active - {x}))
            && (forall y :: y in front ==> y != x)
  {
    forall y | y in front ensures y != x {
      var i :| 0 <= i < |front| && front[i] == y;
      assert t.started[i] == y && t.started[|front|] == x;
    }
    RemoveFirstMiddle(front, x, kept);
    var s := front + kept;
    forall i, j | 0 <= i < j < |s| ensures s[i] != s[j] {
      assert s[i] == t.started[if i < |front| then i else i + 1];
      assert s[j] == t.started[if j < |front| then j else j + 1];
    }
  }

  lemma RemoveTwice<V>(m: map<string, V>, a: set<string>, b: set<string>)
    ensures m - b - a == m - (a + b)
  {
  }

  lemma NothingKept(raises: string -> bool)
    ensures Keep([], raises) == [] && Stopped([], raises) == {} && Reverse([]) == []
  {
  }

  /** Stopping `front`, last first, when the plugins of `kept` have raised already. */
  lemma {:induction false} StopFront(t: Tracking, front: seq<string>, kept: seq<string>, raises: string -> bool)
    requires t.started == front + kept && Distinct(t.started)
    requires forall x :: x in front ==> x in t.contexts
    ensures var (after, calls, failed) := StopAll(t, Reverse(front), raises);
            && after == t.(started := Keep(front, raises) + kept,
                           contexts := t.contexts - Stopped(front, raises),
                           active := t.active - Stopped(front, raises))
            && calls == Reverse(front)
            && (failed <==> Keep(front, raises) != [])
    decreases |front|
  {
    hide StopAll, StopPlugin, Keep, Stopped, Reverse, RemoveFirst, Distinct;
    if front == [] {
      NothingKept(raises);
      StopNone(t, raises);
      assert t.contexts - {} == t.contexts && t.active - {} == t.active && [] + kept == kept;
    } else {
      var front', x := front[..|front| - 1], front[|front| - 1];
      assert front == front' + [x];
      KeepGrows(front', x, raises);
      Assoc(front', [x], kept);
      StopLast(t, front', x, kept, raises);
      StopNext(t, x, Reverse(front'), raises);
      var stopped, kept' := Stopped(front', raises), Keep(front', raises);
      if raises(x) {
        StopFront(t, front', [x] + kept, raises);
        Assoc(kept', [x], kept);
        assert stopped + {} == stopped;
      } else {
        StopFront(StopPlugin(t, x, raises).0, front', kept, raises);
        RemoveTwice(t.contexts, stopped, {x});
        assert t.active - {x} - stopped == t.active - (stopped + {x});
        assert kept' + [] == kept';
      }
    }
  }

  /** A shutdown asks every started plugin, last started first. Those that raise, in
      their old order, are what remains; if none does, everything is as before start-up. */
  lemma ShutdownIs(env: Env, t: Tracking, raises: string -> bool)
    requires Consistent(env, t)
    ensures var (after, calls, failed) := ShutdownOutcome(t, raises);
            && calls == Reverse(t.started)
            && after.started == Keep(t.started, raises)
            && (failed <==> exists x :: x in t.started && raises(x))
            && (!failed ==> after == STOPPED)
            && (failed ==> after.flag && after.services == t.services)
            && Consistent(env, after)
  {
    hide StopAll, RemoveFirst, Reverse, Keep;
    StopFront(t, t.started, [], raises);
    KeepHolds(t.started, raises);
    var (after, calls, failed) := ShutdownOutcome(t, raises);
    var kept := Keep(t.started, raises);
    assert t.started + [] == t.started && kept + [] == kept;
    if failed {
      assert kept[0] in kept;
      KeepKeepsOrder(env, t, raises, after);
    } else {
      forall x | x in t.started ensures !raises(x) {
        assert x !in kept;
      }
      assert t.contexts - Stopped(t.started, raises) == map[];
      assert t.active - Stopped(t.started, raises) == {};
    }
  }

  /** The i-th plugin kept is the k-th of `s`, and those kept before it come before. */
  ghost predicate KeptAt(s: seq<string>, raises: string -> bool, i: nat, k: nat)
    requires k < |s| && i < |Keep(s, raises)|
  {
    s[k] == Keep(s, raises)[i] && forall x :: x in s[..k] && raises(x) ==> x in Keep(s, raises)[..i]
  }

  lemma {:induction false} KeepIsSubsequence(s: seq<string>, raises: string -> bool, i: nat)
    requires Distinct(s) && i < |Keep(s, raises)|
    ensures exists k :: 0 <= k < |s| && KeptAt(s, raises, i, k)
  {
    var s', last := s[..|s| - 1], s[|s| - 1];
    assert s == s' + [last];
    if i < |Keep(s', raises)| {
      KeepIsSubsequence(s', raises, i);
      var k :| 0 <= k < |s'| && KeptAt(s', raises, i, k);
      assert s[..k] == s'[..k] && Keep(s, raises)[..i] == Keep(s', raises)[..i];
      assert KeptAt(s, raises, i, k);
    } else {
      KeepHolds(s', raises);
      assert s[..|s| - 1] == s' && Keep(s, raises)[..i] == Keep(s', raises);
      assert KeptAt(s, raises, i, |s| - 1);
    }
  }

  lemma KeepKeepsOrder(env: Env, t: Tracking, raises: string -> bool, after: Tracking)
    requires Consistent(env, t) && after.started == Keep(t.started, raises)
    requires after.active == t.active - Stopped(t.started, raises)
    ensures DependenciesFirst(Restricted(env, after.active), after.started)
  {
    hide Keep, Stopped, Distinct;
    forall i, d | 0 <= i < |after.started| && Edge(Restricted(env, after.active), after.started[i], d)
                  && d in Restricted(env, after.active)
      ensures d in after.started[..i]
    {
      KeptDependencyFirst(env, t, raises, i, d);
    }
  }

  lemma KeptDependencyFirst(env: Env, t: Tracking, raises: string -> bool, i: nat, d: string)
    requires Consistent(env, t) && i < |Keep(t.started, raises)| && Keep(t.started, raises)[i] in env.plugins
    requires d in env.plugins[Keep(t.started, raises)[i]].dependencies && d in t.active - Stopped(t.started, raises)
    ensures d in Keep(t.started, raises)[..i]
  {
    hide Keep, DependenciesFirst, Distinct;
    KeepIsSubsequence(t.started, raises, i);
    var k :| 0 <= k < |t.started| && KeptAt(t.started, raises, i, k);
    DependencyBefore(env, t, k, d);
  }

  lemma DependencyBefore(env: Env, t: Tracking, k: nat, d: string)
    requires Consistent(env, t) && k < |t.started| && t.started[k] in env.plugins
    requires d in env.plugins[t.started[k]].dependencies && d in t.active
    ensures d in t.started[..k]
  {
    assert Edge(Restricted(env, t.active), t.started[k], d) && d in Restricted(env, t.active);
  }

  lemma {:induction false} ReverseAt(s: seq<string>, i: nat)
    requires i < |s|
    ensures |Reverse(s)| == |s| && Reverse(s)[|s| - 1 - i] == s[i]
  {
    if i < |s| - 1 {
      ReverseAt(s[..|s| - 1], i);
    } else if |s| > 1 {
      ReverseAt(s[..|s| - 1], 0);
    }
  }

  lemma DependencyStartedBefore(env: Env, t: Tracking, i: nat, d: string) returns (j: nat)
    requires Consistent(env, t) && i < |t.started| && t.started[i] in env.plugins
    requires d in env.plugins[t.started[i]].dependencies && d in t.started
    ensures j < i && t.started[j] == d
  {
    var g := Restricted(env, t.active);
    assert Edge(g, t.started[i], d) && d in g;
    j :| 0 <= j < i && t.started[j] == d;
  }

  /** A shutdown asks each plugin to stop before anything it depends on. */
  lemma DependentsStopFirst(env: Env, t: Tracking, raises: string -> bool, i: nat, d: string)
    requires Consistent(env, t) && i < |t.started| && t.started[i] in env.plugins
    requires d in env.plugins[t.started[i]].dependencies && d in t.started
    ensures var calls := ShutdownOutcome(t, raises).1;
            exists a, b :: 0 <= a < b < |calls| && calls[a] == t.started[i] && calls[b] == d
  {
    hide ShutdownOutcome, Reverse, Consistent;
    ShutdownIs(env, t, raises);
    var j := DependencyStartedBefore(env, t, i, d);
    ReverseAt(t.started, i);
    ReverseAt(t.started, j);
    var calls := ShutdownOutcome(t, raises).1;
    assert calls[|t.started| - 1 - i] == t.started[i] && calls[|t.started| - 1 - j] == d;
  }

  /** The state after shutdown calls in which different hooks raise. */
  function AfterShutdowns(t: Tracking, calls: seq<string -> bool>): Tracking {
    if calls == [] then t
    else ShutdownOutcome(AfterShutdowns(t, calls[..|calls| - 1]), calls[|calls| - 1]).0
  }

  /** The plugin's hook is called by the k-th shutdown and does not raise. */
  ghost predicate StoppedBy(t: Tracking, calls: seq<string -> bool>, k: nat, name: string)
    requires k < |calls|
  {
    name in ShutdownOutcome(AfterShutdowns(t, calls[..k]), calls[k]).1 && !calls[k](name)
  }

  lemma {:induction false} ShutdownsShrink(env: Env, t: Tracking, calls: seq<string -> bool>, k: nat)
    requires Consistent(env, t) && k <= |calls|
    ensures Consistent(env, AfterShutdowns(t, calls))
    ensures forall x :: x in AfterShutdowns(t, calls).started ==> x in AfterShutdowns(t, calls[..k]).started
    decreases |calls|
  {
    assert calls[..|calls|] == calls;
    if calls != [] {
      var earlier, before := calls[..|calls| - 1], AfterShutdowns(t, calls[..|calls| - 1]);
      ShutdownsShrink(env, t, earlier, if k < |calls| then k else 0);
      ShutdownIs(env, before, calls[|calls| - 1]);
      KeepHolds(before.started, calls[|calls| - 1]);
      if k < |calls| {
        assert earlier[..k] == calls[..k];
      }
    }
  }

  lemma {:induction false} ReverseHolds(s: seq<string>)
    ensures forall x :: x in Reverse(s) <==> x in s
  {
    if s != [] {
      ReverseHolds(s[..|s| - 1]);
      assert s == s[..|s| - 1] + [s[|s| - 1]];
    }
  }

  lemma ShutdownOnceMore(t: Tracking, calls: seq<string -> bool>, i: nat)
    requires i < |calls|
    ensures AfterShutdowns(t, calls[..i + 1]) == ShutdownOutcome(AfterShutdowns(t, calls[..i]), calls[i]).0
  {
    assert calls[..i + 1][..i] == calls[..i];
  }

  /** Over repeated shutdown calls, each plugin's hook succeeds at most once. */
  lemma StoppedOnce(env: Env, t: Tracking, calls: seq<string -> bool>, i: nat, j: nat, name: string)
    requires Consistent(env, t) && i < j < |calls|
    requires StoppedBy(t, calls, i, name)
    ensures !StoppedBy(t, calls, j, name)
  {
    hide ShutdownOutcome, Consistent, AfterShutdowns, Keep, Reverse;
    var before := AfterShutdowns(t, calls[..i]);
    assert calls[..j][..i + 1] == calls[..i + 1];
    ShutdownOnceMore(t, calls, i);
    ShutdownsShrink(env, t, calls[..i], 0);
    ShutdownIs(env, before, calls[i]);
    KeepHolds(before.started, calls[i]);
    ShutdownsShrink(env, t, calls[..j], i + 1);
    ShutdownIs(env, AfterShutdowns(t, calls[..j]), calls[j]);
    ReverseHolds(AfterShutdowns(t, calls[..j]).started);
  }

  // ------------------------------------------------------ rolling a start-up back

  /** `name` is to be started, and has published what it may: from here on it counts as
      started, whether or not the rest of its start-up succeeds. */
  predicate Registered(env: Env, t: Tracking, name: string)
    requires name in env.plugins
  {
    && !SwitchedOff(env, name) && !DependenciesFail(env, name, t.active) && CheckConfig(env, name).Accepted?
    && env.plugins[name].register(t.services).Leaves?
    && ServicesRespected(t.services, env.plugins[name].register(t.services).services, Allowed(env, name))
  }

  /** The start-up gets as far as plugin `n` of the order, which fails. */
  predicate FailsAt(env: Env, order: seq<string>, n: nat)
    requires AllKnown(env, order)
  {
    && n < |order| && StartAll(env, STOPPED, order, n).1 == None
    && StartPlugin(env, StartAll(env, STOPPED, order, n).0, order[n]).1.Some?
  }

  /** `x` is taken before `y`. */
  ghost predicate TakenBefore(order: seq<string>, x: string, y: string) {
    exists a, b :: 0 <= a < b < |order| && order[a] == x && order[b] == y
  }

  ghost predicate StoppedBefore(stopped: seq<string>, x: string, y: string) {
    exists a, b :: 0 <= a < b < |stopped| && stopped[a] == x && stopped[b] == y
  }

  /** `stopped` is what a rollback must call when plugin `n` has failed: the hooks of the
      plugins that were active, and of the failing one if it had registered, each once,
      in reverse start order and each dependent before what it depends on. */
  ghost predicate RolledBack(env: Env, order: seq<string>, n: nat, stopped: seq<string>)
    requires AllKnown(env, order) && n < |order|
  {
    var before := StartAll(env, STOPPED, order, n).0;
    && Distinct(stopped)
    && (forall x :: x in stopped <==> x in before.active || (x == order[n] && Registered(env, before, order[n])))
    && (forall i, j :: 0 <= i < j < |stopped| ==> TakenBefore(order, stopped[j], stopped[i]))
    && (forall x, d :: x in stopped && x in env.plugins && d in env.plugins[x].dependencies && d in stopped ==>
         StoppedBefore(stopped, x, d))
  }

  lemma FailingStep(env: Env, t: Tracking, name: string)
    requires name in env.plugins && StartPlugin(env, t, name).1.Some?
    requires forall x :: x in t.started ==> x in t.contexts
    ensures var after := StartPlugin(env, t, name).0;
            && after.started == t.started + (if Registered(env, t, name) then [name] else [])
            && (forall x :: x in after.started ==> x in after.contexts)
  {
  }

  /** The started plugins stand in the order in which they were taken. */
  lemma {:induction false} StartedInTurn(env: Env, order: seq<string>, n: nat)
    requires n <= |order| && AllKnown(env, order) && StartAll(env, STOPPED, order, n).1 == None
    ensures var started := StartAll(env, STOPPED, order, n).0.started;
            && (forall x :: x in started ==> x in order[..n])
            && (forall i, j :: 0 <= i < j < |started| ==> TakenBefore(order[..n], started[i], started[j]))
  {
    if n > 0 {
      hide StartPlugin, StartAll, TakenBefore;
      EarlierStepsSucceed(env, order, n - 1, n);
      StartedInTurn(env, order, n - 1);
      StartOneMore(env, STOPPED, order, n - 1);
      StepAppends(env, StartAll(env, STOPPED, order, n - 1).0, order[n - 1]);
      assert order[..n] == order[..n - 1] + [order[n - 1]];
      OneMoreTaken(StartAll(env, STOPPED, order, n - 1).0.started, order[..n - 1], order[n - 1]);
    } else {
      StartNone(env, STOPPED, order);
    }
  }

  lemma StepAppends(env: Env, t: Tracking, name: string)
    requires name in env.plugins
    ensures var started := StartPlugin(env, t, name).0.started; started == t.started || started == t.started + [name]
  {
  }

  lemma TakenStays(front: seq<string>, name: string, x: string, y: string)
    requires TakenBefore(front, x, y)
    ensures TakenBefore(front + [name], x, y)
  {
    var a, b :| 0 <= a < b < |front| && front[a] == x && front[b] == y;
    assert (front + [name])[a] == x && (front + [name])[b] == y;
  }

  lemma OneMoreTaken(started: seq<string>, front: seq<string>, name: string)
    requires forall x :: x in started ==> x in front
    requires forall i, j :: 0 <= i < j < |started| ==> TakenBefore(front, started[i], started[j])
    ensures forall i, j :: 0 <= i < j < |started| ==> TakenBefore(front + [name], started[i], started[j])
    ensures forall i :: 0 <= i < |started| ==> TakenBefore(front + [name], started[i], name)
  {
    var order := front + [name];
    forall i, j | 0 <= i < j < |started| ensures TakenBefore(order, started[i], started[j]) {
      TakenStays(front, name, started[i], started[j]);
    }
    forall i | 0 <= i < |started| ensures TakenBefore(order, started[i], name) {
      var x := started[i];
      assert x in started;
      var a :| 0 <= a < |front| && front[a] == x;
      assert order[a] == x && order[|front|] == name;
    }
  }

  lemma TakenInLonger(order: seq<string>, n: nat, x: string, y: string)
    requires n <= |order| && TakenBefore(order[..n], x, y)
    ensures TakenBefore(order, x, y)
  {
    var a, b :| 0 <= a < b < n && order[..n][a] == x && order[..n][b] == y;
    assert order[a] == x && order[b] == y;
  }

  /** A shutdown of any state in which started plugins have contexts calls them all, last
      started first; it need not be one in which they are active. */
  lemma ShutdownCalls(t: Tracking, raises: string -> bool)
    requires Distinct(t.started) && forall x :: x in t.started ==> x in t.contexts
    ensures ShutdownOutcome(t, raises).1 == Reverse(t.started)
  {
    assert t.started + [] == t.started;
    StopFront(t, t.started, [], raises);
  }

  lemma ReversedPositions(s: seq<string>)
    ensures |Reverse(s)| == |s| && forall i :: 0 <= i < |s| ==> Reverse(s)[i] == s[|s| - 1 - i]
    ensures Distinct(s) ==> Distinct(Reverse(s))
  {
    hide Reverse;
    if s == [] {
      ReverseNothing();
    } else {
      ReverseAt(s, 0);
    }
    forall i | 0 <= i < |s| ensures |Reverse(s)| == |s| && Reverse(s)[i] == s[|s| - 1 - i] {
      ReverseAt(s, |s| - 1 - i);
    }
  }

  lemma ReverseNothing()
    ensures Reverse([]) == []
  {
  }

  /** What is started when plugin `n` fails, and the hooks that this leaves to call. */
  lemma StartedAtFailure(env: Env, order: seq<string>, n: nat)
    requires AllKnown(env, order) && Distinct(order) && FailsAt(env, order, n)
    ensures var before, after := StartAll(env, STOPPED, order, n).0, StartAll(env, STOPPED, order, n + 1).0;
            && after.started == before.started + (if Registered(env, before, order[n]) then [order[n]] else [])
            && Distinct(after.started) && (forall x :: x in after.started ==> x in after.contexts)
            && (forall x :: x in before.started <==> x in before.active)
            && (forall i, j :: 0 <= i < j < |after.started| ==> TakenBefore(order, after.started[i], after.started[j]))
  {
    hide StartPlugin, StartAll, Registered, TakenBefore;
    var before, name := StartAll(env, STOPPED, order, n).0, order[n];
    RunningAfter(env, order, n);
    StartOneMore(env, STOPPED, order, n);
    FailingStep(env, before, name);
    StartedInTurn(env, order, n);
    NotBefore(order, n);
    assert order[..n + 1] == order[..n] + [name];
    OneMoreTaken(before.started, order[..n], name);
    DistinctIfNew(before.started, name);
    var after := StartAll(env, STOPPED, order, n + 1).0;
    forall i, j | 0 <= i < j < |after.started| ensures TakenBefore(order, after.started[i], after.started[j]) {
      TakenInLonger(order, n + 1, after.started[i], after.started[j]);
    }
  }

  lemma DistinctIfNew(s: seq<string>, x: string)
    requires Distinct(s) && x !in s
    ensures Distinct(s + [x]) && s + [] == s
  {
    DistinctAppend(s, x);
  }

  lemma DependenciesStarted(env: Env, order: seq<string>, n: nat, i: nat, d: string)
    requires AllKnown(env, order) && Distinct(order) && FailsAt(env, order, n)
    requires var after := StartAll(env, STOPPED, order, n + 1).0;
             i < |after.started| && after.started[i] in env.plugins
             && d in env.plugins[after.started[i]].dependencies && d in after.started
    ensures d in StartAll(env, STOPPED, order, n + 1).0.started[..i]
  {
    hide StartPlugin, StartAll, DependenciesFirst;
    var before, after, name := StartAll(env, STOPPED, order, n).0, StartAll(env, STOPPED, order, n + 1).0, order[n];
    RunningAfter(env, order, n);
    StartedAtFailure(env, order, n);
    if i < |before.started| {
      EarlierInFirst(DependencyGraph(env), before.started, i, d);
      assert after.started[..i] == before.started[..i];
    } else {
      DependencyIsActive(env, name, before.active, d);
      assert after.started[..i] == before.started;
    }
  }

  lemma EarlierInFirst(g: Graph, order: seq<string>, i: nat, d: string)
    requires DependenciesFirst(g, order) && i < |order| && Edge(g, order[i], d) && d in g
    ensures d in order[..i]
  {
  }

  lemma DependencyIsActive(env: Env, name: string, active: set<string>, d: string)
    requires name in env.plugins && !DependenciesFail(env, name, active) && d in env.plugins[name].dependencies
    ensures d in active && d in env.plugins
  {
    var ds := env.plugins[name].dependencies;
    var i :| 0 <= i < |ds| && ds[i] == d;
  }

  /** The hooks that a shutdown calls in the state that a failed start-up leaves are just
      those that a rollback must call. */
  lemma RollbackStops(env: Env, order: seq<string>, n: nat, raises: string -> bool)
    requires AllKnown(env, order) && Distinct(order) && FailsAt(env, order, n)
    ensures RolledBack(env, order, n, ShutdownOutcome(StartAll(env, STOPPED, order, n + 1).0, raises).1)
  {
    hide StartPlugin, StartAll, Registered, TakenBefore, Reverse, ShutdownOutcome;
    var after := StartAll(env, STOPPED, order, n + 1).0;
    var stopped := ShutdownOutcome(after, raises).1;
    StartedAtFailure(env, order, n);
    ShutdownCalls(after, raises);
    ReversedPositions(after.started);
    ReverseHolds(after.started);
    forall i, j | 0 <= i < j < |stopped| ensures TakenBefore(order, stopped[j], stopped[i]) {
      var k, l := |stopped| - 1 - j, |stopped| - 1 - i;
      assert TakenBefore(order, after.started[k], after.started[l]);
    }
    forall x, d | x in stopped && x in env.plugins && d in env.plugins[x].dependencies && d in stopped
      ensures StoppedBefore(stopped, x, d)
    {
      var i :| 0 <= i < |after.started| && after.started[i] == x;
      DependenciesStarted(env, order, n, i, d);
      var j :| 0 <= j < i && after.started[..i][j] == d;
      assert after.started[j] == d;
      var a, b := |stopped| - 1 - i, |stopped| - 1 - j;
      assert stopped[a] == x && stopped[b] == d;
    }
  }

  /** A start-up with an error fails at one of its plugins, and stays as it was there. */
  lemma {:induction false} FailsSomewhere(env: Env, order: seq<string>, n: nat) returns (k: nat)
    requires n <= |order| && AllKnown(env, order) && StartAll(env, STOPPED, order, n).1.Some?
    ensures k < n && FailsAt(env, order, k) && StartAll(env, STOPPED, order, n) == StartAll(env, STOPPED, order, k + 1)
  {
    hide StartPlugin;
    if StartAll(env, STOPPED, order, n - 1).1 == None {
      k := n - 1;
    } else {
      k := FailsSomewhere(env, order, n - 1);
    }
  }
}
