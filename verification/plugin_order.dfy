/** The start order of plugins: the depth-first search inside
    `PluginManager._resolve_order` of infra/plugins/manager.py. `OrderOf` is the search
    on values, and `Resolver` the program's, which keeps its sets in place. */
module PluginOrder {
  import opened Sequences
  import opened Graphs

  datatype OrderResult = Ordered(names: seq<string>) | Circular(name: string)

  /** The visit of one name, when `resolved` has been listed and the visits of `visiting`
      are in progress. */
  function VisitFrom(g: Graph, name: string, resolved: seq<string>, visiting: set<string>): OrderResult
    requires name in g
    decreases g.Keys - visiting, 0
  {
    if name in resolved then Ordered(resolved)
    else if name in visiting then Circular(name)
    else
      match VisitEach(g, g[name], resolved, visiting + {name})
      case Ordered(after) => Ordered(after + [name])
      case Circular(at) => Circular(at)
  }

  /** The visits of those of `wanted` that are in the manager, one after the other. */
  function VisitEach(g: Graph, wanted: seq<string>, resolved: seq<string>, visiting: set<string>): OrderResult
    decreases g.Keys - visiting, |wanted| + 1
  {
    if wanted == [] then Ordered(resolved)
    else if wanted[0] !in g then VisitEach(g, wanted[1..], resolved, visiting)
    else
      match VisitFrom(g, wanted[0], resolved, visiting)
      case Ordered(after) => VisitEach(g, wanted[1..], after, visiting)
      case Circular(at) => Circular(at)
  }

  /** The start order of plugins that are registered in the order `names`. */
  function OrderOf(names: seq<string>, g: Graph): OrderResult {
    VisitEach(g, names, [], {})
  }

  lemma VisitEachNext(g: Graph, wanted: seq<string>, i: nat, resolved: seq<string>, visiting: set<string>)
    requires i < |wanted|
    ensures VisitEach(g, wanted[i..], resolved, visiting) ==
            if wanted[i] !in g then VisitEach(g, wanted[i + 1..], resolved, visiting)
            else
              match VisitFrom(g, wanted[i], resolved, visiting)
              case Ordered(after) => VisitEach(g, wanted[i + 1..], after, visiting)
              case Circular(at) => Circular(at)
  {
    assert wanted[i..][0] == wanted[i] && wanted[i..][1..] == wanted[i + 1..];
  }

  lemma VisitEachDone(g: Graph, wanted: seq<string>, resolved: seq<string>, visiting: set<string>)
    requires wanted == []
    ensures VisitEach(g, wanted, resolved, visiting) == Ordered(resolved)
  {
  }

  class Resolver {
    /** Plugin names in registration order, and each plugin's required dependencies. */
    const names: seq<string>
    const dependencies: Graph

    var resolved: seq<string>
    var visiting: set<string>
    var visited: set<string>

    constructor (names: seq<string>, dependencies: Graph)
      ensures this.names == names && this.dependencies == dependencies
      ensures resolved == [] && visiting == {} && visited == {}
    {
      this.names, this.dependencies := names, dependencies;
      resolved, visiting, visited := [], {}, {};
    }

    /** The visited plugins are the resolved ones, and none of them is being visited. */
    ghost predicate Valid()
      reads this
    {
      (forall name :: name in visited <==> name in resolved) && visited !! visiting
    }

    method Visit(name: string) returns (r: OrderResult)
      requires name in dependencies && Valid()
      modifies this
      ensures r == VisitFrom(dependencies, name, old(resolved), old(visiting))
      ensures r.Ordered? ==> Valid() && resolved == r.names && visiting == old(visiting)
      decreases dependencies.Keys - visiting
    {
      hide VisitEach;
      if name in visited {
        return Ordered(resolved);
      }
      if name in visiting {
        return Circular(name);
      }
      visiting := visiting + {name};
      var wanted := dependencies[name];
      var i := 0;
      assert wanted[0..] == wanted;
      while i < |wanted|
        invariant i <= |wanted|
        invariant Valid() && visiting == old(visiting) + {name}
        invariant VisitEach(dependencies, wanted[i..], resolved, visiting)
               == VisitEach(dependencies, wanted, old(resolved), visiting)
      {
        VisitEachNext(dependencies, wanted, i, resolved, visiting);
        if wanted[i] in dependencies {
          r := Visit(wanted[i]);
          if r.Circular? {
            return;
          }
        }
        i := i + 1;
      }
      VisitEachDone(dependencies, wanted[i..], resolved, visiting);
      visiting := visiting - {name};
      visited := visited + {name};
      resolved := resolved + [name];
      r := Ordered(resolved);
    }

    /** Either every plugin once, each after the dependencies it has in the manager,
        or an error; the error is raised if and only if the known dependencies form a
        cycle. Among the possible orders it is that of the depth-first search. */
    method ResolveOrder() returns (r: OrderResult)
      requires resolved == [] && visiting == {} && visited == {}
      requires forall name :: name in names <==> name in dependencies
      modifies this
      ensures r == OrderOf(names, dependencies)
      ensures r.Ordered? ==> TopologicalOrder(dependencies, r.names)
      ensures r.Circular? <==> HasCycle(dependencies)
    {
      hide VisitFrom, VisitEach;
      OrderIsTopological(names, dependencies);
      var i := 0;
      assert names[0..] == names;
      while i < |names|
        invariant i <= |names|
        invariant Valid() && visiting == {}
        invariant VisitEach(dependencies, names[i..], resolved, {}) == OrderOf(names, dependencies)
      {
        VisitEachNext(dependencies, names, i, resolved, {});
        r := Visit(names[i]);
        if r.Circular? {
          return;
        }
        i := i + 1;
      }
      VisitEachDone(dependencies, names[i..], resolved, {});
      r := Ordered(resolved);
    }
  }

  // ------------------------------------------------- what the search finds

  /** `stack` is the chain of visits in progress. */
  ghost predicate InProgress(g: Graph, resolved: seq<string>, visiting: set<string>, stack: seq<string>) {
    && Distinct(resolved) && DependenciesFirst(g, resolved)
    && (forall name :: name in resolved ==> name in g && name !in visiting)
    && (forall name :: name in visiting <==> name in stack)
  }

  /** What one visit, or several, leave behind. */
  ghost predicate Listed(g: Graph, before: seq<string>, r: OrderResult, visiting: set<string>, stack: seq<string>) {
    && (r.Circular? ==> HasCycle(g))
    && (r.Ordered? ==> InProgress(g, r.names, visiting, stack) && before <= r.names)
  }

  lemma {:induction false} VisitLists(g: Graph, name: string, resolved: seq<string>, visiting: set<string>,
                                      stack: seq<string>)
    requires name in g && InProgress(g, resolved, visiting, stack) && Path(g, stack + [name])
    ensures var r := VisitFrom(g, name, resolved, visiting);
            Listed(g, resolved, r, visiting, stack) && (r.Ordered? ==> name in r.names)
    decreases g.Keys - visiting, 0
  {
    hide DependenciesFirst, Distinct, HasCycle, VisitEach;
    if name !in resolved && name in visiting {
      CycleOnStack(g, stack, name);
    } else if name !in resolved {
      forall d | d in g[name] ensures Path(g, stack + [name] + [d]) {
        ExtendPath(g, stack + [name], d);
      }
      VisitEachLists(g, g[name], resolved, visiting + {name}, stack + [name]);
      var r := VisitEach(g, g[name], resolved, visiting + {name});
      if r.Ordered? {
        AppendKeepsOrder(g, r.names, name);
      }
    }
  }

  lemma {:induction false} VisitEachLists(g: Graph, wanted: seq<string>, resolved: seq<string>, visiting: set<string>,
                                          stack: seq<string>)
    requires InProgress(g, resolved, visiting, stack)
    requires forall d :: d in wanted ==> Path(g, stack + [d])
    ensures var r := VisitEach(g, wanted, resolved, visiting);
            && Listed(g, resolved, r, visiting, stack)
            && (r.Ordered? ==> forall d :: d in wanted && d in g ==> d in r.names)
    decreases g.Keys - visiting, |wanted| + 1
  {
    hide InProgress, HasCycle, VisitFrom, Path;
    if wanted != [] {
      var rest := wanted[1..];
      assert forall d :: d in wanted <==> d == wanted[0] || d in rest;
      if wanted[0] !in g {
        VisitEachLists(g, rest, resolved, visiting, stack);
      } else {
        VisitLists(g, wanted[0], resolved, visiting, stack);
        var first := VisitFrom(g, wanted[0], resolved, visiting);
        if first.Ordered? {
          VisitEachLists(g, rest, first.names, visiting, stack);
        }
      }
    }
  }

  /** The search finds a topological order, or a cycle if there is one. */
  lemma OrderIsTopological(names: seq<string>, g: Graph)
    requires forall name :: name in names <==> name in g
    ensures OrderOf(names, g).Ordered? ==> TopologicalOrder(g, OrderOf(names, g).names)
    ensures OrderOf(names, g).Circular? <==> HasCycle(g)
  {
    hide VisitEach, HasCycle;
    assert forall d :: Path(g, [] + [d]);
    VisitEachLists(g, names, [], {}, []);
    if OrderOf(names, g).Ordered? {
      OrderedMeansAcyclic(g, OrderOf(names, g).names);
    }
  }

  lemma {:induction false} AllResolved(g: Graph, wanted: seq<string>, resolved: seq<string>, visiting: set<string>)
    requires forall d :: d in wanted && d in g ==> d in resolved
    ensures VisitEach(g, wanted, resolved, visiting) == Ordered(resolved)
    decreases |wanted|
  {
    if wanted != [] {
      AllResolved(g, wanted[1..], resolved, visiting);
    }
  }

  lemma {:induction false} ListedInTurn(g: Graph, names: seq<string>, i: nat)
    requires TopologicalOrder(g, names) && i <= |names|
    ensures VisitEach(g, names[i..], names[..i], {}) == Ordered(names)
    decreases |names| - i
  {
    hide VisitEach, Distinct, DependenciesFirst;
    if i == |names| {
      assert names[..i] == names;
      VisitEachDone(g, names[i..], names[..i], {});
    } else {
      VisitEachNext(g, names, i, names[..i], {});
      NotBefore(names, i);
      DependenciesAreBefore(g, names, i);
      AllResolved(g, g[names[i]], names[..i], {} + {names[i]});
      assert names[..i + 1] == names[..i] + [names[i]];
      ListedInTurn(g, names, i + 1);
    }
  }

  lemma DependenciesAreBefore(g: Graph, names: seq<string>, i: nat)
    requires DependenciesFirst(g, names) && i < |names| && names[i] in g
    ensures forall d :: d in g[names[i]] && d in g ==> d in names[..i]
  {
    forall d | d in g[names[i]] && d in g ensures d in names[..i] {
      assert Edge(g, names[i], d);
    }
  }

  /** Plugins that are registered in a possible order are started in just that order. */
  lemma RegistrationOrderIsKept(names: seq<string>, g: Graph)
    requires TopologicalOrder(g, names)
    ensures OrderOf(names, g) == Ordered(names)
  {
    hide VisitEach;
    assert names[0..] == names && names[..0] == [];
    ListedInTurn(g, names, 0);
  }

  lemma CycleOnStack(g: Graph, stack: seq<string>, name: string)
    requires Path(g, stack + [name]) && name in stack
    ensures HasCycle(g)
  {
    var k :| 0 <= k < |stack| && stack[k] == name;
    var p := stack[k..] + [name];
    forall i | 0 <= i < |p| - 1 ensures Edge(g, p[i], p[i + 1]) {
      assert p[i] == (stack + [name])[k + i] && p[i + 1] == (stack + [name])[k + i + 1];
      assert Edge(g, (stack + [name])[k + i], (stack + [name])[k + i + 1]);
    }
    assert IsCycle(g, p);
  }
}
