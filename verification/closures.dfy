/** Dependency closures: `expand_provider_check_names` of
    infra/provider_certification.py and `_production_plugins_for` of
    infra/scaffold.py. */
module Closures {
  import opened Sequences
  import opened Graphs
  import opened Text

  datatype ExpandResult =
    | Expanded(names: seq<string>)
    | UnknownRequested(unknown: set<string>)
    | MissingKey(name: string)

  /** A node of `g` is reached from `starts` although `g` does not define it. */
  ghost predicate ReachesUndefined(g: Graph, starts: set<string>) {
    exists b :: ReachedFrom(g, starts, b) && b !in g
  }

  function NamesIn(names: seq<string>): set<string> {
    set name | name in names
  }

  ghost predicate CycleReached(g: Graph, starts: set<string>) {
    exists p :: IsCycle(g, p) && ReachedFrom(g, starts, p[0])
  }

  // ------------------------------------------------- the walk and its depth

  datatype WalkResult = Walked(selected: seq<string>) | Missing | TooDeep

  /** The recursive walk from one name, given up when it is `depth` calls deep. The
      program has no such bound. */
  function Walk(g: Graph, name: string, selected: seq<string>, depth: nat): WalkResult
    decreases depth, 0
  {
    if depth == 0 then TooDeep
    else if name !in g then Missing
    else
      match WalkAll(g, g[name], selected, depth - 1)
      case Walked(after) => Walked(if name in after then after else after + [name])
      case failed => failed
  }

  function WalkAll(g: Graph, names: seq<string>, selected: seq<string>, depth: nat): WalkResult
    decreases depth, |names|
  {
    if names == [] then Walked(selected)
    else
      match Walk(g, names[0], selected, depth)
      case Walked(after) => WalkAll(g, names[1..], after, depth)
      case failed => failed
  }

  lemma WalkUnfold(g: Graph, name: string, selected: seq<string>, depth: nat)
    ensures Walk(g, name, selected, depth) ==
            if depth == 0 then TooDeep
            else if name !in g then Missing
            else
              match WalkAll(g, g[name], selected, depth - 1)
              case Walked(after) => Walked(if name in after then after else after + [name])
              case failed => failed
  {
  }

  lemma WalkAllNext(g: Graph, names: seq<string>, i: nat, selected: seq<string>, depth: nat)
    requires i < |names|
    ensures WalkAll(g, names[i..], selected, depth) ==
            match Walk(g, names[i], selected, depth)
            case Walked(after) => WalkAll(g, names[i + 1..], after, depth)
            case failed => failed
  {
    assert names[i..][0] == names[i] && names[i..][1..] == names[i + 1..];
  }

  lemma WalkAllDone(g: Graph, names: seq<string>, selected: seq<string>, depth: nat)
    requires names == []
    ensures WalkAll(g, names, selected, depth) == Walked(selected)
  {
  }

  /** The walk from `requested` comes to an end, by itself or at a missing name. */
  ghost predicate Ends(g: Graph, requested: seq<string>) {
    exists depth: nat :: EndsAt(g, requested, depth)
  }

  predicate EndsAt(g: Graph, requested: seq<string>, depth: nat) {
    WalkAll(g, requested, [], depth) != TooDeep
  }

  /** It comes to an end by itself. */
  ghost predicate Returns(g: Graph, requested: seq<string>) {
    exists depth: nat :: ReturnsAt(g, requested, depth)
  }

  predicate ReturnsAt(g: Graph, requested: seq<string>, depth: nat) {
    WalkAll(g, requested, [], depth).Walked?
  }

  ghost predicate EndsWith(g: Graph, requested: seq<string>, selected: seq<string>) {
    exists depth: nat :: WalkAll(g, requested, [], depth) == Walked(selected)
  }

  /** The recursive walk, with its two shared collections. */
  class Expander {
    /** Each catalog check with the names it depends on. */
    const checks: Graph
    var selected: seq<string>
    var seen: set<string>

    constructor (checks: Graph)
      ensures this.checks == checks && selected == [] && seen == {}
    {
      this.checks := checks;
      selected, seen := [], {};
    }

    ghost predicate Valid()
      reads this
    {
      && (forall name :: name in seen <==> name in selected)
      && seen <= checks.Keys
      && Distinct(selected) && DependenciesFirst(checks, selected)
      && (forall name, d :: name in selected && Edge(checks, name, d) ==> d in selected)
    }

    /** Adds `name` after everything it depends on, on exactly those catalogs where the
        recursion ends. */
    method AddProvider(name: string, ghost depth: nat) returns (ok: bool)
      requires Valid() && Walk(checks, name, selected, depth) != TooDeep
      modifies this
      ensures Walk(checks, name, old(selected), depth) == if ok then Walked(selected) else Missing
      ensures !ok ==> ReachesUndefined(checks, {name})
      ensures ok ==> Valid() && name in selected && old(selected) <= selected
      ensures ok ==> forall b :: b in selected && b !in old(selected) ==> Reaches(checks, name, b)
      decreases depth
    {
      hide Reaches, ReachedFrom, ReachesUndefined, DependenciesFirst, Distinct, Walk, WalkAll;
      WalkUnfold(checks, name, selected, depth);
      if name !in checks {
        UndefinedItself(checks, name);
        return false;
      }
      var dependencies := checks[name];
      var i := 0;
      assert dependencies[0..] == dependencies;
      while i < |dependencies|
        invariant i <= |dependencies|
        invariant Valid() && old(selected) <= selected
        invariant WalkAll(checks, dependencies[i..], selected, depth - 1)
               == WalkAll(checks, dependencies, old(selected), depth - 1)
        invariant forall k :: 0 <= k < i ==> dependencies[k] in selected
        invariant forall b :: b in selected && b !in old(selected) ==> Reaches(checks, name, b)
      {
        var d := dependencies[i];
        StepReaches(checks, name, d);
        ghost var sofar := selected;
        WalkAllNext(checks, dependencies, i, selected, depth - 1);
        ok := AddProvider(d, depth - 1);
        if !ok {
          UndefinedBelow(checks, name, d);
          return;
        }
        forall b | b in selected && b !in old(selected) ensures Reaches(checks, name, b) {
          if b !in sofar { ReachesTransitive(checks, name, d, b); }
        }
        i := i + 1;
      }
      WalkAllDone(checks, dependencies[i..], selected, depth - 1);
      ReachesSelf(checks, name);
      if name !in seen {
        AppendKeepsOrder(checks, selected, name);
        selected := selected + [name];
        seen := seen + {name};
      }
      ok := true;
    }
  }

  lemma StepReaches(g: Graph, a: string, b: string)
    requires Edge(g, a, b)
    ensures Reaches(g, a, b)
  {
    assert PathBetween(g, [a, b], a, b);
  }

  lemma UndefinedItself(g: Graph, name: string)
    requires name !in g
    ensures ReachesUndefined(g, {name})
  {
    ReachesSelf(g, name);
    assert ReachedFrom(g, {name}, name);
  }

  lemma UndefinedBelow(g: Graph, name: string, d: string)
    requires Edge(g, name, d) && ReachesUndefined(g, {d})
    ensures ReachesUndefined(g, {name})
  {
    var b :| ReachedFrom(g, {d}, b) && b !in g;
    StepReaches(g, name, d);
    ReachesTransitive(g, name, d, b);
    assert ReachedFrom(g, {name}, b);
  }

  // ---------------------------------------------------- when the walk ends

  /** Without a cycle in reach a walk never meets a name it is still below. */
  lemma StackIsNew(g: Graph, stack: seq<string>, name: string)
    requires Path(g, stack + [name]) && !CycleReached(g, {(stack + [name])[0]})
    ensures name !in stack
  {
    if name in stack {
      var k :| 0 <= k < |stack| && stack[k] == name;
      var whole := stack + [name];
      var p := whole[k..];
      forall i | 0 <= i < |p| - 1 ensures Edge(g, p[i], p[i + 1]) {
        assert Edge(g, whole[k + i], whole[k + i + 1]);
      }
      assert IsCycle(g, p);
      assert PathBetween(g, whole[..k + 1], whole[0], p[0]);
      assert ReachedFrom(g, {whole[0]}, p[0]);
    }
  }

  lemma StackShrinksRest(g: Graph, stack: seq<string>, name: string)
    requires name in g && name !in stack
    ensures |g.Keys - (set s | s in stack + [name])| < |g.Keys - (set s | s in stack)|
  {
    assert g.Keys - (set s | s in stack + [name]) == g.Keys - (set s | s in stack) - {name};
  }

  lemma {:induction false} AcyclicWalkEnds(g: Graph, stack: seq<string>, name: string, selected: seq<string>,
                                           depth: nat)
    requires Path(g, stack + [name]) && !CycleReached(g, {(stack + [name])[0]})
    requires depth > |g.Keys - (set s | s in stack)|
    ensures Walk(g, name, selected, depth) != TooDeep
    decreases depth, 0
  {
    hide CycleReached, Path;
    if name in g {
      StackIsNew(g, stack, name);
      StackShrinksRest(g, stack, name);
      forall d | d in g[name] ensures Path(g, stack + [name] + [d]) {
        ExtendPath(g, stack + [name], d);
      }
      AcyclicWalkAllEnds(g, stack + [name], g[name], selected, depth - 1);
    }
  }

  lemma {:induction false} AcyclicWalkAllEnds(g: Graph, stack: seq<string>, names: seq<string>, selected: seq<string>,
                                              depth: nat)
    requires forall d :: d in names ==> Path(g, stack + [d]) && !CycleReached(g, {(stack + [d])[0]})
    requires depth > |g.Keys - (set s | s in stack)|
    ensures WalkAll(g, names, selected, depth) != TooDeep
    decreases depth, |names|
  {
    hide CycleReached, Path, Walk;
    if names != [] {
      AcyclicWalkEnds(g, stack, names[0], selected, depth);
      var first := Walk(g, names[0], selected, depth);
      if first.Walked? {
        AcyclicWalkAllEnds(g, stack, names[1..], first.selected, depth);
      }
    }
  }

  /** A walk that ends by itself is as deep as every path from its start, and no path
      leaves the catalog. */
  lemma {:induction false} WalkBoundsPaths(g: Graph, name: string, selected: seq<string>, depth: nat, p: seq<string>)
    requires Walk(g, name, selected, depth).Walked? && Path(g, p) && p[0] == name
    ensures |p| <= depth && p[|p| - 1] in g
    decreases depth, 0
  {
    if |p| > 1 {
      assert Edge(g, p[0], p[1]);
      forall i | 0 <= i < |p[1..]| - 1 ensures Edge(g, p[1..][i], p[1..][i + 1]) {
        assert Edge(g, p[i + 1], p[i + 2]);
      }
      WalkAllBoundsPaths(g, g[name], selected, depth - 1, p[1..]);
    }
  }

  lemma {:induction false} WalkAllBoundsPaths(g: Graph, names: seq<string>, selected: seq<string>, depth: nat,
                                              p: seq<string>)
    requires WalkAll(g, names, selected, depth).Walked? && Path(g, p) && p[0] in names
    ensures |p| <= depth && p[|p| - 1] in g
    decreases depth, |names|
  {
    if p[0] == names[0] {
      WalkBoundsPaths(g, names[0], selected, depth, p);
    } else {
      WalkAllBoundsPaths(g, names[1..], Walk(g, names[0], selected, depth).selected, depth, p);
    }
  }

  /** Going round a cycle gives paths of any length. */
  lemma {:induction false} RoundAndRound(g: Graph, cycle: seq<string>, a: string, n: nat) returns (p: seq<string>)
    requires IsCycle(g, cycle) && Reaches(g, a, cycle[0])
    ensures PathBetween(g, p, a, cycle[0]) && |p| > n
  {
    if n == 0 {
      p :| PathBetween(g, p, a, cycle[0]);
    } else {
      var q := RoundAndRound(g, cycle, a, n - 1);
      p := q + cycle[1..];
      forall i | 0 <= i < |p| - 1 ensures Edge(g, p[i], p[i + 1]) {
        if i < |q| - 1 {
          assert p[i] == q[i] && p[i + 1] == q[i + 1];
        } else {
          assert p[i] == cycle[i - |q| + 1] && p[i + 1] == cycle[i - |q| + 2];
        }
      }
    }
  }

  lemma {:induction false} MissingIsUndefined(g: Graph, name: string, selected: seq<string>, depth: nat)
    requires Walk(g, name, selected, depth).Missing?
    ensures ReachesUndefined(g, {name})
    decreases depth, 0
  {
    if name !in g {
      ReachesSelf(g, name);
      assert ReachedFrom(g, {name}, name);
    } else {
      var d := MissingIsUndefinedBelow(g, g[name], selected, depth - 1);
      UndefinedBelow(g, name, d);
    }
  }

  lemma {:induction false} MissingIsUndefinedBelow(g: Graph, names: seq<string>, selected: seq<string>, depth: nat)
    returns (d: string)
    requires WalkAll(g, names, selected, depth).Missing?
    ensures d in names && ReachesUndefined(g, {d})
    decreases depth, |names|
  {
    var first := Walk(g, names[0], selected, depth);
    if first.Missing? {
      d := names[0];
      MissingIsUndefined(g, d, selected, depth);
    } else {
      d := MissingIsUndefinedBelow(g, names[1..], first.selected, depth);
    }
  }

  lemma MissingIsReached(g: Graph, requested: seq<string>, depth: nat)
    requires WalkAll(g, requested, [], depth).Missing?
    ensures ReachesUndefined(g, NamesIn(requested))
  {
    var d := MissingIsUndefinedBelow(g, requested, [], depth);
    var b :| ReachedFrom(g, {d}, b) && b !in g;
    assert ReachedFrom(g, NamesIn(requested), b);
  }

  /** With no cycle in reach the recursion ends, on any catalog. */
  lemma AcyclicEnds(g: Graph, requested: seq<string>)
    requires !CycleReached(g, NamesIn(requested))
    ensures EndsAt(g, requested, |g.Keys| + 1) && Ends(g, requested)
  {
    forall d | d in requested ensures Path(g, [] + [d]) && !CycleReached(g, {d}) {
      assert forall b :: ReachedFrom(g, {d}, b) ==> ReachedFrom(g, NamesIn(requested), b);
    }
    assert g.Keys - (set s | s in []) == g.Keys;
    AcyclicWalkAllEnds(g, [], requested, [], |g.Keys| + 1);
    assert EndsAt(g, requested, |g.Keys| + 1);
  }

  /** The expansion returns if and only if neither a cycle nor an undefined name is
      reached from the request. */
  lemma ReturnsExactly(g: Graph, requested: seq<string>)
    ensures Returns(g, requested)
      <==> !CycleReached(g, NamesIn(requested)) && !ReachesUndefined(g, NamesIn(requested))
  {
    hide Walk, WalkAll;
    var starts := NamesIn(requested);
    if !CycleReached(g, starts) && !ReachesUndefined(g, starts) {
      AcyclicEnds(g, requested);
      if WalkAll(g, requested, [], |g.Keys| + 1).Missing? {
        MissingIsReached(g, requested, |g.Keys| + 1);
      }
      assert ReturnsAt(g, requested, |g.Keys| + 1);
    }
    if depth: nat :| ReturnsAt(g, requested, depth) {
      if CycleReached(g, starts) {
        var cycle :| IsCycle(g, cycle) && ReachedFrom(g, starts, cycle[0]);
        var a :| a in starts && Reaches(g, a, cycle[0]);
        var p := RoundAndRound(g, cycle, a, depth);
        WalkAllBoundsPaths(g, requested, [], depth, p);
      }
      if ReachesUndefined(g, starts) {
        var b :| ReachedFrom(g, starts, b) && b !in g;
        var a :| a in starts && Reaches(g, a, b);
        var p :| PathBetween(g, p, a, b);
        WalkAllBoundsPaths(g, requested, [], depth, p);
      }
    }
  }

  /** On a catalog that defines all that is reached, the recursion ends if and only if
      no cycle is reached. */
  lemma EndsExactly(g: Graph, requested: seq<string>)
    requires !ReachesUndefined(g, NamesIn(requested))
    ensures Ends(g, requested) <==> !CycleReached(g, NamesIn(requested))
  {
    hide WalkAll;
    if !CycleReached(g, NamesIn(requested)) {
      AcyclicEnds(g, requested);
    }
    if depth: nat :| EndsAt(g, requested, depth) {
      if WalkAll(g, requested, [], depth).Missing? {
        MissingIsReached(g, requested, depth);
      }
      assert ReturnsAt(g, requested, depth);
      ReturnsExactly(g, requested);
    }
  }

  /** A catalog in which `b` depends on itself. */
  const SELF_DEPENDENT: Graph := map["a" := [], "b" := ["b"]]

  /** It expands `a`, and never ends for `b`. */
  lemma SelfDependencyNeverEnds()
    ensures EndsWith(SELF_DEPENDENT, ["a"], ["a"]) && HasCycle(SELF_DEPENDENT)
    ensures !Ends(SELF_DEPENDENT, ["b"])
  {
    var g := SELF_DEPENDENT;
    assert IsCycle(g, ["b", "b"]);
    assert ["a"][1..] == [];
    assert Walk(g, "a", [], 2) == Walked(["a"]);
    assert WalkAll(g, ["a"], [], 2) == Walked(["a"]);
    forall depth: nat ensures WalkAll(g, ["b"], [], depth) == TooDeep {
      DeeperAndDeeper(depth);
    }
  }

  lemma {:induction false} DeeperAndDeeper(depth: nat)
    ensures Walk(SELF_DEPENDENT, "b", [], depth) == TooDeep
  {
    if depth > 0 {
      DeeperAndDeeper(depth - 1);
    }
  }

  /** An unknown request is refused before the walk. Otherwise, wherever the program's
      recursion ends, the expansion lists each check the request reaches exactly once and
      after its dependencies, or raises the lookup error, the latter if and only if the
      request reaches a name that the catalog does not define. */
  method ExpandProviderCheckNames(requested: seq<string>, checks: Graph) returns (r: ExpandResult)
    requires NamesIn(requested) <= checks.Keys ==> Ends(checks, requested)
    ensures r.UnknownRequested? <==> exists name :: name in requested && name !in checks
    ensures r.MissingKey? ==> ReachesUndefined(checks, NamesIn(requested))
    ensures r.Expanded? ==>
      && Distinct(r.names) && DependenciesFirst(checks, r.names)
      && (forall b :: b in r.names <==> ReachedFrom(checks, NamesIn(requested), b))
      && !ReachesUndefined(checks, NamesIn(requested))
      && EndsWith(checks, requested, r.names)
  {
    hide Walk, WalkAll, Reaches;
    var starts := NamesIn(requested);
    var unknown := starts - checks.Keys;
    if unknown != {} {
      var name :| name in unknown;
      return UnknownRequested(unknown);
    }
    assert forall name :: name in starts && name !in checks.Keys ==> name in unknown;
    assert starts <= checks.Keys;
    ghost var depth: nat :| EndsAt(checks, requested, depth);
    var e := new Expander(checks);
    var i := 0;
    assert requested[0..] == requested;
    while i < |requested|
      invariant i <= |requested|
      invariant e.Valid() && fresh(e) && e.checks == checks
      invariant WalkAll(checks, requested[i..], e.selected, depth) == WalkAll(checks, requested, [], depth)
      invariant forall k :: 0 <= k < i ==> requested[k] in e.selected
      invariant forall b :: b in e.selected ==> ReachedFrom(checks, starts, b)
    {
      ghost var sofar := e.selected;
      WalkAllNext(checks, requested, i, e.selected, depth);
      var ok := e.AddProvider(requested[i], depth);
      if !ok {
        ghost var b :| ReachedFrom(checks, {requested[i]}, b) && b !in checks;
        assert ReachedFrom(checks, starts, b);
        return MissingKey(requested[i]);
      }
      forall b | b in e.selected ensures ReachedFrom(checks, starts, b) {
        if b !in sofar {
          assert requested[i] in starts && Reaches(checks, requested[i], b);
        }
      }
      i := i + 1;
    }
    WalkAllDone(checks, requested[i..], e.selected, depth);
    ghost var reached := set b | b in e.selected;
    ClosureIsReachable(checks, starts, reached);
    r := Expanded(e.selected);
  }

  // -------------------------------------------------- production plugins

  /** The names of a manifest entry's `production_dependencies` that are strings; an
      entry that is absent or not a list has none. */
  datatype Item = Str(value: string) | OtherItem
  datatype Field = Items(items: seq<Item>) | OtherField

  function Texts(items: seq<Item>): seq<string> {
    if items == [] then []
    else (if items[0].Str? then [items[0].value] else []) + Texts(items[1..])
  }

  function Dependencies(manifest: map<string, Field>): Graph {
    map name | name in manifest :: if manifest[name].Items? then Texts(manifest[name].items) else []
  }

  lemma {:induction false} TextsAre(items: seq<Item>)
    ensures forall v :: v in Texts(items) <==> Str(v) in items
  {
    if items != [] {
      TextsAre(items[1..]);
    }
  }

  function InCatalogOrder(names: seq<string>, chosen: set<string>): seq<string> {
    if names == [] then []
    else (if names[0] in chosen then [names[0]] else []) + InCatalogOrder(names[1..], chosen)
  }

  /** `picked` are the entries of `names` at the increasing positions `at`, which are
      those of all its entries in `chosen`. */
  ghost predicate PickedAt(names: seq<string>, chosen: set<string>, picked: seq<string>, at: seq<nat>) {
    && |at| == |picked|
    && (forall i, j :: 0 <= i < j < |at| ==> at[i] < at[j])
    && (forall i :: 0 <= i < |at| ==> at[i] < |names| && picked[i] == names[at[i]] && picked[i] in chosen)
    && (forall p :: 0 <= p < |names| && names[p] in chosen ==> p in at)
  }

  /** The entries of `names` that are in `chosen`, in the order of `names`. */
  ghost predicate Picked(names: seq<string>, chosen: set<string>, picked: seq<string>) {
    exists at :: PickedAt(names, chosen, picked, at)
  }

  lemma {:induction false} CatalogOrderAppend(names: seq<string>, last: string, chosen: set<string>)
    ensures InCatalogOrder(names + [last], chosen)
         == InCatalogOrder(names, chosen) + (if last in chosen then [last] else [])
  {
    var tail := if last in chosen then [last] else [];
    if names == [] {
      assert names + [last] == [last] && [last][1..] == [];
      assert InCatalogOrder([last], chosen) == tail + [] == [] + tail;
    } else {
      var head := if names[0] in chosen then [names[0]] else [];
      assert (names + [last])[1..] == names[1..] + [last];
      CatalogOrderAppend(names[1..], last, chosen);
      Assoc(head, InCatalogOrder(names[1..], chosen), tail);
    }
  }

  lemma {:induction false} CatalogOrderPicks(names: seq<string>, chosen: set<string>)
    ensures Picked(names, chosen, InCatalogOrder(names, chosen))
    decreases |names|
  {
    hide InCatalogOrder, PickedAt;
    if names == [] {
      NonePicked(chosen);
    } else {
      var front, last := names[..|names| - 1], names[|names| - 1];
      assert names == front + [last];
      CatalogOrderPicks(front, chosen);
      CatalogOrderAppend(front, last, chosen);
      var at :| PickedAt(front, chosen, InCatalogOrder(front, chosen), at);
      OneMorePicked(front, last, chosen, InCatalogOrder(front, chosen), at);
    }
  }

  lemma NonePicked(chosen: set<string>)
    ensures Picked([], chosen, InCatalogOrder([], chosen))
  {
    assert PickedAt([], chosen, [], []);
  }

  lemma OneMorePicked(front: seq<string>, last: string, chosen: set<string>, picked: seq<string>, at: seq<nat>)
    requires PickedAt(front, chosen, picked, at)
    ensures Picked(front + [last], chosen, picked + if last in chosen then [last] else [])
  {
    if last in chosen {
      assert (at + [|front|])[|at|] == |front|;
      assert PickedAt(front + [last], chosen, picked + [last], at + [|front|]);
    } else {
      assert picked + [] == picked;
      assert PickedAt(front + [last], chosen, picked, at);
    }
  }

  /** A plugin depends on the strings of its manifest entry, if that is a list. */
  lemma DependenciesAre(manifest: map<string, Field>, a: string, b: string)
    ensures Edge(Dependencies(manifest), a, b)
      <==> a in manifest && manifest[a].Items? && Str(b) in manifest[a].items
  {
    if a in manifest && manifest[a].Items? {
      TextsAre(manifest[a].items);
    }
  }

  /** All names a manifest mentions: the growing set never leaves them. */
  ghost function Mentioned(g: Graph): set<string> {
    set a, b | a in g && b in g[a] :: b
  }

  ghost predicate Grown(g: Graph, starts: set<string>, chosen: set<string>) {
    starts <= chosen && chosen <= starts + Mentioned(g) && forall b :: b in chosen ==> ReachedFrom(g, starts, b)
  }

  lemma GrowKeeps(g: Graph, starts: set<string>, chosen: set<string>, a: string, b: string)
    requires Grown(g, starts, chosen) && a in chosen && Edge(g, a, b)
    ensures Grown(g, starts, chosen + {b})
  {
    var s :| s in starts && Reaches(g, s, a);
    ReachesStep(g, s, a, b);
    assert ReachedFrom(g, starts, b);
  }

  /** The dependencies of one plugin, added where they are new. */
  method AddDependencies(g: Graph, ghost starts: set<string>, plugin: string, items: seq<Item>, chosen0: set<string>)
    returns (chosen: set<string>, added: bool)
    requires plugin in g && g[plugin] == Texts(items)
    requires plugin in chosen0 && Grown(g, starts, chosen0)
    ensures chosen0 <= chosen && Grown(g, starts, chosen)
    ensures added <==> chosen != chosen0
    ensures forall b :: Edge(g, plugin, b) ==> b in chosen
  {
    hide Grown;
    chosen, added := chosen0, false;
    TextsAre(items);
    var i := 0;
    while i < |items|
      invariant i <= |items|
      invariant chosen0 <= chosen && Grown(g, starts, chosen)
      invariant added <==> chosen != chosen0
      invariant forall k :: 0 <= k < i && items[k].Str? ==> items[k].value in chosen
    {
      if items[i].Str? && items[i].value !in chosen {
        assert items[i] == Str(items[i].value);
        GrowKeeps(g, starts, chosen, plugin, items[i].value);
        chosen := chosen + {items[i].value};
        added := true;
      }
      i := i + 1;
    }
    assert forall b :: Edge(g, plugin, b) ==> Str(b) in items;
  }

  /** One sweep over a snapshot of the chosen set, taken in any order. */
  method Sweep(g: Graph, manifest: map<string, Field>, ghost starts: set<string>, chosen0: set<string>)
    returns (chosen: set<string>, changed: bool)
    requires g == Dependencies(manifest) && Grown(g, starts, chosen0)
    ensures Grown(g, starts, chosen) && chosen0 <= chosen
    ensures changed <==> chosen != chosen0
    ensures !changed ==> forall a, b :: a in chosen && Edge(g, a, b) ==> b in chosen
  {
    hide Grown;
    chosen, changed := chosen0, false;
    var snapshot := chosen0;
    while snapshot != {}
      invariant snapshot <= chosen0 <= chosen && Grown(g, starts, chosen)
      invariant changed <==> chosen != chosen0
      invariant forall a, b :: a in chosen0 - snapshot && Edge(g, a, b) ==> b in chosen
      decreases snapshot
    {
      var plugin :| plugin in snapshot;
      snapshot := snapshot - {plugin};
      if plugin in manifest && manifest[plugin].Items? {
        var added;
        chosen, added := AddDependencies(g, starts, plugin, manifest[plugin].items, chosen);
        changed := changed || added;
      }
    }
  }

  lemma {:induction false} CatalogOrderOfNames(names: seq<string>, chosen: set<string>, other: set<string>)
    requires forall n :: n in names ==> (n in chosen <==> n in other)
    ensures InCatalogOrder(names, chosen) == InCatalogOrder(names, other)
  {
    if names != [] {
      CatalogOrderOfNames(names[1..], chosen, other);
    }
  }

  datatype PluginError = UnknownPlugins(names: set<string>) | InvalidNames(invalid: seq<string>)

  /** A lower-case letter, then lower-case letters, digits and underscores. */
  predicate ValidPluginName(name: string) {
    && name != "" && 'a' <= name[0] <= 'z'
    && forall i :: 0 <= i < |name| ==> 'a' <= name[i] <= 'z' || '0' <= name[i] <= '9' || name[i] == '_'
  }

  /** The requested names that do not have the form of a name, as requested. */
  function InvalidAmong(requested: seq<string>): (invalid: seq<string>)
    ensures forall n :: n in invalid <==> n in requested && !ValidPluginName(n)
  {
    if requested == [] then []
    else (if ValidPluginName(requested[0]) then [] else [requested[0]]) + InvalidAmong(requested[1..])
  }

  lemma {:induction false} InvalidInOrder(requested: seq<string>, chosen: set<string>)
    requires forall n :: n in requested ==> (n in chosen <==> !ValidPluginName(n))
    ensures InvalidAmong(requested) == InCatalogOrder(requested, chosen)
  {
    hide ValidPluginName;
    if requested != [] {
      InvalidInOrder(requested[1..], chosen);
    }
  }

  /** ASCII: a to z first, then these, 0 to 9 and the underscore. */
  lemma PluginNamesAre(name: string)
    ensures ValidPluginName(name)
      <==> name != "" && 97 <= name[0] as int <= 122
           && forall i :: 0 <= i < |name| ==>
              var n := name[i] as int; 97 <= n <= 122 || 48 <= n <= 57 || n == 95
  {
  }

  /** A request with names outside the catalog, or else with malformed names, is refused
      for just these. Otherwise the fixpoint loop ends on every manifest, cyclic or not,
      and returns, in catalog order, exactly the catalog names reached from the request;
      the order in which a sweep visits the set does not show in the result. */
  method ProductionPluginsFor(requested: seq<string>, names: seq<string>, manifest: map<string, Field>)
    returns (r: Result<seq<string>, PluginError>)
    ensures r.Failure? && r.error.UnknownPlugins? <==> exists n :: n in requested && n !in names
    ensures r.Failure? && r.error.UnknownPlugins? ==> r.error.names == set n | n in requested && n !in names
    ensures r.Failure? && r.error.InvalidNames? <==>
      (forall n :: n in requested ==> n in names) && exists n :: n in requested && !ValidPluginName(n)
    ensures r.Failure? && r.error.InvalidNames? ==>
      Picked(requested, (set n | n in requested && !ValidPluginName(n)), r.error.invalid)
    ensures r.Success? ==>
      Picked(names, (set n | n in names && ReachedFrom(Dependencies(manifest), NamesIn(requested), n)), r.value)
  {
    hide ValidPluginName, Picked, InCatalogOrder;
    var unknown := NamesIn(requested) - NamesIn(names);
    assert forall n :: n in requested && n !in names <==> n in unknown;
    if unknown != {} {
      var n :| n in unknown;
      return Failure(UnknownPlugins(unknown));
    }
    var invalid := InvalidAmong(requested);
    if invalid != [] {
      assert invalid[0] in invalid;
      InvalidInOrder(requested, set n | n in requested && !ValidPluginName(n));
      CatalogOrderPicks(requested, set n | n in requested && !ValidPluginName(n));
      return Failure(InvalidNames(invalid));
    }
    var g := Dependencies(manifest);
    var starts := NamesIn(requested);
    forall b | b in starts ensures ReachedFrom(g, starts, b) {
      ReachesSelf(g, b);
    }
    var plugins := starts;
    var changed := true;
    while changed
      invariant Grown(g, starts, plugins)
      invariant !changed ==> forall a, b :: a in plugins && Edge(g, a, b) ==> b in plugins
      decreases starts + Mentioned(g) - plugins, changed
    {
      plugins, changed := Sweep(g, manifest, starts, plugins);
    }
    ClosureIsReachable(g, starts, plugins);
    CatalogOrderOfNames(names, plugins, set n | n in names && ReachedFrom(g, starts, n));
    CatalogOrderPicks(names, set n | n in names && ReachedFrom(g, starts, n));
    r := Success(InCatalogOrder(names, plugins));
  }
}
