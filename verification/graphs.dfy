/** Dependency graphs: names and the names each of them depends on. */
module Graphs {
  import opened Sequences

  type Graph = map<string, seq<string>>

  predicate Edge(g: Graph, a: string, b: string) {
    a in g && b in g[a]
  }

  ghost predicate Path(g: Graph, p: seq<string>) {
    p != [] && forall i :: 0 <= i < |p| - 1 ==> Edge(g, p[i], p[i + 1])
  }

  ghost predicate PathBetween(g: Graph, p: seq<string>, a: string, b: string) {
    Path(g, p) && p[0] == a && p[|p| - 1] == b
  }

  ghost predicate Reaches(g: Graph, a: string, b: string) {
    exists p :: PathBetween(g, p, a, b)
  }

  /** `b` is reached from some name in `starts`, in any number of steps. */
  ghost predicate ReachedFrom(g: Graph, starts: set<string>, b: string) {
    exists a :: a in starts && Reaches(g, a, b)
  }

  ghost predicate IsCycle(g: Graph, p: seq<string>) {
    |p| >= 2 && Path(g, p) && p[0] == p[|p| - 1]
  }

  ghost predicate HasCycle(g: Graph) {
    exists p :: IsCycle(g, p)
  }

  /** Every name in `order` comes after those of its dependencies that are in `g`. */
  ghost predicate DependenciesFirst(g: Graph, order: seq<string>) {
    forall i, d :: 0 <= i < |order| && Edge(g, order[i], d) && d in g ==> d in order[..i]
  }

  ghost predicate TopologicalOrder(g: Graph, order: seq<string>) {
    && Distinct(order)
    && (forall name :: name in order <==> name in g)
    && DependenciesFirst(g, order)
  }

  lemma ReachesSelf(g: Graph, a: string)
    ensures Reaches(g, a, a)
  {
    assert PathBetween(g, [a], a, a);
  }

  lemma ReachesStep(g: Graph, a: string, b: string, c: string)
    requires Reaches(g, a, b) && Edge(g, b, c)
    ensures Reaches(g, a, c)
  {
    var p :| PathBetween(g, p, a, b);
    assert PathBetween(g, p + [c], a, c);
  }

  lemma ReachesTransitive(g: Graph, a: string, b: string, c: string)
    requires Reaches(g, a, b) && Reaches(g, b, c)
    ensures Reaches(g, a, c)
  {
    var p :| PathBetween(g, p, a, b);
    var q :| PathBetween(g, q, b, c);
    var r := p + q[1..];
    forall i | 0 <= i < |r| - 1 ensures Edge(g, r[i], r[i + 1]) {
      if i >= |p| - 1 {
        assert r[i] == q[i - |p| + 1] && r[i + 1] == q[i - |p| + 2];
      }
    }
    assert PathBetween(g, r, a, c);
  }

  /** A set that holds the starts and is closed under edges holds whatever they reach. */
  lemma {:induction false} ClosedHoldsReachable(g: Graph, s: set<string>, p: seq<string>)
    requires Path(g, p) && p[0] in s
    requires forall a, b :: a in s && Edge(g, a, b) ==> b in s
    ensures p[|p| - 1] in s
  {
    if |p| > 1 {
      var q := p[..|p| - 1];
      assert Path(g, q);
      ClosedHoldsReachable(g, s, q);
      assert Edge(g, q[|q| - 1], p[|p| - 1]);
    }
  }

  /** A closed set whose members are all reached is exactly the reached set. */
  lemma ClosureIsReachable(g: Graph, starts: set<string>, s: set<string>)
    requires starts <= s
    requires forall a, b :: a in s && Edge(g, a, b) ==> b in s
    requires forall b :: b in s ==> ReachedFrom(g, starts, b)
    ensures forall b :: b in s <==> ReachedFrom(g, starts, b)
  {
    forall b | ReachedFrom(g, starts, b) ensures b in s {
      var a :| a in starts && Reaches(g, a, b);
      var p :| PathBetween(g, p, a, b);
      ClosedHoldsReachable(g, s, p);
    }
  }

  lemma {:induction false} PathGoesBack(g: Graph, order: seq<string>, p: seq<string>, i: nat, j: nat)
    requires TopologicalOrder(g, order) && Path(g, p) && |p| >= 2 && p[|p| - 1] in g
    requires i < |order| && order[i] == p[0] && j < |order| && order[j] == p[|p| - 1]
    ensures j < i
    decreases |p|
  {
    var q := p[1..];
    assert Edge(g, p[0], p[1]) && q[0] == p[1] && q[|q| - 1] == p[|p| - 1];
    if |q| == 1 {
      assert p[1] in order[..i];
    } else {
      assert Path(g, q) by {
        forall k | 0 <= k < |q| - 1 ensures Edge(g, q[k], q[k + 1]) {
          assert Edge(g, p[k + 1], p[k + 2]);
        }
      }
      assert Edge(g, p[1], p[2]);
      assert p[1] in order[..i];
      var k :| 0 <= k < i && order[k] == p[1];
      PathGoesBack(g, order, q, k, j);
    }
  }

  /** A name may follow a dependencies-first order that holds its dependencies. */
  lemma AppendKeepsOrder(g: Graph, order: seq<string>, name: string)
    requires Distinct(order) && DependenciesFirst(g, order) && name !in order
    requires forall d :: Edge(g, name, d) && d in g ==> d in order
    ensures Distinct(order + [name]) && DependenciesFirst(g, order + [name])
  {
    var longer := order + [name];
    forall i, d | 0 <= i < |longer| && Edge(g, longer[i], d) && d in g ensures d in longer[..i] {
      assert longer[..i] == order[..i];
    }
  }

  lemma EarlierDependency(g: Graph, order: seq<string>, i: nat, d: string) returns (j: nat)
    requires TopologicalOrder(g, order) && i < |order| && Edge(g, order[i], d) && d in g
    ensures j < i && order[j] == d
  {
    j :| 0 <= j < i && order[..i][j] == d;
  }

  lemma ExtendPath(g: Graph, p: seq<string>, d: string)
    requires Path(g, p) && Edge(g, p[|p| - 1], d)
    ensures Path(g, p + [d])
  {
  }

  /** A graph that has a topological order has no cycle. */
  lemma OrderedMeansAcyclic(g: Graph, order: seq<string>)
    requires TopologicalOrder(g, order)
    ensures !HasCycle(g)
  {
    if HasCycle(g) {
      var p :| IsCycle(g, p);
      assert Edge(g, p[0], p[1]);
      assert p[0] in order;
      var i :| 0 <= i < |order| && order[i] == p[0];
      PathGoesBack(g, order, p, i, i);
      assert false;
    }
  }
}
