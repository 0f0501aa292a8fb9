/** Nested configuration as values: what writing at a path and merging two trees mean
    (infra/config/loader.py, infra/scaffold.py). */
module ConfigTrees {
  import opened Text

  datatype Tree = Leaf(value: string) | Node(children: map<string, Tree>)

  type Children = map<string, Tree>

  function ChildrenAt(t: Children, key: string): Children {
    if key in t && t[key].Node? then t[key].children else map[]
  }

  /** `t` with `v` written at `path`; whatever stands in the way becomes a node. */
  function SetAt(t: Children, path: seq<string>, v: Tree): Children
    requires path != []
    decreases |path|
  {
    if |path| == 1 then t[path[0] := v]
    else t[path[0] := Node(SetAt(ChildrenAt(t, path[0]), path[1..], v))]
  }

  function Find(t: Tree, path: seq<string>): Option<Tree>
    decreases |path|
  {
    if path == [] then Some(t)
    else if t.Node? && path[0] in t.children then Find(t.children[path[0]], path[1..])
    else None
  }

  // ------------------------------------------------------- order of writes

  datatype Write = Write(path: seq<string>, value: Tree)

  /** Neither path is the other or a beginning of it. */
  predicate Apart(p: seq<string>, q: seq<string>) {
    !(p <= q) && !(q <= p)
  }

  lemma ApartTails(p: seq<string>, q: seq<string>)
    requires Apart(p, q) && p != [] && q != [] && p[0] == q[0]
    ensures p[1..] != [] && q[1..] != [] && Apart(p[1..], q[1..])
  {
    assert p == [p[0]] + p[1..] && q == [q[0]] + q[1..];
  }

  lemma SetBelow(t: Children, path: seq<string>, v: Tree)
    requires |path| > 1
    ensures SetAt(t, path, v) == t[path[0] := Node(SetAt(ChildrenAt(t, path[0]), path[1..], v))]
    ensures ChildrenAt(SetAt(t, path, v), path[0]) == SetAt(ChildrenAt(t, path[0]), path[1..], v)
  {
  }

  lemma SetElsewhere(t: Children, path: seq<string>, v: Tree)
    requires path != []
    ensures path[0] in SetAt(t, path, v) && SetAt(t, path, v) == t[path[0] := SetAt(t, path, v)[path[0]]]
    ensures forall u: Children :: ChildrenAt(u, path[0]) == ChildrenAt(t, path[0]) ==>
      SetAt(u, path, v) == u[path[0] := SetAt(t, path, v)[path[0]]]
  {
  }

  /** Writes at paths that are apart commute. */
  lemma {:induction false} SetAtCommutes(t: Children, p: seq<string>, v: Tree, q: seq<string>, w: Tree)
    requires p != [] && q != [] && Apart(p, q)
    ensures SetAt(SetAt(t, p, v), q, w) == SetAt(SetAt(t, q, w), p, v)
    decreases |p|
  {
    hide SetAt;
    if p[0] == q[0] {
      ApartTails(p, q);
      var c := ChildrenAt(t, p[0]);
      SetAtCommutes(c, p[1..], v, q[1..], w);
      SetBelow(t, p, v);
      SetBelow(t, q, w);
      SetBelow(SetAt(t, p, v), q, w);
      SetBelow(SetAt(t, q, w), p, v);
      Overwrite(t, p[0], Node(SetAt(c, p[1..], v)), Node(SetAt(c, q[1..], w)), SetAt(SetAt(t, p, v), q, w)[q[0]]);
    } else {
      SetElsewhere(t, p, v);
      SetElsewhere(t, q, w);
      var x, y := SetAt(t, p, v)[p[0]], SetAt(t, q, w)[q[0]];
      assert t[p[0] := x][q[0] := y] == t[q[0] := y][p[0] := x];
    }
  }

  lemma Overwrite(t: Children, k: string, x: Tree, y: Tree, z: Tree)
    ensures t[k := x][k := z] == t[k := y][k := z]
  {
  }

  function SetAll(t: Children, writes: seq<Write>): Children
    requires forall w :: w in writes ==> w.path != []
    decreases |writes|
  {
    if writes == [] then t else SetAll(SetAt(t, writes[0].path, writes[0].value), writes[1..])
  }

  ghost predicate AllApart(writes: seq<Write>) {
    && (forall w :: w in writes ==> w.path != [])
    && forall i, j :: 0 <= i < j < |writes| ==> Apart(writes[i].path, writes[j].path)
  }

  /** A write may be moved to the front. */
  lemma {:induction false} MoveToFront(t: Children, writes: seq<Write>, k: nat)
    requires AllApart(writes) && k < |writes|
    ensures AllApart([writes[k]] + (writes[..k] + writes[k + 1..]))
    ensures SetAll(t, [writes[k]] + (writes[..k] + writes[k + 1..])) == SetAll(t, writes)
    decreases k
  {
    var rest := writes[..k] + writes[k + 1..];
    var moved := [writes[k]] + rest;
    assert moved[1..] == rest;
    MovedApart(writes, k);
    if k == 0 {
      assert moved == writes;
    } else {
      var first, tail := writes[0], writes[1..];
      assert AllApart(tail);
      MoveToFront(SetAt(t, first.path, first.value), tail, k - 1);
      var tail' := tail[..k - 1] + tail[k..];
      assert tail[k - 1] == writes[k] && rest[1..] == tail' && rest[0] == first;
      assert ([tail[k - 1]] + tail')[1..] == tail';
      SetAtCommutes(t, first.path, first.value, writes[k].path, writes[k].value);
    }
  }

  lemma MovedApart(writes: seq<Write>, k: nat)
    requires AllApart(writes) && k < |writes|
    ensures AllApart([writes[k]] + (writes[..k] + writes[k + 1..]))
  {
    var moved := [writes[k]] + (writes[..k] + writes[k + 1..]);
    forall i, j | 0 <= i < j < |moved| ensures Apart(moved[i].path, moved[j].path) {
      var a, b := Source(i, k), Source(j, k);
      assert moved[i] == writes[a] && moved[j] == writes[b] && a != b;
    }
  }

  /** Where the i-th write of the reordered list stood before. */
  function Source(i: nat, k: nat): nat {
    if i == 0 then k else if i - 1 < k then i - 1 else i
  }

  /** When no path is equal to or a beginning of another, every order of the same writes
      builds the same tree. */
  lemma {:induction false} OrderIsIrrelevant(t: Children, a: seq<Write>, b: seq<Write>)
    requires multiset(a) == multiset(b) && AllApart(a) && AllApart(b)
    ensures SetAll(t, a) == SetAll(t, b)
    decreases |a|
  {
    if a == [] {
      assert |multiset(b)| == 0;
      assert b == [];
    } else {
      hide SetAll, AllApart;
      assert a[0] in multiset(b);
      var k :| 0 <= k < |b| && b[k] == a[0];
      var rest := b[..k] + b[k + 1..];
      var moved := [b[k]] + rest;
      MoveToFront(t, b, k);
      assert moved[1..] == rest && moved[0] == a[0];
      SameRest(a, b, k);
      TailApart(moved);
      TailApart(a);
      SetFirst(t, moved);
      SetFirst(t, a);
      OrderIsIrrelevant(SetAt(t, a[0].path, a[0].value), a[1..], rest);
    }
  }

  lemma SetFirst(t: Children, writes: seq<Write>)
    requires writes != [] && AllApart(writes)
    ensures forall w :: w in writes ==> w.path != []
    ensures forall w :: w in writes[1..] ==> w.path != []
    ensures SetAll(t, writes) == SetAll(SetAt(t, writes[0].path, writes[0].value), writes[1..])
  {
  }

  lemma SameRest(a: seq<Write>, b: seq<Write>, k: nat)
    requires a != [] && k < |b| && b[k] == a[0] && multiset(a) == multiset(b)
    ensures multiset(a[1..]) == multiset(b[..k] + b[k + 1..])
  {
    assert a == [a[0]] + a[1..] && b == b[..k] + [b[k]] + b[k + 1..];
    assert multiset(a[1..]) == multiset(a) - multiset{a[0]};
    assert multiset(b[..k] + b[k + 1..]) == multiset(b) - multiset{b[k]};
  }

  lemma TailApart(writes: seq<Write>)
    requires AllApart(writes) && writes != []
    ensures AllApart(writes[1..])
  {
  }

  lemma {:induction false} FoundWhereSet(t: Children, path: seq<string>, v: Tree)
    requires path != []
    ensures Find(Node(SetAt(t, path, v)), path) == Some(v)
    decreases |path|
  {
    if |path| == 1 {
      assert path[1..] == [];
    } else {
      FoundWhereSet(ChildrenAt(t, path[0]), path[1..], v);
    }
  }

  lemma {:induction false} FoundElsewhere(t: Children, q: seq<string>, w: Tree, p: seq<string>)
    requires q != [] && p != [] && Apart(p, q)
    ensures Find(Node(SetAt(t, q, w)), p) == Find(Node(t), p)
    decreases |p|
  {
    if p[0] == q[0] {
      ApartTails(p, q);
      FoundElsewhere(ChildrenAt(t, q[0]), q[1..], w, p[1..]);
    }
  }

  /** Each value ends up at its path. */
  lemma {:induction false} EachValueFound(t: Children, writes: seq<Write>, i: nat)
    requires AllApart(writes) && i < |writes|
    ensures Find(Node(SetAll(t, writes)), writes[i].path) == Some(writes[i].value)
    decreases |writes|
  {
    var t1 := SetAt(t, writes[0].path, writes[0].value);
    TailApart(writes);
    if i == 0 {
      FoundWhereSet(t, writes[0].path, writes[0].value);
      StaysFound(t1, writes[1..], writes[0].path);
    } else {
      EachValueFound(t1, writes[1..], i - 1);
    }
  }

  lemma {:induction false} StaysFound(t: Children, writes: seq<Write>, p: seq<string>)
    requires p != [] && AllApart(writes) && forall w :: w in writes ==> Apart(p, w.path)
    ensures Find(Node(SetAll(t, writes)), p) == Find(Node(t), p)
    decreases |writes|
  {
    if writes != [] {
      TailApart(writes);
      FoundElsewhere(t, writes[0].path, writes[0].value, p);
      StaysFound(SetAt(t, writes[0].path, writes[0].value), writes[1..], p);
    }
  }

  // ---------------------------------------------------------------- merging

  /** Two nodes merge key by key; otherwise the second tree stands. */
  function Combine(a: Tree, b: Tree): Tree
    decreases b, 1
  {
    if a.Node? && b.Node? then Node(Merge(a.children, b.children)) else b
  }

  function Merge(a: Children, b: Children): Children
    decreases Node(b), 0
  {
    map k | k in a.Keys + b.Keys ::
      if k !in b then a[k] else if k !in a then b[k] else Combine(a[k], b[k])
  }

  /** Every leaf of the second tree is in the merge, at the same path. */
  lemma {:induction false} SourceLeavesKept(a: Children, b: Children, p: seq<string>)
    requires p != [] && Find(Node(b), p).Some? && Find(Node(b), p).value.Leaf?
    ensures Find(Node(Merge(a, b)), p) == Find(Node(b), p)
    decreases |p|
  {
    var k := p[0];
    if k in a && a[k].Node? && b[k].Node? && |p| > 1 {
      assert b[k] == Node(b[k].children);
      SourceLeavesKept(a[k].children, b[k].children, p[1..]);
    }
  }

  /** `b` has something at `p` or a leaf on the way to it. */
  predicate Reaches(b: Children, p: seq<string>)
    requires p != []
    decreases |p|
  {
    p[0] in b && (|p| == 1 || b[p[0]].Leaf? || Reaches(b[p[0]].children, p[1..]))
  }

  /** Leaves of the first tree that the second does not reach are kept too. */
  lemma {:induction false} TargetLeavesKept(a: Children, b: Children, p: seq<string>)
    requires p != [] && Find(Node(a), p).Some? && Find(Node(a), p).value.Leaf? && !Reaches(b, p)
    ensures Find(Node(Merge(a, b)), p) == Find(Node(a), p)
    decreases |p|
  {
    var k := p[0];
    if k in b {
      assert a[k].Node? && a[k] == Node(a[k].children);
      TargetLeavesKept(a[k].children, b[k].children, p[1..]);
    }
  }

  lemma {:induction false} FoundMeansReached(b: Children, p: seq<string>)
    requires p != [] && Find(Node(b), p).Some?
    ensures Reaches(b, p)
    decreases |p|
  {
    if |p| > 1 && b[p[0]].Node? {
      assert b[p[0]] == Node(b[p[0]].children);
      FoundMeansReached(b[p[0]].children, p[1..]);
    }
  }

  /** The merge invents nothing: each leaf comes from one of the two trees. */
  lemma {:induction false} LeavesComeFrom(a: Children, b: Children, p: seq<string>)
    requires p != [] && Find(Node(Merge(a, b)), p).Some? && Find(Node(Merge(a, b)), p).value.Leaf?
    ensures Find(Node(Merge(a, b)), p) == Find(Node(if Reaches(b, p) then b else a), p)
    decreases |p|
  {
    var k := p[0];
    if k in a && k in b && a[k].Node? && b[k].Node? {
      assert |p| > 1;
      assert a[k] == Node(a[k].children) && b[k] == Node(b[k].children);
      LeavesComeFrom(a[k].children, b[k].children, p[1..]);
    } else if k in b {
      FoundMeansReached(b, p);
    }
  }

  // --------------------------------------------------- the recursive merge

  /** `_deep_merge_mapping`: a fresh tree, built key by key in any order. */
  method DeepMergeMapping(base: Children, override: Children) returns (merged: Children)
    ensures merged == Merge(base, override)
    decreases Node(override)
  {
    merged := base;
    var todo := override.Keys;
    while todo != {}
      invariant todo <= override.Keys
      invariant merged.Keys == base.Keys + (override.Keys - todo)
      invariant forall k :: k in merged ==>
        merged[k] == if k in override && k !in todo then Merge(base, override)[k] else base[k]
      decreases todo
    {
      var key :| key in todo;
      var value := override[key];
      if key in merged && merged[key].Node? && value.Node? {
        assert value == Node(value.children);
        var child := DeepMergeMapping(merged[key].children, value.children);
        merged := merged[key := Node(child)];
      } else {
        merged := merged[key := value];
      }
      todo := todo - {key};
    }
    assert merged.Keys == Merge(base, override).Keys;
  }
}
