/** Nested dictionaries updated in place: `_set_nested` and `_deep_merge` of
    infra/config/loader.py, on objects that share nothing. */
module NestedConfig {
  import opened ConfigTrees

  datatype Value = Plain(text: string) | Sub(dict: Dict)

  class Dict {
    var entries: map<string, Value>
    /** This dictionary and every dictionary below it. */
    ghost var Repr: set<Dict>

    constructor ()
      ensures Valid() && fresh(Repr) && entries == map[] && Tree() == map[]
    {
      entries := map[];
      Repr := {this};
    }

    /** The dictionaries form a tree: none is reached twice. */
    ghost predicate Valid()
      reads this, Repr
      decreases Repr
    {
      && this in Repr
      && (forall k :: k in entries && entries[k].Sub? ==>
           var c := entries[k].dict;
           c in Repr && c.Repr <= Repr && this !in c.Repr && c.Valid())
      && (forall k, l :: k in entries && l in entries && k != l && entries[k].Sub? && entries[l].Sub? ==>
           entries[k].dict.Repr !! entries[l].dict.Repr)
    }

    ghost function Tree(): Children
      requires Valid()
      reads this, Repr
      decreases Repr
    {
      map k | k in entries :: TreeAt(k)
    }

    ghost function TreeAt(k: string): Tree
      requires Valid() && k in entries
      reads this, Repr
      decreases Repr, 0
    {
      match entries[k]
      case Plain(text) => Leaf(text)
      case Sub(c) => Node(c.Tree())
    }

    twostate lemma Untouched()
      requires old(Valid()) && forall d :: d in old(Repr) ==> unchanged(d)
      ensures Valid() && Repr == old(Repr) && entries == old(entries) && Tree() == old(Tree())
      ensures forall k :: k in entries ==> Below(entries[k]) == old(Below(entries[k]))
    {
      forall k | k in entries && entries[k].Sub? ensures entries[k].dict in old(Repr) {
      }
    }

    /** A dictionary one of whose children has changed in place, at most taking in
        dictionaries from elsewhere, is still well formed, and its tree differs only there. */
    twostate lemma ParentFollowsChild(part: string)
      requires old(Valid()) && entries == old(entries)
      requires part in entries && entries[part].Sub?
      requires var child := entries[part].dict;
               && Repr == old(Repr) + child.Repr
               && (forall d :: d in old(Repr) && d != this && d !in old(child.Repr) ==> unchanged(d))
               && (child.Repr - old(child.Repr)) !! old(Repr)
               && child.Valid() && this !in child.Repr
      ensures Valid()
      ensures Tree() == old(Tree())[part := Node(entries[part].dict.Tree())]
    {
      var child := entries[part].dict;
      forall k | k in entries && k != part && entries[k].Sub?
        ensures var c := entries[k].dict;
                c in old(Repr) && c.Repr == old(c.Repr) && c.Repr <= old(Repr) && this !in c.Repr
                && c.Repr !! old(child.Repr) && c.Valid() && c.Tree() == old(c.Tree())
      {
        var c := entries[k].dict;
        assert old(c.Repr !! child.Repr);
        assert forall d :: d in old(c.Repr) ==> unchanged(d);
      }
      forall k, l | k in entries && l in entries && k != l && entries[k].Sub? && entries[l].Sub?
        ensures entries[k].dict.Repr !! entries[l].dict.Repr
      {
        assert old(entries[k].dict.Repr !! entries[l].dict.Repr);
      }
    }
  }

  /** The way from a dictionary up to the root: at each step the dictionary above, the
      part that leads down, the dictionaries beside that part, and their trees. */
  datatype Zipper =
    | Top
    | Under(up: Zipper, dict: Dict, part: string, level: set<Dict>, siblings: Children)

  ghost function Above(z: Zipper): set<Dict> {
    if z.Top? then {} else Above(z.up) + z.level
  }

  ghost function Root(z: Zipper, d: Dict): Dict {
    if z.Top? then d else Root(z.up, z.dict)
  }

  /** The tree of the root when `t` is the tree at the bottom. */
  function Plug(z: Zipper, t: Children): Children {
    if z.Top? then t else Plug(z.up, z.siblings[z.part := Node(t)])
  }

  /** `d` holds `child` under `part`, and what it holds elsewhere is in order. What `d`
      believes its `Repr` to be does not matter. */
  ghost predicate Level(d: Dict, part: string, child: Dict, level: set<Dict>, siblings: Children)
    reads d, level
  {
    && d in level && part in d.entries && d.entries[part] == Sub(child)
    && siblings.Keys == d.entries.Keys - {part}
    && (forall k :: k in siblings && d.entries[k].Plain? ==> siblings[k] == Leaf(d.entries[k].text))
    && (forall k :: k in siblings && d.entries[k].Sub? ==>
         var s := d.entries[k].dict;
         s in level && s.Repr <= level && d !in s.Repr && s.Valid() && siblings[k] == Node(s.Tree()))
    && (forall k, l :: k in siblings && l in siblings && k != l && d.entries[k].Sub? && d.entries[l].Sub? ==>
         d.entries[k].dict.Repr !! d.entries[l].dict.Repr)
  }

  ghost predicate LeadsTo(z: Zipper, d: Dict)
    reads Above(z)
  {
    z.Top? ||
    (z.dict in z.level && Level(z.dict, z.part, d, z.level, z.siblings)
     && z.level !! Above(z.up) && LeadsTo(z.up, z.dict))
  }

  lemma OpenLevel(d: Dict, part: string, child: Dict)
    requires d.Valid() && part in d.entries && d.entries[part] == Sub(child)
    ensures Level(d, part, child, d.Repr - child.Repr, d.Tree() - {part})
    ensures child.Valid() && child.Repr <= d.Repr
  {
  }

  /** The dictionary under `part`, created if there is none; the tree changes at most by
      the empty dictionary. */
  method ChildAt(target: Dict, part: string) returns (child: Dict)
    requires target.Valid()
    modifies target
    ensures target.Valid() && fresh(target.Repr - old(target.Repr))
    ensures part in target.entries && target.entries[part] == Sub(child)
    ensures child.Tree() == ChildrenAt(old(target.Tree()), part)
    ensures target.Tree() == old(target.Tree())[part := Node(child.Tree())]
  {
    if part !in target.entries || !target.entries[part].Sub? {
      var existing := new Dict();
      target.entries := target.entries[part := Sub(existing)];
      target.Repr := target.Repr + existing.Repr;
    }
    child := target.entries[part].dict;
  }

  /** The same, with the way back. */
  method Descend(target: Dict, part: string, ghost way: Zipper) returns (child: Dict, ghost longer: Zipper)
    requires target.Valid() && LeadsTo(way, target) && Above(way) !! target.Repr && allocated(Above(way))
    modifies target
    ensures child.Valid() && child.Tree() == ChildrenAt(old(target.Tree()), part)
    ensures LeadsTo(longer, child) && Above(longer) !! child.Repr && allocated(Above(longer))
    ensures Root(longer, child) == Root(way, target)
    ensures fresh(Above(longer) + child.Repr - old(Above(way) + target.Repr))
    ensures forall t :: Plug(longer, t) == Plug(way, old(target.Tree())[part := Node(t)])
  {
    hide Level;
    ghost var tree := target.Tree();
    child := ChildAt(target, part);
    OpenLevel(target, part, child);
    longer := Under(way, target, part, target.Repr - child.Repr, target.Tree() - {part});
    BesidePart(tree, target.Tree(), part, Node(child.Tree()));
  }

  lemma BesidePart(t: Children, grown: Children, part: string, v: Tree)
    requires grown == t[part := v]
    ensures forall u :: (grown - {part})[part := Node(u)] == t[part := Node(u)]
  {
  }

  /** Brings `Repr` of the dictionary above up to date. */
  ghost method Close(d: Dict, part: string, child: Dict, level: set<Dict>, siblings: Children)
    requires Level(d, part, child, level, siblings) && child.Valid() && child.Repr !! level
    modifies d
    ensures d.Valid() && d.Repr == level + child.Repr && d.entries == old(d.entries)
    ensures child.Valid() && child.Tree() == old(child.Tree())
    ensures d.Tree() == siblings[part := Node(child.Tree())]
  {
    d.Repr := level + child.Repr;
    assert child.Valid();
    forall k | k in siblings && d.entries[k].Sub?
      ensures d.entries[k].dict.Valid() && siblings[k] == Node(d.entries[k].dict.Tree())
    {
      assert old(d.entries[k].dict.Valid());
    }
  }

  /** Writes `value` at `path`, going down through dictionaries, and replacing or creating
      what is not one on the way. A value that is itself a dictionary becomes part of the
      target. */
  method SetNested(target: Dict, path: seq<string>, value: Value)
    requires target.Valid() && path != []
    requires ValidValue(value) && Below(value) !! target.Repr
    modifies target.Repr
    ensures target.Valid() && fresh(target.Repr - old(target.Repr) - old(Below(value)))
    ensures target.Tree() == SetAt(old(target.Tree()), path, old(TreeOf(value)))
  {
    hide SetAt, Level, LeadsTo, Above, Plug, Root;
    ghost var wanted, below := TreeOf(value), Below(value);
    ghost var goal := SetAt(target.Tree(), path, wanted);
    ghost var way := Top;
    var current := target;
    var i := 0;
    assert path[0..] == path;
    AtTheTop(target);
    while i < |path| - 1
      invariant i < |path| && path[i..] != []
      invariant current.Valid() && LeadsTo(way, current) && Above(way) !! current.Repr
      invariant Root(way, current) == target && allocated(Above(way))
      invariant fresh(Above(way) + current.Repr - old(target.Repr))
      invariant Below(value) == below && below !! Above(way) + current.Repr
      invariant ValidValue(value) && TreeOf(value) == wanted
      invariant Plug(way, SetAt(current.Tree(), path[i..], wanted)) == goal
    {
      SetBelow(current.Tree(), path[i..], wanted);
      current, way := Descend(current, path[i], way);
      i := i + 1;
    }
    SetHere(current.Tree(), path[i..], wanted);
    PutValue(current, path[i], value);
    CloseAll(way, current);
  }

  /** Brings the dictionaries on the way up to date, from the bottom to the root. */
  ghost method CloseAll(way: Zipper, bottom: Dict)
    requires bottom.Valid() && LeadsTo(way, bottom) && Above(way) !! bottom.Repr
    requires allocated(Above(way))
    modifies Above(way)
    ensures Root(way, bottom).Valid() && Root(way, bottom).Repr == Above(way) + old(bottom.Repr)
    ensures Root(way, bottom).Tree() == Plug(way, old(bottom.Tree()))
    decreases way
  {
    hide Level;
    if way.Under? {
      Close(way.dict, way.part, bottom, way.level, way.siblings);
      CloseAll(way.up, way.dict);
    }
  }

  lemma AtTheTop(target: Dict)
    ensures LeadsTo(Top, target) && Above(Top) == {} && Root(Top, target) == target
    ensures forall t :: Plug(Top, t) == t
  {
  }

  lemma SetHere(t: Children, path: seq<string>, v: Tree)
    requires |path| == 1
    ensures SetAt(t, path, v) == t[path[0] := v]
  {
  }

  ghost function Below(v: Value): set<Dict>
    reads if v.Sub? then {v.dict} else {}
  {
    if v.Sub? then v.dict.Repr else {}
  }

  ghost predicate ValidValue(v: Value)
    reads if v.Sub? then {v.dict} else {}, Below(v)
  {
    v.Sub? ==> v.dict.Valid()
  }

  ghost function TreeOf(v: Value): Tree
    requires ValidValue(v)
    reads if v.Sub? then {v.dict} else {}, Below(v)
  {
    match v
    case Plain(text) => Leaf(text)
    case Sub(c) => Node(c.Tree())
  }

  function CombineAt(t: Children, key: string, v: Tree): Children {
    t[key := if key in t then Combine(t[key], v) else v]
  }

  /** One key of the source: merged into a dictionary already there, or put in place. */
  method MergeKey(target: Dict, key: string, value: Value, ghost repr: set<Dict>)
    requires target.Valid() && ValidValue(value) && Below(value) !! target.Repr
    requires target in repr && (key in target.entries ==> Below(target.entries[key]) <= repr)
    modifies repr
    ensures target.Valid() && target.Repr <= old(target.Repr) + old(Below(value))
    ensures target.Tree() == CombineAt(old(target.Tree()), key, old(TreeOf(value)))
    ensures key in target.entries && target.entries == old(target.entries)[key := target.entries[key]]
    ensures forall k :: k in target.entries && k != key ==> Below(target.entries[k]) == old(Below(target.entries[k]))
    decreases Below(value), 3
  {
    hide Merge;
    if key in target.entries {
      EntriesApart(target, key);
    }
    if key in target.entries && target.entries[key].Sub? && value.Sub? {
      MergeBelow(target, key, value.dict, repr);
    } else {
      PutValue(target, key, value);
    }
  }

  /** The dictionary under `key` merged with that of the source. */
  method MergeBelow(target: Dict, key: string, source: Dict, ghost repr: set<Dict>)
    requires target.Valid() && key in target.entries && target.entries[key].Sub?
    requires source.Valid() && source.Repr !! target.Repr
    requires target in repr && target.entries[key].dict.Repr <= repr
    modifies repr
    ensures target.Valid() && target.Repr <= old(target.Repr) + old(source.Repr)
    ensures target.entries == old(target.entries)
    ensures var merged := Merge(old(target.entries[key].dict.Tree()), old(source.Tree()));
            target.Tree() == old(target.Tree())[key := Node(merged)]
    ensures forall k :: k in target.entries && k != key ==> Below(target.entries[k]) == old(Below(target.entries[k]))
    decreases source.Repr, 2
  {
    hide Merge;
    var child := target.entries[key].dict;
    DeepMerge(child, source);
    target.Repr := target.Repr + child.Repr;
    target.ParentFollowsChild(key);
  }

  method PutValue(target: Dict, key: string, value: Value)
    requires target.Valid() && ValidValue(value) && Below(value) !! target.Repr
    modifies target
    ensures target.Valid() && target.Repr == old(target.Repr) + Below(value)
    ensures target.entries == old(target.entries)[key := value]
    ensures ValidValue(value) && target.Tree() == old(target.Tree())[key := TreeOf(value)]
  {
    target.entries := target.entries[key := value];
    target.Repr := target.Repr + Below(value);
  }

  /** The tree part way through the loop: the keys of `done` are merged. */
  ghost function PartlyMerged(a: Children, b: Children, done: set<string>): Children {
    map k | k in a.Keys + (b.Keys * done) :: if k in b && k in done then Merge(a, b)[k] else a[k]
  }

  lemma NothingMerged(a: Children, b: Children)
    ensures PartlyMerged(a, b, {}) == a
    ensures PartlyMerged(a, b, b.Keys) == Merge(a, b)
  {
  }

  lemma OneMoreMerged(a: Children, b: Children, done: set<string>, key: string)
    requires key in b && key !in done
    ensures CombineAt(PartlyMerged(a, b, done), key, b[key]) == PartlyMerged(a, b, done + {key})
  {
  }

  lemma EntriesApart(d: Dict, key: string)
    requires d.Valid() && key in d.entries
    ensures ValidValue(d.entries[key]) && d.Tree()[key] == TreeOf(d.entries[key])
    ensures Below(d.entries[key]) < d.Repr
    ensures forall k :: k in d.entries && k != key ==> Below(d.entries[k]) !! Below(d.entries[key])
  {
  }

  /** The keys of `todo` are still to merge: what the source has there is apart from the
      target, and what the target has there was below it from the start. */
  ghost predicate StillApart(target: Dict, source: Dict, todo: set<string>, repr: set<Dict>)
    requires todo <= source.entries.Keys
    reads source, source.Repr, target, target.Repr, repr
  {
    && source.Valid() && target.Valid() && target in repr
    && target.Repr <= repr + source.Repr && source !in target.Repr && repr !! source.Repr
    && (forall k :: k in todo ==> Below(source.entries[k]) !! target.Repr)
    && (forall k :: k in todo && k in target.entries ==> Below(target.entries[k]) <= repr)
  }

  /** The next key of the source, any that is left. */
  method MergeNext(target: Dict, source: Dict, key: string, ghost todo: set<string>, ghost repr: set<Dict>)
    requires todo <= source.entries.Keys && key in todo && StillApart(target, source, todo, repr)
    modifies repr
    ensures source.entries == old(source.entries)
    ensures StillApart(target, source, todo - {key}, repr) && source.Tree() == old(source.Tree())
    ensures target.Tree() == CombineAt(old(target.Tree()), key, old(source.Tree())[key])
    decreases source.Repr, 0
  {
    hide CombineAt, TreeOf, Combine;
    AllEntriesApart(source, key);
    MergeKey(target, key, source.entries[key], repr);
    source.Untouched();
  }

  lemma AllEntriesApart(d: Dict, key: string)
    requires d.Valid() && key in d.entries
    ensures ValidValue(d.entries[key]) && d.Tree()[key] == TreeOf(d.entries[key])
    ensures Below(d.entries[key]) < d.Repr
    ensures forall k :: k in d.entries && k != key ==> Below(d.entries[k]) !! Below(d.entries[key])
    ensures forall k :: k in d.entries && d.entries[k].Sub? ==> d.entries[k].dict in d.Repr
    ensures d !in Below(d.entries[key])
  {
    EntriesApart(d, key);
  }

  /** `_deep_merge`: the target is updated in place; dictionaries of the source become
      part of it, unchanged. The two share nothing beforehand. */
  method DeepMerge(target: Dict, source: Dict)
    requires target.Valid() && source.Valid() && target.Repr !! source.Repr
    modifies target.Repr
    ensures target.Valid() && target.Repr <= old(target.Repr) + source.Repr
    ensures target.Tree() == Merge(old(target.Tree()), old(source.Tree()))
    decreases source.Repr, 1
  {
    hide PartlyMerged, Merge, CombineAt;
    var todo := source.entries.Keys;
    ghost var a, b := target.Tree(), source.Tree();
    ghost var keys, repr := todo, target.Repr;
    NothingMerged(a, b);
    assert keys - todo == {};
    while todo != {}
      invariant todo <= keys == source.entries.Keys == b.Keys
      invariant StillApart(target, source, todo, repr) && source.Tree() == b
      invariant target.Tree() == PartlyMerged(a, b, keys - todo)
      decreases todo
    {
      var key :| key in todo;
      OneMoreMerged(a, b, keys - todo, key);
      assert keys - (todo - {key}) == keys - todo + {key};
      MergeNext(target, source, key, todo, repr);
      todo := todo - {key};
    }
    assert keys - todo == b.Keys;
  }
}
