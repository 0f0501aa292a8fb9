/** JSON values as Python sees them after `json.loads`. */
module Json {
  import opened Text

  datatype Json =
    | Null
    | Bool(b: bool)
    | Num(r: real)
    | Str(s: string)
    | List(items: seq<Json>)
    | Obj(fields: map<string, Json>)

  type Object = map<string, Json>

  /** `mapping.get(key)`: a missing key and an explicit null look the same. */
  function Get(o: Object, key: string): Json {
    if key in o then o[key] else Null
  }

  function GetOr(o: Object, key: string, default: Json): Json {
    if key in o then o[key] else default
  }

  /** The number that Python compares: `True` is 1 and `False` is 0. */
  function NumberOf(j: Json): Option<real> {
    match j
    case Num(r) => Some(r)
    case Bool(b) => Some(if b then 1.0 else 0.0)
    case _ => None
  }

  /** Python's `==`. */
  predicate Same(a: Json, b: Json)
    decreases a
  {
    if NumberOf(a).Some? || NumberOf(b).Some? then NumberOf(a) == NumberOf(b)
    else match a
      case List(xs) => b.List? && |xs| == |b.items| && forall i :: 0 <= i < |xs| ==> Same(xs[i], b.items[i])
      case Obj(m) => b.Obj? && m.Keys == b.fields.Keys && forall k :: k in m ==> Same(m[k], b.fields[k])
      case _ => a == b
  }

  /** Values are equal as Python compares them exactly if they are equal once `True` and
      `False`, at any depth, are written as 1 and 0. */
  lemma {:induction false} SameIsEqual(a: Json, b: Json)
    ensures Same(a, b) <==> Plainly(a) == Plainly(b)
    decreases a
  {
    if a.List? && b.List? && |a.items| == |b.items| {
      var xs, ys := Plainly(a).items, Plainly(b).items;
      forall i | 0 <= i < |a.items| ensures Same(a.items[i], b.items[i]) <==> xs[i] == ys[i] {
        SameIsEqual(a.items[i], b.items[i]);
      }
      assert xs == ys <==> forall i :: 0 <= i < |xs| ==> xs[i] == ys[i];
    } else if a.Obj? && b.Obj? && a.fields.Keys == b.fields.Keys {
      var xs, ys := Plainly(a).fields, Plainly(b).fields;
      forall k | k in a.fields ensures Same(a.fields[k], b.fields[k]) <==> xs[k] == ys[k] {
        SameIsEqual(a.fields[k], b.fields[k]);
      }
      assert xs == ys <==> forall k :: k in xs ==> xs[k] == ys[k];
    } else if a.List? && b.List? {
      assert |Plainly(a).items| != |Plainly(b).items|;
    } else if a.Obj? && b.Obj? {
      assert Plainly(a).fields.Keys == a.fields.Keys && Plainly(b).fields.Keys == b.fields.Keys;
    }
  }

  function Plainly(j: Json): Json {
    match j
    case Bool(b) => Num(if b then 1.0 else 0.0)
    case List(xs) => List(seq(|xs|, i requires 0 <= i < |xs| => Plainly(xs[i])))
    case Obj(m) => Obj(map k | k in m :: Plainly(m[k]))
    case _ => j
  }

  predicate Truthy(j: Json) {
    match j
    case Null => false
    case Bool(b) => b
    case Num(r) => r != 0.0
    case Str(s) => s != ""
    case List(xs) => xs != []
    case Obj(m) => m != map[]
  }

  function Texts(items: seq<Json>): set<string> {
    set j | j in items && j.Str? :: j.s
  }

  function Strings(values: seq<string>): Json {
    List(seq(|values|, i requires 0 <= i < |values| => Str(values[i])))
  }

  lemma StringsAreTexts(values: seq<string>)
    ensures Strings(values).List?
    ensures Texts(Strings(values).items) == set v | v in values
    ensures forall j :: j in Strings(values).items ==> j.Str?
  {
    var items := Strings(values).items;
    forall v | v in values ensures v in Texts(items) {
      var i :| 0 <= i < |values| && values[i] == v;
      assert items[i] == Str(v);
    }
  }
}
