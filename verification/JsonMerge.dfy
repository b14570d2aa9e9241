/**
 The recursive merge behind helm_application_apply: a caller-supplied spec is merged over the stored
 one map by map, and element by element through arrays of equal length.
 */
module JsonMerge {
  import opened Options

  /** A decoded JSON value. */
  datatype Json =
    | Null
    | Bool(b: bool)
    | Number(n: real)
    | String(s: string)
    | Arr(items: seq<Json>)
    | Obj(fields: map<string, Json>)
  {
    predicate Scalar() {
      !Arr? && !Obj?
    }
  }

  type Fields = map<string, Json>

  /** The value stored under a key when the overlay names it and the base has it. */
  function MergeValue(base: Json, overlay: Json): Json
    decreases overlay
  {
    if base.Obj? && overlay.Obj? then
      Obj(map k | k in base.fields.Keys + overlay.fields.Keys ::
            if k !in overlay.fields then base.fields[k]
            else if k !in base.fields then overlay.fields[k]
            else MergeValue(base.fields[k], overlay.fields[k]))
    else if base.Arr? && overlay.Arr? && |base.items| == |overlay.items| then
      Arr(seq(|overlay.items|, i requires 0 <= i < |overlay.items| =>
                if base.items[i].Obj? && overlay.items[i].Obj? then MergeValue(base.items[i], overlay.items[i])
                else overlay.items[i]))
    else
      overlay
  }

  function Merge(base: Fields, overlay: Fields): Fields {
    MergeValue(Obj(base), Obj(overlay)).fields
  }

  /** The source's loop over the overlay's keys, in whatever order the map yields them. */
  method DeepMergeMap(base: Fields, overlay: Fields) returns (merged: Fields)
    ensures merged == Merge(base, overlay)
    decreases Obj(overlay), 1
  {
    merged := base;
    ghost var target := Merge(base, overlay);
    var todo := overlay.Keys;
    while todo != {}
      invariant todo <= overlay.Keys
      invariant merged.Keys == base.Keys + (overlay.Keys - todo)
      invariant forall k | k in merged && (k !in overlay || k in todo) :: k in base && merged[k] == base[k]
      invariant forall k | k in overlay && k !in todo :: merged[k] == target[k]
      decreases todo
    {
      var k :| k in todo;
      todo := todo - {k};
      var overlayVal := overlay[k];
      assert k in base ==> merged[k] == base[k] && target[k] == MergeValue(base[k], overlayVal);
      if k !in merged {
        merged := merged[k := overlayVal];
      } else if merged[k].Obj? && overlayVal.Obj? {
        var inner := DeepMergeMap(merged[k].fields, overlayVal.fields);
        merged := merged[k := Obj(inner)];
      } else if merged[k].Arr? && overlayVal.Arr? && |merged[k].items| == |overlayVal.items| {
        var inner := DeepMergeSlice(merged[k].items, overlayVal.items);
        merged := merged[k := Arr(inner)];
      } else {
        merged := merged[k := overlayVal];
      }
    }
  }

  method DeepMergeSlice(base: seq<Json>, overlay: seq<Json>) returns (result: seq<Json>)
    requires |base| == |overlay|
    ensures Arr(result) == MergeValue(Arr(base), Arr(overlay))
    decreases Arr(overlay), 0
  {
    var merged := new Json[|overlay|];
    for i := 0 to |overlay|
      invariant forall j | 0 <= j < i :: merged[j] == MergeValue(Arr(base), Arr(overlay)).items[j]
    {
      if base[i].Obj? && overlay[i].Obj? {
        var inner := DeepMergeMap(base[i].fields, overlay[i].fields);
        merged[i] := Obj(inner);
      } else {
        merged[i] := overlay[i];
      }
    }
    result := merged[..];
  }

  // ---------------------------------------------------------------- algebra of the merge

  /** Merging a value over itself changes nothing. */
  lemma {:induction false} SelfMerge(v: Json)
    ensures MergeValue(v, v) == v
    decreases v
  {
    match v
    case Obj(f) =>
      forall k | k in f ensures MergeValue(f[k], f[k]) == f[k] {
        SelfMerge(f[k]);
      }
      assert MergeValue(v, v).fields == f;
    case Arr(a) =>
      forall i | 0 <= i < |a| ensures MergeValue(a[i], a[i]) == a[i] {
        SelfMerge(a[i]);
      }
      assert MergeValue(v, v).items == a;
    case _ =>
  }

  /** Sending the same overlay twice is the same as sending it once. */
  lemma {:induction false} MergeIdempotent(base: Json, overlay: Json)
    ensures MergeValue(MergeValue(base, overlay), overlay) == MergeValue(base, overlay)
    decreases overlay
  {
    var once := MergeValue(base, overlay);
    if base.Obj? && overlay.Obj? {
      forall k | k in once.fields
        ensures k in overlay.fields ==> MergeValue(once.fields[k], overlay.fields[k]) == once.fields[k]
      {
        if k in overlay.fields {
          SelfMerge(overlay.fields[k]);
          if k in base.fields {
            MergeIdempotent(base.fields[k], overlay.fields[k]);
          }
        }
      }
      assert MergeValue(once, overlay).fields == once.fields;
    } else if base.Arr? && overlay.Arr? && |base.items| == |overlay.items| {
      forall i | 0 <= i < |once.items| && overlay.items[i].Obj?
        ensures once.items[i].Obj? && MergeValue(once.items[i], overlay.items[i]) == once.items[i]
      {
        SelfMerge(overlay.items[i]);
        if base.items[i].Obj? {
          MergeIdempotent(base.items[i], overlay.items[i]);
        }
      }
      assert MergeValue(once, overlay).items == once.items;
    } else {
      SelfMerge(overlay);
    }
  }

  /** Two overlays that meet only in maps (or maps inside equally long arrays), never in a value. */
  predicate Disjoint(a: Json, b: Json)
    decreases a
  {
    if a.Obj? && b.Obj? then
      forall k | k in a.fields && k in b.fields :: Disjoint(a.fields[k], b.fields[k])
    else
      && a.Arr? && b.Arr? && |a.items| == |b.items|
      && forall i | 0 <= i < |a.items| :: a.items[i].Obj? && b.items[i].Obj? && Disjoint(a.items[i], b.items[i])
  }

  lemma {:induction false} DisjointUnion(a: Json, b: Json)
    requires Disjoint(a, b)
    ensures MergeValue(a, b) == MergeValue(b, a)
    decreases a
  {
    if a.Obj? {
      forall k | k in a.fields && k in b.fields
        ensures MergeValue(a.fields[k], b.fields[k]) == MergeValue(b.fields[k], a.fields[k])
      {
        DisjointUnion(a.fields[k], b.fields[k]);
      }
      assert MergeValue(a, b).fields == MergeValue(b, a).fields;
    } else {
      forall i | 0 <= i < |a.items|
        ensures MergeValue(a.items[i], b.items[i]) == MergeValue(b.items[i], a.items[i])
      {
        DisjointUnion(a.items[i], b.items[i]);
      }
      assert MergeValue(a, b).items == MergeValue(b, a).items;
    }
  }

  /** Disjoint updates commute over any base: neither caller's write can undo the other's. */
  lemma {:induction false} DisjointOverlaysCommute(base: Json, a: Json, b: Json)
    requires Disjoint(a, b)
    ensures MergeValue(MergeValue(base, a), b) == MergeValue(MergeValue(base, b), a)
    decreases a
  {
    var ab, ba := MergeValue(MergeValue(base, a), b), MergeValue(MergeValue(base, b), a);
    if base.Obj? && a.Obj? {
      forall k | k in ab.fields ensures ab.fields[k] == ba.fields[k] {
        if k in a.fields && k in b.fields {
          if k in base.fields {
            DisjointOverlaysCommute(base.fields[k], a.fields[k], b.fields[k]);
          } else {
            DisjointUnion(a.fields[k], b.fields[k]);
          }
        }
      }
      assert ab.fields == ba.fields;
    } else if base.Arr? && a.Arr? && |base.items| == |a.items| {
      forall i | 0 <= i < |ab.items| ensures ab.items[i] == ba.items[i] {
        if base.items[i].Obj? {
          DisjointOverlaysCommute(base.items[i], a.items[i], b.items[i]);
        } else {
          DisjointUnion(a.items[i], b.items[i]);
        }
      }
      assert ab.items == ba.items;
    } else {
      DisjointUnion(a, b);
    }
  }

  // ---------------------------------------------------------------- what a path of the result holds

  datatype Step = Key(name: string) | Index(i: nat)

  function At(v: Json, path: seq<Step>): Option<Json>
    decreases path
  {
    if path == [] then Some(v)
    else match path[0]
      case Key(k) => if v.Obj? && k in v.fields then At(v.fields[k], path[1..]) else None
      case Index(i) => if v.Arr? && i < |v.items| then At(v.items[i], path[1..]) else None
  }

  /** The overlay reaches this path only through maps, or map elements of equally long arrays, and stops short of it. */
  predicate Unnamed(base: Json, overlay: Json, path: seq<Step>)
    decreases path
  {
    && path != []
    && match path[0]
       case Key(k) =>
         && base.Obj? && overlay.Obj?
         && (k in overlay.fields ==> k in base.fields && Unnamed(base.fields[k], overlay.fields[k], path[1..]))
       case Index(i) =>
         && base.Arr? && overlay.Arr? && |base.items| == |overlay.items|
         && (i < |base.items| ==>
               && base.items[i].Obj? && overlay.items[i].Obj?
               && Unnamed(base.items[i], overlay.items[i], path[1..]))
  }

  /** A partial update leaves every path it does not name exactly as it was, absent paths included. */
  lemma {:induction false} UnnamedPathsKept(base: Json, overlay: Json, path: seq<Step>)
    requires Unnamed(base, overlay, path)
    ensures At(MergeValue(base, overlay), path) == At(base, path)
    decreases path
  {
    match path[0]
    case Key(k) =>
      if k in overlay.fields {
        UnnamedPathsKept(base.fields[k], overlay.fields[k], path[1..]);
      }
    case Index(i) =>
      if i < |base.items| {
        UnnamedPathsKept(base.items[i], overlay.items[i], path[1..]);
      }
  }

  /** Two maps, or two equally long lists: only these are merged into each other. */
  predicate Meet(base: Json, overlay: Json) {
    (base.Obj? && overlay.Obj?) || (base.Arr? && overlay.Arr? && |base.items| == |overlay.items|)
  }

  /** Both values have the path, and the merge gets there: through maps, and through list elements that are maps. */
  predicate Joint(base: Json, overlay: Json, path: seq<Step>)
    decreases path
  {
    path == [] ||
    match path[0]
    case Key(k) =>
      && base.Obj? && overlay.Obj? && k in base.fields && k in overlay.fields
      && Joint(base.fields[k], overlay.fields[k], path[1..])
    case Index(i) =>
      && Meet(base, overlay) && base.Arr? && i < |base.items| && base.items[i].Obj? && overlay.items[i].Obj?
      && Joint(base.items[i], overlay.items[i], path[1..])
  }

  /**
   What the result holds at every path. Where the overlay has a value, it is that very value, unless the merge gets
   there and two maps or two equally long lists meet: then it is a map with the keys of both, or a list of that length.
   Where the overlay has none, it is the base's value if the overlay stops short of it, and none otherwise.
   */
  lemma {:induction false} ResultExactly(base: Json, overlay: Json, path: seq<Step>)
    ensures Joint(base, overlay, path) ==> At(base, path).Some? && At(overlay, path).Some?
    ensures At(overlay, path).Some?
            && !(Joint(base, overlay, path) && Meet(At(base, path).value, At(overlay, path).value))
            ==> At(MergeValue(base, overlay), path) == At(overlay, path)
    ensures Joint(base, overlay, path) && At(base, path).value.Obj? && At(overlay, path).value.Obj? ==>
              var r := At(MergeValue(base, overlay), path);
              && r.Some? && r.value.Obj?
              && r.value.fields.Keys == At(base, path).value.fields.Keys + At(overlay, path).value.fields.Keys
    ensures At(overlay, path).Some? && At(overlay, path).value.Arr? ==>
              var r := At(MergeValue(base, overlay), path);
              r.Some? && r.value.Arr? && |r.value.items| == |At(overlay, path).value.items|
    ensures At(overlay, path).None? ==>
              At(MergeValue(base, overlay), path) == if Unnamed(base, overlay, path) then At(base, path) else None
    decreases path
  {
    if path != [] {
      match path[0]
      case Key(k) =>
        if base.Obj? && overlay.Obj? && k in base.fields && k in overlay.fields {
          ResultExactly(base.fields[k], overlay.fields[k], path[1..]);
        }
      case Index(i) =>
        if Meet(base, overlay) && base.Arr? && i < |base.items| && base.items[i].Obj? && overlay.items[i].Obj? {
          ResultExactly(base.items[i], overlay.items[i], path[1..]);
        }
    }
  }

  /** Every scalar the overlay names, at any depth, is in the result. */
  lemma {:induction false} NamedScalarsLand(base: Json, overlay: Json, path: seq<Step>)
    requires At(overlay, path).Some? && At(overlay, path).value.Scalar()
    ensures At(MergeValue(base, overlay), path) == At(overlay, path)
    decreases path
  {
    if path != [] {
      match path[0]
      case Key(k) =>
        if base.Obj? && k in base.fields {
          NamedScalarsLand(base.fields[k], overlay.fields[k], path[1..]);
        }
      case Index(i) =>
        if base.Arr? && |base.items| == |overlay.items| && base.items[i].Obj? && overlay.items[i].Obj? {
          NamedScalarsLand(base.items[i], overlay.items[i], path[1..]);
        }
    }
  }

  /** Nothing is invented: a scalar of the result is the overlay's or, where the overlay has none, the base's. */
  lemma {:induction false} ScalarsHaveAnOrigin(base: Json, overlay: Json, path: seq<Step>)
    requires At(MergeValue(base, overlay), path).Some? && At(MergeValue(base, overlay), path).value.Scalar()
    ensures At(MergeValue(base, overlay), path) == At(overlay, path)
         || (At(overlay, path).None? && At(MergeValue(base, overlay), path) == At(base, path))
    decreases path
  {
    if path != [] {
      match path[0]
      case Key(k) =>
        if base.Obj? && overlay.Obj? && k in base.fields && k in overlay.fields {
          ScalarsHaveAnOrigin(base.fields[k], overlay.fields[k], path[1..]);
        }
      case Index(i) =>
        if base.Arr? && overlay.Arr? && |base.items| == |overlay.items| && base.items[i].Obj? && overlay.items[i].Obj? {
          ScalarsHaveAnOrigin(base.items[i], overlay.items[i], path[1..]);
        }
    }
  }
}
