/**
 The shape checks a HelmApplication spec must pass before it is written: a source that ArgoCD can render,
 no {"item": [...]} wrapper among the Helm values, and no list turned into something else by the update.
 */
module HelmSpec {
  import opened Options
  import opened JsonMerge

  type MapPath = seq<string>

  datatype SpecError =
    | NoChartOrPath
    | ItemWrappedArray(path: MapPath)
    | ListCollapsed(path: MapPath)

  /** The value at a dotted path, descending through maps only. */
  function MapAt(v: Json, path: MapPath): Option<Json>
    decreases path
  {
    if path == [] then Some(v)
    else if v.Obj? && path[0] in v.fields then MapAt(v.fields[path[0]], path[1..])
    else None
  }

  predicate ItemWrapper(m: Fields) {
    |m| == 1 && "item" in m && m["item"].Arr?
  }

  predicate WrappedAt(m: Fields, path: MapPath) {
    MapAt(Obj(m), path).Some? && MapAt(Obj(m), path).value.Obj? && ItemWrapper(MapAt(Obj(m), path).value.fields)
  }

  /** A list in `existing` at `path` that `merged` still has, but no longer as a list. */
  predicate CollapsedAt(existing: Fields, merged: Fields, path: MapPath)
    decreases path
  {
    && path != []
    && path[0] in existing && path[0] in merged
    && if |path| == 1 then
         existing[path[0]].Arr? && !merged[path[0]].Arr?
       else
         && existing[path[0]].Obj? && merged[path[0]].Obj?
         && CollapsedAt(existing[path[0]].fields, merged[path[0]].fields, path[1..])
  }

  ghost predicate NoWrapper(m: Fields) {
    forall path :: !WrappedAt(m, path)
  }

  ghost predicate NoCollapse(existing: Fields, merged: Fields) {
    forall path :: !CollapsedAt(existing, merged, path)
  }

  /** The search stops at some wrapper, whichever the map order meets first, and misses none. */
  method FindItemWrappedArray(m: Fields) returns (found: Option<MapPath>)
    ensures found.Some? ==> WrappedAt(m, found.value)
    ensures found.None? ==> NoWrapper(m)
    decreases Obj(m)
  {
    if |m| == 1 && "item" in m && m["item"].Arr? {
      assert MapAt(Obj(m), []) == Some(Obj(m));
      return Some([]);
    }
    var todo := m.Keys;
    while todo != {}
      invariant todo <= m.Keys
      invariant forall k | k in m && k !in todo && m[k].Obj? :: NoWrapper(m[k].fields)
      decreases todo
    {
      var k :| k in todo;
      todo := todo - {k};
      if m[k].Obj? {
        var inner := FindItemWrappedArray(m[k].fields);
        if inner.Some? {
          assert ([k] + inner.value)[1..] == inner.value;
          return Some([k] + inner.value);
        }
      }
    }
    forall path ensures !WrappedAt(m, path) {
      if WrappedAt(m, path) && path != [] {
        assert MapAt(m[path[0]], path[1..]) == MapAt(Obj(m), path);
        assert WrappedAt(m[path[0]].fields, path[1..]);
      }
    }
    return None;
  }

  method FindListCollapsedToScalar(existing: Fields, merged: Fields) returns (found: Option<MapPath>)
    ensures found.Some? ==> CollapsedAt(existing, merged, found.value)
    ensures found.None? ==> NoCollapse(existing, merged)
    decreases Obj(existing)
  {
    var todo := existing.Keys;
    while todo != {}
      invariant todo <= existing.Keys
      invariant forall path | path != [] && path[0] !in todo :: !CollapsedAt(existing, merged, path)
      decreases todo
    {
      var k :| k in todo;
      todo := todo - {k};
      if k in merged {
        if existing[k].Arr? {
          if !merged[k].Arr? {
            return Some([k]);
          }
        } else if existing[k].Obj? && merged[k].Obj? {
          var inner := FindListCollapsedToScalar(existing[k].fields, merged[k].fields);
          if inner.Some? {
            assert ([k] + inner.value)[1..] == inner.value;
            return Some([k] + inner.value);
          }
        }
      }
    }
    return None;
  }

  // ---------------------------------------------------------------- the validator

  function MapField(m: Fields, name: string): Option<Fields> {
    if name in m && m[name].Obj? then Some(m[name].fields) else None
  }

  function StringField(m: Fields, name: string): string {
    if name in m && m[name].String? then m[name].s else ""
  }

  function NestedValuesObject(spec: Option<Fields>): Option<Fields> {
    if spec.None? then None
    else match MapField(spec.value, "source")
      case None => None
      case Some(source) =>
        match MapField(source, "helm")
        case None => None
        case Some(helm) => MapField(helm, "valuesObject")
  }

  /** Specs without a source map, or without a repoURL in it, are not looked at any further. */
  predicate Checked(spec: Fields) {
    MapField(spec, "source").Some? && StringField(MapField(spec, "source").value, "repoURL") != ""
  }

  ghost predicate Acceptable(existing: Option<Fields>, spec: Fields) {
    Checked(spec) ==>
      && var source := MapField(spec, "source").value;
      && (StringField(source, "chart") != "" || StringField(source, "path") != "")
      && var values := NestedValuesObject(Some(spec));
      && (values.Some? ==>
            && NoWrapper(values.value)
            && (NestedValuesObject(existing).Some? ==> NoCollapse(NestedValuesObject(existing).value, values.value)))
  }

  method ValidateHelmApplicationSpec(existing: Option<Fields>, spec: Fields) returns (err: Option<SpecError>)
    ensures err.None? <==> Acceptable(existing, spec)
    ensures err == Some(NoChartOrPath) ==>
              Checked(spec) && StringField(MapField(spec, "source").value, "chart") == ""
              && StringField(MapField(spec, "source").value, "path") == ""
    ensures err.Some? && err.value.ItemWrappedArray? ==>
              NestedValuesObject(Some(spec)).Some? && WrappedAt(NestedValuesObject(Some(spec)).value, err.value.path)
    ensures err.Some? && err.value.ListCollapsed? ==>
              && NestedValuesObject(Some(spec)).Some? && NestedValuesObject(existing).Some?
              && CollapsedAt(NestedValuesObject(existing).value, NestedValuesObject(Some(spec)).value, err.value.path)
  {
    var source := MapField(spec, "source");
    if source.None? || StringField(source.value, "repoURL") == "" {
      return None;
    }
    if StringField(source.value, "chart") == "" && StringField(source.value, "path") == "" {
      return Some(NoChartOrPath);
    }
    var helm := MapField(source.value, "helm");
    if helm.Some? {
      var values := MapField(helm.value, "valuesObject");
      if values.Some? {
        var wrapped := FindItemWrappedArray(values.value);
        if wrapped.Some? {
          return Some(ItemWrappedArray(wrapped.value));
        }
        var before := NestedValuesObject(existing);
        if before.Some? {
          var collapsed := FindListCollapsedToScalar(before.value, values.value);
          if collapsed.Some? {
            return Some(ListCollapsed(collapsed.value));
          }
        }
      }
    }
    return None;
  }

  // ---------------------------------------------------------------- what an accepted update guarantees

  predicate IsList(v: Option<Json>) {
    v.Some? && v.value.Arr?
  }

  /** The overlay puts a non-map at a proper, non-empty prefix of the path. */
  predicate Uproots(overlay: Json, path: MapPath) {
    exists n | 0 < n < |path| :: MapAt(overlay, path[..n]).Some? && !MapAt(overlay, path[..n]).value.Obj?
  }

  /** What a merge leaves at the head of a path that is a map so far. */
  lemma MergedAtHead(base: Fields, overlay: Fields, path: MapPath)
    requires path != [] && path[0] in base
    ensures MapAt(Obj(base), path) == MapAt(base[path[0]], path[1..])
    ensures MapAt(Obj(Merge(base, overlay)), path)
         == MapAt(if path[0] in overlay then MergeValue(base[path[0]], overlay[path[0]]) else base[path[0]], path[1..])
    ensures MapAt(Obj(overlay), path) == if path[0] in overlay then MapAt(overlay[path[0]], path[1..]) else None
  {
  }

  lemma UprootsAtHead(overlay: Fields, path: MapPath)
    requires path != []
    ensures Uproots(Obj(overlay), path) <==>
              |path| > 1 && path[0] in overlay && (!overlay[path[0]].Obj? || Uproots(overlay[path[0]], path[1..]))
  {
    var rest := path[1..];
    forall n | 0 < n < |path|
      ensures MapAt(Obj(overlay), path[..n])
           == if path[0] in overlay then MapAt(overlay[path[0]], rest[..n - 1]) else None
    {
      assert path[..n][0] == path[0] && path[..n][1..] == rest[..n - 1];
    }
    if |path| > 1 && path[0] in overlay {
      assert MapAt(Obj(overlay), path[..1]) == Some(overlay[path[0]]) by {
        assert rest[..0] == [];
      }
      if n :| 0 < n < |rest| && MapAt(overlay[path[0]], rest[..n]).Some?
              && !MapAt(overlay[path[0]], rest[..n]).value.Obj? {
        assert !MapAt(Obj(overlay), path[..n + 1]).value.Obj?;
      }
    }
  }

  /**
   A list under a merge: gone if the overlay uproots it, else whatever the overlay names in its place, else as it
   was. So it is a list afterwards exactly when the overlay neither uproots it nor names a non-list for it.
   */
  lemma {:induction false} ListSurvivesExactly(base: Fields, overlay: Fields, path: MapPath)
    requires path != [] && IsList(MapAt(Obj(base), path))
    ensures IsList(MapAt(Obj(Merge(base, overlay)), path))
            <==> !Uproots(Obj(overlay), path)
                 && (MapAt(Obj(overlay), path).Some? ==> IsList(MapAt(Obj(overlay), path)))
    ensures Uproots(Obj(overlay), path) ==> MapAt(Obj(Merge(base, overlay)), path).None?
    ensures !Uproots(Obj(overlay), path) && MapAt(Obj(overlay), path).Some? && !IsList(MapAt(Obj(overlay), path))
            ==> CollapsedAt(base, Merge(base, overlay), path)
    decreases path
  {
    hide Uproots;
    var k := path[0];
    MergedAtHead(base, overlay, path);
    UprootsAtHead(overlay, path);
    if k in overlay && |path| > 1 && overlay[k].Obj? {
      ListSurvivesExactly(base[k].fields, overlay[k].fields, path[1..]);
    }
  }

  const VALUES_PATH: MapPath := ["source", "helm", "valuesObject"]

  lemma Descend(v: Json, k: string, rest: MapPath)
    ensures MapAt(v, [k] + rest) == if v.Obj? && k in v.fields then MapAt(v.fields[k], rest) else None
  {
    assert ([k] + rest)[1..] == rest;
  }

  lemma CollapseDescends(m: Fields, n: Fields, k: string, rest: MapPath)
    requires rest != []
    ensures CollapsedAt(m, n, [k] + rest)
            <==> MapField(m, k).Some? && MapField(n, k).Some?
                 && CollapsedAt(MapField(m, k).value, MapField(n, k).value, rest)
  {
    assert ([k] + rest)[1..] == rest;
  }

  lemma ValuesPath(path: MapPath)
    ensures VALUES_PATH + path == ["source"] + (["helm"] + (["valuesObject"] + path))
  {
  }

  /** The values of a spec, if it has any, are what its maps lead to. */
  lemma ValuesAtPath(spec: Fields, path: MapPath)
    requires path != []
    ensures MapAt(Obj(spec), VALUES_PATH + path)
         == match NestedValuesObject(Some(spec)) case Some(values) => MapAt(Obj(values), path) case None => None
  {
    hide MapAt;
    ValuesPath(path);
    Descend(Obj(spec), "source", ["helm"] + (["valuesObject"] + path));
    OnlyMapsLead(["helm"] + (["valuesObject"] + path));
    OnlyMapsLead(["valuesObject"] + path);
    OnlyMapsLead(path);
    if MapField(spec, "source").Some? {
      var source := spec["source"];
      Descend(source, "helm", ["valuesObject"] + path);
      if MapField(source.fields, "helm").Some? {
        Descend(source.fields["helm"], "valuesObject", path);
      }
    }
  }

  lemma OnlyMapsLead(path: MapPath)
    requires path != []
    ensures forall v: Json | !v.Obj? :: MapAt(v, path).None?
  {
  }

  // ---------------------------------------------------------------- what the validator accepts

  /** The spec has a non-empty string at the path. */
  predicate HasText(spec: Fields, path: MapPath) {
    MapAt(Obj(spec), path).Some? && MapAt(Obj(spec), path).value.String? && MapAt(Obj(spec), path).value.s != ""
  }

  /** A map whose one key is "item", with a list. */
  predicate IsWrapper(v: Option<Json>) {
    v.Some? && v.value.Obj? && v.value.fields.Keys == {"item"} && v.value.fields["item"].Arr?
  }

  predicate IsOther(v: Option<Json>) {
    v.Some? && !v.value.Arr?
  }

  ghost predicate WrapperFree(spec: Fields) {
    forall path :: !IsWrapper(MapAt(Obj(spec), ["source", "helm", "valuesObject"] + path))
  }

  /** Each list of the old Helm values that the new ones still have is still a list. */
  ghost predicate KeepsLists(existing: Fields, spec: Fields) {
    forall path | path != [] && IsList(MapAt(Obj(existing), ["source", "helm", "valuesObject"] + path)) ::
      !IsOther(MapAt(Obj(spec), ["source", "helm", "valuesObject"] + path))
  }

  /**
   A spec is accepted exactly if it names no repository, or names a chart or a path besides, has no wrapper among its
   Helm values and turns no list of the stored ones into something else.
   */
  lemma AcceptableExactly(existing: Option<Fields>, spec: Fields)
    ensures Acceptable(existing, spec) <==>
              (HasText(spec, ["source", "repoURL"]) ==>
                 && (HasText(spec, ["source", "chart"]) || HasText(spec, ["source", "path"]))
                 && WrapperFree(spec)
                 && (existing.Some? ==> KeepsLists(existing.value, spec)))
  {
    hide NoWrapper, NoCollapse, WrapperFree, KeepsLists, HasText, NestedValuesObject;
    SourceText(spec, "repoURL");
    SourceText(spec, "chart");
    SourceText(spec, "path");
    WrapperFreeExactly(spec);
    match existing
    case Some(before) => KeepsListsExactly(before, spec);
    case None => NoValuesOfNothing();
  }

  lemma NoValuesOfNothing()
    ensures NestedValuesObject(None).None?
  {
  }

  lemma SourceText(spec: Fields, name: string)
    ensures HasText(spec, ["source", name])
            <==> MapField(spec, "source").Some? && StringField(MapField(spec, "source").value, name) != ""
  {
    hide MapAt;
    assert ["source"] + ([name] + []) == ["source", name];
    Descend(Obj(spec), "source", [name] + []);
    if MapField(spec, "source").Some? {
      Descend(spec["source"], name, []);
    }
    OnlyMapsLead([name] + []);
    EmptyPath();
  }

  lemma ItemWrapperExactly(m: Fields)
    ensures ItemWrapper(m) <==> m.Keys == {"item"} && m["item"].Arr?
  {
    assert |m.Keys| == |m|;
    if ItemWrapper(m) {
      assert |m.Keys - {"item"}| == 0;
      assert m.Keys - {"item"} == {};
    }
  }

  /** The values as a whole are a map only if the spec has values; below them every path agrees. */
  lemma ValuesOrBelow(spec: Fields, path: MapPath)
    ensures var full := MapAt(Obj(spec), VALUES_PATH + path);
            match NestedValuesObject(Some(spec))
            case Some(values) => full == MapAt(Obj(values), path)
            case None => full.None? || (path == [] && !full.value.Obj?)
  {
    if path != [] {
      ValuesAtPath(spec, path);
    } else {
      hide MapAt;
      ValuesPath([]);
      assert ["valuesObject"] + [] == ["valuesObject"] && ["helm"] + ["valuesObject"] == ["helm", "valuesObject"];
      Descend(Obj(spec), "source", ["helm"] + (["valuesObject"] + []));
      OnlyMapsLead(["helm"] + (["valuesObject"] + []));
      OnlyMapsLead(["valuesObject"] + []);
      EmptyPath();
      if MapField(spec, "source").Some? {
        var source := spec["source"];
        Descend(source, "helm", ["valuesObject"] + []);
        if MapField(source.fields, "helm").Some? {
          Descend(source.fields["helm"], "valuesObject", []);
        }
      }
    }
  }

  lemma EmptyPath()
    ensures forall v: Json :: MapAt(v, []) == Some(v)
  {
  }

  lemma WrapperFreeExactly(spec: Fields)
    ensures WrapperFree(spec) <==>
              (NestedValuesObject(Some(spec)).Some? ==> NoWrapper(NestedValuesObject(Some(spec)).value))
  {
    hide MapAt, NestedValuesObject, ItemWrapper;
    var values := NestedValuesObject(Some(spec));
    forall path
      ensures IsWrapper(MapAt(Obj(spec), VALUES_PATH + path)) <==> values.Some? && WrappedAt(values.value, path)
    {
      ValuesOrBelow(spec, path);
      forall m: Fields ensures ItemWrapper(m) <==> m.Keys == {"item"} && m["item"].Arr? {
        ItemWrapperExactly(m);
      }
    }
  }

  lemma {:induction false} CollapsedExactly(existing: Fields, merged: Fields, path: MapPath)
    ensures CollapsedAt(existing, merged, path)
            <==> path != [] && IsList(MapAt(Obj(existing), path)) && IsOther(MapAt(Obj(merged), path))
    decreases path
  {
    if path != [] && path[0] in existing && path[0] in merged {
      var a, b := existing[path[0]], merged[path[0]];
      assert MapAt(Obj(existing), path) == MapAt(a, path[1..]) && MapAt(Obj(merged), path) == MapAt(b, path[1..]);
      if |path| == 1 {
        EmptyPath();
        assert path[1..] == [];
      } else {
        OnlyMapsLead(path[1..]);
        if a.Obj? && b.Obj? {
          CollapsedExactly(a.fields, b.fields, path[1..]);
        }
      }
    }
  }

  lemma KeepsListsExactly(existing: Fields, spec: Fields)
    ensures KeepsLists(existing, spec) <==>
              (NestedValuesObject(Some(existing)).Some? && NestedValuesObject(Some(spec)).Some? ==>
                 NoCollapse(NestedValuesObject(Some(existing)).value, NestedValuesObject(Some(spec)).value))
  {
    hide MapAt, NestedValuesObject, CollapsedAt, IsList, IsOther;
    var old', new' := NestedValuesObject(Some(existing)), NestedValuesObject(Some(spec));
    forall path
      ensures path != [] && IsList(MapAt(Obj(existing), VALUES_PATH + path))
              && IsOther(MapAt(Obj(spec), VALUES_PATH + path))
              <==> old'.Some? && new'.Some? && CollapsedAt(old'.value, new'.value, path)
    {
      CollapsedAtValues(existing, spec, path);
    }
  }

  lemma CollapsedAtValues(existing: Fields, spec: Fields, path: MapPath)
    ensures var old', new' := NestedValuesObject(Some(existing)), NestedValuesObject(Some(spec));
            path != [] && IsList(MapAt(Obj(existing), VALUES_PATH + path))
            && IsOther(MapAt(Obj(spec), VALUES_PATH + path))
            <==> old'.Some? && new'.Some? && CollapsedAt(old'.value, new'.value, path)
  {
    hide MapAt, NestedValuesObject, CollapsedAt;
    var old', new' := NestedValuesObject(Some(existing)), NestedValuesObject(Some(spec));
    ValuesOrBelow(existing, path);
    ValuesOrBelow(spec, path);
    if old'.Some? && new'.Some? {
      CollapsedExactly(old'.value, new'.value, path);
    }
  }

  lemma CollapsedBelowValues(existing: Fields, merged: Fields, path: MapPath)
    requires path != [] && CollapsedAt(existing, merged, VALUES_PATH + path)
    ensures NestedValuesObject(Some(existing)).Some? && NestedValuesObject(Some(merged)).Some?
    ensures CollapsedAt(NestedValuesObject(Some(existing)).value, NestedValuesObject(Some(merged)).value, path)
  {
    hide CollapsedAt;
    ValuesPath(path);
    CollapseDescends(existing, merged, "source", ["helm"] + (["valuesObject"] + path));
    var s, t := MapField(existing, "source").value, MapField(merged, "source").value;
    CollapseDescends(s, t, "helm", ["valuesObject"] + path);
    CollapseDescends(MapField(s, "helm").value, MapField(t, "helm").value, "valuesObject", path);
  }

  /**
   After an accepted update no values map is an {"item": [...]} wrapper, and a list of the stored values is still
   a list exactly when the caller's overlay put no non-map where a map enclosing that list was.
   */
  lemma AcceptedUpdateKeepsLists(existing: Fields, overlay: Fields, path: MapPath)
    requires Checked(Merge(existing, overlay)) && Acceptable(Some(existing), Merge(existing, overlay))
    ensures var after := NestedValuesObject(Some(Merge(existing, overlay)));
            after.Some? ==> !WrappedAt(after.value, path)
    ensures path != [] && IsList(MapAt(Obj(existing), VALUES_PATH + path)) ==>
              (IsList(MapAt(Obj(Merge(existing, overlay)), VALUES_PATH + path))
               <==> !Uproots(Obj(overlay), VALUES_PATH + path))
  {
    hide Uproots, MapAt, IsList, Merge;
    var merged, full := Merge(existing, overlay), VALUES_PATH + path;
    if path != [] && IsList(MapAt(Obj(existing), full)) {
      ListSurvivesExactly(existing, overlay, full);
      if CollapsedAt(existing, merged, full) {
        CollapsedBelowValues(existing, merged, path);
      }
    }
  }

  /** An overlay that replaces one top-level map of the values by a scalar. */
  function Uprooting(k: string, v: Json): Fields {
    map["source" := Obj(map["helm" := Obj(map["valuesObject" := Obj(map[k := v])])])]
  }

  lemma UprootingMerges(existing: Fields, k: string, v: Json)
    requires Checked(existing) && NestedValuesObject(Some(existing)).Some? && v.Scalar()
    ensures var merged := Merge(existing, Uprooting(k, v));
            && Checked(merged)
            && (forall f | f in ["chart", "path"] ::
                  StringField(MapField(merged, "source").value, f)
                  == StringField(MapField(existing, "source").value, f))
            && NestedValuesObject(Some(merged)) == Some(NestedValuesObject(Some(existing)).value[k := v])
  {
    var source := existing["source"].fields;
    var helm := source["helm"].fields;
    var values := helm["valuesObject"].fields;
    var overlay := Uprooting(k, v);
    var sourceO := overlay["source"].fields;
    var helmO := sourceO["helm"].fields;
    assert Merge(existing, overlay)["source"] == Obj(Merge(source, sourceO));
    assert Merge(source, sourceO)["helm"] == Obj(Merge(helm, helmO));
    assert Merge(helm, helmO)["valuesObject"] == Obj(Merge(values, map[k := v]));
    assert k in values ==> MergeValue(values[k], v) == v;
    assert Merge(values, map[k := v]) == values[k := v];
  }

  lemma ReplacedByScalar(values: Fields, k: string, v: Json)
    requires v.Scalar() && k in values && values[k].Obj? && NoWrapper(values)
    ensures NoWrapper(values[k := v]) && NoCollapse(values, values[k := v])
  {
    var after := values[k := v];
    assert after.Keys == values.Keys && |after| == |after.Keys| == |values.Keys| == |values|;
    forall path ensures !WrappedAt(after, path) {
      assert !WrappedAt(values, path);
      if path == [] {
        assert MapAt(Obj(values), []) == Some(Obj(values)) && MapAt(Obj(after), []) == Some(Obj(after));
      } else if path[0] == k {
        assert MapAt(Obj(after), path) == MapAt(v, path[1..]);
      } else {
        assert MapAt(Obj(after), path) == MapAt(Obj(values), path);
      }
    }
    forall path ensures !CollapsedAt(values, after, path) {
      if path != [] && path[0] != k && path[0] in values {
        NotCollapsedByItself(values, after, path);
      }
    }
  }

  lemma HeadHolds(values: Fields, path: MapPath, v: Json)
    requires |path| > 1 && IsList(MapAt(Obj(values), path)) && v.Scalar()
    ensures path[0] in values && values[path[0]].Obj?
    ensures MapAt(Obj(values[path[0] := v]), path).None?
  {
    assert MapAt(Obj(values), path) == MapAt(values[path[0]], path[1..]);
    assert MapAt(Obj(values[path[0] := v]), path) == MapAt(v, path[1..]);
  }

  lemma {:induction false} NotCollapsedByItself(m: Fields, n: Fields, path: MapPath)
    requires path != [] && path[0] in m && path[0] in n && m[path[0]] == n[path[0]]
    ensures !CollapsedAt(m, n, path)
    decreases path
  {
    if |path| > 1 && m[path[0]].Obj? && path[1] in m[path[0]].fields {
      NotCollapsedByItself(m[path[0]].fields, n[path[0]].fields, path[1..]);
    }
  }

  /**
   The exception is real for every stored spec the validator accepts as it stands: replacing a map of the values
   that holds a list, at whatever depth, by any scalar is accepted, and the list is gone.
   */
  lemma UprootedListGoesUnreported(existing: Fields, path: MapPath, v: Json)
    requires Checked(existing) && Acceptable(Some(existing), existing) && v.Scalar()
    requires |path| > 1 && IsList(MapAt(Obj(existing), VALUES_PATH + path))
    ensures var overlay := Uprooting(path[0], v);
            && Checked(Merge(existing, overlay)) && Acceptable(Some(existing), Merge(existing, overlay))
            && MapAt(Obj(Merge(existing, overlay)), VALUES_PATH + path).None?
  {
    hide MapAt, Merge, Uprooting, NoWrapper, NoCollapse;
    ValuesAtPath(existing, path);
    UprootingMerges(existing, path[0], v);
    var values := NestedValuesObject(Some(existing)).value;
    HeadHolds(values, path, v);
    ReplacedByScalar(values, path[0], v);
    ValuesAtPath(Merge(existing, Uprooting(path[0], v)), path);
  }

  /** Such specs exist: a chart whose values hold one nested list. */
  lemma ChartWithNestedList() returns (existing: Fields)
    ensures Checked(existing) && Acceptable(Some(existing), existing)
    ensures IsList(MapAt(Obj(existing), VALUES_PATH + ["a", "list"]))
  {
    var inner: Fields := map["list" := Arr([])];
    var values: Fields := map["a" := Obj(inner)];
    existing := map["source" := Obj(map["repoURL" := String("r"), "chart" := String("c"),
                                        "helm" := Obj(map["valuesObject" := Obj(values)])])];
    forall path ensures !WrappedAt(values, path) {
      if path != [] && path[0] == "a" {
        assert MapAt(Obj(values), path) == MapAt(Obj(inner), path[1..]);
        if |path| > 1 && path[1] == "list" {
          assert MapAt(Obj(inner), path[1..]) == MapAt(Arr([]), path[2..]) by {
            assert path[1..][1..] == path[2..];
          }
        }
      }
    }
    forall path ensures !CollapsedAt(values, values, path) {
      if path != [] && path[0] in values {
        NotCollapsedByItself(values, values, path);
      }
    }
    ValuesAtPath(existing, ["a", "list"]);
    assert ["a", "list"][1..] == ["list"] && ["list"][1..] == [];
    assert MapAt(Obj(inner), ["list"]) == MapAt(Arr([]), []);
    assert MapAt(Obj(values), ["a", "list"]) == MapAt(Obj(inner), ["list"]);
  }
}
