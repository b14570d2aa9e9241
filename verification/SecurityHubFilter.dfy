/** The finding filter the Security Hub tasks share: how it is built, what it selects, when two are the same query. */
module SecurityHubFilter {
  import opened Options
  import opened Sequences
  import opened Text

  datatype Filter = Filter(
    severityLabels: seq<string>,
    types: seq<string>,
    productName: string,
    workflowStatus: seq<string>,
    recordState: string,
    resourceType: string,
    resourceIds: seq<string>,
    exploitAvailable: string,
    fixAvailable: string,
    titlePrefix: string,
    awsAccountId: string,
    updatedAfter: string,
    updatedBefore: string,
    region: string)

  datatype Comparison = EQUALS | PREFIX

  datatype StringFilter = StringFilter(value: string, comparison: Comparison)

  datatype DateFilter = DateFilter(start: Option<string>, end: Option<string>)

  /** AwsSecurityFindingFilters: the values of one field are alternatives, the fields are all required. */
  datatype AwsFilters = AwsFilters(
    recordState: seq<StringFilter>,
    severityLabel: seq<StringFilter>,
    types: seq<StringFilter>,
    productName: seq<StringFilter>,
    workflowStatus: seq<StringFilter>,
    resourceType: seq<StringFilter>,
    resourceId: seq<StringFilter>,
    exploitAvailable: seq<StringFilter>,
    fixAvailable: seq<StringFilter>,
    title: seq<StringFilter>,
    awsAccountId: seq<StringFilter>,
    updatedAt: seq<DateFilter>,
    region: seq<StringFilter>)

  datatype Resource = Resource(kind: string, id: string)

  datatype Finding = Finding(
    recordState: string,
    severityLabel: string,
    types: seq<string>,
    productName: string,
    workflowStatus: string,
    resourceTypes: seq<string>,
    resourceIds: seq<string>,
    exploitAvailable: seq<string>,
    fixAvailable: seq<string>,
    title: string,
    awsAccountId: string,
    updatedAt: int,
    region: string)

  // ---------------------------------------------------------------- building the filter

  function EqualsFilter(value: string): StringFilter {
    StringFilter(value, EQUALS)
  }

  function EqualsAny(values: seq<string>): seq<StringFilter> {
    seq(|values|, i requires 0 <= i < |values| => EqualsFilter(values[i]))
  }

  /** An empty string leaves its field out. */
  function EqualsIfSet(value: string): seq<StringFilter> {
    if value == "" then [] else [EqualsFilter(value)]
  }

  function IfSet(value: string): Option<string> {
    if value == "" then None else Some(value)
  }

  function RecordStateOf(f: Filter): string {
    if f.recordState == "" then "ACTIVE" else f.recordState
  }

  function FiltersOf(f: Filter): AwsFilters {
    AwsFilters(
      recordState := [EqualsFilter(RecordStateOf(f))],
      severityLabel := EqualsAny(f.severityLabels),
      types := EqualsAny(f.types),
      productName := EqualsIfSet(f.productName),
      workflowStatus := EqualsAny(f.workflowStatus),
      resourceType := EqualsIfSet(f.resourceType),
      resourceId := EqualsAny(f.resourceIds),
      exploitAvailable := EqualsIfSet(f.exploitAvailable),
      fixAvailable := EqualsIfSet(f.fixAvailable),
      title := if f.titlePrefix == "" then [] else [StringFilter(f.titlePrefix, PREFIX)],
      awsAccountId := EqualsIfSet(f.awsAccountId),
      updatedAt := if f.updatedAfter == "" && f.updatedBefore == "" then []
                   else [DateFilter(IfSet(f.updatedAfter), IfSet(f.updatedBefore))],
      region := EqualsIfSet(f.region))
  }

  function WithResolvedRegion(f: Filter, region: string): Filter {
    f.(region := region)
  }

  const NO_FILTERS := AwsFilters([], [], [], [], [], [], [], [], [], [], [], [], [])

  /** One list field: an EQUALS alternative per value, in the list's order. */
  method AppendEquals(values: seq<string>) returns (out: seq<StringFilter>)
    ensures out == EqualsAny(values)
  {
    out := [];
    for i := 0 to |values|
      invariant out == EqualsAny(values[..i])
    {
      out := out + [EqualsFilter(values[i])];
    }
    assert values[..|values|] == values;
  }

  /** The source's field-by-field construction. */
  method BuildFilters(f: Filter) returns (out: AwsFilters)
    ensures out == FiltersOf(f)
  {
    out := NO_FILTERS;
    var recordState := f.recordState;
    if recordState == "" {
      recordState := "ACTIVE";
    }
    out := out.(recordState := [EqualsFilter(recordState)]);
    var severities := AppendEquals(f.severityLabels);
    var types := AppendEquals(f.types);
    var statuses := AppendEquals(f.workflowStatus);
    var ids := AppendEquals(f.resourceIds);
    out := out.(severityLabel := severities, types := types, workflowStatus := statuses, resourceId := ids);
    out := out.(productName := EqualsIfSet(f.productName), resourceType := EqualsIfSet(f.resourceType));
    out := out.(exploitAvailable := EqualsIfSet(f.exploitAvailable), fixAvailable := EqualsIfSet(f.fixAvailable));
    if f.titlePrefix != "" {
      out := out.(title := [StringFilter(f.titlePrefix, PREFIX)]);
    }
    out := out.(awsAccountId := EqualsIfSet(f.awsAccountId));
    if f.updatedAfter != "" || f.updatedBefore != "" {
      out := out.(updatedAt := [DateFilter(IfSet(f.updatedAfter), IfSet(f.updatedBefore))]);
    }
    out := out.(region := EqualsIfSet(f.region));
  }

  // ---------------------------------------------------------------- what a filter selects

  predicate Matches(f: StringFilter, value: string) {
    match f.comparison
    case EQUALS => value == f.value
    case PREFIX => f.value <= value
  }

  predicate FieldMatches(filters: seq<StringFilter>, values: seq<string>) {
    filters == [] || exists f, v | f in filters && v in values :: Matches(f, v)
  }

  /** `instant` reads an RFC 3339 timestamp. */
  predicate DateMatches(instant: string -> int, filters: seq<DateFilter>, at: int) {
    filters == []
    || exists f | f in filters ::
         && (f.start.Some? ==> instant(f.start.value) <= at)
         && (f.end.Some? ==> at <= instant(f.end.value))
  }

  predicate Selects(instant: string -> int, a: AwsFilters, x: Finding) {
    && FieldMatches(a.recordState, [x.recordState])
    && FieldMatches(a.severityLabel, [x.severityLabel])
    && FieldMatches(a.types, x.types)
    && FieldMatches(a.productName, [x.productName])
    && FieldMatches(a.workflowStatus, [x.workflowStatus])
    && FieldMatches(a.resourceType, x.resourceTypes)
    && FieldMatches(a.resourceId, x.resourceIds)
    && FieldMatches(a.exploitAvailable, x.exploitAvailable)
    && FieldMatches(a.fixAvailable, x.fixAvailable)
    && FieldMatches(a.title, [x.title])
    && FieldMatches(a.awsAccountId, [x.awsAccountId])
    && DateMatches(instant, a.updatedAt, x.updatedAt)
    && FieldMatches(a.region, [x.region])
  }

  function Selected(instant: string -> int, a: AwsFilters, findings: seq<Finding>): seq<Finding> {
    if findings == [] then []
    else (if Selects(instant, a, findings[0]) then [findings[0]] else []) + Selected(instant, a, findings[1..])
  }

  // ---------------------------------------------------------------- the canonical form behind filterKey

  /** What is hashed into a slot's name: the region is left out, it is part of the name itself. */
  function Canonical(f: Filter): Filter {
    f.(recordState := RecordStateOf(f),
       severityLabels := SortCompact(f.severityLabels),
       types := SortCompact(f.types),
       workflowStatus := SortCompact(f.workflowStatus),
       resourceIds := SortCompact(f.resourceIds),
       region := "")
  }

  /** Same scalars, same list values in whatever order and multiplicity, the empty record state read as ACTIVE. */
  predicate SameQuery(f: Filter, g: Filter) {
    && RecordStateOf(f) == RecordStateOf(g)
    && Elements(f.severityLabels) == Elements(g.severityLabels)
    && Elements(f.types) == Elements(g.types)
    && Elements(f.workflowStatus) == Elements(g.workflowStatus)
    && Elements(f.resourceIds) == Elements(g.resourceIds)
    && f.productName == g.productName && f.resourceType == g.resourceType
    && f.exploitAvailable == g.exploitAvailable && f.fixAvailable == g.fixAvailable
    && f.titlePrefix == g.titlePrefix && f.awsAccountId == g.awsAccountId
    && f.updatedAfter == g.updatedAfter && f.updatedBefore == g.updatedBefore
  }

  /** The canonical form ignores order, repetition and a spelled-out ACTIVE, and nothing else. */
  lemma CanonicalExactly(f: Filter, g: Filter)
    ensures Canonical(f) == Canonical(g) <==> SameQuery(f, g)
  {
    SortCompactCanonical(f.severityLabels, g.severityLabels);
    SortCompactCanonical(f.types, g.types);
    SortCompactCanonical(f.workflowStatus, g.workflowStatus);
    SortCompactCanonical(f.resourceIds, g.resourceIds);
  }

  lemma FieldMatchesExactly(values: seq<string>, of: seq<string>)
    ensures FieldMatches(EqualsAny(values), of) <==> values == [] || exists v :: v in Elements(values) && v in of
  {
    if v :| v in Elements(values) && v in of {
      var i :| 0 <= i < |values| && values[i] == v;
      assert EqualsAny(values)[i] == EqualsFilter(v);
      assert Matches(EqualsFilter(v), v);
    }
    if values != [] && FieldMatches(EqualsAny(values), of) {
      var f, v :| f in EqualsAny(values) && v in of && Matches(f, v);
      assert v in Elements(values);
    }
  }

  lemma FieldsOfSameElements(a: seq<string>, b: seq<string>, of: seq<string>)
    requires Elements(a) == Elements(b)
    ensures FieldMatches(EqualsAny(a), of) == FieldMatches(EqualsAny(b), of)
  {
    FieldMatchesExactly(a, of);
    FieldMatchesExactly(b, of);
    assert |a| > 0 ==> a[0] in Elements(b);
    assert |b| > 0 ==> b[0] in Elements(a);
  }

  /** Filters with one canonical form and one region select the same findings. */
  lemma CanonicalSound(instant: string -> int, f: Filter, g: Filter, x: Finding)
    requires Canonical(f) == Canonical(g) && f.region == g.region
    ensures Selects(instant, FiltersOf(f), x) == Selects(instant, FiltersOf(g), x)
  {
    CanonicalExactly(f, g);
    FieldsOfSameElements(f.severityLabels, g.severityLabels, [x.severityLabel]);
    FieldsOfSameElements(f.types, g.types, x.types);
    FieldsOfSameElements(f.workflowStatus, g.workflowStatus, [x.workflowStatus]);
    FieldsOfSameElements(f.resourceIds, g.resourceIds, x.resourceIds);
  }

  lemma {:induction false} CanonicalSelectsSame(instant: string -> int, f: Filter, g: Filter, findings: seq<Finding>)
    requires Canonical(f) == Canonical(g) && f.region == g.region
    ensures Selected(instant, FiltersOf(f), findings) == Selected(instant, FiltersOf(g), findings)
  {
    if findings != [] {
      CanonicalSound(instant, f, g, findings[0]);
      CanonicalSelectsSame(instant, f, g, findings[1..]);
    }
  }

  /** The caller's filter asks for the finding: every field that is set admits one of the finding's values. */
  predicate Asks(instant: string -> int, f: Filter, x: Finding) {
    && x.recordState == (if f.recordState == "" then "ACTIVE" else f.recordState)
    && (f.severityLabels == [] || x.severityLabel in f.severityLabels)
    && (f.types == [] || exists v :: v in f.types && v in x.types)
    && (f.productName == "" || x.productName == f.productName)
    && (f.workflowStatus == [] || x.workflowStatus in f.workflowStatus)
    && (f.resourceType == "" || f.resourceType in x.resourceTypes)
    && (f.resourceIds == [] || exists v :: v in f.resourceIds && v in x.resourceIds)
    && (f.exploitAvailable == "" || f.exploitAvailable in x.exploitAvailable)
    && (f.fixAvailable == "" || f.fixAvailable in x.fixAvailable)
    && f.titlePrefix <= x.title
    && (f.awsAccountId == "" || x.awsAccountId == f.awsAccountId)
    && (f.updatedAfter == "" || instant(f.updatedAfter) <= x.updatedAt)
    && (f.updatedBefore == "" || x.updatedAt <= instant(f.updatedBefore))
    && (f.region == "" || x.region == f.region)
  }

  /** The built filter keeps exactly the findings the caller's filter asks for. */
  lemma SelectsExactly(instant: string -> int, f: Filter, x: Finding)
    ensures Selects(instant, FiltersOf(f), x) <==> Asks(instant, f, x)
  {
    FieldMatchesExactly(f.severityLabels, [x.severityLabel]);
    FieldMatchesExactly(f.types, x.types);
    FieldMatchesExactly(f.workflowStatus, [x.workflowStatus]);
    assert x.severityLabel in [x.severityLabel] && x.workflowStatus in [x.workflowStatus];
    FieldMatchesExactly(f.resourceIds, x.resourceIds);
    OneEquals(f.productName, [x.productName]);
    OneEquals(f.resourceType, x.resourceTypes);
    OneEquals(f.exploitAvailable, x.exploitAvailable);
    OneEquals(f.fixAvailable, x.fixAvailable);
    OneEquals(f.awsAccountId, [x.awsAccountId]);
    OneEquals(f.region, [x.region]);
    OneEquals(RecordStateOf(f), [x.recordState]);
    OnePrefix(f.titlePrefix, x.title);
    OneDate(instant, f, x.updatedAt);
  }

  lemma OnePrefix(prefix: string, title: string)
    ensures FieldMatches([StringFilter(prefix, PREFIX)], [title]) <==> prefix <= title
  {
    assert prefix <= title ==> Matches(StringFilter(prefix, PREFIX), title);
  }

  lemma OneDate(instant: string -> int, f: Filter, at: int)
    ensures DateMatches(instant, FiltersOf(f).updatedAt, at) <==>
              && (f.updatedAfter == "" || instant(f.updatedAfter) <= at)
              && (f.updatedBefore == "" || at <= instant(f.updatedBefore))
  {
    var df := DateFilter(IfSet(f.updatedAfter), IfSet(f.updatedBefore));
    assert FiltersOf(f).updatedAt == [] || df in FiltersOf(f).updatedAt;
  }

  lemma OneEquals(value: string, of: seq<string>)
    ensures FieldMatches(EqualsIfSet(value), of) <==> value == "" || value in of
  {
    if value in of {
      assert Matches(EqualsFilter(value), value);
    }
  }

  /** The findings selected are those the filter asks for, as often as they are there. */
  lemma {:induction false} SelectedExactly(instant: string -> int, f: Filter, findings: seq<Finding>, x: Finding)
    ensures multiset(Selected(instant, FiltersOf(f), findings))[x]
         == if Asks(instant, f, x) then multiset(findings)[x] else 0
  {
    hide Selects, FiltersOf, Asks;
    if findings != [] {
      SelectedExactly(instant, f, findings[1..], x);
      SelectsExactly(instant, f, findings[0]);
      assert findings == [findings[0]] + findings[1..];
    }
  }
}
