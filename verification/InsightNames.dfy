/**
 The name of an account and region's one statistics Insight: a prefix that says whose it is, then a
 fingerprint of the query it currently answers. The fingerprint's hash is a parameter of the account.
 */
module InsightNames {
  import opened Options
  import opened Text
  import opened SecurityHubFilter

  const NAME_PREFIX := "centcom-satellite-stats-"

  datatype StatCount = StatCount(key: string, count: int)

  /**
   One Security Hub endpoint. `hash` stands for the truncated SHA-256 of a canonical filter, `instant` reads
   timestamps, and `tally` is AWS's live answer for a group-by attribute over the findings a filter selects.
   */
  datatype Account = Account(
    region: string,
    hash: Filter -> string,
    instant: string -> int,
    tally: (seq<Finding>, string) -> seq<StatCount>)

  ghost predicate NoCollisions(account: Account) {
    forall f, g :: account.hash(f) == account.hash(g) ==> f == g
  }

  datatype Query = Query(groupBy: string, filter: Filter)

  datatype Insight = Insight(name: string, attribute: string, filters: AwsFilters)

  function AttributeOf(groupBy: string): Option<string> {
    match groupBy
    case "SEVERITY" => Some("SeverityLabel")
    case "TYPE" => Some("Type")
    case "WORKFLOW_STATUS" => Some("WorkflowStatus")
    case "PRODUCT" => Some("ProductName")
    case "RESOURCE_TYPE" => Some("ResourceType")
    case "RESOURCE_ID" => Some("ResourceId")
    case _ => None
  }

  /** group_by in any case; none asks for SEVERITY. */
  function GroupByOf(groupBy: string): string {
    if ToUpper(groupBy) == "" then "SEVERITY" else ToUpper(groupBy)
  }

  /** The query a payload asks, in the region the client was built for. */
  function Received(account: Account, payload: Query): Query {
    Query(GroupByOf(payload.groupBy), WithResolvedRegion(payload.filter, account.region))
  }

  function SlotPrefix(region: string): string {
    NAME_PREFIX + ToLower(region) + "#"
  }

  function FilterKey(account: Account, f: Filter): string {
    account.hash(Canonical(f))
  }

  function SlotName(account: Account, q: Query): string {
    SlotPrefix(account.region) + (ToLower(q.groupBy) + "-" + FilterKey(account, q.filter))
  }

  predicate Valid(account: Account, q: Query) {
    AttributeOf(q.groupBy).Some? && q.filter.region == account.region
  }

  /** The slot while it answers q. */
  function Answering(account: Account, q: Query): Insight
    requires Valid(account, q)
  {
    Insight(SlotName(account, q), AttributeOf(q.groupBy).value, FiltersOf(q.filter))
  }

  predicate Owned(name: string) {
    NAME_PREFIX <= name
  }

  predicate IsSlot(account: Account, name: string) {
    SlotPrefix(account.region) <= name
  }

  lemma SlotNamesAreOwnedSlots(account: Account, q: Query)
    ensures IsSlot(account, SlotName(account, q))
    ensures forall name | IsSlot(account, name) :: Owned(name)
  {
    assert SlotPrefix(account.region)[..|NAME_PREFIX|] == NAME_PREFIX;
    forall name | IsSlot(account, name) ensures Owned(name) {
      assert name[..|NAME_PREFIX|] == SlotPrefix(account.region)[..|NAME_PREFIX|];
    }
  }

  /** This task's Insights are told by one prefix, a region's slot by that, the region in lower case and a hash sign. */
  lemma NamesExactly(account: Account, name: string)
    ensures Owned(name) <==> "centcom-satellite-stats-" <= name
    ensures IsSlot(account, name) <==> "centcom-satellite-stats-" + ToLower(account.region) + "#" <= name
  {
  }

  lemma DashFreeGroupBy(groupBy: string)
    requires AttributeOf(groupBy).Some?
    ensures NoLowerCase(groupBy) && '-' !in ToLower(groupBy)
  {
    assert forall i | 0 <= i < |groupBy| :: groupBy[i] == '_' || 'A' <= groupBy[i] <= 'Z';
  }

  /** A valid query is received as it is. */
  lemma ValidReceived(account: Account, q: Query)
    requires Valid(account, q)
    ensures Received(account, q) == q
  {
    DashFreeGroupBy(q.groupBy);
    assert ToUpper(q.groupBy) == q.groupBy;
  }

  /** Barring a hash collision, a slot's name says exactly which query the slot answers. */
  lemma SlotNameIdentifiesQuery(account: Account, q: Query, r: Query)
    requires NoCollisions(account) && Valid(account, q) && Valid(account, r)
    ensures SlotName(account, q) == SlotName(account, r) <==> q.groupBy == r.groupBy && SameQuery(q.filter, r.filter)
  {
    CanonicalExactly(q.filter, r.filter);
    if SlotName(account, q) == SlotName(account, r) {
      var n := |SlotPrefix(account.region)|;
      assert SlotName(account, q)[n..] == SlotName(account, r)[n..];
      DashFreeGroupBy(q.groupBy);
      DashFreeGroupBy(r.groupBy);
      SplitAtFirst('-', ToLower(q.groupBy), FilterKey(account, q.filter),
                   ToLower(r.groupBy), FilterKey(account, r.filter));
      ToLowerInjective(q.groupBy, r.groupBy);
    }
  }

  /** What the caller should be told: AWS's counts for its group_by over the findings its own filter selects. */
  function TrueCounts(account: Account, q: Query, findings: seq<Finding>): seq<StatCount>
    requires Valid(account, q)
  {
    account.tally(Selected(account.instant, FiltersOf(q.filter), findings), AttributeOf(q.groupBy).value)
  }

  /** What AWS returns for an Insight as it stands. */
  function InsightResults(account: Account, i: Insight, findings: seq<Finding>): seq<StatCount> {
    account.tally(Selected(account.instant, i.filters, findings), i.attribute)
  }

  /** A slot written for one query answers every query of the same name, however that query spelled its lists. */
  lemma SameNameSameCounts(account: Account, q: Query, r: Query, findings: seq<Finding>)
    requires NoCollisions(account) && Valid(account, q) && Valid(account, r)
    requires SlotName(account, q) == SlotName(account, r)
    ensures InsightResults(account, Answering(account, r), findings) == TrueCounts(account, q, findings)
  {
    SlotNameIdentifiesQuery(account, q, r);
    CanonicalExactly(q.filter, r.filter);
    CanonicalSelectsSame(account.instant, q.filter, r.filter, findings);
  }
}
