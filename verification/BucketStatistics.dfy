/** cappedBucketStats: one capped GetFindings call per severity or workflow status. */
module BucketStatistics {
  import opened Options
  import opened SecurityHubFilter
  import opened Sequences

  const PAGE_SIZE := 100

  const SEVERITY_BUCKETS := ["INFORMATIONAL", "LOW", "MEDIUM", "HIGH", "CRITICAL"]

  const WORKFLOW_STATUS_BUCKETS := ["NEW", "NOTIFIED", "RESOLVED", "SUPPRESSED"]

  datatype GroupBy = SEVERITY | WORKFLOW_STATUS

  function Buckets(g: GroupBy): seq<string> {
    match g
    case SEVERITY => SEVERITY_BUCKETS
    case WORKFLOW_STATUS => WORKFLOW_STATUS_BUCKETS
  }

  function Label(g: GroupBy, x: Finding): string {
    match g
    case SEVERITY => x.severityLabel
    case WORKFLOW_STATUS => x.workflowStatus
  }

  /** The caller's own values for the grouped field. */
  function Asked(g: GroupBy, f: Filter): seq<string> {
    match g
    case SEVERITY => f.severityLabels
    case WORKFLOW_STATUS => f.workflowStatus
  }

  function WithAsked(g: GroupBy, f: Filter, values: seq<string>): Filter {
    match g
    case SEVERITY => f.(severityLabels := values)
    case WORKFLOW_STATUS => f.(workflowStatus := values)
  }

  /** The source's constrain callbacks assign the field. */
  function Constrain(g: GroupBy, a: AwsFilters, bucket: string): AwsFilters {
    match g
    case SEVERITY => a.(severityLabel := [EqualsFilter(bucket)])
    case WORKFLOW_STATUS => a.(workflowStatus := [EqualsFilter(bucket)])
  }

  datatype StatCount = StatCount(key: string, count: nat, capped: bool)

  datatype Statistics = Statistics(total: nat, counts: seq<StatCount>)

  /** The account: its findings and how timestamps read. */
  datatype Account = Account(findings: seq<Finding>, instant: string -> int)

  /** How many of the account's findings a query matches; GetFindings answers with the first page of them. */
  type Service = AwsFilters -> nat

  function ServiceOf(account: Account): Service {
    filters => |Selected(account.instant, filters, account.findings)|
  }

  function Capped(n: nat): nat {
    if n > PAGE_SIZE then PAGE_SIZE else n
  }

  /** How many findings each bucket's query matches. */
  function Sizes(service: Service, g: GroupBy, f: Filter): string -> nat {
    bucket => service(Constrain(g, FiltersOf(f), bucket))
  }

  /** A bucket no finding matches is left out; the others come in order, cut off at one page. */
  function Counts(sizes: string -> nat, buckets: seq<string>): seq<StatCount> {
    if buckets == [] then []
    else
      var n := sizes(buckets[|buckets| - 1]);
      Counts(sizes, buckets[..|buckets| - 1]) + Row(buckets[|buckets| - 1], n)
  }

  function Row(bucket: string, n: nat): seq<StatCount> {
    if n == 0 then [] else [StatCount(bucket, Capped(n), n > PAGE_SIZE)]
  }

  function Total(counts: seq<StatCount>): nat {
    if counts == [] then 0 else Total(counts[..|counts| - 1]) + counts[|counts| - 1].count
  }

  lemma NoBuckets(sizes: string -> nat)
    ensures Counts(sizes, []) == [] && Total([]) == 0
  {
  }

  lemma OneBucketOn(sizes: string -> nat, buckets: seq<string>, i: nat)
    requires i < |buckets|
    ensures var n, before, after := sizes(buckets[i]), Counts(sizes, buckets[..i]), Counts(sizes, buckets[..i + 1]);
            && after == before + Row(buckets[i], n)
            && Total(after) == Total(before) + Capped(n)
  {
    assert buckets[..i + 1][..i] == buckets[..i];
    var n, before, after := sizes(buckets[i]), Counts(sizes, buckets[..i]), Counts(sizes, buckets[..i + 1]);
    if n != 0 {
      assert after[..|after| - 1] == before && after[|after| - 1].count == Capped(n);
    } else {
      assert after == before;
    }
  }

  /** One GetFindings call per bucket, of which the first page is looked at. */
  method CappedBucketStats(sizes: string -> nat, buckets: seq<string>, fails: nat -> bool)
    returns (out: Option<Statistics>)
    ensures out.None? <==> exists i :: 0 <= i < |buckets| && fails(i)
    ensures out.Some? ==> out.value.counts == Counts(sizes, buckets) && out.value.total == Total(out.value.counts)
  {
    hide Counts, Total;
    var counts: seq<StatCount>, total := [], 0;
    NoBuckets(sizes);
    assert buckets[..0] == [];
    for i := 0 to |buckets|
      invariant forall j | 0 <= j < i :: !fails(j)
      invariant counts == Counts(sizes, buckets[..i]) && total == Total(counts)
    {
      if fails(i) {
        return None;
      }
      var n := sizes(buckets[i]);
      var page, more := Capped(n), n > PAGE_SIZE;
      OneBucketOn(sizes, buckets, i);
      if page == 0 {
        continue;
      }
      counts := counts + [StatCount(buckets[i], page, more)];
      total := total + page;
    }
    assert buckets[..|buckets|] == buckets;
    return Some(Statistics(total, counts));
  }

  // ---------------------------------------------------------------- what a bucket counts

  /** A bucket's query is the caller's with the grouped field asked for this value instead. */
  lemma BucketReplacesTheField(g: GroupBy, f: Filter, bucket: string)
    ensures Constrain(g, FiltersOf(f), bucket) == FiltersOf(WithAsked(g, f, [bucket]))
  {
    assert EqualsAny([bucket]) == [EqualsFilter(bucket)];
  }

  /** The caller's filter is the one with the grouped field left open, and the caller's values for that field. */
  lemma AskedExactly(account: Account, g: GroupBy, f: Filter, x: Finding)
    ensures Selects(account.instant, FiltersOf(f), x)
            <==> (Asked(g, f) == [] || Label(g, x) in Asked(g, f))
                 && Selects(account.instant, FiltersOf(WithAsked(g, f, [])), x)
  {
    hide Selects, FiltersOf;
    SelectsExactly(account.instant, f, x);
    match g
    case SEVERITY => SelectsExactly(account.instant, f.(severityLabels := []), x);
    case WORKFLOW_STATUS => SelectsExactly(account.instant, f.(workflowStatus := []), x);
  }

  /** A finding is in a bucket exactly when it has the bucket's label and passes the rest of the caller's filter. */
  lemma InBucketExactly(account: Account, g: GroupBy, f: Filter, bucket: string, x: Finding)
    ensures Selects(account.instant, Constrain(g, FiltersOf(f), bucket), x)
            <==> Label(g, x) == bucket && Selects(account.instant, FiltersOf(WithAsked(g, f, [])), x)
  {
    hide Selects, FiltersOf, Constrain;
    BucketReplacesTheField(g, f, bucket);
    AskedExactly(account, g, WithAsked(g, f, [bucket]), x);
    assert WithAsked(g, WithAsked(g, f, [bucket]), []) == WithAsked(g, f, []);
  }

  /**
   The bucket's filter is not on top of the caller's: a finding counted in a bucket passes the caller's own
   filter exactly when the caller left the grouped field open or asked for this bucket.
   */
  lemma CountedPassesExactly(account: Account, g: GroupBy, f: Filter, bucket: string, x: Finding)
    requires Selects(account.instant, Constrain(g, FiltersOf(f), bucket), x)
    ensures Selects(account.instant, FiltersOf(f), x) <==> Asked(g, f) == [] || bucket in Asked(g, f)
    ensures Label(g, x) == bucket
  {
    hide *;
    InBucketExactly(account, g, f, bucket, x);
    AskedExactly(account, g, f, x);
  }

  /** Asking for CRITICAL only still counts an account's LOW finding. */
  lemma CountsWhatTheCallerExcluded(instant: string -> int) returns (account: Account, f: Filter)
    ensures f.severityLabels == ["CRITICAL"]
    ensures ServiceOf(account)(FiltersOf(f)) == 0
    ensures Counts(Sizes(ServiceOf(account), SEVERITY, f), SEVERITY_BUCKETS) == [StatCount("LOW", 1, false)]
  {
    var x := Finding("ACTIVE", "LOW", [], "", "NEW", [], [], [], [], "", "", 0, "");
    f := Filter(["CRITICAL"], [], "", [], "", "", [], "", "", "", "", "", "", "");
    account := Account([x], instant);
    SelectsExactly(instant, f, x);
    SelectsExactly(instant, WithAsked(SEVERITY, f, []), x);
    OneFinding(instant, FiltersOf(f), x);
    OnlyLow(account, f, x);
    CountsOfOnlyLow(Sizes(ServiceOf(account), SEVERITY, f));
  }

  lemma OnlyLow(account: Account, f: Filter, x: Finding)
    requires account.findings == [x] && x.severityLabel == "LOW"
    requires Selects(account.instant, FiltersOf(WithAsked(SEVERITY, f, [])), x)
    ensures forall bucket :: Sizes(ServiceOf(account), SEVERITY, f)(bucket) == if bucket == "LOW" then 1 else 0
  {
    forall bucket ensures Sizes(ServiceOf(account), SEVERITY, f)(bucket) == if bucket == "LOW" then 1 else 0 {
      InBucketExactly(account, SEVERITY, f, bucket, x);
      OneFinding(account.instant, Constrain(SEVERITY, FiltersOf(f), bucket), x);
    }
  }

  lemma CountsOfOnlyLow(sizes: string -> nat)
    requires forall bucket :: sizes(bucket) == if bucket == "LOW" then 1 else 0
    ensures Counts(sizes, SEVERITY_BUCKETS) == [StatCount("LOW", 1, false)]
  {
    var b := SEVERITY_BUCKETS;
    assert b[..0] == [] && b[..5] == b;
    for i := 0 to 5
      invariant Counts(sizes, b[..i]) == if i <= 1 then [] else [StatCount("LOW", 1, false)]
    {
      OneBucketOn(sizes, b, i);
    }
  }

  lemma OneFinding(instant: string -> int, a: AwsFilters, x: Finding)
    ensures Selected(instant, a, [x]) == if Selects(instant, a, x) then [x] else []
  {
    assert [x][1..] == [];
  }

  // ---------------------------------------------------------------- what the total means

  function Uncapped(sizes: string -> nat, buckets: seq<string>): nat {
    if buckets == [] then 0 else Uncapped(sizes, buckets[..|buckets| - 1]) + sizes(buckets[|buckets| - 1])
  }

  /** Taking one finding away takes it out of its own bucket only. */
  lemma {:induction false} UncappedSplits(account: Account, g: GroupBy, f: Filter, buckets: seq<string>)
    requires account.findings != [] && Distinct(buckets)
    ensures var x, others := account.findings[0], account.(findings := account.findings[1..]);
            Uncapped(Sizes(ServiceOf(account), g, f), buckets)
            == Uncapped(Sizes(ServiceOf(others), g, f), buckets)
               + if Label(g, x) in buckets && Selects(account.instant, FiltersOf(WithAsked(g, f, [])), x) then 1 else 0
  {
    if buckets != [] {
      var front, bucket := buckets[..|buckets| - 1], buckets[|buckets| - 1];
      UncappedSplits(account, g, f, front);
      InBucketExactly(account, g, f, bucket, account.findings[0]);
      assert buckets == front + [bucket];
      assert bucket !in front;
    }
  }

  /** Over distinct buckets that cover the field, each finding the rest of the filter admits is in one bucket. */
  lemma {:induction false} BucketsPartition(account: Account, g: GroupBy, f: Filter, buckets: seq<string>)
    requires Distinct(buckets) && forall x | x in account.findings :: Label(g, x) in buckets
    ensures Uncapped(Sizes(ServiceOf(account), g, f), buckets)
            == |Selected(account.instant, FiltersOf(WithAsked(g, f, [])), account.findings)|
    decreases |account.findings|
  {
    if account.findings == [] {
      NothingToCount(account, g, f, buckets);
    } else {
      UncappedSplits(account, g, f, buckets);
      BucketsPartition(account.(findings := account.findings[1..]), g, f, buckets);
      assert account.findings[0] in account.findings;
    }
  }

  lemma {:induction false} NothingToCount(account: Account, g: GroupBy, f: Filter, buckets: seq<string>)
    requires account.findings == []
    ensures Uncapped(Sizes(ServiceOf(account), g, f), buckets) == 0
  {
    if buckets != [] {
      NothingToCount(account, g, f, buckets[..|buckets| - 1]);
      var filters := Constrain(g, FiltersOf(f), buckets[|buckets| - 1]);
      assert Selected(account.instant, filters, account.findings) == [];
      assert Sizes(ServiceOf(account), g, f)(buckets[|buckets| - 1]) == ServiceOf(account)(filters);
    }
  }

  /** The total is a lower bound, exact exactly when no bucket is reported capped. */
  lemma {:induction false} TotalIsALowerBound(sizes: string -> nat, buckets: seq<string>)
    ensures var counts := Counts(sizes, buckets);
            && Total(counts) <= Uncapped(sizes, buckets)
            && (Total(counts) == Uncapped(sizes, buckets) <==> forall c | c in counts :: !c.capped)
  {
    if buckets != [] {
      var front := Counts(sizes, buckets[..|buckets| - 1]);
      var counts := Counts(sizes, buckets);
      TotalIsALowerBound(sizes, buckets[..|buckets| - 1]);
      if counts != front {
        assert counts[..|counts| - 1] == front && counts == front + [counts[|counts| - 1]];
      }
    }
  }

  /** With the grouped field left open, uncapped statistics count every finding of the caller's filter once. */
  lemma OpenFieldCountsAll(account: Account, g: GroupBy, f: Filter)
    requires Asked(g, f) == [] && forall x | x in account.findings :: Label(g, x) in Buckets(g)
    ensures var counts := Counts(Sizes(ServiceOf(account), g, f), Buckets(g));
            Total(counts) == |Selected(account.instant, FiltersOf(f), account.findings)|
            <==> forall c | c in counts :: !c.capped
  {
    BucketsPartition(account, g, f, Buckets(g));
    TotalIsALowerBound(Sizes(ServiceOf(account), g, f), Buckets(g));
    assert WithAsked(g, f, []) == f;
  }

  // ---------------------------------------------------------------- in terms of the findings

  /** The caller's filter with the grouped field left open. */
  function Opened(g: GroupBy, f: Filter): Filter {
    match g
    case SEVERITY => f.(severityLabels := [])
    case WORKFLOW_STATUS => f.(workflowStatus := [])
  }

  /** How many of the findings are in the bucket: its value in the grouped field, and asked for by the rest. */
  function InBucket(instant: string -> int, g: GroupBy, f: Filter, findings: seq<Finding>, bucket: string): nat {
    if findings == [] then 0
    else
      var x := findings[0];
      var value := match g case SEVERITY => x.severityLabel case WORKFLOW_STATUS => x.workflowStatus;
      (if value == bucket && Asks(instant, Opened(g, f), x) then 1 else 0)
      + InBucket(instant, g, f, findings[1..], bucket)
  }

  lemma {:induction false} SizesExactly(account: Account, g: GroupBy, f: Filter, bucket: string, findings: seq<Finding>)
    ensures |Selected(account.instant, Constrain(g, FiltersOf(f), bucket), findings)|
         == InBucket(account.instant, g, f, findings, bucket)
  {
    hide Selects, FiltersOf, Constrain, Asks;
    if findings != [] {
      SizesExactly(account, g, f, bucket, findings[1..]);
      InBucketExactly(account, g, f, bucket, findings[0]);
      SelectsExactly(account.instant, Opened(g, f), findings[0]);
    }
  }

  /** The values asked about, each by its own call and in this order. */
  lemma BucketsExactly()
    ensures Buckets(SEVERITY) == ["INFORMATIONAL", "LOW", "MEDIUM", "HIGH", "CRITICAL"]
    ensures Buckets(WORKFLOW_STATUS) == ["NEW", "NOTIFIED", "RESOLVED", "SUPPRESSED"]
  {
  }

  /** The buckets some finding is in, in their order. */
  function Filled(account: Account, g: GroupBy, f: Filter, buckets: seq<string>): seq<string> {
    if buckets == [] then []
    else
      var b := buckets[|buckets| - 1];
      Filled(account, g, f, buckets[..|buckets| - 1])
      + if InBucket(account.instant, g, f, account.findings, b) > 0 then [b] else []
  }

  /** Each bucket some finding is in has one count, in order: the number of its findings up to 100, capped beyond. */
  lemma {:induction false} CountsExactly(account: Account, g: GroupBy, f: Filter, buckets: seq<string>)
    ensures var counts, filled := Counts(Sizes(ServiceOf(account), g, f), buckets), Filled(account, g, f, buckets);
            && |counts| == |filled|
            && forall i | 0 <= i < |counts| ::
                 var n := InBucket(account.instant, g, f, account.findings, filled[i]);
                 counts[i] == StatCount(filled[i], if n <= 100 then n else 100, n > 100)
  {
    hide Constrain, FiltersOf, InBucket, Selected;
    if buckets != [] {
      CountsExactly(account, g, f, buckets[..|buckets| - 1]);
      SizesExactly(account, g, f, buckets[|buckets| - 1], account.findings);
    }
  }
}
