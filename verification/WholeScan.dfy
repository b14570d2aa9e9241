/** A whole running_image_vulnerabilities scan: collect, resolve, query, count and report. */
module WholeScan {
  import opened Tally
  import opened RunningImages
  import opened Sequences
  import opened Coverage
  import opened CoverageAccount
  import opened CoverageRun
  import opened FindingQueries
  import opened Pages
  import Aggregation = FindingAggregation
  import FindingReport
  import GroupDetails

  // ---------------------------------------------------------------- the repositories

  type ByRepo = map<RepoKey, seq<string>>

  /** Each ECR repository with its images among these keys, every image listed once. */
  ghost predicate Groups(byRepo: ByRepo, images: Images, keys: set<string>) {
    && (forall r | r in byRepo ::
          && r.registry != "" && Distinct(byRepo[r])
          && forall k :: k in byRepo[r] <==>
                 k in keys && k in images && images[k].registry == r.registry && images[k].repo == r.repo)
    && (forall k | k in keys && k in images && images[k].registry != "" ::
          RepoKey(images[k].registry, images[k].repo) in byRepo)
  }

  lemma GroupsOneMore(byRepo: ByRepo, images: Images, keys: set<string>, k: string)
    requires Groups(byRepo, images, keys) && k in images && k !in keys && images[k].registry != ""
    ensures var r := RepoOf(images[k]);
            Groups(byRepo[r := (if r in byRepo then byRepo[r] else []) + [k]], images, keys + {k})
  {
    var r := RepoOf(images[k]);
    if r !in byRepo {
      assert forall j | j in keys && j in KeysOf(images, r) :: j in InECR(images);
    }
  }

  lemma GroupsWithout(byRepo: ByRepo, images: Images, keys: set<string>, k: string)
    requires Groups(byRepo, images, keys) && k in images && images[k].registry == ""
    ensures Groups(byRepo, images, keys + {k})
  {
    hide Distinct;
  }

  lemma NoGroups(images: Images)
    ensures Groups(map[], images, {})
  {
  }

  lemma GroupIsRepo(byRepo: ByRepo, images: Images, r: RepoKey)
    requires Groups(byRepo, images, images.Keys) && r in byRepo
    ensures r.registry != "" && Distinct(byRepo[r]) && Elements(byRepo[r]) == KeysOf(images, r)
  {
    hide Distinct;
  }

  lemma EveryRepoListed(byRepo: ByRepo, images: Images)
    requires Groups(byRepo, images, images.Keys)
    ensures forall k | k in InECR(images) :: k in images && RepoOf(images[k]) in byRepo
  {
  }

  method GroupByRepo(images: Images) returns (byRepo: ByRepo)
    ensures Groups(byRepo, images, images.Keys)
  {
    hide Groups;
    byRepo := map[];
    NoGroups(images);
    var rest := images.Keys;
    ghost var seen: set<string> := {};
    while rest != {}
      invariant seen !! rest && seen + rest == images.Keys
      invariant Groups(byRepo, images, seen)
      decreases |rest|
    {
      var k :| k in rest;
      if images[k].registry != "" {
        GroupsOneMore(byRepo, images, seen, k);
        var r := RepoOf(images[k]);
        byRepo := byRepo[r := (if r in byRepo then byRepo[r] else []) + [k]];
      } else {
        GroupsWithout(byRepo, images, seen, k);
      }
      rest := rest - {k};
      seen := seen + {k};
    }
    assert seen == images.Keys;
  }

  /** The registry's answers, by repository and call. */
  type Registry = RepoKey -> (nat -> Reply)

  /**
   One repository per worker, in any order; once one has run out of budget some others may still be finished
   (`goesOn`), the rest are skipped.
   */
  method ResolveImages(scan: CoverageScan, registry: Registry, goesOn: RepoKey -> bool) returns (ok: bool)
    requires scan.Valid() && scan.done == {} && scan.recorded == {}
    modifies scan
    ensures scan.Valid() && scan.recorded == {} && SameSites(old(scan.images), scan.images)
    ensures Matched(scan.images) == Matched(old(scan.images))
    ensures ok ==> forall k | k in InECR(scan.images) :: RepoOf(scan.images[k]) in scan.done
    ensures !ok ==> exists r, b: nat :: registry(r)(b).BudgetSpent?
  {
    hide Inv, SameSites, KeysOf, InECR, RepoMerged, Distinct, Elements, Matched;
    ghost var start := scan.images;
    SitesSame(start);
    var byRepo := GroupByRepo(scan.images);
    EveryRepoListed(byRepo, start);
    var rest := byRepo.Keys;
    ok := true;
    while rest != {}
      invariant rest <= byRepo.Keys && rest !! scan.done
      invariant scan.Valid() && scan.recorded == {} && SameSites(start, scan.images)
      invariant Matched(scan.images) == Matched(start)
      invariant ok ==> scan.done == byRepo.Keys - rest
      invariant !ok ==> exists r, b: nat :: registry(r)(b).BudgetSpent?
      decreases |rest|
    {
      var r :| r in rest;
      rest := rest - {r};
      if !ok && !goesOn(r) {
        continue;
      }
      SameSitesSameECR(start, scan.images);
      GroupIsRepo(byRepo, start, r);
      ghost var before := scan.images;
      var resolved := scan.ResolveRepo(r, byRepo[r], registry(r));
      if resolved {
        SitesAfterMerge(start, before, scan.images, r, registry(r));
      } else {
        assert exists b: nat :: registry(r)(b).BudgetSpent?;
        ok := false;
      }
    }
    SameSitesSameECR(start, scan.images);
  }

  // ---------------------------------------------------------------- the whole

  datatype FindingsReport = FindingsReport(
    total: nat,
    severityCounts: Counts,
    groupsTotal: nat,
    groups: seq<FindingReport.Row>,
    details: seq<GroupDetails.Detail>)

  /** What the task reports. */
  datatype Outcome = Outcome(
    runningImages: nat,
    runningContainers: nat,
    ecrImages: nat,
    otherRegistryImages: nat,
    otherRegistries: seq<string>,
    coverage: Report,
    findings: FindingsReport)

  datatype Answers = Answers(
    registry: Registry,
    repoGoesOn: RepoKey -> bool,
    inspector: nat -> BatchReply,
    batchGoesOn: nat -> bool)

  ghost predicate DescribesRow(d: GroupDetails.Detail, images: Images, row: FindingReport.Row,
    groups: map<string, Aggregation.Group>) {
    row.key in groups && GroupDetails.IsDetail(d, images, row.key, groups[row.key])
  }

  /** The groups listed are the first ones of all the groups, each with its lists. */
  ghost predicate ReportsGroups(r: FindingsReport, images: Images, groups: map<string, Aggregation.Group>, limit: nat) {
    && r.groupsTotal == |groups|
    && (exists all :: FindingReport.Lists(all, groups) && r.groups == FindingReport.Cap(all, limit))
    && |r.details| == |r.groups|
    && forall i | 0 <= i < |r.groups| :: DescribesRow(r.details[i], images, r.groups[i], groups)
  }

  /** The report is that of the findings fed, no more and no less. */
  ghost predicate ReportsFindings(r: FindingsReport, c: Aggregation.Context, images: Images,
    fed: seq<Aggregation.Finding>, limit: nat) {
    && r.total == |Aggregation.Counted(c, fed)| == Sum(r.severityCounts)
    && r.severityCounts == Totals(c, fed).severityCounts
    && ReportsGroups(r, images, Totals(c, fed).groups, limit)
  }

  method Describe(images: Images, rows: seq<FindingReport.Row>, groups: map<string, Aggregation.Group>)
    returns (details: seq<GroupDetails.Detail>)
    requires forall r | r in rows :: r.key in groups
    ensures |details| == |rows|
    ensures forall i | 0 <= i < |rows| :: DescribesRow(details[i], images, rows[i], groups)
  {
    hide GroupDetails.IsDetail;
    details := [];
    for i := 0 to |rows|
      invariant |details| == i
      invariant forall j | 0 <= j < i :: DescribesRow(details[j], images, rows[j], groups)
    {
      var d := GroupDetails.ToDetail(images, rows[i].key, groups[rows[i].key]);
      details := details + [d];
    }
  }

  method ReportFindings(scan: CoverageScan, agg: Aggregation.Scan, ghost fed: seq<Aggregation.Finding>, limit: nat)
    returns (r: FindingsReport)
    requires InStep(scan, agg, fed)
    ensures ReportsFindings(r, agg.context, scan.images, fed, limit)
    ensures |Matched(scan.images)| == |KeysIn(Totals(agg.context, fed).matched)|
  {
    hide InStep, Totals, FindingReport.Lists, Aggregation.Counted, DescribesRow, Sum;
    StepTotals(scan, agg, fed);
    var groups, total := FindingReport.Finish(agg.groups, limit);
    ListedAreGroups(agg.groups, groups, limit);
    var details := Describe(scan.images, groups, agg.groups);
    r := FindingsReport(agg.total, agg.severityCounts, total, groups, details);
  }

  /** The aggregator's counts are those of the findings fed. */
  lemma StepTotals(scan: CoverageScan, agg: Aggregation.Scan, fed: seq<Aggregation.Finding>)
    requires InStep(scan, agg, fed)
    ensures agg.groups == Totals(agg.context, fed).groups
    ensures agg.severityCounts == Totals(agg.context, fed).severityCounts
    ensures agg.total == |Aggregation.Counted(agg.context, fed)| == Sum(agg.severityCounts)
    ensures |Matched(scan.images)| == |KeysIn(Totals(agg.context, fed).matched)|
  {
    hide Aggregation.Feed, Aggregation.Counted, IsContext;
    Aggregation.TotalsCountExactly(agg.context, Aggregation.NO_TOTALS, fed);
    assert Sum(map[]) == 0;
    assert agg.State() == Totals(agg.context, fed);
  }

  lemma ListedAreGroups(groups: map<string, Aggregation.Group>, rows: seq<FindingReport.Row>, limit: nat)
    requires exists all :: FindingReport.Lists(all, groups) && rows == FindingReport.Cap(all, limit)
    ensures forall r | r in rows :: r.key in groups
  {
  }

  lemma NothingFed(scan: CoverageScan, agg: Aggregation.Scan)
    requires Matched(scan.images) == {} && IsContext(agg.context, scan.images, scan.platforms)
    requires agg.Titled() && agg.State() == Aggregation.NO_TOTALS
    ensures InStep(scan, agg, [])
  {
    hide IsContext;
  }

  lemma CollectedUnmatched(site: Site, sightings: seq<Sighting>)
    ensures Matched(Registered(site, sightings)) == {}
  {
    hide Registered;
    forall k | k in Registered(site, sightings) ensures !Registered(site, sightings)[k].matched {
      CollectedFresh(site, sightings, k);
    }
  }

  /** Resolves the images and, if the budget lasted, queries the findings. */
  method Assess(scan: CoverageScan, groupBy: Aggregation.GroupBy, answers: Answers)
    returns (agg: Aggregation.Scan, resolved: bool, complete: bool, batches: nat, ghost fed: seq<Aggregation.Finding>)
    requires scan.Valid() && scan.done == {} && scan.recorded == {} && Matched(scan.images) == {}
    modifies scan
    ensures scan.Valid() && SameSites(old(scan.images), scan.images)
    ensures agg.context.groupBy == groupBy && InStep(scan, agg, fed) && StandsForImages(agg.context, scan.images)
    ensures resolved ==> forall k | k in InECR(scan.images) :: RepoOf(scan.images[k]) in scan.done
    ensures !resolved ==> fed == [] && !complete && exists r, b: nat :: answers.registry(r)(b).BudgetSpent?
    ensures resolved ==> |scan.status| <= batches * 10 < |scan.status| + 10
    ensures complete ==> fed == Flatten(PagesOf(answers.inspector, batches))
    ensures resolved ==> (complete <==> BatchesAnswered(answers.inspector, batches))
  {
    hide Inv, SameSites, Matched, IsContext, InStep, InECR, StandsForImages, FindingsOf, Flatten, PagesOf;
    ghost var start := scan.images;
    resolved := ResolveImages(scan, answers.registry, answers.repoGoesOn);
    complete, batches, fed := false, 0, [];
    PlatformsAreImages(scan.State(), scan.done, scan.recorded);
    var c := PlatformContext(groupBy, scan.images, scan.platforms);
    agg := new Aggregation.Scan(c);
    NothingFed(scan, agg);
    if resolved {
      ghost var middle := scan.images;
      complete, batches, fed := QueryFindings(scan, agg, answers.inspector, answers.batchGoesOn);
      if complete {
        AllPagesFed(answers.inspector, batches);
      }
      SitesCompose(start, middle, scan.images);
      SameSitesSameECR(middle, scan.images);
    }
    StepContext(scan, agg, fed);
    ContextIsExact(scan.State(), scan.done, scan.recorded, agg.context);
  }

  lemma StepContext(scan: CoverageScan, agg: Aggregation.Scan, fed: seq<Aggregation.Finding>)
    requires InStep(scan, agg, fed)
    ensures IsContext(agg.context, scan.images, scan.platforms)
  {
  }

  /**
   From the pods to the report, wherever the budget ends it. The running images split into ECR images and others;
   assessed, unscanned and unresolved images are ECR images, and all of them once every repository was resolved;
   images with findings are resolved ones. The findings counted are those of the batches, all of them if none was
   cut off, and totals, images with findings and groups are what these findings give.
   */
  method Execute(site: Site, pods: seq<Pod>, groupBy: Aggregation.GroupBy, limit: nat, answers: Answers)
    returns (o: Outcome, resolved: bool, complete: bool, batches: nat, c: Aggregation.Context, images: Images,
      ghost fed: seq<Aggregation.Finding>)
    ensures SameSites(Registered(site, Sightings(pods)), images)
    ensures c.groupBy == groupBy && StandsForImages(c, images)
    ensures o.runningImages == |images| == o.ecrImages + o.otherRegistryImages
    ensures o.ecrImages == |InECR(images)| && o.runningContainers == RunningContainers(pods)
    ensures ListsSome(o.otherRegistries, OtherHosts(site, Sightings(pods)))
    ensures var r := o.coverage;
            && r.platformImages == Sum(r.scanStatus)
            && r.assessedImages + r.unscannedImages + r.unresolvedImages <= o.ecrImages
            && (resolved ==> r.assessedImages + r.unscannedImages + r.unresolvedImages == o.ecrImages)
            && r.imagesWithFindings <= r.assessedImages + r.unscannedImages
            && r.imagesWithFindings == |KeysIn(Totals(c, fed).matched)|
    ensures ReportsFindings(o.findings, c, images, fed, limit)
    ensures !resolved ==> fed == [] && !complete && exists r, b: nat :: answers.registry(r)(b).BudgetSpent?
    ensures complete ==> fed == Flatten(PagesOf(answers.inspector, batches))
    ensures resolved ==>
      o.coverage.platformImages <= batches * 10 < o.coverage.platformImages + 10
    ensures resolved ==> (complete <==> BatchesAnswered(answers.inspector, batches))
  {
    hide Registered, Sightings, OtherHosts, RunningContainers, InECR, SameSites, Inv, Assessed, Unscanned, WithStatus,
      Matched, InStep, ListsSome, ReportsFindings, Sum, KeysIn, Totals, Flatten, PagesOf, StandsForImages;
    var collector := new Collector(site);
    var ecr, other, registries := collector.CollectPods(pods);
    var scan := new CoverageScan(site, Sightings(pods), collector.images);
    CollectedUnmatched(site, Sightings(pods));
    ghost var start := scan.images;
    var agg: Aggregation.Scan;
    agg, resolved, complete, batches, fed := Assess(scan, groupBy, answers);
    c, images := agg.context, scan.images;
    SameSitesSameECR(start, images);
    var coverage := scan.Finish();
    var findings := ReportFindings(scan, agg, fed, limit);
    assert |start| == |start.Keys| == |images.Keys| == |images| by {
      SameKeys(start, images);
    }
    o := Outcome(|images|, collector.runningContainers, ecr, other, registries, coverage, findings);
  }

  lemma SameKeys(s: Images, t: Images)
    requires SameSites(s, t)
    ensures |s| == |s.Keys| == |t.Keys| == |t|
  {
  }
}
