/** queryFindings: batch by batch, findings are counted as their pages come and statuses recorded at the end. */
module FindingQueries {
  import opened Options
  import opened Pages
  import opened RunningImages
  import opened Sequences
  import opened Coverage
  import opened CoverageAccount
  import opened CoverageRun
  import Aggregation = FindingAggregation
  import Permute = Permutations

  /** Inspector's limit on hashes per call. */
  const HASHES_PER_CALL := 10

  /** What a scan never changes about an image once it is collected. */
  predicate SameSites(s: Images, t: Images) {
    s.Keys == t.Keys &&
    forall k | k in s ::
      t[k] == s[k].(platforms := t[k].platforms, assessed := t[k].assessed, matched := t[k].matched)
  }

  lemma SameSitesSameECR(s: Images, t: Images)
    requires SameSites(s, t)
    ensures InECR(s) == InECR(t) <= s.Keys && forall k | k in s :: RepoOf(t[k]) == RepoOf(s[k])
    ensures forall r :: KeysOf(t, r) == KeysOf(s, r)
  {
    assert forall k | k in s :: t[k].registry == s[k].registry;
    forall r ensures KeysOf(t, r) == KeysOf(s, r) {
      assert forall k | k in s :: RepoOf(t[k]) == RepoOf(s[k]);
    }
  }

  lemma SitesAfterMerge(s: Images, t: Images, u: Images, repo: RepoKey, replies: nat -> Reply)
    requires SameSites(s, t) && RepoMerged(t, u, repo, replies)
    ensures SameSites(s, u) && Matched(u) == Matched(t)
  {
    assert SameImages(t, u);
  }

  lemma SitesAfterRecord(s: Images, t: Images, platforms: map<PlatformKey, set<string>>, asked: set<PlatformKey>,
    answers: seq<Covered>)
    requires SameSites(s, t)
    ensures SameSites(s, MadeAssessed(t, platforms, asked, answers))
    ensures Matched(MadeAssessed(t, platforms, asked, answers)) == Matched(t)
  {
  }

  lemma SitesAfterMark(s: Images, t: Images, keys: set<string>)
    requires SameSites(s, t) && Matched(t) <= keys <= t.Keys
    ensures SameSites(s, WithMatched(t, keys)) && Matched(WithMatched(t, keys)) == keys
  {
  }

  // ---------------------------------------------------------------- the statuses

  method KeysInOrder(status: map<PlatformKey, string>) returns (keys: seq<PlatformKey>)
    ensures Distinct(keys) && Elements(keys) == status.Keys
  {
    keys := [];
    var rest := status.Keys;
    while rest != {}
      invariant Distinct(keys) && Elements(keys) == status.Keys - rest && rest <= status.Keys
      decreases |rest|
    {
      var pk :| pk in rest;
      assert pk !in Elements(keys);
      ElementsConcat(keys, [pk]);
      assert Elements([pk]) == {pk};
      keys := keys + [pk];
      rest := rest - {pk};
    }
  }

  lemma SitesSame(images: Images)
    ensures SameSites(images, images)
  {
  }

  lemma InElements<T>(s: seq<T>)
    ensures forall x :: x in s <==> x in Elements(s)
  {
  }

  lemma KeysAnswered(status: map<PlatformKey, string>, asked: set<PlatformKey>, answers: seq<Covered>)
    ensures WithAnswers(status, asked, answers).Keys == status.Keys
  {
  }

  // ---------------------------------------------------------------- the findings

  predicate ShowsImage(images: Images, img: Aggregation.Image) {
    && img.key in images
    && img == Aggregation.Image(img.key, images[img.key].repo, images[img.key].digest, images[img.key].display)
  }

  function KeysIn(imgs: set<Aggregation.Image>): set<string> {
    set img | img in imgs :: img.key
  }

  /** The running images behind each platform image, as the findings are matched against them. */
  predicate IsContext(c: Aggregation.Context, images: Images, platforms: map<PlatformKey, set<string>>) {
    && c.platforms.Keys == platforms.Keys
    && (forall pk | pk in platforms :: pk in c.platforms && KeysIn(Elements(c.platforms[pk])) == platforms[pk])
    && (forall pk, img | pk in c.platforms && img in c.platforms[pk] :: ShowsImage(images, img))
  }

  method ImagesOn(images: Images, keys: set<string>) returns (imgs: seq<Aggregation.Image>)
    requires keys <= images.Keys
    ensures Stands(imgs, images, keys)
  {
    imgs := [];
    var rest := keys;
    while rest != {}
      invariant rest <= keys && KeysIn(Elements(imgs)) == keys - rest
      invariant forall img | img in imgs :: ShowsImage(images, img)
      decreases |rest|
    {
      var k :| k in rest;
      var img := Aggregation.Image(k, images[k].repo, images[k].digest, images[k].display);
      ElementsConcat(imgs, [img]);
      KeysOneMore(Elements(imgs), img);
      imgs := imgs + [img];
      rest := rest - {k};
    }
  }

  lemma KeysOneMore(imgs: set<Aggregation.Image>, img: Aggregation.Image)
    ensures KeysIn(imgs + Elements([img])) == KeysIn(imgs) + {img.key}
  {
    assert Elements([img]) == {img};
  }

  method PlatformContext(groupBy: Aggregation.GroupBy, images: Images, platforms: map<PlatformKey, set<string>>)
    returns (c: Aggregation.Context)
    requires forall pk | pk in platforms :: platforms[pk] <= images.Keys
    ensures c.groupBy == groupBy && IsContext(c, images, platforms)
  {
    hide ContextSoFar, IsContext;
    var rest, found := platforms.Keys, map[];
    NoContext(images, platforms);
    while rest != {}
      invariant rest <= platforms.Keys && ContextSoFar(found, images, platforms, platforms.Keys - rest)
      decreases |rest|
    {
      var pk :| pk in rest;
      var imgs := ImagesOn(images, platforms[pk]);
      ContextOneMore(found, images, platforms, platforms.Keys - rest, pk, imgs);
      assert platforms.Keys - rest + {pk} == platforms.Keys - (rest - {pk});
      found := found[pk := imgs];
      rest := rest - {pk};
    }
    assert platforms.Keys - {} == platforms.Keys;
    c := Aggregation.Context(groupBy, found);
    WholeContext(c, images, platforms);
  }

  predicate ContextSoFar(found: map<PlatformKey, seq<Aggregation.Image>>, images: Images,
    platforms: map<PlatformKey, set<string>>, seen: set<PlatformKey>) {
    && found.Keys == seen <= platforms.Keys
    && forall pk | pk in found :: Stands(found[pk], images, platforms[pk])
  }

  predicate Stands(imgs: seq<Aggregation.Image>, images: Images, keys: set<string>) {
    KeysIn(Elements(imgs)) == keys && forall img | img in imgs :: ShowsImage(images, img)
  }

  lemma NoContext(images: Images, platforms: map<PlatformKey, set<string>>)
    ensures ContextSoFar(map[], images, platforms, platforms.Keys - platforms.Keys)
  {
  }

  lemma ContextOneMore(found: map<PlatformKey, seq<Aggregation.Image>>, images: Images,
    platforms: map<PlatformKey, set<string>>, seen: set<PlatformKey>, pk: PlatformKey, imgs: seq<Aggregation.Image>)
    requires ContextSoFar(found, images, platforms, seen) && pk in platforms
    requires Stands(imgs, images, platforms[pk])
    ensures ContextSoFar(found[pk := imgs], images, platforms, seen + {pk})
  {
    hide Stands;
  }

  lemma WholeContext(c: Aggregation.Context, images: Images, platforms: map<PlatformKey, set<string>>)
    requires ContextSoFar(c.platforms, images, platforms, platforms.Keys)
    ensures IsContext(c, images, platforms)
  {
    hide KeysIn, ShowsImage;
    forall pk | pk in c.platforms ensures Stands(c.platforms[pk], images, platforms[pk]) {
    }
  }

  predicate HasPlatform(images: Images, k: string, pk: PlatformKey) {
    && k in images && images[k].platforms.Some?
    && pk.digest in images[k].platforms.value
    && pk.registry == images[k].registry && pk.repo == images[k].repo
  }

  predicate Carries(c: Aggregation.Context, pk: PlatformKey, k: string) {
    pk in c.platforms && k in KeysIn(Elements(c.platforms[pk]))
  }

  /** Findings on a platform image are findings on exactly the running images it was resolved from. */
  ghost predicate StandsForImages(c: Aggregation.Context, images: Images) {
    && (forall pk, k :: Carries(c, pk, k) <==> HasPlatform(images, k, pk))
    && (forall pk, img | pk in c.platforms && img in c.platforms[pk] :: ShowsImage(images, img))
  }

  lemma ContextIsExact(s: Scan, done: set<RepoKey>, recorded: set<PlatformKey>, c: Aggregation.Context)
    requires Inv(s, done, recorded) && IsContext(c, s.images, s.platforms)
    ensures StandsForImages(c, s.images)
  {
    hide KeysIn, Elements, ShowsImage;
    forall pk, k ensures Carries(c, pk, k) <==> HasPlatform(s.images, k, pk) {
      if HasPlatform(s.images, k, pk) {
        assert ImageOk(s, done, k);
      }
      if Carries(c, pk, k) {
        assert Belongs(s, k, pk);
      }
    }
  }

  lemma SameContext(c: Aggregation.Context, s: Images, t: Images, platforms: map<PlatformKey, set<string>>)
    requires IsContext(c, s, platforms) && SameSites(s, t)
    ensures IsContext(c, t, platforms)
  {
    hide KeysIn, Elements;
    forall pk, img | pk in c.platforms && img in c.platforms[pk] ensures ShowsImage(t, img) {
      assert ShowsImage(s, img);
    }
  }

  lemma PlatformsAreImages(s: Scan, done: set<RepoKey>, recorded: set<PlatformKey>)
    requires Inv(s, done, recorded)
    ensures forall pk | pk in s.platforms :: s.platforms[pk] <= s.images.Keys
  {
    forall pk, k | pk in s.platforms && k in s.platforms[pk] ensures k in s.images {
      assert Belongs(s, k, pk);
    }
  }

  lemma {:induction false} FoundOnPlatform(c: Aggregation.Context, resources: seq<Option<PlatformKey>>,
    img: Aggregation.Image)
    requires img in Aggregation.ImagesOf(c, resources)
    ensures exists pk | pk in c.platforms :: img in c.platforms[pk]
  {
    if resources != [] && img in Aggregation.ImagesOf(c, resources[..|resources| - 1]) {
      FoundOnPlatform(c, resources[..|resources| - 1], img);
    }
  }

  /** The images findings were counted on are images of the scan, and resolved. */
  lemma MatchedAreOnPlatforms(s: Scan, done: set<RepoKey>, recorded: set<PlatformKey>, c: Aggregation.Context,
    fed: seq<Aggregation.Finding>)
    requires Inv(s, done, recorded) && IsContext(c, s.images, s.platforms)
    ensures forall k | k in KeysIn(Totals(c, fed).matched) :: k in s.images && s.images[k].platforms.Some?
  {
    hide Aggregation.Feed, Aggregation.ImagesOf;
    var matched := Totals(c, fed).matched;
    forall img | img in matched ensures img.key in s.images && s.images[img.key].platforms.Some? {
      Aggregation.MatchedExactly(c, Aggregation.NO_TOTALS, fed, img);
      var f :| f in fed && img in Aggregation.ImagesOf(c, f.resources);
      FoundOnPlatform(c, f.resources, img);
      var pk :| pk in c.platforms && img in c.platforms[pk];
      assert img in Elements(c.platforms[pk]);
      assert img.key in s.platforms[pk];
      assert Belongs(s, img.key, pk);
    }
  }

  // ---------------------------------------------------------------- one batch

  /**
   What Inspector says to one batch: its coverage, unless the budget ends there, and pages of findings, which the
   budget may cut short.
   */
  datatype BatchReply = BatchReply(
    coverage: Option<seq<Covered>>,
    pages: Pages<Aggregation.Finding>,
    finished: bool)
  {
    predicate Answered() {
      coverage.Some? && finished
    }
  }

  /** The findings that come in with a batch, counted as they come whether or not the batch is finished. */
  function FindingsIn(r: BatchReply): seq<Aggregation.Finding> {
    if r.coverage.Some? then Flatten(r.pages) else []
  }

  function Totals(c: Aggregation.Context, fed: seq<Aggregation.Finding>): Aggregation.Totals {
    Aggregation.Feed(c, Aggregation.NO_TOTALS, fed)
  }

  /** The aggregator holds the totals of the findings fed, and exactly its images are marked in the scan. */
  ghost predicate InStep(scan: CoverageScan, agg: Aggregation.Scan, fed: seq<Aggregation.Finding>)
    reads scan, agg
  {
    && IsContext(agg.context, scan.images, scan.platforms)
    && agg.Titled() && agg.State() == Totals(agg.context, fed)
    && Matched(scan.images) == KeysIn(agg.matched)
  }

  method FeedBatch(scan: CoverageScan, agg: Aggregation.Scan, r: BatchReply, ghost fed: seq<Aggregation.Finding>)
    requires scan.Valid() && InStep(scan, agg, fed) && r.coverage.Some?
    modifies scan`images, agg
    ensures scan.Valid() && InStep(scan, agg, fed + FindingsIn(r)) && SameSites(old(scan.images), scan.images)
  {
    hide IsContext, Totals, Inv, SameSites, Matched, WithMatched, KeysIn, Aggregation.Feed, Aggregation.Labels,
      Aggregation.TitlesOk;
    assert fed + Flatten(r.pages[..0]) == fed;
    for i := 0 to |r.pages|
      invariant agg.Titled() && agg.State() == Totals(agg.context, fed + Flatten(r.pages[..i]))
      modifies agg
    {
      FedOnePage(agg.context, fed, r.pages, i);
      agg.AddPage(r.pages[i]);
    }
    assert r.pages[..|r.pages|] == r.pages;
    ghost var all := fed + Flatten(r.pages);
    assert agg.State().matched == Totals(agg.context, all).matched && scan.State().images == scan.images;
    MatchedAreOnPlatforms(scan.State(), scan.done, scan.recorded, agg.context, all);
    MoreMatched(agg.context, fed, Flatten(r.pages));
    SitesSame(scan.images);
    MarkIsExact(scan.images, KeysIn(agg.matched));
    SameContext(agg.context, scan.images, WithMatched(scan.images, KeysIn(agg.matched)), scan.platforms);
    scan.MarkMatched(KeysIn(agg.matched));
  }

  lemma MarkIsExact(images: Images, keys: set<string>)
    requires Matched(images) <= keys && forall k | k in keys :: k in images
    ensures SameSites(images, WithMatched(images, keys)) && Matched(WithMatched(images, keys)) == keys
  {
    SitesAfterMark(images, images, keys);
  }

  lemma FedOnePage(c: Aggregation.Context, fed: seq<Aggregation.Finding>, pages: Pages<Aggregation.Finding>, i: nat)
    requires i < |pages|
    ensures Totals(c, fed + Flatten(pages[..i + 1]))
         == Aggregation.Feed(c, Totals(c, fed + Flatten(pages[..i])), pages[i])
  {
    assert pages[..i + 1][..i] == pages[..i];
    assert fed + Flatten(pages[..i + 1]) == fed + Flatten(pages[..i]) + pages[i];
    Permute.FoldConcat(Aggregation.Adder(c), Aggregation.NO_TOTALS, fed + Flatten(pages[..i]), pages[i]);
  }

  lemma MoreMatched(c: Aggregation.Context, fed: seq<Aggregation.Finding>, more: seq<Aggregation.Finding>)
    ensures KeysIn(Totals(c, fed).matched) <= KeysIn(Totals(c, fed + more).matched)
  {
    hide Aggregation.Feed, Aggregation.ImagesOf;
    forall img | img in Totals(c, fed).matched ensures img in Totals(c, fed + more).matched {
      Aggregation.MatchedExactly(c, Aggregation.NO_TOTALS, fed, img);
      Aggregation.MatchedExactly(c, Aggregation.NO_TOTALS, fed + more, img);
    }
  }

  /** One batch: its findings are counted as they come, its statuses recorded at the end. */
  method RunBatch(scan: CoverageScan, agg: Aggregation.Scan, batch: seq<PlatformKey>, r: BatchReply,
    ghost fed: seq<Aggregation.Finding>)
    requires scan.Valid() && InStep(scan, agg, fed) && r.coverage.Some?
    requires Distinct(batch) && forall pk | pk in batch :: pk in scan.status && pk !in scan.recorded
    modifies scan`status, scan`images, scan`recorded, agg
    ensures scan.Valid() && InStep(scan, agg, fed + FindingsIn(r)) && SameSites(old(scan.images), scan.images)
    ensures scan.status.Keys == old(scan.status).Keys
    ensures scan.recorded == old(scan.recorded) + if r.finished then Elements(batch) else {}
  {
    hide IsContext, Totals, Inv, SameSites, Matched, MadeAssessed, WithAnswers, KeysIn, Distinct, Elements, StatusIn,
      Aggregation.TitlesOk;
    ghost var images := scan.images;
    FeedBatch(scan, agg, r, fed);
    if r.finished {
      ghost var before, status := scan.images, scan.status;
      scan.RecordBatch(batch, r.coverage.value);
      KeysAnswered(status, Elements(batch), r.coverage.value);
      SitesSame(before);
      SitesAfterRecord(before, before, scan.platforms, Elements(batch), r.coverage.value);
      SitesAfterRecord(images, before, scan.platforms, Elements(batch), r.coverage.value);
      SameContext(agg.context, before, scan.images, scan.platforms);
    }
  }

  lemma KeysCount(keys: seq<PlatformKey>, status: map<PlatformKey, string>)
    requires Distinct(keys) && Elements(keys) == status.Keys
    ensures |keys| == |status|
  {
    DistinctSize(keys);
    assert |status.Keys| == |status|;
  }

  /** The findings of the first n batches. */
  function FindingsOf(replies: nat -> BatchReply, n: nat): seq<Aggregation.Finding> {
    if n == 0 then [] else FindingsOf(replies, n - 1) + FindingsIn(replies(n - 1))
  }

  /** All pages of the first n batches. */
  function PagesOf(replies: nat -> BatchReply, n: nat): Pages<Aggregation.Finding> {
    if n == 0 then [] else PagesOf(replies, n - 1) + replies(n - 1).pages
  }

  lemma {:induction false} AllPagesFed(replies: nat -> BatchReply, n: nat)
    requires forall b | 0 <= b < n :: replies(b).coverage.Some? && replies(b).finished
    ensures FindingsOf(replies, n) == Flatten(PagesOf(replies, n))
  {
    if n > 0 {
      AllPagesFed(replies, n - 1);
      FlattenConcat(PagesOf(replies, n - 1), replies(n - 1).pages);
    }
  }

  lemma NoBatches(replies: nat -> BatchReply)
    ensures FindingsOf(replies, 0) == [] && BatchesAnswered(replies, 0)
  {
  }

  lemma OneBatchOn(replies: nat -> BatchReply, n: nat)
    ensures FindingsOf(replies, n + 1) == FindingsOf(replies, n) + FindingsIn(replies(n))
    ensures BatchesAnswered(replies, n + 1) <==> BatchesAnswered(replies, n) && replies(n).Answered()
  {
  }

  predicate BatchesAnswered(replies: nat -> BatchReply, n: nat) {
    forall b | 0 <= b < n :: replies(b).coverage.Some? && replies(b).finished
  }

  /**
   Batches of platform images, each answered or cut off by the budget; once one was cut off some later ones may
   still be finished by other workers (`goesOn`). `fed` are the findings counted, `batches` how many batches there are.
   */
  method QueryFindings(scan: CoverageScan, agg: Aggregation.Scan, replies: nat -> BatchReply, goesOn: nat -> bool)
    returns (ok: bool, batches: nat, ghost fed: seq<Aggregation.Finding>)
    requires scan.Valid() && scan.recorded == {} && InStep(scan, agg, [])
    modifies scan`status, scan`images, scan`recorded, agg
    ensures scan.Valid() && SameSites(old(scan.images), scan.images) && scan.status.Keys == old(scan.status).Keys
    ensures InStep(scan, agg, fed)
    ensures |scan.status| <= batches * 10 < |scan.status| + 10
    ensures ok ==> scan.recorded == scan.status.Keys && fed == FindingsOf(replies, batches)
    ensures ok <==> BatchesAnswered(replies, batches)
  {
    hide SameSites, Inv, MadeAssessed, WithAnswers, Distinct, Elements, StatusIn, Matched, InStep, FindingsIn,
      FindingsOf, BatchesAnswered;
    ghost var images, statuses := scan.images, scan.status.Keys;
    SitesSame(images);
    var keys := KeysInOrder(scan.status);
    KeysCount(keys, scan.status);
    var start := 0;
    batches, fed := 0, [];
    NoElements(keys);
    ok := true;
    NoBatches(replies);
    while start < |keys|
      invariant 0 <= start <= |keys| && start <= batches * HASHES_PER_CALL
      invariant batches * HASHES_PER_CALL < start + HASHES_PER_CALL
      invariant start < |keys| ==> start == batches * HASHES_PER_CALL
      invariant scan.Valid() && SameSites(images, scan.images) && scan.status.Keys == statuses
      invariant InStep(scan, agg, fed)
      invariant scan.recorded <= Elements(keys[..start])
      invariant ok ==> scan.recorded == Elements(keys[..start]) && fed == FindingsOf(replies, batches)
      invariant ok <==> BatchesAnswered(replies, batches)
    {
      var end := if start + HASHES_PER_CALL < |keys| then start + HASHES_PER_CALL else |keys|;
      var batch, r := keys[start..end], replies(batches);
      BatchOf(keys, start, end);
      InElements(keys);
      if r.coverage.Some? && (ok || goesOn(batches)) {
        ghost var before := scan.images;
        RunBatch(scan, agg, batch, r, fed);
        SitesCompose(images, before, scan.images);
        fed := fed + FindingsIn(r);
      }
      OneBatchOn(replies, batches);
      if !r.Answered() {
        ok := false;
      }
      start := end;
      batches := batches + 1;
    }
    assert keys[..|keys|] == keys;
  }

  lemma SitesCompose(s: Images, t: Images, u: Images)
    requires SameSites(s, t) && (SameSites(t, u) || t == u)
    ensures SameSites(s, u) && SameSites(t, u)
  {
  }
}
