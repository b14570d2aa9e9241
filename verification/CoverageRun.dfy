/**
 The steps that move the coverage state: one repository resolved and merged, one batch of statuses recorded, and
 the final count. Workers run them in any order; each holds the scan's lock while it updates the shared fields.
 */
module CoverageRun {
  import opened Options
  import opened Tally
  import opened RunningImages
  import opened Sequences
  import opened Coverage
  import opened CoverageAccount

  /** A resource in ListCoverage's answer; None if its ID is not one asked for. */
  datatype Covered = Covered(pk: Option<PlatformKey>, hasStatus: bool, code: string, reason: string)

  function StatusText(c: Covered): string {
    if c.reason != "" && c.reason != "SUCCESSFUL" then c.code + "/" + c.reason else c.code
  }

  /** The last answer about a platform image, or NOT_COVERED without one. */
  function StatusIn(answers: seq<Covered>, pk: PlatformKey): string {
    if answers == [] then NOT_COVERED
    else
      var last := answers[|answers| - 1];
      if last.pk == Some(pk) && last.hasStatus then StatusText(last) else StatusIn(answers[..|answers| - 1], pk)
  }

  method CoverageOf(batch: seq<PlatformKey>, answers: seq<Covered>) returns (status: map<PlatformKey, string>)
    ensures status.Keys == Elements(batch)
    ensures forall pk | pk in batch :: pk in status && status[pk] == StatusIn(answers, pk)
  {
    status := map pk | pk in batch :: NOT_COVERED;
    for i := 0 to |answers|
      invariant status.Keys == Elements(batch)
      invariant forall pk | pk in batch :: status[pk] == StatusIn(answers[..i], pk)
    {
      assert answers[..i + 1][..i] == answers[..i];
      var r := answers[i];
      if r.pk.None? || r.pk.value !in status || !r.hasStatus {
        continue;
      }
      status := status[r.pk.value := StatusText(r)];
    }
    assert answers[..|answers|] == answers;
  }

  /** Everything about an image that resolving it leaves alone. */
  predicate SameImages(s: Images, t: Images) {
    s.Keys == t.Keys && forall k | k in s :: t[k] == s[k].(platforms := t[k].platforms)
  }

  function KeysOf(images: Images, repo: RepoKey): set<string> {
    set k | k in images && RepoOf(images[k]) == repo
  }

  datatype Report = Report(
    platformImages: nat,
    scanStatus: Counts,
    assessedImages: nat,
    unscannedImages: nat,
    unresolvedImages: nat,
    imagesWithFindings: nat)

  function WithStatus(status: map<PlatformKey, string>, st: string): set<PlatformKey> {
    set pk | pk in status && status[pk] == st
  }

  /** These platforms are what some answer's manifest for the digest says. */
  ghost predicate Answered(replies: nat -> Reply, digest: string, platforms: seq<string>) {
    exists b: nat :: replies(b).Answer? && FoundIn(replies(b).found, digest, platforms)
  }

  ghost predicate AllAnswered(images: Images, replies: nat -> Reply, found: Found) {
    forall k | k in found :: k in images && found[k] != [] && Answered(replies, images[k].digest, found[k])
  }

  lemma BatchAnswered(images: Images, batch: seq<string>, replies: nat -> Reply, b: nat, before: Found, after: Found)
    requires replies(b).Answer? && AddsFrom(images, batch, replies(b).found, before, after)
    requires AllAnswered(images, replies, before)
    ensures AllAnswered(images, replies, after) && after.Keys <= before.Keys + Elements(batch)
  {
    forall k | k in after ensures k in images && after[k] != [] && Answered(replies, images[k].digest, after[k]) {
      if k in before {
        assert after[k] == before[k];
      }
    }
  }

  /** What a merged repository looks like: its images have answered platforms or none, the others are as before. */
  ghost predicate RepoMerged(before: Images, after: Images, repo: RepoKey, replies: nat -> Reply) {
    && SameImages(before, after)
    && forall k | k in before ::
         if k in KeysOf(before, repo) then
           after[k].platforms.Some? ==> Answered(replies, before[k].digest, after[k].platforms.value)
         else after[k] == before[k]
  }

  lemma MergingIsRepoMerged(before: Images, after: Images, repo: RepoKey, replies: nat -> Reply, found: Found)
    requires Merging(before, after, found, {}) && AllAnswered(before, replies, found)
    requires found.Keys <= KeysOf(before, repo)
    requires forall k | k in KeysOf(before, repo) :: before[k].platforms.None?
    ensures RepoMerged(before, after, repo, replies)
  {
  }

  /** Midway through a merge: the found images not in `rest` have their platforms, all others are as before. */
  predicate Merging(before: Images, now: Images, found: Found, rest: set<string>) {
    && SameImages(before, now)
    && forall k | k in before ::
         now[k].platforms == if k in found && k !in rest then Some(found[k]) else before[k].platforms
  }

  lemma MergeStart(s: Scan, done: set<RepoKey>, recorded: set<PlatformKey>, repo: RepoKey, found: Found)
    requires Ok(s, done, recorded) && repo !in done
    ensures Ok(s, done + {repo}, recorded)
    ensures Merging(s.images, s.images, found, found.Keys)
    ensures forall k | k in KeysOf(s.images, repo) :: s.images[k].platforms.None?
    ensures forall pk | pk in recorded :: RepoOfKey(pk) != repo
  {
    forall k | k in s.images ensures ImageOk(s, done + {repo}, k) {
      assert ImageOk(s, done, k);
    }
  }

  lemma MergeStep(before: Images, s: Scan, done: set<RepoKey>, recorded: set<PlatformKey>, repo: RepoKey, found: Found,
    rest: set<string>, k: string)
    requires Ok(s, done, recorded) && Merging(before, s.images, found, rest)
    requires repo in done && repo.registry != "" && forall pk | pk in recorded :: RepoOfKey(pk) != repo
    requires found.Keys <= KeysOf(before, repo) && forall j | j in KeysOf(before, repo) :: before[j].platforms.None?
    requires k in rest && k in found && found[k] != []
    ensures k in s.images
    ensures var t := Attach(s, k, found[k]);
            && Ok(t, done, recorded) && Merging(before, t.images, found, rest - {k})
            && t.unresolved == s.unresolved
  {
    assert k in KeysOf(before, repo);
    assert RepoOf(s.images[k]) == RepoOf(before[k]);
    AttachKeepsOk(s, done, recorded, k, found[k]);
  }

  lemma MergedOne(before: Images, after: Images, done: set<RepoKey>, repo: RepoKey, found: Found, k: string)
    requires Merging(before, after, found, {}) && repo !in done && found.Keys <= KeysOf(before, repo)
    requires forall j | j in KeysOf(before, repo) :: before[j].platforms.None?
    ensures k in Unresolved(after, done + {repo})
            <==> k in Unresolved(before, done) || (k in KeysOf(before, repo) && k !in found)
  {
  }

  lemma UnresolvedElsewhere(images: Images, done: set<RepoKey>, repo: RepoKey)
    requires repo !in done
    ensures Unresolved(images, done) !! KeysOf(images, repo)
  {
  }

  lemma Sizes(left: set<string>, mine: set<string>, found: set<string>)
    requires left !! mine && found <= mine
    ensures |left + (mine - found)| == |left| + |mine| - |found|
  {
    assert mine == found + (mine - found);
  }

  /** Merging a repository leaves as many more images unresolved as were not found. */
  lemma MergedUnresolved(before: Images, after: Images, done: set<RepoKey>, repo: RepoKey, found: Found)
    requires Merging(before, after, found, {}) && repo !in done && found.Keys <= KeysOf(before, repo)
    requires forall j | j in KeysOf(before, repo) :: before[j].platforms.None?
    ensures |Unresolved(after, done + {repo})| == |Unresolved(before, done)| + |KeysOf(before, repo)| - |found|
  {
    hide *;
    var left, mine := Unresolved(before, done), KeysOf(before, repo);
    UnresolvedElsewhere(before, done, repo);
    forall k ensures k in Unresolved(after, done + {repo}) <==> k in left || (k in mine && k !in found) {
      MergedOne(before, after, done, repo, found, k);
    }
    assert Unresolved(after, done + {repo}) == left + (mine - found.Keys);
    Sizes(left, mine, found.Keys);
    assert |found.Keys| == |found|;
  }

  lemma MergedInv(s: Scan, t: Scan, done: set<RepoKey>, recorded: set<PlatformKey>, repo: RepoKey, keys: seq<string>,
    found: Found,
    missing: nat)
    requires Inv(s, done, recorded) && repo.registry != "" && Ok(t, done + {repo}, recorded)
    requires |Unresolved(t.images, done + {repo})| == |Unresolved(s.images, done)| + |KeysOf(s.images, repo)| - |found|
    requires Distinct(keys) && Elements(keys) == KeysOf(s.images, repo) && missing + |found| == |keys|
    requires t.unresolved == s.unresolved
    ensures Inv(t.(unresolved := t.unresolved + missing), done + {repo}, recorded)
  {
    DistinctSize(keys);
    var u := t.(unresolved := t.unresolved + missing);
    forall k | k in u.images ensures ImageOk(u, done + {repo}, k) {
      assert ImageOk(t, done + {repo}, k);
    }
    forall pk, k | pk in u.platforms && k in u.platforms[pk] ensures Belongs(u, k, pk) {
      assert Belongs(t, k, pk);
    }
  }

  class CoverageScan {
    var images: Images
    var platforms: map<PlatformKey, set<string>>
    var status: map<PlatformKey, string>
    var unresolved: nat
    ghost var done: set<RepoKey>
    ghost var recorded: set<PlatformKey>

    constructor (site: Site, ghost sightings: seq<Sighting>, images: Images)
      requires images == Registered(site, sightings)
      ensures this.images == images && Valid() && done == {} && recorded == {}
    {
      this.images := images;
      platforms, status, unresolved, done, recorded := map[], map[], 0, {}, {};
      new;
      StartOk(site, sightings);
    }

    function State(): Scan
      reads this
    {
      Scan(images, platforms, status, unresolved)
    }

    ghost predicate Valid()
      reads this
    {
      Inv(State(), done, recorded)
    }

    /** resolveRepo's batches: what BatchGetImage says about the images, up to 100 at a time. */
    method LookUp(keys: seq<string>, replies: nat -> Reply) returns (ok: bool, found: Found, missing: nat)
      requires Distinct(keys) && forall k | k in keys :: k in images
      ensures ok ==> found.Keys <= Elements(keys) && missing + |found| == |keys| && AllAnswered(images, replies, found)
      ensures !ok ==> exists b: nat :: replies(b).BudgetSpent?
    {
      hide Distinct, AddsFrom, FindsAll, Elements, Answered;
      found, missing := map[], 0;
      NoElements(keys);
      var start, batchNo := 0, 0;
      while start < |keys|
        invariant 0 <= start <= |keys|
        invariant found.Keys <= Elements(keys[..start]) && missing + |found| == start
        invariant AllAnswered(images, replies, found)
      {
        var end := if start + ECR_BATCH < |keys| then start + ECR_BATCH else |keys|;
        var batch := keys[start..end];
        BatchOf(keys, start, end);
        assert 0 < |batch| <= 100;
        match replies(batchNo) {
          case BudgetSpent =>
            assert replies(batchNo).BudgetSpent?;
            return false, map[], 0;
          case Denied => missing := missing + |batch|;
          case Answer(images') =>
            var n, after := ResolveBatch(images, batch, images', found);
            BatchAnswered(images, batch, replies, batchNo, found, after);
            missing := missing + n;
            found := after;
        }
        start := end;
        batchNo := batchNo + 1;
      }
      assert keys[..|keys|] == keys;
      ok := true;
    }

    /** Nothing of a repository is merged unless all of it was looked up. */
    method ResolveRepo(repo: RepoKey, keys: seq<string>, replies: nat -> Reply) returns (ok: bool)
      requires Valid() && repo !in done && repo.registry != ""
      requires Distinct(keys) && Elements(keys) == KeysOf(images, repo)
      modifies this
      ensures Valid() && recorded == old(recorded)
      ensures ok ==> done == old(done) + {repo} && RepoMerged(old(images), images, repo, replies)
      ensures !ok ==> State() == old(State()) && done == old(done) && exists b: nat :: replies(b).BudgetSpent?
    {
      hide Ok, Unresolved, Distinct, SameImages, Merging, Answered, AllAnswered, RepoMerged;
      var found: Found, missing: nat;
      assert forall k | k in keys :: k in KeysOf(images, repo);
      ok, found, missing := LookUp(keys, replies);
      if !ok {
        return;
      }
      ghost var before := State();
      MergeStart(State(), done, recorded, repo, found);
      AnsweredNonEmpty(images, replies, found);
      Merge(repo, found);
      MergingIsRepoMerged(before.images, images, repo, replies, found);
      MergedInv(before, State(), old(done), recorded, repo, keys, found, missing);
      unresolved := unresolved + missing;
    }

    /** Attaches the found platforms to the repository's images, one image at a time. */
    method Merge(repo: RepoKey, found: Found)
      requires Valid() && repo !in done && repo.registry != ""
      requires found.Keys <= KeysOf(images, repo) && forall k | k in found :: found[k] != []
      modifies this`images, this`platforms, this`status, this`done
      ensures done == old(done) + {repo} && Ok(State(), done, recorded) && Merging(old(images), images, found, {})
      ensures |Unresolved(images, done)| == |Unresolved(old(images), old(done))| + |KeysOf(old(images), repo)| - |found|
    {
      hide Ok, Unresolved, KeysOf, Merging, Attach, SameImages;
      ghost var before := images;
      MergeStart(State(), done, recorded, repo, found);
      done := done + {repo};
      var rest := found.Keys;
      while rest != {}
        invariant rest <= found.Keys && done == old(done) + {repo}
        invariant Ok(State(), done, recorded) && Merging(before, images, found, rest)
        decreases |rest|
      {
        var k :| k in rest;
        MergeStep(before, State(), done, recorded, repo, found, rest, k);
        var next := Attach(State(), k, found[k]);
        images, platforms, status := next.images, next.platforms, next.status;
        rest := rest - {k};
      }
      MergedUnresolved(before, images, old(done), repo, found);
    }

    /** One finished batch of platform images: its statuses, and which running images they make assessed. */
    method RecordBatch(batch: seq<PlatformKey>, answers: seq<Covered>)
      requires Valid() && Distinct(batch) && forall pk | pk in batch :: pk in status && pk !in recorded
      modifies this`status, this`images, this`recorded
      ensures Valid() && recorded == old(recorded) + Elements(batch)
      ensures status == WithAnswers(old(status), Elements(batch), answers)
      ensures images == MadeAssessed(old(images), platforms, Elements(batch), answers)
    {
      hide Inv, Record, StatusIn, Distinct, MadeAssessed, WithAnswers, Elements;
      var found := CoverageOf(batch, answers);
      ghost var before, was := State(), recorded;
      RecordedNone(before, was, batch, answers);
      for i := 0 to |batch|
        invariant Valid() && RecordedSoFar(before, was, State(), recorded, Elements(batch[..i]), answers)
      {
        var pk := batch[i];
        assert pk in batch && found[pk] == StatusIn(answers, pk);
        NotAmongEarlier(batch, i);
        ElementsGrow(batch, i);
        RecordedKeeps(before, was, State(), recorded, Elements(batch[..i]), answers, pk);
        RecordKeepsInv(State(), done, recorded, pk, found[pk]);
        RecordedOneMore(before, was, State(), recorded, Elements(batch[..i]), answers, pk);
        var next := Record(State(), pk, found[pk]);
        status, images := next.status, next.images;
        recorded := recorded + {pk};
      }
      assert batch[..|batch|] == batch;
    }

    /** Some findings are on these images. */
    method MarkMatched(keys: set<string>)
      requires Valid() && forall k | k in keys && k in images :: images[k].platforms.Some?
      modifies this`images
      ensures Valid() && images == WithMatched(old(images), keys)
    {
      MarkKeepsInv(State(), done, recorded, keys);
      images := WithMatched(images, keys);
    }

    /** The report's counts. */
    method Finish() returns (r: Report)
      requires Valid()
      ensures r.platformImages == |status| == Sum(r.scanStatus)
      ensures forall st :: Count(r.scanStatus, st) == |WithStatus(status, st)|
      ensures r.assessedImages == |Assessed(images)| && r.unscannedImages == |Unscanned(images)|
      ensures r.unresolvedImages == unresolved && r.imagesWithFindings == |Matched(images)|
      ensures r.imagesWithFindings <= r.assessedImages + r.unscannedImages
      ensures r.assessedImages + r.unscannedImages + r.unresolvedImages <= |InECR(images)|
      ensures r.assessedImages + r.unscannedImages + r.unresolvedImages == |InECR(images)|
              <==> forall k | k in InECR(images) :: RepoOf(images[k]) in done
    {
      var scanStatus := CountStatuses(status);
      var assessed, unscanned, withFindings := CountScanned(images);
      MatchedAreResolved(State(), done, recorded);
      CoverageAddsUp(State(), done, recorded);
      return Report(|status|, scanStatus, assessed, unscanned, unresolved, withFindings);
    }
  }

  lemma NoElements<T>(s: seq<T>)
    ensures Elements(s[..0]) == {}
  {
  }

  lemma BatchOf<T>(s: seq<T>, start: nat, end: nat)
    requires Distinct(s) && start <= end <= |s|
    ensures Distinct(s[start..end])
    ensures forall k | k in s[start..end] :: k in s && k !in Elements(s[..start])
    ensures Elements(s[..end]) == Elements(s[..start]) + Elements(s[start..end])
  {
    assert s[..end] == s[..start] + s[start..end];
  }

  lemma AnsweredNonEmpty(images: Images, replies: nat -> Reply, found: Found)
    requires AllAnswered(images, replies, found)
    ensures forall k | k in found :: found[k] != []
  {
  }

  function WithAnswers(status: map<PlatformKey, string>, asked: set<PlatformKey>,
    answers: seq<Covered>): map<PlatformKey, string> {
    map pk | pk in status :: if pk in asked then StatusIn(answers, pk) else status[pk]
  }

  /** Some platform image of image k is among these and answered with a status that is no gap. */
  predicate Hit(platforms: map<PlatformKey, set<string>>, asked: set<PlatformKey>, answers: seq<Covered>, k: string) {
    exists pk | pk in asked :: pk in platforms && k in platforms[pk] && !IsGap(StatusIn(answers, pk))
  }

  /** The images with those hit marked as assessed, and nothing else changed. */
  function MadeAssessed(images: Images, platforms: map<PlatformKey, set<string>>, asked: set<PlatformKey>,
    answers: seq<Covered>): Images
  {
    map k | k in images :: images[k].(assessed := images[k].assessed || Hit(platforms, asked, answers, k))
  }

  lemma NoneMadeAssessed(images: Images, platforms: map<PlatformKey, set<string>>, answers: seq<Covered>)
    ensures MadeAssessed(images, platforms, {}, answers) == images
  {
  }

  lemma HitOneMore(platforms: map<PlatformKey, set<string>>, asked: set<PlatformKey>, pk: PlatformKey,
    answers: seq<Covered>, k: string)
    ensures Hit(platforms, asked + {pk}, answers, k)
            <==> Hit(platforms, asked, answers, k)
                 || (pk in platforms && k in platforms[pk] && !IsGap(StatusIn(answers, pk)))
  {
  }

  lemma OneMadeAssessed(before: Images, s: Scan, asked: set<PlatformKey>, pk: PlatformKey, answers: seq<Covered>)
    requires s.images == MadeAssessed(before, s.platforms, asked, answers) && pk in s.status && pk in s.platforms
    ensures Record(s, pk, StatusIn(answers, pk)).images == MadeAssessed(before, s.platforms, asked + {pk}, answers)
  {
    hide Hit, StatusIn, IsGap;
    forall k | k in before
      ensures Record(s, pk, StatusIn(answers, pk)).images[k]
           == MadeAssessed(before, s.platforms, asked + {pk}, answers)[k]
    {
      HitOneMore(s.platforms, asked, pk, answers, k);
    }
  }

  /** Part of a batch is recorded: these platform images have their answers, and their images are marked. */
  predicate RecordedSoFar(before: Scan, was: set<PlatformKey>, now: Scan, recorded: set<PlatformKey>,
    asked: set<PlatformKey>, answers: seq<Covered>)
  {
    && recorded == was + asked
    && now.platforms == before.platforms && now.unresolved == before.unresolved
    && now.status == WithAnswers(before.status, asked, answers)
    && now.images == MadeAssessed(before.images, before.platforms, asked, answers)
  }

  lemma RecordedNone(s: Scan, recorded: set<PlatformKey>, batch: seq<PlatformKey>, answers: seq<Covered>)
    ensures RecordedSoFar(s, recorded, s, recorded, Elements(batch[..0]), answers)
  {
    NoElements(batch);
    NoneMadeAssessed(s.images, s.platforms, answers);
    assert WithAnswers(s.status, {}, answers) == s.status;
  }

  lemma RecordedKeeps(before: Scan, was: set<PlatformKey>, now: Scan, recorded: set<PlatformKey>,
    asked: set<PlatformKey>, answers: seq<Covered>, pk: PlatformKey)
    requires RecordedSoFar(before, was, now, recorded, asked, answers)
    requires pk in before.status && pk !in was && pk !in asked
    ensures pk in now.status && pk !in recorded
  {
  }

  lemma RecordedOneMore(before: Scan, was: set<PlatformKey>, now: Scan, recorded: set<PlatformKey>,
    asked: set<PlatformKey>, answers: seq<Covered>, pk: PlatformKey)
    requires RecordedSoFar(before, was, now, recorded, asked, answers)
    requires pk in now.status && pk in now.platforms
    ensures RecordedSoFar(before, was, Record(now, pk, StatusIn(answers, pk)), recorded + {pk}, asked + {pk}, answers)
  {
    hide StatusIn, MadeAssessed;
    OneMadeAssessed(before.images, now, asked, pk, answers);
    assert WithAnswers(before.status, asked, answers)[pk := StatusIn(answers, pk)]
        == WithAnswers(before.status, asked + {pk}, answers);
  }

  lemma ElementsGrow<T>(s: seq<T>, i: nat)
    requires i < |s|
    ensures Elements(s[..i + 1]) == Elements(s[..i]) + {s[i]}
  {
    assert s[..i + 1] == s[..i] + [s[i]];
  }

  lemma NotAmongEarlier<T>(s: seq<T>, i: nat)
    requires Distinct(s) && i < |s|
    ensures s[i] !in Elements(s[..i])
  {
  }

  lemma RecordKeepsInv(s: Scan, done: set<RepoKey>, recorded: set<PlatformKey>, pk: PlatformKey, status: string)
    requires Inv(s, done, recorded) && pk in s.status && pk !in recorded
    ensures pk in s.platforms
    ensures var t := Record(s, pk, status);
            && Inv(t, done, recorded + {pk})
            && t.status == s.status[pk := status] && t.platforms == s.platforms && t.unresolved == s.unresolved
  {
    RecordKeepsOk(s, done, recorded, pk, status);
    assert Unresolved(Record(s, pk, status).images, done) == Unresolved(s.images, done);
  }

  predicate CountsAre(counts: Counts, status: map<PlatformKey, string>, seen: set<PlatformKey>, st: string) {
    Count(counts, st) == |WithStatus(status, st) * seen|
  }

  lemma OneMoreStatus(counts: Counts, status: map<PlatformKey, string>, seen: set<PlatformKey>, pk: PlatformKey,
    st: string)
    requires CountsAre(counts, status, seen, st) && pk in status && pk !in seen
    ensures CountsAre(Bump(counts, status[pk]), status, seen + {pk}, st)
  {
    OneMore(WithStatus(status, st), seen, pk);
  }

  method CountStatuses(status: map<PlatformKey, string>) returns (counts: Counts)
    ensures Sum(counts) == |status|
    ensures forall st :: Count(counts, st) == |WithStatus(status, st)|
  {
    hide CountsAre, WithStatus, Sum, Bump;
    counts := map[];
    var rest := status.Keys;
    ghost var seen: set<PlatformKey> := {};
    NoStatuses(status);
    while rest != {}
      invariant seen !! rest && seen + rest == status.Keys
      invariant Sum(counts) == |seen|
      invariant forall st :: CountsAre(counts, status, seen, st)
      decreases |rest|
    {
      var pk :| pk in rest;
      SumBump(counts, status[pk]);
      forall st ensures CountsAre(Bump(counts, status[pk]), status, seen + {pk}, st) {
        OneMoreStatus(counts, status, seen, pk, st);
      }
      counts := Bump(counts, status[pk]);
      rest := rest - {pk};
      seen := seen + {pk};
    }
    assert seen == status.Keys;
    assert |status.Keys| == |status|;
    forall st ensures Count(counts, st) == |WithStatus(status, st)| {
      AllStatuses(counts, status, st);
    }
  }

  lemma NoStatuses(status: map<PlatformKey, string>)
    ensures Sum(map[]) == 0 && forall st :: CountsAre(map[], status, {}, st)
  {
    forall st ensures CountsAre(map[], status, {}, st) {
      assert WithStatus(status, st) * {} == {};
    }
  }

  lemma AllStatuses(counts: Counts, status: map<PlatformKey, string>, st: string)
    requires CountsAre(counts, status, status.Keys, st)
    ensures Count(counts, st) == |WithStatus(status, st)| && |status.Keys| == |status|
  {
    assert WithStatus(status, st) * status.Keys == WithStatus(status, st);
  }

  lemma ScannedHas(images: Images, k: string)
    requires k in images
    ensures k in Assessed(images) <==> images[k].assessed
    ensures k in Unscanned(images) <==> !images[k].assessed && images[k].platforms.Some?
    ensures k in Matched(images) <==> images[k].matched
  {
  }

  lemma OnlyScanned(images: Images)
    ensures Assessed(images) <= images.Keys && Unscanned(images) <= images.Keys && Matched(images) <= images.Keys
  {
  }

  /** The counts over the images seen so far. */
  predicate ScannedSoFar(images: Images, seen: set<string>, assessed: nat, unscanned: nat, withFindings: nat) {
    && assessed == |Assessed(images) * seen|
    && unscanned == |Unscanned(images) * seen|
    && withFindings == |Matched(images) * seen|
  }

  lemma ScannedNone(images: Images)
    ensures ScannedSoFar(images, images.Keys - images.Keys, 0, 0, 0)
  {
    assert images.Keys - images.Keys == {};
    assert Assessed(images) * {} == {} && Unscanned(images) * {} == {} && Matched(images) * {} == {};
  }

  lemma ScannedAll(images: Images, assessed: nat, unscanned: nat, withFindings: nat)
    requires ScannedSoFar(images, images.Keys, assessed, unscanned, withFindings)
    ensures assessed == |Assessed(images)| && unscanned == |Unscanned(images)| && withFindings == |Matched(images)|
  {
    OnlyScanned(images);
    assert Assessed(images) * images.Keys == Assessed(images) && Unscanned(images) * images.Keys == Unscanned(images);
    assert Matched(images) * images.Keys == Matched(images);
  }

  lemma ScannedOneMore(images: Images, seen: set<string>, assessed: nat, unscanned: nat, withFindings: nat, k: string)
    requires ScannedSoFar(images, seen, assessed, unscanned, withFindings) && k in images && k !in seen
    ensures ScannedSoFar(images, seen + {k},
              assessed + (if images[k].assessed then 1 else 0),
              unscanned + (if !images[k].assessed && images[k].platforms.Some? then 1 else 0),
              withFindings + if images[k].matched then 1 else 0)
  {
    hide Assessed, Unscanned, Matched;
    OneMore(Assessed(images), seen, k);
    OneMore(Unscanned(images), seen, k);
    OneMore(Matched(images), seen, k);
    ScannedHas(images, k);
  }

  method CountScanned(images: Images) returns (assessed: nat, unscanned: nat, withFindings: nat)
    ensures assessed == |Assessed(images)| && unscanned == |Unscanned(images)| && withFindings == |Matched(images)|
  {
    hide ScannedSoFar, Assessed, Unscanned, Matched;
    assessed, unscanned, withFindings := 0, 0, 0;
    var rest := images.Keys;
    ScannedNone(images);
    while rest != {}
      invariant rest <= images.Keys
      invariant ScannedSoFar(images, images.Keys - rest, assessed, unscanned, withFindings)
      decreases |rest|
    {
      var k :| k in rest;
      ScannedOneMore(images, images.Keys - rest, assessed, unscanned, withFindings, k);
      assert images.Keys - rest + {k} == images.Keys - (rest - {k});
      if images[k].assessed {
        assessed := assessed + 1;
      } else if images[k].platforms.Some? {
        unscanned := unscanned + 1;
      }
      if images[k].matched {
        withFindings := withFindings + 1;
      }
      rest := rest - {k};
    }
    assert images.Keys - {} == images.Keys;
    ScannedAll(images, assessed, unscanned, withFindings);
  }

  // ---------------------------------------------------------------- what a status says

  /** An answer about the platform image that carries a status. */
  predicate Says(c: Covered, pk: PlatformKey) {
    c.pk == Some(pk) && c.hasStatus
  }

  /** The status is the last answer's code, with the reason behind a slash unless it is none or SUCCESSFUL. */
  lemma {:induction false} StatusExactly(answers: seq<Covered>, pk: PlatformKey, i: nat)
    requires i < |answers| && Says(answers[i], pk) && forall j | i < j < |answers| :: !Says(answers[j], pk)
    ensures var c := answers[i];
            StatusIn(answers, pk)
            == if c.reason == "" || c.reason == "SUCCESSFUL" then c.code else c.code + "/" + c.reason
  {
    if i < |answers| - 1 {
      assert !Says(answers[|answers| - 1], pk);
      StatusExactly(answers[..|answers| - 1], pk, i);
    }
  }

  lemma {:induction false} NoStatusExactly(answers: seq<Covered>, pk: PlatformKey)
    requires forall c | c in answers :: !Says(c, pk)
    ensures StatusIn(answers, pk) == "NOT_COVERED"
  {
    if answers != [] {
      assert answers[|answers| - 1] in answers;
      NoStatusExactly(answers[..|answers| - 1], pk);
    }
  }
}
