/** The running scan's coverage state as repositories are resolved and statuses recorded, and the final count. */
module CoverageAccount {
  import opened Options
  import opened RunningImages
  import opened Sequences
  import opened Coverage

  /** `platforms` tells which running images each platform image belongs to. */
  datatype Scan = Scan(
    images: Images,
    platforms: map<PlatformKey, set<string>>,
    status: map<PlatformKey, string>,
    unresolved: nat)

  function PK(img: Image, digest: string): PlatformKey {
    PlatformKey(img.registry, img.repo, digest)
  }

  function RepoOf(img: Image): RepoKey {
    RepoKey(img.registry, img.repo)
  }

  function RepoOfKey(pk: PlatformKey): RepoKey {
    RepoKey(pk.registry, pk.repo)
  }

  // ---------------------------------------------------------------- the invariant

  /** Inspector's findings for this platform image are current. */
  predicate Current(s: Scan, pk: PlatformKey) {
    pk in s.status && !IsGap(s.status[pk])
  }

  /** An image is assessed exactly when one of its platform images is current; one with findings is resolved. */
  predicate ImageOk(s: Scan, done: set<RepoKey>, k: string)
    requires k in s.images
  {
    var img := s.images[k];
    match img.platforms
    case None => !img.assessed && !img.matched
    case Some(ds) =>
      && img.registry != "" && RepoOf(img) in done && ds != []
      && (forall d | d in ds :: PK(img, d) in s.platforms && k in s.platforms[PK(img, d)])
      && (img.assessed <==> exists d | d in ds :: Current(s, PK(img, d)))
  }

  predicate Belongs(s: Scan, k: string, pk: PlatformKey) {
    && k in s.images && s.images[k].platforms.Some?
    && pk.digest in s.images[k].platforms.value && pk == PK(s.images[k], pk.digest)
  }

  predicate PlatformsOk(s: Scan) {
    forall pk, k | pk in s.platforms && k in s.platforms[pk] :: Belongs(s, k, pk)
  }

  predicate StatusOk(s: Scan, done: set<RepoKey>, recorded: set<PlatformKey>) {
    && s.status.Keys == s.platforms.Keys && recorded <= s.status.Keys
    && (forall pk | pk in s.status :: RepoOfKey(pk) in done && (pk !in recorded ==> s.status[pk] == NOT_COVERED))
  }

  /** `done` are the repositories merged so far, `recorded` the platform images whose status has been asked. */
  predicate Ok(s: Scan, done: set<RepoKey>, recorded: set<PlatformKey>) {
    && (forall k | k in s.images :: ImageOk(s, done, k))
    && PlatformsOk(s)
    && StatusOk(s, done, recorded)
  }

  function Unresolved(images: Images, done: set<RepoKey>): set<string> {
    set k | k in images && RepoOf(images[k]) in done && images[k].platforms.None?
  }

  predicate Inv(s: Scan, done: set<RepoKey>, recorded: set<PlatformKey>) {
    && Ok(s, done, recorded)
    && s.unresolved == |Unresolved(s.images, done)|
    && forall r | r in done :: r.registry != ""
  }

  lemma {:induction false} CollectedFresh(site: Site, sightings: seq<Sighting>, k: string)
    requires k in Registered(site, sightings)
    ensures var img := Registered(site, sightings)[k]; img.platforms.None? && !img.assessed && !img.matched
  {
    if sightings != [] && k in Registered(site, sightings[..|sightings| - 1]) {
      CollectedFresh(site, sightings[..|sightings| - 1], k);
    }
  }

  /** What collectPods leaves is a scan with nothing resolved yet. */
  lemma StartOk(site: Site, sightings: seq<Sighting>)
    ensures Inv(Scan(Registered(site, sightings), map[], map[], 0), {}, {})
  {
    var images := Registered(site, sightings);
    forall k | k in images ensures ImageOk(Scan(images, map[], map[], 0), {}, k) {
      CollectedFresh(site, sightings, k);
    }
    assert Unresolved(images, {}) == {};
  }

  // ---------------------------------------------------------------- merging one image's platforms

  function PKs(img: Image, ds: seq<string>): set<PlatformKey> {
    set d | d in ds :: PK(img, d)
  }

  function Attach(s: Scan, k: string, ds: seq<string>): Scan
    requires k in s.images
  {
    var pks := PKs(s.images[k], ds);
    s.(images := s.images[k := s.images[k].(platforms := Some(ds))],
       platforms := map pk | pk in s.platforms.Keys + pks ::
         (if pk in s.platforms then s.platforms[pk] else {}) + if pk in pks then {k} else {},
       status := map pk | pk in s.status.Keys + pks :: if pk in pks then NOT_COVERED else s.status[pk])
  }

  lemma AttachKeepsImage(s: Scan, done: set<RepoKey>, recorded: set<PlatformKey>, k: string, ds: seq<string>, j: string)
    requires Ok(s, done, recorded) && k in s.images && j in s.images && ds != []
    requires s.images[k].platforms.None? && s.images[k].registry != "" && RepoOf(s.images[k]) in done
    requires forall pk | pk in recorded :: RepoOfKey(pk) != RepoOf(s.images[k])
    ensures ImageOk(Attach(s, k, ds), done, j)
  {
    var t := Attach(s, k, ds);
    assert ImageOk(s, done, j);
    forall pk | pk in s.status ensures Current(t, pk) == Current(s, pk) {
      assert pk in PKs(s.images[k], ds) ==> RepoOfKey(pk) == RepoOf(s.images[k]);
    }
    if j == k {
      forall d | d in ds ensures PK(s.images[k], d) in PKs(s.images[k], ds) {
      }
    } else if s.images[j].platforms.Some? {
      assert forall d | d in s.images[j].platforms.value :: PK(s.images[j], d) in s.status;
    }
  }

  lemma AttachKeepsOk(s: Scan, done: set<RepoKey>, recorded: set<PlatformKey>, k: string, ds: seq<string>)
    requires Ok(s, done, recorded) && k in s.images && ds != []
    requires s.images[k].platforms.None? && s.images[k].registry != "" && RepoOf(s.images[k]) in done
    requires forall pk | pk in recorded :: RepoOfKey(pk) != RepoOf(s.images[k])
    ensures Ok(Attach(s, k, ds), done, recorded)
  {
    var t := Attach(s, k, ds);
    forall j | j in t.images ensures ImageOk(t, done, j) {
      AttachKeepsImage(s, done, recorded, k, ds, j);
    }
    forall pk, j | pk in t.platforms && j in t.platforms[pk] ensures Belongs(t, j, pk) {
      if pk in s.platforms && j in s.platforms[pk] {
        assert Belongs(s, j, pk);
      }
    }
  }

  // ---------------------------------------------------------------- recording one status

  function Record(s: Scan, pk: PlatformKey, status: string): Scan
    requires pk in s.status && pk in s.platforms
  {
    s.(status := s.status[pk := status],
       images := map k | k in s.images ::
         if !IsGap(status) && k in s.platforms[pk] then s.images[k].(assessed := true) else s.images[k])
  }

  lemma RecordKeepsImage(s: Scan, done: set<RepoKey>, recorded: set<PlatformKey>, pk: PlatformKey, status: string,
    k: string)
    requires Ok(s, done, recorded) && pk in s.status && pk !in recorded && k in s.images
    ensures ImageOk(Record(s, pk, status), done, k)
  {
    var t, img := Record(s, pk, status), s.images[k];
    assert ImageOk(s, done, k);
    assert !Current(s, pk);
    assert forall p | p in s.status && p != pk :: Current(t, p) == Current(s, p);
    if k in s.platforms[pk] {
      assert Belongs(s, k, pk);
    }
    if img.platforms.Some? {
      forall d | d in img.platforms.value
        ensures Current(t, PK(img, d)) == if PK(img, d) == pk then !IsGap(status) else Current(s, PK(img, d))
      {
      }
    }
  }

  lemma RecordKeepsOk(s: Scan, done: set<RepoKey>, recorded: set<PlatformKey>, pk: PlatformKey, status: string)
    requires Ok(s, done, recorded) && pk in s.status && pk !in recorded
    ensures Ok(Record(s, pk, status), done, recorded + {pk})
  {
    var t := Record(s, pk, status);
    forall k | k in t.images ensures ImageOk(t, done, k) {
      RecordKeepsImage(s, done, recorded, pk, status, k);
    }
    forall p, k | p in t.platforms && k in t.platforms[p] ensures Belongs(t, k, p) {
      assert Belongs(s, k, p);
    }
  }

  // ---------------------------------------------------------------- marking the images with findings

  function WithMatched(images: Images, keys: set<string>): Images {
    map k | k in images :: images[k].(matched := images[k].matched || k in keys)
  }

  lemma MarkKeepsInv(s: Scan, done: set<RepoKey>, recorded: set<PlatformKey>, keys: set<string>)
    requires Inv(s, done, recorded)
    requires forall k | k in keys && k in s.images :: s.images[k].platforms.Some?
    ensures Inv(s.(images := WithMatched(s.images, keys)), done, recorded)
  {
    var t := s.(images := WithMatched(s.images, keys));
    forall k | k in t.images ensures ImageOk(t, done, k) {
      assert ImageOk(s, done, k);
    }
    forall pk, k | pk in t.platforms && k in t.platforms[pk] ensures Belongs(t, k, pk) {
      assert Belongs(s, k, pk);
    }
    assert Unresolved(t.images, done) == Unresolved(s.images, done);
  }

  // ---------------------------------------------------------------- conservation

  function Matched(images: Images): set<string> {
    set k | k in images && images[k].matched
  }

  /** Images with findings are among the assessed and unscanned ones. */
  lemma MatchedAreResolved(s: Scan, done: set<RepoKey>, recorded: set<PlatformKey>)
    requires Ok(s, done, recorded)
    ensures |Matched(s.images)| <= |Assessed(s.images)| + |Unscanned(s.images)|
  {
    var a, u := Assessed(s.images), Unscanned(s.images);
    forall k | k in Matched(s.images) ensures k in a + u {
      assert ImageOk(s, done, k);
    }
    SubsetSize(Matched(s.images), a + u);
    assert |a + u| == |a| + |u|;
  }

  function Assessed(images: Images): set<string> {
    set k | k in images && images[k].assessed
  }

  /** Resolved, but with no current platform image. */
  function Unscanned(images: Images): set<string> {
    set k | k in images && !images[k].assessed && images[k].platforms.Some?
  }

  function InRepos(images: Images, done: set<RepoKey>): set<string> {
    set k | k in images && RepoOf(images[k]) in done
  }

  /** Assessed, unscanned and unresolved images are the images of the repositories merged so far. */
  lemma ImagesConserved(s: Scan, done: set<RepoKey>, recorded: set<PlatformKey>)
    requires Inv(s, done, recorded)
    ensures |Assessed(s.images)| + |Unscanned(s.images)| + s.unresolved == |InRepos(s.images, done)|
  {
    hide Ok, Assessed, Unscanned, Unresolved, InRepos;
    var a, u, r := Assessed(s.images), Unscanned(s.images), Unresolved(s.images, done);
    forall k ensures !(k in a && k in u) && !(k in a && k in r) && !(k in u && k in r) {
      OneOfThree(s, done, recorded, k);
    }
    forall k ensures k in InRepos(s.images, done) <==> k in a + u + r {
      OneOfThree(s, done, recorded, k);
    }
    assert InRepos(s.images, done) == a + u + r;
    assert |a + u + r| == |a + u| + |r|;
  }

  lemma OneOfThree(s: Scan, done: set<RepoKey>, recorded: set<PlatformKey>, k: string)
    requires Ok(s, done, recorded)
    ensures var a, u, r := Assessed(s.images), Unscanned(s.images), Unresolved(s.images, done);
            && !(k in a && k in u) && !(k in a && k in r) && !(k in u && k in r)
            && (k in InRepos(s.images, done) <==> k in a || k in u || k in r)
  {
    if k in s.images {
      assert ImageOk(s, done, k);
    }
  }

  /** They are at most the ECR images, and all of them exactly when every ECR image's repository has been merged. */
  lemma CoverageAddsUp(s: Scan, done: set<RepoKey>, recorded: set<PlatformKey>)
    requires Inv(s, done, recorded)
    ensures var sum := |Assessed(s.images)| + |Unscanned(s.images)| + s.unresolved;
            && sum <= |InECR(s.images)|
            && (sum == |InECR(s.images)| <==> forall k | k in InECR(s.images) :: RepoOf(s.images[k]) in done)
  {
    ImagesConserved(s, done, recorded);
    var some, all := InRepos(s.images, done), InECR(s.images);
    assert some <= all;
    assert all == some + (all - some);
    assert (forall k | k in all :: RepoOf(s.images[k]) in done) ==> all <= some;
    if |some| == |all| {
      assert all - some == {};
    }
  }

  /** "Assessed" means just that: some platform image of the running image has a status that is no gap. */
  lemma AssessedExactly(s: Scan, done: set<RepoKey>, recorded: set<PlatformKey>, k: string)
    requires Inv(s, done, recorded) && k in s.images
    ensures k in Assessed(s.images) <==>
      s.images[k].platforms.Some? && exists d | d in s.images[k].platforms.value :: Current(s, PK(s.images[k], d))
  {
    assert ImageOk(s, done, k);
  }
}
