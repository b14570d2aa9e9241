/**
 The coverage account of running_image_vulnerabilities: every running ECR image ends up assessed, unscanned or
 unresolved, whatever the registry and the scanner answer and wherever the scan stops.
 */
module Coverage {
  import opened RunningImages
  import opened Sequences

  const ECR_BATCH := 100

  const NOT_COVERED := "NOT_COVERED"

  const GAP_REASONS := {
    "SCAN_ELIGIBILITY_EXPIRED", "UNSUPPORTED_OS", "UNSUPPORTED_MEDIA_TYPE", "UNSUPPORTED_CONFIG_FILE",
    "IMAGE_SIZE_EXCEEDED", "STALE_INVENTORY", "DEEP_INSPECTION_NO_INVENTORY", "NO_INVENTORY", "INTERNAL_ERROR",
    "PENDING_INITIAL_SCAN", "ACCESS_DENIED", "RESOURCE_TERMINATED"}

  /** The image's findings are missing or stale. */
  predicate IsGap(status: string) {
    status == NOT_COVERED || ("INACTIVE/" <= status && status[9..] in GAP_REASONS)
  }

  // ---------------------------------------------------------------- manifests

  datatype Entry = Entry(digest: string, architecture: string)

  /** A manifest that lists platforms, or anything else. `architecture` is "" where the index has none. */
  datatype Manifest = Single | Index(entries: seq<Entry>)

  predicate Runnable(e: Entry) {
    e.architecture != "" && e.architecture != "unknown"
  }

  function RunnableDigests(entries: seq<Entry>): seq<string> {
    if entries == [] then []
    else
      var last := entries[|entries| - 1];
      RunnableDigests(entries[..|entries| - 1]) + if Runnable(last) then [last.digest] else []
  }

  method PlatformDigests(digest: string, m: Manifest) returns (out: seq<string>)
    ensures out == PlatformsOf(digest, m)
  {
    if m.Single? || |m.entries| == 0 {
      return [digest];
    }
    out := [];
    for i := 0 to |m.entries|
      invariant out == RunnableDigests(m.entries[..i])
    {
      assert m.entries[..i + 1][..i] == m.entries[..i];
      if Runnable(m.entries[i]) {
        out := out + [m.entries[i].digest];
      }
    }
    assert m.entries[..|m.entries|] == m.entries;
    if |out| == 0 {
      return [digest];
    }
  }

  /** Never empty: an image without runnable platforms stands for itself. */
  function PlatformsOf(digest: string, m: Manifest): (out: seq<string>)
    ensures out != []
  {
    if m.Single? || RunnableDigests(m.entries) == [] then [digest] else RunnableDigests(m.entries)
  }

  // ---------------------------------------------------------------- resolving one repository

  datatype RepoKey = RepoKey(registry: string, repo: string)

  datatype Looked = Looked(digest: string, manifest: Manifest)

  /** How BatchGetImage ends: with some of the images, refused, or with the time budget spent. */
  datatype Reply = Answer(found: seq<Looked>) | Denied | BudgetSpent

  /** The digests found for images, by image key. */
  type Found = map<string, seq<string>>

  /** What a batch adds: digests for some of its images, each as one of the returned manifests says. */
  predicate AddsFrom(images: Images, batch: seq<string>, found: seq<Looked>, before: Found, after: Found) {
    && before.Keys <= after.Keys <= before.Keys + Elements(batch)
    && (forall k | k in before :: after[k] == before[k])
    && (forall k | k in after && k !in before :: k in images && FoundIn(found, images[k].digest, after[k]))
  }

  predicate FoundIn(found: seq<Looked>, digest: string, platforms: seq<string>) {
    exists x | x in found :: x.digest == digest && platforms == PlatformsOf(digest, x.manifest)
  }

  method ByDigest(images: Images, batch: seq<string>) returns (byDigest: map<string, string>)
    requires forall k | k in batch :: k in images
    ensures forall d | d in byDigest :: byDigest[d] in batch && images[byDigest[d]].digest == d
    ensures forall k | k in batch :: images[k].digest in byDigest
  {
    byDigest := map[];
    for i := 0 to |batch|
      invariant forall d | d in byDigest :: byDigest[d] in batch && images[byDigest[d]].digest == d
      invariant forall j | 0 <= j < i :: images[batch[j]].digest in byDigest
    {
      byDigest := byDigest[images[batch[i]].digest := batch[i]];
    }
  }

  predicate HasDigest(images: Images, keys: set<string>, digest: string) {
    exists k | k in keys :: k in images && images[k].digest == digest
  }

  /** Whatever of the batch the registry knows is found, if only for one of the images sharing the digest. */
  predicate FindsAll(images: Images, batch: seq<string>, found: seq<Looked>, after: Found) {
    forall x | x in found && HasDigest(images, Elements(batch), x.digest) ::
      HasDigest(images, Elements(batch) * after.Keys, x.digest)
  }

  /** Each of these answers that was asked for has its image among the keys. */
  predicate Handled(seen: seq<Looked>, byDigest: map<string, string>, keys: set<string>) {
    forall x | x in seen && x.digest in byDigest :: byDigest[x.digest] in keys
  }

  lemma NothingHandled(keys: set<string>)
    ensures forall byDigest :: Handled([], byDigest, keys)
  {
  }

  lemma HandledOneMore(seen: seq<Looked>, x: Looked, byDigest: map<string, string>, keys: set<string>,
    more: set<string>)
    requires Handled(seen, byDigest, keys) && keys <= more
    requires x.digest in byDigest ==> byDigest[x.digest] in more
    ensures Handled(seen + [x], byDigest, more)
  {
  }

  lemma OneMoreFound(images: Images, batch: seq<string>, found: seq<Looked>, before: Found, now: Found, k: string,
    x: Looked)
    requires AddsFrom(images, batch, found, before, now)
    requires k in batch && k in images && k !in now && x in found && x.digest == images[k].digest
    ensures AddsFrom(images, batch, found, before, now[k := PlatformsOf(images[k].digest, x.manifest)])
  {
    assert FoundIn(found, images[k].digest, PlatformsOf(images[k].digest, x.manifest));
  }

  lemma AllFound(images: Images, batch: seq<string>, found: seq<Looked>, after: Found, byDigest: map<string, string>)
    requires forall k | k in batch :: k in images
    requires forall d | d in byDigest :: byDigest[d] in batch && images[byDigest[d]].digest == d
    requires forall k | k in batch :: images[k].digest in byDigest
    requires Handled(found, byDigest, after.Keys)
    ensures FindsAll(images, batch, found, after)
  {
    forall x | x in found && HasDigest(images, Elements(batch), x.digest)
      ensures HasDigest(images, Elements(batch) * after.Keys, x.digest)
    {
      var k :| k in Elements(batch) && k in images && images[k].digest == x.digest;
      assert k in batch && x.digest in byDigest;
      assert byDigest[x.digest] in Elements(batch) * after.Keys;
    }
  }

  lemma NoneFound(images: Images, batch: seq<string>, found: seq<Looked>, before: Found)
    ensures AddsFrom(images, batch, found, before, before)
  {
  }

  lemma Fewer(a: set<string>, b: set<string>)
    requires a <= b
    ensures |a| <= |b|
  {
    assert b == a + (b - a);
  }

  lemma NotMoreThanAsked(images: Images, batch: seq<string>, found: seq<Looked>, before: Found, after: Found)
    requires Distinct(batch) && AddsFrom(images, batch, found, before, after)
    ensures |after| <= |before| + |batch|
  {
    DistinctSize(batch);
    Fewer(after.Keys - before.Keys, Elements(batch));
    assert after.Keys == before.Keys + (after.Keys - before.Keys);
    assert |after.Keys| == |after| && |before.Keys| == |before|;
  }

  /** The reply may name images nobody asked for, or one twice; two images of one batch may share a digest. */
  method ResolveBatch(images: Images, batch: seq<string>, found: seq<Looked>, before: Found)
    returns (unresolved: nat, after: Found)
    requires forall k | k in batch :: k in images && k !in before
    requires Distinct(batch)
    ensures AddsFrom(images, batch, found, before, after) && FindsAll(images, batch, found, after)
    ensures unresolved + |after| == |batch| + |before|
  {
    hide AddsFrom, Distinct, FindsAll, PlatformsOf, Handled, Elements;
    NoneFound(images, batch, found, before);
    NothingHandled(before.Keys);
    assert found[..0] == [];
    var byDigest := ByDigest(images, batch);
    var resolved := 0;
    after := before;
    for i := 0 to |found|
      invariant AddsFrom(images, batch, found, before, after)
      invariant |after| == |before| + resolved
      invariant Handled(found[..i], byDigest, after.Keys)
    {
      var x := found[i];
      assert found[..i + 1] == found[..i] + [x];
      if x.digest !in byDigest || byDigest[x.digest] in after {
        HandledOneMore(found[..i], x, byDigest, after.Keys, after.Keys);
        continue;
      }
      var k := byDigest[x.digest];
      var platforms := PlatformDigests(images[k].digest, x.manifest);
      HandledOneMore(found[..i], x, byDigest, after.Keys, after.Keys + {k});
      OneMoreFound(images, batch, found, before, after, k, x);
      resolved := resolved + 1;
      ghost var keys := after.Keys;
      after := after[k := platforms];
      assert after.Keys == keys + {k};
    }
    NotMoreThanAsked(images, batch, found, before, after);
    unresolved := |batch| - resolved;
    assert found[..|found|] == found;
    AllFound(images, batch, found, after, byDigest);
  }

  // ---------------------------------------------------------------- in terms of the answers

  /** Findings are missing or stale without coverage, or when scanning stopped for one of these reasons. */
  lemma GapExactly(status: string)
    ensures IsGap(status) <==>
      || status == "NOT_COVERED"
      || exists reason | reason in {
           "SCAN_ELIGIBILITY_EXPIRED", "UNSUPPORTED_OS", "UNSUPPORTED_MEDIA_TYPE", "UNSUPPORTED_CONFIG_FILE",
           "IMAGE_SIZE_EXCEEDED", "STALE_INVENTORY", "DEEP_INSPECTION_NO_INVENTORY", "NO_INVENTORY",
           "INTERNAL_ERROR", "PENDING_INITIAL_SCAN", "ACCESS_DENIED", "RESOURCE_TERMINATED"} ::
           status == "INACTIVE/" + reason
  {
    if "INACTIVE/" <= status {
      assert status == "INACTIVE/" + status[9..];
    }
  }

  function DigestsOf(entries: seq<Entry>): seq<string> {
    seq(|entries|, i requires 0 <= i < |entries| => entries[i].digest)
  }

  /** An index's platforms are its entries with a known architecture, in order; without any, the image itself. */
  lemma PlatformsExactly(digest: string, m: Manifest) returns (kept: seq<Entry>)
    ensures m.Index? ==> Keeps(kept, m.entries, (e: Entry) => e.architecture != "" && e.architecture != "unknown")
    ensures m.Single? ==> kept == []
    ensures PlatformsOf(digest, m) == if kept == [] then [digest] else DigestsOf(kept)
  {
    kept := [];
    if m.Index? {
      kept := RunnableExactly(m.entries);
      assert |RunnableDigests(m.entries)| == |kept|;
    }
  }

  lemma {:induction false} RunnableExactly(entries: seq<Entry>) returns (kept: seq<Entry>)
    ensures Keeps(kept, entries, (e: Entry) => e.architecture != "" && e.architecture != "unknown")
    ensures RunnableDigests(entries) == DigestsOf(kept)
  {
    var keep := (e: Entry) => e.architecture != "" && e.architecture != "unknown";
    if entries == [] {
      kept := [];
      KeepsNone(keep);
    } else {
      var front, last := entries[..|entries| - 1], entries[|entries| - 1];
      kept := RunnableExactly(front);
      KeepsOneMore(kept, front, keep, last);
      assert entries == front + [last];
      kept := kept + if keep(last) then [last] else [];
    }
  }
}
