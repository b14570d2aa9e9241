/**
 Which images run in the cluster: every container status of a live pod names one, images are told apart by host,
 repository and digest, and those in the account's own ECR are set apart from the rest.
 */
module RunningImages {
  import opened Options
  import opened Sequences
  import opened Text

  datatype Ref = Ref(host: string, repo: string, digest: string)

  // ---------------------------------------------------------------- image IDs

  function IndexOf(s: string, c: char): (i: int)
    ensures -1 <= i < |s|
    ensures i >= 0 ==> s[i] == c && c !in s[..i]
    ensures i < 0 ==> c !in s
  {
    if s == "" then -1
    else if s[0] == c then 0
    else
      var j := IndexOf(s[1..], c);
      if j < 0 then -1
      else
        assert s[..j + 1] == [s[0]] + s[1..][..j];
        j + 1
  }

  function LastIndexOf(s: string, c: char): (i: int)
    ensures -1 <= i < |s|
    ensures i >= 0 ==> s[i] == c && c !in s[i + 1..]
    ensures i < 0 ==> c !in s
  {
    if s == "" then -1
    else if s[|s| - 1] == c then |s| - 1
    else
      var i := LastIndexOf(s[..|s| - 1], c);
      assert i >= 0 ==> s[i + 1..] == s[..|s| - 1][i + 1..] + [s[|s| - 1]];
      i
  }

  /** What follows the first "://", or everything. */
  function WithoutScheme(s: string): string {
    if SchemeEnd(s) < 0 then s else s[SchemeEnd(s)..]
  }

  function SchemeEnd(s: string): (i: int)
    ensures -1 <= i <= |s|
  {
    if |s| < 3 then -1
    else if s[..3] == "://" then 3
    else
      var j := SchemeEnd(s[1..]);
      if j < 0 then -1 else j + 1
  }

  function ParseImageID(imageID: string): Option<Ref> {
    ParseRef(WithoutScheme(imageID))
  }

  function ParseRef(ref: string): Option<Ref> {
    var at := LastIndexOf(ref, '@');
    if at < 0 then None
    else
      var name, digest := ref[..at], ref[at + 1..];
      if !("sha256:" <= digest) then None
      else
        var slash := IndexOf(name, '/');
        if slash < 0 then Some(Ref("docker.io", name, digest))
        else Some(Ref(name[..slash], name[slash + 1..], digest))
  }

  /** The key a running image is stored under. */
  function Key(r: Ref): string {
    r.host + "/" + (r.repo + "@" + r.digest)
  }

  predicate WellFormed(r: Ref) {
    '/' !in r.host && '@' !in r.digest && "sha256:" <= r.digest
  }

  lemma ParsedWellFormed(imageID: string)
    ensures ParseImageID(imageID).Some? ==> WellFormed(ParseImageID(imageID).value)
  {
  }

  /** Two images share a key only if they are the same image. */
  lemma KeyIdentifiesImage(r: Ref, s: Ref)
    requires WellFormed(r) && WellFormed(s)
    ensures Key(r) == Key(s) <==> r == s
  {
    if Key(r) == Key(s) {
      SplitAtFirst('/', r.host, r.repo + "@" + r.digest, s.host, s.repo + "@" + s.digest);
      SplitAtLast('@', r.repo, r.digest, s.repo, s.digest);
    }
  }

  lemma SplitName(host: string, repo: string)
    requires '/' !in host
    ensures var name := host + "/" + repo;
            IndexOf(name, '/') == |host| && name[..|host|] == host && name[|host| + 1..] == repo
  {
    hide IndexOf;
    var name := host + "/" + repo;
    assert name[|host|] == '/';
    var slash := IndexOf(name, '/');
    assert name == name[..slash] + "/" + name[slash + 1..];
    SplitAtFirst('/', host, repo, name[..slash], name[slash + 1..]);
  }

  lemma SplitRef(name: string, digest: string)
    requires '@' !in digest
    ensures var ref := name + "@" + digest;
            LastIndexOf(ref, '@') == |name| && ref[..|name|] == name && ref[|name| + 1..] == digest
  {
    hide LastIndexOf;
    var ref := name + "@" + digest;
    assert ref[|name|] == '@';
    var at := LastIndexOf(ref, '@');
    assert ref == ref[..at] + "@" + ref[at + 1..];
    SplitAtLast('@', name, digest, ref[..at], ref[at + 1..]);
  }

  lemma SplitKey(r: Ref)
    requires WellFormed(r)
    ensures var key, name := Key(r), r.host + "/" + r.repo;
            && LastIndexOf(key, '@') == |name| && key[..|name|] == name && key[|name| + 1..] == r.digest
            && IndexOf(name, '/') == |r.host| && name[..|r.host|] == r.host && name[|r.host| + 1..] == r.repo
  {
    hide LastIndexOf, IndexOf;
    assert Key(r) == (r.host + "/" + r.repo) + "@" + r.digest;
    SplitName(r.host, r.repo);
    SplitRef(r.host + "/" + r.repo, r.digest);
  }

  lemma {:induction false} SchemeSkipped(scheme: string, rest: string)
    requires ':' !in scheme
    ensures SchemeEnd(scheme + "://" + rest) == |scheme| + 3
  {
    var s := scheme + "://" + rest;
    if scheme == "" {
      assert s[..3] == "://";
    } else {
      assert s[0] == scheme[0] != ':' && s[..3][0] == s[0];
      assert s[1..] == scheme[1..] + "://" + rest;
      SchemeSkipped(scheme[1..], rest);
    }
  }

  /** A key read as an image ID gives back its image, and so does a key behind a runtime's scheme. */
  lemma KeyRoundTrip(r: Ref, scheme: string)
    requires WellFormed(r) && ':' !in scheme
    ensures SchemeEnd(Key(r)) < 0 ==> ParseImageID(Key(r)) == Some(r)
    ensures ParseImageID(scheme + "://" + Key(r)) == Some(r)
  {
    hide SchemeEnd, Key, ParseRef;
    var id := scheme + "://" + Key(r);
    SchemeSkipped(scheme, Key(r));
    assert id[|scheme| + 3..] == Key(r);
    KeyParses(r);
  }

  lemma KeyParses(r: Ref)
    requires WellFormed(r)
    ensures ParseRef(Key(r)) == Some(r)
  {
    hide LastIndexOf, IndexOf, Key;
    SplitKey(r);
  }

  // ---------------------------------------------------------------- collecting

  /** A container's status: the image it runs and the reference its pod asked for. */
  datatype Container = Container(imageID: string, image: string)

  datatype Pod = Pod(finished: bool, workload: string, inits: seq<Container>, containers: seq<Container>)

  /** `registry` is "" unless the image is in the account's own ECR in the scanned region. */
  datatype Image = Image(
    registry: string,
    repo: string,
    digest: string,
    display: string,
    workloads: set<string>,
    platforms: Option<seq<string>>,
    assessed: bool,
    matched: bool)

  type Images = map<string, Image>

  /** One platform's manifest of an image, as Inspector scans it. */
  datatype PlatformKey = PlatformKey(registry: string, repo: string, digest: string)

  datatype Site = Site(account: string, region: string)

  predicate OwnHost(site: Site, host: string) {
    var base := site.account + ".dkr.ecr." + site.region + ".amazonaws.com";
    host == base || host == base + ".cn"
  }

  function NewImage(site: Site, r: Ref, display: string): Image {
    Image(if OwnHost(site, r.host) then site.account else "", r.repo, r.digest, display, {}, None, false, false)
  }

  /** One container status of a live pod. */
  datatype Sighting = Sighting(imageID: string, image: string, workload: string)

  function Register(site: Site, images: Images, s: Sighting): Images {
    var parsed := ParseImageID(s.imageID);
    if parsed.None? then images
    else
      var key := Key(parsed.value);
      var img := if key in images then images[key] else NewImage(site, parsed.value, s.image);
      images[key := img.(workloads := img.workloads + {s.workload})]
  }

  function Registered(site: Site, sightings: seq<Sighting>): Images {
    if sightings == [] then map[]
    else Register(site, Registered(site, sightings[..|sightings| - 1]), sightings[|sightings| - 1])
  }

  function SightingsIn(workload: string, statuses: seq<Container>): seq<Sighting> {
    seq(|statuses|, i requires 0 <= i < |statuses| => Sighting(statuses[i].imageID, statuses[i].image, workload))
  }

  function SightingsOf(p: Pod): seq<Sighting> {
    if p.finished then [] else SightingsIn(p.workload, p.inits + p.containers)
  }

  function Sightings(pods: seq<Pod>): seq<Sighting> {
    if pods == [] then [] else Sightings(pods[..|pods| - 1]) + SightingsOf(pods[|pods| - 1])
  }

  /** The registry a sighting adds to the others: that of a new image from elsewhere. */
  function NewHosts(site: Site, images: Images, s: Sighting): set<string> {
    var parsed := ParseImageID(s.imageID);
    if parsed.Some? && Key(parsed.value) !in images && !OwnHost(site, parsed.value.host)
    then {parsed.value.host}
    else {}
  }

  function OtherHosts(site: Site, sightings: seq<Sighting>): set<string> {
    if sightings == [] then {}
    else
      var front, last := sightings[..|sightings| - 1], sightings[|sightings| - 1];
      OtherHosts(site, front) + NewHosts(site, Registered(site, front), last)
  }

  lemma OneMoreSighting(site: Site, sightings: seq<Sighting>, s: Sighting)
    ensures Registered(site, sightings + [s]) == Register(site, Registered(site, sightings), s)
    ensures OtherHosts(site, sightings + [s])
         == OtherHosts(site, sightings) + NewHosts(site, Registered(site, sightings), s)
  {
    hide Register, NewHosts;
    assert (sightings + [s])[..|sightings|] == sightings;
  }

  /** Init containers are not counted. */
  function RunningContainers(pods: seq<Pod>): nat {
    if pods == [] then 0
    else
      var last := pods[|pods| - 1];
      RunningContainers(pods[..|pods| - 1]) + if last.finished then 0 else |last.containers|
  }

  class Collector {
    const site: Site
    var images: Images
    var others: set<string>
    var runningContainers: nat

    constructor (site: Site)
      ensures this.site == site && images == map[] && others == {} && runningContainers == 0
    {
      this.site := site;
      images, others, runningContainers := map[], {}, 0;
    }

    method AddImage(s: Sighting)
      modifies this`images, this`others
      ensures images == Register(site, old(images), s)
      ensures others == old(others) + NewHosts(site, old(images), s)
    {
      hide ParseImageID, Key, OwnHost;
      var parsed := ParseImageID(s.imageID);
      if parsed.None? {
        return;
      }
      var key := Key(parsed.value);
      if key !in images {
        images := images[key := NewImage(site, parsed.value, s.image)];
        if !OwnHost(site, parsed.value.host) {
          others := others + {parsed.value.host};
        }
      }
      images := images[key := images[key].(workloads := images[key].workloads + {s.workload})];
    }

    method AddPod(p: Pod, ghost before: seq<Sighting>)
      requires images == Registered(site, before) && others == OtherHosts(site, before) && !p.finished
      modifies this`images, this`others
      ensures images == Registered(site, before + SightingsOf(p))
      ensures others == OtherHosts(site, before + SightingsOf(p))
    {
      hide Register, Registered, NewHosts, OtherHosts, SightingsIn;
      var statuses := SightingsIn(p.workload, p.inits + p.containers);
      assert before + statuses[..0] == before;
      for i := 0 to |statuses|
        invariant images == Registered(site, before + statuses[..i])
        invariant others == OtherHosts(site, before + statuses[..i])
      {
        assert before + statuses[..i + 1] == before + statuses[..i] + [statuses[i]];
        OneMoreSighting(site, before + statuses[..i], statuses[i]);
        AddImage(statuses[i]);
      }
      assert statuses[..|statuses|] == statuses;
    }

    method CollectPods(pods: seq<Pod>) returns (ecrImages: nat, otherImages: nat, registries: seq<string>)
      requires images == map[] && others == {} && runningContainers == 0
      modifies this
      ensures images == Registered(site, Sightings(pods))
      ensures others == OtherHosts(site, Sightings(pods)) && runningContainers == RunningContainers(pods)
      ensures ecrImages == |InECR(images)| && otherImages == |images| - |InECR(images)|
      ensures ListsSome(registries, others)
    {
      for i := 0 to |pods|
        invariant images == Registered(site, Sightings(pods[..i]))
        invariant others == OtherHosts(site, Sightings(pods[..i])) && runningContainers == RunningContainers(pods[..i])
      {
        assert pods[..i + 1][..i] == pods[..i];
        if pods[i].finished {
          assert Sightings(pods[..i]) + [] == Sightings(pods[..i]);
          continue;
        }
        runningContainers := runningContainers + |pods[i].containers|;
        AddPod(pods[i], Sightings(pods[..i]));
      }
      assert pods[..|pods|] == pods;
      ecrImages, otherImages := CountImages(images);
      registries := ListRegistries(others);
    }
  }

  const MAX_LISTED := 10

  /** As many of the hosts as are listed, in order. */
  ghost predicate ListsSome(listed: seq<string>, hosts: set<string>) {
    && Ascending(listed) && Elements(listed) <= hosts
    && |listed| == if |hosts| < MAX_LISTED then |hosts| else MAX_LISTED
  }

  /** Takes hosts in the order the map yields them until the list is full, then sorts. */
  method ListRegistries(hosts: set<string>) returns (listed: seq<string>)
    ensures ListsSome(listed, hosts)
  {
    var rest, taken := hosts, {};
    while rest != {}
      invariant rest <= hosts && taken <= hosts - rest
      invariant |taken| == if |hosts - rest| < MAX_LISTED then |hosts - rest| else MAX_LISTED
      decreases |rest|
    {
      var host :| host in rest;
      assert hosts - (rest - {host}) == (hosts - rest) + {host};
      if |taken| < MAX_LISTED {
        taken := taken + {host};
      }
      rest := rest - {host};
    }
    assert hosts - rest == hosts;
    listed := SortSet(taken);
    SortedOfSorts(taken);
  }

  lemma {:induction false} AscendingSize(s: seq<string>)
    requires Ascending(s)
    ensures |Elements(s)| == |s|
  {
    if s != [] {
      AscendingSize(s[1..]);
      TailElements(s);
      assert s[0] in s;
    }
  }

  /** Which registries are listed depends on the map's order exactly when there are more than fit. */
  lemma RegistriesDeterminedExactly(hosts: set<string>)
    ensures (forall a, b | ListsSome(a, hosts) && ListsSome(b, hosts) :: a == b) <==> |hosts| <= 10
  {
    if |hosts| <= MAX_LISTED {
      forall a, b | ListsSome(a, hosts) && ListsSome(b, hosts) ensures a == b {
        AscendingSize(a);
        AscendingSize(b);
        SubsetIsAll(Elements(a), hosts);
        SubsetIsAll(Elements(b), hosts);
        AscendingUnique(a, b);
      }
    } else {
      var more := SomeOf(hosts, MAX_LISTED + 1);
      var x :| x in more;
      assert |more - {x}| == MAX_LISTED;
      var y :| y in more - {x};
      SortedOfSorts(more - {x});
      SortedOfSorts(more - {y});
      assert x in Elements(SortedOf(more - {y}));
      assert ListsSome(SortedOf(more - {x}), hosts) && ListsSome(SortedOf(more - {y}), hosts);
    }
  }

  function InECR(images: Images): set<string> {
    set k | k in images && images[k].registry != ""
  }

  lemma InECRHas(images: Images, k: string)
    requires k in images
    ensures k in InECR(images) <==> images[k].registry != ""
    ensures InECR(images) <= images.Keys
  {
  }

  lemma OnlyKeys(images: Images)
    ensures InECR(images) <= images.Keys && |images.Keys| == |images|
  {
  }

  lemma OneMore<T>(all: set<T>, seen: set<T>, k: T)
    requires k !in seen
    ensures |all * (seen + {k})| == |all * seen| + if k in all then 1 else 0
  {
    assert all * (seen + {k}) == if k in all then all * seen + {k} else all * seen;
  }

  /** The two counts always add up to the number of running images. */
  method CountImages(images: Images) returns (ecr: nat, other: nat)
    ensures ecr == |InECR(images)|
    ensures ecr + other == |images|
  {
    hide InECR;
    ecr, other := 0, 0;
    var rest := images.Keys;
    ghost var own, seen := InECR(images), {};
    assert own * seen == {};
    while rest != {}
      invariant seen !! rest && seen + rest == images.Keys
      invariant ecr == |own * seen| && ecr + other == |seen|
      decreases |rest|
    {
      var k :| k in rest;
      OneMore(own, seen, k);
      InECRHas(images, k);
      if images[k].registry != "" {
        ecr := ecr + 1;
      } else {
        other := other + 1;
      }
      rest := rest - {k};
      seen := seen + {k};
    }
    OnlyKeys(images);
    assert seen == images.Keys;
    assert own * seen == own;
  }

  predicate Shows(s: Sighting, r: Ref) {
    ParseImageID(s.imageID) == Some(r)
  }

  function WorkloadsOf(sightings: seq<Sighting>, r: Ref): set<string> {
    if sightings == [] then {}
    else
      var last := sightings[|sightings| - 1];
      WorkloadsOf(sightings[..|sightings| - 1], r) + if Shows(last, r) then {last.workload} else {}
  }

  /** The reference of the first container seen to run the image. */
  function DisplayOf(sightings: seq<Sighting>, r: Ref): string {
    if sightings == [] then ""
    else
      var front, last := sightings[..|sightings| - 1], sightings[|sightings| - 1];
      if WorkloadsOf(front, r) == {} && Shows(last, r) then last.image else DisplayOf(front, r)
  }

  lemma {:induction false} WorkloadsExactly(sightings: seq<Sighting>, r: Ref, w: string)
    ensures w in WorkloadsOf(sightings, r) <==> exists s :: s in sightings && Shows(s, r) && s.workload == w
  {
    hide Shows;
    if sightings != [] {
      var front, s := sightings[..|sightings| - 1], sightings[|sightings| - 1];
      WorkloadsExactly(front, r, w);
      assert sightings == front + [s];
      assert forall x :: x in sightings <==> x in front || x == s;
    }
  }

  lemma OneSightingOn(site: Site, images: Images, s: Sighting, r: Ref)
    requires WellFormed(r)
    ensures var after := Register(site, images, s);
            if Shows(s, r) then
              && Key(r) in after
              && var img := if Key(r) in images then images[Key(r)] else NewImage(site, r, s.image);
                 after[Key(r)] == img.(workloads := img.workloads + {s.workload})
            else
              && (Key(r) in after <==> Key(r) in images)
              && (Key(r) in images ==> after[Key(r)] == images[Key(r)])
  {
    hide ParseImageID, Key, WellFormed, NewImage;
    var parsed := ParseImageID(s.imageID);
    if parsed.Some? {
      ParsedWellFormed(s.imageID);
      KeyIdentifiesImage(parsed.value, r);
    }
  }

  /** In the account's own ECR of the region exactly if the host says so; resolved, assessed and matched later. */
  predicate IsImage(site: Site, r: Ref, display: string, workloads: set<string>, img: Image) {
    && img.repo == r.repo && img.digest == r.digest && img.display == display && img.workloads == workloads
    && img.registry == (if r.host in {site.account + ".dkr.ecr." + site.region + ".amazonaws.com",
                                      site.account + ".dkr.ecr." + site.region + ".amazonaws.com.cn"}
                        then site.account else "")
    && img.platforms.None? && !img.assessed && !img.matched
  }

  lemma HostsApart(site: Site)
    ensures site.account + ".dkr.ecr." + site.region + ".amazonaws.com" + ".cn"
         == site.account + ".dkr.ecr." + site.region + ".amazonaws.com.cn"
  {
  }

  /**
   The collected images are exactly those some live container runs, each with exactly the workloads running it and the
   reference it was first seen under.
   */
  lemma {:induction false} CollectedExactly(site: Site, sightings: seq<Sighting>, r: Ref)
    requires WellFormed(r)
    ensures var images := Registered(site, sightings);
            && (Key(r) in images <==> WorkloadsOf(sightings, r) != {})
            && (Key(r) in images ==>
                  IsImage(site, r, DisplayOf(sightings, r), WorkloadsOf(sightings, r), images[Key(r)]))
  {
    hide Register, Key, Shows, WellFormed;
    if sightings != [] {
      HostsApart(site);
      CollectedExactly(site, sightings[..|sightings| - 1], r);
      OneSightingOn(site, Registered(site, sightings[..|sightings| - 1]), sightings[|sightings| - 1], r);
    }
  }

  /** The other registries are exactly the foreign hosts of the images seen. */
  lemma {:induction false} OtherHostsExactly(site: Site, sightings: seq<Sighting>, host: string)
    ensures host in OtherHosts(site, sightings)
            <==> && host != site.account + ".dkr.ecr." + site.region + ".amazonaws.com"
                 && host != site.account + ".dkr.ecr." + site.region + ".amazonaws.com.cn"
                 && exists s | s in sightings :: ShowsHost(s, host)
  {
    hide NewHosts, ShowsHost, Registered;
    HostsApart(site);
    if sightings != [] {
      var front, s := sightings[..|sightings| - 1], sightings[|sightings| - 1];
      OtherHostsExactly(site, front, host);
      assert sightings == front + [s];
      assert forall x :: x in sightings <==> x in front || x == s;
      NewHostSeen(site, front, s, host);
    }
  }

  predicate ShowsHost(s: Sighting, host: string) {
    ParseImageID(s.imageID).Some? && ParseImageID(s.imageID).value.host == host
  }

  /** A sighting's foreign host is new, or its image was seen before and its host with it. */
  lemma NewHostSeen(site: Site, front: seq<Sighting>, s: Sighting, host: string)
    ensures host in NewHosts(site, Registered(site, front), s) ==> !OwnHost(site, host) && ShowsHost(s, host)
    ensures !OwnHost(site, host) && ShowsHost(s, host) ==>
              host in NewHosts(site, Registered(site, front), s) || exists x | x in front :: ShowsHost(x, host)
  {
    hide Registered, ParseImageID, Key, OwnHost;
    var parsed := ParseImageID(s.imageID);
    if parsed.Some? && parsed.value.host == host {
      ParsedWellFormed(s.imageID);
      CollectedExactly(site, front, parsed.value);
      if Key(parsed.value) in Registered(site, front) {
        SeenBefore(front, parsed.value);
      }
    }
  }

  lemma SeenBefore(sightings: seq<Sighting>, r: Ref)
    requires WorkloadsOf(sightings, r) != {}
    ensures exists s | s in sightings :: ShowsHost(s, r.host)
  {
    var w :| w in WorkloadsOf(sightings, r);
    WorkloadsExactly(sightings, r, w);
    var s :| s in sightings && Shows(s, r);
    assert ShowsHost(s, r.host);
  }

  // ---------------------------------------------------------------- image IDs and containers as they are

  /**
   An image ID names an image if, behind the first "://" if any, there is an '@' and a sha256 digest behind the last
   one; what is before is host and repository, split at the first slash, or a repository of docker.io.
   */
  ghost predicate NamesImage(imageID: string, r: Ref) {
    exists scheme, ref ::
      && imageID == scheme + ref
      && (if scheme == "" then NoScheme(ref) else EndsScheme(scheme))
      && NamesRef(ref, r)
  }

  predicate SchemeMark(s: string, i: int) {
    0 <= i <= |s| - 3 && s[i] == ':' && s[i + 1] == '/' && s[i + 2] == '/'
  }

  ghost predicate NoScheme(s: string) {
    forall i :: !SchemeMark(s, i)
  }

  /** The string ends with "://", which occurs in it only there. */
  ghost predicate EndsScheme(s: string) {
    SchemeMark(s, |s| - 3) && forall i | i < |s| - 3 :: !SchemeMark(s, i)
  }

  predicate NamesRef(ref: string, r: Ref) {
    && '@' !in r.digest && "sha256:" <= r.digest
    && (|| (ref == r.host + "/" + r.repo + "@" + r.digest && '/' !in r.host)
        || (ref == r.repo + "@" + r.digest && '/' !in r.repo && r.host == "docker.io"))
  }

  lemma NamesRefExactly(ref: string, r: Ref)
    ensures ParseRef(ref) == Some(r) <==> NamesRef(ref, r)
  {
    hide LastIndexOf, IndexOf;
    var at := LastIndexOf(ref, '@');
    if NamesRef(ref, r) {
      NamedParses(ref, r);
    }
    if at >= 0 {
      var name, digest := ref[..at], ref[at + 1..];
      assert ref == name + "@" + digest;
      var slash := IndexOf(name, '/');
      if slash >= 0 {
        assert name == name[..slash] + "/" + name[slash + 1..];
        assert ref == name[..slash] + "/" + name[slash + 1..] + "@" + digest;
      }
    }
  }

  lemma NamedParses(ref: string, r: Ref)
    requires NamesRef(ref, r)
    ensures ParseRef(ref) == Some(r)
  {
    hide LastIndexOf, IndexOf;
    if ref == r.host + "/" + r.repo + "@" + r.digest && '/' !in r.host {
      SplitRef(r.host + "/" + r.repo, r.digest);
      SplitName(r.host, r.repo);
    } else {
      SplitRef(r.repo, r.digest);
    }
  }

  lemma {:induction false} SchemeEndExactly(s: string)
    ensures SchemeEnd(s) < 0 <==> NoScheme(s)
    ensures SchemeEnd(s) >= 0 ==>
              SchemeMark(s, SchemeEnd(s) - 3) && forall i | i < SchemeEnd(s) - 3 :: !SchemeMark(s, i)
  {
    if |s| >= 3 {
      assert s[..3] == "://" <==> SchemeMark(s, 0);
      if s[..3] != "://" {
        SchemeEndExactly(s[1..]);
        forall i ensures SchemeMark(s, i + 1) <==> SchemeMark(s[1..], i) || (i == -1 && SchemeMark(s, 0)) {
        }
        forall i | SchemeMark(s, i) ensures SchemeMark(s[1..], i - 1) {
        }
      }
    }
  }

  lemma MarksOfScheme(scheme: string, ref: string, i: int)
    requires i <= |scheme| - 3
    ensures SchemeMark(scheme + ref, i) <==> SchemeMark(scheme, i)
  {
  }

  lemma OneScheme(scheme: string, ref: string)
    requires if scheme == "" then NoScheme(ref) else EndsScheme(scheme)
    ensures WithoutScheme(scheme + ref) == ref
  {
    hide SchemeMark;
    var s, n := scheme + ref, |scheme|;
    SchemeEndExactly(s);
    if scheme == "" {
      assert s == ref;
    } else {
      forall i | i <= n - 3 ensures SchemeMark(s, i) <==> SchemeMark(scheme, i) {
        MarksOfScheme(scheme, ref, i);
      }
      assert SchemeEnd(s) == n;
      assert s[n..] == ref;
    }
  }

  lemma SchemeCut(imageID: string)
    ensures var n := if SchemeEnd(imageID) < 0 then 0 else SchemeEnd(imageID);
            && imageID == imageID[..n] + WithoutScheme(imageID)
            && if imageID[..n] == "" then NoScheme(WithoutScheme(imageID)) else EndsScheme(imageID[..n])
  {
    hide SchemeMark;
    SchemeEndExactly(imageID);
    var e := SchemeEnd(imageID);
    if e < 0 {
      assert imageID[..0] == "";
    } else {
      MarkInside(imageID, e - 3);
      forall i | i <= e - 3 ensures SchemeMark(imageID, i) <==> SchemeMark(imageID[..e], i) {
        assert imageID == imageID[..e] + imageID[e..];
        MarksOfScheme(imageID[..e], imageID[e..], i);
      }
    }
  }

  lemma MarkInside(s: string, i: int)
    requires SchemeMark(s, i)
    ensures 0 <= i <= |s| - 3
  {
  }

  /** Parsing gives an image exactly if the ID names one, and then that one. */
  lemma ParseExactly(imageID: string, r: Ref)
    ensures ParseImageID(imageID) == Some(r) <==> NamesImage(imageID, r)
  {
    hide ParseRef, NamesRef, NoScheme, EndsScheme, WithoutScheme;
    SchemeCut(imageID);
    NamesRefExactly(WithoutScheme(imageID), r);
    forall scheme, ref |
      imageID == scheme + ref && (if scheme == "" then NoScheme(ref) else EndsScheme(scheme))
      ensures ref == WithoutScheme(imageID)
    {
      OneScheme(scheme, ref);
    }
  }

  /** The sightings are those of the containers of pods that are not finished, init containers included. */
  lemma {:induction false} SightingsExactly(pods: seq<Pod>, s: Sighting)
    ensures s in Sightings(pods)
            <==> exists p, c :: p in pods && !p.finished && (c in p.inits || c in p.containers)
                                && s == Sighting(c.imageID, c.image, p.workload)
  {
    if pods != [] {
      var front, last := pods[..|pods| - 1], pods[|pods| - 1];
      SightingsExactly(front, s);
      SightingsOfExactly(last, s);
      assert pods == front + [last];
    }
  }

  lemma SightingsOfExactly(p: Pod, s: Sighting)
    ensures s in SightingsOf(p)
            <==> !p.finished && exists c :: (c in p.inits || c in p.containers)
                                            && s == Sighting(c.imageID, c.image, p.workload)
  {
    var statuses := p.inits + p.containers;
    if !p.finished {
      var all := SightingsIn(p.workload, statuses);
      assert forall c :: c in statuses <==> c in p.inits || c in p.containers;
      if c :| c in statuses && s == Sighting(c.imageID, c.image, p.workload) {
        var i :| 0 <= i < |statuses| && statuses[i] == c;
        assert all[i] == s;
      }
    }
  }

  /** The containers of the pods that are not finished, init containers apart. */
  function LiveContainers(pods: seq<Pod>): seq<Container> {
    if pods == [] then []
    else
      LiveContainers(pods[..|pods| - 1])
      + match pods[|pods| - 1] case Pod(finished, _, _, containers) => if finished then [] else containers
  }

  lemma {:induction false} RunningContainersExactly(pods: seq<Pod>)
    ensures RunningContainers(pods) == |LiveContainers(pods)|
  {
    if pods != [] {
      RunningContainersExactly(pods[..|pods| - 1]);
    }
  }
}
