/**
 running_image_vulnerabilities' aggregation. Eight workers feed Inspector findings into shared accumulators in
 whatever order their calls return; the report must not depend on it.
 */
module FindingAggregation {
  import opened Options
  import opened Permutations
  import RunningImages
  import opened Tally

  type PlatformKey = RunningImages.PlatformKey

  /** A running image; `key` is its identity in the scan, `display` the reference its pod asked for. */
  datatype Image = Image(key: string, repo: string, digest: string, display: string)

  datatype Package = Package(name: string, version: string, fixedIn: string)

  datatype Vulnerability = Vulnerability(id: string, packages: seq<Package>)

  datatype Finding = Finding(
    resources: seq<Option<PlatformKey>>,
    severity: string,
    title: string,
    vulnerability: Option<Vulnerability>,
    exploit: string,
    fix: string,
    epss: Option<real>)

  datatype GroupBy = VULNERABILITY | PACKAGE | IMAGE

  /** What stays fixed while findings are fed: the grouping and which images run each platform image. */
  datatype Context = Context(groupBy: GroupBy, platforms: map<PlatformKey, seq<Image>>)

  function Rank(severity: string): nat {
    match severity
    case "CRITICAL" => 5
    case "HIGH" => 4
    case "MEDIUM" => 3
    case "LOW" => 2
    case "INFORMATIONAL" => 1
    case _ => 0
  }

  predicate Known(severity: string) {
    severity in {"CRITICAL", "HIGH", "MEDIUM", "LOW", "INFORMATIONAL", "UNTRIAGED"}
  }

  // ---------------------------------------------------------------- one finding

  function ImagesOf(c: Context, resources: seq<Option<PlatformKey>>): seq<Image> {
    if resources == [] then []
    else
      var last := resources[|resources| - 1];
      ImagesOf(c, resources[..|resources| - 1])
      + if last.Some? && last.value in c.platforms then c.platforms[last.value] else []
  }

  function VulnId(f: Finding): string {
    if f.vulnerability.Some? && f.vulnerability.value.id != "" then f.vulnerability.value.id else f.title
  }

  function Packages(f: Finding): seq<Package> {
    if f.vulnerability.Some? then f.vulnerability.value.packages else []
  }

  function ImageKey(img: Image): string {
    img.repo + "@" + img.digest
  }

  /** The groups a finding belongs to, in the order it names them and possibly more than once. */
  function KeyList(c: Context, f: Finding): seq<string> {
    match c.groupBy
    case VULNERABILITY => [VulnId(f)]
    case PACKAGE =>
      var ps := Packages(f);
      if ps == [] then ["(no package)"] else seq(|ps|, i requires 0 <= i < |ps| => ps[i].name)
    case IMAGE =>
      var imgs := ImagesOf(c, f.resources);
      seq(|imgs|, i requires 0 <= i < |imgs| => ImageKey(imgs[i]))
  }

  function KeysOf(c: Context, f: Finding): set<string> {
    set k | k in KeyList(c, f)
  }

  method Dedupe(v: seq<string>) returns (out: seq<string>)
    ensures forall x :: x in out <==> x in v
    ensures forall i, j | 0 <= i < j < |out| :: out[i] != out[j]
  {
    out := [];
    var seen := {};
    for i := 0 to |v|
      invariant forall x :: x in seen <==> x in v[..i]
      invariant forall x :: x in out <==> x in seen
      invariant forall a, b | 0 <= a < b < |out| :: out[a] != out[b]
    {
      if v[i] !in seen {
        seen := seen + {v[i]};
        out := out + [v[i]];
      }
    }
  }

  datatype Group = Group(
    findings: nat,
    sevCounts: Counts,
    severity: string,
    vulns: set<string>,
    packages: set<Package>,
    images: set<Image>,
    epss: real,
    exploit: string)

  const EMPTY_GROUP := Group(0, map[], "", {}, {}, {}, 0.0, "")

  /** The accumulators behind the report. */
  datatype Totals = Totals(total: nat, severityCounts: Counts, groups: map<string, Group>, matched: set<Image>)

  const NO_TOTALS := Totals(0, map[], map[], {})

  function Worse(current: string, severity: string): string {
    if Rank(severity) > Rank(current) || current == "" then severity else current
  }

  function GroupAt(groups: map<string, Group>, key: string): Group {
    At(groups, EMPTY_GROUP, key)
  }

  function AddToGroup(c: Context, g: Group, f: Finding, key: string): Group {
    Group(
      g.findings + 1,
      Bump(g.sevCounts, f.severity),
      Worse(g.severity, f.severity),
      g.vulns + {VulnId(f)},
      g.packages + (set p | p in Packages(f) && (c.groupBy != PACKAGE || p.name == key)),
      g.images + (set img | img in ImagesOf(c, f.resources) && (c.groupBy != IMAGE || ImageKey(img) == key)),
      if f.epss.Some? && f.epss.value > g.epss then f.epss.value else g.epss,
      if c.groupBy == VULNERABILITY then f.exploit else g.exploit)
  }

  function GroupAdder(c: Context, f: Finding): (Group, string) -> Group {
    (g, key) => AddToGroup(c, g, f, key)
  }

  function AddToGroups(c: Context, groups: map<string, Group>, f: Finding, keys: set<string>): map<string, Group> {
    UpdateEach(groups, EMPTY_GROUP, GroupAdder(c, f), keys)
  }

  predicate OnRunningImage(c: Context, f: Finding) {
    ImagesOf(c, f.resources) != []
  }

  /** A finding that no running image has is ignored. */
  function Add(c: Context, t: Totals, f: Finding): Totals {
    var imgs := ImagesOf(c, f.resources);
    if imgs == [] then t
    else Totals(
      t.total + 1,
      Bump(t.severityCounts, f.severity),
      AddToGroups(c, t.groups, f, KeysOf(c, f)),
      t.matched + (set img | img in imgs))
  }

  function Adder(c: Context): (Totals, Finding) -> Totals {
    (t, f) => Add(c, t, f)
  }

  function Feed(c: Context, t: Totals, findings: seq<Finding>): Totals {
    Fold(Adder(c), t, findings)
  }

  /** What a vulnerability's group shows of the finding added to it last, besides the exploit value. */
  datatype Label = Label(title: string, fix: string)

  function LabelOf(f: Finding): Label {
    Label(f.title, f.fix)
  }

  function AddLabel(c: Context, labels: map<string, Label>, f: Finding): map<string, Label> {
    if c.groupBy == VULNERABILITY && OnRunningImage(c, f) then labels[VulnId(f) := LabelOf(f)] else labels
  }

  function Labels(c: Context, labels: map<string, Label>, findings: seq<Finding>): map<string, Label> {
    if findings == [] then labels
    else AddLabel(c, Labels(c, labels, findings[..|findings| - 1]), findings[|findings| - 1])
  }

  /** An image's group holds an image, and only such as have the group's key. */
  predicate ShowsOwn(g: Group, key: string) {
    g.images != {} && forall img | img in g.images :: ImageKey(img) == key
  }

  predicate TitleOk(g: Group, key: string, title: string) {
    ShowsOwn(g, key) && exists img :: img in g.images && img.display == title
  }

  predicate TitlesOk(c: Context, groups: map<string, Group>, titles: map<string, string>) {
    if c.groupBy == IMAGE then
      titles.Keys == groups.Keys && forall k | k in titles && k in groups :: TitleOk(groups[k], k, titles[k])
    else titles == map[]
  }

  lemma GroupsShowOwn(c: Context, groups: map<string, Group>, titles: map<string, string>, f: Finding)
    requires c.groupBy == IMAGE && TitlesOk(c, groups, titles)
    ensures var after := AddToGroups(c, groups, f, KeysOf(c, f));
            && (forall k | k in KeysOf(c, f) :: k in after && ShowsOwn(after[k], k))
            && (forall k | k in after && k !in KeysOf(c, f) :: k in groups && after[k] == groups[k])
            && groups.Keys <= after.Keys
  {
    var after, imgs := AddToGroups(c, groups, f, KeysOf(c, f)), ImagesOf(c, f.resources);
    forall k | k in KeysOf(c, f) ensures ShowsOwn(after[k], k) {
      var i :| 0 <= i < |imgs| && ImageKey(imgs[i]) == k;
      assert imgs[i] in after[k].images;
    }
  }

  lemma FedNone(c: Context, t: Totals, labels: map<string, Label>, findings: seq<Finding>)
    ensures Feed(c, t, findings[..0]) == t && Labels(c, labels, findings[..0]) == labels
  {
  }

  lemma FedOneMore(c: Context, t: Totals, labels: map<string, Label>, findings: seq<Finding>, i: nat)
    requires i < |findings|
    ensures Feed(c, t, findings[..i + 1]) == Add(c, Feed(c, t, findings[..i]), findings[i])
    ensures Labels(c, labels, findings[..i + 1]) == AddLabel(c, Labels(c, labels, findings[..i]), findings[i])
  {
    hide Add, AddLabel;
    FoldConcat(Adder(c), t, findings[..i], [findings[i]]);
    assert [findings[i]][1..] == [];
    assert findings[..i + 1] == findings[..i] + [findings[i]];
    assert findings[..i + 1][..i] == findings[..i];
  }

  // ---------------------------------------------------------------- the scan updates it in place

  class Scan {
    const context: Context
    var total: nat
    var severityCounts: Counts
    var groups: map<string, Group>
    var matched: set<Image>
    var labels: map<string, Label>
    var titles: map<string, string>

    constructor (context: Context)
      ensures this.context == context && State() == NO_TOTALS && labels == map[] && Titled()
    {
      this.context := context;
      total, severityCounts, groups, matched, labels, titles := 0, map[], map[], {}, map[], map[];
    }

    /** Grouped by image, each group's title is the reference of one of its images; else there are no such titles. */
    predicate Titled()
      reads this
    {
      TitlesOk(context, groups, titles)
    }

    function State(): Totals
      reads this
    {
      Totals(total, severityCounts, groups, matched)
    }

    method CollectImages(f: Finding) returns (imgs: seq<Image>)
      ensures imgs == ImagesOf(context, f.resources)
    {
      imgs := [];
      for i := 0 to |f.resources|
        invariant imgs == ImagesOf(context, f.resources[..i])
      {
        assert f.resources[..i + 1][..i] == f.resources[..i];
        if f.resources[i].Some? && f.resources[i].value in context.platforms {
          imgs := imgs + context.platforms[f.resources[i].value];
        } else {
          assert imgs + [] == imgs;
        }
      }
      assert f.resources[..|f.resources|] == f.resources;
    }

    method AddToEach(f: Finding, keys: seq<string>)
      requires forall i, j | 0 <= i < j < |keys| :: keys[i] != keys[j]
      modifies this`groups
      ensures groups == AddToGroups(context, old(groups), f, set k | k in keys)
    {
      ghost var before := groups;
      ghost var done := {};
      assert groups == AddToGroups(context, before, f, {});
      for i := 0 to |keys|
        invariant forall k :: k in done <==> k in keys[..i]
        invariant groups == AddToGroups(context, before, f, done)
      {
        var key := keys[i];
        UpdateOneMore(before, EMPTY_GROUP, GroupAdder(context, f), done, key);
        groups := groups[key := AddToGroup(context, GroupAt(groups, key), f, key)];
        done := done + {key};
      }
      assert done == set k | k in keys;
    }

    /** Each group's title becomes the reference of one of its images, whichever the map yields last. */
    method PickTitles(keys: seq<string>, ghost before: map<string, Group>)
      requires forall k | k in keys :: k in groups && ShowsOwn(groups[k], k)
      requires forall k | k in groups && k !in keys :: k in before && groups[k] == before[k]
      requires context.groupBy == IMAGE && TitlesOk(context, before, titles) && before.Keys <= groups.Keys
      modifies this`titles
      ensures Titled()
    {
      hide ShowsOwn, TitleOk;
      ghost var start := titles;
      for i := 0 to |keys|
        invariant titles.Keys == start.Keys + set k | k in keys[..i]
        invariant forall k | k in titles :: if k in keys[..i] then k in groups && TitleOk(groups[k], k, titles[k])
                                                              else titles[k] == start[k]
      {
        var img := Pick(groups[keys[i]], keys[i]);
        titles := titles[keys[i] := img.display];
        assert keys[..i + 1] == keys[..i] + [keys[i]];
      }
      assert keys[..|keys|] == keys;
    }

    static method Pick(g: Group, key: string) returns (img: Image)
      requires ShowsOwn(g, key)
      ensures TitleOk(g, key, img.display)
    {
      img :| img in g.images;
    }

    method AddToAll(f: Finding)
      requires Titled()
      modifies this`groups, this`titles
      ensures groups == AddToGroups(context, old(groups), f, KeysOf(context, f)) && Titled()
    {
      hide KeyList, AddToGroups, ShowsOwn, TitleOk;
      var keys := Dedupe(KeyList(context, f));
      ghost var before := groups;
      AddToEach(f, keys);
      assert (set k | k in keys) == KeysOf(context, f);
      if context.groupBy == IMAGE {
        GroupsShowOwn(context, before, titles, f);
        PickTitles(keys, before);
      }
    }

    method AddFinding(f: Finding)
      requires Titled()
      modifies this
      ensures Titled()
      ensures State() == Add(context, old(State()), f)
      ensures labels == AddLabel(context, old(labels), f)
    {
      hide AddToGroups, KeysOf, TitlesOk, ImagesOf;
      var imgs := CollectImages(f);
      if |imgs| == 0 {
        return;
      }
      total := total + 1;
      severityCounts := Bump(severityCounts, f.severity);
      AddToAll(f);
      if context.groupBy == VULNERABILITY {
        labels := labels[VulnId(f) := LabelOf(f)];
      }
      matched := matched + set img | img in imgs;
    }

    method AddPage(findings: seq<Finding>)
      requires Titled()
      modifies this
      ensures Titled()
      ensures State() == Feed(context, old(State()), findings)
      ensures labels == Labels(context, old(labels), findings)
    {
      hide Feed, Labels, Add, AddLabel;
      ghost var start, was := State(), labels;
      FedNone(context, start, was, findings);
      for i := 0 to |findings|
        invariant State() == Feed(context, start, findings[..i])
        invariant labels == Labels(context, was, findings[..i]) && Titled()
      {
        FedOneMore(context, start, was, findings, i);
        AddFinding(findings[i]);
      }
      assert findings[..|findings|] == findings;
    }
  }

  // ---------------------------------------------------------------- order does not matter

  /** If they count, their severities of one rank are one severity, and one vulnerability has one exploit value. */
  predicate Compatible(c: Context, f: Finding, g: Finding) {
    OnRunningImage(c, f) && OnRunningImage(c, g) ==>
      && Known(f.severity) && Known(g.severity)
      && (c.groupBy == VULNERABILITY && VulnId(f) == VulnId(g) ==> f.exploit == g.exploit)
  }

  predicate SeveritiesKnown(groups: map<string, Group>) {
    forall k | k in groups :: Known(groups[k].severity)
  }

  lemma WorseCommutes(current: string, a: string, b: string)
    requires Known(a) && Known(b) && (current == "" || Known(current))
    ensures Worse(Worse(current, a), b) == Worse(Worse(current, b), a)
    ensures Known(Worse(current, a))
  {
  }

  /** For unknown labels the order shows exactly when two different ones share a rank. */
  lemma SeverityOrderMattersExactly(a: string, b: string)
    requires a != "" && b != ""
    ensures Worse(Worse("", a), b) == Worse(Worse("", b), a) <==> a == b || Rank(a) != Rank(b)
  {
  }

  lemma AddToGroupCommutes(c: Context, x: Group, f: Finding, g: Finding, key: string)
    requires Compatible(c, f, g) && OnRunningImage(c, f) && OnRunningImage(c, g)
    requires x.severity == "" || Known(x.severity)
    requires c.groupBy == VULNERABILITY ==> VulnId(f) == VulnId(g)
    ensures AddToGroup(c, AddToGroup(c, x, f, key), g, key) == AddToGroup(c, AddToGroup(c, x, g, key), f, key)
  {
    WorseCommutes(x.severity, f.severity, g.severity);
    var fg := AddToGroup(c, AddToGroup(c, x, f, key), g, key);
    var gf := AddToGroup(c, AddToGroup(c, x, g, key), f, key);
    assert fg.vulns == gf.vulns && fg.packages == gf.packages && fg.images == gf.images;
    BumpCommutes(x.sevCounts, f.severity, g.severity);
  }

  lemma BumpCommutes(m: Counts, a: string, b: string)
    ensures Bump(Bump(m, a), b) == Bump(Bump(m, b), a)
  {
  }

  lemma AddToGroupsCommutes(c: Context, groups: map<string, Group>, f: Finding, g: Finding, kf: set<string>,
    kg: set<string>)
    requires Compatible(c, f, g) && OnRunningImage(c, f) && OnRunningImage(c, g) && SeveritiesKnown(groups)
    requires c.groupBy == VULNERABILITY && kf * kg != {} ==> VulnId(f) == VulnId(g)
    ensures AddToGroups(c, AddToGroups(c, groups, f, kf), g, kg) == AddToGroups(c, AddToGroups(c, groups, g, kg), f, kf)
  {
    forall k | k in kf && k in kg
      ensures GroupAdder(c, g)(GroupAdder(c, f)(GroupAt(groups, k), k), k)
           == GroupAdder(c, f)(GroupAdder(c, g)(GroupAt(groups, k), k), k)
    {
      assert k in kf * kg;
      AddToGroupCommutes(c, GroupAt(groups, k), f, g, k);
    }
    UpdateEachCommutes(groups, EMPTY_GROUP, GroupAdder(c, f), GroupAdder(c, g), kf, kg);
  }

  lemma AddCommutes(c: Context, t: Totals, f: Finding, g: Finding)
    requires Compatible(c, f, g) && SeveritiesKnown(t.groups)
    ensures Add(c, Add(c, t, f), g) == Add(c, Add(c, t, g), f)
  {
    if ImagesOf(c, f.resources) != [] && ImagesOf(c, g.resources) != [] {
      BumpCommutes(t.severityCounts, f.severity, g.severity);
      AddToGroupsCommutes(c, t.groups, f, g, KeysOf(c, f), KeysOf(c, g));
      assert Add(c, Add(c, t, f), g).matched == Add(c, Add(c, t, g), f).matched;
    }
  }

  /** With known severities the last writer's exploit value is the only thing order can change, and it does. */
  lemma SwapExactly(c: Context, f: Finding, g: Finding)
    requires Known(f.severity) && Known(g.severity)
    requires ImagesOf(c, f.resources) != [] && ImagesOf(c, g.resources) != []
    ensures Add(c, Add(c, NO_TOTALS, f), g) == Add(c, Add(c, NO_TOTALS, g), f) <==> Compatible(c, f, g)
  {
    if Compatible(c, f, g) {
      AddCommutes(c, NO_TOTALS, f, g);
    } else {
      var k := VulnId(f);
      assert k in KeysOf(c, f) && k in KeysOf(c, g);
      assert Add(c, Add(c, NO_TOTALS, f), g).groups[k].exploit == g.exploit;
      assert Add(c, Add(c, NO_TOTALS, g), f).groups[k].exploit == f.exploit;
    }
  }

  lemma AddKeepsKnown(c: Context, t: Totals, f: Finding)
    requires (OnRunningImage(c, f) ==> Known(f.severity)) && SeveritiesKnown(t.groups)
    ensures SeveritiesKnown(Add(c, t, f).groups)
  {
  }

  predicate AllCompatible(c: Context, findings: seq<Finding>) {
    forall f, g | f in findings && g in findings :: Compatible(c, f, g)
  }

  /** If the exploit values agree, every order of feeding the same findings ends in the very same state. */
  lemma AgreeingOrderDoesNotMatter(c: Context, t: Totals, a: seq<Finding>, b: seq<Finding>)
    requires SeveritiesKnown(t.groups) && multiset(a) == multiset(b) && AllCompatible(c, a)
    ensures Feed(c, t, a) == Feed(c, t, b)
  {
    var ok := (u: Totals) => SeveritiesKnown(u.groups);
    forall u, f, g | ok(u) && f in a && g in a
      ensures Adder(c)(Adder(c)(u, f), g) == Adder(c)(Adder(c)(u, g), f)
    {
      AddCommutes(c, u, f, g);
    }
    forall u, f | ok(u) && f in a ensures ok(Adder(c)(u, f)) {
      assert Compatible(c, f, f);
      AddKeepsKnown(c, u, f);
    }
    FoldPermuted(Adder(c), ok, t, a, b);
  }

  // ---------------------------------------------------------------- what order leaves alone in any case

  /** A group without the exploit value, and without the severity shown unless it is to be kept. */
  function BlindGroup(keep: bool, g: Group): Group {
    g.(exploit := "", severity := if keep then g.severity else "")
  }

  function Blind(keep: bool, t: Totals): Totals {
    t.(groups := map k | k in t.groups :: BlindGroup(keep, t.groups[k]))
  }

  lemma AddToBlindGroup(c: Context, keep: bool, x: Group, f: Finding, key: string)
    ensures BlindGroup(keep, AddToGroup(c, BlindGroup(keep, x), f, key)) == BlindGroup(keep, AddToGroup(c, x, f, key))
  {
  }

  /** What is left out of a state has no part in what adding a finding does to the rest. */
  lemma AddToBlind(c: Context, keep: bool, t: Totals, f: Finding)
    ensures Blind(keep, Add(c, Blind(keep, t), f)) == Blind(keep, Add(c, t, f))
  {
    hide AddToGroup, KeysOf, BlindGroup;
    NoBlindSpot(keep);
    var a, b := Blind(keep, Add(c, Blind(keep, t), f)), Blind(keep, Add(c, t, f));
    assert a.groups.Keys == b.groups.Keys;
    forall k | k in a.groups ensures a.groups[k] == b.groups[k] {
      AddToBlindGroup(c, keep, GroupAt(t.groups, k), f, k);
      BlindTwice(keep, GroupAt(t.groups, k));
    }
  }

  lemma NoBlindSpot(keep: bool)
    ensures BlindGroup(keep, EMPTY_GROUP) == EMPTY_GROUP
  {
  }

  lemma BlindTwice(keep: bool, g: Group)
    ensures BlindGroup(keep, BlindGroup(keep, g)) == BlindGroup(keep, g)
  {
  }

  /** Two findings leave their traces in a group in either order, the exploit value and perhaps the severity apart. */
  lemma BlindGroupCommutes(c: Context, keep: bool, x: Group, f: Finding, g: Finding, key: string)
    requires keep ==> Known(f.severity) && Known(g.severity) && (x.severity == "" || Known(x.severity))
    ensures BlindGroup(keep, AddToGroup(c, AddToGroup(c, x, f, key), g, key))
         == BlindGroup(keep, AddToGroup(c, AddToGroup(c, x, g, key), f, key))
  {
    if keep {
      WorseCommutes(x.severity, f.severity, g.severity);
    }
    BumpCommutes(x.sevCounts, f.severity, g.severity);
    var fg := AddToGroup(c, AddToGroup(c, x, f, key), g, key);
    var gf := AddToGroup(c, AddToGroup(c, x, g, key), f, key);
    assert fg.vulns == gf.vulns && fg.packages == gf.packages && fg.images == gf.images;
  }

  lemma BlindCommutes(c: Context, keep: bool, t: Totals, f: Finding, g: Finding)
    requires keep ==> SeveritiesKnown(t.groups) && KnownIfCounted(c, f) && KnownIfCounted(c, g)
    ensures Blind(keep, Add(c, Add(c, t, f), g)) == Blind(keep, Add(c, Add(c, t, g), f))
  {
    hide AddToGroups, AddToGroup, KeysOf, Blind, BlindGroup, SeveritiesKnown, Known;
    var fg, gf := Add(c, Add(c, t, f), g), Add(c, Add(c, t, g), f);
    if OnRunningImage(c, f) && OnRunningImage(c, g) {
      BumpCommutes(t.severityCounts, f.severity, g.severity);
      assert fg.matched == gf.matched;
      forall k ensures k in fg.groups <==> k in gf.groups
      ensures k in fg.groups ==> BlindGroup(keep, fg.groups[k]) == BlindGroup(keep, gf.groups[k]) {
        TwoInGroup(c, keep, t, f, g, k);
      }
      SameBlind(keep, fg, gf);
    }
  }

  lemma SameBlind(keep: bool, s: Totals, t: Totals)
    requires s.(groups := map[]) == t.(groups := map[])
    requires forall k :: k in s.groups <==> k in t.groups
    requires forall k | k in s.groups :: BlindGroup(keep, s.groups[k]) == BlindGroup(keep, t.groups[k])
    ensures Blind(keep, s) == Blind(keep, t)
  {
    hide BlindGroup;
    assert Blind(keep, s).groups == Blind(keep, t).groups;
  }

  lemma GroupAfter(c: Context, t: Totals, f: Finding, key: string)
    requires OnRunningImage(c, f)
    ensures key in Add(c, t, f).groups <==> key in t.groups || key in KeysOf(c, f)
    ensures GroupAt(Add(c, t, f).groups, key)
         == if key in KeysOf(c, f) then AddToGroup(c, GroupAt(t.groups, key), f, key) else GroupAt(t.groups, key)
  {
    hide AddToGroup, KeysOf;
  }

  lemma TwoInGroup(c: Context, keep: bool, t: Totals, f: Finding, g: Finding, key: string)
    requires OnRunningImage(c, f) && OnRunningImage(c, g)
    requires keep ==> SeveritiesKnown(t.groups) && Known(f.severity) && Known(g.severity)
    ensures var fg, gf := Add(c, Add(c, t, f), g).groups, Add(c, Add(c, t, g), f).groups;
            && (key in fg <==> key in gf)
            && (key in fg ==> BlindGroup(keep, fg[key]) == BlindGroup(keep, gf[key]))
  {
    hide Add, AddToGroup, KeysOf, BlindGroup, Known, OnRunningImage;
    GroupAfter(c, t, f, key);
    GroupAfter(c, t, g, key);
    GroupAfter(c, Add(c, t, f), g, key);
    GroupAfter(c, Add(c, t, g), f, key);
    if key in KeysOf(c, f) && key in KeysOf(c, g) {
      BlindGroupCommutes(c, keep, GroupAt(t.groups, key), f, g, key);
    }
  }

  predicate KnownIfCounted(c: Context, f: Finding) {
    OnRunningImage(c, f) ==> Known(f.severity)
  }

  function BlindAdder(c: Context, keep: bool): (Totals, Finding) -> Totals {
    (t, f) => Blind(keep, Add(c, t, f))
  }

  lemma {:induction false} FeedBlind(c: Context, keep: bool, t: Totals, findings: seq<Finding>)
    ensures Fold(BlindAdder(c, keep), Blind(keep, t), findings) == Blind(keep, Feed(c, t, findings))
    decreases |findings|
  {
    hide Blind, Add;
    if findings != [] {
      AddToBlind(c, keep, t, findings[0]);
      FeedBlind(c, keep, Add(c, t, findings[0]), findings[1..]);
    }
  }

  lemma BlindAdderCommutes(c: Context, keep: bool, t: Totals, f: Finding, g: Finding)
    requires keep ==> SeveritiesKnown(t.groups) && KnownIfCounted(c, f) && KnownIfCounted(c, g)
    ensures BlindAdder(c, keep)(BlindAdder(c, keep)(t, f), g) == BlindAdder(c, keep)(BlindAdder(c, keep)(t, g), f)
  {
    hide Blind, Add;
    AddToBlind(c, keep, Add(c, t, f), g);
    AddToBlind(c, keep, Add(c, t, g), f);
    BlindCommutes(c, keep, t, f, g);
  }

  lemma BlindKeepsKnown(c: Context, t: Totals, f: Finding)
    requires SeveritiesKnown(t.groups) && KnownIfCounted(c, f)
    ensures SeveritiesKnown(Blind(true, Add(c, t, f)).groups)
  {
    hide Known, Add;
    AddKeepsKnown(c, t, f);
  }

  lemma BlindOrderDoesNotMatter(c: Context, keep: bool, t: Totals, a: seq<Finding>, b: seq<Finding>)
    requires multiset(a) == multiset(b)
    requires keep ==> SeveritiesKnown(t.groups) && forall f | f in a :: KnownIfCounted(c, f)
    ensures Blind(keep, Feed(c, t, a)) == Blind(keep, Feed(c, t, b))
  {
    hide Blind, SeveritiesKnown, KnownIfCounted, Feed;
    var ok := (u: Totals) => keep ==> SeveritiesKnown(u.groups);
    var step := BlindAdder(c, keep);
    forall u, f, g | ok(u) && f in a && g in a ensures step(step(u, f), g) == step(step(u, g), f) {
      BlindAdderCommutes(c, keep, u, f, g);
    }
    forall u, f | ok(u) && f in a ensures ok(step(u, f)) {
      if keep {
        BlindKeepsKnown(c, u, f);
      }
    }
    BlindKnown(keep, t);
    FoldPermuted(step, ok, Blind(keep, t), a, b);
    FeedBlind(c, keep, t, a);
    FeedBlind(c, keep, t, b);
  }

  lemma BlindKnown(keep: bool, t: Totals)
    ensures keep && SeveritiesKnown(t.groups) ==> SeveritiesKnown(Blind(keep, t).groups)
  {
  }

  /**
   Every order of feeding the same findings ends in the same totals, groups and matched images: always, but for
   the exploit value and the severity a group shows; with known severities, but for the exploit value; and if the
   exploit values agree too, in every respect.
   */
  lemma FeedingOrderDoesNotMatter(c: Context, t: Totals, a: seq<Finding>, b: seq<Finding>)
    requires multiset(a) == multiset(b)
    ensures Blind(false, Feed(c, t, a)) == Blind(false, Feed(c, t, b))
    ensures SeveritiesKnown(t.groups) && (forall f | f in a :: KnownIfCounted(c, f)) ==>
              Blind(true, Feed(c, t, a)) == Blind(true, Feed(c, t, b))
    ensures SeveritiesKnown(t.groups) && AllCompatible(c, a) ==> Feed(c, t, a) == Feed(c, t, b)
  {
    hide Blind, Feed, SeveritiesKnown, KnownIfCounted, AllCompatible;
    BlindOrderDoesNotMatter(c, false, t, a, b);
    if SeveritiesKnown(t.groups) && forall f | f in a :: KnownIfCounted(c, f) {
      BlindOrderDoesNotMatter(c, true, t, a, b);
    }
    if SeveritiesKnown(t.groups) && AllCompatible(c, a) {
      AgreeingOrderDoesNotMatter(c, t, a, b);
    }
  }

  /** A vulnerability's exploit value is that of its last counted finding. */
  lemma {:induction false} ExploitIsTheLast(c: Context, t: Totals, findings: seq<Finding>, i: nat)
    requires c.groupBy == VULNERABILITY && i < |findings| && OnRunningImage(c, findings[i])
    requires forall j | i < j < |findings| && OnRunningImage(c, findings[j]) ::
               VulnId(findings[j]) != VulnId(findings[i])
    ensures var groups := Feed(c, t, findings).groups;
            VulnId(findings[i]) in groups && groups[VulnId(findings[i])].exploit == findings[i].exploit
  {
    hide Feed;
    var n := |findings| - 1;
    assert findings[..n + 1] == findings;
    FedOneMore(c, t, map[], findings, n);
    if i < n {
      ExploitIsTheLast(c, t, findings[..n], i);
    }
    assert KeysOf(c, findings[n]) == {VulnId(findings[n])};
  }

  // ---------------------------------------------------------------- when order matters at all

  /** The counted findings of one vulnerability agree on whether it is exploited. */
  predicate ExploitsAgree(c: Context, findings: seq<Finding>) {
    forall f, g | f in findings && g in findings && OnRunningImage(c, f) && OnRunningImage(c, g) ::
      c.groupBy == VULNERABILITY && VulnId(f) == VulnId(g) ==> f.exploit == g.exploit
  }

  lemma TakeOut(findings: seq<Finding>, f: Finding) returns (others: seq<Finding>)
    requires f in findings
    ensures multiset(others + [f]) == multiset(findings)
    ensures forall x | x in findings && x != f :: x in others
  {
    var i :| 0 <= i < |findings| && findings[i] == f;
    others := findings[..i] + findings[i + 1..];
    assert findings == findings[..i] + [f] + findings[i + 1..];
  }

  /** Of two counted findings of one vulnerability, the one fed last decides the exploit value. */
  lemma LastExploitShows(c: Context, others: seq<Finding>, f: Finding, g: Finding)
    requires c.groupBy == VULNERABILITY && VulnId(f) == VulnId(g) && OnRunningImage(c, f) && OnRunningImage(c, g)
    ensures var t := Feed(c, NO_TOTALS, others + [f] + [g]);
            VulnId(g) in t.groups && t.groups[VulnId(g)].exploit == g.exploit
  {
    FoldConcat(Adder(c), NO_TOTALS, others + [f], [g]);
    assert [g][1..] == [];
    assert VulnId(g) in KeysOf(c, g);
  }

  lemma TwoOrders(c: Context, findings: seq<Finding>, f: Finding, g: Finding) returns (a: seq<Finding>, b: seq<Finding>)
    requires f in findings && g in findings && OnRunningImage(c, f) && OnRunningImage(c, g)
    requires c.groupBy == VULNERABILITY && VulnId(f) == VulnId(g) && f.exploit != g.exploit
    ensures multiset(a) == multiset(findings) == multiset(b)
    ensures Feed(c, NO_TOTALS, a) != Feed(c, NO_TOTALS, b)
  {
    hide Feed, OnRunningImage, VulnId;
    var most := TakeOut(findings, f);
    var others := TakeOut(most, g);
    a, b := others + [f] + [g], others + [g] + [f];
    assert multiset(b) == multiset(others + [g]) + multiset([f]);
    assert multiset(a) == multiset(b);
    LastExploitShows(c, others, f, g);
    LastExploitShows(c, others, g, f);
  }

  lemma AgreeingIsCompatible(c: Context, findings: seq<Finding>)
    requires ExploitsAgree(c, findings)
    requires forall f | f in findings && OnRunningImage(c, f) :: Known(f.severity)
    ensures AllCompatible(c, findings)
  {
    hide OnRunningImage, VulnId, Known;
  }

  /** With known severities, no reordering changes anything exactly when the exploit values agree. */
  lemma OrderMattersExactly(c: Context, findings: seq<Finding>)
    requires forall f | f in findings && OnRunningImage(c, f) :: Known(f.severity)
    ensures ExploitsAgree(c, findings)
            <==> forall other | multiset(other) == multiset(findings) ::
                   Feed(c, NO_TOTALS, other) == Feed(c, NO_TOTALS, findings)
  {
    hide Feed, OnRunningImage, VulnId, Known, AllCompatible;
    if ExploitsAgree(c, findings) {
      AgreeingIsCompatible(c, findings);
      forall other | multiset(other) == multiset(findings)
        ensures Feed(c, NO_TOTALS, other) == Feed(c, NO_TOTALS, findings)
      {
        FeedingOrderDoesNotMatter(c, NO_TOTALS, findings, other);
      }
    } else {
      var f, g :| f in findings && g in findings && OnRunningImage(c, f) && OnRunningImage(c, g)
                  && c.groupBy == VULNERABILITY && VulnId(f) == VulnId(g) && f.exploit != g.exploit;
      var a, b := TwoOrders(c, findings, f, g);
    }
  }

  /** A group's title and fix are those of the last counted finding with its vulnerability. */
  lemma {:induction false} LabelIsTheLast(c: Context, findings: seq<Finding>, i: nat)
    requires c.groupBy == VULNERABILITY && i < |findings| && OnRunningImage(c, findings[i])
    requires forall j | i < j < |findings| && OnRunningImage(c, findings[j]) ::
               VulnId(findings[j]) != VulnId(findings[i])
    ensures var labels := Labels(c, map[], findings);
            VulnId(findings[i]) in labels && labels[VulnId(findings[i])] == Label(findings[i].title, findings[i].fix)
  {
    if i < |findings| - 1 {
      LabelIsTheLast(c, findings[..|findings| - 1], i);
    }
  }

  // ---------------------------------------------------------------- nothing is lost or counted twice

  /** The findings that count: those on some running image. */
  function Counted(c: Context, findings: seq<Finding>): seq<Finding> {
    if findings == [] then []
    else (if ImagesOf(c, findings[0].resources) != [] then [findings[0]] else []) + Counted(c, findings[1..])
  }

  function InGroup(c: Context, findings: seq<Finding>, key: string): seq<Finding> {
    if findings == [] then []
    else
      (if ImagesOf(c, findings[0].resources) != [] && key in KeysOf(c, findings[0]) then [findings[0]] else [])
      + InGroup(c, findings[1..], key)
  }

  function WithSeverity(findings: seq<Finding>, severity: string): seq<Finding> {
    if findings == [] then []
    else (if findings[0].severity == severity then [findings[0]] else []) + WithSeverity(findings[1..], severity)
  }

  /** Each severity's count is the number of counted findings with that label. */
  lemma {:induction false} SeveritiesCountExactly(c: Context, t: Totals, findings: seq<Finding>, severity: string)
    ensures Count(Feed(c, t, findings).severityCounts, severity)
         == Count(t.severityCounts, severity) + |WithSeverity(Counted(c, findings), severity)|
    decreases |findings|
  {
    if findings != [] {
      var rest := Counted(c, findings[1..]);
      SeveritiesCountExactly(c, Add(c, t, findings[0]), findings[1..], severity);
      if OnRunningImage(c, findings[0]) {
        assert ([findings[0]] + rest)[1..] == rest;
      } else {
        assert [] + rest == rest;
      }
    }
  }

  /** An image is marked exactly when some finding is on it. */
  lemma {:induction false} MatchedExactly(c: Context, t: Totals, findings: seq<Finding>, img: Image)
    ensures img in Feed(c, t, findings).matched
            <==> img in t.matched || exists f :: f in findings && img in ImagesOf(c, f.resources)
    decreases |findings|
  {
    if findings != [] {
      MatchedExactly(c, Add(c, t, findings[0]), findings[1..], img);
      assert findings == [findings[0]] + findings[1..];
    }
  }

  /** Every counted finding is in the total once and under one severity. */
  lemma {:induction false} TotalsCountExactly(c: Context, t: Totals, findings: seq<Finding>)
    ensures Feed(c, t, findings).total == t.total + |Counted(c, findings)|
    ensures Sum(Feed(c, t, findings).severityCounts) == Sum(t.severityCounts) + |Counted(c, findings)|
    decreases |findings|
  {
    if findings != [] {
      TotalsCountExactly(c, Add(c, t, findings[0]), findings[1..]);
      SumBump(t.severityCounts, findings[0].severity);
    }
  }

  /** A group exists exactly when some counted finding has its key, and counts each such finding once. */
  lemma {:induction false} GroupsCountExactly(c: Context, t: Totals, findings: seq<Finding>, key: string)
    ensures var u := Feed(c, t, findings);
            && (key in u.groups <==> key in t.groups || InGroup(c, findings, key) != [])
            && GroupAt(u.groups, key).findings == GroupAt(t.groups, key).findings + |InGroup(c, findings, key)|
            && Sum(GroupAt(u.groups, key).sevCounts)
                 == Sum(GroupAt(t.groups, key).sevCounts) + |InGroup(c, findings, key)|
    decreases |findings|
  {
    if findings != [] {
      GroupsCountExactly(c, Add(c, t, findings[0]), findings[1..], key);
      SumBump(GroupAt(t.groups, key).sevCounts, findings[0].severity);
    }
  }
}
