/** What the groups of running_image_vulnerabilities say, in terms of the findings fed and of what they carry. */
module FindingMeaning {
  import opened Options
  import opened Tally
  import opened FindingAggregation

  // ---------------------------------------------------------------- in terms of the findings themselves

  /** One of the finding's resources is a platform image that the running image was resolved to. */
  predicate IsOn(c: Context, f: Finding, img: Image) {
    exists r :: r in f.resources && r.Some? && r.value in c.platforms && img in c.platforms[r.value]
  }

  /** The vulnerability's ID, or the finding's title without one. */
  predicate Names(f: Finding, id: string) {
    match f.vulnerability
    case Some(v) => if v.id == "" then id == f.title else id == v.id
    case None => id == f.title
  }

  predicate HasPackage(f: Finding, p: Package) {
    f.vulnerability.Some? && p in f.vulnerability.value.packages
  }

  /** The finding is on a running image and has the key: its vulnerability, a package's name, or an image's digest. */
  ghost predicate OfGroup(c: Context, f: Finding, key: string) {
    && (exists img :: IsOn(c, f, img))
    && match c.groupBy
       case VULNERABILITY => Names(f, key)
       case PACKAGE =>
         || (exists p :: HasPackage(f, p) && p.name == key)
         || (key == "(no package)" && forall p :: !HasPackage(f, p))
       case IMAGE => exists img :: IsOn(c, f, img) && key == img.repo + "@" + img.digest
  }

  lemma {:induction false} ImagesExactly(c: Context, resources: seq<Option<PlatformKey>>, img: Image)
    ensures img in ImagesOf(c, resources)
            <==> exists r :: r in resources && r.Some? && r.value in c.platforms && img in c.platforms[r.value]
  {
    if resources != [] {
      var front, last := resources[..|resources| - 1], resources[|resources| - 1];
      ImagesExactly(c, front, img);
      assert resources == front + [last];
      assert forall r :: r in resources <==> r in front || r == last;
    }
  }

  lemma OnImageExactly(c: Context, f: Finding)
    ensures OnRunningImage(c, f) <==> exists img :: IsOn(c, f, img)
    ensures forall img :: img in ImagesOf(c, f.resources) <==> IsOn(c, f, img)
  {
    forall img ensures img in ImagesOf(c, f.resources) <==> IsOn(c, f, img) {
      ImagesExactly(c, f.resources, img);
    }
    var imgs := ImagesOf(c, f.resources);
    if imgs != [] {
      assert imgs[0] in imgs;
    }
  }

  lemma KeysExactly(c: Context, f: Finding, key: string)
    ensures OnRunningImage(c, f) && key in KeysOf(c, f) <==> OfGroup(c, f, key)
  {
    OnImageExactly(c, f);
    match c.groupBy
    case VULNERABILITY =>
    case PACKAGE =>
      var ps := Packages(f);
      assert forall p :: p in ps <==> HasPackage(f, p);
      if ps != [] {
        assert ps[0] in ps;
        NamesOf(ps, key);
      }
    case IMAGE => ImageKeysOf(ImagesOf(c, f.resources), key);
  }

  lemma NamesOf(ps: seq<Package>, key: string)
    ensures key in seq(|ps|, i requires 0 <= i < |ps| => ps[i].name) <==> exists p :: p in ps && p.name == key
  {
    var names := seq(|ps|, i requires 0 <= i < |ps| => ps[i].name);
    if p :| p in ps && p.name == key {
      var i :| 0 <= i < |ps| && ps[i] == p;
      assert names[i] == key;
    }
  }

  lemma ImageKeysOf(imgs: seq<Image>, key: string)
    ensures key in seq(|imgs|, i requires 0 <= i < |imgs| => ImageKey(imgs[i]))
            <==> exists img :: img in imgs && key == img.repo + "@" + img.digest
  {
    var keys := seq(|imgs|, i requires 0 <= i < |imgs| => ImageKey(imgs[i]));
    if img :| img in imgs && key == img.repo + "@" + img.digest {
      var i :| 0 <= i < |imgs| && imgs[i] == img;
      assert keys[i] == key;
    }
  }

  /** The findings of a group are those of the list that belong to it, each as often as it is listed. */
  lemma {:induction false} InGroupExactly(c: Context, findings: seq<Finding>, key: string, x: Finding)
    ensures multiset(InGroup(c, findings, key))[x] == if OfGroup(c, x, key) then multiset(findings)[x] else 0
    ensures x in InGroup(c, findings, key) <==> x in findings && OfGroup(c, x, key)
  {
    hide OfGroup, KeysOf, ImagesOf;
    if findings != [] {
      var f := findings[0];
      InGroupExactly(c, findings[1..], key, x);
      KeyInGroup(c, f, key);
      assert findings == [f] + findings[1..];
      assert multiset(findings) == multiset{f} + multiset(findings[1..]);
      assert x in multiset(InGroup(c, findings, key)) <==> x in InGroup(c, findings, key);
    }
  }

  lemma KeyInGroup(c: Context, f: Finding, key: string)
    ensures ImagesOf(c, f.resources) != [] && key in KeysOf(c, f) <==> OfGroup(c, f, key)
  {
    KeysExactly(c, f, key);
  }

  /** The counted findings are those on some running image, each as often as it is listed. */
  lemma {:induction false} CountedExactly(c: Context, findings: seq<Finding>, x: Finding)
    ensures multiset(Counted(c, findings))[x]
         == if exists img :: IsOn(c, x, img) then multiset(findings)[x] else 0
  {
    if findings != [] {
      var f := findings[0];
      CountedExactly(c, findings[1..], x);
      OnImageExactly(c, f);
      assert findings == [f] + findings[1..];
    }
  }

  const SEVERITIES := ["CRITICAL", "HIGH", "MEDIUM", "LOW", "INFORMATIONAL", "UNTRIAGED"]

  predicate Outranks(a: string, b: string) {
    exists i, j :: 0 <= i < j < |SEVERITIES| && SEVERITIES[i] == a && SEVERITIES[j] == b
  }

  /** The group shows the label of one of its findings, and none of them outranks it. */
  predicate ShowsWorst(severity: string, members: seq<Finding>) {
    && (exists f :: f in members && f.severity == severity)
    && forall f | f in members :: !Outranks(f.severity, severity)
  }

  /** A label outranks those after it in the list; one that is not in the list ranks with the last. */
  predicate Beats(a: string, b: string) {
    Outranks(a, b) || (a in SEVERITIES[..5] && b !in SEVERITIES)
  }

  /** The first of the labels that none of them beats, empty labels apart. */
  ghost predicate ShowsFirstWorst(severity: string, members: seq<Finding>) {
    if severity == "" then forall f | f in members :: f.severity == ""
    else exists i :: IsFirstWorst(severity, members, i)
  }

  predicate IsFirstWorst(severity: string, members: seq<Finding>, i: int) {
    && 0 <= i < |members| && members[i].severity == severity
    && (forall j | 0 <= j < |members| && members[j].severity != "" :: !Beats(members[j].severity, severity))
    && (forall j | 0 <= j < i && members[j].severity != "" :: Beats(severity, members[j].severity))
  }

  lemma BeatsExactly(a: string, b: string)
    ensures Beats(a, b) <==> Rank(a) > Rank(b)
  {
    if a in SEVERITIES && b in SEVERITIES {
      OutranksExactly(a, b);
      PlaceOf(a);
      PlaceOf(b);
    } else {
      RankOfOther(a);
      RankOfOther(b);
      if a in SEVERITIES {
        PlaceOf(a);
      }
    }
  }

  lemma PlaceOf(a: string)
    requires a in SEVERITIES
    ensures a in SEVERITIES[..5] <==> Rank(a) > 0
  {
    var i :| 0 <= i < |SEVERITIES| && SEVERITIES[i] == a;
    RankAt(i);
    if i < 5 {
      assert SEVERITIES[..5][i] == a;
    }
  }

  lemma RankOfOther(a: string)
    ensures a !in SEVERITIES ==> Rank(a) == 0
  {
    assert SEVERITIES[0] == "CRITICAL" && SEVERITIES[1] == "HIGH" && SEVERITIES[2] == "MEDIUM";
    assert SEVERITIES[3] == "LOW" && SEVERITIES[4] == "INFORMATIONAL" && SEVERITIES[5] == "UNTRIAGED";
  }

  lemma AddShowsFirstWorst(severity: string, f: Finding, members: seq<Finding>)
    requires ShowsFirstWorst(severity, members)
    ensures ShowsFirstWorst(Worse(severity, f.severity), members + [f])
  {
    hide Outranks, Beats, Rank;
    NoEmptyLabel();
    RankOfOther("");
    var all, worse := members + [f], Worse(severity, f.severity);
    forall a, b ensures Beats(a, b) <==> Rank(a) > Rank(b) {
      BeatsExactly(a, b);
    }
    assert forall x :: x in all <==> x in members || x == f;
    if worse == f.severity && worse != severity {
      if severity != "" {
        var i :| IsFirstWorst(severity, members, i);
      }
      forall j | 0 <= j < |members| && members[j].severity != "" ensures Beats(worse, members[j].severity) {
        assert members[j] in members;
      }
      assert IsFirstWorst(worse, all, |members|);
    } else if severity != "" {
      var i :| IsFirstWorst(severity, members, i);
      assert IsFirstWorst(severity, all, i);
    }
  }

  lemma WorstOfKnown(severity: string, members: seq<Finding>)
    requires ShowsFirstWorst(severity, members) && members != []
    requires forall f | f in members :: f.severity in SEVERITIES
    ensures ShowsWorst(severity, members)
  {
    hide Outranks;
    assert members[0] in members;
    NoEmptyLabel();
    if i :| IsFirstWorst(severity, members, i) {
      forall f | f in members ensures !Outranks(f.severity, severity) {
        var j :| 0 <= j < |members| && members[j] == f;
      }
    }
  }

  lemma NoEmptyLabel()
    ensures "" !in SEVERITIES
  {
  }

  /** The largest value given, 0 without one. */
  predicate ShowsLargest(epss: real, members: seq<Finding>) {
    && (forall f | f in members && f.epss.Some? :: f.epss.value <= epss)
    && 0.0 <= epss && (epss == 0.0 || exists f :: f in members && f.epss == Some(epss))
  }

  ghost predicate TellsCounts(g: Group, members: seq<Finding>) {
    && g.findings == |members|
    && (forall sev :: Count(g.sevCounts, sev) == |WithSeverity(members, sev)|)
  }

  ghost predicate TellsNames(g: Group, members: seq<Finding>) {
    forall id :: id in g.vulns <==> exists f :: f in members && Names(f, id)
  }

  ghost predicate TellsPackages(c: Context, g: Group, key: string, members: seq<Finding>) {
    forall p :: (p in g.packages
      <==> (c.groupBy == PACKAGE ==> p.name == key) && exists f :: f in members && HasPackage(f, p))
  }

  ghost predicate TellsImages(c: Context, g: Group, key: string, members: seq<Finding>) {
    forall img :: (img in g.images
      <==> (c.groupBy == IMAGE ==> img.repo + "@" + img.digest == key) && exists f :: f in members && IsOn(c, f, img))
  }

  /** A group's fields say exactly what its findings do. */
  ghost predicate Describes(c: Context, g: Group, key: string, members: seq<Finding>) {
    && TellsCounts(g, members)
    && TellsNames(g, members) && TellsPackages(c, g, key, members) && TellsImages(c, g, key, members)
    && ShowsLargest(g.epss, members) && ShowsFirstWorst(g.severity, members)
    && ((forall f | f in members :: f.severity in SEVERITIES) ==> ShowsWorst(g.severity, members))
  }

  lemma OutranksExactly(a: string, b: string)
    requires a in SEVERITIES && b in SEVERITIES
    ensures Outranks(a, b) <==> Rank(a) > Rank(b)
    ensures Known(a)
  {
    var i :| 0 <= i < |SEVERITIES| && SEVERITIES[i] == a;
    var j :| 0 <= j < |SEVERITIES| && SEVERITIES[j] == b;
    RankAt(i);
    RankAt(j);
    forall x, y | 0 <= x < y < |SEVERITIES| && SEVERITIES[x] == a && SEVERITIES[y] == b ensures Rank(a) > Rank(b) {
      RankAt(x);
      RankAt(y);
    }
  }

  lemma RankAt(i: nat)
    requires i < |SEVERITIES|
    ensures Rank(SEVERITIES[i]) == 5 - i
  {
  }

  lemma WithSeverityConcat(members: seq<Finding>, f: Finding, severity: string)
    ensures |WithSeverity(members + [f], severity)|
         == |WithSeverity(members, severity)| + if f.severity == severity then 1 else 0
  {
    if members == [] {
      assert [f][1..] == [];
    } else {
      assert (members + [f])[1..] == members[1..] + [f];
    }
  }

  lemma AddDescribesCounts(c: Context, g: Group, f: Finding, key: string, members: seq<Finding>)
    requires TellsCounts(g, members)
    ensures TellsCounts(AddToGroup(c, g, f, key), members + [f])
  {
    forall sev ensures Count(AddToGroup(c, g, f, key).sevCounts, sev) == |WithSeverity(members + [f], sev)| {
      WithSeverityConcat(members, f, sev);
    }
  }

  lemma OneMoreMember(f: Finding, members: seq<Finding>)
    ensures forall x :: x in members + [f] <==> x in members || x == f
  {
  }

  lemma AddDescribesNames(c: Context, g: Group, f: Finding, key: string, members: seq<Finding>)
    requires TellsNames(g, members)
    ensures TellsNames(AddToGroup(c, g, f, key), members + [f])
  {
    OneMoreMember(f, members);
    assert forall id :: Names(f, id) <==> id == VulnId(f);
    forall id ensures id in AddToGroup(c, g, f, key).vulns <==> exists x :: x in members + [f] && Names(x, id) {
      assert f in members + [f];
      if id == VulnId(f) {
        assert Names(f, id);
      }
    }
  }

  lemma AddDescribesPackages(c: Context, g: Group, f: Finding, key: string, members: seq<Finding>)
    requires TellsPackages(c, g, key, members)
    ensures TellsPackages(c, AddToGroup(c, g, f, key), key, members + [f])
  {
    OneMoreMember(f, members);
    assert f in members + [f] && forall p :: p in Packages(f) <==> HasPackage(f, p);
  }

  lemma AddDescribesImages(c: Context, g: Group, f: Finding, key: string, members: seq<Finding>)
    requires TellsImages(c, g, key, members)
    ensures TellsImages(c, AddToGroup(c, g, f, key), key, members + [f])
  {
    hide IsOn;
    OneMoreMember(f, members);
    OnImageExactly(c, f);
    assert f in members + [f];
  }

  lemma AddDescribesLargest(c: Context, g: Group, f: Finding, key: string, members: seq<Finding>)
    requires ShowsLargest(g.epss, members)
    ensures ShowsLargest(AddToGroup(c, g, f, key).epss, members + [f])
  {
    assert forall x :: x in members + [f] <==> x in members || x == f;
  }

  lemma NothingDescribed(c: Context, key: string)
    ensures TellsCounts(EMPTY_GROUP, []) && TellsNames(EMPTY_GROUP, [])
    ensures TellsPackages(c, EMPTY_GROUP, key, []) && TellsImages(c, EMPTY_GROUP, key, [])
    ensures ShowsLargest(EMPTY_GROUP.epss, []) && ShowsFirstWorst(EMPTY_GROUP.severity, [])
  {
  }

  /** The same for a group that may have no findings yet. */
  ghost predicate DescribesSoFar(c: Context, g: Group, key: string, members: seq<Finding>) {
    if members == [] then g == EMPTY_GROUP else Describes(c, g, key, members)
  }

  lemma AddDescribes(c: Context, g: Group, f: Finding, key: string, members: seq<Finding>)
    requires DescribesSoFar(c, g, key, members)
    ensures Describes(c, AddToGroup(c, g, f, key), key, members + [f])
  {
    hide TellsCounts, TellsNames, TellsPackages, TellsImages, ShowsWorst, ShowsFirstWorst, ShowsLargest, Worse;
    NothingDescribed(c, key);
    AddDescribesCounts(c, g, f, key, members);
    AddDescribesNames(c, g, f, key, members);
    AddDescribesPackages(c, g, f, key, members);
    AddDescribesImages(c, g, f, key, members);
    AddDescribesLargest(c, g, f, key, members);
    AddShowsFirstWorst(g.severity, f, members);
    if forall x | x in members + [f] :: x.severity in SEVERITIES {
      WorstOfKnown(Worse(g.severity, f.severity), members + [f]);
    }
  }

  lemma InGroupSnoc(c: Context, findings: seq<Finding>, f: Finding, key: string)
    ensures InGroup(c, findings + [f], key)
         == InGroup(c, findings, key) + if OnRunningImage(c, f) && key in KeysOf(c, f) then [f] else []
    decreases findings
  {
    hide KeysOf, ImagesOf;
    if findings == [] {
      assert [f][1..] == [];
    } else {
      assert (findings + [f])[1..] == findings[1..] + [f];
      InGroupSnoc(c, findings[1..], f, key);
    }
  }

  /** In every group, each field says exactly what the group's counted findings do, whatever order they came in. */
  lemma {:induction false} GroupsSayExactly(c: Context, findings: seq<Finding>, key: string)
    ensures var groups := Feed(c, NO_TOTALS, findings).groups;
            && (key in groups <==> InGroup(c, findings, key) != [])
            && DescribesSoFar(c, GroupAt(groups, key), key, InGroup(c, findings, key))
    decreases |findings|
  {
    hide Feed, Add, AddToGroup, KeysOf, Describes, InGroup, OnRunningImage;
    var n := |findings| - 1;
    if findings == [] {
      NothingInGroups(c, key);
    } else {
      var front, f := findings[..n], findings[n];
      assert findings[..n + 1] == findings == front + [f];
      GroupsSayExactly(c, front, key);
      FedOneMore(c, NO_TOTALS, map[], findings, n);
      InGroupSnoc(c, front, f, key);
      var t, members := Feed(c, NO_TOTALS, front), InGroup(c, front, key);
      if OnRunningImage(c, f) {
        GroupAfter(c, t, f, key);
        if key in KeysOf(c, f) {
          AddDescribes(c, GroupAt(t.groups, key), f, key, members);
        } else {
          assert members + [] == members;
        }
      } else {
        NotCounted(c, t, f);
        assert members + [] == members;
      }
    }
  }

  lemma NotCounted(c: Context, t: Totals, f: Finding)
    requires !OnRunningImage(c, f)
    ensures Add(c, t, f) == t
  {
  }

  lemma NothingInGroups(c: Context, key: string)
    ensures Feed(c, NO_TOTALS, []).groups == map[] && InGroup(c, [], key) == []
  {
  }
}
