/**
 The lists shown inside a group: vulnerability IDs, packages and workloads, each sorted and cut at ten. Packages are
 sorted by name and version only, so two fixes for one version may come in either order.
 */
module GroupDetails {
  import opened Sequences
  import opened Text
  import opened FindingAggregation
  import opened FindingMeaning
  import RunningImages

  datatype Detail = Detail(
    vulnerabilityIDs: seq<string>,
    packages: seq<Package>,
    workloads: seq<string>,
    workloadsTotal: nat)

  const MAX_LISTED := RunningImages.MAX_LISTED

  function IsSpace(c: char): bool {
    var n := c as int;
    9 <= n <= 13 || 0x2000 <= n <= 0x200A || n in {0x20, 0x85, 0xA0, 0x1680, 0x2028, 0x2029, 0x202F, 0x205F, 0x3000}
  }

  function TrimSpace(s: string): string {
    if s != "" && IsSpace(s[0]) then TrimSpace(s[1..])
    else if s != "" && IsSpace(s[|s| - 1]) then TrimSpace(s[..|s| - 1])
    else s
  }

  /** A group's only vulnerability is not listed if it is the group's key. */
  function ShownIDs(key: string, ids: seq<string>): seq<string> {
    if |ids| > 1 || key != (if ids == [] then "" else TrimSpace(ids[0])) then CapList(ids) else []
  }

  function CapList<T>(s: seq<T>): seq<T> {
    if |s| > MAX_LISTED then s[..MAX_LISTED] else s
  }

  function Workloads(images: RunningImages.Images, g: Group): set<string> {
    set img, w | img in g.images && img.key in images && w in images[img.key].workloads :: w
  }

  // ---------------------------------------------------------------- packages in order

  function OrderKey(p: Package): string {
    p.name + "\0" + p.version
  }

  predicate InOrder(ps: seq<Package>) {
    forall i, j | 0 <= i < j < |ps| :: !Less(OrderKey(ps[j]), OrderKey(ps[i]))
  }

  /** One of the orders the sort may end in. */
  predicate ListsPackages(ps: seq<Package>, packages: set<Package>) {
    Distinct(ps) && Elements(ps) == packages && InOrder(ps)
  }

  function Insert(p: Package, ps: seq<Package>): seq<Package> {
    if ps == [] || !Less(OrderKey(ps[0]), OrderKey(p)) then [p] + ps else [ps[0]] + Insert(p, ps[1..])
  }

  lemma ElementsOfOne<T>(x: T)
    ensures Elements([x]) == {x}
  {
  }

  lemma {:induction false} InsertElements(p: Package, ps: seq<Package>)
    ensures Elements(Insert(p, ps)) == Elements(ps) + {p} && |Insert(p, ps)| == |ps| + 1
  {
    hide Less, OrderKey, Elements;
    ElementsConcat([p], ps);
    ElementsOfOne(p);
    if ps != [] && Less(OrderKey(ps[0]), OrderKey(p)) {
      InsertElements(p, ps[1..]);
      assert ps == [ps[0]] + ps[1..];
      ElementsConcat([ps[0]], ps[1..]);
      ElementsConcat([ps[0]], Insert(p, ps[1..]));
    }
  }

  lemma NotBelow(a: string, b: string, c: string)
    requires !Less(b, a) && !Less(c, b)
    ensures !Less(c, a)
  {
    LessTotal(a, b);
    LessTotal(b, c);
    if Less(c, a) {
      if Less(a, b) {
        LessTransitive(c, a, b);
      }
    }
  }

  lemma {:induction false} InsertInOrder(p: Package, ps: seq<Package>)
    requires InOrder(ps)
    ensures InOrder(Insert(p, ps))
  {
    hide Less, OrderKey;
    if ps == [] {
    } else if Less(OrderKey(ps[0]), OrderKey(p)) {
      InsertInOrder(p, ps[1..]);
      InsertElements(p, ps[1..]);
      var rest := Insert(p, ps[1..]);
      LessTotal(OrderKey(ps[0]), OrderKey(p));
      forall j | 0 <= j < |rest| ensures !Less(OrderKey(rest[j]), OrderKey(ps[0])) {
        assert rest[j] in Elements(rest);
      }
    } else {
      forall j | 0 <= j < |ps| ensures !Less(OrderKey(ps[j]), OrderKey(p)) {
        LessTotal(OrderKey(ps[0]), OrderKey(ps[0]));
        NotBelow(OrderKey(p), OrderKey(ps[0]), OrderKey(ps[j]));
      }
    }
  }

  lemma {:induction false} DistinctIfAsMany<T>(s: seq<T>)
    requires |Elements(s)| == |s|
    ensures Distinct(s)
  {
    if s != [] {
      var front, last := s[..|s| - 1], s[|s| - 1];
      assert s == front + [last];
      assert Elements(s) == Elements(front) + {last};
      AtMostAsMany(front);
      DistinctIfAsMany(front);
    }
  }

  lemma {:induction false} AtMostAsMany<T>(s: seq<T>)
    ensures |Elements(s)| <= |s|
  {
    if s != [] {
      var front, last := s[..|s| - 1], s[|s| - 1];
      AtMostAsMany(front);
      assert s == front + [last];
      assert Elements(s) == Elements(front) + {last};
    }
  }

  lemma InsertLists(p: Package, ps: seq<Package>, packages: set<Package>)
    requires ListsPackages(ps, packages) && p !in packages
    ensures ListsPackages(Insert(p, ps), packages + {p})
  {
    InsertElements(p, ps);
    InsertInOrder(p, ps);
    DistinctSize(ps);
    DistinctIfAsMany(Insert(p, ps));
  }

  method SortPackages(packages: set<Package>) returns (ps: seq<Package>)
    ensures ListsPackages(ps, packages)
  {
    ps := [];
    var rest := packages;
    while rest != {}
      invariant rest <= packages && ListsPackages(ps, packages - rest)
      decreases |rest|
    {
      var p :| p in rest;
      InsertLists(p, ps, packages - rest);
      assert packages - rest + {p} == packages - (rest - {p});
      ps := Insert(p, ps);
      rest := rest - {p};
    }
    assert packages - {} == packages;
  }

  // ---------------------------------------------------------------- one group

  ghost predicate IsDetail(d: Detail, images: RunningImages.Images, key: string, g: Group) {
    && d.vulnerabilityIDs == ShownIDs(key, SortedOf(g.vulns))
    && (exists all :: ListsPackages(all, g.packages) && d.packages == CapList(all))
    && d.workloads == CapList(SortedOf(Workloads(images, g)))
    && d.workloadsTotal == |Workloads(images, g)|
  }

  method ToDetail(images: RunningImages.Images, key: string, g: Group) returns (d: Detail)
    ensures IsDetail(d, images, key, g)
  {
    var ids := SortSet(g.vulns);
    var packages := SortPackages(g.packages);
    var workloads := SortSet(Workloads(images, g));
    SortedOfSorts(Workloads(images, g));
    return Detail(ShownIDs(key, ids), CapList(packages), CapList(workloads), |workloads|);
  }

  // ---------------------------------------------------------------- when the packages shown are determined

  function Smaller(packages: set<Package>, p: Package): set<Package> {
    set x | x in packages && Less(OrderKey(x), OrderKey(p))
  }

  /** No two packages that sort alike come among the first ten. */
  predicate Unambiguous(packages: set<Package>) {
    forall p, q | p in packages && q in packages && p != q && OrderKey(p) == OrderKey(q) ::
      |Smaller(packages, p)| >= MAX_LISTED
  }

  /** In a list, what sorts before an element stands before it; only its equals may be in between. */
  lemma SmallerStandsBefore(ps: seq<Package>, packages: set<Package>, i: nat)
    requires ListsPackages(ps, packages) && i < |ps|
    ensures Smaller(packages, ps[i]) <= Elements(ps[..i]) && |Elements(ps[..i])| == i
    ensures |Smaller(packages, ps[i])| <= i
    ensures (forall p | p in packages && p != ps[i] :: OrderKey(p) != OrderKey(ps[i])) ==>
              Smaller(packages, ps[i]) == Elements(ps[..i])
  {
    hide Less, OrderKey;
    forall x | x in Smaller(packages, ps[i]) ensures x in Elements(ps[..i]) {
      assert x in Elements(ps);
      var j :| 0 <= j < |ps| && ps[j] == x;
      LessTotal(OrderKey(x), OrderKey(x));
      assert j < i && ps[..i][j] == x;
    }
    DistinctSize(ps[..i]);
    SubsetSize(Smaller(packages, ps[i]), Elements(ps[..i]));
    if forall p | p in packages && p != ps[i] :: OrderKey(p) != OrderKey(ps[i]) {
      forall x | x in Elements(ps[..i]) ensures x in Smaller(packages, ps[i]) {
        var j :| 0 <= j < i && ps[j] == x;
        assert x in Elements(ps);
        LessTotal(OrderKey(x), OrderKey(ps[i]));
      }
    }
  }

  lemma SamePlace(p: seq<Package>, q: seq<Package>, packages: set<Package>, i: nat)
    requires ListsPackages(p, packages) && ListsPackages(q, packages) && Unambiguous(packages)
    requires i < |p| && i < MAX_LISTED
    ensures i < |q| && q[i] == p[i]
  {
    hide OrderKey, Smaller;
    SmallerStandsBefore(p, packages, i);
    assert p[i] in Elements(p);
    assert forall x | x in packages && x != p[i] :: OrderKey(x) != OrderKey(p[i]);
    var j :| 0 <= j < |q| && q[j] == p[i];
    SmallerStandsBefore(q, packages, j);
  }

  lemma SameCapped(p: seq<Package>, q: seq<Package>, packages: set<Package>)
    requires ListsPackages(p, packages) && ListsPackages(q, packages) && Unambiguous(packages)
    ensures CapList(p) == CapList(q)
  {
    hide Unambiguous, InOrder;
    DistinctSize(p);
    DistinctSize(q);
    forall i | 0 <= i < |CapList(p)| ensures CapList(p)[i] == CapList(q)[i] {
      SamePlace(p, q, packages, i);
    }
  }

  lemma {:induction false} SomeList(packages: set<Package>) returns (ps: seq<Package>)
    ensures ListsPackages(ps, packages)
    decreases packages
  {
    if packages == {} {
      ps := [];
    } else {
      var p :| p in packages;
      ps := SomeList(packages - {p});
      InsertLists(p, ps, packages - {p});
      ps := Insert(p, ps);
      assert packages - {p} + {p} == packages;
    }
  }

  /** A list in which p is the first of its equals. */
  lemma ListWithFirst(packages: set<Package>, p: Package) returns (ps: seq<Package>)
    requires p in packages
    ensures ListsPackages(ps, packages) && |Smaller(packages, p)| < |ps| && ps[|Smaller(packages, p)|] == p
  {
    var less := Smaller(packages, p);
    LessTotal(OrderKey(p), OrderKey(p));
    var more := packages - less - {p};
    var before := SomeList(less);
    var after := SomeList(more);
    ps := before + [p] + after;
    DistinctSize(before);
    ListsAround(before, p, after, packages);
  }

  lemma ListsAround(before: seq<Package>, p: Package, after: seq<Package>, packages: set<Package>)
    requires p in packages && p !in Smaller(packages, p)
    requires ListsPackages(before, Smaller(packages, p)) && ListsPackages(after, packages - Smaller(packages, p) - {p})
    ensures ListsPackages(before + [p] + after, packages)
  {
    hide Less, OrderKey;
    var ps := before + [p] + after;
    forall x | x in before ensures x in packages && Less(OrderKey(x), OrderKey(p)) && x != p {
      assert x in Elements(before);
    }
    forall x | x in after ensures x in packages && !Less(OrderKey(x), OrderKey(p)) && x != p {
      assert x in Elements(after);
    }
    forall i, j | 0 <= i < j < |ps| ensures ps[i] != ps[j] && !Less(OrderKey(ps[j]), OrderKey(ps[i])) {
      InPlace(before, p, after, i, j);
    }
    ElementsConcat(before, [p]);
    ElementsConcat(before + [p], after);
    assert Elements([p]) == {p};
  }

  lemma InPlace(before: seq<Package>, p: Package, after: seq<Package>, i: nat, j: nat)
    requires Distinct(before) && InOrder(before) && Distinct(after) && InOrder(after)
    requires forall x | x in before :: Less(OrderKey(x), OrderKey(p)) && x != p
    requires forall x | x in after :: !Less(OrderKey(x), OrderKey(p)) && x != p
    requires i < j < |before| + 1 + |after|
    ensures var ps := before + [p] + after; ps[i] != ps[j] && !Less(OrderKey(ps[j]), OrderKey(ps[i]))
  {
    hide Less, OrderKey;
    var ps := before + [p] + after;
    LessTotal(OrderKey(ps[i]), OrderKey(p));
    if i < |before| {
      assert ps[i] == before[i] && before[i] in before;
      if j < |before| {
        assert ps[j] == before[j];
      } else if j > |before| {
        assert ps[j] == after[j - |before| - 1] && ps[j] in after;
        NotBelow(OrderKey(ps[i]), OrderKey(p), OrderKey(ps[j]));
      }
    } else {
      assert ps[j] == after[j - |before| - 1] && ps[j] in after;
      if i > |before| {
        assert ps[i] == after[i - |before| - 1];
      }
    }
  }

  /** The sort leaves the packages shown undetermined exactly when two that sort alike come among the first ten. */
  lemma PackagesDeterminedExactly(packages: set<Package>)
    ensures (forall p, q | ListsPackages(p, packages) && ListsPackages(q, packages) :: CapList(p) == CapList(q))
            <==> Unambiguous(packages)
  {
    hide ListsPackages, Smaller;
    if Unambiguous(packages) {
      forall p, q | ListsPackages(p, packages) && ListsPackages(q, packages) ensures CapList(p) == CapList(q) {
        SameCapped(p, q, packages);
      }
    } else {
      var x, y :| x in packages && y in packages && x != y && OrderKey(x) == OrderKey(y)
                  && |Smaller(packages, x)| < MAX_LISTED;
      var p := ListWithFirst(packages, x);
      var q := ListWithFirst(packages, y);
      SmallerAlike(packages, x, y);
      assert CapList(p)[|Smaller(packages, x)|] == x && CapList(q)[|Smaller(packages, x)|] == y;
    }
  }

  lemma SmallerAlike(packages: set<Package>, x: Package, y: Package)
    requires OrderKey(x) == OrderKey(y)
    ensures Smaller(packages, x) == Smaller(packages, y)
  {
  }

  // ---------------------------------------------------------------- across feeding orders

  lemma DetailIsDetermined(images: RunningImages.Images, key: string, g: Group, h: Group, d: Detail, e: Detail)
    requires IsDetail(d, images, key, g) && IsDetail(e, images, key, h)
    requires g.vulns == h.vulns && g.packages == h.packages && g.images == h.images
    ensures d.(packages := e.packages) == e
    ensures Unambiguous(g.packages) ==> d == e
  {
    hide ListsPackages, Unambiguous;
    var all :| ListsPackages(all, g.packages) && d.packages == CapList(all);
    var others :| ListsPackages(others, h.packages) && e.packages == CapList(others);
    if Unambiguous(g.packages) {
      SameCapped(all, others, g.packages);
    }
  }

  /**
   Whatever order the findings came in, and whatever their severities and exploit values, a group shows the same
   vulnerabilities, workloads and, if they are unambiguous, packages.
   */
  lemma SameFindingsSameDetails(c: Context, a: seq<Finding>, b: seq<Finding>, images: RunningImages.Images, key: string,
    d: Detail, e: Detail)
    requires multiset(a) == multiset(b)
    requires key in Feed(c, NO_TOTALS, a).groups && IsDetail(d, images, key, Feed(c, NO_TOTALS, a).groups[key])
    ensures key in Feed(c, NO_TOTALS, b).groups
    ensures IsDetail(e, images, key, Feed(c, NO_TOTALS, b).groups[key]) ==>
              && d.(packages := e.packages) == e
              && (Unambiguous(Feed(c, NO_TOTALS, a).groups[key].packages) ==> d == e)
  {
    hide Feed, IsDetail, Unambiguous, AllCompatible;
    FeedingOrderDoesNotMatter(c, NO_TOTALS, a, b);
    var g := Blind(false, Feed(c, NO_TOTALS, a)).groups[key];
    assert key in Blind(false, Feed(c, NO_TOTALS, b)).groups;
    if IsDetail(e, images, key, Feed(c, NO_TOTALS, b).groups[key]) {
      DetailIsDetermined(images, key, Feed(c, NO_TOTALS, a).groups[key], Feed(c, NO_TOTALS, b).groups[key], d, e);
    }
  }

  // ---------------------------------------------------------------- in terms of the findings

  predicate AllSpace(s: string) {
    forall i | 0 <= i < |s| :: IsSpace(s[i])
  }

  /** t is s without the white space around it. */
  ghost predicate Trims(s: string, t: string) {
    && (t != "" ==> !IsSpace(t[0]) && !IsSpace(t[|t| - 1]))
    && exists a, b :: AllSpace(a) && AllSpace(b) && s == a + t + b
  }

  lemma {:induction false} TrimmedIs(s: string) returns (a: string, b: string)
    ensures AllSpace(a) && AllSpace(b) && s == a + TrimSpace(s) + b
    ensures var t := TrimSpace(s); t != "" ==> !IsSpace(t[0]) && !IsSpace(t[|t| - 1])
    decreases |s|
  {
    hide IsSpace, AllSpace, TrimSpace;
    TrimOnce(s);
    NoSpace();
    if s != "" && IsSpace(s[0]) {
      a, b := TrimmedIs(s[1..]);
      SpaceAround(s[0], a, b);
      assert s == [s[0]] + s[1..] == [s[0]] + (a + TrimSpace(s) + b);
      assert [s[0]] + (a + TrimSpace(s) + b) == [s[0]] + a + TrimSpace(s) + b;
      a := [s[0]] + a;
    } else if s != "" && IsSpace(s[|s| - 1]) {
      var last := s[|s| - 1];
      a, b := TrimmedIs(s[..|s| - 1]);
      SpaceAround(last, a, b);
      assert s == s[..|s| - 1] + [last] == (a + TrimSpace(s) + b) + [last];
      assert (a + TrimSpace(s) + b) + [last] == a + TrimSpace(s) + (b + [last]);
      b := b + [last];
    } else {
      a, b := "", "";
      assert s == "" + s + "";
    }
  }

  lemma TrimOnce(s: string)
    ensures TrimSpace(s) == if s != "" && IsSpace(s[0]) then TrimSpace(s[1..])
                            else if s != "" && IsSpace(s[|s| - 1]) then TrimSpace(s[..|s| - 1])
                            else s
  {
  }

  lemma NoSpace()
    ensures AllSpace("")
  {
  }

  lemma SpaceAround(c: char, a: string, b: string)
    requires IsSpace(c) && AllSpace(a) && AllSpace(b)
    ensures AllSpace([c] + a) && AllSpace(b + [c])
  {
  }

  lemma {:induction false} TrimmedOnly(a: string, t: string, b: string)
    requires AllSpace(a) && AllSpace(b) && (t != "" ==> !IsSpace(t[0]) && !IsSpace(t[|t| - 1]))
    ensures TrimSpace(a + t + b) == t
    decreases |a| + |b|
  {
    hide IsSpace;
    var s := a + t + b;
    if a != "" {
      assert s[1..] == a[1..] + t + b;
      TrimmedOnly(a[1..], t, b);
    } else if b != "" {
      assert s == t + b;
      if t == "" {
        assert s[1..] == "" + t + b[1..];
        TrimmedOnly("", t, b[1..]);
      } else {
        assert s[..|s| - 1] == "" + t + b[..|b| - 1];
        TrimmedOnly("", t, b[..|b| - 1]);
      }
    } else {
      assert s == t;
    }
  }

  lemma TrimExactly(s: string, t: string)
    ensures TrimSpace(s) == t <==> Trims(s, t)
  {
    var a, b := TrimmedIs(s);
    forall x, y | AllSpace(x) && AllSpace(y) && s == x + t + y && (t != "" ==> !IsSpace(t[0]) && !IsSpace(t[|t| - 1]))
      ensures TrimSpace(s) == t
    {
      TrimmedOnly(x, t, y);
    }
  }

  predicate FirstTen<T(==)>(out: seq<T>, all: seq<T>) {
    (|all| <= 10 ==> out == all) && (|all| > 10 ==> out == all[..10])
  }

  predicate NamedBy(members: seq<Finding>, id: string) {
    exists f :: f in members && Names(f, id)
  }

  /** The package is one of the findings', and has the group's name if the groups are packages. */
  predicate ShownPackage(c: Context, key: string, members: seq<Finding>, p: Package) {
    (c.groupBy == PACKAGE ==> p.name == key) && exists f :: f in members && HasPackage(f, p)
  }

  /** The workload runs an image that one of the findings is on, and that is the group's if the groups are images. */
  ghost predicate Runs(c: Context, images: RunningImages.Images, key: string, members: seq<Finding>, w: string) {
    exists img, f :: f in members && IsOn(c, f, img) && (c.groupBy == IMAGE ==> img.repo + "@" + img.digest == key)
                     && img.key in images && w in images[img.key].workloads
  }

  /** All the packages shown, each once and in order, and the first ten of them. */
  ghost predicate ShowsPackages(c: Context, key: string, members: seq<Finding>, all: seq<Package>,
    shown: seq<Package>) {
    && Distinct(all) && InOrder(all) && FirstTen(shown, all)
    && forall p :: p in all <==> ShownPackage(c, key, members, p)
  }

  ghost predicate ShowsIDs(key: string, ids: set<string>, shown: seq<string>) {
    if exists id :: ids == {id} && Trims(id, key) then shown == [] else FirstTen(shown, SortedOf(ids))
  }

  ghost predicate ShowsWorkloads(ws: set<string>, shown: seq<string>, total: nat) {
    FirstTen(shown, SortedOf(ws)) && total == |ws|
  }

  /** What a group lists of its findings. */
  ghost predicate Lists(d: Detail, c: Context, images: RunningImages.Images, key: string, members: seq<Finding>) {
    && (forall ids: set<string> | forall id :: id in ids <==> NamedBy(members, id) ::
          ShowsIDs(key, ids, d.vulnerabilityIDs))
    && (exists all :: ShowsPackages(c, key, members, all, d.packages))
    && (forall ws: set<string> | forall w :: w in ws <==> Runs(c, images, key, members, w) ::
          ShowsWorkloads(ws, d.workloads, d.workloadsTotal))
  }

  lemma ShownExactly(key: string, ids: set<string>)
    requires ids != {}
    ensures ShowsIDs(key, ids, ShownIDs(key, SortedOf(ids)))
  {
    SortedOfSorts(ids);
    var sorted := SortedOf(ids);
    if |ids| == 1 {
      assert Elements(sorted) == {sorted[0]};
      TrimExactly(sorted[0], key);
    }
    forall id | ids == {id} ensures |ids| == 1 && sorted[0] == id {
      assert sorted[0] in Elements(sorted);
    }
  }

  lemma NamesShown(c: Context, g: Group, key: string, members: seq<Finding>, ids: set<string>)
    requires Describes(c, g, key, members) && members != [] && forall id :: id in ids <==> NamedBy(members, id)
    ensures ids == g.vulns
    ensures ShowsIDs(key, ids, ShownIDs(key, SortedOf(ids)))
  {
    hide ShownIDs, InOrder, IsOn, HasPackage, Names, ShowsLargest, ShowsWorst, ShowsFirstWorst, WithSeverity, Trims;
    assert forall id :: id in g.vulns <==> NamedBy(members, id);
    var id := SomeName(members[0]);
    assert members[0] in members && NamedBy(members, id);
    ShownExactly(key, ids);
  }

  lemma PackagesShown(c: Context, g: Group, key: string, members: seq<Finding>, all: seq<Package>, shown: seq<Package>)
    requires Describes(c, g, key, members) && ListsPackages(all, g.packages) && shown == CapList(all)
    ensures ShowsPackages(c, key, members, all, shown)
  {
    hide InOrder, IsOn, HasPackage, Names, ShowsLargest, ShowsWorst, ShowsFirstWorst, WithSeverity;
    forall p ensures p in all <==> ShownPackage(c, key, members, p) {
      assert p in all <==> p in Elements(all);
    }
  }

  lemma WorkloadsShown(c: Context, images: RunningImages.Images, g: Group, key: string, members: seq<Finding>,
    ws: set<string>)
    requires Describes(c, g, key, members) && forall w :: w in ws <==> Runs(c, images, key, members, w)
    ensures ShowsWorkloads(ws, CapList(SortedOf(Workloads(images, g))), |Workloads(images, g)|)
  {
    hide Describes, Runs, Workloads;
    forall w ensures w in Workloads(images, g) <==> Runs(c, images, key, members, w) {
      WorkloadsExactly(c, images, key, g, members, w);
    }
    assert ws == Workloads(images, g);
  }

  /** The lists shown in a group are those of its counted findings. */
  lemma DetailTells(d: Detail, c: Context, images: RunningImages.Images, key: string, g: Group, members: seq<Finding>)
    requires IsDetail(d, images, key, g) && Describes(c, g, key, members) && members != []
    ensures Lists(d, c, images, key, members)
  {
    hide Describes, ShownIDs, NamedBy, ShowsIDs, ShowsWorkloads, ShowsPackages, Runs, Workloads, CapList,
      ListsPackages;
    forall ids: set<string> | forall id :: id in ids <==> NamedBy(members, id)
      ensures ShowsIDs(key, ids, d.vulnerabilityIDs)
    {
      NamesShown(c, g, key, members, ids);
    }
    var all :| ListsPackages(all, g.packages) && d.packages == CapList(all);
    PackagesShown(c, g, key, members, all, d.packages);
    forall ws: set<string> | forall w :: w in ws <==> Runs(c, images, key, members, w)
      ensures ShowsWorkloads(ws, d.workloads, d.workloadsTotal)
    {
      WorkloadsShown(c, images, g, key, members, ws);
    }
  }

  lemma WorkloadsExactly(c: Context, images: RunningImages.Images, key: string, g: Group, members: seq<Finding>,
    w: string)
    requires Describes(c, g, key, members)
    ensures w in Workloads(images, g) <==> Runs(c, images, key, members, w)
  {
    hide IsOn, HasPackage, Names, ShowsLargest, ShowsWorst, ShowsFirstWorst, WithSeverity;
  }

  lemma SomeName(f: Finding) returns (id: string)
    ensures Names(f, id)
  {
    id := VulnId(f);
  }

  /** Packages are in the order of their names, and of their versions under one name; names hold no zero character. */
  lemma OrderExactly(p: Package, q: Package)
    requires '\0' !in p.name && '\0' !in q.name
    ensures Less(OrderKey(p), OrderKey(q)) <==> Less(p.name, q.name) || (p.name == q.name && Less(p.version, q.version))
  {
    OrderOfParts(p.name, p.version, q.name, q.version);
  }

  lemma {:induction false} OrderOfParts(a: string, v: string, b: string, w: string)
    requires '\0' !in a && '\0' !in b
    ensures Less(a + "\0" + v, b + "\0" + w) <==> Less(a, b) || (a == b && Less(v, w))
    decreases |a|
  {
    var s, t := a + "\0" + v, b + "\0" + w;
    if a == "" && b == "" {
      assert s[1..] == v && t[1..] == w;
    } else if a != "" && b != "" {
      assert s[0] == a[0] && t[0] == b[0];
      assert s[1..] == a[1..] + "\0" + v && t[1..] == b[1..] + "\0" + w;
      OrderOfParts(a[1..], v, b[1..], w);
      assert a == [a[0]] + a[1..] && b == [b[0]] + b[1..];
    } else {
      assert a == "" ==> s[0] == '\0' && t[0] == b[0] && b[0] != '\0';
      assert b == "" ==> t[0] == '\0' && s[0] == a[0] && a[0] != '\0';
    }
  }
}
