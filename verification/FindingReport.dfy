/** The sorted, capped list of groups: the comparator is a strict total order, so the list is determined. */
module FindingReport {
  import opened Text
  import opened Tally
  import opened FindingAggregation
  import opened FindingMeaning

  datatype Row = Row(
    key: string,
    severity: string,
    exploit: string,
    images: nat,
    findings: nat,
    vulnerabilities: nat,
    epss: real,
    severityCounts: Counts)

  function RowOf(key: string, g: Group): Row {
    Row(key, g.severity, g.exploit, |g.images|, g.findings, |g.vulns|, g.epss, g.sevCounts)
  }

  /** Worst severity first, then exploitable ones, then the most images, the most findings, and by key. */
  predicate Before(a: Row, b: Row) {
    if Rank(a.severity) != Rank(b.severity) then Rank(a.severity) > Rank(b.severity)
    else if (a.exploit == "YES") != (b.exploit == "YES") then a.exploit == "YES"
    else if a.images != b.images then a.images > b.images
    else if a.findings != b.findings then a.findings > b.findings
    else Less(a.key, b.key)
  }

  lemma BeforeTransitive(a: Row, b: Row, c: Row)
    requires Before(a, b) && Before(b, c)
    ensures Before(a, c)
  {
    if Less(a.key, b.key) && Less(b.key, c.key) {
      LessTransitive(a.key, b.key, c.key);
    }
  }

  /** Rows with different keys are always ordered, one way only; a row is never before one with its own ranking. */
  lemma BeforeTotal(a: Row, b: Row)
    ensures !(Before(a, b) && Before(b, a))
    ensures !Before(a, a)
    ensures a.key != b.key ==> Before(a, b) || Before(b, a)
  {
    LessTotal(a.key, b.key);
    LessTotal(a.key, a.key);
  }

  /**
   The worse severity comes first, whatever else; at equal rank an exploitable group, then more images, then more
   findings, then the smaller key.
   */
  lemma BeforeExactly(a: Row, b: Row)
    ensures Outranks(a.severity, b.severity) ==> Before(a, b) && !Before(b, a)
    ensures a.severity == b.severity ==>
      && (a.exploit == "YES" != b.exploit ==> Before(a, b))
      && (a.exploit == b.exploit ==>
            && (a.images > b.images ==> Before(a, b))
            && (a.images == b.images && a.findings > b.findings ==> Before(a, b))
            && (a.images == b.images && a.findings == b.findings ==> (Before(a, b) <==> Less(a.key, b.key))))
  {
    if Outranks(a.severity, b.severity) {
      OutranksExactly(a.severity, b.severity);
    }
  }

  /** What a group's row shows of its findings. */
  ghost predicate RowTells(c: Context, r: Row, key: string, members: seq<Finding>) {
    && r.key == key && r.findings == |members|
    && (forall imgs: set<Image> |
          (forall img :: (img in imgs <==> (c.groupBy == IMAGE ==> img.repo + "@" + img.digest == key)
                                           && exists f :: f in members && IsOn(c, f, img))) :: r.images == |imgs|)
    && (forall ids: set<string> | (forall id :: (id in ids <==> exists f :: f in members && Names(f, id))) ::
          r.vulnerabilities == |ids|)
    && (forall sev :: Count(r.severityCounts, sev) == |WithSeverity(members, sev)|)
    && ShowsLargest(r.epss, members)
    && ShowsFirstWorst(r.severity, members)
    && ((forall f | f in members :: f.severity in SEVERITIES) ==> ShowsWorst(r.severity, members))
  }

  /** Every row of the report tells what its group's counted findings do. */
  lemma RowsTell(c: Context, findings: seq<Finding>, all: seq<Row>, r: Row)
    requires Lists(all, Feed(c, NO_TOTALS, findings).groups) && r in all
    ensures InGroup(c, findings, r.key) != [] && RowTells(c, r, r.key, InGroup(c, findings, r.key))
  {
    GroupsSayExactly(c, findings, r.key);
    hide Feed, InGroup, IsOn, Names, ShowsWorst, ShowsFirstWorst, ShowsLargest, WithSeverity, Sorted;
    var g, members := Feed(c, NO_TOTALS, findings).groups[r.key], InGroup(c, findings, r.key);
    forall imgs: set<Image> |
      (forall img :: (img in imgs <==> (c.groupBy == IMAGE ==> img.repo + "@" + img.digest == r.key)
                                       && exists f :: f in members && IsOn(c, f, img)))
      ensures r.images == |imgs|
    {
      assert forall img :: img in imgs <==> img in g.images;
      assert imgs == g.images;
    }
    forall ids: set<string> | (forall id :: (id in ids <==> exists f :: f in members && Names(f, id)))
      ensures r.vulnerabilities == |ids|
    {
      assert ids == g.vulns;
    }
  }

  predicate Sorted(rows: seq<Row>) {
    forall i, j | 0 <= i < j < |rows| :: Before(rows[i], rows[j])
  }

  /** `all` lists exactly the groups' rows in the comparator's order. */
  predicate Lists(all: seq<Row>, groups: map<string, Group>) {
    && Sorted(all)
    && (forall r | r in all :: r.key in groups && r == RowOf(r.key, groups[r.key]))
    && (forall k | k in groups :: RowOf(k, groups[k]) in all)
  }

  function Cap(all: seq<Row>, limit: nat): seq<Row> {
    if |all| > limit then all[..limit] else all
  }

  // ---------------------------------------------------------------- building it

  method InsertRow(rows: seq<Row>, r: Row) returns (out: seq<Row>)
    requires Sorted(rows) && forall x | x in rows :: x.key != r.key
    ensures Sorted(out) && forall x :: x in out <==> x in rows || x == r
  {
    var i := 0;
    while i < |rows| && Before(rows[i], r)
      invariant 0 <= i <= |rows|
      invariant forall j | 0 <= j < i :: Before(rows[j], r)
    {
      i := i + 1;
    }
    hide Before;
    InsertedSorted(rows, i, r);
    out := rows[..i] + [r] + rows[i..];
    assert rows == rows[..i] + rows[i..];
  }

  lemma InsertedSorted(rows: seq<Row>, i: nat, r: Row)
    requires Sorted(rows) && i <= |rows| && forall x | x in rows :: x.key != r.key
    requires forall j | 0 <= j < i :: Before(rows[j], r)
    requires i < |rows| ==> !Before(rows[i], r)
    ensures Sorted(rows[..i] + [r] + rows[i..])
  {
    hide Before;
    forall j | i <= j < |rows| ensures Before(r, rows[j]) {
      BeforeTotal(r, rows[i]);
      if i < j {
        BeforeTransitive(r, rows[i], rows[j]);
      }
    }
  }

  /** finish: the groups in whatever order the map yields them, sorted, and cut at the limit. */
  method Finish(groups: map<string, Group>, limit: nat) returns (out: seq<Row>, groupsTotal: nat)
    ensures groupsTotal == |groups|
    ensures exists all :: Lists(all, groups) && out == Cap(all, limit)
  {
    var all: seq<Row> := [];
    var todo := groups.Keys;
    while todo != {}
      invariant todo <= groups.Keys
      invariant Sorted(all)
      invariant forall r | r in all :: r.key in groups && r.key !in todo && r == RowOf(r.key, groups[r.key])
      invariant forall k | k in groups && k !in todo :: RowOf(k, groups[k]) in all
      decreases todo
    {
      var k :| k in todo;
      todo := todo - {k};
      all := InsertRow(all, RowOf(k, groups[k]));
    }
    groupsTotal := |groups|;
    out := Cap(all, limit);
    assert Lists(all, groups);
  }

  // ---------------------------------------------------------------- it is determined

  lemma SameFirst(a: seq<Row>, b: seq<Row>)
    requires Sorted(a) && Sorted(b) && a != [] && b != []
    requires forall r :: r in a <==> r in b
    ensures a[0] == b[0]
  {
    assert a[0] in b && b[0] in a;
    var i :| 0 <= i < |b| && b[i] == a[0];
    var j :| 0 <= j < |a| && a[j] == b[0];
    BeforeTotal(a[0], b[0]);
    BeforeTotal(b[0], b[0]);
  }

  lemma {:induction false} SortedUnique(a: seq<Row>, b: seq<Row>)
    requires Sorted(a) && Sorted(b) && forall r :: r in a <==> r in b
    ensures a == b
    decreases |a|
  {
    assert |a| > 0 ==> a[0] in b;
    assert |b| > 0 ==> b[0] in a;
    if a != [] && b != [] {
      SameFirst(a, b);
      TailMembers(a);
      TailMembers(b);
      SortedUnique(a[1..], b[1..]);
      assert a == [a[0]] + a[1..] && b == [b[0]] + b[1..];
    }
  }

  lemma TailMembers(a: seq<Row>)
    requires Sorted(a) && a != []
    ensures Sorted(a[1..]) && forall r :: r in a[1..] <==> r in a && r != a[0]
  {
    forall r | r in a[1..] ensures r != a[0] {
      BeforeTotal(a[0], a[0]);
    }
    assert a == [a[0]] + a[1..];
  }

  /** An unstable sort has no freedom here: the groups have exactly one sorted list. */
  lemma ReportIsDetermined(groups: map<string, Group>, a: seq<Row>, b: seq<Row>)
    requires Lists(a, groups) && Lists(b, groups)
    ensures a == b
  {
    forall r ensures r in a <==> r in b {
      assert r in a ==> r == RowOf(r.key, groups[r.key]);
      assert r in b ==> r == RowOf(r.key, groups[r.key]);
    }
    SortedUnique(a, b);
  }

  /** The whole scan: any two orders of feeding the same findings give the same capped list. */
  lemma SameFindingsSameReport(c: Context, a: seq<Finding>, b: seq<Finding>, limit: nat, listA: seq<Row>,
    listB: seq<Row>)
    requires multiset(a) == multiset(b) && AllCompatible(c, a)
    requires Lists(listA, Feed(c, NO_TOTALS, a).groups)
    requires Lists(listB, Feed(c, NO_TOTALS, b).groups)
    ensures Cap(listA, limit) == Cap(listB, limit)
  {
    FeedingOrderDoesNotMatter(c, NO_TOTALS, a, b);
    ReportIsDetermined(Feed(c, NO_TOTALS, a).groups, listA, listB);
  }

  /** No group that was cut off ranks above one that was kept. */
  lemma CapKeepsTheWorst(groups: map<string, Group>, all: seq<Row>, limit: nat, kept: Row, cut: string)
    requires Lists(all, groups) && kept in Cap(all, limit)
    requires cut in groups && RowOf(cut, groups[cut]) !in Cap(all, limit)
    ensures Before(kept, RowOf(cut, groups[cut])) && |Cap(all, limit)| == limit
  {
    var r := RowOf(cut, groups[cut]);
    var i :| 0 <= i < |Cap(all, limit)| && Cap(all, limit)[i] == kept;
    var j :| 0 <= j < |all| && all[j] == r;
    assert forall x | 0 <= x < |Cap(all, limit)| :: Cap(all, limit)[x] == all[x];
  }
}
