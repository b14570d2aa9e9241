/**
 cloudtrail_logins as a whole: each of its two scans feeds the matches of one CloudTrail run into an aggregator, and
 the last login is taken from the two listings.
 */
module LoginScan {
  import opened Options
  import opened Pages
  import opened Sequences
  import opened Tally
  import opened Text
  import CloudTrail = CloudTrailRun
  import Login = LoginAggregation

  /** What decoding makes of an event; its time is the event's own. */
  type Summarize = CloudTrail.Event -> Login.Event

  ghost predicate KeepsTime(summarize: Summarize) {
    forall e: CloudTrail.Event :: summarize(e).time == e.time
  }

  function Decoded(summarize: Summarize, events: seq<CloudTrail.Event>): seq<Login.Event> {
    seq(|events|, i requires 0 <= i < |events| => summarize(events[i]))
  }

  datatype Section = Section(
    matched: nat,
    scanned: nat,
    pages: nat,
    complete: bool,
    principals: seq<Login.Row>,
    events: seq<CloudTrail.Event>)

  datatype Request = Request(wanted: CloudTrail.Event -> bool, maxPages: int, keepEvents: nat, firstOnly: bool)

  /** One match is enough when only the first is asked for; otherwise the whole window is scanned. */
  function QueryOf(r: Request): CloudTrail.Query {
    var cap := if r.firstOnly || r.keepEvents == 0 then 1 else r.keepEvents;
    CloudTrail.Query(r.wanted, cap, r.maxPages, 0, !r.firstOnly)
  }

  /** The matches in the first k pages. */
  function Matches(server: CloudTrail.Server, r: Request, summarize: Summarize, k: nat): seq<Login.Event>
    requires k <= |server|
  {
    Decoded(summarize, CloudTrail.Hits(Flatten(server[..k]), r.wanted))
  }

  /** None unless events are to be kept; then one if the first match is enough, or else as many, up to 500. */
  predicate KeptOf(r: Request, hits: seq<CloudTrail.Event>, kept: seq<CloudTrail.Event>) {
    var most := if r.firstOnly then 1 else 500;
    var cap := if r.keepEvents < most then r.keepEvents else most;
    if |hits| <= cap then kept == hits else kept == hits[..cap]
  }

  /** The limit of pages: ten unless given, never above 60. */
  predicate PageLimit(r: Request, limit: int) {
    && (r.maxPages <= 0 ==> limit == 10)
    && (0 < r.maxPages <= 60 ==> limit == r.maxPages)
    && (60 < r.maxPages ==> limit == 60)
  }

  /**
   The scan read on while it was answered, below the limit, and, if the first match is enough, without one; and it
   stopped for one of these reasons or at the last page.
   */
  ghost predicate StopsRight(s: Section, server: CloudTrail.Server, r: Request, turns: nat -> CloudTrail.Turn) {
    && s.pages <= |server| && (s.complete <==> s.pages > 0 && s.pages == |server|)
    && (forall limit | PageLimit(r, limit) :: s.pages <= limit)
    && (forall k | 0 <= k < s.pages :: turns(k) == CloudTrail.Turn.Answer)
    && (r.firstOnly ==> forall k | 0 < k < s.pages :: CloudTrail.Hits(Flatten(server[..k]), r.wanted) == [])
    && (!s.complete ==>
          || (forall limit | PageLimit(r, limit) :: s.pages == limit)
          || turns(s.pages) in {CloudTrail.OutOfTime, CloudTrail.Throttle}
          || (r.firstOnly && CloudTrail.Hits(Flatten(server[..s.pages]), r.wanted) != []))
  }

  function RowCounts(rows: seq<Login.Row>): nat {
    if rows == [] then 0 else RowCounts(rows[..|rows| - 1]) + rows[|rows| - 1].summary.count
  }

  /**
   The section lists the principals of exactly the matches in the pages read, and their counts add up to the
   matches it reports; it is complete when it read the last page.
   */
  ghost predicate IsSection(s: Section, server: CloudTrail.Server, r: Request, summarize: Summarize) {
    && s.pages <= |server|
    && s.matched == |Matches(server, r, summarize, s.pages)| == RowCounts(s.principals)
    && s.scanned == |Flatten(server[..s.pages])|
    && Login.IsListing(s.principals, Login.After(Matches(server, r, summarize, s.pages)))
    && KeptOf(r, CloudTrail.Hits(Flatten(server[..s.pages]), r.wanted), s.events)
    && (s.complete ==> s.pages == |server|)
  }

  // ---------------------------------------------------------------- one scan

  method Scan(server: CloudTrail.Server, r: Request, turns: nat -> CloudTrail.Turn, summarize: Summarize)
    returns (section: Option<Section>)
    ensures section.Some? ==>
              IsSection(section.value, server, r, summarize) && StopsRight(section.value, server, r, turns)
    ensures section.None? ==> exists k, seen :: CloudTrail.FailsAfter(server, QueryOf(r), turns, k, seen)
  {
    hide Login.IsListing, CloudTrail.Answers, CloudTrail.Hits, Flatten, QueryOf, KeptOf, RowCounts, Login.After;
    hide PageLimit;
    var out, delivered := CloudTrail.Run(server, QueryOf(r), turns);
    if out.Failed? {
      FailureIsReal(server, QueryOf(r), turns, delivered);
      return None;
    }
    RunIsScan(server, r, turns, out.result, delivered);
    var rows := Gather(Decoded(summarize, delivered));
    ListedCounts(Decoded(summarize, delivered), rows);
    var res := out.result;
    var events := if r.keepEvents > 0 then res.events else [];
    RunStopsRight(server, r, turns, res, delivered, rows, events);
    return Some(Section(res.matched, res.scanned, res.pages, res.complete, rows, events));
  }

  lemma FailureIsReal(server: CloudTrail.Server, q: CloudTrail.Query, turns: nat -> CloudTrail.Turn,
    delivered: seq<CloudTrail.Event>)
    requires CloudTrail.Answers(server, q, turns, CloudTrail.Failed, delivered)
    ensures exists k, seen :: CloudTrail.FailsAfter(server, q, turns, k, seen)
  {
  }

  lemma RunStopsRight(server: CloudTrail.Server, r: Request, turns: nat -> CloudTrail.Turn, res: CloudTrail.Result,
    delivered: seq<CloudTrail.Event>, rows: seq<Login.Row>, events: seq<CloudTrail.Event>)
    requires CloudTrail.Answers(server, QueryOf(r), turns, CloudTrail.Done(res), delivered)
    ensures StopsRight(Section(res.matched, res.scanned, res.pages, res.complete, rows, events), server, r, turns)
  {
    hide CloudTrail.Answers, CloudTrail.Hits, Flatten, CloudTrail.Tells;
    var q := QueryOf(r);
    var limit, matches := CloudTrail.PageLimit(q), CloudTrail.MatchLimit(q);
    assert CloudTrail.Limits(q, limit, matches);
    CloudTrail.AnswersExactly(server, q, turns, res, delivered, limit, matches);
    RunIsScan(server, r, turns, res, delivered);
    forall k | 0 < k < res.pages && r.firstOnly ensures CloudTrail.Hits(Flatten(server[..k]), r.wanted) == [] {
      assert server[0..0 + k] == server[..k];
      assert CloudTrail.EventsRead(server, q.next, k) == Flatten(server[..k]);
    }
  }

  method Gather(events: seq<Login.Event>) returns (rows: seq<Login.Row>)
    ensures Login.IsListing(rows, Login.After(events))
  {
    hide Login.Add, Login.IsListing;
    var agg := new Login.Aggregator();
    for i := 0 to |events|
      invariant agg.Valid() && agg.Contents() == Login.After(events[..i])
    {
      assert events[..i + 1][..i] == events[..i];
      agg.AddEvent(events[i]);
    }
    assert events[..|events|] == events;
    rows := agg.List();
  }

  lemma RunIsScan(server: CloudTrail.Server, r: Request, turns: nat -> CloudTrail.Turn, res: CloudTrail.Result,
    delivered: seq<CloudTrail.Event>)
    requires CloudTrail.Answers(server, QueryOf(r), turns, CloudTrail.Done(res), delivered)
    ensures res.pages <= |server| && delivered == CloudTrail.Hits(Flatten(server[..res.pages]), r.wanted)
    ensures res.matched == |delivered| && res.scanned == |Flatten(server[..res.pages])|
    ensures KeptOf(r, delivered, if r.keepEvents > 0 then res.events else [])
    ensures res.complete ==> res.pages == |server|
  {
    CloudTrail.AnswersCover(server, QueryOf(r), turns, res, delivered);
    assert server[0..0 + res.pages] == server[..res.pages];
    if res.pages == 0 {
      assert server[..0] == [];
    }
  }

  lemma ListedCounts(events: seq<Login.Event>, rows: seq<Login.Row>)
    requires Login.IsListing(rows, Login.After(events))
    ensures RowCounts(rows) == |events|
  {
    hide Login.After;
    var s := Login.After(events);
    Login.CountsAddUp(events);
    RowsSum(rows, s, s.byKey.Keys);
    assert KeyCounts(s, s.byKey.Keys) == Login.CountsOf(s);
  }

  function KeyCounts(s: Login.State, keys: set<string>): Counts {
    map k | k in s.byKey && k in keys :: s.byKey[k].count
  }

  /** Rows of exactly these keys count what the keys' summaries count. */
  lemma {:induction false} RowsSum(rows: seq<Login.Row>, s: Login.State, keys: set<string>)
    requires Login.AreRows(rows, s, keys) && keys <= s.byKey.Keys
    ensures RowCounts(rows) == Sum(KeyCounts(s, keys))
    decreases rows
  {
    if rows != [] {
      var front, last := rows[..|rows| - 1], rows[|rows| - 1];
      FrontRows(rows, s, keys);
      RowsSum(front, s, keys - {last.key});
      SumWithout(KeyCounts(s, keys), last.key);
      assert KeyCounts(s, keys) - {last.key} == KeyCounts(s, keys - {last.key});
    } else {
      assert KeyCounts(s, keys) == map[];
    }
  }

  function RowKeys(rows: seq<Login.Row>): set<string> {
    set r | r in rows :: r.key
  }

  lemma {:induction false} KeysAtMost(rows: seq<Login.Row>)
    ensures |RowKeys(rows)| <= |rows|
  {
    if rows != [] {
      var front, last := rows[..|rows| - 1], rows[|rows| - 1];
      KeysAtMost(front);
      assert rows == front + [last];
      assert RowKeys(rows) == RowKeys(front) + {last.key};
    }
  }

  lemma FrontRows(rows: seq<Login.Row>, s: Login.State, keys: set<string>)
    requires Login.AreRows(rows, s, keys) && rows != []
    ensures rows[|rows| - 1].key in keys
    ensures Login.AreRows(rows[..|rows| - 1], s, keys - {rows[|rows| - 1].key})
  {
    var front, last := rows[..|rows| - 1], rows[|rows| - 1];
    assert rows == front + [last] && last in rows;
    KeysAtMost(front);
    forall k | k in keys && k != last.key ensures Login.HasRow(front, k) {
      assert Login.HasRow(rows, k);
      var r :| r in rows && r.key == k;
      assert r in front;
    }
    assert keys - {last.key} <= RowKeys(front);
    if last.key in RowKeys(front) {
      SubsetSize(keys, RowKeys(front));
    }
    forall r | r in front ensures r.key in keys - {last.key} {
      assert r in rows;
    }
  }

  // ---------------------------------------------------------------- both scans

  /** The task: the console scan, and the session scan if it is asked for. */
  method Execute(consoles: CloudTrail.Server, console: Request, consoleTurns: nat -> CloudTrail.Turn,
    sessions: CloudTrail.Server, session: Option<Request>, sessionTurns: nat -> CloudTrail.Turn, summarize: Summarize)
    returns (c: Option<Section>, s: Option<Section>, lastLogin: string)
    ensures c.Some? ==> IsSection(c.value, consoles, console, summarize)
    ensures s.Some? ==> session.Some? && IsSection(s.value, sessions, session.value, summarize)
    ensures c.Some? && (s.Some? || session.None?) ==>
      Login.IsLatest(lastLogin, Matches(consoles, console, summarize, c.value.pages)
                                + if s.Some? then Matches(sessions, session.value, summarize, s.value.pages) else [])
  {
    hide Matches;
    s, lastLogin := None, "";
    c := Scan(consoles, console, consoleTurns, summarize);
    if c.None? {
      return;
    }
    Login.NewestIsLatest(Matches(consoles, console, summarize, c.value.pages), c.value.principals);
    if session.Some? {
      s := Scan(sessions, session.value, sessionTurns, summarize);
      if s.None? {
        return;
      }
      Login.NewestIsLatest(Matches(sessions, session.value, summarize, s.value.pages), s.value.principals);
    }
    lastLogin := Login.LastLogin(c.value.principals, if s.Some? then Some(s.value.principals) else None);
    Login.LastLoginIsLatest(
      Matches(consoles, console, summarize, c.value.pages),
      if s.Some? then Matches(sessions, session.value, summarize, s.value.pages) else [],
      Login.Newest(c.value.principals),
      if s.Some? then Login.Newest(s.value.principals) else "");
  }

  // ---------------------------------------------------------------- events arrive newest first

  predicate NewestFirst(events: seq<CloudTrail.Event>) {
    forall i, j | 0 <= i < j < |events| :: !Less(events[i].time, events[j].time)
  }

  lemma {:induction false} HitsMember(events: seq<CloudTrail.Event>, wanted: CloudTrail.Event -> bool,
    e: CloudTrail.Event)
    ensures e in CloudTrail.Hits(events, wanted) <==> e in events && wanted(e)
  {
    if events != [] {
      var front, last := events[..|events| - 1], events[|events| - 1];
      HitsMember(front, wanted, e);
      assert events == front + [last];
    }
  }

  lemma DecodedMember(summarize: Summarize, events: seq<CloudTrail.Event>, x: Login.Event)
    ensures x in Decoded(summarize, events) <==> exists e :: e in events && summarize(e) == x
  {
    if e :| e in events && summarize(e) == x {
      var i :| 0 <= i < |events| && events[i] == e;
      assert Decoded(summarize, events)[i] == x;
    }
  }

  /**
   With events newest first, stopping early loses nothing: a scan that matched anything, or was complete, knows the
   latest time of all the matches in its whole window.
   */
  lemma EarlyStopKeepsTheLatest(server: CloudTrail.Server, r: Request, summarize: Summarize, k: nat, latest: string)
    requires k <= |server| && KeepsTime(summarize) && NewestFirst(Flatten(server))
    requires Matches(server, r, summarize, k) != [] || k == |server|
    requires Login.IsLatest(latest, Matches(server, r, summarize, k))
    ensures Login.IsLatest(latest, Matches(server, r, summarize, |server|))
  {
    assert server[..|server|] == server;
    if k < |server| {
      var seen, rest := Flatten(server[..k]), Flatten(server[k..]);
      assert server[..k] + server[k..] == server;
      FlattenConcat(server[..k], server[k..]);
      var hits, all := CloudTrail.Hits(seen, r.wanted), CloudTrail.Hits(seen + rest, r.wanted);
      CloudTrail.HitsConcat(seen, rest, r.wanted);
      assert all[0] == hits[0] && hits[0] in hits;
      var first := Decoded(summarize, hits)[0];
      assert first in Decoded(summarize, hits);
      forall x | x in Decoded(summarize, all) ensures !Less(latest, x.time) {
        LatestOverall(seen, rest, r, summarize, latest, x);
      }
      var l :| l in Decoded(summarize, hits) && l.time == latest;
      DecodedMember(summarize, hits, l);
      DecodedMember(summarize, all, l);
    }
  }

  lemma LatestOverall(seen: seq<CloudTrail.Event>, rest: seq<CloudTrail.Event>, r: Request, summarize: Summarize,
    latest: string, x: Login.Event)
    requires KeepsTime(summarize) && NewestFirst(seen + rest)
    requires Decoded(summarize, CloudTrail.Hits(seen, r.wanted)) != []
    requires Login.IsLatest(latest, Decoded(summarize, CloudTrail.Hits(seen, r.wanted)))
    requires x in Decoded(summarize, CloudTrail.Hits(seen + rest, r.wanted))
    ensures !Less(latest, x.time)
  {
    hide Less;
    var hits := CloudTrail.Hits(seen, r.wanted);
    DecodedMember(summarize, CloudTrail.Hits(seen + rest, r.wanted), x);
    var e :| e in CloudTrail.Hits(seen + rest, r.wanted) && summarize(e) == x;
    HitsMember(seen + rest, r.wanted, e);
    if e in seen {
      HitsMember(seen, r.wanted, e);
      DecodedMember(summarize, hits, x);
    } else {
      var h := hits[0];
      assert h in hits;
      HitsMember(seen, r.wanted, h);
      DecodedMember(summarize, hits, summarize(h));
      OlderLater(seen, rest, h, e);
      if Less(latest, x.time) {
        Login.NotBefore(h.time, latest, x.time);
      }
    }
  }

  lemma OlderLater(seen: seq<CloudTrail.Event>, rest: seq<CloudTrail.Event>, h: CloudTrail.Event, e: CloudTrail.Event)
    requires NewestFirst(seen + rest) && h in seen && e in seen + rest && e !in seen
    ensures !Less(h.time, e.time)
  {
    var i :| 0 <= i < |seen| && seen[i] == h;
    var j :| 0 <= j < |seen + rest| && (seen + rest)[j] == e;
    assert (seen + rest)[i] == h && i < j;
  }
}
