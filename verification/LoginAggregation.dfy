/** cloudtrail_logins: a scan's matching events gathered per principal and role, and the last login of both scans. */
module LoginAggregation {
  import opened Options
  import opened Permutations
  import opened Sequences
  import opened Tally
  import opened Text

  datatype Event = Event(
    time: string,
    name: string,
    principalRole: string,
    assumedRole: string,
    sourceIP: string,
    loginResult: string,
    errorCode: string)

  datatype Summary = Summary(name: string, role: string, count: nat, failures: nat, firstSeen: string, lastSeen: string)

  const MAX_IPS := 5

  function LastSegment(arn: string): string {
    if arn == "" || arn[|arn| - 1] == '/' then "" else LastSegment(arn[..|arn| - 1]) + [arn[|arn| - 1]]
  }

  function RoleOf(e: Event): string {
    if e.assumedRole != "" then LastSegment(e.assumedRole) else e.principalRole
  }

  function KeyOf(e: Event): string {
    ToLower(e.name) + "|" + RoleOf(e)
  }

  predicate Failed(e: Event) {
    e.loginResult == "Failure" || e.errorCode != ""
  }

  datatype State = State(byKey: map<string, Summary>, ips: map<string, set<string>>)

  const EMPTY := State(map[], map[])

  function Updated(s: Summary, e: Event): Summary {
    s.(count := s.count + 1,
       failures := s.failures + if Failed(e) then 1 else 0,
       firstSeen := if Less(e.time, s.firstSeen) then e.time else s.firstSeen,
       lastSeen := if Less(s.lastSeen, e.time) then e.time else s.lastSeen,
       name := if Less(s.lastSeen, e.time) then e.name else s.name)
  }

  function NewSummary(e: Event): Summary {
    Summary(e.name, RoleOf(e), 0, 0, e.time, e.time)
  }

  function WithIP(ips: set<string>, e: Event): set<string> {
    if e.sourceIP != "" && |ips| < MAX_IPS then ips + {e.sourceIP} else ips
  }

  function Add(s: State, e: Event): State {
    var key := KeyOf(e);
    State(s.byKey[key := Updated(At(s.byKey, NewSummary(e), key), e)],
          s.ips[key := WithIP(At(s.ips, {}, key), e)])
  }

  function After(events: seq<Event>): State {
    if events == [] then EMPTY else Add(After(events[..|events| - 1]), events[|events| - 1])
  }

  datatype Row = Row(key: string, summary: Summary, ips: set<string>)

  class Aggregator {
    var byKey: map<string, Summary>
    var ips: map<string, set<string>>

    constructor ()
      ensures Contents() == EMPTY
    {
      byKey, ips := map[], map[];
    }

    function Contents(): State
      reads this
    {
      State(byKey, ips)
    }

    /** A key has its address set from its first event on. */
    predicate Valid()
      reads this
    {
      byKey.Keys == ips.Keys
    }

    method AddEvent(e: Event)
      requires Valid()
      modifies this
      ensures Valid() && Contents() == Add(old(Contents()), e)
    {
      hide KeyOf, NewSummary, Updated, WithIP;
      var key := KeyOf(e);
      if key !in byKey {
        byKey := byKey[key := NewSummary(e)];
        ips := ips[key := {}];
      }
      var s := Record(byKey[key], e);
      byKey := byKey[key := s];
      var sample := Sample(ips[key], e);
      ips := ips[key := sample];
    }

    static method Sample(known: set<string>, e: Event) returns (sample: set<string>)
      ensures sample == WithIP(known, e)
    {
      sample := known;
      if e.sourceIP != "" && |known| < MAX_IPS {
        sample := sample + {e.sourceIP};
      }
    }

    static method Record(summary: Summary, e: Event) returns (s: Summary)
      ensures s == Updated(summary, e)
    {
      s := summary.(count := summary.count + 1);
      if e.loginResult == "Failure" || e.errorCode != "" {
        s := s.(failures := s.failures + 1);
      }
      if Less(e.time, s.firstSeen) {
        s := s.(firstSeen := e.time);
      }
      if Less(s.lastSeen, e.time) {
        s := s.(lastSeen := e.time, name := e.name);
      }
    }

    /** One row per key, latest first. */
    method List() returns (out: seq<Row>)
      requires Valid()
      ensures IsListing(out, Contents())
    {
      hide AreRows, LatestFirst;
      out := [];
      NoRows(Contents());
      var rest := byKey.Keys;
      assert byKey.Keys - rest == {};
      while rest != {}
        invariant rest <= byKey.Keys
        invariant AreRows(out, Contents(), byKey.Keys - rest) && LatestFirst(out)
        decreases |rest|
      {
        var key :| key in rest;
        out := InsertRow(out, Row(key, byKey[key], ips[key]), Contents(), byKey.Keys - rest);
        assert byKey.Keys - rest + {key} == byKey.Keys - (rest - {key});
        rest := rest - {key};
      }
      assert byKey.Keys - rest == byKey.Keys;
    }
  }

  // ---------------------------------------------------------------- the listing

  predicate LatestFirst(rows: seq<Row>) {
    forall i, j | 0 <= i < j < |rows| :: !Less(rows[i].summary.lastSeen, rows[j].summary.lastSeen)
  }

  predicate RowOf(r: Row, s: State) {
    r.key in s.byKey && r.key in s.ips && r == Row(r.key, s.byKey[r.key], s.ips[r.key])
  }

  predicate HasRow(rows: seq<Row>, k: string) {
    exists r :: r in rows && r.key == k
  }

  /** The rows of exactly these keys, as many as there are keys: each once. */
  predicate AreRows(rows: seq<Row>, s: State, keys: set<string>) {
    && (forall r | r in rows :: r.key in keys && RowOf(r, s))
    && (forall k | k in keys :: HasRow(rows, k))
    && |rows| == |keys|
  }

  lemma NoRows(s: State)
    ensures AreRows([], s, {}) && LatestFirst([])
  {
  }

  predicate IsListing(rows: seq<Row>, s: State) {
    AreRows(rows, s, s.byKey.Keys) && LatestFirst(rows)
  }

  /** sort.Slice, one row at a time. */
  method InsertRow(rows: seq<Row>, row: Row, ghost s: State, ghost keys: set<string>) returns (out: seq<Row>)
    requires AreRows(rows, s, keys) && LatestFirst(rows) && row.key !in keys
    requires RowOf(row, s)
    ensures AreRows(out, s, keys + {row.key}) && LatestFirst(out)
  {
    var i := 0;
    while i < |rows| && Less(row.summary.lastSeen, rows[i].summary.lastSeen)
      invariant 0 <= i <= |rows|
      invariant forall j | 0 <= j < i :: Less(row.summary.lastSeen, rows[j].summary.lastSeen)
    {
      i := i + 1;
    }
    out := rows[..i] + [row] + rows[i..];
    InsertedRows(rows, row, s, keys, i);
    InsertedOrder(rows, row, i);
  }

  lemma InsertedRows(rows: seq<Row>, row: Row, s: State, keys: set<string>, i: nat)
    requires AreRows(rows, s, keys) && row.key !in keys && RowOf(row, s) && i <= |rows|
    ensures AreRows(rows[..i] + [row] + rows[i..], s, keys + {row.key})
  {
    var out := rows[..i] + [row] + rows[i..];
    assert rows == rows[..i] + rows[i..];
    assert forall r :: r in out <==> r in rows || r == row;
    forall k | k in keys + {row.key} ensures HasRow(out, k) {
      if k == row.key {
        assert row in out;
      } else {
        var r :| r in rows && r.key == k;
        assert r in out;
      }
    }
  }

  lemma InsertedOrder(rows: seq<Row>, row: Row, i: nat)
    requires LatestFirst(rows) && i <= |rows|
    requires forall j | 0 <= j < i :: Less(row.summary.lastSeen, rows[j].summary.lastSeen)
    requires i < |rows| ==> !Less(row.summary.lastSeen, rows[i].summary.lastSeen)
    ensures LatestFirst(rows[..i] + [row] + rows[i..])
  {
    forall j | 0 <= j < i ensures !Less(rows[j].summary.lastSeen, row.summary.lastSeen) {
      LessTotal(rows[j].summary.lastSeen, row.summary.lastSeen);
    }
    forall j | i <= j < |rows| ensures !Less(row.summary.lastSeen, rows[j].summary.lastSeen) {
      if i < j && Less(row.summary.lastSeen, rows[j].summary.lastSeen) {
        NotBefore(rows[i].summary.lastSeen, row.summary.lastSeen, rows[j].summary.lastSeen);
      }
    }
  }

  lemma NotBefore(a: string, b: string, c: string)
    requires !Less(b, a) && Less(b, c)
    ensures Less(a, c)
  {
    LessTotal(a, b);
    if Less(a, b) {
      LessTransitive(a, b, c);
    }
  }

  // ---------------------------------------------------------------- what a summary says

  function OfKey(events: seq<Event>, key: string): seq<Event> {
    if events == [] then []
    else
      var last := events[|events| - 1];
      OfKey(events[..|events| - 1], key) + if KeyOf(last) == key then [last] else []
  }

  function Failures(events: seq<Event>): nat {
    if events == [] then 0
    else
      var last := events[|events| - 1];
      Failures(events[..|events| - 1]) + if last.loginResult == "Failure" || last.errorCode != "" then 1 else 0
  }

  function IPs(events: seq<Event>): set<string> {
    set e | e in events && e.sourceIP != "" :: e.sourceIP
  }

  /** A summary of these events: their number, failures, role, earliest and latest time, and the name used last. */
  predicate Summarizes(s: Summary, events: seq<Event>) {
    && s.count == |events|
    && s.failures == Failures(events)
    && (events != [] ==> s.role == RoleOf(events[0]))
    && (forall e | e in events :: !Less(e.time, s.firstSeen) && !Less(s.lastSeen, e.time))
    && (exists e :: e in events && e.time == s.firstSeen)
    && (exists e :: e in events && e.time == s.lastSeen && e.name == s.name)
  }

  /** At most five addresses, all of them the events', and all of the events' if there are no more. */
  predicate SamplesIPs(ips: set<string>, events: seq<Event>) {
    ips <= IPs(events) && |ips| <= 5 && (|ips| < 5 ==> ips == IPs(events))
  }

  lemma UpdatedSummarizes(s: Summary, events: seq<Event>, e: Event)
    requires Summarizes(s, events)
    ensures Summarizes(Updated(s, e), events + [e])
  {
    hide Less;
    var t := Updated(s, e);
    LessTotal(e.time, e.time);
    assert (events + [e])[..|events|] == events;
    LessTotal(e.time, s.firstSeen);
    LessTotal(s.lastSeen, e.time);
    forall x | x in events + [e] ensures !Less(x.time, t.firstSeen) && !Less(t.lastSeen, x.time) {
      if x in events {
        if Less(x.time, e.time) && Less(e.time, s.firstSeen) {
          LessTransitive(x.time, e.time, s.firstSeen);
        }
        if Less(s.lastSeen, e.time) && Less(e.time, x.time) {
          LessTransitive(s.lastSeen, e.time, x.time);
        }
      }
    }
    var first :| first in events && first.time == s.firstSeen;
    var last :| last in events && last.time == s.lastSeen && last.name == s.name;
    assert first in events + [e] && last in events + [e] && e in events + [e];
  }

  lemma NewSummarizes(e: Event)
    ensures Summarizes(Updated(NewSummary(e), e), [e])
  {
    LessTotal(e.time, e.time);
    assert [e][..0] == [] && e in [e];
    assert Failures([e]) == if Failed(e) then 1 else 0;
  }

  lemma IPsGrow(events: seq<Event>, e: Event)
    ensures IPs(events + [e]) == IPs(events) + if e.sourceIP != "" then {e.sourceIP} else {}
  {
    assert e in events + [e];
  }

  lemma WithIPSamples(ips: set<string>, events: seq<Event>, e: Event)
    requires SamplesIPs(ips, events)
    ensures SamplesIPs(WithIP(ips, e), events + [e])
  {
    IPsGrow(events, e);
  }

  lemma NoIPs()
    ensures SamplesIPs({}, [])
  {
  }

  /** After any events, each key met has a summary and an address sample of exactly its own events. */
  lemma {:induction false} EveryKeySummarized(events: seq<Event>, key: string)
    ensures key in After(events).byKey <==> OfKey(events, key) != []
    ensures key in After(events).ips <==> OfKey(events, key) != []
    ensures key in After(events).byKey ==>
      && Summarizes(After(events).byKey[key], OfKey(events, key))
      && SamplesIPs(After(events).ips[key], OfKey(events, key))
  {
    hide Updated, NewSummary, Summarizes, SamplesIPs, WithIP, KeyOf;
    if events != [] {
      var front, e := events[..|events| - 1], events[|events| - 1];
      EveryKeySummarized(front, key);
      if KeyOf(e) == key {
        assert OfKey(events, key) == OfKey(front, key) + [e];
        if key in After(front).byKey {
          UpdatedSummarizes(After(front).byKey[key], OfKey(front, key), e);
          WithIPSamples(After(front).ips[key], OfKey(front, key), e);
        } else {
          NewSummarizes(e);
          NoIPs();
          WithIPSamples({}, [], e);
          assert OfKey(events, key) == [e] && [] + [e] == [e];
        }
      } else {
        assert OfKey(events, key) == OfKey(front, key);
      }
    }
  }

  lemma {:induction false} FailuresConcat(a: seq<Event>, b: seq<Event>)
    ensures Failures(a + b) == Failures(a) + Failures(b)
  {
    if b == [] {
      assert a + b == a;
    } else {
      assert (a + b)[..|a + b| - 1] == a + b[..|b| - 1];
      FailuresConcat(a, b[..|b| - 1]);
    }
  }

  lemma {:induction false} FailuresPermuted(a: seq<Event>, b: seq<Event>)
    requires multiset(a) == multiset(b)
    ensures Failures(a) == Failures(b)
    decreases |a|
  {
    if a == [] {
      assert |multiset(a)| == |multiset(b)|;
    } else {
      var i := TakeHeadOut(a, b);
      FailuresPermuted(a[1..], b[..i] + b[i + 1..]);
      assert a == [a[0]] + a[1..];
      FailuresConcat([a[0]], a[1..]);
      FailuresConcat(b[..i], [a[0]] + b[i + 1..]);
      FailuresConcat([a[0]], b[i + 1..]);
      FailuresConcat(b[..i], b[i + 1..]);
    }
  }

  /** Whatever order the events came in, counts, failures and times are determined by them. */
  lemma TimesAreDetermined(s: Summary, t: Summary, a: seq<Event>, b: seq<Event>)
    requires Summarizes(s, a) && Summarizes(t, b) && multiset(a) == multiset(b)
    ensures s.count == t.count && s.failures == t.failures
    ensures s.firstSeen == t.firstSeen && s.lastSeen == t.lastSeen
  {
    FailuresPermuted(a, b);
    assert |multiset(a)| == |a| && |multiset(b)| == |b|;
    assert forall e :: e in a <==> e in multiset(a);
    assert forall e :: e in b <==> e in multiset(b);
    var f :| f in a && f.time == s.firstSeen;
    var g :| g in b && g.time == t.firstSeen;
    LessTotal(f.time, g.time);
    var l :| l in a && l.time == s.lastSeen;
    var m :| m in b && m.time == t.lastSeen;
    LessTotal(l.time, m.time);
  }

  function CountsOf(s: State): Counts {
    map k | k in s.byKey :: s.byKey[k].count
  }

  lemma OneMoreCounted(s: State, e: Event)
    ensures CountsOf(Add(s, e)) == Bump(CountsOf(s), KeyOf(e))
  {
    hide KeyOf, Less;
    var l, r := CountsOf(Add(s, e)), Bump(CountsOf(s), KeyOf(e));
    assert l.Keys == r.Keys;
    assert forall k | k in l :: l[k] == r[k];
  }

  /** The principals' counts add up to the events added. */
  lemma {:induction false} CountsAddUp(events: seq<Event>)
    ensures Sum(CountsOf(After(events))) == |events|
  {
    hide Add, KeyOf;
    if events == [] {
      assert CountsOf(EMPTY) == map[];
    } else {
      var front, e := events[..|events| - 1], events[|events| - 1];
      CountsAddUp(front);
      OneMoreCounted(After(front), e);
      SumBump(CountsOf(After(front)), KeyOf(e));
    }
  }

  // ---------------------------------------------------------------- the last login

  /** The first row's time, or the sessions' first row's if that is later. */
  method LastLogin(console: seq<Row>, sessions: Option<seq<Row>>) returns (last: string)
    ensures last == LatestOf(Newest(console), if sessions.Some? then Newest(sessions.value) else "")
  {
    last := "";
    if |console| > 0 {
      last := console[0].summary.lastSeen;
    }
    if sessions.Some? && |sessions.value| > 0 && Less(last, sessions.value[0].summary.lastSeen) {
      last := sessions.value[0].summary.lastSeen;
    }
    LessTotal(last, "");
  }

  function Newest(rows: seq<Row>): string {
    if rows == [] then "" else rows[0].summary.lastSeen
  }

  function LatestOf(a: string, b: string): string {
    if Less(a, b) then b else a
  }

  lemma OfKeyMember(events: seq<Event>, e: Event)
    requires e in events
    ensures e in OfKey(events, KeyOf(e))
  {
    if e != events[|events| - 1] {
      assert e in events[..|events| - 1];
      OfKeyMember(events[..|events| - 1], e);
    }
  }

  lemma OfKeyFrom(events: seq<Event>, key: string, e: Event)
    requires e in OfKey(events, key)
    ensures e in events && KeyOf(e) == key
  {
    if e !in OfKey(events[..|events| - 1], key) {
      assert e == events[|events| - 1];
    } else {
      OfKeyFrom(events[..|events| - 1], key, e);
    }
  }

  /** The latest time of the events, "" if there are none. */
  predicate IsLatest(time: string, events: seq<Event>) {
    && (forall e | e in events :: !Less(time, e.time))
    && if events == [] then time == "" else exists e :: e in events && e.time == time
  }

  /** The first row of a listing carries the latest time of all the events. */
  lemma NewestIsLatest(events: seq<Event>, rows: seq<Row>)
    requires IsListing(rows, After(events))
    ensures IsLatest(Newest(rows), events)
  {
    var s := After(events);
    forall e | e in events ensures !Less(Newest(rows), e.time) && rows != [] {
      var key := KeyOf(e);
      OfKeyMember(events, e);
      EveryKeySummarized(events, key);
      assert HasRow(rows, key);
      var r :| r in rows && r.key == key;
      var i :| 0 <= i < |rows| && rows[i] == r;
      if Less(Newest(rows), e.time) {
        LatestThere(rows, i, e.time);
      }
    }
    if events != [] {
      assert events[0] in events;
      assert rows[0] in rows;
      var key := rows[0].key;
      EveryKeySummarized(events, key);
      var e :| e in OfKey(events, key) && e.time == s.byKey[key].lastSeen;
      OfKeyFrom(events, key, e);
    }
  }

  lemma LatestThere(rows: seq<Row>, i: nat, time: string)
    requires LatestFirst(rows) && i < |rows| && Less(Newest(rows), time)
    ensures Less(rows[i].summary.lastSeen, time)
  {
    if i > 0 {
      LessTotal(rows[i].summary.lastSeen, time);
      if !Less(rows[i].summary.lastSeen, time) {
        if Less(time, rows[i].summary.lastSeen) {
          LessTransitive(Newest(rows), time, rows[i].summary.lastSeen);
        }
      }
    }
  }

  /** last_login is the latest time over all the matches of both scans. */
  lemma LastLoginIsLatest(console: seq<Event>, sessions: seq<Event>, c: string, s: string)
    requires IsLatest(c, console) && IsLatest(s, sessions)
    ensures IsLatest(LatestOf(c, s), console + sessions)
  {
    forall e | e in console + sessions ensures !Less(LatestOf(c, s), e.time) {
      if Less(LatestOf(c, s), e.time) {
        LessTotal(c, s);
        if Less(c, s) {
          LessTransitive(c, s, e.time);
        }
        if Less(s, c) {
          LessTransitive(s, c, e.time);
        }
      }
    }
    LessTotal(c, s);
    LessTotal(c, "");
    LessTotal(s, "");
    assert forall e | e in console :: e in console + sessions;
    assert forall e | e in sessions :: e in console + sessions;
  }

  // ---------------------------------------------------------------- whose events go together

  /** The role assumed, by the last part of its path, or else the principal's own. */
  lemma RoleExactly(e: Event)
    ensures e.assumedRole == "" ==> RoleOf(e) == e.principalRole
    ensures e.assumedRole != "" ==> '/' !in RoleOf(e)
    ensures e.assumedRole != "" ==>
              e.assumedRole == RoleOf(e) || exists path: string :: e.assumedRole == path + "/" + RoleOf(e)
  {
    if e.assumedRole != "" {
      var path := LastSegmentExactly(e.assumedRole);
    }
  }

  lemma {:induction false} LastSegmentExactly(arn: string) returns (path: string)
    ensures '/' !in LastSegment(arn)
    ensures arn == LastSegment(arn) || arn == path + "/" + LastSegment(arn)
  {
    if arn == "" {
      path := "";
    } else if arn[|arn| - 1] == '/' {
      path := arn[..|arn| - 1];
    } else {
      path := LastSegmentExactly(arn[..|arn| - 1]);
      assert arn == arn[..|arn| - 1] + [arn[|arn| - 1]];
    }
  }

  /** Events go together exactly if they have one name, in whatever case, and one role; no role has a bar in it. */
  lemma SameKeyExactly(e: Event, f: Event)
    requires '|' !in RoleOf(e) && '|' !in RoleOf(f)
    ensures KeyOf(e) == KeyOf(f) <==> ToLower(e.name) == ToLower(f.name) && RoleOf(e) == RoleOf(f)
  {
    hide RoleOf, ToLower;
    if KeyOf(e) == KeyOf(f) {
      SplitAtLast('|', ToLower(e.name), RoleOf(e), ToLower(f.name), RoleOf(f));
    }
  }

  /** The events of a key are those that have it, each as often as it is listed and in the same order. */
  lemma {:induction false} OfKeyExactly(events: seq<Event>, key: string)
    ensures Keeps(OfKey(events, key), events, (e: Event) => KeyOf(e) == key)
  {
    hide KeyOf;
    var keep := (e: Event) => KeyOf(e) == key;
    if events == [] {
      KeepsNone(keep);
    } else {
      var front, last := events[..|events| - 1], events[|events| - 1];
      OfKeyExactly(front, key);
      KeepsOneMore(OfKey(front, key), front, keep, last);
      assert events == front + [last];
    }
  }
}
