/**
 cloudtrail_common.Run: pages of LookupEvents, newest first, until the window is exhausted or a limit is hit,
 and the chain of calls a caller makes by passing each result's token to the next call.
 */
module CloudTrailRun {
  import opened Pages
  import opened Sequences

  /** `time` is "" for an event without one. */
  datatype Event = Event(id: string, time: string, principal: string)

  /** The pages CloudTrail has for one query. */
  type Server = Pages<Event>

  /** `wanted` is the match on the principal's name or ARN. */
  datatype Query = Query(wanted: Event -> bool, maxMatches: int, maxPages: int, next: nat, scanAll: bool)

  /** What the clock, the limiter and the service do on one round of the loop. */
  datatype Turn = Answer | OutOfTime | Throttle | Broken

  datatype Stop = Exhausted | MaxMatches | MaxPages | TimeBudget | Throttled

  datatype Result = Result(
    events: seq<Event>,
    matched: nat,
    scanned: nat,
    pages: nat,
    coveredFrom: string,
    coveredTo: string,
    complete: bool,
    stop: Stop,
    nextToken: nat)

  datatype Outcome = Failed | Done(result: Result)

  function Min(a: int, b: int): int {
    if a < b then a else b
  }

  function PageLimit(q: Query): (n: nat)
    ensures 1 <= n <= 60
  {
    Min(if q.maxPages <= 0 then 10 else q.maxPages, 60)
  }

  function MatchLimit(q: Query): (n: nat)
    ensures 1 <= n <= 500
  {
    Min(if q.maxMatches <= 0 then 50 else q.maxMatches, 500)
  }

  function Hits(events: seq<Event>, wanted: Event -> bool): seq<Event> {
    if events == [] then []
    else
      var last := events[|events| - 1];
      Hits(events[..|events| - 1], wanted) + if wanted(last) then [last] else []
  }

  /** The events of the first k pages from the query's token on. */
  function Seen(server: Server, q: Query, k: nat): seq<Event>
    requires q.next + k <= |server| || k == 0
  {
    Read(server, q.next, k)
  }

  function FirstTime(events: seq<Event>): string {
    if events == [] then "" else if events[0].time != "" then events[0].time else FirstTime(events[1..])
  }

  function LastTime(events: seq<Event>): string {
    if events == [] then "" else events[|events| - 1].time
  }

  // ---------------------------------------------------------------- where a call stops

  datatype Verdict = Continue | StopFor(reason: Stop) | Fail

  /** What happens once k pages have been read, with this many matches, if the next round is `turn`. */
  function Decide(left: bool, q: Query, turn: Turn, k: nat, matched: nat): Verdict {
    if k > 0 && !left then StopFor(Exhausted)
    else if k > 0 && !q.scanAll && matched >= MatchLimit(q) then StopFor(MaxMatches)
    else if k >= PageLimit(q) then StopFor(MaxPages)
    else
      match turn
      case Answer => if left then Continue else Fail
      case OutOfTime => StopFor(TimeBudget)
      case Throttle => StopFor(Throttled)
      case Broken => Fail
  }

  function Next(server: Server, q: Query, turns: nat -> Turn, k: nat): Verdict
    requires q.next + k <= |server| || k == 0
  {
    Decide(q.next + k < |server|, q, turns(k), k, |Hits(Seen(server, q, k), q.wanted)|)
  }

  /** The call reads k pages: nothing stops it earlier, and something stops it there. */
  predicate Reads(server: Server, q: Query, turns: nat -> Turn, k: nat) {
    && (q.next + k <= |server| || k == 0)
    && (forall j | 0 <= j < k :: Next(server, q, turns, j) == Continue)
    && Next(server, q, turns, k) != Continue
  }

  /** What a call has put together from the events seen so far; `delivered` lists the calls of OnMatch. */
  datatype Progress = Progress(
    delivered: seq<Event>,
    events: seq<Event>,
    matched: nat,
    scanned: nat,
    coveredFrom: string,
    coveredTo: string)

  predicate Tracks(q: Query, seen: seq<Event>, p: Progress) {
    && p.delivered == Hits(seen, q.wanted)
    && p.events == p.delivered[..Min(|p.delivered|, MatchLimit(q))]
    && p.matched == |p.delivered|
    && p.scanned == |seen|
    && p.coveredFrom == LastTime(seen)
    && p.coveredTo == FirstTime(seen)
  }

  /** The result reports exactly the pages read. */
  predicate Reports(server: Server, q: Query, r: Result, delivered: seq<Event>)
    requires q.next + r.pages <= |server| || r.pages == 0
  {
    && Tracks(q, Seen(server, q, r.pages),
              Progress(delivered, r.events, r.matched, r.scanned, r.coveredFrom, r.coveredTo))
    && r.complete == (r.stop == Exhausted)
    && r.nextToken == if r.complete then 0 else q.next + r.pages
  }

  lemma {:induction false} FirstTimeSnoc(events: seq<Event>, e: Event)
    ensures FirstTime(events + [e]) == if FirstTime(events) != "" then FirstTime(events) else e.time
  {
    if events == [] {
      assert [e][1..] == [];
    } else {
      assert (events + [e])[1..] == events[1..] + [e];
      FirstTimeSnoc(events[1..], e);
    }
  }

  /** The call stops after the right number of pages, for the right reason, and reports exactly those pages. */
  ghost predicate Answers(server: Server, q: Query, turns: nat -> Turn, out: Outcome, delivered: seq<Event>) {
    match out
    case Done(r) =>
      && Reads(server, q, turns, r.pages)
      && Next(server, q, turns, r.pages) == StopFor(r.stop)
      && Reports(server, q, r, delivered)
    case Failed => exists k :: FailsAfter(server, q, turns, k, delivered)
  }

  predicate FailsAfter(server: Server, q: Query, turns: nat -> Turn, k: nat, delivered: seq<Event>) {
    && Reads(server, q, turns, k)
    && Next(server, q, turns, k) == Fail
    && delivered == Hits(Seen(server, q, k), q.wanted)
  }

  method Absorb(q: Query, page: seq<Event>, start: Progress, ghost before: seq<Event>) returns (p: Progress)
    requires Tracks(q, before, start)
    ensures Tracks(q, before + page, p)
  {
    p := start;
    assert before + page[..0] == before;
    for i := 0 to |page|
      invariant Tracks(q, before + page[..i], p)
    {
      var e := page[i];
      ghost var seen := before + page[..i];
      assert before + page[..i + 1] == seen + [e];
      assert (seen + [e])[..|seen|] == seen;
      FirstTimeSnoc(seen, e);
      p := p.(scanned := p.scanned + 1, coveredFrom := e.time);
      if p.coveredTo == "" {
        p := p.(coveredTo := e.time);
      }
      if q.wanted(e) {
        p := p.(matched := p.matched + 1, delivered := p.delivered + [e]);
        if |p.events| < MatchLimit(q) {
          p := p.(events := p.events + [e]);
        }
      }
    }
    assert page[..|page|] == page;
  }

  /** k pages are in, nothing stopped the call before, and p is what they add up to. */
  ghost predicate Reached(server: Server, q: Query, turns: nat -> Turn, k: nat, p: Progress) {
    && (q.next + k <= |server| || k == 0)
    && (forall j | 0 <= j < k :: Next(server, q, turns, j) == Continue)
    && Tracks(q, Seen(server, q, k), p)
  }

  lemma ReachNext(server: Server, q: Query, turns: nat -> Turn, k: nat, p: Progress, after: Progress)
    requires Reached(server, q, turns, k, p)
    requires Decide(q.next + k < |server|, q, turns(k), k, p.matched) == Continue
    requires Tracks(q, Seen(server, q, k) + server[q.next + k], after)
    ensures Reached(server, q, turns, k + 1, after)
  {
    ReadOneMore(server, q.next, k);
  }

  function ResultOf(q: Query, k: nat, p: Progress, stop: Stop): Result {
    Result(p.events, p.matched, p.scanned, k, p.coveredFrom, p.coveredTo, stop == Exhausted, stop,
           if stop == Exhausted then 0 else q.next + k)
  }

  lemma StopAnswers(server: Server, q: Query, turns: nat -> Turn, k: nat, p: Progress, stop: Stop)
    requires Reached(server, q, turns, k, p)
    requires Decide(q.next + k < |server|, q, turns(k), k, p.matched) == StopFor(stop)
    ensures Answers(server, q, turns, Done(ResultOf(q, k, p, stop)), p.delivered)
  {
  }

  lemma FailureAnswers(server: Server, q: Query, turns: nat -> Turn, k: nat, p: Progress)
    requires Reached(server, q, turns, k, p)
    requires Decide(q.next + k < |server|, q, turns(k), k, p.matched) == Fail
    ensures Answers(server, q, turns, Failed, p.delivered)
  {
    assert FailsAfter(server, q, turns, k, p.delivered);
  }

  method Run(server: Server, q: Query, turns: nat -> Turn) returns (out: Outcome, delivered: seq<Event>)
    ensures Answers(server, q, turns, out, delivered)
  {
    var token, pages, stop := q.next, 0, MaxPages;
    var p := Progress([], [], 0, 0, "", "");
    while true
      invariant 0 <= pages <= PageLimit(q) && token == q.next + pages
      invariant pages > 0 ==> token < |server| && (q.scanAll || p.matched < MatchLimit(q))
      invariant Reached(server, q, turns, pages, p)
      decreases PageLimit(q) - pages
    {
      if pages >= PageLimit(q) {
        stop := MaxPages;
        break;
      }
      var turn := turns(pages);
      if turn == OutOfTime {
        stop := TimeBudget;
        break;
      }
      if turn == Throttle {
        stop := Throttled;
        break;
      }
      if turn == Broken || token >= |server| {
        FailureAnswers(server, q, turns, pages, p);
        return Failed, p.delivered;
      }
      var after := Absorb(q, server[token], p, Seen(server, q, pages));
      ReachNext(server, q, turns, pages, p, after);
      p := after;
      pages := pages + 1;
      token := token + 1;
      if token == |server| {
        stop := Exhausted;
        break;
      }
      if !q.scanAll && p.matched >= MatchLimit(q) {
        stop := MaxMatches;
        break;
      }
    }
    StopAnswers(server, q, turns, pages, p, stop);
    return Done(ResultOf(q, pages, p, stop)), p.delivered;
  }

  // ---------------------------------------------------------------- chains of calls

  /** One finished call of a chain. */
  datatype Call = Call(query: Query, result: Result, delivered: seq<Event>)

  /** What any answered call says about itself. */
  ghost predicate Covers(server: Server, c: Call) {
    && (c.query.next + c.result.pages <= |server| || c.result.pages == 0)
    && Reports(server, c.query, c.result, c.delivered)
    && (c.result.complete <==> c.result.pages > 0 && c.query.next + c.result.pages == |server|)
  }

  /** No call reads past its page limit, nor past the page that brings its matches to the limit. */
  lemma AnswersCover(server: Server, q: Query, turns: nat -> Turn, r: Result, delivered: seq<Event>)
    requires Answers(server, q, turns, Done(r), delivered)
    ensures Covers(server, Call(q, r, delivered))
    ensures r.pages <= PageLimit(q)
    ensures !q.scanAll && r.pages > 1 ==> |Hits(Seen(server, q, r.pages - 1), q.wanted)| < MatchLimit(q)
  {
    if r.pages > PageLimit(q) {
      assert Next(server, q, turns, PageLimit(q)) == Continue;
    }
    if r.pages > 1 {
      assert Next(server, q, turns, r.pages - 1) == Continue;
    }
  }

  /** Where the next call of a chain starts. */
  function Resume(calls: seq<Call>): nat {
    if calls == [] then 0 else calls[|calls| - 1].result.nextToken
  }

  predicate Complete(calls: seq<Call>) {
    calls != [] && calls[|calls| - 1].result.complete
  }

  /** The first call starts fresh, each later one at the token before it; nobody calls on after completion. */
  ghost predicate Chain(server: Server, wanted: Event -> bool, calls: seq<Call>) {
    calls == [] ||
    var front, c := calls[..|calls| - 1], calls[|calls| - 1];
    && Chain(server, wanted, front) && !Complete(front)
    && c.query.wanted == wanted && c.query.next == Resume(front) && Covers(server, c)
  }

  function AllDelivered(calls: seq<Call>): seq<Event> {
    if calls == [] then [] else AllDelivered(calls[..|calls| - 1]) + calls[|calls| - 1].delivered
  }

  function AllEvents(calls: seq<Call>): seq<Event> {
    if calls == [] then [] else AllEvents(calls[..|calls| - 1]) + calls[|calls| - 1].result.events
  }

  function AllScanned(calls: seq<Call>): nat {
    if calls == [] then 0 else AllScanned(calls[..|calls| - 1]) + calls[|calls| - 1].result.scanned
  }

  function AllPages(calls: seq<Call>): nat {
    if calls == [] then 0 else AllPages(calls[..|calls| - 1]) + calls[|calls| - 1].result.pages
  }

  lemma {:induction false} HitsConcat(a: seq<Event>, b: seq<Event>, wanted: Event -> bool)
    ensures Hits(a + b, wanted) == Hits(a, wanted) + Hits(b, wanted)
  {
    if b == [] {
      assert a + b == a;
    } else {
      assert (a + b)[..|a + b| - 1] == a + b[..|b| - 1];
      HitsConcat(a, b[..|b| - 1], wanted);
    }
  }

  /** One more call extends what is scanned and delivered by its own pages. */
  lemma OneCallOn(server: Server, c: Call, m: nat)
    requires Covers(server, c) && c.query.next == m <= |server|
    ensures var n := m + c.result.pages;
            && n <= |server|
            && Hits(Flatten(server[..n]), c.query.wanted) == Hits(Flatten(server[..m]), c.query.wanted) + c.delivered
            && |Flatten(server[..n])| == |Flatten(server[..m])| + c.result.scanned
  {
    ReadOn(server, m, c.result.pages);
    HitsConcat(Flatten(server[..m]), Seen(server, c.query, c.result.pages), c.query.wanted);
  }

  /**
   Whatever mix of limits and stops cuts a chain up, its calls together scan the pages read so far and give
   OnMatch their matches, in order, each once, with no gap.
   */
  lemma {:induction false} ChainScansOnce(server: Server, wanted: Event -> bool, calls: seq<Call>)
    requires Chain(server, wanted, calls)
    ensures var n := AllPages(calls);
            && n <= |server|
            && AllDelivered(calls) == Hits(Flatten(server[..n]), wanted)
            && AllScanned(calls) == |Flatten(server[..n])|
            && (Complete(calls) <==> n == |server| && n > 0)
            && (!Complete(calls) ==> Resume(calls) == n)
    decreases |calls|
  {
    if calls != [] {
      var front, c := calls[..|calls| - 1], calls[|calls| - 1];
      ChainScansOnce(server, wanted, front);
      var m := AllPages(front);
      OneCallOn(server, c, m);
    }
  }

  /** A finished chain agrees with any other way of scanning to the end, one uninterrupted call included. */
  lemma CompleteChainsAgree(server: Server, wanted: Event -> bool, calls: seq<Call>, others: seq<Call>)
    requires Chain(server, wanted, calls) && Complete(calls)
    requires Chain(server, wanted, others) && Complete(others)
    ensures AllDelivered(calls) == AllDelivered(others) == Hits(Flatten(server), wanted)
    ensures AllScanned(calls) == AllScanned(others) == |Flatten(server)|
  {
    ChainScansOnce(server, wanted, calls);
    ChainScansOnce(server, wanted, others);
    assert server[..|server|] == server;
  }

  lemma {:induction false} KeptLength(server: Server, calls: seq<Call>)
    requires forall c | c in calls :: Covers(server, c)
    ensures |AllEvents(calls)| <= |AllDelivered(calls)|
    ensures |AllEvents(calls)| == |AllDelivered(calls)|
            <==> forall c | c in calls :: c.result.matched <= MatchLimit(c.query)
    ensures (forall c | c in calls :: c.result.matched <= MatchLimit(c.query)) ==>
              AllEvents(calls) == AllDelivered(calls)
  {
    if calls != [] {
      var front, c := calls[..|calls| - 1], calls[|calls| - 1];
      assert calls == front + [c];
      KeptLength(server, front);
      assert c in calls && Covers(server, c);
      assert |c.result.events| == Min(c.result.matched, MatchLimit(c.query));
      assert forall d :: d in calls <==> d in front || d == c;
    }
  }

  /** The kept lists lose matches exactly when some call matched more than it keeps. */
  lemma KeptListsExactly(server: Server, calls: seq<Call>)
    requires forall c | c in calls :: Covers(server, c)
    ensures AllEvents(calls) == AllDelivered(calls)
            <==> forall c | c in calls :: c.result.matched <= MatchLimit(c.query)
  {
    KeptLength(server, calls);
  }

  // ---------------------------------------------------------------- in terms of the events and the query's numbers

  /** Each event is among the matches as often as it was seen if wanted, and never otherwise; in the same order. */
  ghost predicate Picks(hits: seq<Event>, events: seq<Event>, wanted: Event -> bool) {
    && (forall e :: multiset(hits)[e] == if wanted(e) then multiset(events)[e] else 0)
    && |hits| <= |events|
    && Keeps(hits, events, wanted)
  }

  lemma {:induction false} HitsAsOften(events: seq<Event>, wanted: Event -> bool, e: Event)
    ensures multiset(Hits(events, wanted))[e] == if wanted(e) then multiset(events)[e] else 0
    ensures |Hits(events, wanted)| <= |events|
  {
    if events != [] {
      var front, last := events[..|events| - 1], events[|events| - 1];
      HitsAsOften(front, wanted, e);
      assert events == front + [last];
    }
  }

  lemma {:induction false} HitsInPlace(events: seq<Event>, wanted: Event -> bool)
    ensures Keeps(Hits(events, wanted), events, wanted)
  {
    if events == [] {
      KeepsNone(wanted);
    } else {
      var front, last := events[..|events| - 1], events[|events| - 1];
      HitsInPlace(front, wanted);
      KeepsOneMore(Hits(front, wanted), front, wanted, last);
      assert events == front + [last];
    }
  }

  lemma HitsExactly(events: seq<Event>, wanted: Event -> bool)
    ensures Picks(Hits(events, wanted), events, wanted)
  {
    HitsInPlace(events, wanted);
    forall e ensures multiset(Hits(events, wanted))[e] == if wanted(e) then multiset(events)[e] else 0 {
      HitsAsOften(events, wanted, e);
    }
    assert |Hits(events, wanted)| <= |events| by {
      HitsAsOften(events, wanted, Event("", "", ""));
    }
  }

  /** A page limit of 10 unless given, never above 60; a limit of kept matches of 50 unless given, never above 500. */
  predicate Limits(q: Query, pages: int, matches: int) {
    && (q.maxPages <= 0 ==> pages == 10)
    && (0 < q.maxPages <= 60 ==> pages == q.maxPages)
    && (60 < q.maxPages ==> pages == 60)
    && (q.maxMatches <= 0 ==> matches == 50)
    && (0 < q.maxMatches <= 500 ==> matches == q.maxMatches)
    && (500 < q.maxMatches ==> matches == 500)
  }

  /** The time of the first event that has one, and of the last event; "" without. */
  predicate Covered(seen: seq<Event>, from: string, to: string) {
    && from == (if seen == [] then "" else seen[|seen| - 1].time)
    && (to == "" ==> forall e | e in seen :: e.time == "")
    && (to != "" ==> exists i :: 0 <= i < |seen| && seen[i].time == to && forall j | 0 <= j < i :: seen[j].time == "")
  }

  lemma {:induction false} FirstTimeExactly(events: seq<Event>)
    ensures FirstTime(events) == "" ==> forall e | e in events :: e.time == ""
    ensures FirstTime(events) != "" ==> exists i :: 0 <= i < |events| && events[i].time == FirstTime(events)
                                                  && forall j | 0 <= j < i :: events[j].time == ""
  {
    if events != [] && events[0].time == "" {
      FirstTimeExactly(events[1..]);
      if FirstTime(events) != "" {
        var i :| 0 <= i < |events[1..]| && events[1..][i].time == FirstTime(events[1..])
                 && forall j | 0 <= j < i :: events[1..][j].time == "";
        assert events[i + 1].time == FirstTime(events);
        assert forall j | 0 < j < i + 1 :: events[j] == events[1..][j - 1];
      }
    }
  }

  /** Why the call stopped after so many pages, with so many matches. */
  predicate StopsFor(stop: Stop, server: Server, q: Query, turns: nat -> Turn, pages: nat, matched: nat, limit: int,
    matches: int) {
    match stop
    case Exhausted => pages > 0 && q.next + pages == |server|
    case MaxMatches => pages > 0 && q.next + pages < |server| && !q.scanAll && matched >= matches
    case MaxPages => pages == limit && q.next + pages < |server|
    case TimeBudget => pages < limit && turns(pages) == OutOfTime
    case Throttled => pages < limit && turns(pages) == Throttle
  }

  /** The pages read, as one list of events. */
  function EventsRead(server: Server, next: nat, pages: nat): seq<Event>
    requires next + pages <= |server| || pages == 0
  {
    if pages == 0 then [] else Flatten(server[next..next + pages])
  }

  /** What the pages read give: every count, list and time of the result, and the calls of OnMatch. */
  ghost predicate Tells(server: Server, q: Query, r: Result, delivered: seq<Event>, matches: int)
    requires q.next + r.pages <= |server| || r.pages == 0
  {
    var seen := EventsRead(server, q.next, r.pages);
    && Picks(delivered, seen, q.wanted) && r.scanned == |seen| && r.matched == |delivered|
    && (if |delivered| <= matches then r.events == delivered else 0 <= matches && r.events == delivered[..matches])
    && Covered(seen, r.coveredFrom, r.coveredTo)
  }

  lemma LimitsExactly(q: Query, pages: int, matches: int)
    requires Limits(q, pages, matches)
    ensures pages == PageLimit(q) && matches == MatchLimit(q)
  {
  }

  lemma ReportTells(server: Server, q: Query, r: Result, delivered: seq<Event>, pages: int, matches: int)
    requires q.next + r.pages <= |server| || r.pages == 0
    requires Reports(server, q, r, delivered) && Limits(q, pages, matches)
    ensures Tells(server, q, r, delivered, matches)
  {
    hide Picks;
    LimitsExactly(q, pages, matches);
    HitsExactly(Seen(server, q, r.pages), q.wanted);
    FirstTimeExactly(Seen(server, q, r.pages));
  }

  /**
   An answered call in the query's own numbers: it read at most the page limit, no further than the page that brought
   its matches to the limit unless it scans all, while every round was answered; it stopped for a reason that was
   there, and delivered, kept and reported exactly what those pages hold.
   */
  lemma AnswersExactly(server: Server, q: Query, turns: nat -> Turn, r: Result, delivered: seq<Event>, limit: int,
    matches: int)
    requires Answers(server, q, turns, Done(r), delivered) && Limits(q, limit, matches)
    ensures (q.next + r.pages <= |server| || r.pages == 0) && r.pages <= limit
    ensures Tells(server, q, r, delivered, matches)
    ensures StopsFor(r.stop, server, q, turns, r.pages, r.matched, limit, matches)
    ensures (r.complete <==> r.stop == Exhausted) && (r.complete <==> r.pages > 0 && q.next + r.pages == |server|)
    ensures r.nextToken == if r.complete then 0 else q.next + r.pages
    ensures forall k | 0 <= k < r.pages :: turns(k) == Turn.Answer && q.next + k < |server|
    ensures forall k | 0 < k < r.pages ::
              q.scanAll || |Hits(EventsRead(server, q.next, k), q.wanted)| < matches
  {
    hide Tells, Hits, Flatten, FirstTime, LastTime;
    LimitsExactly(q, limit, matches);
    AnswersCover(server, q, turns, r, delivered);
    ReportTells(server, q, r, delivered, limit, matches);
    forall k | 0 <= k < r.pages
      ensures turns(k) == Turn.Answer && q.next + k < |server|
      ensures k > 0 ==> q.scanAll || |Hits(EventsRead(server, q.next, k), q.wanted)| < matches
    {
      assert Next(server, q, turns, k) == Continue;
    }
  }

  /** A call that fails met a broken reply, or a page that is not there; OnMatch saw the matches of the pages before. */
  lemma FailureExactly(server: Server, q: Query, turns: nat -> Turn, delivered: seq<Event>, limit: int, matches: int)
    returns (k: nat)
    requires Answers(server, q, turns, Failed, delivered) && Limits(q, limit, matches)
    ensures k < limit && (q.next + k <= |server| || k == 0)
    ensures turns(k) == Broken || (turns(k) == Turn.Answer && q.next + k >= |server|)
    ensures Picks(delivered, EventsRead(server, q.next, k), q.wanted)
    ensures forall j | 0 <= j < k :: turns(j) == Turn.Answer && q.next + j < |server|
  {
    hide Hits, Flatten;
    LimitsExactly(q, limit, matches);
    k :| FailsAfter(server, q, turns, k, delivered);
    forall j | 0 <= j < k ensures turns(j) == Turn.Answer && q.next + j < |server| {
      assert Next(server, q, turns, j) == Continue;
    }
    HitsExactly(EventsRead(server, q.next, k), q.wanted);
  }

  /** A finished chain delivers each wanted event of the listing as often as it is there, in order, and nothing else. */
  lemma CompleteChainPicks(server: Server, wanted: Event -> bool, calls: seq<Call>)
    requires Chain(server, wanted, calls) && Complete(calls)
    ensures Picks(AllDelivered(calls), Flatten(server), wanted) && AllScanned(calls) == |Flatten(server)|
  {
    CompleteChainsAgree(server, wanted, calls, calls);
    HitsExactly(Flatten(server), wanted);
  }
}
