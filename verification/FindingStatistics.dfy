/**
 exhaustiveStats: counts every finding by a key, page by page, until the scan budget is spent, and the chain
 of calls by which a caller finishes a truncated scan.
 */
module FindingStatistics {
  import opened Options
  import opened Pages
  import opened Tally

  datatype Resource = Resource(kind: string, id: string)

  datatype Finding = Finding(types: seq<string>, product: string, title: string, resources: seq<Resource>)

  datatype GroupBy = TYPE | PRODUCT | RESOURCE_TYPE | TITLE | RESOURCE_ID

  /** The key a finding is counted under. */
  type Extract = Finding -> string

  function ExtractorOf(g: GroupBy): Extract {
    match g
    case TYPE => (f: Finding) => if f.types == [] then "" else f.types[0]
    case PRODUCT => (f: Finding) => f.product
    case TITLE => (f: Finding) => f.title
    case RESOURCE_TYPE => (f: Finding) => if f.resources == [] then "" else f.resources[0].kind
    case RESOURCE_ID => (f: Finding) => if f.resources == [] then "" else f.resources[0].id
  }

  function Keys(extract: Extract, findings: seq<Finding>): seq<string> {
    if findings == [] then []
    else Keys(extract, findings[..|findings| - 1]) + [extract(findings[|findings| - 1])]
  }

  lemma {:induction false} KeysConcat(extract: Extract, a: seq<Finding>, b: seq<Finding>)
    ensures Keys(extract, a + b) == Keys(extract, a) + Keys(extract, b)
    ensures |Keys(extract, a)| == |a|
    decreases |b|, |a|
  {
    if b == [] {
      assert a + b == a;
      if a != [] {
        KeysConcat(extract, a[..|a| - 1], []);
      }
    } else {
      assert (a + b)[..|a + b| - 1] == a + b[..|b| - 1];
      KeysConcat(extract, a, b[..|b| - 1]);
    }
  }

  type Server = Pages<Finding>

  /** How the pause before a page ends: in time, with the scan budget spent, or with the caller gone. */
  datatype Pause = InTime | BudgetSpent | CallerGone

  datatype Reply = Page | BudgetSpentInCall | Broken

  datatype Turn = Turn(pause: Pause, reply: Reply)

  datatype Statistics = Statistics(total: nat, counts: Counts, truncated: bool, nextToken: nat)

  // ---------------------------------------------------------------- one call

  datatype Verdict = Continue | Finished | Truncate | Fail

  /** What happens once k pages are in, `left` telling whether there is another one; no pause comes before the first. */
  function Decide(left: bool, turn: Turn, k: nat): Verdict {
    if k > 0 && !left then Finished
    else if k > 0 && turn.pause == BudgetSpent then Truncate
    else if k > 0 && turn.pause == CallerGone then Fail
    else
      match turn.reply
      case Page => if left then Continue else Fail
      case BudgetSpentInCall => Truncate
      case Broken => Fail
  }

  function Next(server: Server, start: nat, turns: nat -> Turn, k: nat): Verdict {
    Decide(start + k < |server|, turns(k), k)
  }

  /** The call reads k pages: nothing stops it earlier, and something stops it there. */
  predicate Stops(server: Server, start: nat, turns: nat -> Turn, k: nat) {
    && (start + k <= |server| || k == 0)
    && (forall j | 0 <= j < k :: Next(server, start, turns, j) == Continue)
    && Next(server, start, turns, k) != Continue
  }

  /** The statistics are those of k pages exactly: an interrupted page is not in them, and the token points at it. */
  predicate Reports(server: Server, extract: Extract, start: nat, k: nat, s: Statistics)
    requires start + k <= |server| || k == 0
  {
    && Tracks(extract, Read(server, start, k), s.counts, s.total)
    && s.nextToken == if s.truncated then start + k else 0
  }

  ghost predicate Answers(server: Server, extract: Extract, start: nat, turns: nat -> Turn, out: Option<Statistics>) {
    exists k :: Stops(server, start, turns, k) &&
      match Next(server, start, turns, k)
      case Fail => out.None?
      case Finished => out.Some? && !out.value.truncated && Reports(server, extract, start, k, out.value)
      case Truncate => out.Some? && out.value.truncated && Reports(server, extract, start, k, out.value)
  }

  /** k pages are in, nothing stopped the call before, and these are their counts. */
  predicate Reached(server: Server, extract: Extract, start: nat, turns: nat -> Turn, k: nat, counts: Counts,
    total: nat) {
    && (start + k <= |server| || k == 0)
    && (forall j | 0 <= j < k :: Next(server, start, turns, j) == Continue)
    && Tracks(extract, Read(server, start, k), counts, total)
  }

  predicate Tracks(extract: Extract, seen: seq<Finding>, counts: Counts, total: nat) {
    counts == Histogram(Keys(extract, seen)) && total == |seen|
  }

  lemma OneFindingOn(extract: Extract, seen: seq<Finding>, f: Finding, counts: Counts, total: nat)
    requires Tracks(extract, seen, counts, total)
    ensures Tracks(extract, seen + [f], Bump(counts, extract(f)), total + 1)
  {
    assert (seen + [f])[..|seen|] == seen;
    var keys := Keys(extract, seen + [f]);
    assert keys[..|keys| - 1] == Keys(extract, seen);
  }

  lemma ReachedTracks(server: Server, extract: Extract, start: nat, turns: nat -> Turn, k: nat, counts: Counts,
    total: nat)
    requires Reached(server, extract, start, turns, k, counts, total)
    ensures (start + k <= |server| || k == 0) && Tracks(extract, Read(server, start, k), counts, total)
  {
  }

  lemma NothingReached(server: Server, extract: Extract, start: nat, turns: nat -> Turn)
    ensures Reached(server, extract, start, turns, 0, map[], 0)
  {
  }

  lemma OnePageOn(server: Server, extract: Extract, start: nat, turns: nat -> Turn, k: nat, counts: Counts, total: nat,
    counts': Counts, total': nat)
    requires Reached(server, extract, start, turns, k, counts, total)
    requires Next(server, start, turns, k) == Continue
    requires Tracks(extract, Read(server, start, k) + server[start + k], counts', total')
    ensures Reached(server, extract, start, turns, k + 1, counts', total')
  {
    ReadOneMore(server, start, k);
  }

  function Outcome(v: Verdict, start: nat, k: nat, counts: Counts, total: nat): Option<Statistics> {
    match v
    case Finished => Some(Statistics(total, counts, false, 0))
    case Truncate => Some(Statistics(total, counts, true, start + k))
    case _ => None
  }

  lemma StopAnswers(server: Server, extract: Extract, start: nat, turns: nat -> Turn, k: nat, counts: Counts,
    total: nat)
    requires Reached(server, extract, start, turns, k, counts, total) && Next(server, start, turns, k) != Continue
    ensures Answers(server, extract, start, turns, Outcome(Next(server, start, turns, k), start, k, counts, total))
  {
    assert Stops(server, start, turns, k);
  }

  method CountPage(extract: Extract, page: seq<Finding>, counts0: Counts, total0: nat, ghost before: seq<Finding>)
    returns (counts: Counts, total: nat)
    requires Tracks(extract, before, counts0, total0)
    ensures Tracks(extract, before + page, counts, total)
  {
    counts, total := counts0, total0;
    assert before + page[..0] == before;
    for i := 0 to |page|
      invariant Tracks(extract, before + page[..i], counts, total)
    {
      var key := extract(page[i]);
      OneFindingOn(extract, before + page[..i], page[i], counts, total);
      assert before + page[..i + 1] == before + page[..i] + [page[i]];
      counts := Bump(counts, key);
      total := total + 1;
    }
    assert page[..|page|] == page;
  }

  method ExhaustiveStats(server: Server, extract: Extract, start: nat,
    turns: nat -> Turn) returns (out: Option<Statistics>)
    ensures Answers(server, extract, start, turns, out)
  {
    hide Reached, Answers, Histogram, Keys, Read;
    var counts: Counts, total, next, page := map[], 0, start, 0;
    NothingReached(server, extract, start, turns);
    while true
      invariant next == start + page && (page > 0 ==> next < |server|)
      invariant Reached(server, extract, start, turns, page, counts, total)
      decreases |server| - next
    {
      var turn := turns(page);
      if page > 0 && turn.pause != InTime {
        StopAnswers(server, extract, start, turns, page, counts, total);
        return if turn.pause == CallerGone then None else Some(Statistics(total, counts, true, next));
      }
      if turn.reply == BudgetSpentInCall {
        StopAnswers(server, extract, start, turns, page, counts, total);
        return Some(Statistics(total, counts, true, next));
      }
      if turn.reply == Broken || next >= |server| {
        StopAnswers(server, extract, start, turns, page, counts, total);
        return None;
      }
      ReachedTracks(server, extract, start, turns, page, counts, total);
      var counts', total' := CountPage(extract, server[next], counts, total, Read(server, start, page));
      OnePageOn(server, extract, start, turns, page, counts, total, counts', total');
      counts, total := counts', total';
      page := page + 1;
      next := next + 1;
      if next == |server| {
        StopAnswers(server, extract, start, turns, page, counts, total);
        return Some(Statistics(total, counts, false, 0));
      }
    }
  }

  // ---------------------------------------------------------------- chains of calls

  datatype Call = Call(start: nat, pages: nat, statistics: Statistics)

  /** What any answered call says about itself. */
  predicate Covers(server: Server, extract: Extract, c: Call) {
    && (c.start + c.pages <= |server| || c.pages == 0)
    && Reports(server, extract, c.start, c.pages, c.statistics)
    && (!c.statistics.truncated <==> c.pages > 0 && c.start + c.pages == |server|)
  }

  lemma AnswersCover(server: Server, extract: Extract, start: nat, turns: nat -> Turn,
    out: Option<Statistics>) returns (c: Call)
    requires Answers(server, extract, start, turns, out) && out.Some?
    ensures c.start == start && c.statistics == out.value && Covers(server, extract, c)
  {
    var k :| Stops(server, start, turns, k) &&
      match Next(server, start, turns, k)
      case Fail => out.None?
      case Finished => out.Some? && !out.value.truncated && Reports(server, extract, start, k, out.value)
      case Truncate => out.Some? && out.value.truncated && Reports(server, extract, start, k, out.value);
    c := Call(start, k, out.value);
  }

  /** In each single call the counts add up to the total. */
  lemma CountsAddUp(server: Server, extract: Extract, c: Call)
    requires Covers(server, extract, c)
    ensures Sum(c.statistics.counts) == c.statistics.total
  {
    HistogramSum(Keys(extract, Read(server, c.start, c.pages)));
    KeysConcat(extract, Read(server, c.start, c.pages), []);
  }

  function Resume(calls: seq<Call>): nat {
    if calls == [] then 0 else calls[|calls| - 1].statistics.nextToken
  }

  predicate Complete(calls: seq<Call>) {
    calls != [] && !calls[|calls| - 1].statistics.truncated
  }

  /** Each call resumes where the one before was truncated. */
  predicate Chain(server: Server, extract: Extract, calls: seq<Call>) {
    calls == [] ||
    var front, c := calls[..|calls| - 1], calls[|calls| - 1];
    Chain(server, extract, front) && !Complete(front) && Covers(server, extract, c) && c.start == Resume(front)
  }

  function AllTotal(calls: seq<Call>): nat {
    if calls == [] then 0 else AllTotal(calls[..|calls| - 1]) + calls[|calls| - 1].statistics.total
  }

  function AllCounts(calls: seq<Call>): Counts {
    if calls == [] then map[] else Merge(AllCounts(calls[..|calls| - 1]), calls[|calls| - 1].statistics.counts)
  }

  function AllPages(calls: seq<Call>): nat {
    if calls == [] then 0 else AllPages(calls[..|calls| - 1]) + calls[|calls| - 1].pages
  }

  lemma OneCallOn(server: Server, extract: Extract, c: Call, m: nat)
    requires Covers(server, extract, c) && c.start == m <= |server|
    ensures var n := m + c.pages;
            && n <= |server|
            && Histogram(Keys(extract, Flatten(server[..n])))
               == Merge(Histogram(Keys(extract, Flatten(server[..m]))), c.statistics.counts)
            && |Flatten(server[..n])| == |Flatten(server[..m])| + c.statistics.total
  {
    ReadOn(server, m, c.pages);
    var before, seen := Flatten(server[..m]), Read(server, m, c.pages);
    KeysConcat(extract, before, seen);
    HistogramConcat(Keys(extract, before), Keys(extract, seen));
  }

  lemma NothingCounted(server: Server, extract: Extract)
    ensures Flatten(server[..0]) == [] && Histogram(Keys(extract, Flatten(server[..0]))) == map[]
  {
    assert server[..0] == [];
  }

  /** The caller's sums over a chain are the histogram of the pages it got through, however it was cut up. */
  lemma {:induction false} ChainCountsOnce(server: Server, extract: Extract, calls: seq<Call>)
    requires Chain(server, extract, calls)
    ensures var n := AllPages(calls);
            && n <= |server|
            && AllCounts(calls) == Histogram(Keys(extract, Flatten(server[..n])))
            && AllTotal(calls) == |Flatten(server[..n])|
            && (Complete(calls) <==> n == |server| && n > 0)
            && (!Complete(calls) ==> Resume(calls) == n)
  {
    hide Flatten, Read, Keys;
    if calls == [] {
      NothingCounted(server, extract);
    } else {
      var front, c := calls[..|calls| - 1], calls[|calls| - 1];
      ChainCountsOnce(server, extract, front);
      OneCallOn(server, extract, c, AllPages(front));
    }
  }

  /** A finished chain says what one uninterrupted scan says. */
  lemma CompleteChainIsTheHistogram(server: Server, extract: Extract, calls: seq<Call>)
    requires Chain(server, extract, calls) && Complete(calls)
    ensures AllCounts(calls) == Histogram(Keys(extract, Flatten(server)))
    ensures AllTotal(calls) == |Flatten(server)| == Sum(AllCounts(calls))
  {
    ChainCountsOnce(server, extract, calls);
    assert server[..|server|] == server;
    HistogramSum(Keys(extract, Flatten(server)));
    KeysConcat(extract, Flatten(server), []);
  }

  // ---------------------------------------------------------------- in terms of the findings

  /** The finding's own field the caller groups by: its first type or resource, "" without one. */
  predicate Carries(g: GroupBy, f: Finding, key: string) {
    && (g == TYPE ==> key == if |f.types| > 0 then f.types[0] else "")
    && (g == PRODUCT ==> key == f.product)
    && (g == TITLE ==> key == f.title)
    && (g == RESOURCE_TYPE ==> key == if |f.resources| > 0 then f.resources[0].kind else "")
    && (g == RESOURCE_ID ==> key == if |f.resources| > 0 then f.resources[0].id else "")
  }

  function Grouped(g: GroupBy, findings: seq<Finding>, key: string): seq<Finding> {
    if findings == [] then []
    else
      var last := findings[|findings| - 1];
      Grouped(g, findings[..|findings| - 1], key) + if Carries(g, last, key) then [last] else []
  }

  lemma ExtractorExactly(g: GroupBy, f: Finding, key: string)
    ensures ExtractorOf(g)(f) == key <==> Carries(g, f, key)
  {
  }

  lemma {:induction false} GroupedCount(g: GroupBy, findings: seq<Finding>, key: string)
    ensures multiset(Keys(ExtractorOf(g), findings))[key] == |Grouped(g, findings, key)|
  {
    hide ExtractorOf, Carries;
    if findings != [] {
      ExtractorExactly(g, findings[|findings| - 1], key);
      GroupedCount(g, findings[..|findings| - 1], key);
    }
  }

  /** For each group_by, a finished chain counts under every key exactly the findings that carry it. */
  lemma EveryGroupCounted(server: Server, g: GroupBy, calls: seq<Call>, key: string)
    requires Chain(server, ExtractorOf(g), calls) && Complete(calls)
    ensures Count(AllCounts(calls), key) == |Grouped(g, Flatten(server), key)|
    ensures key in AllCounts(calls) <==> Grouped(g, Flatten(server), key) != []
  {
    hide ExtractorOf, Chain, Flatten, Keys, Histogram, Grouped;
    CompleteChainIsTheHistogram(server, ExtractorOf(g), calls);
    HistogramExact(Keys(ExtractorOf(g), Flatten(server)), key);
    GroupedCount(g, Flatten(server), key);
  }

  /** The first k pages from the token on, as one list of findings. */
  function FindingsRead(server: Server, start: nat, k: nat): seq<Finding>
    requires start + k <= |server| || k == 0
  {
    if k == 0 then [] else Flatten(server[start..start + k])
  }

  /** Rounds before the k-th were in time, and answered with a page. */
  predicate Answered(server: Server, start: nat, turns: nat -> Turn, k: nat) {
    forall j | 0 <= j < k :: turns(j).reply == Page && (j > 0 ==> turns(j).pause == InTime) && start + j < |server|
  }

  /** Each key is counted as often as the findings carry it, and each finding once. */
  ghost predicate CountsGroups(s: Statistics, g: GroupBy, findings: seq<Finding>) {
    && s.total == |findings|
    && (forall key :: Count(s.counts, key) == |Grouped(g, findings, key)|)
    && (forall key :: key in s.counts <==> Grouped(g, findings, key) != [])
  }

  /** The last page is in, with no round after it. */
  predicate Ended(server: Server, start: nat, k: nat) {
    k > 0 && start + k == |server|
  }

  /** The budget ran out, before a page that is not the call's first or within the call for it. */
  predicate RanOut(server: Server, start: nat, turns: nat -> Turn, k: nat) {
    !Ended(server, start, k)
    && if k > 0 && turns(k).pause == BudgetSpent then true
       else (k == 0 || turns(k).pause == InTime) && turns(k).reply == BudgetSpentInCall
  }

  /**
   Some number of pages was counted, and the answer is theirs: complete if they are the last, truncated with the token
   of the next one if the budget ran out there, and none if the caller left or the service failed.
   */
  ghost predicate IsAnswer(server: Server, g: GroupBy, start: nat, turns: nat -> Turn, out: Option<Statistics>,
    k: nat) {
    && (start + k <= |server| || k == 0) && Answered(server, start, turns, k)
    && (out.Some? <==> Ended(server, start, k) || RanOut(server, start, turns, k))
    && (out.Some? ==>
          && CountsGroups(out.value, g, FindingsRead(server, start, k))
          && (out.value.truncated <==> RanOut(server, start, turns, k))
          && out.value.nextToken == if out.value.truncated then start + k else 0)
  }

  lemma TracksGroups(g: GroupBy, findings: seq<Finding>, s: Statistics)
    requires Tracks(ExtractorOf(g), findings, s.counts, s.total)
    ensures CountsGroups(s, g, findings)
  {
    hide ExtractorOf, Histogram, Keys, Grouped;
    forall key
      ensures Count(s.counts, key) == |Grouped(g, findings, key)|
      ensures key in s.counts <==> Grouped(g, findings, key) != []
    {
      HistogramExact(Keys(ExtractorOf(g), findings), key);
      GroupedCount(g, findings, key);
    }
  }

  lemma AnswersExactly(server: Server, g: GroupBy, start: nat, turns: nat -> Turn, out: Option<Statistics>)
    returns (k: nat)
    requires Answers(server, ExtractorOf(g), start, turns, out)
    ensures IsAnswer(server, g, start, turns, out, k)
  {
    hide ExtractorOf, Tracks, CountsGroups, Flatten;
    k :| Stops(server, start, turns, k) &&
      match Next(server, start, turns, k)
      case Fail => out.None?
      case Finished => out.Some? && !out.value.truncated && Reports(server, ExtractorOf(g), start, k, out.value)
      case Truncate => out.Some? && out.value.truncated && Reports(server, ExtractorOf(g), start, k, out.value);
    forall j | 0 <= j < k
      ensures turns(j).reply == Page && (j > 0 ==> turns(j).pause == InTime) && start + j < |server|
    {
      assert Next(server, start, turns, j) == Continue;
    }
    if out.Some? {
      TracksGroups(g, FindingsRead(server, start, k), out.value);
    }
  }
}
