/**
 securityhub_get_insight_statistics as a protocol: any number of calls in any number of processes share one
 mutable Insight. A call lists the Insights, makes the slot answer its query, reads the results, and reads the
 slot's name back; if the name is no longer its own it starts over. Every API call is one step, and the steps
 of different calls interleave freely.
 */
module InsightSlot {
  import opened Options
  import opened SecurityHubFilter
  import opened InsightNames
  import opened Pages

  const MAX_ATTEMPTS := 3

  type Arn = nat

  datatype Found = Found(arn: Arn, name: string)

  /** What a call read: the Insight and findings of step `at`, and the first later rewrite to the call's own name. */
  datatype Reading = Reading(
    at: nat,
    insight: Insight,
    findings: seq<Finding>,
    counts: seq<StatCount>,
    rewrittenAt: Option<nat>)

  datatype Outcome =
    | Success(arn: Arn, reading: Reading)
    | Busy
    | QuotaExhausted
    | Unsupported
    | Failed(fault: Fault)

  datatype Phase =
    | Waiting
    | Listing(slot: Option<Found>, leftovers: seq<Arn>)
    | Choosing(slot: Option<Found>, leftovers: seq<Arn>)
    | Cleaning(arn: Arn, todo: seq<Arn>)
    | Fetching(arn: Arn)
    | Verifying(arn: Arn, reading: Reading)
    | Done(outcome: Outcome)
  {
    /** Between taking the process's region lock and releasing it. */
    predicate Critical() {
      !Waiting? && !Done?
    }
  }

  datatype Call = Call(process: nat, query: Query, attempt: nat, phase: Phase)

  datatype System = System(
    clock: nat,
    insights: map<Arn, Insight>,
    used: set<Arn>,
    findings: seq<Finding>,
    calls: map<nat, Call>,
    holder: map<nat, nat>,
    cleaned: set<nat>)

  datatype Fault = NotFound | Quota | Other

  /** A request can be refused without effect, or be carried out and its reply lost. */
  datatype Reply = Ok | Refused(fault: Fault) | Lost

  datatype Action =
    | Arrive(call: nat, process: nat, query: Query)
    | Acquire(call: nat)
    | ListPage(call: nat, page: seq<Arn>, last: bool, reply: Reply)
    | Choose(call: nat, newArn: Arn, reply: Reply)
    | Clean(call: nat, reply: Reply)
    | Fetch(call: nat, reply: Reply)
    | Verify(call: nat, reply: Reply)
    | ForeignWrite(arn: Arn, insight: Insight)
    | ForeignDelete(arn: Arn)
    | NewFindings(findings: seq<Finding>)

  // ---------------------------------------------------------------- finding the slot

  /** The first Insight with the region's prefix is the slot; every other Insight of this task is a leftover. */
  function Scan(account: Account, slot: Option<Found>, leftovers: seq<Arn>, items: seq<Found>): (Option<Found>,
    seq<Arn>)
    decreases |items|
  {
    if items == [] then (slot, leftovers)
    else if slot.None? && IsSlot(account, items[0].name) then Scan(account, Some(items[0]), leftovers, items[1..])
    else if Owned(items[0].name) then Scan(account, slot, leftovers + [items[0].arn], items[1..])
    else Scan(account, slot, leftovers, items[1..])
  }

  function OwnedArns(items: seq<Found>): seq<Arn> {
    if items == [] then []
    else (if Owned(items[0].name) then [items[0].arn] else []) + OwnedArns(items[1..])
  }

  lemma {:induction false} ScanWithSlot(account: Account, slot: Found, leftovers: seq<Arn>, items: seq<Found>)
    ensures Scan(account, Some(slot), leftovers, items) == (Some(slot), leftovers + OwnedArns(items))
    decreases |items|
  {
    if items == [] {
      assert leftovers + [] == leftovers;
    } else if Owned(items[0].name) {
      ScanWithSlot(account, slot, leftovers + [items[0].arn], items[1..]);
      assert leftovers + [items[0].arn] + OwnedArns(items[1..]) == leftovers + OwnedArns(items);
    } else {
      ScanWithSlot(account, slot, leftovers, items[1..]);
      assert OwnedArns(items) == OwnedArns(items[1..]);
    }
  }

  lemma {:induction false} ScanFindsFirst(account: Account, leftovers: seq<Arn>, items: seq<Found>, k: nat)
    requires k <= |items| && forall i | 0 <= i < k :: !IsSlot(account, items[i].name)
    requires k < |items| ==> IsSlot(account, items[k].name)
    ensures Scan(account, None, leftovers, items)
         == if k == |items| then (None, leftovers + OwnedArns(items))
            else (Some(items[k]), leftovers + OwnedArns(items[..k]) + OwnedArns(items[k + 1..]))
    decreases |items|
  {
    hide IsSlot, Owned;
    if k == 0 && items != [] {
      ScanWithSlot(account, items[0], leftovers, items[1..]);
      assert leftovers + OwnedArns(items[..0]) == leftovers;
    } else if items == [] {
      assert leftovers + [] == leftovers;
    } else {
      var own := if Owned(items[0].name) then [items[0].arn] else [];
      ScanFindsFirst(account, leftovers + own, items[1..], k - 1);
      assert leftovers + own == if own == [] then leftovers else leftovers + [items[0].arn];
      if k < |items| {
        assert items[..k][1..] == items[1..][..k - 1] && items[..k][0] == items[0];
        assert items[1..][k..] == items[k + 1..];
        assert leftovers + own + OwnedArns(items[1..][..k - 1]) == leftovers + OwnedArns(items[..k]);
      } else {
        assert leftovers + own + OwnedArns(items[1..]) == leftovers + OwnedArns(items);
      }
    }
  }

  lemma {:induction false} ScanConcat(account: Account, slot: Option<Found>, leftovers: seq<Arn>, a: seq<Found>,
    b: seq<Found>)
    ensures var (s, l) := Scan(account, slot, leftovers, a);
            Scan(account, slot, leftovers, a + b) == Scan(account, s, l, b)
    decreases |a|
  {
    if a == [] {
      assert a + b == b;
    } else {
      assert (a + b)[1..] == a[1..] + b;
      if slot.None? && IsSlot(account, a[0].name) {
        ScanConcat(account, Some(a[0]), leftovers, a[1..], b);
      } else if Owned(a[0].name) {
        ScanConcat(account, slot, leftovers + [a[0].arn], a[1..], b);
      } else {
        ScanConcat(account, slot, leftovers, a[1..], b);
      }
    }
  }

  /** The source's paging loop over GetInsights. */
  method FindSlot(account: Account, pages: Pages<Found>) returns (slot: Option<Found>, leftovers: seq<Arn>)
    ensures (slot, leftovers) == Scan(account, None, [], Flatten(pages))
  {
    slot, leftovers := None, [];
    for p := 0 to |pages|
      invariant (slot, leftovers) == Scan(account, None, [], Flatten(pages[..p]))
    {
      var page := pages[p];
      assert Flatten(pages[..p]) + page[..0] == Flatten(pages[..p]);
      for i := 0 to |page|
        invariant (slot, leftovers) == Scan(account, None, [], Flatten(pages[..p]) + page[..i])
      {
        var item := page[i];
        ScanConcat(account, None, [], Flatten(pages[..p]) + page[..i], [item]);
        assert Flatten(pages[..p]) + page[..i + 1] == Flatten(pages[..p]) + page[..i] + [item];
        if slot.None? && IsSlot(account, item.name) {
          slot := Some(item);
        } else if Owned(item.name) {
          leftovers := leftovers + [item.arn];
        }
      }
      assert page[..|page|] == page && pages[..p + 1][..p] == pages[..p];
    }
    assert pages[..|pages|] == pages;
  }

  // ---------------------------------------------------------------- one step

  function Name(account: Account, c: Call): string {
    SlotName(account, c.query)
  }

  /** The call's state becomes c; finishing releases the process's lock. */
  function Put(s: System, call: nat, c: Call): System {
    s.(calls := s.calls[call := c], holder := if c.phase.Done? then s.holder - {c.process} else s.holder)
  }

  function Finish(c: Call, outcome: Outcome): Call {
    c.(phase := Done(outcome))
  }

  function Retry(c: Call): Call {
    c.(attempt := c.attempt + 1, phase := Listing(None, []))
  }

  /** Not-found starts over while attempts remain; running out of Insights has its own answer. */
  function AfterFault(c: Call, fault: Fault, preparing: bool): Call {
    if preparing && fault.Quota? then Finish(c, QuotaExhausted)
    else if fault.NotFound? && c.attempt < MAX_ATTEMPTS then Retry(c)
    else Finish(c, Failed(fault))
  }

  function FaultOf(reply: Reply): Fault {
    if reply.Refused? then reply.fault else Other
  }

  /** Writing the slot for one call's query shows in the record of every other call about to verify that name. */
  function Noted(account: Account, s: System, writer: nat, arn: Arn, name: string): map<nat, Call> {
    map i | i in s.calls ::
      var c := s.calls[i];
      if i != writer && c.phase.Verifying? && c.phase.arn == arn && Name(account, c) == name
         && c.phase.reading.rewrittenAt.None?
      then c.(phase := Verifying(arn, c.phase.reading.(rewrittenAt := Some(s.clock))))
      else c
  }

  function Written(account: Account, s: System, writer: nat, arn: Arn, q: Query): System
    requires Valid(account, q)
  {
    s.(insights := s.insights[arn := Answering(account, q)],
       used := s.used + {arn},
       calls := Noted(account, s, writer, arn, SlotName(account, q)))
  }

  /** The first finished preparation in a process takes the leftovers along; later ones clean nothing. */
  function Prepared(s: System, call: nat, c: Call, arn: Arn): System
    requires c.phase.Choosing?
  {
    var todo := if c.process in s.cleaned then [] else c.phase.leftovers;
    Put(s.(cleaned := s.cleaned + {c.process}), call, c.(phase := Cleaning(arn, todo)))
  }

  predicate Enabled(account: Account, s: System, a: Action) {
    match a
    case Arrive(call, _, _) => call !in s.calls
    case Acquire(call) => call in s.calls && s.calls[call].phase.Waiting? && s.calls[call].process !in s.holder
    case ListPage(call, page, _, _) =>
      call in s.calls && s.calls[call].phase.Listing? && forall arn | arn in page :: arn in s.insights
    case Choose(call, newArn, _) => call in s.calls && s.calls[call].phase.Choosing? && newArn !in s.used
    case Clean(call, _) => call in s.calls && s.calls[call].phase.Cleaning?
    case Fetch(call, _) => call in s.calls && s.calls[call].phase.Fetching?
    case Verify(call, _) => call in s.calls && s.calls[call].phase.Verifying?
    case ForeignWrite(arn, insight) =>
      !Owned(insight.name) && (if arn in s.insights then !Owned(s.insights[arn].name) else arn !in s.used)
    case ForeignDelete(arn) => arn in s.insights
    case NewFindings(_) => true
  }

  /** Unsupported group_by values are refused before any API call. */
  function DoArrive(account: Account, s: System, a: Action): System
    requires a.Arrive?
  {
    var q := Received(account, a.query);
    var c := Call(a.process, q, 1, if AttributeOf(q.groupBy).Some? then Waiting else Done(Unsupported));
    s.(calls := s.calls[a.call := c])
  }

  function DoListPage(account: Account, s: System, a: Action): System
    requires a.ListPage? && Enabled(account, s, a)
  {
    var c := s.calls[a.call];
    if !a.reply.Ok? then Put(s, a.call, AfterFault(c, FaultOf(a.reply), true))
    else
      var items := seq(|a.page|, i requires 0 <= i < |a.page| && a.page[i] in s.insights =>
                         Found(a.page[i], s.insights[a.page[i]].name));
      var (slot, leftovers) := Scan(account, c.phase.slot, c.phase.leftovers, items);
      Put(s, a.call, c.(phase := if a.last then Choosing(slot, leftovers) else Listing(slot, leftovers)))
  }

  /** The slot has to be created or rewritten, and the request gets through. */
  predicate Writes(account: Account, s: System, a: Action)
    requires a.Choose? && Enabled(account, s, a)
  {
    var slot := s.calls[a.call].phase.slot;
    && !a.reply.Refused?
    && (slot.None? || (slot.value.name != Name(account, s.calls[a.call]) && slot.value.arn in s.insights))
  }

  function DoChoose(account: Account, s: System, a: Action): System
    requires a.Choose? && Enabled(account, s, a)
    requires Valid(account, s.calls[a.call].query)
  {
    var c := s.calls[a.call];
    var slot := c.phase.slot;
    if Writes(account, s, a) then
      var arn := if slot.Some? then slot.value.arn else a.newArn;
      var after := Written(account, s, a.call, arn, c.query);
      if a.reply.Lost? then Put(after, a.call, AfterFault(c, Other, true)) else Prepared(after, a.call, c, arn)
    else if slot.Some? && slot.value.name == Name(account, c) then Prepared(s, a.call, c, slot.value.arn)
    else Put(s, a.call, AfterFault(c, if a.reply.Refused? then a.reply.fault else NotFound, true))
  }

  /** A failed delete is logged and skipped. */
  function DoClean(account: Account, s: System, a: Action): System
    requires a.Clean? && Enabled(account, s, a)
  {
    var c := s.calls[a.call];
    if c.phase.todo == [] then Put(s, a.call, c.(phase := Fetching(c.phase.arn)))
    else
      var next := Put(s, a.call, c.(phase := Cleaning(c.phase.arn, c.phase.todo[1..])));
      if a.reply.Refused? then next else next.(insights := s.insights - {c.phase.todo[0]})
  }

  function DoFetch(account: Account, s: System, a: Action): System
    requires a.Fetch? && Enabled(account, s, a)
  {
    var c := s.calls[a.call];
    var arn := c.phase.arn;
    if !a.reply.Ok? then Put(s, a.call, AfterFault(c, FaultOf(a.reply), false))
    else if arn !in s.insights then Put(s, a.call, AfterFault(c, NotFound, false))
    else
      var counts := InsightResults(account, s.insights[arn], s.findings);
      Put(s, a.call, c.(phase := Verifying(arn, Reading(s.clock, s.insights[arn], s.findings, counts, None))))
  }

  /** A vanished slot reads back as the empty name. */
  function DoVerify(account: Account, s: System, a: Action): System
    requires a.Verify? && Enabled(account, s, a)
  {
    var c := s.calls[a.call];
    if !a.reply.Ok? && FaultOf(a.reply) != NotFound then Put(s, a.call, Finish(c, Failed(FaultOf(a.reply))))
    else
      var current := if a.reply.Ok? && c.phase.arn in s.insights then s.insights[c.phase.arn].name else "";
      if current == Name(account, c) then Put(s, a.call, Finish(c, Success(c.phase.arn, c.phase.reading)))
      else if c.attempt < MAX_ATTEMPTS then Put(s, a.call, Retry(c))
      else Put(s, a.call, Finish(c, Busy))
  }

  /** One step; an action that is not enabled leaves the system alone. */
  function Effect(account: Account, s: System, a: Action): System {
    if !Enabled(account, s, a) then s
    else match a
      case Arrive(_, _, _) => DoArrive(account, s, a)
      case Acquire(call) =>
        var c := s.calls[call];
        s.(calls := s.calls[call := c.(phase := Listing(None, []))], holder := s.holder[c.process := call])
      case ListPage(_, _, _, _) => DoListPage(account, s, a)
      case Choose(call, _, _) => if Valid(account, s.calls[call].query) then DoChoose(account, s, a) else s
      case Clean(_, _) => DoClean(account, s, a)
      case Fetch(_, _) => DoFetch(account, s, a)
      case Verify(_, _) => DoVerify(account, s, a)
      case ForeignWrite(arn, insight) => s.(insights := s.insights[arn := insight], used := s.used + {arn})
      case ForeignDelete(arn) => s.(insights := s.insights - {arn})
      case NewFindings(findings) => s.(findings := findings)
  }

  function Step(account: Account, s: System, a: Action): System {
    Effect(account, s, a).(clock := s.clock + 1)
  }

  function Run(account: Account, s: System, actions: seq<Action>): System
    decreases |actions|
  {
    if actions == [] then s else Step(account, Run(account, s, actions[..|actions| - 1]), actions[|actions| - 1])
  }
}
