/**
 What a caller of securityhub_get_insight_statistics is told, in the terms of its payload and of the findings
 themselves; and that a call whose attempts were spoiled by others still gets there.
 */
module InsightAnswers {
  import opened Options
  import opened Sequences
  import opened Text
  import opened SecurityHubFilter
  import opened InsightNames
  import opened InsightSlot
  import opened InsightSafety
  import opened InsightRuns
  import opened InsightScenarios

  // ---------------------------------------------------------------- AWS's tally

  /** A finding's values of a group-by attribute of Insights. */
  function ValuesOf(attribute: string, x: Finding): seq<string> {
    match attribute
    case "SeverityLabel" => [x.severityLabel]
    case "Type" => x.types
    case "WorkflowStatus" => [x.workflowStatus]
    case "ProductName" => [x.productName]
    case "ResourceType" => x.resourceTypes
    case "ResourceId" => x.resourceIds
    case _ => []
  }

  /** How many of the findings have the key among their values of the attribute. */
  function NumberWith(attribute: string, findings: seq<Finding>, key: string): nat {
    if findings == [] then 0
    else (if key in ValuesOf(attribute, findings[0]) then 1 else 0) + NumberWith(attribute, findings[1..], key)
  }

  /** AWS lists each value found once with the number of findings that have it, at most 100 values. */
  ghost predicate TalliesFields(account: Account) {
    forall findings, attribute :: Tallied(account.tally(findings, attribute), findings, attribute)
  }

  ghost predicate Tallied(counts: seq<StatCount>, findings: seq<Finding>, attribute: string) {
    && |counts| <= 100
    && (forall i, j | 0 <= i < j < |counts| :: counts[i].key != counts[j].key)
    && (forall c | c in counts :: 0 < c.count == NumberWith(attribute, findings, c.key))
    && (|counts| < 100 ==>
          forall key | NumberWith(attribute, findings, key) > 0 :: exists c :: c in counts && c.key == key)
  }

  // ---------------------------------------------------------------- the answer in the caller's terms

  /** The finding carries the key in the field the caller groups by. */
  predicate Carries(groupBy: string, x: Finding, key: string) {
    || (groupBy == "SEVERITY" && x.severityLabel == key)
    || (groupBy == "TYPE" && key in x.types)
    || (groupBy == "WORKFLOW_STATUS" && x.workflowStatus == key)
    || (groupBy == "PRODUCT" && x.productName == key)
    || (groupBy == "RESOURCE_TYPE" && key in x.resourceTypes)
    || (groupBy == "RESOURCE_ID" && key in x.resourceIds)
  }

  /** How many findings the query's filter asks for carry the key. */
  function NumberAsked(instant: string -> int, q: Query, findings: seq<Finding>, key: string): nat {
    if findings == [] then 0
    else
      (if Asks(instant, q.filter, findings[0]) && Carries(q.groupBy, findings[0], key) then 1 else 0)
      + NumberAsked(instant, q, findings[1..], key)
  }

  /** The counts list each key carried with the number of findings asked for that carry it, all of them below 100. */
  ghost predicate Answers(counts: seq<StatCount>, instant: string -> int, q: Query, findings: seq<Finding>) {
    && (forall i, j | 0 <= i < j < |counts| :: counts[i].key != counts[j].key)
    && (forall c | c in counts :: 0 < c.count == NumberAsked(instant, q, findings, c.key))
    && (|counts| < 100 ==>
          forall key | NumberAsked(instant, q, findings, key) > 0 :: exists c :: c in counts && c.key == key)
  }

  lemma AttributeCarries(groupBy: string, x: Finding, key: string)
    requires AttributeOf(groupBy).Some?
    ensures key in ValuesOf(AttributeOf(groupBy).value, x) <==> Carries(groupBy, x, key)
  {
  }

  lemma {:induction false} SelectedNumber(account: Account, q: Query, findings: seq<Finding>, key: string)
    requires Valid(account, q)
    ensures NumberWith(AttributeOf(q.groupBy).value, Selected(account.instant, FiltersOf(q.filter), findings), key)
         == NumberAsked(account.instant, q, findings, key)
  {
    hide ValuesOf, Carries, AttributeOf, Selects, FiltersOf, Asks;
    if findings != [] {
      var x, rest := findings[0], Selected(account.instant, FiltersOf(q.filter), findings[1..]);
      SelectedNumber(account, q, findings[1..], key);
      SelectsExactly(account.instant, q.filter, x);
      AttributeCarries(q.groupBy, x, key);
      if Selects(account.instant, FiltersOf(q.filter), x) {
        assert ([x] + rest)[1..] == rest;
      } else {
        assert [] + rest == rest;
      }
    }
  }

  /** The true counts are what the caller asked for, in its own terms. */
  lemma TrueCountsAnswer(account: Account, q: Query, findings: seq<Finding>)
    requires TalliesFields(account) && Valid(account, q)
    ensures Answers(TrueCounts(account, q, findings), account.instant, q, findings)
  {
    hide ValuesOf, Carries, AttributeOf, Selects, FiltersOf, NumberWith, NumberAsked;
    var selected := Selected(account.instant, FiltersOf(q.filter), findings);
    var attribute := AttributeOf(q.groupBy).value;
    assert Tallied(account.tally(selected, attribute), selected, attribute);
    forall key ensures NumberWith(attribute, selected, key) == NumberAsked(account.instant, q, findings, key) {
      SelectedNumber(account, q, findings, key);
    }
  }

  /**
   A success lists, under each key, the number of findings its filter asked for that carried the key when it read
   them; but for the exception of SuccessAnswersItsOwnQuery.
   */
  lemma SuccessCountsFields(account: Account, start: System, actions: seq<Action>, call: nat) returns (check: nat)
    requires NoCollisions(account) && TalliesFields(account) && Initial(account, start)
    requires call in Run(account, start, actions).calls
    requires Run(account, start, actions).calls[call].phase.Done?
    requires Run(account, start, actions).calls[call].phase.outcome.Success?
    ensures check < |actions| && actions[check].Verify? && actions[check].call == call
    ensures var c := Run(account, start, actions).calls[call];
            var r := c.phase.outcome.reading;
            && r.at < check && actions[r.at].Fetch? && actions[r.at].call == call
            && (Answers(r.counts, account.instant, c.query, Run(account, start, actions[..r.at]).findings)
                || (r.insight.name != SlotName(account, c.query)
                    && RewrittenInWindow(account, start, actions, r.at, check, call, c.phase.outcome.arn, c.query)))
  {
    hide *;
    check := SuccessAnswersItsOwnQuery(account, start, actions, call);
    var c := Run(account, start, actions).calls[call];
    TrueCountsAnswer(account, c.query, Run(account, start, actions[..c.phase.outcome.reading.at]).findings);
  }

  /** In every run, an Insight under a query's slot name counts what that query asks. */
  lemma SlotsCountTheirQueries(account: Account, start: System, actions: seq<Action>, arn: Arn, q: Query)
    requires NoCollisions(account) && TalliesFields(account) && Initial(account, start) && Valid(account, q)
    requires arn in Run(account, start, actions).insights
    requires Run(account, start, actions).insights[arn].name == SlotName(account, q)
    ensures var s := Run(account, start, actions);
            Answers(InsightResults(account, s.insights[arn], s.findings), account.instant, q, s.findings)
  {
    hide *;
    SlotsMatchTheirNames(account, start, actions, arn, q);
    TrueCountsAnswer(account, q, Run(account, start, actions).findings);
  }

  // ---------------------------------------------------------------- the payload

  /** What a call works on is what its payload asked: group_by in any case, none for SEVERITY, in the region used. */
  predicate Asked(account: Account, payload: Query, q: Query) {
    && q.groupBy == (if payload.groupBy == "" then "SEVERITY" else ToUpper(payload.groupBy))
    && q.filter == payload.filter.(region := account.region)
  }

  predicate Supported(groupBy: string) {
    groupBy in {"SEVERITY", "TYPE", "WORKFLOW_STATUS", "PRODUCT", "RESOURCE_TYPE", "RESOURCE_ID"}
  }

  lemma SupportedExactly(groupBy: string)
    ensures AttributeOf(groupBy).Some? <==> Supported(groupBy)
  {
  }

  lemma ReceivedExactly(account: Account, payload: Query)
    ensures Asked(account, payload, Received(account, payload))
  {
    assert |ToUpper(payload.groupBy)| == |payload.groupBy|;
  }

  /** The call's state follows its arrival: process, query, and Unsupported exactly for an unsupported group_by. */
  predicate FollowsArrival(account: Account, a: Action, c: Call)
    requires a.Arrive?
  {
    && a.process == c.process && Asked(account, a.query, c.query)
    && (c.phase == Done(Unsupported) <==> !Supported(c.query.groupBy))
  }

  lemma ChooseKeepsCall(account: Account, s: System, a: Action, call: nat)
    requires a.Choose? && Enabled(account, s, a) && Valid(account, s.calls[a.call].query) && call in s.calls
    ensures call in DoChoose(account, s, a).calls
    ensures var c, d := s.calls[call], DoChoose(account, s, a).calls[call];
            && d.process == c.process && d.query == c.query
            && (c.phase == Done(Unsupported) <==> d.phase == Done(Unsupported))
  {
    hide SlotName, InsightResults, FiltersOf, AttributeOf, Scan, Answering, Valid;
  }

  lemma EffectKeepsCall(account: Account, s: System, a: Action, call: nat)
    requires call in s.calls
    ensures call in Effect(account, s, a).calls
    ensures var c, d := s.calls[call], Effect(account, s, a).calls[call];
            && d.process == c.process && d.query == c.query
            && (c.phase == Done(Unsupported) <==> d.phase == Done(Unsupported))
  {
    hide SlotName, InsightResults, FiltersOf, AttributeOf, Scan, Answering, DoChoose, Written;
    if a.Choose? && Enabled(account, s, a) && Valid(account, s.calls[a.call].query) {
      ChooseKeepsCall(account, s, a, call);
    }
  }

  lemma EffectAddsCall(account: Account, s: System, a: Action, call: nat)
    requires call !in s.calls && call in Effect(account, s, a).calls
    ensures a.Arrive? && a.call == call && FollowsArrival(account, a, Effect(account, s, a).calls[call])
  {
    hide SlotName, InsightResults, FiltersOf, AttributeOf, Scan, Answering, Received, Asked;
    if a.Arrive? {
      ReceivedExactly(account, a.query);
      SupportedExactly(Received(account, a.query).groupBy);
    }
  }

  /** Every call works on what its payload asked, and is turned away exactly for an unsupported group_by. */
  lemma {:induction false} QueryIsThePayloads(account: Account, start: System, actions: seq<Action>,
    call: nat) returns (j: nat)
    requires Initial(account, start) && call in Run(account, start, actions).calls
    ensures j < |actions| && actions[j].Arrive? && actions[j].call == call
    ensures FollowsArrival(account, actions[j], Run(account, start, actions).calls[call])
    decreases |actions|
  {
    hide Effect, Asked, Supported;
    var front, last := actions[..|actions| - 1], actions[|actions| - 1];
    var s := Run(account, start, front);
    if call in s.calls {
      EffectKeepsCall(account, s, last, call);
      j := QueryIsThePayloads(account, start, front, call);
    } else {
      EffectAddsCall(account, s, last, call);
      j := |front|;
    }
  }

  // ---------------------------------------------------------------- spoiled attempts

  /** The step shows the call that its slot was rewritten for another query, or is gone. */
  predicate Spoils(account: Account, s: System, a: Action) {
    match a
    case ListPage(call, _, _, reply) => Enabled(account, s, a) && reply == Refused(NotFound)
    case Choose(call, _, reply) =>
      && Enabled(account, s, a)
      && var slot := s.calls[call].phase.slot;
         || (reply == Refused(NotFound) && (slot.Some? ==> slot.value.name != SlotName(account, s.calls[call].query)))
         || (reply.Ok? && slot.Some? && slot.value.name != SlotName(account, s.calls[call].query)
             && slot.value.arn !in s.insights)
    case Fetch(call, reply) =>
      && Enabled(account, s, a)
      && (reply == Refused(NotFound) || (reply.Ok? && s.calls[call].phase.arn !in s.insights))
    case Verify(call, reply) =>
      && Enabled(account, s, a)
      && var arn := s.calls[call].phase.arn;
         || reply == Refused(NotFound)
         || (reply.Ok? && (arn in s.insights ==> s.insights[arn].name != SlotName(account, s.calls[call].query)))
    case _ => false
  }

  /** A spoiled first or second attempt is followed by the next one, under the same lock and from its listing. */
  lemma SpoiledAttemptStartsOver(account: Account, s: System, a: Action)
    requires Inv(account, s) && Spoils(account, s, a) && s.calls[a.call].attempt <= 2
    ensures var t := Step(account, s, a);
            && t == s.(clock := s.clock + 1, calls := t.calls)
            && t.calls == s.calls[a.call := s.calls[a.call].(attempt := s.calls[a.call].attempt + 1,
                                                             phase := Listing(None, []))]
  {
    assert CallOk(account, s, s.calls[a.call]);
    hide Inv, InsightResults, FiltersOf, AttributeOf, Scan, Answering;
    if a.Verify? {
      SlotNamesAreOwnedSlots(account, s.calls[a.call].query);
    }
  }

  /**
   A call spoiled in its first or second attempt and left alone in the next one succeeds there, with the true counts
   of that moment.
   */
  lemma SpoiledCallSucceeds(account: Account, s: System, a: Action, page: seq<Arn>, newArn: Arn)
    requires NoCollisions(account) && Inv(account, s) && newArn !in s.used
    requires Spoils(account, s, a) && s.calls[a.call].attempt <= 2
    requires Distinct(page) && forall arn | arn in page :: arn in s.insights
    ensures Valid(account, s.calls[a.call].query)
    ensures var t, c := Step(account, s, a), s.calls[a.call];
            && t.insights == s.insights
            && Succeeded(account, t, Run(account, t, FromListing(account, t, a.call, c.process, page, newArn)), a.call,
                         c.(attempt := c.attempt + 1, phase := Listing(None, [])), page, newArn)
  {
    hide Inv, Run, FromListing, Succeeded, Spoils, Distinct, Valid;
    SpoiledAttemptStartsOver(account, s, a);
    StepKeepsInv(account, s, a);
    LeftAloneSucceeds(account, Step(account, s, a), a.call, page, newArn);
  }

  /** A third attempt that is spoiled ends the call: busy if the name check failed, as not found otherwise. */
  lemma ThirdAttemptGivesUp(account: Account, s: System, a: Action)
    requires Inv(account, s) && Spoils(account, s, a) && s.calls[a.call].attempt == 3
    ensures var c, t := s.calls[a.call], Step(account, s, a);
            && a.call in t.calls && t.insights == s.insights && t.holder == s.holder - {c.process}
            && t.calls[a.call] == c.(phase := Done(if a.Verify? then Busy else Failed(NotFound)))
  {
    assert CallOk(account, s, s.calls[a.call]);
    hide Inv, InsightResults, FiltersOf, AttributeOf, Scan, Answering;
    if a.Verify? {
      SlotNamesAreOwnedSlots(account, s.calls[a.call].query);
    }
  }

  /** Any other refusal ends the call at once; only running out of Insights while preparing has its own answer. */
  lemma OtherRefusalsEndTheCall(account: Account, s: System, a: Action)
    requires Enabled(account, s, a) && (a.ListPage? || a.Choose? || a.Fetch? || a.Verify?)
    requires a.reply.Refused? && a.reply.fault != NotFound
    requires a.Choose? ==>
      && Valid(account, s.calls[a.call].query)
      && var slot := s.calls[a.call].phase.slot;
         slot.Some? ==> slot.value.name != SlotName(account, s.calls[a.call].query)
    ensures var c, t := s.calls[a.call], Step(account, s, a);
            && a.call in t.calls && t.insights == s.insights && t.holder == s.holder - {c.process}
            && t.calls[a.call] == c.(phase := Done(if a.reply.fault == Quota && (a.ListPage? || a.Choose?)
                                                   then QuotaExhausted else Failed(a.reply.fault)))
  {
    hide InsightResults, FiltersOf, AttributeOf, Scan, Answering;
  }
}
