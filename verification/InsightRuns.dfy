/** The Insight protocol's promise, tied to the steps of the run: a success reports its own query's counts. */
module InsightRuns {
  import opened Options
  import opened SecurityHubFilter
  import opened InsightNames
  import opened InsightSlot
  import opened InsightSafety

  // ---------------------------------------------------------------- readings refer to real steps

  function ReadingOf(c: Call): Option<(Arn, Reading)> {
    match c.phase
    case Verifying(arn, r) => Some((arn, r))
    case Done(Success(arn, r)) => Some((arn, r))
    case _ => None
  }

  /**
   The action writes the Insight at `arn`, which its call's listing showed under another name than this one, for a
   query with this name; its call is of another process than call i.
   */
  predicate Rewrites(account: Account, s: System, a: Action, i: nat, arn: Arn, name: string) {
    && a.Choose? && Enabled(account, s, a) && Writes(account, s, a)
    && i in s.calls && s.calls[i].process != s.calls[a.call].process
    && s.calls[a.call].phase.slot.Some? && s.calls[a.call].phase.slot.value.arn == arn
    && SlotName(account, s.calls[a.call].query) == name
    && s.calls[a.call].phase.slot.value.name != name
  }

  /** Step j is a call of another process writing the slot at `arn` for a query with this call's slot name. */
  predicate IsRewrite(account: Account, start: System, actions: seq<Action>, j: nat, call: nat, arn: Arn,
    name: string) {
    && j < |actions| && Rewrites(account, Run(account, start, actions[..j]), actions[j], call, arn, name)
    && var after := Run(account, start, actions[..j + 1]);
    && arn in after.insights && after.insights[arn].name == name
  }

  /** The reading holds the Insight at `arn` and the findings as they are in s. */
  predicate ReadAt(s: System, arn: Arn, r: Reading) {
    arn in s.insights && r.insight == s.insights[arn] && r.findings == s.findings
  }

  predicate ReadingReal(account: Account, start: System, actions: seq<Action>, call: nat, arn: Arn, r: Reading,
    name: string) {
    && r.at < |actions| && actions[r.at].Fetch? && actions[r.at].call == call
    && var seen := Run(account, start, actions[..r.at]);
    && ReadAt(seen, arn, r)
    && (r.rewrittenAt.Some? ==>
          r.at < r.rewrittenAt.value && IsRewrite(account, start, actions, r.rewrittenAt.value, call, arn, name))
  }

  /** How a call comes to hold a reading: it had it, another call's write was noted on it, or it just read. */
  predicate ReadingFollows(account: Account, s: System, a: Action, t: System, i: nat)
    requires i in t.calls && ReadingOf(t.calls[i]).Some?
  {
    var (arn, r) := ReadingOf(t.calls[i]).value;
    && i in s.calls && s.calls[i].query == t.calls[i].query
    && (|| ReadingOf(s.calls[i]) == Some((arn, r))
        || (&& Rewrites(account, s, a, i, arn, Name(account, s.calls[i]))
            && ReadingOf(s.calls[i]) == Some((arn, r.(rewrittenAt := None)))
            && r.rewrittenAt == Some(s.clock)
            && arn in t.insights && t.insights[arn].name == Name(account, s.calls[i]))
        || (a.Fetch? && a.call == i && r.at == s.clock && ReadAt(s, arn, r) && r.rewrittenAt.None?))
  }

  lemma NotedReading(account: Account, s: System, a: Action, arn: Arn, t: System, i: nat)
    requires a.Choose? && Enabled(account, s, a) && Valid(account, s.calls[a.call].query) && Writes(account, s, a)
    requires i in s.calls && i != a.call && i in t.calls
    requires t.insights == s.insights[arn := Answering(account, s.calls[a.call].query)]
    requires var slot := s.calls[a.call].phase.slot; arn == if slot.Some? then slot.value.arn else a.newArn
    requires Inv(account, s)
    requires t.calls[i] == Noted(account, s, a.call, arn, SlotName(account, s.calls[a.call].query))[i]
    requires ReadingOf(t.calls[i]).Some?
    ensures ReadingFollows(account, s, a, t, i)
  {
    assert CallOk(account, s, s.calls[i]);
    assert s.calls[i].phase.Verifying? ==> s.calls[i].process != s.calls[a.call].process;
  }

  lemma ChooseReading(account: Account, s: System, a: Action, i: nat)
    requires Inv(account, s)
    requires a.Choose? && Enabled(account, s, a) && Valid(account, s.calls[a.call].query) && Writes(account, s, a)
    requires i in DoChoose(account, s, a).calls && ReadingOf(DoChoose(account, s, a).calls[i]).Some?
    ensures ReadingFollows(account, s, a, DoChoose(account, s, a), i)
  {
    hide SlotName, InsightResults, FiltersOf, AttributeOf, Scan;
    var slot := s.calls[a.call].phase.slot;
    var arn := if slot.Some? then slot.value.arn else a.newArn;
    NotedReading(account, s, a, arn, DoChoose(account, s, a), i);
  }

  lemma QuietChooseReading(account: Account, s: System, a: Action, i: nat)
    requires a.Choose? && Enabled(account, s, a) && Valid(account, s.calls[a.call].query) && !Writes(account, s, a)
    requires i in DoChoose(account, s, a).calls && ReadingOf(DoChoose(account, s, a).calls[i]).Some?
    ensures ReadingFollows(account, s, a, DoChoose(account, s, a), i)
  {
  }

  lemma VerifyReading(account: Account, s: System, a: Action, i: nat)
    requires (a.Fetch? || a.Verify?) && Enabled(account, s, a)
    requires i in Effect(account, s, a).calls && ReadingOf(Effect(account, s, a).calls[i]).Some?
    ensures ReadingFollows(account, s, a, Effect(account, s, a), i)
  {
  }

  lemma ListReading(account: Account, s: System, a: Action, i: nat)
    requires (a.ListPage? || a.Clean?) && Enabled(account, s, a)
    requires i in Effect(account, s, a).calls && ReadingOf(Effect(account, s, a).calls[i]).Some?
    ensures ReadingFollows(account, s, a, Effect(account, s, a), i)
  {
  }

  lemma ReadingStep(account: Account, s: System, a: Action, i: nat)
    requires Inv(account, s)
    requires i in Effect(account, s, a).calls && ReadingOf(Effect(account, s, a).calls[i]).Some?
    ensures ReadingFollows(account, s, a, Effect(account, s, a), i)
  {
    if Enabled(account, s, a) {
      if a.Choose? && Valid(account, s.calls[a.call].query) {
        if Writes(account, s, a) {
          ChooseReading(account, s, a, i);
        } else {
          QuietChooseReading(account, s, a, i);
        }
      } else if a.Fetch? || a.Verify? {
        VerifyReading(account, s, a, i);
      } else if a.ListPage? || a.Clean? {
        ListReading(account, s, a, i);
      }
    }
  }

  lemma RealInLongerRun(account: Account, start: System, actions: seq<Action>, a: Action, call: nat, arn: Arn,
    r: Reading, name: string)
    requires ReadingReal(account, start, actions, call, arn, r, name)
    ensures ReadingReal(account, start, actions + [a], call, arn, r, name)
  {
    var longer := actions + [a];
    assert longer[..r.at] == actions[..r.at];
    if r.rewrittenAt.Some? {
      var j := r.rewrittenAt.value;
      assert longer[..j] == actions[..j] && longer[..j + 1] == actions[..j + 1];
    }
  }

  lemma {:induction false} ReadingsAreReal(account: Account, start: System, actions: seq<Action>, i: nat)
    requires Initial(account, start)
    requires i in Run(account, start, actions).calls && ReadingOf(Run(account, start, actions).calls[i]).Some?
    ensures var c := Run(account, start, actions).calls[i];
            var (arn, r) := ReadingOf(c).value;
            ReadingReal(account, start, actions, i, arn, r, Name(account, c))
    decreases |actions|
  {
    hide Effect, Enabled, SlotName;
    var front, last := actions[..|actions| - 1], actions[|actions| - 1];
    var s := Run(account, start, front);
    var c := Run(account, start, actions).calls[i];
    var (arn, r) := ReadingOf(c).value;
    assert actions == front + [last] && actions[..|front|] == front && actions[..|front| + 1] == actions;
    RunKeepsInv(account, start, front);
    ReadingStep(account, s, last, i);
    if ReadingOf(s.calls[i]).Some? && r.(rewrittenAt := None) == ReadingOf(s.calls[i]).value.1.(rewrittenAt := None) {
      ReadingsAreReal(account, start, front, i);
      var before := ReadingOf(s.calls[i]).value.1;
      RealInLongerRun(account, start, front, last, i, arn, before, Name(account, c));
    }
  }

  /** Step j wrote the slot for a query that asks the same as q: same group_by, same filter up to list spelling. */
  ghost predicate RewrittenForSameQuery(account: Account, start: System, actions: seq<Action>, j: nat, call: nat,
    arn: Arn, q: Query) {
    && IsRewrite(account, start, actions, j, call, arn, SlotName(account, q))
    && var other := Run(account, start, actions[..j]).calls[actions[j].call].query;
    && other.groupBy == q.groupBy && SameQuery(other.filter, q.filter)
  }

  lemma ReadingOfSuccess(c: Call)
    requires c.phase.Done? && c.phase.outcome.Success?
    ensures ReadingOf(c) == Some((c.phase.outcome.arn, c.phase.outcome.reading))
  {
  }

  lemma ReadingRefersBack(account: Account, start: System, actions: seq<Action>, call: nat, arn: Arn, r: Reading,
    name: string)
    requires ReadingReal(account, start, actions, call, arn, r, name)
    ensures r.at < |actions| && actions[r.at].Fetch? && actions[r.at].call == call
    ensures ReadAt(Run(account, start, actions[..r.at]), arn, r)
    ensures r.findings == Run(account, start, actions[..r.at]).findings
    ensures r.rewrittenAt.Some? ==>
      r.at < r.rewrittenAt.value < |actions| && IsRewrite(account, start, actions, r.rewrittenAt.value, call, arn, name)
  {
  }

  lemma SuccessIsOk(account: Account, s: System, call: nat)
    requires Inv(account, s) && call in s.calls && s.calls[call].phase.Done? && s.calls[call].phase.outcome.Success?
    ensures var c, r := s.calls[call], s.calls[call].phase.outcome.reading;
            && Valid(account, c.query) && ReadingOk(account, r) && Name(account, c) == SlotName(account, c.query)
            && (r.insight.name == Name(account, c) || r.rewrittenAt.Some?)
  {
    assert CallOk(account, s, s.calls[call]);
  }

  /** What is read under one's own name is the answer to one's own query. */
  lemma OwnNameOwnCounts(account: Account, q: Query, r: Reading)
    requires NoCollisions(account) && Valid(account, q)
    requires ReadingOk(account, r) && r.insight.name == SlotName(account, q)
    ensures r.counts == TrueCounts(account, q, r.findings)
  {
    SlotNamesAreOwnedSlots(account, q);
    var other :| Serves(account, other, r.insight);
    SameNameSameCounts(account, q, other, r.findings);
  }

  lemma RewriteIsSameQuery(account: Account, start: System, actions: seq<Action>, j: nat, call: nat, arn: Arn, q: Query)
    requires NoCollisions(account) && Initial(account, start) && Valid(account, q)
    requires IsRewrite(account, start, actions, j, call, arn, SlotName(account, q))
    ensures RewrittenForSameQuery(account, start, actions, j, call, arn, q)
  {
    hide SlotName, Valid, Run;
    var mid := Run(account, start, actions[..j]);
    RunKeepsInv(account, start, actions[..j]);
    assert CallOk(account, mid, mid.calls[actions[j].call]);
    SlotNameIdentifiesQuery(account, q, mid.calls[actions[j].call].query);
  }

  /** A call becomes a success by its own name check, and stays what it then is. */
  lemma SuccessStep(account: Account, s: System, a: Action, call: nat)
    requires call in Effect(account, s, a).calls
    requires Effect(account, s, a).calls[call].phase.Done? && Effect(account, s, a).calls[call].phase.outcome.Success?
    ensures call in s.calls
    ensures s.calls[call] == Effect(account, s, a).calls[call]
            || (a.Verify? && a.call == call && s.calls[call].phase.Verifying?)
  {
    hide SlotName, InsightResults, FiltersOf, AttributeOf, Scan, DoChoose, Written;
    if a.Choose? && Enabled(account, s, a) && Valid(account, s.calls[a.call].query) {
      ChoosingIsNoSuccess(account, s, a, call);
    }
  }

  lemma ChoosingIsNoSuccess(account: Account, s: System, a: Action, call: nat)
    requires a.Choose? && Enabled(account, s, a) && Valid(account, s.calls[a.call].query)
    requires call in DoChoose(account, s, a).calls
    requires DoChoose(account, s, a).calls[call].phase.Done?
    requires DoChoose(account, s, a).calls[call].phase.outcome.Success?
    ensures call in s.calls && s.calls[call] == DoChoose(account, s, a).calls[call]
  {
    hide SlotName, InsightResults, FiltersOf, AttributeOf, Scan, Valid;
  }

  /** The step of a successful call's name check. */
  lemma {:induction false} SucceededAt(account: Account, start: System, actions: seq<Action>,
    call: nat) returns (v: nat)
    requires Initial(account, start) && call in Run(account, start, actions).calls
    requires Run(account, start, actions).calls[call].phase.Done?
    requires Run(account, start, actions).calls[call].phase.outcome.Success?
    ensures v < |actions| && actions[v].Verify? && actions[v].call == call
    ensures call in Run(account, start, actions[..v]).calls
    ensures Run(account, start, actions[..v]).calls[call].phase.Verifying?
    ensures call in Run(account, start, actions[..v + 1]).calls
    ensures Run(account, start, actions[..v + 1]).calls[call] == Run(account, start, actions).calls[call]
    decreases |actions|
  {
    hide Effect;
    var front, last := actions[..|actions| - 1], actions[|actions| - 1];
    var s := Run(account, start, front);
    SuccessStep(account, s, last, call);
    assert actions[..|front|] == front && actions[..|front| + 1] == actions;
    if s.calls[call] == Run(account, start, actions).calls[call] {
      v := SucceededAt(account, start, front, call);
      assert actions[..v] == front[..v] && actions[..v + 1] == front[..v + 1];
    } else {
      v := |front|;
    }
  }

  /** The same, for the run up to the name check. */
  lemma SuccessAnswers(account: Account, start: System, actions: seq<Action>, call: nat)
    requires NoCollisions(account) && Initial(account, start)
    requires call in Run(account, start, actions).calls
    requires Run(account, start, actions).calls[call].phase.Done?
    requires Run(account, start, actions).calls[call].phase.outcome.Success?
    ensures var c := Run(account, start, actions).calls[call];
            var arn, r := c.phase.outcome.arn, c.phase.outcome.reading;
            && Valid(account, c.query)
            && r.at < |actions| && actions[r.at].Fetch? && actions[r.at].call == call
            && ReadAt(Run(account, start, actions[..r.at]), arn, r)
            && (r.counts == TrueCounts(account, c.query, Run(account, start, actions[..r.at]).findings)
                || (r.insight.name != SlotName(account, c.query)
                    && exists j | r.at < j < |actions| ::
                         RewrittenForSameQuery(account, start, actions, j, call, arn, c.query)))
  {
    hide *;
    var s := Run(account, start, actions);
    var c := s.calls[call];
    var arn, r := c.phase.outcome.arn, c.phase.outcome.reading;
    RunKeepsInv(account, start, actions);
    ReadingOfSuccess(c);
    ReadingsAreReal(account, start, actions, call);
    ReadingRefersBack(account, start, actions, call, arn, r, Name(account, c));
    SuccessIsOk(account, s, call);
    if r.insight.name == Name(account, c) {
      OwnNameOwnCounts(account, c.query, r);
    } else {
      RewriteIsSameQuery(account, start, actions, r.rewrittenAt.value, call, arn, c.query);
    }
  }

  lemma RewriteInLongerRun(account: Account, start: System, actions: seq<Action>, v: nat, j: nat, call: nat, arn: Arn,
    q: Query)
    requires v < |actions| && j < |actions[..v + 1]| && actions[v].Verify?
    requires RewrittenForSameQuery(account, start, actions[..v + 1], j, call, arn, q)
    ensures j < v && RewrittenForSameQuery(account, start, actions, j, call, arn, q)
  {
    hide Run;
    assert actions[..v + 1][..j] == actions[..j] && actions[..v + 1][..j + 1] == actions[..j + 1];
    assert actions[..v + 1][j] == actions[j];
  }

  /** Between a call's read and its name check, another process's call asking the same query wrote the slot for it. */
  ghost predicate RewrittenInWindow(account: Account, start: System, actions: seq<Action>, read: nat, check: nat,
    call: nat, arn: Arn, q: Query) {
    exists j | read < j < check :: RewrittenForSameQuery(account, start, actions, j, call, arn, q)
  }

  /**
   In every interleaving of any number of calls and processes, a call that returns success returns the counts
   its own group_by and filter had at the step it read them. The one exception: at that step the slot had another
   query's name, and between it and the call's name check a call of another process asking the same query wrote it.
   */
  lemma SuccessAnswersItsOwnQuery(account: Account, start: System, actions: seq<Action>, call: nat) returns (check: nat)
    requires NoCollisions(account) && Initial(account, start)
    requires call in Run(account, start, actions).calls
    requires Run(account, start, actions).calls[call].phase.Done?
    requires Run(account, start, actions).calls[call].phase.outcome.Success?
    ensures check < |actions| && actions[check].Verify? && actions[check].call == call
    ensures call in Run(account, start, actions[..check]).calls
    ensures Run(account, start, actions[..check]).calls[call].phase.Verifying?
    ensures var c := Run(account, start, actions).calls[call];
            var arn, r := c.phase.outcome.arn, c.phase.outcome.reading;
            && Valid(account, c.query)
            && r.at < check && actions[r.at].Fetch? && actions[r.at].call == call
            && ReadAt(Run(account, start, actions[..r.at]), arn, r)
            && (r.counts == TrueCounts(account, c.query, Run(account, start, actions[..r.at]).findings)
                || (r.insight.name != SlotName(account, c.query)
                    && RewrittenInWindow(account, start, actions, r.at, check, call, arn, c.query)))
  {
    hide Run, Valid, TrueCounts, RewrittenForSameQuery;
    check := SucceededAt(account, start, actions, call);
    var c := Run(account, start, actions).calls[call];
    var arn, r := c.phase.outcome.arn, c.phase.outcome.reading;
    var prefix := actions[..check + 1];
    SuccessAnswers(account, start, prefix, call);
    assert prefix[r.at] == actions[r.at] && prefix[..r.at] == actions[..r.at];
    if r.counts != TrueCounts(account, c.query, Run(account, start, actions[..r.at]).findings) {
      var j :| r.at < j < |prefix| && RewrittenForSameQuery(account, start, prefix, j, call, arn, c.query);
      RewriteInLongerRun(account, start, actions, check, j, call, arn, c.query);
    }
  }
}
