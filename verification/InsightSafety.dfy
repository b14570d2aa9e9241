/** What holds in every interleaving of the Insight protocol, and the one interleaving its name check misses. */
module InsightSafety {
  import opened Options
  import opened SecurityHubFilter
  import opened InsightNames
  import opened InsightSlot

  // ---------------------------------------------------------------- the invariant

  /** An Insight under a slot's name has the attribute and filters of a query with that name. */
  ghost predicate Honest(account: Account, i: Insight) {
    IsSlot(account, i.name) ==> exists q :: Serves(account, q, i)
  }

  predicate Serves(account: Account, q: Query, i: Insight) {
    Valid(account, q) && i == Answering(account, q)
  }

  /** ARNs are not reused, so an ARN seen with one of this task's names never comes to mean anything else. */
  predicate OursOrGone(s: System, arn: Arn) {
    arn in s.used && (arn in s.insights ==> Owned(s.insights[arn].name))
  }

  ghost predicate ReadingOk(account: Account, r: Reading) {
    Honest(account, r.insight) && r.counts == InsightResults(account, r.insight, r.findings)
  }

  ghost predicate PhaseOk(account: Account, s: System, c: Call) {
    match c.phase
    case Waiting => true
    case Listing(slot, leftovers) =>
      (slot.Some? ==> OursOrGone(s, slot.value.arn)) && forall l | l in leftovers :: OursOrGone(s, l)
    case Choosing(slot, leftovers) =>
      (slot.Some? ==> OursOrGone(s, slot.value.arn)) && forall l | l in leftovers :: OursOrGone(s, l)
    case Cleaning(arn, todo) => OursOrGone(s, arn) && forall l | l in todo :: OursOrGone(s, l)
    case Fetching(arn) => OursOrGone(s, arn)
    case Verifying(arn, r) =>
      && OursOrGone(s, arn) && ReadingOk(account, r)
      && (r.insight.name == Name(account, c) || r.rewrittenAt.Some?
          || (arn in s.insights ==> s.insights[arn].name != Name(account, c)))
    case Done(outcome) =>
      outcome.Success? ==>
        && ReadingOk(account, outcome.reading)
        && (outcome.reading.insight.name == Name(account, c) || outcome.reading.rewrittenAt.Some?)
  }

  ghost predicate CallOk(account: Account, s: System, c: Call) {
    && 1 <= c.attempt <= MAX_ATTEMPTS
    && (c.phase == Done(Unsupported) || Valid(account, c.query))
    && (c.phase == Done(Busy) || c.phase == Done(Failed(NotFound)) ==> c.attempt == MAX_ATTEMPTS)
    && PhaseOk(account, s, c)
  }

  ghost predicate StoreOk(account: Account, s: System) {
    forall arn | arn in s.insights :: arn in s.used && Honest(account, s.insights[arn])
  }

  /** Only the holder of a process's region lock is between acquiring and finishing. */
  predicate LocksOk(s: System) {
    forall i | i in s.calls && s.calls[i].phase.Critical() ::
      s.calls[i].process in s.holder && s.holder[s.calls[i].process] == i
  }

  ghost predicate Inv(account: Account, s: System) {
    && StoreOk(account, s)
    && LocksOk(s)
    && forall i | i in s.calls :: CallOk(account, s, s.calls[i])
  }

  ghost predicate Initial(account: Account, s: System) {
    && s.calls == map[] && s.clock == 0
    && StoreOk(account, s)
  }

  // ---------------------------------------------------------------- frames

  /** The store may only have lost Insights, changed foreign ones, or gained them under new ARNs. */
  predicate Quiet(account: Account, s: System, t: System) {
    && s.used <= t.used
    && forall arn | arn in t.insights && arn in s.used ::
         && arn in s.insights
         && (t.insights[arn] == s.insights[arn] || (!Owned(s.insights[arn].name) && !Owned(t.insights[arn].name)))
  }

  lemma QuietKeepsCall(account: Account, s: System, t: System, c: Call)
    requires CallOk(account, s, c) && Quiet(account, s, t)
    ensures CallOk(account, t, c)
  {
    SlotNamesAreOwnedSlots(account, c.query);
  }

  /** Everything but one call and the parts of the state it owns is unchanged. */
  lemma OneCallMoves(account: Account, s: System, t: System, call: nat, c: Call)
    requires Inv(account, s) && call in s.calls && c.process == s.calls[call].process
    requires s.calls[call].phase.Critical()
    requires t.calls == s.calls[call := c] && CallOk(account, t, c)
    requires t.holder == (if c.phase.Done? then s.holder - {c.process} else s.holder)
    requires Quiet(account, s, t) && StoreOk(account, t)
    ensures Inv(account, t)
  {
    forall i | i in t.calls ensures CallOk(account, t, t.calls[i]) {
      if i != call {
        QuietKeepsCall(account, s, t, s.calls[i]);
      }
    }
  }

  lemma {:induction false} ScanKeepsOurs(account: Account, s: System, slot: Option<Found>, leftovers: seq<Arn>,
    items: seq<Found>)
    requires StoreOk(account, s)
    requires slot.Some? ==> OursOrGone(s, slot.value.arn)
    requires forall l | l in leftovers :: OursOrGone(s, l)
    requires forall f | f in items :: f.arn in s.insights && s.insights[f.arn].name == f.name
    ensures var (slot', leftovers') := Scan(account, slot, leftovers, items);
            && (slot'.Some? ==> OursOrGone(s, slot'.value.arn))
            && forall l | l in leftovers' :: OursOrGone(s, l)
    decreases |items|
  {
    if items != [] {
      SlotNamesAreOwnedSlots(account, Query("", NO_FILTER));
      if slot.None? && IsSlot(account, items[0].name) {
        ScanKeepsOurs(account, s, Some(items[0]), leftovers, items[1..]);
      } else if Owned(items[0].name) {
        ScanKeepsOurs(account, s, slot, leftovers + [items[0].arn], items[1..]);
      } else {
        ScanKeepsOurs(account, s, slot, leftovers, items[1..]);
      }
    }
  }

  const NO_FILTER := Filter([], [], "", [], "", "", [], "", "", "", "", "", "", "")

  // ---------------------------------------------------------------- every step keeps it

  lemma ListKeepsInv(account: Account, s: System, a: Action)
    requires Inv(account, s) && a.ListPage? && Enabled(account, s, a)
    ensures Inv(account, Effect(account, s, a))
  {
    var c, t := s.calls[a.call], DoListPage(account, s, a);
    if a.reply.Ok? {
      var items := seq(|a.page|, i requires 0 <= i < |a.page| && a.page[i] in s.insights =>
                         Found(a.page[i], s.insights[a.page[i]].name));
      ScanKeepsOurs(account, s, c.phase.slot, c.phase.leftovers, items);
    }
    OneCallMoves(account, s, t, a.call, t.calls[a.call]);
  }

  lemma WriteKeepsOther(account: Account, s: System, t: System, writer: nat, arn: Arn, q: Query, i: nat)
    requires Valid(account, q) && i in s.calls && i != writer && CallOk(account, s, s.calls[i])
    requires OursOrGone(s, arn) || arn !in s.used
    requires t == Written(account, s, writer, arn, q)
    ensures i in t.calls && CallOk(account, t, t.calls[i])
    ensures t.calls[i].process == s.calls[i].process && t.calls[i].query == s.calls[i].query
    ensures t.calls[i].phase.Critical() == s.calls[i].phase.Critical()
  {
    SlotNamesAreOwnedSlots(account, q);
    var c := s.calls[i];
    assert forall x | OursOrGone(s, x) :: OursOrGone(t, x);
    if c.phase.Verifying? && c.phase.arn == arn && Name(account, c) == SlotName(account, q) {
      assert t.calls[i].phase.reading.rewrittenAt.Some?;
    }
  }

  lemma WriteKeepsInv(account: Account, s: System, writer: nat, arn: Arn)
    requires Inv(account, s) && writer in s.calls && s.calls[writer].phase.Choosing?
    requires OursOrGone(s, arn) || arn !in s.used
    ensures var t := Written(account, s, writer, arn, s.calls[writer].query);
            Inv(account, t) && t.calls[writer] == s.calls[writer] && OursOrGone(t, arn)
  {
    var c := s.calls[writer];
    var t := Written(account, s, writer, arn, c.query);
    SlotNamesAreOwnedSlots(account, c.query);
    assert Serves(account, c.query, t.insights[arn]);
    assert forall x | OursOrGone(s, x) :: OursOrGone(t, x);
    assert CallOk(account, t, c);
    forall i | i in s.calls && i != writer
      ensures CallOk(account, t, t.calls[i]) && t.calls[i].process == s.calls[i].process
      ensures t.calls[i].phase.Critical() == s.calls[i].phase.Critical()
    {
      WriteKeepsOther(account, s, t, writer, arn, c.query, i);
    }
  }

  lemma PreparedKeepsInv(account: Account, s: System, call: nat, arn: Arn)
    requires Inv(account, s) && call in s.calls && s.calls[call].phase.Choosing? && OursOrGone(s, arn)
    ensures Inv(account, Prepared(s, call, s.calls[call], arn))
  {
    var t := Prepared(s, call, s.calls[call], arn);
    OneCallMoves(account, s, t, call, t.calls[call]);
  }

  lemma FaultKeepsInv(account: Account, s: System, call: nat, fault: Fault, preparing: bool)
    requires Inv(account, s) && call in s.calls && s.calls[call].phase.Critical()
    ensures Inv(account, Put(s, call, AfterFault(s.calls[call], fault, preparing)))
  {
    var t := Put(s, call, AfterFault(s.calls[call], fault, preparing));
    OneCallMoves(account, s, t, call, t.calls[call]);
  }

  lemma ChooseKeepsInv(account: Account, s: System, a: Action)
    requires Inv(account, s) && a.Choose? && Enabled(account, s, a)
    ensures Inv(account, Effect(account, s, a))
  {
    var c := s.calls[a.call];
    var slot := c.phase.slot;
    if Writes(account, s, a) {
      var arn := if slot.Some? then slot.value.arn else a.newArn;
      WriteKeepsInv(account, s, a.call, arn);
      var after := Written(account, s, a.call, arn, c.query);
      FaultKeepsInv(account, after, a.call, Other, true);
      PreparedKeepsInv(account, after, a.call, arn);
    } else if slot.Some? && slot.value.name == Name(account, c) {
      PreparedKeepsInv(account, s, a.call, slot.value.arn);
    } else {
      FaultKeepsInv(account, s, a.call, if a.reply.Refused? then a.reply.fault else NotFound, true);
    }
  }

  lemma CleanKeepsInv(account: Account, s: System, a: Action)
    requires Inv(account, s) && a.Clean? && Enabled(account, s, a)
    ensures Inv(account, Effect(account, s, a))
  {
    var t := DoClean(account, s, a);
    var todo := s.calls[a.call].phase.todo;
    assert CallOk(account, s, s.calls[a.call]);
    forall l | l in todo ensures OursOrGone(t, l) {
      assert OursOrGone(s, l);
    }
    assert todo != [] ==> forall l | l in todo[1..] :: l in todo;
    OneCallMoves(account, s, t, a.call, t.calls[a.call]);
  }

  lemma FetchKeepsInv(account: Account, s: System, a: Action)
    requires Inv(account, s) && a.Fetch? && Enabled(account, s, a)
    ensures Inv(account, Effect(account, s, a))
  {
    hide Scan, SlotName, AttributeOf;
    var t := DoFetch(account, s, a);
    OneCallMoves(account, s, t, a.call, t.calls[a.call]);
  }

  lemma VerifyKeepsInv(account: Account, s: System, a: Action)
    requires Inv(account, s) && a.Verify? && Enabled(account, s, a)
    ensures Inv(account, Effect(account, s, a))
  {
    hide InsightResults, Scan;
    var c, t := s.calls[a.call], DoVerify(account, s, a);
    SlotNamesAreOwnedSlots(account, c.query);
    OneCallMoves(account, s, t, a.call, t.calls[a.call]);
  }

  lemma ForeignKeepsInv(account: Account, s: System, a: Action)
    requires Inv(account, s) && Enabled(account, s, a)
    requires a.ForeignWrite? || a.ForeignDelete? || a.NewFindings?
    ensures Inv(account, Effect(account, s, a))
  {
    var t := Effect(account, s, a);
    SlotNamesAreOwnedSlots(account, Query("", NO_FILTER));
    forall i | i in t.calls ensures CallOk(account, t, t.calls[i]) {
      QuietKeepsCall(account, s, t, s.calls[i]);
    }
  }

  lemma StartKeepsInv(account: Account, s: System, a: Action)
    requires Inv(account, s) && Enabled(account, s, a)
    requires a.Arrive? || a.Acquire?
    ensures Inv(account, Effect(account, s, a))
  {
    var t := Effect(account, s, a);
    forall i | i in t.calls && i != a.call ensures CallOk(account, t, t.calls[i]) {
      QuietKeepsCall(account, s, t, s.calls[i]);
    }
  }

  lemma ClockKeepsInv(account: Account, s: System, clock: nat)
    requires Inv(account, s)
    ensures Inv(account, s.(clock := clock))
  {
    var t := s.(clock := clock);
    forall i | i in t.calls ensures CallOk(account, t, t.calls[i]) {
      QuietKeepsCall(account, s, t, t.calls[i]);
    }
  }

  lemma EffectKeepsInv(account: Account, s: System, a: Action)
    requires Inv(account, s) && Enabled(account, s, a)
    ensures Inv(account, Effect(account, s, a))
  {
    hide *;
    match a
    case Arrive(_, _, _) => StartKeepsInv(account, s, a);
    case Acquire(_) => StartKeepsInv(account, s, a);
    case ListPage(_, _, _, _) => ListKeepsInv(account, s, a);
    case Choose(_, _, _) => ChooseKeepsInv(account, s, a);
    case Clean(_, _) => CleanKeepsInv(account, s, a);
    case Fetch(_, _) => FetchKeepsInv(account, s, a);
    case Verify(_, _) => VerifyKeepsInv(account, s, a);
    case ForeignWrite(_, _) => ForeignKeepsInv(account, s, a);
    case ForeignDelete(_) => ForeignKeepsInv(account, s, a);
    case NewFindings(_) => ForeignKeepsInv(account, s, a);
  }

  lemma DisabledDoesNothing(account: Account, s: System, a: Action)
    requires !Enabled(account, s, a)
    ensures Effect(account, s, a) == s
  {
  }

  lemma StepKeepsInv(account: Account, s: System, a: Action)
    requires Inv(account, s)
    ensures Inv(account, Step(account, s, a))
  {
    hide Effect, Inv, Enabled;
    if Enabled(account, s, a) {
      EffectKeepsInv(account, s, a);
    } else {
      DisabledDoesNothing(account, s, a);
    }
    ClockKeepsInv(account, Effect(account, s, a), s.clock + 1);
  }

  lemma {:induction false} RunKeepsInv(account: Account, s: System, actions: seq<Action>)
    requires Initial(account, s)
    ensures Inv(account, Run(account, s, actions))
    ensures Run(account, s, actions).clock == |actions|
    decreases |actions|
  {
    if actions != [] {
      RunKeepsInv(account, s, actions[..|actions| - 1]);
      StepKeepsInv(account, Run(account, s, actions[..|actions| - 1]), actions[|actions| - 1]);
    }
  }

  // ---------------------------------------------------------------- consequences in every run

  /** Whatever its name denotes is what a slot computes: for every query of that name it gives the true counts. */
  lemma SlotsMatchTheirNames(account: Account, start: System, actions: seq<Action>, arn: Arn, q: Query)
    requires NoCollisions(account) && Initial(account, start) && Valid(account, q)
    requires arn in Run(account, start, actions).insights
    requires Run(account, start, actions).insights[arn].name == SlotName(account, q)
    ensures var s := Run(account, start, actions);
            && s.insights[arn].attribute == AttributeOf(q.groupBy).value
            && InsightResults(account, s.insights[arn], s.findings) == TrueCounts(account, q, s.findings)
  {
    var s := Run(account, start, actions);
    RunKeepsInv(account, start, actions);
    SlotNamesAreOwnedSlots(account, q);
    var r :| Serves(account, r, s.insights[arn]);
    SlotNameIdentifiesQuery(account, q, r);
    SameNameSameCounts(account, q, r, s.findings);
  }

  /** No call ever writes or deletes an Insight that is not this task's. */
  lemma ForeignInsightsUntouched(account: Account, start: System, actions: seq<Action>, a: Action, arn: Arn)
    requires Initial(account, start) && !a.ForeignWrite? && !a.ForeignDelete?
    requires arn in Run(account, start, actions).insights
    requires !("centcom-satellite-stats-" <= Run(account, start, actions).insights[arn].name)
    ensures var s := Run(account, start, actions);
            arn in Step(account, s, a).insights && Step(account, s, a).insights[arn] == s.insights[arn]
  {
    hide SlotName, AttributeOf, FiltersOf, InsightResults, Valid, Scan;
    var s := Run(account, start, actions);
    RunKeepsInv(account, start, actions);
    if (a.Choose? || a.Clean?) && Enabled(account, s, a) {
      assert CallOk(account, s, s.calls[a.call]);
      if a.Clean? && s.calls[a.call].phase.todo != [] {
        assert OursOrGone(s, s.calls[a.call].phase.todo[0]);
      }
    }
  }

  /**
   One call per process at a time, and no call, wherever it is, at more than its third attempt; only there does it
   give up over a rewritten or vanished slot.
   */
  lemma CallsTakeTurns(account: Account, start: System, actions: seq<Action>)
    requires Initial(account, start)
    ensures var s := Run(account, start, actions);
            && (forall i | i in s.calls :: 1 <= s.calls[i].attempt <= 3)
            && (forall i | i in s.calls && s.calls[i].phase in {Done(Busy), Done(Failed(NotFound))} ::
                  s.calls[i].attempt == 3)
            && (forall i, j | i in s.calls && j in s.calls && s.calls[i].phase.Critical() && s.calls[j].phase.Critical()
                              && s.calls[i].process == s.calls[j].process :: i == j)
  {
    hide Run;
    var s := Run(account, start, actions);
    RunKeepsInv(account, start, actions);
    assert forall i | i in s.calls :: CallOk(account, s, s.calls[i]);
  }
}
