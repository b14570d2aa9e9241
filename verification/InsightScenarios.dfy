/** Two runs of the Insight protocol: a call left alone succeeds at once, and the one race its name check misses. */
module InsightScenarios {
  import opened Options
  import opened Sequences
  import opened SecurityHubFilter
  import opened InsightNames
  import opened InsightSlot
  import opened InsightSafety

  lemma {:induction false} RunAppend(account: Account, s: System, first: seq<Action>, second: seq<Action>)
    ensures Run(account, s, first + second) == Run(account, Run(account, s, first), second)
    decreases |second|
  {
    if second == [] {
      assert first + second == first;
    } else {
      var front := second[..|second| - 1];
      assert (first + second)[..|first + second| - 1] == first + front;
      RunAppend(account, s, first, front);
    }
  }

  lemma RunOne(account: Account, s: System, a: Action)
    ensures Run(account, s, [a]) == Step(account, s, a)
  {
    assert [a][..0] == [];
  }

  function Items(s: System, page: seq<Arn>): seq<Found>
    requires forall arn | arn in page :: arn in s.insights
  {
    seq(|page|, i requires 0 <= i < |page| && page[i] in s.insights => Found(page[i], s.insights[page[i]].name))
  }

  /** What a call knows after listing one complete page. */
  function Listed(account: Account, s: System, page: seq<Arn>): (p: Phase)
    requires forall arn | arn in page :: arn in s.insights
    ensures p.Choosing?
  {
    var (slot, leftovers) := Scan(account, None, [], Items(s, page));
    Choosing(slot, leftovers)
  }

  function Turn(call: nat, process: nat, q: Query, page: seq<Arn>): seq<Action> {
    [Arrive(call, process, q)] + [Acquire(call)] + [ListPage(call, page, true, Ok)]
  }

  /** A call arrives, takes its process's lock and lists the Insights. */
  lemma TakeTurn(account: Account, s: System, call: nat, process: nat, q: Query, page: seq<Arn>)
    requires Valid(account, q) && call !in s.calls && process !in s.holder
    requires forall arn | arn in page :: arn in s.insights
    ensures Run(account, s, Turn(call, process, q, page))
         == s.(clock := s.clock + 3,
               calls := s.calls[call := Call(process, q, 1, Listed(account, s, page))],
               holder := s.holder[process := call])
  {
    var a, b, c := Arrive(call, process, q), Acquire(call), ListPage(call, page, true, Ok);
    RunOne(account, s, a);
    var s1 := Step(account, s, a);
    ValidReceived(account, q);
    RunAppend(account, s, [a], [b]);
    RunOne(account, s1, b);
    var s2 := Step(account, s1, b);
    RunAppend(account, s, [a] + [b], [c]);
    RunOne(account, s2, c);
    assert s2.calls[call] == Call(process, q, 1, Listing(None, []));
    assert Items(s, page) == Items(s2, page);
    var moved := Call(process, q, 1, Listed(account, s, page));
    assert s2.calls[call := moved] == s.calls[call := moved];
  }

  /** What is left to clean for a call: the leftovers, for the first one of its process to get there. */
  function ToClean(s: System, process: nat, leftovers: seq<Arn>): seq<Arn> {
    if process in s.cleaned then [] else leftovers
  }

  /** Making the slot answer the call's query. */
  lemma ChooseNow(account: Account, s: System, call: nat, newArn: Arn)
    requires call in s.calls && s.calls[call].phase.Choosing?
    requires Valid(account, s.calls[call].query) && newArn !in s.used
    requires var slot := s.calls[call].phase.slot;
             slot.Some? ==> slot.value.arn in s.insights && s.insights[slot.value.arn].name == slot.value.name
    ensures var c, t := s.calls[call], Run(account, s, [Choose(call, newArn, Ok)]);
            var arn := if c.phase.slot.Some? then c.phase.slot.value.arn else newArn;
            && call in t.calls
            && t.calls[call] == c.(phase := Cleaning(arn, ToClean(s, c.process, c.phase.leftovers)))
            && t.findings == s.findings && t.holder == s.holder && t.cleaned == s.cleaned + {c.process}
            && t.insights.Keys == s.insights.Keys + {arn}
            && (forall a | a in s.insights && a != arn :: t.insights[a] == s.insights[a])
            && t.insights[arn].name == Name(account, c)
            && (t.insights[arn] == Answering(account, c.query)
                || (arn in s.insights && t.insights[arn] == s.insights[arn]))
  {
    hide SlotName, InsightResults, Scan, FiltersOf, AttributeOf;
    RunOne(account, s, Choose(call, newArn, Ok));
  }

  function Cleans(call: nat, n: nat): seq<Action> {
    if n == 0 then [] else [Clean(call, Ok)] + Cleans(call, n - 1)
  }

  lemma NoCleans(account: Account, s: System)
    ensures Run(account, s, []) == s
  {
  }

  lemma CleanOne(account: Account, s: System, call: nat)
    requires call in s.calls && s.calls[call].phase.Cleaning? && s.calls[call].phase.todo != []
    ensures var c, t := s.calls[call], Step(account, s, Clean(call, Ok));
            && call in t.calls && t.calls[call] == c.(phase := Cleaning(c.phase.arn, c.phase.todo[1..]))
            && t.insights == s.insights - {c.phase.todo[0]}
            && t.findings == s.findings && t.holder == s.holder && t.cleaned == s.cleaned
  {
    hide SlotName, InsightResults, Scan, FiltersOf, AttributeOf;
  }

  /** One delete per leftover takes them all away and nothing else. */
  lemma {:induction false} CleanAll(account: Account, s: System, call: nat, n: nat)
    requires call in s.calls && s.calls[call].phase.Cleaning? && |s.calls[call].phase.todo| == n
    ensures var c, t := s.calls[call], Run(account, s, Cleans(call, n));
            && call in t.calls && t.calls[call] == c.(phase := Cleaning(c.phase.arn, []))
            && t.insights == s.insights - Elements(c.phase.todo)
            && t.findings == s.findings && t.holder == s.holder && t.cleaned == s.cleaned
    decreases n
  {
    hide Step, Run;
    var c, clean := s.calls[call], Clean(call, Ok);
    if n == 0 {
      NoCleans(account, s);
      assert s.insights - {} == s.insights;
    } else {
      var todo := c.phase.todo;
      var next := Step(account, s, clean);
      CleanOne(account, s, call);
      RunOne(account, s, clean);
      RunAppend(account, s, [clean], Cleans(call, n - 1));
      CleanAll(account, next, call, n - 1);
      assert todo == [todo[0]] + todo[1..];
      ElementsConcat([todo[0]], todo[1..]);
      assert Elements(todo) == {todo[0]} + Elements(todo[1..]);
      assert s.insights - {todo[0]} - Elements(todo[1..]) == s.insights - Elements(todo);
    }
  }

  function ReadBack(call: nat): seq<Action> {
    [Clean(call, Ok)] + [Fetch(call, Ok)] + [Verify(call, Ok)]
  }

  /** With nothing left to clean and nobody interfering, the rest of the attempt succeeds. */
  lemma ReadNow(account: Account, s: System, call: nat)
    requires call in s.calls && s.calls[call].phase.Cleaning? && s.calls[call].phase.todo == []
    requires s.calls[call].phase.arn in s.insights
    requires s.insights[s.calls[call].phase.arn].name == Name(account, s.calls[call])
    ensures var c, t := s.calls[call], Run(account, s, ReadBack(call));
            && call in t.calls && t.calls[call].phase.Done? && t.calls[call].phase.outcome.Success?
            && t.calls[call].phase.outcome.arn == c.phase.arn
            && t.calls[call].phase.outcome.reading.counts
               == InsightResults(account, s.insights[c.phase.arn], s.findings)
            && t.calls[call].query == c.query && t.calls[call].attempt == c.attempt
            && t.insights == s.insights && t.findings == s.findings && t.cleaned == s.cleaned
            && t.holder == s.holder - {c.process}
  {
    hide SlotName, InsightResults, Scan;
    var clean, fetch, verify := Clean(call, Ok), Fetch(call, Ok), Verify(call, Ok);
    RunAppend(account, s, [clean] + [fetch], [verify]);
    RunAppend(account, s, [clean], [fetch]);
    RunOne(account, s, clean);
    RunOne(account, Step(account, s, clean), fetch);
    RunOne(account, Step(account, Step(account, s, clean), fetch), verify);
  }

  /** An attempt from its listing on: the slot, one delete per leftover, the results and the name check. */
  function FromListing(account: Account, s: System, call: nat, process: nat, page: seq<Arn>, newArn: Arn): seq<Action>
    requires forall arn | arn in page :: arn in s.insights
  {
    [ListPage(call, page, true, Ok)] + [Choose(call, newArn, Ok)]
    + Cleans(call, |ToClean(s, process, Listed(account, s, page).leftovers)|) + ReadBack(call)
  }

  /** The whole attempt of a call that arrives and takes its process's lock. */
  function Attempt(account: Account, s: System, call: nat, process: nat, q: Query, page: seq<Arn>,
    newArn: Arn): seq<Action>
    requires forall arn | arn in page :: arn in s.insights
  {
    [Arrive(call, process, q)] + [Acquire(call)] + FromListing(account, s, call, process, page, newArn)
  }

  /** The slot the listing shows, or the one about to be created. */
  function SlotArn(account: Account, s: System, page: seq<Arn>, newArn: Arn): Arn
    requires forall arn | arn in page :: arn in s.insights
  {
    var slot := Listed(account, s, page).slot;
    if slot.Some? then slot.value.arn else newArn
  }

  /** What a finished attempt leaves: a success with the true counts, the slot, and what it deleted. */
  predicate Succeeded(account: Account, s: System, t: System, call: nat, c: Call, page: seq<Arn>, newArn: Arn)
    requires Valid(account, c.query) && forall arn | arn in page :: arn in s.insights
  {
    var arn := SlotArn(account, s, page, newArn);
    && call in t.calls && t.calls[call].query == c.query && t.calls[call].attempt == c.attempt
    && t.calls[call].phase.Done? && t.calls[call].phase.outcome.Success?
    && t.calls[call].phase.outcome.arn == arn
    && t.calls[call].phase.outcome.reading.counts == TrueCounts(account, c.query, s.findings)
    && t.findings == s.findings && t.holder == s.holder - {c.process} && t.cleaned == s.cleaned + {c.process}
    && arn in t.insights && t.insights[arn].name == SlotName(account, c.query)
    && (forall a | a in t.insights && a != arn :: a in s.insights && t.insights[a] == s.insights[a])
    && (forall a | a in s.insights :: a !in t.insights
          <==> c.process !in s.cleaned && a != arn && a in page && "centcom-satellite-stats-" <= s.insights[a].name)
  }

  lemma ListNow(account: Account, s: System, call: nat, page: seq<Arn>)
    requires call in s.calls && s.calls[call].phase == Listing(None, [])
    requires forall arn | arn in page :: arn in s.insights
    ensures var t := Step(account, s, ListPage(call, page, true, Ok));
            t == s.(clock := s.clock + 1, calls := s.calls[call := s.calls[call].(phase := Listed(account, s, page))])
  {
    hide Scan, SlotName, AttributeOf, FiltersOf;
  }

  /** What such an attempt leaves, in terms of what its listing gave it to clean. */
  lemma LeftAloneRuns(account: Account, s: System, call: nat, page: seq<Arn>, newArn: Arn)
    requires NoCollisions(account) && Inv(account, s)
    requires call in s.calls && s.calls[call].phase == Listing(None, []) && newArn !in s.used
    requires Valid(account, s.calls[call].query)
    requires Distinct(page) && forall arn | arn in page :: arn in s.insights
    ensures var c := s.calls[call];
            var t := Run(account, s, FromListing(account, s, call, c.process, page, newArn));
            var arn := SlotArn(account, s, page, newArn);
            var gone := Elements(ToClean(s, c.process, Listed(account, s, page).leftovers));
            && call in t.calls && t.calls[call].phase.Done? && t.calls[call].phase.outcome.Success?
            && t.calls[call].query == c.query && t.calls[call].attempt == c.attempt
            && t.calls[call].phase.outcome.arn == arn
            && t.calls[call].phase.outcome.reading.counts == TrueCounts(account, c.query, s.findings)
            && t.findings == s.findings && t.holder == s.holder - {c.process} && t.cleaned == s.cleaned + {c.process}
            && arn !in gone && t.insights.Keys == s.insights.Keys + {arn} - gone
            && (forall a | a in t.insights && a != arn :: a in s.insights && t.insights[a] == s.insights[a])
            && t.insights[arn].name == SlotName(account, c.query)
  {
    hide Scan, Items, Listed, Run, Step, ReadBack, StoreOk, CallOk, LocksOk, Valid, Answering, Cleans, Distinct;
    hide TrueCounts, InsightResults, SlotName, AttributeOf, FiltersOf;
    var c, list, choose := s.calls[call], [ListPage(call, page, true, Ok)], [Choose(call, newArn, Ok)];
    var q, todo := c.query, ToClean(s, c.process, Listed(account, s, page).leftovers);
    ListNow(account, s, call, page);
    RunOne(account, s, list[0]);
    ListedIsStored(account, s, page);
    LeftoversApart(account, s, page, newArn);
    var s3 := Run(account, s, list);
    ChooseNow(account, s3, call, newArn);
    var s4 := Run(account, s3, choose);
    var arn := s4.calls[call].phase.arn;
    CleanAll(account, s4, call, |todo|);
    var s5 := Run(account, s4, Cleans(call, |todo|));
    ReadNow(account, s5, call);
    RunAppend(account, s, list, choose);
    RunAppend(account, s, list + choose, Cleans(call, |todo|));
    RunAppend(account, s, list + choose + Cleans(call, |todo|), ReadBack(call));
    ServedTruly(account, s, s4.insights[arn], q, s.findings, arn);
  }

  lemma GoneExactly(account: Account, s: System, process: nat, page: seq<Arn>, newArn: Arn)
    requires newArn !in s.used && (forall arn | arn in s.insights :: arn in s.used)
    requires Distinct(page) && forall arn | arn in page :: arn in s.insights
    ensures forall a :: (a in Elements(ToClean(s, process, Listed(account, s, page).leftovers))
              <==> process !in s.cleaned && a in page && Owned(s.insights[a].name)
                   && a != SlotArn(account, s, page, newArn))
  {
    hide Listed, Owned, Distinct;
    LeftoversExactly(account, s, page);
  }

  /**
   From any state the protocol can reach, an attempt left alone from its listing on succeeds, whichever attempt it
   is: it returns the true counts of the moment and frees the lock, it reuses the slot if the listing shows one and
   creates one only otherwise, and it deletes the other Insights of this task the listing shows if it is the first
   of its process to get there, none if not.
   */
  lemma LeftAloneSucceeds(account: Account, s: System, call: nat, page: seq<Arn>, newArn: Arn)
    requires NoCollisions(account) && Inv(account, s)
    requires call in s.calls && s.calls[call].phase == Listing(None, []) && newArn !in s.used
    requires Distinct(page) && forall arn | arn in page :: arn in s.insights
    ensures Valid(account, s.calls[call].query)
    ensures var c := s.calls[call];
            Succeeded(account, s, Run(account, s, FromListing(account, s, call, c.process, page, newArn)),
                      call, c, page, newArn)
  {
    assert CallOk(account, s, s.calls[call]);
    hide Listed, Run, FromListing, ToClean, SlotArn, Valid, Distinct, Owned, TrueCounts, SlotName, Elements, PhaseOk;
    hide LocksOk, Honest;
    LeftAloneRuns(account, s, call, page, newArn);
    GoneExactly(account, s, s.calls[call].process, page, newArn);
  }

  lemma Arrives(account: Account, s: System, call: nat, process: nat, q: Query)
    requires Valid(account, q) && call !in s.calls && process !in s.holder
    ensures Run(account, s, [Arrive(call, process, q)] + [Acquire(call)])
         == s.(clock := s.clock + 2, calls := s.calls[call := Call(process, q, 1, Listing(None, []))],
               holder := s.holder[process := call])
  {
    var a, b := Arrive(call, process, q), Acquire(call);
    RunOne(account, s, a);
    var s1 := Step(account, s, a);
    ValidReceived(account, q);
    RunAppend(account, s, [a], [b]);
    RunOne(account, s1, b);
  }

  /** From any state the protocol can reach, a call left alone succeeds at its first attempt. */
  lemma UndisturbedCallSucceeds(account: Account, s: System, call: nat, process: nat, q: Query, page: seq<Arn>,
    newArn: Arn)
    requires NoCollisions(account) && Inv(account, s) && Valid(account, q)
    requires call !in s.calls && process !in s.holder && newArn !in s.used
    requires Distinct(page) && forall arn | arn in page :: arn in s.insights
    ensures Succeeded(account, s, Run(account, s, Attempt(account, s, call, process, q, page, newArn)),
                      call, Call(process, q, 1, Listing(None, [])), page, newArn)
  {
    var arrive := [Arrive(call, process, q)] + [Acquire(call)];
    var t := Run(account, s, arrive);
    Arrives(account, s, call, process, q);
    hide *;
    TwoStepsKeepInv(account, s, Arrive(call, process, q), Acquire(call));
    SameListing(account, s, t, page);
    LeftAloneSucceeds(account, t, call, page, newArn);
    RunAppend(account, s, arrive, FromListing(account, s, call, process, page, newArn));
    FromListingAfter(account, s, t, call, process, q, page, newArn);
    SucceededBefore(account, s, t, Run(account, t, FromListing(account, t, call, process, page, newArn)), call,
                    process, q, page, newArn);
  }

  lemma FromListingAfter(account: Account, s: System, t: System, call: nat, process: nat, q: Query, page: seq<Arn>,
    newArn: Arn)
    requires s.insights == t.insights && s.cleaned == t.cleaned && forall arn | arn in page :: arn in s.insights
    ensures FromListing(account, s, call, process, page, newArn) == FromListing(account, t, call, process, page, newArn)
    ensures Attempt(account, s, call, process, q, page, newArn)
         == [Arrive(call, process, q)] + [Acquire(call)] + FromListing(account, s, call, process, page, newArn)
  {
    hide Listed, Cleans, ReadBack;
    SameListing(account, s, t, page);
  }

  lemma SucceededBefore(account: Account, s: System, t: System, u: System, call: nat, process: nat, q: Query,
    page: seq<Arn>, newArn: Arn)
    requires Valid(account, q) && process !in s.holder && forall arn | arn in page :: arn in s.insights
    requires var c := Call(process, q, 1, Listing(None, []));
             && t == s.(clock := s.clock + 2, calls := s.calls[call := c], holder := s.holder[process := call])
             && Succeeded(account, t, u, call, c, page, newArn)
    ensures Succeeded(account, s, u, call, Call(process, q, 1, Listing(None, [])), page, newArn)
  {
    hide Listed, Valid, TrueCounts, SlotName, Owned;
    SameListing(account, s, t, page);
    assert s.holder[process := call] - {process} == s.holder - {process} == s.holder;
  }

  lemma TwoStepsKeepInv(account: Account, s: System, a: Action, b: Action)
    requires Inv(account, s)
    ensures Inv(account, Run(account, s, [a] + [b]))
  {
    hide Inv, Step;
    StepKeepsInv(account, s, a);
    StepKeepsInv(account, Step(account, s, a), b);
    RunAppend(account, s, [a], [b]);
    RunOne(account, s, a);
    RunOne(account, Step(account, s, a), b);
  }

  lemma SameListing(account: Account, s: System, t: System, page: seq<Arn>)
    requires s.insights == t.insights && forall arn | arn in page :: arn in s.insights
    ensures Listed(account, s, page) == Listed(account, t, page)
  {
    assert Items(s, page) == Items(t, page);
  }

  /**
   What the cleaning is for: if the first call of a process lists everything, then exactly one Insight of this
   task is left, the slot holding the call's query.
   */
  lemma FirstCallLeavesOneInsight(account: Account, s: System, call: nat, process: nat, q: Query, page: seq<Arn>,
    newArn: Arn)
    requires NoCollisions(account) && Inv(account, s) && Valid(account, q)
    requires call !in s.calls && process !in s.holder && process !in s.cleaned && newArn !in s.used
    requires Distinct(page) && Elements(page) == s.insights.Keys
    ensures forall arn | arn in page :: arn in s.insights
    ensures var t := Run(account, s, Attempt(account, s, call, process, q, page, newArn));
            var arn := SlotArn(account, s, page, newArn);
            && (forall a | a in t.insights :: "centcom-satellite-stats-" <= t.insights[a].name <==> a == arn)
            && arn in t.insights && t.insights[arn].name == SlotName(account, q)
  {
    assert forall arn | arn in page :: arn in Elements(page);
    hide Run, Listed, Inv, Valid, SlotName, TrueCounts, Distinct;
    UndisturbedCallSucceeds(account, s, call, process, q, page, newArn);
    SlotNamesAreOwnedSlots(account, q);
    LeftoversExactly(account, s, page);
    forall a | a in s.insights ensures a in page {
      assert a in Elements(page);
    }
  }

  predicate DistinctArns(items: seq<Found>) {
    forall i, j | 0 <= i < j < |items| :: items[i].arn != items[j].arn
  }

  /** Among the items an owned Insight has this ARN. */
  predicate HasOwned(items: seq<Found>, a: Arn) {
    exists f | f in items :: f.arn == a && Owned(f.name)
  }

  lemma HasOwnedHead(items: seq<Found>, a: Arn)
    requires items != [] && DistinctArns(items)
    ensures HasOwned(items, a) <==> (items[0].arn == a && Owned(items[0].name)) || HasOwned(items[1..], a)
    ensures DistinctArns(items[1..]) && !HasOwned(items[1..], items[0].arn)
    ensures forall f | f in items[1..] :: f in items && f.arn != items[0].arn
  {
    assert items == [items[0]] + items[1..];
    assert forall f :: f in items <==> f == items[0] || f in items[1..];
    assert items[0] in items;
  }

  /** Every owned Insight of a listing is a leftover, save the slot. */
  lemma {:induction false} ScanLeaves(account: Account, slot: Option<Found>, leftovers: seq<Arn>, items: seq<Found>,
    a: Arn)
    requires DistinctArns(items) && (slot.Some? ==> forall f | f in items :: f.arn != slot.value.arn)
    ensures var (found, left) := Scan(account, slot, leftovers, items);
            && (slot.Some? ==> found == slot)
            && (found.Some? && slot.None? ==> found.value in items)
            && (a in left <==> a in leftovers || (HasOwned(items, a) && (found.None? || found.value.arn != a)))
    decreases |items|
  {
    hide HasOwned, IsSlot, Owned, DistinctArns;
    if items == [] {
      NothingOwned(a);
    } else {
      var head, rest := items[0], items[1..];
      HasOwnedHead(items, a);
      assert head in items;
      SlotNamesAreOwnedSlots(account, Query("", NO_FILTER));
      if slot.None? && IsSlot(account, head.name) {
        ScanLeaves(account, Some(head), leftovers, rest, a);
      } else if Owned(head.name) {
        ScanLeaves(account, slot, leftovers + [head.arn], rest, a);
        var (found, left) := Scan(account, slot, leftovers + [head.arn], rest);
        assert Scan(account, slot, leftovers, items) == (found, left);
        assert found.Some? ==> found.value.arn != head.arn;
        assert a in leftovers + [head.arn] <==> a in leftovers || a == head.arn;
      } else {
        ScanLeaves(account, slot, leftovers, rest, a);
      }
    }
  }

  lemma NothingOwned(a: Arn)
    ensures !HasOwned([], a)
  {
  }

  lemma LeftoversExactly(account: Account, s: System, page: seq<Arn>)
    requires Distinct(page) && forall arn | arn in page :: arn in s.insights
    ensures var slot := Listed(account, s, page).slot;
            forall a :: (a in Listed(account, s, page).leftovers
                         <==> a in page && Owned(s.insights[a].name) && (slot.None? || slot.value.arn != a))
  {
    var items, slot := Items(s, page), Listed(account, s, page).slot;
    forall a ensures a in Listed(account, s, page).leftovers
                     <==> a in page && Owned(s.insights[a].name) && (slot.None? || slot.value.arn != a)
    {
      ScanLeaves(account, None, [], items, a);
      ItemsOf(s, page, a);
    }
  }

  lemma ItemsOf(s: System, page: seq<Arn>, a: Arn)
    requires forall arn | arn in page :: arn in s.insights
    ensures HasOwned(Items(s, page), a) <==> a in page && Owned(s.insights[a].name)
  {
    assert forall f | f in Items(s, page) :: f.arn in page && f.name == s.insights[f.arn].name;
    if a in page {
      var i :| 0 <= i < |page| && page[i] == a;
      assert Items(s, page)[i] == Found(a, s.insights[a].name);
    }
  }

  /** The slot is not among the leftovers, nor is a new ARN. */
  lemma LeftoversApart(account: Account, s: System, page: seq<Arn>, newArn: Arn)
    requires Inv(account, s) && newArn !in s.used
    requires Distinct(page) && forall arn | arn in page :: arn in s.insights
    ensures SlotArn(account, s, page, newArn) !in Listed(account, s, page).leftovers
  {
    LeftoversExactly(account, s, page);
  }

  /** The slot a listing reports is stored, under the name reported. */
  lemma {:induction false} ScanReportsStored(account: Account, s: System, slot: Option<Found>, leftovers: seq<Arn>,
    items: seq<Found>)
    requires slot.Some? ==> slot.value.arn in s.insights && s.insights[slot.value.arn].name == slot.value.name
    requires forall f | f in items :: f.arn in s.insights && s.insights[f.arn].name == f.name
    ensures var found := Scan(account, slot, leftovers, items).0;
            found.Some? ==> found.value.arn in s.insights && s.insights[found.value.arn].name == found.value.name
    decreases |items|
  {
    if items != [] {
      if slot.None? && IsSlot(account, items[0].name) {
        ScanReportsStored(account, s, Some(items[0]), leftovers, items[1..]);
      } else if Owned(items[0].name) {
        ScanReportsStored(account, s, slot, leftovers + [items[0].arn], items[1..]);
      } else {
        ScanReportsStored(account, s, slot, leftovers, items[1..]);
      }
    }
  }

  lemma ListedIsStored(account: Account, s: System, page: seq<Arn>)
    requires forall arn | arn in page :: arn in s.insights
    ensures var slot := Listed(account, s, page).slot;
            slot.Some? ==> slot.value.arn in s.insights && s.insights[slot.value.arn].name == slot.value.name
  {
    ScanReportsStored(account, s, None, [], Items(s, page));
  }

  lemma ServedTruly(account: Account, s: System, i: Insight, q: Query, findings: seq<Finding>, arn: Arn)
    requires NoCollisions(account) && StoreOk(account, s) && Valid(account, q) && i.name == SlotName(account, q)
    requires i == Answering(account, q) || (arn in s.insights && i == s.insights[arn])
    ensures InsightResults(account, i, findings) == TrueCounts(account, q, findings)
  {
    if i != Answering(account, q) {
      SlotNamesAreOwnedSlots(account, q);
      var r :| Serves(account, r, i);
      SameNameSameCounts(account, q, r, findings);
    }
  }

  // ---------------------------------------------------------------- the race the name check misses

  function MissedRace(mine: Query, theirs: Query): seq<Action> {
    (Turn(1, 1, mine, [0]) + [Choose(1, 1, Ok)]) + [Clean(1, Ok)]
    + (Turn(2, 2, theirs, [0]) + [Choose(2, 1, Ok)]) + [Fetch(1, Ok)]
    + (Turn(3, 3, mine, [0]) + [Choose(3, 1, Ok)]) + [Verify(1, Ok)]
  }

  function OneSlot(account: Account, q: Query, findings: seq<Finding>): System
    requires Valid(account, q)
  {
    System(0, map[0 := Answering(account, q)], {0}, findings, map[], map[], {})
  }

  /** A single stored Insight with a slot's name is what a listing finds. */
  lemma ListsTheSlot(account: Account, s: System)
    requires 0 in s.insights && IsSlot(account, s.insights[0].name)
    ensures Listed(account, s, [0]) == Choosing(Some(Found(0, s.insights[0].name)), [])
  {
    var found := Found(0, s.insights[0].name);
    assert Items(s, [0]) == [found] && [found][1..] == [];
    assert Scan(account, Some(found), [], []) == (Some(found), []);
    assert Scan(account, None, [], [found]) == Scan(account, Some(found), [], [found][1..]);
  }

  /** A call of its own process finds its query in slot 0 already, or writes it there. */
  function SlotTaken(account: Account, s: System, call: nat, q: Query): System
    requires Valid(account, q) && 0 in s.insights
  {
    var listed := s.(clock := s.clock + 3);
    var after := if s.insights[0].name == SlotName(account, q) then listed else Written(account, listed, call, 0, q);
    after.(clock := s.clock + 4, calls := after.calls[call := Call(call, q, 1, Cleaning(0, []))],
           holder := s.holder[call := call], cleaned := s.cleaned + {call})
  }

  lemma ChooseSlot(account: Account, s: System, call: nat, q: Query)
    requires Valid(account, q) && call !in s.calls && 0 in s.insights && 1 !in s.used
    ensures var c := Call(call, q, 1, Choosing(Some(Found(0, s.insights[0].name)), []));
            var listed := s.(clock := s.clock + 3, calls := s.calls[call := c], holder := s.holder[call := call]);
            Step(account, listed, Choose(call, 1, Ok)) == SlotTaken(account, s, call, q)
  {
    hide SlotName, Answering, InsightResults, Scan, DoArrive, DoListPage, DoClean, DoFetch, DoVerify, Valid;
    var c := Call(call, q, 1, Choosing(Some(Found(0, s.insights[0].name)), []));
    var d := c.(phase := Cleaning(0, []));
    var listed := s.(clock := s.clock + 3, calls := s.calls[call := c], holder := s.holder[call := call]);
    var bare, name := s.(clock := s.clock + 3), SlotName(account, q);
    if s.insights[0].name == name {
      assert listed.calls[call := d] == s.calls[call := d];
    } else {
      assert Noted(account, listed, call, 0, name)[call := d] == Noted(account, bare, call, 0, name)[call := d];
    }
  }

  /** One call takes a turn over the single slot 0 and makes it answer its query. */
  lemma TakeSlot(account: Account, s: System, call: nat, q: Query)
    requires Valid(account, q) && call !in s.calls && call !in s.holder
    requires 0 in s.insights && IsSlot(account, s.insights[0].name) && 1 !in s.used
    ensures Run(account, s, Turn(call, call, q, [0]) + [Choose(call, 1, Ok)]) == SlotTaken(account, s, call, q)
  {
    var turn, choose := Turn(call, call, q, [0]), Choose(call, 1, Ok);
    TakeTurn(account, s, call, call, q, [0]);
    ListsTheSlot(account, s);
    RunAppend(account, s, turn, [choose]);
    RunOne(account, Run(account, s, turn), choose);
    ChooseSlot(account, s, call, q);
  }

  /** A point of the race: slot 0 answers q, and call 1, asking `mine`, is at the given phase. */
  predicate RaceAt(account: Account, s: System, q: Query, mine: Query, phase: Phase, others: set<nat>,
    findings: seq<Finding>)
    requires Valid(account, q)
  {
    && 0 in s.insights && s.insights[0] == Answering(account, q)
    && 1 in s.calls && s.calls[1] == Call(1, mine, 1, phase)
    && s.calls.Keys == {1} + others && s.holder.Keys == {1} + others
    && 1 !in s.used && s.findings == findings
  }

  lemma RaceOpens(account: Account, mine: Query, findings: seq<Finding>)
    requires Valid(account, mine)
    ensures var s := Run(account, OneSlot(account, mine, findings), Turn(1, 1, mine, [0]) + [Choose(1, 1, Ok)]);
            RaceAt(account, Step(account, s, Clean(1, Ok)), mine, mine, Fetching(0), {}, findings)
  {
    var start := OneSlot(account, mine, findings);
    SlotNamesAreOwnedSlots(account, mine);
    TakeSlot(account, start, 1, mine);
  }

  lemma OtherTakesSlot(account: Account, s: System, held: Query, mine: Query, phase: Phase, others: set<nat>,
    findings: seq<Finding>, call: nat, q: Query)
    requires Valid(account, held) && Valid(account, q) && RaceAt(account, s, held, mine, phase, others, findings)
    requires call != 1 && call !in others && SlotName(account, held) != SlotName(account, q)
    ensures var t := Run(account, s, Turn(call, call, q, [0]) + [Choose(call, 1, Ok)]);
            && 1 in t.calls
            && RaceAt(account, t, q, mine, t.calls[1].phase, others + {call}, findings)
            && (t.calls[1].phase == phase
                || (phase.Verifying? && t.calls[1].phase.Verifying? && t.calls[1].phase.arn == phase.arn
                    && t.calls[1].phase.reading.counts == phase.reading.counts))
  {
    SlotNamesAreOwnedSlots(account, held);
    TakeSlot(account, s, call, q);
  }

  lemma RaceFetch(account: Account, s: System, theirs: Query, mine: Query, others: set<nat>, findings: seq<Finding>)
    requires Valid(account, theirs) && RaceAt(account, s, theirs, mine, Fetching(0), others, findings)
    ensures var t := Step(account, s, Fetch(1, Ok));
            && 1 in t.calls && t.calls[1].phase.Verifying? && t.calls[1].phase.arn == 0
            && t.calls[1].phase.reading.counts == TrueCounts(account, theirs, findings)
            && RaceAt(account, t, theirs, mine, t.calls[1].phase, others, findings)
  {
  }

  lemma RaceVerify(account: Account, s: System, mine: Query, r: Reading, others: set<nat>, findings: seq<Finding>)
    requires Valid(account, mine) && RaceAt(account, s, mine, mine, Verifying(0, r), others, findings)
    ensures var t := Step(account, s, Verify(1, Ok));
            1 in t.calls && t.calls[1] == Call(1, mine, 1, Done(Success(0, r))) && t.findings == findings
  {
  }

  lemma OneSlotIsInitial(account: Account, q: Query, findings: seq<Finding>)
    requires Valid(account, q)
    ensures Initial(account, OneSlot(account, q, findings))
  {
    assert Serves(account, q, OneSlot(account, q, findings).insights[0]);
  }

  /**
   The exception is real. A call reads while another query sits in the slot; before it verifies, a third call
   with its own query puts that name back; the check passes and the other query's counts are returned.
   */
  lemma TheCheckCanBeFooled(account: Account, mine: Query, theirs: Query, findings: seq<Finding>)
    requires Valid(account, mine) && Valid(account, theirs)
    requires SlotName(account, mine) != SlotName(account, theirs)
    requires TrueCounts(account, mine, findings) != TrueCounts(account, theirs, findings)
    ensures var start := OneSlot(account, mine, findings);
            var end := Run(account, start, MissedRace(mine, theirs));
            && Initial(account, start)
            && 1 in end.calls && end.calls[1].phase.Done? && end.calls[1].phase.outcome.Success?
            && end.calls[1].query == mine
            && end.calls[1].phase.outcome.reading.counts != TrueCounts(account, mine, findings)
            && end.findings == findings
  {
    hide Run, Step, Turn, OneSlot, Initial, Valid, TrueCounts, SlotName, Answering;
    var start := OneSlot(account, mine, findings);
    OneSlotIsInitial(account, mine, findings);
    var first := Turn(1, 1, mine, [0]) + [Choose(1, 1, Ok)];
    var second := Turn(2, 2, theirs, [0]) + [Choose(2, 1, Ok)];
    var third := Turn(3, 3, mine, [0]) + [Choose(3, 1, Ok)];
    var s1 := Run(account, start, first);
    var s2 := Step(account, s1, Clean(1, Ok));
    var s3 := Run(account, s2, second);
    var s4 := Step(account, s3, Fetch(1, Ok));
    var s5 := Run(account, s4, third);
    RaceOpens(account, mine, findings);
    OtherTakesSlot(account, s2, mine, mine, Fetching(0), {}, findings, 2, theirs);
    RaceFetch(account, s3, theirs, mine, {} + {2}, findings);
    OtherTakesSlot(account, s4, theirs, mine, s4.calls[1].phase, {} + {2}, findings, 3, mine);
    RaceVerify(account, s5, mine, s5.calls[1].phase.reading, {} + {2} + {3}, findings);
    RaceIsRun(account, start, first, second, third);
  }

  lemma RaceIsRun(account: Account, start: System, first: seq<Action>, second: seq<Action>, third: seq<Action>)
    ensures var s2 := Step(account, Run(account, start, first), Clean(1, Ok));
            var s4 := Step(account, Run(account, s2, second), Fetch(1, Ok));
            && Run(account, start, first + [Clean(1, Ok)] + second + [Fetch(1, Ok)] + third + [Verify(1, Ok)])
               == Step(account, Run(account, s4, third), Verify(1, Ok))
  {
    var a := first + [Clean(1, Ok)];
    var b := a + second + [Fetch(1, Ok)];
    RunAppend(account, start, first, [Clean(1, Ok)]);
    RunOne(account, Run(account, start, first), Clean(1, Ok));
    RunAppend(account, start, a, second);
    RunAppend(account, start, a + second, [Fetch(1, Ok)]);
    RunOne(account, Run(account, start, a + second), Fetch(1, Ok));
    RunAppend(account, start, b, third);
    RunAppend(account, start, b + third, [Verify(1, Ok)]);
    RunOne(account, Run(account, start, b + third), Verify(1, Ok));
  }
}
