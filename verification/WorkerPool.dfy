/**
 forEach: a feeder hands the indices 0..n-1 over an unbuffered channel to a fixed set of workers and stops
 when one of them has failed. Goroutines, the channel, the once and the wait group are the steps below.
 */
module WorkerPool {
  import opened Options

  const WORKERS := 8

  type Error = string

  datatype Worker = Idle | Running(item: nat) | Exited

  datatype Feeder = Feeding | Closed | Returned

  /** `results` records what fn returned per finished item; `first` is the error forEach will return. */
  datatype Pool = Pool(
    n: nat,
    workers: seq<Worker>,
    fed: nat,
    feeder: Feeder,
    first: Option<Error>,
    results: map<nat, Option<Error>>)

  datatype Action =
    | HandOver(w: nat)
    | StopFeeding
    | CloseWhenFed
    | Finish(w: nat, err: Option<Error>)
    | Exit(w: nat)
    | Return

  function Start(n: nat): Pool {
    Pool(n, seq(if n < WORKERS then n else WORKERS, _ => Idle), 0, Feeding, None, map[])
  }

  /** The done channel is closed once an error is recorded; select may still prefer a ready worker over it. */
  predicate Enabled(p: Pool, a: Action) {
    match a
    case HandOver(w) => p.feeder.Feeding? && p.fed < p.n && w < |p.workers| && p.workers[w].Idle?
    case StopFeeding => p.feeder.Feeding? && p.fed < p.n && p.first.Some?
    case CloseWhenFed => p.feeder.Feeding? && p.fed == p.n
    case Finish(w, _) => w < |p.workers| && p.workers[w].Running?
    case Exit(w) => p.feeder.Closed? && w < |p.workers| && p.workers[w].Idle?
    case Return => p.feeder.Closed? && forall w | 0 <= w < |p.workers| :: p.workers[w].Exited?
  }

  function Step(p: Pool, a: Action): Pool
    requires Enabled(p, a)
  {
    match a
    case HandOver(w) => p.(workers := p.workers[w := Running(p.fed)], fed := p.fed + 1)
    case StopFeeding => p.(feeder := Closed)
    case CloseWhenFed => p.(feeder := Closed)
    case Finish(w, err) =>
      p.(workers := p.workers[w := Idle],
         results := p.results[p.workers[w].item := err],
         first := if p.first.None? then err else p.first)
    case Exit(w) => p.(workers := p.workers[w := Exited])
    case Return => p.(feeder := Returned)
  }

  predicate IsRun(p: Pool, actions: seq<Action>, q: Pool)
    decreases |actions|
  {
    if actions == [] then p == q else Enabled(p, actions[0]) && IsRun(Step(p, actions[0]), actions[1..], q)
  }

  // ---------------------------------------------------------------- invariant

  /** The items out so far are a prefix, each either finished or with exactly one worker. */
  predicate Accounted(p: Pool) {
    && p.fed <= p.n
    && (forall i | i in p.results :: i < p.fed)
    && (forall w | 0 <= w < |p.workers| && p.workers[w].Running? ::
          p.workers[w].item < p.fed && p.workers[w].item !in p.results)
    && (forall v, w | 0 <= v < w < |p.workers| && p.workers[v].Running? && p.workers[w].Running? ::
          p.workers[v].item != p.workers[w].item)
    && (forall i | 0 <= i < p.fed :: i in p.results || Running(i) in p.workers)
  }

  predicate Inv(p: Pool) {
    && |p.workers| == (if p.n < WORKERS then p.n else WORKERS)
    && Accounted(p)
    && (p.first.None? <==> forall i | i in p.results :: p.results[i].None?)
    && (p.first.Some? ==> exists i | i in p.results :: p.results[i] == p.first)
    && (!p.feeder.Feeding? ==> p.fed == p.n || p.first.Some?)
    && (p.feeder.Feeding? ==> forall w | 0 <= w < |p.workers| :: !p.workers[w].Exited?)
    && (p.feeder.Returned? ==> forall w | 0 <= w < |p.workers| :: p.workers[w].Exited?)
  }

  lemma StepKeepsAccounted(p: Pool, a: Action)
    requires Accounted(p) && Enabled(p, a)
    ensures Accounted(Step(p, a))
  {
    var q := Step(p, a);
    forall i | 0 <= i < q.fed ensures i in q.results || Running(i) in q.workers {
      if i == p.fed {
        assert q.workers[a.w] == Running(i);
      } else if i !in p.results {
        var w :| 0 <= w < |p.workers| && p.workers[w] == Running(i);
        assert w < |q.workers| && (q.workers[w] == p.workers[w] || (a.Finish? && a.w == w));
      }
    }
  }

  lemma StepKeepsInv(p: Pool, a: Action)
    requires Inv(p) && Enabled(p, a)
    ensures Inv(Step(p, a))
  {
    StepKeepsAccounted(p, a);
    var q := Step(p, a);
    if a.Finish? {
      var item := p.workers[a.w].item;
      assert item !in p.results && q.results[item] == a.err;
      if p.first.Some? {
        var i :| i in p.results && p.results[i] == p.first;
        assert i in q.results && q.results[i] == p.first;
      }
      assert forall i | i in p.results :: q.results[i] == p.results[i];
    }
  }

  lemma {:induction false} RunKeepsInv(p: Pool, actions: seq<Action>, q: Pool)
    requires Inv(p) && IsRun(p, actions, q)
    ensures Inv(q) && q.n == p.n
    decreases |actions|
  {
    if actions != [] {
      StepKeepsInv(p, actions[0]);
      RunKeepsInv(Step(p, actions[0]), actions[1..], q);
    }
  }

  /** No index runs twice: an item is handed out or finishes only if it never did before. */
  lemma EachItemOnce(n: nat, actions: seq<Action>, p: Pool, a: Action)
    requires IsRun(Start(n), actions, p) && Enabled(p, a)
    ensures a.HandOver? ==> p.fed !in p.results && Running(p.fed) !in p.workers
    ensures a.Finish? ==> p.workers[a.w].item !in p.results
    ensures |p.workers| == if n < 8 then n else 8
  {
    RunKeepsInv(Start(n), actions, p);
  }

  /**
   When forEach returns, whatever the schedule, nothing is running any more, the items that ran are exactly a
   prefix of 0..n-1, and it returns nil exactly when all n ran without error; otherwise it returns an error
   that one of them gave.
   */
  lemma WhatReturnMeans(n: nat, actions: seq<Action>, p: Pool)
    requires IsRun(Start(n), actions, p) && p.feeder.Returned?
    ensures forall w | 0 <= w < |p.workers| :: p.workers[w].Exited?
    ensures p.fed <= n && forall i: nat :: i in p.results <==> i < p.fed
    ensures p.first.None? <==> p.fed == n && forall i | 0 <= i < n :: i in p.results && p.results[i].None?
    ensures p.first.Some? ==> exists i | i in p.results :: p.results[i] == p.first
  {
    RunKeepsInv(Start(n), actions, p);
    forall i | 0 <= i < p.fed ensures i in p.results {
      assert Running(i) !in p.workers;
    }
  }

  /** The error given by the earliest item to fail. */
  function EarliestError(actions: seq<Action>): Option<Error> {
    if actions == [] then None
    else
      var last := actions[|actions| - 1];
      match EarliestError(actions[..|actions| - 1])
      case Some(err) => Some(err)
      case None => if last.Finish? then last.err else None
  }

  lemma {:induction false} EarliestFromFirst(a: Action, rest: seq<Action>)
    ensures EarliestError([a] + rest)
         == if a.Finish? && a.err.Some? then a.err else EarliestError(rest)
  {
    if rest == [] {
      assert [a] + rest == [a] && [a][..0] == [];
    } else {
      var front := rest[..|rest| - 1];
      assert ([a] + rest)[..|[a] + rest| - 1] == [a] + front;
      EarliestFromFirst(a, front);
    }
  }

  /** What is recorded, and returned in the end, is the error of the first item to fail, whatever fails after it. */
  lemma {:induction false} FirstErrorWins(p: Pool, actions: seq<Action>, q: Pool)
    requires IsRun(p, actions, q)
    ensures q.first == if p.first.Some? then p.first else EarliestError(actions)
    decreases |actions|
  {
    if actions != [] {
      FirstErrorWins(Step(p, actions[0]), actions[1..], q);
      EarliestFromFirst(actions[0], actions[1..]);
      assert [actions[0]] + actions[1..] == actions;
    }
  }

  // ---------------------------------------------------------------- progress and termination

  /** Short of returning, some goroutine can always move, even if no worker's fn ever failed or all of them did. */
  lemma NeverDeadlocks(n: nat, actions: seq<Action>, p: Pool)
    requires IsRun(Start(n), actions, p) && !p.feeder.Returned?
    ensures exists a :: Enabled(p, a)
  {
    RunKeepsInv(Start(n), actions, p);
    if w :| 0 <= w < |p.workers| && p.workers[w].Running? {
      assert Enabled(p, Finish(w, None));
    } else if p.feeder.Feeding? {
      if p.fed == p.n {
        assert Enabled(p, CloseWhenFed);
      } else {
        assert Enabled(p, HandOver(0));
      }
    } else if w :| 0 <= w < |p.workers| && p.workers[w].Idle? {
      assert Enabled(p, Exit(w));
    } else {
      assert forall w | 0 <= w < |p.workers| :: p.workers[w].Exited?;
      assert Enabled(p, Return);
    }
  }

  function Weight(w: Worker): nat {
    match w
    case Idle => 1
    case Running(_) => 2
    case Exited => 0
  }

  function Weights(ws: seq<Worker>): nat {
    if ws == [] then 0 else Weight(ws[0]) + Weights(ws[1..])
  }

  lemma {:induction false} WeightsUpdate(ws: seq<Worker>, i: nat, w: Worker)
    requires i < |ws|
    ensures Weights(ws[i := w]) == Weights(ws) - Weight(ws[i]) + Weight(w)
  {
    if i == 0 {
      assert ws[0 := w][1..] == ws[1..];
    } else {
      assert ws[i := w][1..] == ws[1..][i - 1 := w];
      WeightsUpdate(ws[1..], i - 1, w);
    }
  }

  lemma {:induction false} WeightsIdle(ws: seq<Worker>)
    requires forall i | 0 <= i < |ws| :: ws[i].Idle?
    ensures Weights(ws) == |ws|
  {
    if ws != [] {
      WeightsIdle(ws[1..]);
    }
  }

  function Measure(p: Pool): int {
    2 * (p.n - p.fed) + Weights(p.workers) + match p.feeder case Feeding => 2 case Closed => 1 case Returned => 0
  }

  lemma StepShrinks(p: Pool, a: Action)
    requires Inv(p) && Enabled(p, a)
    ensures Measure(Step(p, a)) == Measure(p) - 1
  {
    if a.HandOver? || a.Finish? || a.Exit? {
      WeightsUpdate(p.workers, a.w, Step(p, a).workers[a.w]);
    }
  }

  lemma {:induction false} RunShrinks(p: Pool, actions: seq<Action>, q: Pool)
    requires Inv(p) && IsRun(p, actions, q)
    ensures |actions| == Measure(p) - Measure(q)
    decreases |actions|
  {
    hide Inv, Step, Enabled, Measure;
    if actions != [] {
      StepShrinks(p, actions[0]);
      StepKeepsInv(p, actions[0]);
      RunShrinks(Step(p, actions[0]), actions[1..], q);
    }
  }

  /** Every schedule comes to an end: with NeverDeadlocks, after at most 2n + workers + 2 steps forEach has returned. */
  lemma EveryScheduleEnds(n: nat, actions: seq<Action>, p: Pool)
    requires IsRun(Start(n), actions, p)
    ensures |actions| <= 2 * n + WORKERS + 2
    ensures p.feeder.Returned? ==> |actions| == 2 * p.fed + |p.workers| + 2
  {
    RunKeepsInv(Start(n), actions, p);
    RunShrinks(Start(n), actions, p);
    WeightsIdle(Start(n).workers);
    if p.feeder.Returned? {
      WeightsExited(p.workers);
    }
  }

  lemma {:induction false} WeightsExited(ws: seq<Worker>)
    requires forall i | 0 <= i < |ws| :: ws[i].Exited?
    ensures Weights(ws) == 0
  {
    if ws != [] {
      WeightsExited(ws[1..]);
    }
  }

  // ---------------------------------------------------------------- when the remaining items are skipped

  /** The items that have finished returned what fn gives for them. */
  predicate Behaves(p: Pool, fn: nat -> Option<Error>) {
    forall i | i in p.results :: p.results[i] == fn(i)
  }

  /** forEach's comment: once one item has failed, no further item is handed out, whatever the schedule. */
  ghost predicate SkipsRest(n: nat, fn: nat -> Option<Error>) {
    forall actions, p, w | IsRun(Start(n), actions, p) && Behaves(p, fn) && p.first.Some? :: !Enabled(p, HandOver(w))
  }

  lemma {:induction false} RunConcat(p: Pool, a: seq<Action>, q: Pool, b: seq<Action>, r: Pool)
    requires IsRun(p, a, q) && IsRun(q, b, r)
    ensures IsRun(p, a + b, r)
    decreases |a|
  {
    if a == [] {
      assert a + b == b;
    } else {
      assert (a + b)[1..] == a[1..] + b;
      RunConcat(Step(p, a[0]), a[1..], q, b, r);
    }
  }

  lemma OneItem(p: Pool, err: Option<Error>)
    requires p.feeder.Feeding? && p.fed < p.n && p.workers != [] && p.workers[0].Idle?
    ensures IsRun(p, [HandOver(0), Finish(0, err)], Step(Step(p, HandOver(0)), Finish(0, err)))
  {
    var actions := [HandOver(0), Finish(0, err)];
    assert actions[1..] == [Finish(0, err)] && actions[1..][1..] == [];
  }

  /** Worker 0 may run the first k items alone, one after the other, failures and all. */
  lemma {:induction false} OneByOne(n: nat, fn: nat -> Option<Error>, k: nat) returns (actions: seq<Action>, p: Pool)
    requires 0 < n && k <= n
    ensures IsRun(Start(n), actions, p) && Behaves(p, fn)
    ensures p.n == n && p.fed == k && p.feeder.Feeding? && p.workers != [] && p.workers[0].Idle?
    ensures forall i | 0 <= i < k :: i in p.results
    decreases k
  {
    if k == 0 {
      actions, p := [], Start(n);
    } else {
      var before, q := OneByOne(n, fn, k - 1);
      var item := [HandOver(0), Finish(0, fn(k - 1))];
      p := Step(Step(q, HandOver(0)), Finish(0, fn(k - 1)));
      OneItem(q, fn(k - 1));
      RunConcat(Start(n), before, q, item, p);
      actions := before + item;
    }
  }

  /** An item after a failed one is still handed out in some schedule. */
  lemma FailureIsPassed(n: nat, fn: nat -> Option<Error>, i: nat) returns (actions: seq<Action>, p: Pool)
    requires i + 1 < n && fn(i).Some?
    ensures IsRun(Start(n), actions, p) && Behaves(p, fn) && p.first.Some? && Enabled(p, HandOver(0))
  {
    actions, p := OneByOne(n, fn, i + 1);
    RunKeepsInv(Start(n), actions, p);
    assert p.results[i] == fn(i);
  }

  /** The comment holds exactly when no item but the last can fail. */
  lemma SkipsRestExactly(n: nat, fn: nat -> Option<Error>)
    ensures SkipsRest(n, fn) <==> forall i: nat | i + 1 < n :: fn(i).None?
  {
    if i: nat :| i + 1 < n && fn(i).Some? {
      var actions, p := FailureIsPassed(n, fn, i);
      assert Enabled(p, HandOver(0));
    } else {
      forall actions, p, w | IsRun(Start(n), actions, p) && Behaves(p, fn) && p.first.Some?
        ensures !Enabled(p, HandOver(w))
      {
        RunKeepsInv(Start(n), actions, p);
        var i :| i in p.results && p.results[i] == p.first;
        assert fn(i).Some? && i < p.fed;
      }
    }
  }

  /** With two items: the first one's error is recorded, and the second may still be handed out. */
  lemma ErrorMayNotSkipNextItem(err: Error) returns (actions: seq<Action>, p: Pool)
    ensures IsRun(Start(2), actions, p) && p.first == Some(err) && Enabled(p, HandOver(0))
  {
    actions, p := FailureIsPassed(2, _ => Some(err), 0);
    RunKeepsInv(Start(2), actions, p);
  }
}
