/** The fan-out's time bound is attained: a cluster whose every call times out takes exactly that long. */
module NodeFanOutWorstCase {
  import opened NodeFanOut

  predicate SameSetting(f: FanOut, g: FanOut) {
    g.n == f.n && g.slots == f.slots && g.timeout == f.timeout
  }

  lemma {:induction false} RunConcat(f: FanOut, a: seq<Action>, g: FanOut, b: seq<Action>, h: FanOut)
    requires IsRun(f, a, g) && IsRun(g, b, h)
    ensures IsRun(f, a + b, h)
    decreases |a|
  {
    if a == [] {
      assert a + b == b;
    } else {
      assert (a + b)[1..] == a[1..] + b;
      RunConcat(Step(f, a[0]), a[1..], g, b, h);
    }
  }

  lemma OneStep(f: FanOut, a: Action)
    requires Enabled(f, a)
    ensures IsRun(f, [a], Step(f, a))
  {
    assert [a][1..] == [];
  }

  /** Every held slot's call is under way since this moment. */
  predicate JustStarted(f: FanOut, since: real) {
    forall j | j in Held(f) :: f.jobs[j].stage.Calling? && f.jobs[j].start == since
  }

  /** m more goroutines take free slots without time passing. */
  lemma {:induction false} Fill(f: FanOut, m: nat) returns (actions: seq<Action>, g: FanOut)
    requires Counted(f) && JustStarted(f, f.now) && m <= |f.waiting| && |Held(f)| + m <= f.slots
    ensures IsRun(f, actions, g) && Counted(g) && SameSetting(f, g) && g.now == f.now
    ensures JustStarted(g, g.now) && |Held(g)| == |Held(f)| + m && |g.waiting| == |f.waiting| - m
    decreases m
  {
    if m == 0 {
      actions, g := [], f;
    } else {
      var node :| node in f.waiting;
      var next := Step(f, Acquire(node));
      StepKeepsCounted(f, Acquire(node));
      AcquireHolds(f, next, next.jobs[|f.jobs|]);
      var rest: seq<Action>;
      rest, g := Fill(next, m - 1);
      actions := [Acquire(node)] + rest;
      OneStep(f, Acquire(node));
      RunConcat(f, [Acquire(node)], next, rest, g);
    }
  }

  lemma RoomToSend(f: FanOut, job: nat)
    requires Counted(f) && At(f, job, Returned)
    ensures Enabled(f, Send(job))
  {
    assert job in Pending(f);
  }

  /** One goroutine gets its answer, sends it and frees its slot. */
  lemma FinishOne(f: FanOut, job: nat) returns (actions: seq<Action>, g: FanOut)
    requires Counted(f) && job in Held(f) && f.jobs[job].stage.Calling?
    ensures IsRun(f, actions, g) && Counted(g) && SameSetting(f, g) && g.now == f.now && g.waiting == f.waiting
    ensures Held(g) == Held(f) - {job} && |g.jobs| == |f.jobs|
    ensures forall j | 0 <= j < |f.jobs| && j != job :: g.jobs[j] == f.jobs[j]
  {
    hide Counted, IsRun, Pending;
    var f1 := Step(f, CallReturns(job));
    StepKeepsCounted(f, CallReturns(job));
    RoomToSend(f1, job);
    var f2 := Step(f1, Send(job));
    StepKeepsCounted(f1, Send(job));
    g := Step(f2, Release(job));
    StepKeepsCounted(f2, Release(job));
    OneStep(f, CallReturns(job));
    OneStep(f1, Send(job));
    OneStep(f2, Release(job));
    RunConcat(f, [CallReturns(job)], f1, [Send(job)], f2);
    actions := [CallReturns(job)] + [Send(job)] + [Release(job)];
    RunConcat(f, [CallReturns(job)] + [Send(job)], f2, [Release(job)], g);
  }

  lemma {:induction false} Drain(f: FanOut) returns (actions: seq<Action>, g: FanOut)
    requires Counted(f) && forall j | j in Held(f) :: f.jobs[j].stage.Calling?
    ensures IsRun(f, actions, g) && Counted(g) && SameSetting(f, g) && g.now == f.now && g.waiting == f.waiting
    ensures Held(g) == {}
    decreases |Held(f)|
  {
    if Held(f) == {} {
      actions, g := [], f;
    } else {
      var job :| job in Held(f);
      var first, next := FinishOne(f, job);
      var rest: seq<Action>;
      rest, g := Drain(next);
      actions := first + rest;
      RunConcat(f, first, next, rest, g);
    }
  }

  /** All slots that can be are taken, and all the calls last until their timeout. */
  lemma SlowWave(f: FanOut) returns (actions: seq<Action>, g: FanOut)
    requires Counted(f) && f.timeout > 0.0 && Held(f) == {} && f.waiting != {}
    ensures IsRun(f, actions, g) && Counted(g) && SameSetting(f, g) && g.now == f.now + f.timeout
    ensures Held(g) != {} && forall j | j in Held(g) :: g.jobs[j].stage.Calling?
    ensures |g.waiting| == if |f.waiting| <= f.slots then 0 else |f.waiting| - f.slots
  {
    var m := if |f.waiting| <= f.slots then |f.waiting| else f.slots;
    var fill, full := Fill(f, m);
    var tick := Tick(f.timeout);
    g := Step(full, tick);
    StepKeepsCounted(full, tick);
    assert Held(g) == Held(full);
    OneStep(full, tick);
    RunConcat(f, fill, full, [tick], g);
    actions := fill + [tick];
  }

  lemma {:induction false} SlowWaves(f: FanOut, c: nat) returns (actions: seq<Action>, g: FanOut)
    requires Counted(f) && f.timeout > 0.0 && Held(f) == {} && c > 0 && (c - 1) * f.slots < |f.waiting|
    ensures IsRun(f, actions, g) && g.now == f.now + c as real * f.timeout && Held(g) != {}
    decreases c
  {
    hide Counted, IsRun, Held, Step;
    var first, full := SlowWave(f);
    if c == 1 {
      actions, g := first, full;
      assert 1 as real * f.timeout == f.timeout;
    } else {
      assert (c - 1) * f.slots == (c - 2) * f.slots + f.slots;
      var drain, next := Drain(full);
      var rest: seq<Action>;
      rest, g := SlowWaves(next, c - 1);
      RunConcat(f, first, full, drain, next);
      RunConcat(f, first + drain, next, rest, g);
      actions := first + drain + rest;
      OneMore(c - 1, f.timeout);
    }
  }

  lemma StartReady(n: nat, slots: nat, timeout: real)
    requires slots > 0 && timeout > 0.0
    ensures var f := Start(n, slots, timeout); Counted(f) && Held(f) == {} && |f.waiting| == n && f.now == 0.0
  {
    var f := Start(n, slots, timeout);
    Reached(n, slots, timeout, [], f);
    UptoIs(n);
    assert forall j :: j !in Held(f);
  }

  lemma HeldNotFinished(f: FanOut)
    requires Held(f) != {}
    ensures !AllFinished(f)
  {
    var j :| j in Held(f);
  }

  /** With c = ceil(n / slots), some schedule is still not over when c timeouts have passed. */
  lemma WorstCaseIsAttained(n: nat, slots: nat, timeout: real, c: nat)
    requires slots > 0 && timeout > 0.0 && c > 0 && (c - 1) * slots < n
    ensures exists actions, f ::
      IsRun(Start(n, slots, timeout), actions, f) && f.now == c as real * timeout && !AllFinished(f)
  {
    hide IsRun, Counted, Held;
    var start := Start(n, slots, timeout);
    StartReady(n, slots, timeout);
    var actions, f := SlowWaves(start, c);
    HeldNotFinished(f);
  }
}
