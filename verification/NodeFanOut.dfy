/**
 pv_usage's fan-out: one goroutine per node, a semaphore of k slots, a timeout per kubelet call, and a result
 channel with room for every node. Time is real-valued and passes only when no goroutine could move without it.
 */
module NodeFanOut {
  import opened Sequences

  datatype Stage = Calling | Returned | Sent | Finished

  /** A goroutine that has taken a slot; jobs are numbered in the order they took theirs. */
  datatype Job = Job(node: nat, start: real, stage: Stage)

  datatype FanOut = FanOut(
    n: nat,
    slots: nat,
    timeout: real,
    now: real,
    waiting: set<nat>,
    jobs: seq<Job>,
    results: seq<nat>)

  datatype Action =
    | Acquire(node: nat)
    | CallReturns(job: nat)
    | Send(job: nat)
    | Release(job: nat)
    | Tick(elapsed: real)

  function Upto(n: nat): set<nat> {
    if n == 0 then {} else Upto(n - 1) + {n - 1}
  }

  lemma {:induction false} UptoIs(n: nat)
    ensures |Upto(n)| == n && forall i: nat :: i in Upto(n) <==> i < n
  {
    if n > 0 {
      UptoIs(n - 1);
    }
  }

  function Start(n: nat, slots: nat, timeout: real): FanOut {
    FanOut(n, slots, timeout, 0.0, Upto(n), [], [])
  }

  /** The jobs that hold a semaphore slot. */
  function Held(f: FanOut): set<nat> {
    set j: nat | j < |f.jobs| && !f.jobs[j].stage.Finished?
  }

  predicate At(f: FanOut, job: nat, stage: Stage) {
    job < |f.jobs| && f.jobs[job].stage == stage
  }

  /** Sending blocks on a full channel; a call is cut off at its timeout; a free slot is taken before time passes. */
  predicate Enabled(f: FanOut, a: Action) {
    match a
    case Acquire(node) => node in f.waiting && |Held(f)| < f.slots
    case CallReturns(job) => At(f, job, Calling)
    case Send(job) => At(f, job, Returned) && |f.results| < f.n
    case Release(job) => At(f, job, Sent)
    case Tick(elapsed) =>
      && elapsed > 0.0
      && (f.waiting == {} || |Held(f)| == f.slots)
      && forall j | j in Held(f) :: f.jobs[j].stage.Calling? && f.now + elapsed <= f.jobs[j].start + f.timeout
  }

  function Move(f: FanOut, job: nat, stage: Stage): FanOut
    requires job < |f.jobs|
  {
    f.(jobs := f.jobs[job := f.jobs[job].(stage := stage)])
  }

  function Step(f: FanOut, a: Action): FanOut
    requires Enabled(f, a)
  {
    match a
    case Acquire(node) => f.(waiting := f.waiting - {node}, jobs := f.jobs + [Job(node, f.now, Calling)])
    case CallReturns(job) => Move(f, job, Returned)
    case Send(job) => Move(f, job, Sent).(results := f.results + [f.jobs[job].node])
    case Release(job) => Move(f, job, Finished)
    case Tick(elapsed) => f.(now := f.now + elapsed)
  }

  predicate IsRun(f: FanOut, actions: seq<Action>, g: FanOut)
    decreases |actions|
  {
    if actions == [] then f == g else Enabled(f, actions[0]) && IsRun(Step(f, actions[0]), actions[1..], g)
  }

  predicate AllFinished(f: FanOut) {
    f.waiting == {} && forall j | 0 <= j < |f.jobs| :: f.jobs[j].stage.Finished?
  }

  // ---------------------------------------------------------------- slots, nodes and results

  predicate NodesOk(f: FanOut) {
    && (forall i | i in f.waiting :: i < f.n)
    && (forall j | 0 <= j < |f.jobs| :: f.jobs[j].node < f.n && f.jobs[j].node !in f.waiting)
    && (forall i, j | 0 <= i < j < |f.jobs| :: f.jobs[i].node != f.jobs[j].node)
    && |f.waiting| + |f.jobs| == f.n
  }

  function Pending(f: FanOut): set<nat> {
    set j: nat | j < |f.jobs| && (f.jobs[j].stage.Calling? || f.jobs[j].stage.Returned?)
  }

  predicate ResultsOk(f: FanOut) {
    && (forall j | 0 <= j < |f.jobs| ::
          f.jobs[j].node in f.results <==> f.jobs[j].stage.Sent? || f.jobs[j].stage.Finished?)
    && (forall r | r in f.results :: r < f.n && r !in f.waiting)
    && (forall x, y | 0 <= x < y < |f.results| :: f.results[x] != f.results[y])
    && |f.results| + |Pending(f)| == |f.jobs|
  }

  predicate Counted(f: FanOut) {
    && f.slots > 0 && |Held(f)| <= f.slots
    && NodesOk(f) && ResultsOk(f)
  }

  lemma AcquireKeepsNodes(f: FanOut, node: nat, job: Job)
    requires NodesOk(f) && node in f.waiting && job.node == node
    ensures NodesOk(f.(waiting := f.waiting - {node}, jobs := f.jobs + [job]))
  {
  }

  lemma AcquireHolds(f: FanOut, g: FanOut, job: Job)
    requires job.stage.Calling? && g.jobs == f.jobs + [job]
    ensures Held(g) == Held(f) + {|f.jobs|} && Pending(g) == Pending(f) + {|f.jobs|}
  {
  }

  lemma AcquireKeepsResults(f: FanOut, node: nat, job: Job)
    requires NodesOk(f) && ResultsOk(f) && node in f.waiting && job.node == node && job.stage.Calling?
    ensures ResultsOk(f.(waiting := f.waiting - {node}, jobs := f.jobs + [job]))
  {
    AcquireHolds(f, f.(waiting := f.waiting - {node}, jobs := f.jobs + [job]), job);
    assert |f.jobs| !in Pending(f);
  }

  lemma AcquireKeepsCounted(f: FanOut, a: Action)
    requires Counted(f) && a.Acquire? && Enabled(f, a)
    ensures Counted(Step(f, a))
  {
    var job := Job(a.node, f.now, Calling);
    AcquireKeepsNodes(f, a.node, job);
    AcquireKeepsResults(f, a.node, job);
    AcquireHolds(f, Step(f, a), job);
  }

  lemma SendKeepsCounted(f: FanOut, a: Action)
    requires Counted(f) && a.Send? && Enabled(f, a)
    ensures Counted(Step(f, a))
  {
    var g := Step(f, a);
    assert Held(g) == Held(f) && a.job in Pending(f) && Pending(g) == Pending(f) - {a.job};
    assert f.jobs[a.job].node !in f.results;
  }

  lemma StepKeepsCounted(f: FanOut, a: Action)
    requires Counted(f) && Enabled(f, a)
    ensures Counted(Step(f, a))
  {
    var g := Step(f, a);
    match a
    case Acquire(_) => AcquireKeepsCounted(f, a);
    case Send(_) => SendKeepsCounted(f, a);
    case CallReturns(_) => assert Held(g) == Held(f) && Pending(g) == Pending(f);
    case Release(job) => assert Held(g) == Held(f) - {job} && Pending(g) == Pending(f);
    case Tick(_) => assert Held(g) == Held(f) && Pending(g) == Pending(f);
  }

  // ---------------------------------------------------------------- time

  /** The latest moment the j-th job can start: one timeout later than the job `slots` places before it. */
  function Wave(slots: nat, timeout: real, j: nat): real
    requires slots > 0
    decreases j
  {
    if j < slots then 0.0 else Wave(slots, timeout, j - slots) + timeout
  }

  lemma {:induction false} WaveMonotone(slots: nat, timeout: real, i: nat, j: nat)
    requires slots > 0 && timeout >= 0.0 && i <= j
    ensures 0.0 <= Wave(slots, timeout, i) <= Wave(slots, timeout, j)
    decreases j
  {
    if slots <= i {
      WaveMonotone(slots, timeout, i - slots, j - slots);
    } else if slots <= j {
      WaveMonotone(slots, timeout, 0, j - slots);
    }
  }

  lemma WaveBack(slots: nat, timeout: real, j: nat)
    requires 0 < slots <= j
    ensures Wave(slots, timeout, j) == Wave(slots, timeout, j - slots) + timeout
  {
  }

  predicate TimesOk(f: FanOut) {
    && f.slots > 0 && f.timeout >= 0.0
    && (forall i, j | 0 <= i < j < |f.jobs| :: f.jobs[i].start <= f.jobs[j].start)
    && (forall j | 0 <= j < |f.jobs| ::
          f.jobs[j].start <= f.now && f.jobs[j].start <= Wave(f.slots, f.timeout, j))
    && (f.waiting != {} ==> f.now <= Wave(f.slots, f.timeout, |f.jobs|))
    && (forall j | 0 <= j < |f.jobs| && !f.jobs[j].stage.Finished? :: f.now <= f.jobs[j].start + f.timeout)
  }

  lemma {:induction false} InRange(s: set<nat>, lo: nat, hi: nat)
    requires lo <= hi && forall x | x in s :: lo <= x < hi
    ensures |s| <= hi - lo
    decreases hi
  {
    if lo < hi {
      InRange(s - {hi - 1}, lo, hi - 1);
    } else {
      assert s == {};
    }
  }

  /** Of k unfinished jobs among the first m, one is among the first m - k + 1. */
  lemma OldestHolder(s: set<nat>, m: nat) returns (x: nat)
    requires s != {} && forall x | x in s :: x < m
    ensures |s| <= m && x in s && x <= m - |s|
  {
    InRange(s, 0, m);
    if forall y | y in s :: y > m - |s| {
      InRange(s, m - |s| + 1, m);
    }
    x :| x in s && x <= m - |s|;
  }

  lemma TickKeepsTimes(f: FanOut, a: Action)
    requires TimesOk(f) && a.Tick? && Enabled(f, a)
    ensures TimesOk(Step(f, a))
  {
    hide Wave;
    assert forall j | 0 <= j < |f.jobs| && !f.jobs[j].stage.Finished? :: j in Held(f);
    if f.waiting != {} {
      var m := |f.jobs|;
      var x := OldestHolder(Held(f), m);
      WaveBack(f.slots, f.timeout, m);
      assert f.jobs[x].start <= Wave(f.slots, f.timeout, x);
      WaveMonotone(f.slots, f.timeout, x, m - f.slots);
    }
  }

  lemma AcquireKeepsTimes(f: FanOut, a: Action)
    requires TimesOk(f) && Enabled(f, a) && a.Acquire?
    ensures TimesOk(Step(f, a))
  {
    hide Wave, Held, Pending;
    WaveMonotone(f.slots, f.timeout, |f.jobs|, |f.jobs| + 1);
  }

  lemma StepKeepsTimes(f: FanOut, a: Action)
    requires TimesOk(f) && Enabled(f, a)
    ensures TimesOk(Step(f, a))
  {
    hide Wave;
    if a.Tick? {
      TickKeepsTimes(f, a);
    } else if a.Acquire? {
      AcquireKeepsTimes(f, a);
    }
  }

  // ---------------------------------------------------------------- every run

  predicate Inv(f: FanOut) {
    Counted(f) && TimesOk(f)
  }

  lemma {:induction false} RunKeepsInv(f: FanOut, actions: seq<Action>, g: FanOut)
    requires Inv(f) && IsRun(f, actions, g)
    ensures Inv(g) && g.n == f.n && g.slots == f.slots && g.timeout == f.timeout
    decreases |actions|
  {
    if actions != [] {
      StepKeepsCounted(f, actions[0]);
      StepKeepsTimes(f, actions[0]);
      RunKeepsInv(Step(f, actions[0]), actions[1..], g);
    }
  }

  lemma Reached(n: nat, slots: nat, timeout: real, actions: seq<Action>, f: FanOut)
    requires slots > 0 && timeout >= 0.0 && IsRun(Start(n, slots, timeout), actions, f)
    ensures Inv(f) && f.n == n && f.slots == slots && f.timeout == timeout
  {
    UptoIs(n);
    assert Held(Start(n, slots, timeout)) == {} && Pending(Start(n, slots, timeout)) == {};
    WaveMonotone(slots, timeout, 0, 0);
    RunKeepsInv(Start(n, slots, timeout), actions, f);
  }

  lemma OneMore(c: nat, timeout: real)
    ensures (c + 1) as real * timeout == c as real * timeout + timeout
  {
    assert (c + 1) as real == c as real + 1.0;
  }

  /** With c waves for n jobs, the last one is over by c timeouts. */
  lemma {:induction false} LastWave(slots: nat, timeout: real, n: nat, c: nat)
    requires slots > 0 && timeout >= 0.0 && 0 < n <= c * slots
    ensures Wave(slots, timeout, n - 1) + timeout <= c as real * timeout
    decreases c
  {
    OneMore(c - 1, timeout);
    if n > slots {
      LastWave(slots, timeout, n - slots, c - 1);
    }
  }

  /**
   However the calls behave, at most `slots` are in flight, and everything is over once c timeouts have passed
   for any c with n <= c * slots; the least such c is ceil(n / slots).
   */
  lemma FinishesInTime(n: nat, slots: nat, timeout: real, c: nat, actions: seq<Action>, f: FanOut)
    requires slots > 0 && timeout >= 0.0 && IsRun(Start(n, slots, timeout), actions, f)
    requires n <= c * slots
    ensures |Held(f)| <= slots
    ensures f.now > c as real * timeout ==> AllFinished(f)
  {
    Reached(n, slots, timeout, actions, f);
    if f.waiting != {} {
      assert |f.waiting| > 0;
      LastWave(slots, timeout, n, c);
      WaveMonotone(slots, timeout, |f.jobs|, n - 1);
    }
    forall j | 0 <= j < |f.jobs| && !f.jobs[j].stage.Finished?
      ensures f.now <= c as real * timeout
    {
      LastWave(slots, timeout, n, c);
      WaveMonotone(slots, timeout, j, n - 1);
    }
  }

  /** The result channel never blocks a goroutine that has a result: there is room for every node's. */
  lemma ResultsNeverBlock(n: nat, slots: nat, timeout: real, actions: seq<Action>, f: FanOut, job: nat)
    requires slots > 0 && timeout >= 0.0 && IsRun(Start(n, slots, timeout), actions, f)
    requires At(f, job, Returned)
    ensures Enabled(f, Send(job))
  {
    Reached(n, slots, timeout, actions, f);
    assert job in Pending(f);
  }

  /** Until all goroutines are done one of them can move without waiting for the clock. */
  lemma NeverStuck(n: nat, slots: nat, timeout: real, actions: seq<Action>, f: FanOut)
    requires slots > 0 && timeout >= 0.0 && IsRun(Start(n, slots, timeout), actions, f) && !AllFinished(f)
    ensures exists a :: Enabled(f, a) && !a.Tick?
  {
    Reached(n, slots, timeout, actions, f);
    if j :| 0 <= j < |f.jobs| && !f.jobs[j].stage.Finished? {
      match f.jobs[j].stage
      case Calling => assert Enabled(f, CallReturns(j));
      case Returned =>
        ResultsNeverBlock(n, slots, timeout, actions, f, j);
        assert Enabled(f, Send(j));
      case Sent => assert Enabled(f, Release(j));
    } else {
      assert Held(f) == {};
      var node :| node in f.waiting;
      assert Enabled(f, Acquire(node));
    }
  }

  function Moves(actions: seq<Action>): nat {
    if actions == [] then 0 else Moves(actions[..|actions| - 1]) + if actions[|actions| - 1].Tick? then 0 else 1
  }

  /** The moves a goroutine has left. */
  function Left(stage: Stage): nat {
    match stage case Calling => 3 case Returned => 2 case Sent => 1 case Finished => 0
  }

  function LeftOf(jobs: seq<Job>): nat {
    if jobs == [] then 0 else LeftOf(jobs[..|jobs| - 1]) + Left(jobs[|jobs| - 1].stage)
  }

  lemma {:induction false} LeftOfMoved(jobs: seq<Job>, j: nat, job: Job)
    requires j < |jobs|
    ensures LeftOf(jobs[j := job]) == LeftOf(jobs) - Left(jobs[j].stage) + Left(job.stage)
  {
    var n := |jobs| - 1;
    if j == n {
      assert jobs[j := job][..n] == jobs[..n];
    } else {
      assert jobs[j := job][..n] == jobs[..n][j := job];
      LeftOfMoved(jobs[..n], j, job);
    }
  }

  lemma {:induction false} NoneLeftExactly(jobs: seq<Job>)
    ensures LeftOf(jobs) == 0 <==> forall j | 0 <= j < |jobs| :: jobs[j].stage.Finished?
  {
    if jobs != [] {
      NoneLeftExactly(jobs[..|jobs| - 1]);
    }
  }

  function Remaining(f: FanOut): nat {
    4 * |f.waiting| + LeftOf(f.jobs)
  }

  lemma StepUsesOne(f: FanOut, a: Action)
    requires Enabled(f, a)
    ensures Remaining(Step(f, a)) == Remaining(f) - if a.Tick? then 0 else 1
  {
    match a
    case Acquire(node) =>
      assert |f.waiting| == |f.waiting - {node}| + 1;
      assert (f.jobs + [Job(node, f.now, Calling)])[..|f.jobs|] == f.jobs;
    case CallReturns(j) => LeftOfMoved(f.jobs, j, f.jobs[j].(stage := Returned));
    case Send(j) => LeftOfMoved(f.jobs, j, f.jobs[j].(stage := Sent));
    case Release(j) => LeftOfMoved(f.jobs, j, f.jobs[j].(stage := Finished));
    case Tick(_) =>
  }

  lemma {:induction false} RunUses(f: FanOut, actions: seq<Action>, g: FanOut)
    requires IsRun(f, actions, g)
    ensures Remaining(g) == Remaining(f) - Moves(actions)
    decreases |actions|
  {
    hide Remaining, Step, Enabled;
    if actions != [] {
      StepUsesOne(f, actions[0]);
      RunUses(Step(f, actions[0]), actions[1..], g);
      MovesFromFirst(actions);
    }
  }

  lemma {:induction false} MovesFromFirst(actions: seq<Action>)
    requires actions != []
    ensures Moves(actions) == (if actions[0].Tick? then 0 else 1) + Moves(actions[1..])
  {
    var n := |actions| - 1;
    if n > 0 {
      MovesFromFirst(actions[..n]);
      assert actions[..n][1..] == actions[1..][..n - 1];
    }
  }

  /** With NeverStuck: the goroutines make 4n moves in all, and it is over exactly when they have made them. */
  lemma EveryScheduleEnds(n: nat, slots: nat, timeout: real, actions: seq<Action>, f: FanOut)
    requires slots > 0 && timeout >= 0.0 && IsRun(Start(n, slots, timeout), actions, f)
    ensures Moves(actions) <= 4 * n
    ensures Moves(actions) == 4 * n <==> AllFinished(f)
  {
    UptoIs(n);
    RunUses(Start(n, slots, timeout), actions, f);
    NoneLeftExactly(f.jobs);
    assert |f.waiting| == 0 ==> f.waiting == {};
  }

  /** When all are done the channel holds exactly one result per node. */
  lemma OneResultPerNode(n: nat, slots: nat, timeout: real, actions: seq<Action>, f: FanOut)
    requires slots > 0 && timeout >= 0.0 && IsRun(Start(n, slots, timeout), actions, f) && AllFinished(f)
    ensures |f.results| == n
    ensures forall node: nat :: node in f.results <==> node < n
    ensures forall x, y | 0 <= x < y < |f.results| :: f.results[x] != f.results[y]
  {
    Reached(n, slots, timeout, actions, f);
    assert Pending(f) == {};
    DistinctCover(f.results, n);
  }

  /** n distinct numbers below n are all of them. */
  lemma DistinctCover(s: seq<nat>, n: nat)
    requires |s| == n && (forall x | x in s :: x < n)
    requires Distinct(s)
    ensures forall i: nat | i < n :: i in s
  {
    DistinctSize(s);
    forall i: nat | i < n ensures i in s {
      if i !in Elements(s) {
        InRange(Elements(s) + {i}, 0, n);
      }
    }
  }
}
