/**
 helm_application_apply against a store with Kubernetes' optimistic concurrency: the call reads the object,
 merges its spec into what it read, and writes back under the version it read. Any number of calls and other
 writers interleave between the read and the write.
 */
module HelmApply {
  import opened Options
  import opened JsonMerge
  import opened HelmSpec

  type Labels = map<string, string>

  /** What a writer controls; the server adds the version. `rest` is status, other metadata and so on. */
  datatype Content = Content(spec: Option<Json>, labels: Labels, rest: Fields)

  datatype Object = Object(version: nat, content: Content)

  datatype Cluster = Cluster(objects: map<string, Object>, nextVersion: nat)

  datatype Payload = Payload(
    name: string,
    spec: Option<Fields>,
    labels: Option<Labels>,
    resourceVersion: Option<int>,
    createOnly: bool,
    dryRun: bool)

  datatype Refusal = MissingFields | Gone | AlreadyExists | Conflict | InvalidSpec | ApiError

  datatype Outcome = Created(content: Content) | Updated(content: Content) | Refused(why: Refusal)
  {
    predicate Success() {
      !Refused?
    }
  }

  // ---------------------------------------------------------------- the API server

  /** Create fails on an existing name; a dry run is answered but not stored. */
  function ServerCreate(c: Cluster, name: string, content: Content, dryRun: bool): (Cluster, Outcome) {
    if name in c.objects then (c, Refused(AlreadyExists))
    else if dryRun then (c, Created(content))
    else (Store(c, name, content), Created(content))
  }

  /** Update succeeds only on the version it names; writing back the same content changes nothing. */
  function ServerUpdate(c: Cluster, name: string, version: nat, content: Content, dryRun: bool): (Cluster, Outcome) {
    if name !in c.objects then (c, Refused(ApiError))
    else if c.objects[name].version != version then (c, Refused(Conflict))
    else if dryRun || c.objects[name].content == content then (c, Updated(content))
    else (Store(c, name, content), Updated(content))
  }

  function Store(c: Cluster, name: string, content: Content): Cluster {
    Cluster(c.objects[name := Object(c.nextVersion, content)], c.nextVersion + 1)
  }

  // ---------------------------------------------------------------- one call

  function SpecOf(content: Content): Fields {
    if content.spec.Some? && content.spec.value.Obj? then content.spec.value.fields else map[]
  }

  function NewContent(p: Payload): Content
    requires p.spec.Some?
  {
    Content(Some(Obj(p.spec.value)), if p.labels.Some? then p.labels.value else map[], map[])
  }

  function MergedContent(p: Payload, existing: Content): Content
    requires p.spec.Some?
  {
    Content(
      Some(Obj(Merge(SpecOf(existing), p.spec.value))),
      if p.labels.Some? then p.labels.value else existing.labels,
      existing.rest)
  }

  /** Everything a call settles between its read and its write. */
  ghost function Precheck(p: Payload, existing: Option<Object>): Option<Refusal> {
    if p.name == "" || p.spec.None? then Some(MissingFields)
    else match existing
      case None =>
        if p.resourceVersion.Some? then Some(Gone)
        else if !Acceptable(None, p.spec.value) then Some(InvalidSpec)
        else None
      case Some(o) =>
        if p.createOnly then Some(AlreadyExists)
        else if p.resourceVersion.Some? && o.version != p.resourceVersion.value then Some(Conflict)
        else if !Acceptable(Some(SpecOf(o.content)), Merge(SpecOf(o.content), p.spec.value)) then Some(InvalidSpec)
        else None
  }

  /** The write half of a call that read `existing` earlier, against the cluster as it is now. */
  ghost function WriteBack(c: Cluster, p: Payload, existing: Option<Object>): (Cluster, Outcome) {
    var refusal := Precheck(p, existing);
    if refusal.Some? then (c, Refused(refusal.value))
    else match existing
      case None => ServerCreate(c, p.name, NewContent(p), p.dryRun)
      case Some(o) => ServerUpdate(c, p.name, o.version, MergedContent(p, o.content), p.dryRun)
  }

  function Lookup(c: Cluster, name: string): Option<Object> {
    if name in c.objects then Some(c.objects[name]) else None
  }

  /** The call as if nothing could happen between its read and its write. */
  ghost function Atomic(c: Cluster, p: Payload): (Cluster, Outcome) {
    WriteBack(c, p, Lookup(c, p.name))
  }

  // ---------------------------------------------------------------- one call, in the caller's terms

  /** The caller's spec merged over the stored one, its labels or else the stored ones, and the rest as stored. */
  ghost predicate Combines(p: Payload, stored: Content, after: Content) {
    && (forall f | stored.spec == Some(Obj(f)) :: p.spec.Some? && after.spec == Some(Obj(Merge(f, p.spec.value))))
    && (stored.spec.None? || !stored.spec.value.Obj? ==> p.spec.Some? && after.spec == Some(Obj(p.spec.value)))
    && (match p.labels case Some(labels) => after.labels == labels case None => after.labels == stored.labels)
    && after.rest == stored.rest
  }

  /** A new object holds what the caller sent and nothing else. */
  predicate Holds(p: Payload, after: Content) {
    && p.spec.Some? && after.spec == Some(Obj(p.spec.value))
    && (match p.labels case Some(labels) => after.labels == labels case None => after.labels == map[])
    && after.rest == map[]
  }

  /** The stored object's spec, as the validator gets it. */
  ghost predicate StoredSpec(stored: Content, f: Fields) {
    stored.spec == Some(Obj(f)) || (f == map[] && (stored.spec.None? || !stored.spec.value.Obj?))
  }

  /**
   What a call with nobody writing in between is answered and does to the store: refused for a missing name or spec,
   a version given for an absent object, createOnly on a present one, another version than the stored, an
   unacceptable spec; otherwise the object is created or updated, and stored under a new version unless nothing
   changes or the call is a dry run.
   */
  ghost predicate Answered(c: Cluster, p: Payload, d: Cluster, out: Outcome) {
    var absent := p.name !in c.objects;
    && (out == Refused(MissingFields) <==> p.name == "" || p.spec.None?)
    && (p.name != "" && p.spec.Some? && absent ==>
          && (p.resourceVersion.Some? <==> out == Refused(Gone))
          && (p.resourceVersion.None? && !Acceptable(None, p.spec.value) <==> out == Refused(InvalidSpec))
          && (p.resourceVersion.None? && Acceptable(None, p.spec.value) <==> out.Created?))
    && (p.name != "" && p.spec.Some? && !absent ==>
          var stored := c.objects[p.name];
          var mismatch := p.resourceVersion.Some? && p.resourceVersion.value != stored.version;
          && (p.createOnly <==> out == Refused(AlreadyExists))
          && (!p.createOnly && mismatch <==> out == Refused(Conflict))
          && (forall f | StoredSpec(stored.content, f) ::
                && (!p.createOnly && !mismatch && !Acceptable(Some(f), Merge(f, p.spec.value))
                    <==> out == Refused(InvalidSpec))
                && (!p.createOnly && !mismatch && Acceptable(Some(f), Merge(f, p.spec.value)) <==> out.Updated?)))
    && (out.Created? ==> absent && Holds(p, out.content))
    && (out.Updated? ==> !absent && Combines(p, c.objects[p.name].content, out.content))
    && (out.Refused? || p.dryRun ==> d == c)
    && (!out.Refused? && !p.dryRun ==>
          && p.name in d.objects && d.objects[p.name].content == out.content
          && (forall n | n != p.name :: n in c.objects <==> n in d.objects)
          && (forall n | n != p.name && n in c.objects :: d.objects[n] == c.objects[n])
          && d.objects[p.name].version == (if !absent && c.objects[p.name].content == out.content
                                           then c.objects[p.name].version else c.nextVersion))
  }

  lemma AtomicAnswers(c: Cluster, p: Payload)
    ensures Answered(c, p, Atomic(c, p).0, Atomic(c, p).1)
  {
    hide Acceptable;
    if p.spec.Some? {
      NothingUnderneath(p.spec.value);
    }
  }

  lemma NothingUnderneath(overlay: Fields)
    ensures Merge(map[], overlay) == overlay
  {
  }

  /** The server's object store, and the task's Execute run against it with nobody else writing. */
  class ApiServer {
    var objects: map<string, Object>
    var nextVersion: nat

    function State(): Cluster
      reads this
    {
      Cluster(objects, nextVersion)
    }

    constructor ()
      ensures State() == Cluster(map[], 1)
    {
      objects, nextVersion := map[], 1;
    }

    method Create(name: string, content: Content, dryRun: bool) returns (out: Outcome)
      modifies this
      ensures (State(), out) == ServerCreate(old(State()), name, content, dryRun)
    {
      if name in objects {
        return Refused(AlreadyExists);
      }
      if !dryRun {
        objects := objects[name := Object(nextVersion, content)];
        nextVersion := nextVersion + 1;
      }
      return Created(content);
    }

    method Update(name: string, version: nat, content: Content, dryRun: bool) returns (out: Outcome)
      modifies this
      ensures (State(), out) == ServerUpdate(old(State()), name, version, content, dryRun)
    {
      if name !in objects {
        return Refused(ApiError);
      }
      if objects[name].version != version {
        return Refused(Conflict);
      }
      if !dryRun && objects[name].content != content {
        objects := objects[name := Object(nextVersion, content)];
        nextVersion := nextVersion + 1;
      }
      return Updated(content);
    }

    method Execute(p: Payload) returns (out: Outcome)
      modifies this
      ensures (State(), out) == Atomic(old(State()), p)
      ensures Answered(old(State()), p, State(), out)
    {
      hide Answered, Atomic;
      out := Apply(p);
      AtomicAnswers(old(State()), p);
    }

    method Apply(p: Payload) returns (out: Outcome)
      modifies this
      ensures (State(), out) == Atomic(old(State()), p)
    {
      if p.name == "" || p.spec.None? {
        return Refused(MissingFields);
      }
      if p.name !in objects {
        if p.resourceVersion.Some? {
          return Refused(Gone);
        }
        var err := ValidateHelmApplicationSpec(None, p.spec.value);
        if err.Some? {
          return Refused(InvalidSpec);
        }
        out := Create(p.name, NewContent(p), p.dryRun);
        return;
      }
      var existing := objects[p.name];
      if p.createOnly {
        return Refused(AlreadyExists);
      }
      if p.resourceVersion.Some? && existing.version != p.resourceVersion.value {
        return Refused(Conflict);
      }
      var existingSpec := SpecOf(existing.content);
      var mergedSpec := DeepMergeMap(existingSpec, p.spec.value);
      var err := ValidateHelmApplicationSpec(Some(existingSpec), mergedSpec);
      if err.Some? {
        return Refused(InvalidSpec);
      }
      var content := existing.content.(spec := Some(Obj(mergedSpec)));
      if p.labels.Some? {
        content := content.(labels := p.labels.value);
      }
      out := Update(p.name, existing.version, content, p.dryRun);
    }
  }

  // ---------------------------------------------------------------- interleaved calls

  datatype Phase = Started | Fetched(existing: Option<Object>) | Done(outcome: Outcome)

  datatype Call = Call(payload: Payload, phase: Phase)

  datatype System = System(cluster: Cluster, calls: map<nat, Call>)

  /** A request may not arrive, or may be carried out and its reply lost. */
  datatype Network = Delivered | RequestLost | ReplyLost

  datatype Action =
    | Begin(call: nat, payload: Payload)
    | Fetch(call: nat, network: Network)
    | Write(call: nat, network: Network)
    | OtherWrite(name: string, content: Content)
    | OtherDelete(name: string)

  predicate Enabled(s: System, a: Action) {
    match a
    case Begin(call, _) => call !in s.calls
    case Fetch(call, _) => call in s.calls && s.calls[call].phase.Started?
    case Write(call, _) => call in s.calls && s.calls[call].phase.Fetched?
    case OtherWrite(_, _) => true
    case OtherDelete(name) => name in s.cluster.objects
  }

  /** One step; an action that is not enabled leaves the system alone. */
  ghost function Step(s: System, a: Action): System {
    if !Enabled(s, a) then s
    else match a
      case Begin(call, payload) => s.(calls := s.calls[call := Call(payload, Started)])
      case Fetch(call, network) =>
        var c := s.calls[call];
        var next := if network.Delivered? then Fetched(Lookup(s.cluster, c.payload.name)) else Done(Refused(ApiError));
        s.(calls := s.calls[call := c.(phase := next)])
      case Write(call, network) =>
        var c := s.calls[call];
        var (cluster, outcome) := WriteBack(s.cluster, c.payload, c.phase.existing);
        var kept := if network.RequestLost? then s.cluster else cluster;
        var heard := network.Delivered? || Precheck(c.payload, c.phase.existing).Some?;
        var seen := if heard then outcome else Refused(ApiError);
        System(kept, s.calls[call := c.(phase := Done(seen))])
      case OtherWrite(name, content) => s.(cluster := Store(s.cluster, name, content))
      case OtherDelete(name) => s.(cluster := s.cluster.(objects := s.cluster.objects - {name}))
  }

  ghost function Run(s: System, actions: seq<Action>): System
    decreases |actions|
  {
    if actions == [] then s else Step(Run(s, actions[..|actions| - 1]), actions[|actions| - 1])
  }

  predicate Initial(s: System) {
    && s.calls == map[]
    && forall name | name in s.cluster.objects :: s.cluster.objects[name].version < s.cluster.nextVersion
  }

  /** Versions are never handed out twice, so an unchanged version means an unchanged object. */
  predicate Inv(s: System) {
    && (forall name | name in s.cluster.objects :: s.cluster.objects[name].version < s.cluster.nextVersion)
    && (forall i | i in s.calls && s.calls[i].phase.Fetched? && s.calls[i].phase.existing.Some? ::
          var seen := s.calls[i].phase.existing.value;
          var name := s.calls[i].payload.name;
          && seen.version < s.cluster.nextVersion
          && (name in s.cluster.objects && s.cluster.objects[name].version == seen.version ==>
                s.cluster.objects[name] == seen))
  }

  lemma StepKeepsInv(s: System, a: Action)
    requires Inv(s)
    ensures Inv(Step(s, a))
  {
  }

  lemma {:induction false} RunKeepsInv(s: System, actions: seq<Action>)
    requires Initial(s)
    ensures Inv(Run(s, actions))
    decreases |actions|
  {
    if actions != [] {
      RunKeepsInv(s, actions[..|actions| - 1]);
      StepKeepsInv(Run(s, actions[..|actions| - 1]), actions[|actions| - 1]);
    }
  }

  /** This action makes a call's create or update take effect, whether or not the caller hears of it. */
  ghost predicate Commits(s: System, a: Action) {
    && a.Write? && Enabled(s, a) && !a.network.RequestLost?
    && !s.calls[a.call].payload.dryRun
    && WriteBack(s.cluster, s.calls[a.call].payload, s.calls[a.call].phase.existing).1.Success()
  }

  /** However long ago the call read the object, a write that takes effect is the whole call done at that instant. */
  lemma CommitIsAtomic(s: System, a: Action)
    requires Inv(s) && Commits(s, a)
    ensures Step(s, a).cluster == Atomic(s.cluster, s.calls[a.call].payload).0
    ensures Atomic(s.cluster, s.calls[a.call].payload).1.Success()
  {
  }

  /** Steps of calls that do not commit, dry runs and refusals among them, leave every object untouched. */
  lemma OnlyCommitsChangeTheCluster(s: System, a: Action)
    requires !Commits(s, a) && !a.OtherWrite? && !a.OtherDelete?
    ensures Step(s, a).cluster == s.cluster
  {
  }

  /**
   No lost update, in every interleaving: what a call commits is its overlay merged into what was stored
   just before, over exactly the version it was given, never over an object when it may only create, and
   with every other field and every other object as they were.
   */
  lemma NoLostUpdate(start: System, actions: seq<Action>, a: Action)
    requires Initial(start) && Commits(Run(start, actions), a)
    ensures var s := Run(start, actions);
            var p := s.calls[a.call].payload;
            var before, after := Lookup(s.cluster, p.name), Step(s, a).cluster.objects;
            && p.name in after && !p.dryRun
            && (forall n | n in s.cluster.objects && n != p.name :: n in after && after[n] == s.cluster.objects[n])
            && (before.None? ==> p.resourceVersion.None? && Holds(p, after[p.name].content)
                                 && Acceptable(None, p.spec.value))
            && (before.Some? ==>
                  && !p.createOnly
                  && (p.resourceVersion.Some? ==> p.resourceVersion.value == before.value.version)
                  && Combines(p, before.value.content, after[p.name].content)
                  && forall f | StoredSpec(before.value.content, f) :: Acceptable(Some(f), Merge(f, p.spec.value)))
  {
    hide Acceptable;
    RunKeepsInv(start, actions);
    CommittedContent(Run(start, actions), a);
  }

  lemma CommittedContent(s: System, a: Action)
    requires Inv(s) && Commits(s, a)
    ensures var p := s.calls[a.call].payload;
            && Answered(s.cluster, p, Step(s, a).cluster, Atomic(s.cluster, p).1)
            && Atomic(s.cluster, p).1.Success() && p.spec.Some?
  {
    hide Answered, Acceptable;
    CommitIsAtomic(s, a);
    AtomicAnswers(s.cluster, s.calls[a.call].payload);
  }

  /**
   In every run, a call whose read and write get through with nothing in between is answered, and changes the store,
   as if it were one step.
   */
  lemma LeftAloneAnswers(start: System, actions: seq<Action>, call: nat, p: Payload)
    requires Initial(start) && call !in Run(start, actions).calls
    ensures var s := Run(start, actions);
            var t := Step(Step(Step(s, Begin(call, p)), Fetch(call, Delivered)), Write(call, Delivered));
            && call in t.calls && t.calls[call].phase.Done?
            && Answered(s.cluster, p, t.cluster, t.calls[call].phase.outcome)
  {
    hide Answered, Acceptable, Precheck;
    AtomicAnswers(Run(start, actions).cluster, p);
  }

  // ---------------------------------------------------------------- whole runs

  /** What reaches the store, in the order it does. */
  datatype Op = ApplyOp(call: nat, payload: Payload) | WriteOp(name: string, content: Content) | DeleteOp(name: string)

  ghost function Serial(c: Cluster, op: Op): Cluster {
    match op
    case ApplyOp(_, payload) => Atomic(c, payload).0
    case WriteOp(name, content) => Store(c, name, content)
    case DeleteOp(name) => c.(objects := c.objects - {name})
  }

  ghost function Replay(c: Cluster, ops: seq<Op>): Cluster
    decreases |ops|
  {
    if ops == [] then c else Serial(Replay(c, ops[..|ops| - 1]), ops[|ops| - 1])
  }

  ghost function OpsOf(s: System, a: Action): seq<Op> {
    if Commits(s, a) then [ApplyOp(a.call, s.calls[a.call].payload)]
    else if a.OtherWrite? then [WriteOp(a.name, a.content)]
    else if a.OtherDelete? && Enabled(s, a) then [DeleteOp(a.name)]
    else []
  }

  ghost function History(s: System, actions: seq<Action>): seq<Op>
    decreases |actions|
  {
    if actions == [] then []
    else
      var front := actions[..|actions| - 1];
      History(s, front) + OpsOf(Run(s, front), actions[|actions| - 1])
  }

  /** Every interleaving leaves the store exactly as its committed calls and other writes would one after another. */
  lemma {:induction false} Serializable(s: System, actions: seq<Action>)
    requires Initial(s)
    ensures Run(s, actions).cluster == Replay(s.cluster, History(s, actions))
    decreases |actions|
  {
    if actions != [] {
      var front, last := actions[..|actions| - 1], actions[|actions| - 1];
      hide Inv, Step, OpsOf, Replay, Serial;
      Serializable(s, front);
      RunKeepsInv(s, front);
      StepIsSerial(Run(s, front), last);
      ReplayOneMore(s.cluster, History(s, front), OpsOf(Run(s, front), last));
    }
  }

  lemma StepIsSerial(s: System, a: Action)
    requires Inv(s)
    ensures var ops := OpsOf(s, a);
            |ops| <= 1 && Step(s, a).cluster == if ops == [] then s.cluster else Serial(s.cluster, ops[0])
  {
    if Commits(s, a) {
      CommitIsAtomic(s, a);
    }
  }

  lemma ReplayOneMore(c: Cluster, ops: seq<Op>, more: seq<Op>)
    requires |more| <= 1
    ensures Replay(c, ops + more) == if more == [] then Replay(c, ops) else Serial(Replay(c, ops), more[0])
  {
    hide Serial;
    if more == [] {
      assert ops + more == ops;
    } else {
      assert (ops + more)[..|ops|] == ops;
    }
  }

  /** A call is in the history at most once, under its own payload, and only once it is over. */
  lemma {:induction false} CommittedOnce(s: System, actions: seq<Action>)
    requires Initial(s)
    ensures forall i | 0 <= i < |History(s, actions)| && History(s, actions)[i].ApplyOp? ::
              var op := History(s, actions)[i];
              && op.call in Run(s, actions).calls
              && Run(s, actions).calls[op.call].payload == op.payload
              && Run(s, actions).calls[op.call].phase.Done?
    ensures forall i, j | 0 <= i < j < |History(s, actions)|
                          && History(s, actions)[i].ApplyOp? && History(s, actions)[j].ApplyOp? ::
              History(s, actions)[i].call != History(s, actions)[j].call
    decreases |actions|
  {
    if actions != [] {
      CommittedOnce(s, actions[..|actions| - 1]);
    }
  }

  /** A caller told that its real (not dry-run) create or update succeeded can rely on it being in the history. */
  lemma {:induction false} SuccessIsCommitted(s: System, actions: seq<Action>, call: nat)
    requires Initial(s)
    requires call in Run(s, actions).calls && Run(s, actions).calls[call].phase.Done?
    requires Run(s, actions).calls[call].phase.outcome.Success() && !Run(s, actions).calls[call].payload.dryRun
    ensures ApplyOp(call, Run(s, actions).calls[call].payload) in History(s, actions)
    decreases |actions|
  {
    var front, last := actions[..|actions| - 1], actions[|actions| - 1];
    var mid := Run(s, front);
    if call in mid.calls && mid.calls[call].phase.Done? {
      SuccessIsCommitted(s, front, call);
    } else {
      assert Commits(mid, last) && last.call == call;
      assert ApplyOp(call, mid.calls[call].payload) in OpsOf(mid, last);
    }
  }

  /**
   Any answer but an API error tells the caller exactly whether its call took effect: it did if the answer is a
   success and the call no dry run.
   */
  lemma AnswerTellsExactly(s: System, actions: seq<Action>, call: nat)
    requires Initial(s)
    requires call in Run(s, actions).calls && Run(s, actions).calls[call].phase.Done?
    requires Run(s, actions).calls[call].phase.outcome != Refused(ApiError)
    ensures var c := Run(s, actions).calls[call];
            (exists op :: op in History(s, actions) && op.ApplyOp? && op.call == call)
            <==> c.phase.outcome.Success() && !c.payload.dryRun
  {
    var c := Run(s, actions).calls[call];
    if c.phase.outcome.Success() && !c.payload.dryRun {
      SuccessIsCommitted(s, actions, call);
    } else {
      RefusedIsNotCommitted(s, actions, call);
    }
  }

  lemma {:induction false} RefusedIsNotCommitted(s: System, actions: seq<Action>, call: nat)
    requires Initial(s)
    requires call in Run(s, actions).calls && Run(s, actions).calls[call].phase.Done?
    requires Run(s, actions).calls[call].phase.outcome != Refused(ApiError)
    requires !Run(s, actions).calls[call].phase.outcome.Success() || Run(s, actions).calls[call].payload.dryRun
    ensures forall op | op in History(s, actions) && op.ApplyOp? :: op.call != call
    decreases |actions|
  {
    var front, last := actions[..|actions| - 1], actions[|actions| - 1];
    var mid := Run(s, front);
    if call in mid.calls && mid.calls[call].phase.Done? {
      RefusedIsNotCommitted(s, front, call);
    } else {
      CommittedOnce(s, front);
    }
  }
}
