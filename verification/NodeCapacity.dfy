/** pod_resize's node check: the requests of the live pods on a node, rounded per container, against its allocatable. */
module NodeCapacity {
  import opened Options

  /** A quantity in its base unit: bytes for memory, whole cores for CPU. */
  type Quantity = real

  /** One entry per container, None if it requests nothing of the resource. */
  datatype Pod = Pod(finished: bool, requests: seq<Option<Quantity>>)

  function Ceil(q: Quantity): (n: int)
    ensures n as real - 1.0 < q <= n as real
  {
    -((-q).Floor)
  }

  /** Quantity.Value(): rounded away from zero. */
  function Value(q: Quantity): int {
    if q >= 0.0 then Ceil(q) else -Ceil(-q)
  }

  predicate Whole(q: Quantity) {
    q.Floor as real == q
  }

  lemma Between(q: Quantity, f: int, n: int)
    requires f as real == q && n as real - 1.0 < q <= n as real
    ensures f == n
  {
    var d := n - f;
    assert n as real - f as real == d as real;
  }

  lemma ValueOf(q: Quantity)
    requires q >= 0.0
    ensures q <= Value(q) as real < q + 1.0
    ensures Value(q) as real == q <==> Whole(q)
  {
    if Whole(q) {
      Between(q, q.Floor, Ceil(q));
    }
  }

  // ---------------------------------------------------------------- sums over the node

  /** What one request weighs in a sum. */
  type Weight = Quantity -> real

  const EXACT: Weight := (q: Quantity) => q

  const ROUNDED: Weight := (q: Quantity) => Value(q) as real

  function Weigh(w: Weight, request: Option<Quantity>): real {
    if request.Some? then w(request.value) else 0.0
  }

  function OfContainers(w: Weight, requests: seq<Option<Quantity>>): real {
    if requests == [] then 0.0
    else OfContainers(w, requests[..|requests| - 1]) + Weigh(w, requests[|requests| - 1])
  }

  function OfPod(w: Weight, p: Pod): real {
    if p.finished then 0.0 else OfContainers(w, p.requests)
  }

  function OfNode(w: Weight, pods: seq<Pod>): real {
    if pods == [] then 0.0 else OfNode(w, pods[..|pods| - 1]) + OfPod(w, pods[|pods| - 1])
  }

  datatype Refusal = NotScheduled | NoNode | NothingAllocatable | NoPodList | Insufficient(available: int, needed: int)

  datatype Outcome = Refused(why: Refusal) | Fits(available: int)

  method SumContainers(requests: seq<Option<Quantity>>, start: int) returns (total: int)
    ensures total as real == start as real + OfContainers(ROUNDED, requests)
  {
    total := start;
    for i := 0 to |requests|
      invariant total as real == start as real + OfContainers(ROUNDED, requests[..i])
    {
      assert requests[..i + 1][..i] == requests[..i];
      if requests[i].Some? {
        total := total + Value(requests[i].value);
      }
    }
    assert requests[..|requests|] == requests;
  }

  method SumNode(pods: seq<Pod>) returns (totalRequests: int)
    ensures totalRequests as real == OfNode(ROUNDED, pods)
  {
    totalRequests := 0;
    for i := 0 to |pods|
      invariant totalRequests as real == OfNode(ROUNDED, pods[..i])
    {
      assert pods[..i + 1][..i] == pods[..i];
      if pods[i].finished {
        continue;
      }
      totalRequests := SumContainers(pods[i].requests, totalRequests);
    }
    assert pods[..|pods|] == pods;
  }

  /** The change the resize makes to the rounded sum keeps it within the rounded allocatable. */
  predicate Accepts(allocatable: Quantity, pods: seq<Pod>, current: Quantity, requested: Quantity) {
    (Value(requested) - Value(current)) as real <= Value(allocatable) as real - OfNode(ROUNDED, pods)
  }

  /** What the check has to say, first failure first. */
  predicate Decides(nodeName: string, allocatable: Option<Quantity>, pods: Option<seq<Pod>>, current: Quantity,
    requested: Quantity, out: Outcome)
  {
    if nodeName == "" then out == Refused(NotScheduled)
    else if allocatable.None? then out == Refused(NoNode)
    else if allocatable.value == 0.0 then out == Refused(NothingAllocatable)
    else if pods.None? then out == Refused(NoPodList)
    else
      var left := Value(allocatable.value) as real - OfNode(ROUNDED, pods.value);
      match out
      case Fits(available) => Accepts(allocatable.value, pods.value, current, requested) && available as real == left
      case Refused(Insufficient(available, needed)) =>
        && !Accepts(allocatable.value, pods.value, current, requested)
        && available as real == left && needed == Value(requested) - Value(current)
      case _ => false
  }

  /** `allocatable` and `pods` are what the API answered, None for an error. */
  method CheckNodeResourceCapacity(nodeName: string, allocatable: Option<Quantity>, pods: Option<seq<Pod>>,
    current: Quantity, requested: Quantity) returns (out: Outcome)
    ensures Decides(nodeName, allocatable, pods, current, requested, out)
  {
    if nodeName == "" {
      return Refused(NotScheduled);
    }
    if allocatable.None? {
      return Refused(NoNode);
    }
    if allocatable.value == 0.0 {
      return Refused(NothingAllocatable);
    }
    if pods.None? {
      return Refused(NoPodList);
    }
    var totalRequests := SumNode(pods.value);
    var delta := Value(requested) - Value(current);
    var available := Value(allocatable.value) - totalRequests;
    if delta > available {
      return Refused(Insufficient(available, delta));
    }
    return Fits(available);
  }

  // ---------------------------------------------------------------- the node after the resize

  /** Container k of pod t, still running, requests `current`. */
  predicate Target(pods: seq<Pod>, t: nat, k: nat, current: Quantity) {
    t < |pods| && !pods[t].finished && k < |pods[t].requests| && pods[t].requests[k] == Some(current)
  }

  function Resized(pods: seq<Pod>, t: nat, k: nat, requested: Quantity): seq<Pod>
    requires t < |pods| && k < |pods[t].requests|
  {
    pods[t := pods[t].(requests := pods[t].requests[k := Some(requested)])]
  }

  lemma {:induction false} ContainersResized(w: Weight, requests: seq<Option<Quantity>>, k: nat, q: Quantity)
    requires k < |requests|
    ensures OfContainers(w, requests[k := Some(q)]) == OfContainers(w, requests) - Weigh(w, requests[k]) + w(q)
  {
    var n := |requests| - 1;
    var after := requests[k := Some(q)];
    if k == n {
      assert after[..n] == requests[..n];
    } else {
      assert after[..n] == requests[..n][k := Some(q)];
      ContainersResized(w, requests[..n], k, q);
    }
  }

  lemma {:induction false} NodeResized(w: Weight, pods: seq<Pod>, t: nat, k: nat, current: Quantity,
    requested: Quantity)
    requires Target(pods, t, k, current)
    ensures OfNode(w, Resized(pods, t, k, requested)) == OfNode(w, pods) - w(current) + w(requested)
  {
    var n := |pods| - 1;
    var after := Resized(pods, t, k, requested);
    if t == n {
      assert after[..n] == pods[..n];
      ContainersResized(w, pods[t].requests, k, requested);
    } else {
      assert after[..n] == Resized(pods[..n], t, k, requested);
      NodeResized(w, pods[..n], t, k, current, requested);
    }
  }

  predicate AllRequests(pods: seq<Pod>, ok: Quantity -> bool) {
    forall t, k | 0 <= t < |pods| && 0 <= k < |pods[t].requests| && pods[t].requests[k].Some? ::
      ok(pods[t].requests[k].value)
  }

  const NON_NEGATIVE: Quantity -> bool := (q: Quantity) => q >= 0.0

  const WHOLE: Quantity -> bool := (q: Quantity) => q >= 0.0 && Whole(q)

  lemma {:induction false} ContainersCompare(v: Weight, w: Weight, ok: Quantity -> bool,
    requests: seq<Option<Quantity>>)
    requires forall q | ok(q) :: v(q) <= w(q)
    requires forall r | r in requests && r.Some? :: ok(r.value)
    ensures OfContainers(v, requests) <= OfContainers(w, requests)
  {
    if requests != [] {
      assert requests[|requests| - 1] in requests;
      assert forall r | r in requests[..|requests| - 1] :: r in requests;
      ContainersCompare(v, w, ok, requests[..|requests| - 1]);
    }
  }

  lemma {:induction false} NodeCompare(v: Weight, w: Weight, ok: Quantity -> bool, pods: seq<Pod>)
    requires forall q | ok(q) :: v(q) <= w(q)
    requires AllRequests(pods, ok)
    ensures OfNode(v, pods) <= OfNode(w, pods)
  {
    if pods != [] {
      var n := |pods| - 1;
      NodeCompare(v, w, ok, pods[..n]);
      forall r | r in pods[n].requests && r.Some? ensures ok(r.value) {
        var k :| 0 <= k < |pods[n].requests| && pods[n].requests[k] == r;
      }
      ContainersCompare(v, w, ok, pods[n].requests);
    }
  }

  lemma ResizedAll(pods: seq<Pod>, t: nat, k: nat, current: Quantity, requested: Quantity, ok: Quantity -> bool)
    requires Target(pods, t, k, current) && AllRequests(pods, ok) && ok(requested)
    ensures AllRequests(Resized(pods, t, k, requested), ok)
  {
    var after := Resized(pods, t, k, requested);
    forall u, j | 0 <= u < |after| && 0 <= j < |after[u].requests| && after[u].requests[j].Some?
      ensures ok(after[u].requests[j].value)
    {
      if u != t || j != k {
        assert after[u].requests[j] == pods[u].requests[j];
      }
    }
  }

  /** Rounding each request up never hides an overcommitment beyond the rounding of the allocatable itself. */
  lemma AcceptedFitsRounded(allocatable: Quantity, pods: seq<Pod>, t: nat, k: nat, current: Quantity,
    requested: Quantity)
    requires allocatable > 0.0 && requested >= 0.0 && AllRequests(pods, NON_NEGATIVE)
    requires Target(pods, t, k, current) && Accepts(allocatable, pods, current, requested)
    ensures OfNode(EXACT, Resized(pods, t, k, requested)) <= Value(allocatable) as real < allocatable + 1.0
  {
    var after := Resized(pods, t, k, requested);
    ResizedAll(pods, t, k, current, requested, NON_NEGATIVE);
    AcceptsExactly(allocatable, pods, t, k, current, requested);
    forall q | NON_NEGATIVE(q) ensures EXACT(q) <= ROUNDED(q) {
      ValueOf(q);
    }
    NodeCompare(EXACT, ROUNDED, NON_NEGATIVE, after);
    ValueOf(allocatable);
  }

  /** An accepted resize is within the node's true allocatable in every case exactly when that is a whole number. */
  lemma AcceptedFitsExactly(allocatable: Quantity)
    requires allocatable > 0.0
    ensures Whole(allocatable) <==>
      forall pods, t: nat, k: nat, current, requested |
          && requested >= 0.0 && AllRequests(pods, NON_NEGATIVE)
          && Target(pods, t, k, current) && Accepts(allocatable, pods, current, requested) ::
        OfNode(EXACT, Resized(pods, t, k, requested)) <= allocatable
  {
    ValueOf(allocatable);
    if Whole(allocatable) {
      forall pods, t: nat, k: nat, current, requested |
          && requested >= 0.0 && AllRequests(pods, NON_NEGATIVE)
          && Target(pods, t, k, current) && Accepts(allocatable, pods, current, requested)
        ensures OfNode(EXACT, Resized(pods, t, k, requested)) <= allocatable
      {
        AcceptedFitsRounded(allocatable, pods, t, k, current, requested);
      }
    } else {
      var pods, requested := [Pod(false, [Some(1.0)])], Value(allocatable) as real;
      OnlyPod(ROUNDED, 1.0);
      OnlyPod(EXACT, requested);
      ValueOf(requested);
      ValueOf(1.0);
      assert Target(pods, 0, 0, 1.0) && Accepts(allocatable, pods, 1.0, requested);
      assert pods[0].requests[0 := Some(requested)] == [Some(requested)];
      assert Resized(pods, 0, 0, requested) == [Pod(false, [Some(requested)])];
    }
  }

  lemma OnlyPod(w: Weight, q: Quantity)
    ensures OfNode(w, [Pod(false, [Some(q)])]) == w(q)
  {
    var pods, requests := [Pod(false, [Some(q)])], [Some(q)];
    assert pods[..0] == [] && requests[..0] == [];
    assert OfContainers(w, requests) == w(q);
  }

  /** For whole quantities, as memory in bytes, the check is exact: accepted just when the result fits. */
  lemma WholeQuantitiesExactly(allocatable: Quantity, pods: seq<Pod>, t: nat, k: nat, current: Quantity,
    requested: Quantity)
    requires allocatable > 0.0 && Whole(allocatable) && WHOLE(requested) && AllRequests(pods, WHOLE)
    requires Target(pods, t, k, current)
    ensures Accepts(allocatable, pods, current, requested)
            <==> OfNode(EXACT, Resized(pods, t, k, requested)) <= allocatable
  {
    var after := Resized(pods, t, k, requested);
    ResizedAll(pods, t, k, current, requested, WHOLE);
    AcceptsExactly(allocatable, pods, t, k, current, requested);
    forall q | WHOLE(q) ensures EXACT(q) <= ROUNDED(q) && ROUNDED(q) <= EXACT(q) {
      ValueOf(q);
    }
    NodeCompare(EXACT, ROUNDED, WHOLE, after);
    NodeCompare(ROUNDED, EXACT, WHOLE, after);
    ValueOf(allocatable);
  }

  /** What the check decides, for any quantities: the rounded sum after the resize fits the rounded allocatable. */
  lemma AcceptsExactly(allocatable: Quantity, pods: seq<Pod>, t: nat, k: nat, current: Quantity, requested: Quantity)
    requires Target(pods, t, k, current)
    ensures Accepts(allocatable, pods, current, requested)
            <==> OfNode(ROUNDED, Resized(pods, t, k, requested)) <= Value(allocatable) as real
  {
    NodeResized(ROUNDED, pods, t, k, current, requested);
  }

  /** n containers asking for the same. */
  function Alike(n: nat, q: Quantity): seq<Option<Quantity>> {
    if n == 0 then [] else Alike(n - 1, q) + [Some(q)]
  }

  lemma {:induction false} AlikeAre(n: nat, q: Quantity)
    ensures |Alike(n, q)| == n && forall i | 0 <= i < n :: Alike(n, q)[i] == Some(q)
  {
    if n > 0 {
      AlikeAre(n - 1, q);
    }
  }

  lemma OneMoreTimes(n: nat, x: real)
    ensures (n + 1) as real * x == n as real * x + x
  {
    assert (n + 1) as real == n as real + 1.0;
  }

  lemma OneMoreAlike(w: Weight, n: nat, q: Quantity)
    ensures OfContainers(w, Alike(n + 1, q)) == OfContainers(w, Alike(n, q)) + w(q)
    ensures OfContainers(w, Alike(0, q)) == 0.0 == 0 as real * w(q)
  {
    AlikeAre(n, q);
    assert Alike(n + 1, q)[..n] == Alike(n, q);
  }

  lemma {:induction false} AlikeSum(w: Weight, n: nat, q: Quantity)
    ensures OfContainers(w, Alike(n, q)) == n as real * w(q)
  {
    hide *;
    if n == 0 {
      OneMoreAlike(w, 0, q);
    } else {
      AlikeSum(w, n - 1, q);
      OneMoreAlike(w, n - 1, q);
      OneMoreTimes(n - 1, w(q));
    }
  }

  lemma AlikeNode(w: Weight, n: nat, q: Quantity)
    ensures OfNode(w, [Pod(false, Alike(n, q))]) == n as real * w(q)
  {
    var pods := [Pod(false, Alike(n, q))];
    assert pods[..0] == [];
    AlikeSum(w, n, q);
  }

  /** A request so small that n of them fit. */
  lemma SmallShare(allocatable: Quantity, n: nat) returns (q: Quantity)
    requires allocatable > 0.0 && n > 0
    ensures 0.0 < q <= 1.0 && n as real * q <= allocatable
  {
    var share := allocatable / n as real;
    assert n as real * share == allocatable;
    if share <= 1.0 {
      q := share;
    } else {
      q := 1.0;
    }
  }

  lemma ValueOfSmall(q: Quantity)
    requires 0.0 < q <= 1.0
    ensures Value(q) == 1
  {
    Between(1.0, 1, Ceil(1.0));
    ValueOf(q);
    assert 0.0 < Value(q) as real < 2.0;
  }

  /**
   For fractions it is not exact, on any node: there are requests that fit, with a resize that changes nothing, and
   the check refuses it, since every request below one counts as one.
   */
  lemma RefusesWhatFits(allocatable: Quantity) returns (pods: seq<Pod>, q: Quantity)
    requires allocatable > 0.0
    ensures q > 0.0 && Target(pods, 0, 0, q) && Resized(pods, 0, 0, q) == pods
    ensures OfNode(EXACT, pods) <= allocatable
    ensures !Accepts(allocatable, pods, q, q)
  {
    ValueOf(allocatable);
    var n := Value(allocatable) + 1;
    q := SmallShare(allocatable, n);
    pods := [Pod(false, Alike(n, q))];
    AlikeNode(EXACT, n, q);
    AlikeNode(ROUNDED, n, q);
    AlikeAre(n, q);
    ValueOfSmall(q);
    assert ROUNDED(q) == 1.0 && n as real * 1.0 == n as real;
    assert pods[0].requests[0 := Some(q)] == pods[0].requests;
  }

  // ---------------------------------------------------------------- in terms of the containers

  /** What the containers of the pods that are not finished request. */
  function LiveRequests(pods: seq<Pod>): seq<Quantity> {
    if pods == [] then []
    else
      var last := pods[|pods| - 1];
      LiveRequests(pods[..|pods| - 1]) + if last.finished then [] else Given(last.requests)
  }

  function Given(requests: seq<Option<Quantity>>): seq<Quantity> {
    if requests == [] then []
    else
      var last := requests[|requests| - 1];
      Given(requests[..|requests| - 1]) + match last case Some(q) => [q] case None => []
  }

  function Total(w: Weight, quantities: seq<Quantity>): real {
    if quantities == [] then 0.0
    else Total(w, quantities[..|quantities| - 1]) + w(quantities[|quantities| - 1])
  }

  lemma {:induction false} TotalConcat(w: Weight, a: seq<Quantity>, b: seq<Quantity>)
    ensures Total(w, a + b) == Total(w, a) + Total(w, b)
  {
    if b == [] {
      assert a + b == a;
    } else {
      assert (a + b)[..|a + b| - 1] == a + b[..|b| - 1];
      TotalConcat(w, a, b[..|b| - 1]);
    }
  }

  lemma {:induction false} ContainersTotal(w: Weight, requests: seq<Option<Quantity>>)
    ensures OfContainers(w, requests) == Total(w, Given(requests))
  {
    if requests != [] {
      var front, last := requests[..|requests| - 1], requests[|requests| - 1];
      ContainersTotal(w, front);
      TotalConcat(w, Given(front), match last case Some(q) => [q] case None => []);
      if last.Some? {
        assert [last.value][..0] == [];
        assert Total(w, [last.value]) == w(last.value);
      }
    }
  }

  /** The node's sum is that of the requests of the containers of pods that are not finished, those that make one. */
  lemma {:induction false} NodeTotal(w: Weight, pods: seq<Pod>)
    ensures OfNode(w, pods) == Total(w, LiveRequests(pods))
  {
    if pods != [] {
      var front, last := pods[..|pods| - 1], pods[|pods| - 1];
      NodeTotal(w, front);
      ContainersTotal(w, last.requests);
      TotalConcat(w, LiveRequests(front), if last.finished then [] else Given(last.requests));
    }
  }

  /** The exact weight of a request is the request, the rounded one the whole number away from zero from it. */
  lemma WeightsExactly(q: Quantity)
    ensures EXACT(q) == q
    ensures ROUNDED(q) == Value(q) as real
    ensures q >= 0.0 ==> q <= Value(q) as real < q + 1.0
    ensures q < 0.0 ==> q - 1.0 < Value(q) as real <= q
  {
  }
}
