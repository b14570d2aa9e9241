/** pv_usage's merge of the nodes' volume statistics: one entry per claim, the one with the highest usage. */
module PvcUsage {
  import opened Options
  import opened Permutations
  import opened Sequences

  datatype PvcRef = PvcRef(namespace: string, name: string)

  datatype Volume = Volume(name: string, pvc: Option<PvcRef>, capacityBytes: int, usedBytes: int)

  datatype Pod = Pod(name: string, namespace: string, volumes: seq<Volume>)

  datatype NodeResult = Stats(node: string, pods: seq<Pod>) | Unreachable(node: string, error: string)

  datatype Usage = Usage(key: string, percent: real, pod: string, volume: Volume)

  function Percent(v: Volume): real {
    if v.capacityBytes > 0 then v.usedBytes as real / v.capacityBytes as real * 100.0 else 0.0
  }

  function UsageOf(p: Pod, v: Volume): Usage
    requires v.pvc.Some?
  {
    Usage(v.pvc.value.namespace + "/" + v.pvc.value.name, Percent(v), p.name, v)
  }

  predicate Wanted(namespace: string, v: Volume) {
    v.pvc.Some? && (namespace == "" || v.pvc.value.namespace == namespace)
  }

  function PodUsages(namespace: string, p: Pod, volumes: seq<Volume>): seq<Usage> {
    if volumes == [] then []
    else PodUsages(namespace, p, volumes[..|volumes| - 1])
         + (var v := volumes[|volumes| - 1]; if Wanted(namespace, v) then [UsageOf(p, v)] else [])
  }

  function NodeUsages(namespace: string, pods: seq<Pod>): seq<Usage> {
    if pods == [] then []
    else NodeUsages(namespace, pods[..|pods| - 1])
         + PodUsages(namespace, pods[|pods| - 1], pods[|pods| - 1].volumes)
  }

  /** Every usage record the results carry, in the order they are met. */
  function Usages(namespace: string, results: seq<NodeResult>): seq<Usage> {
    if results == [] then []
    else Usages(namespace, results[..|results| - 1])
         + match results[|results| - 1]
           case Stats(_, pods) => NodeUsages(namespace, pods)
           case Unreachable(_, _) => []
  }

  type Best = map<string, Usage>

  /** What the merged map must be for a list of records: one entry per key, the first of those none is above. */
  predicate IsBest(best: Best, usages: seq<Usage>) {
    && (forall u | u in usages :: u.key in best && u.percent <= best[u.key].percent)
    && (forall k | k in best :: best[k].key == k && best[k] in usages && FirstBest(best[k], usages))
  }

  /** Each record of the same key before the first such one is below it. */
  predicate FirstBest(b: Usage, usages: seq<Usage>) {
    exists i :: 0 <= i < |usages| && usages[i] == b
                && forall j | 0 <= j < i && usages[j].key == b.key :: usages[j].percent < b.percent
  }

  function Keep(best: Best, u: Usage): Best {
    if u.key !in best || u.percent > best[u.key].percent then best[u.key := u] else best
  }

  lemma KeepIsBest(best: Best, usages: seq<Usage>, u: Usage)
    requires IsBest(best, usages)
    ensures IsBest(Keep(best, u), usages + [u])
  {
    hide FirstBest;
    var after, all := Keep(best, u), usages + [u];
    forall k | k in after ensures FirstBest(after[k], all) {
      if k == u.key && after[k] == u && (k !in best || u.percent > best[k].percent) {
        NewBest(best, usages, u);
      } else {
        StillBest(best[k], usages, u);
      }
    }
  }

  lemma StillBest(b: Usage, usages: seq<Usage>, u: Usage)
    requires FirstBest(b, usages)
    ensures FirstBest(b, usages + [u])
  {
    var i :| 0 <= i < |usages| && usages[i] == b
             && forall j | 0 <= j < i && usages[j].key == b.key :: usages[j].percent < b.percent;
    assert (usages + [u])[i] == b;
  }

  lemma NewBest(best: Best, usages: seq<Usage>, u: Usage)
    requires IsBest(best, usages) && (u.key !in best || u.percent > best[u.key].percent)
    ensures FirstBest(u, usages + [u])
  {
    assert (usages + [u])[|usages|] == u;
    forall j | 0 <= j < |usages| && usages[j].key == u.key ensures usages[j].percent < u.percent {
      assert usages[j] in usages;
    }
  }

  method MergePod(best: Best, ghost seen: seq<Usage>, namespace: string, p: Pod) returns (merged: Best)
    requires IsBest(best, seen)
    ensures IsBest(merged, seen + PodUsages(namespace, p, p.volumes))
  {
    hide IsBest;
    merged := best;
    assert seen + PodUsages(namespace, p, p.volumes[..0]) == seen;
    for i := 0 to |p.volumes|
      invariant IsBest(merged, seen + PodUsages(namespace, p, p.volumes[..i]))
    {
      var v := p.volumes[i];
      ghost var sofar := PodUsages(namespace, p, p.volumes[..i]);
      assert p.volumes[..i + 1][..i] == p.volumes[..i];
      if v.pvc.None? || (namespace != "" && v.pvc.value.namespace != namespace) {
        assert PodUsages(namespace, p, p.volumes[..i + 1]) == sofar;
        continue;
      }
      var u := UsageOf(p, v);
      assert seen + PodUsages(namespace, p, p.volumes[..i + 1]) == (seen + sofar) + [u];
      KeepIsBest(merged, seen + sofar, u);
      if u.key !in merged || u.percent > merged[u.key].percent {
        merged := merged[u.key := u];
      }
    }
    assert p.volumes[..|p.volumes|] == p.volumes;
  }

  method MergeNode(best: Best, ghost seen: seq<Usage>, namespace: string, pods: seq<Pod>) returns (merged: Best)
    requires IsBest(best, seen)
    ensures IsBest(merged, seen + NodeUsages(namespace, pods))
  {
    hide IsBest;
    merged := best;
    assert seen + NodeUsages(namespace, pods[..0]) == seen;
    for p := 0 to |pods|
      invariant IsBest(merged, seen + NodeUsages(namespace, pods[..p]))
    {
      merged := MergePod(merged, seen + NodeUsages(namespace, pods[..p]), namespace, pods[p]);
      assert pods[..p + 1][..p] == pods[..p];
      assert seen + NodeUsages(namespace, pods[..p + 1])
          == seen + NodeUsages(namespace, pods[..p]) + PodUsages(namespace, pods[p], pods[p].volumes);
    }
    assert pods[..|pods|] == pods;
  }

  /** The results of the nodes that could not be asked. */
  function Lost(results: seq<NodeResult>): seq<NodeResult> {
    if results == [] then []
    else
      var last := results[|results| - 1];
      Lost(results[..|results| - 1]) + if last.Unreachable? then [last] else []
  }

  lemma NothingBest()
    ensures IsBest(map[], [])
  {
  }

  /** The loop over the channel: every node is counted, the unreachable ones are listed, the rest merged. */
  method MergeResults(namespace: string, results: seq<NodeResult>) returns (best: Best, queried: nat,
    errors: seq<NodeResult>)
    ensures IsBest(best, Usages(namespace, results))
    ensures queried == |results|
    ensures errors == Lost(results)
  {
    hide IsBest;
    NothingBest();
    best, queried, errors := map[], 0, [];
    for i := 0 to |results|
      invariant IsBest(best, Usages(namespace, results[..i]))
      invariant queried == i
      invariant errors == Lost(results[..i])
    {
      queried := queried + 1;
      assert results[..i + 1][..i] == results[..i];
      match results[i] {
        case Unreachable(_, _) =>
          assert Usages(namespace, results[..i]) + [] == Usages(namespace, results[..i]);
          errors := errors + [results[i]];
        case Stats(_, pods) => best := MergeNode(best, Usages(namespace, results[..i]), namespace, pods);
      }
    }
    assert results[..|results|] == results;
  }

  /** Whatever order the goroutines finished in, the report has the same claims with the same usage. */
  lemma OrderDoesNotMatter(a: seq<Usage>, b: seq<Usage>, bestA: Best, bestB: Best)
    requires multiset(a) == multiset(b) && IsBest(bestA, a) && IsBest(bestB, b)
    ensures bestA.Keys == bestB.Keys
    ensures forall k | k in bestA :: bestA[k].percent == bestB[k].percent
  {
    hide FirstBest;
    assert forall u :: u in a <==> u in multiset(a);
    assert forall u :: u in b <==> u in multiset(b);
    forall k | k in bestA ensures k in bestB && bestA[k].percent == bestB[k].percent {
      assert bestA[k] in b && bestB[k] in a;
    }
    forall k | k in bestB ensures k in bestA {
      assert bestB[k] in a;
    }
  }

  lemma {:induction false} UsagesConcat(namespace: string, r: seq<NodeResult>, s: seq<NodeResult>)
    ensures multiset(Usages(namespace, r + s)) == multiset(Usages(namespace, r)) + multiset(Usages(namespace, s))
    decreases |s|
  {
    if s == [] {
      assert r + s == r;
    } else {
      assert (r + s)[..|r + s| - 1] == r + s[..|s| - 1];
      UsagesConcat(namespace, r, s[..|s| - 1]);
    }
  }

  /** Permuting the node results permutes the records they carry. */
  lemma {:induction false} UsagesOfPermutation(namespace: string, r: seq<NodeResult>, s: seq<NodeResult>)
    requires multiset(r) == multiset(s)
    ensures multiset(Usages(namespace, r)) == multiset(Usages(namespace, s))
    decreases |r|
  {
    if r == [] {
      assert |multiset(r)| == |multiset(s)|;
    } else {
      var x := r[0];
      var i := TakeHeadOut(r, s);
      assert r == [x] + r[1..];
      UsagesOfPermutation(namespace, r[1..], s[..i] + s[i + 1..]);
      UsagesConcat(namespace, [x], r[1..]);
      UsagesConcat(namespace, s[..i], [x] + s[i + 1..]);
      UsagesConcat(namespace, [x], s[i + 1..]);
      UsagesConcat(namespace, s[..i], s[i + 1..]);
    }
  }

  // ---------------------------------------------------------------- in terms of the nodes' statistics

  /** The record is that of a claim's volume of a pod of a reached node, in the namespace asked for if any. */
  predicate IsUsage(namespace: string, results: seq<NodeResult>, u: Usage) {
    exists r, p, v :: r in results && r.Stats? && p in r.pods && v in p.volumes && Records(namespace, p, v, u)
  }

  /** The share of the capacity in percent, 0 without a capacity. */
  predicate Records(namespace: string, p: Pod, v: Volume, u: Usage) {
    && v.pvc.Some? && (namespace != "" ==> v.pvc.value.namespace == namespace)
    && u.key == v.pvc.value.namespace + "/" + v.pvc.value.name
    && (v.capacityBytes <= 0 ==> u.percent == 0.0)
    && (v.capacityBytes > 0 ==> u.percent * v.capacityBytes as real == 100.0 * v.usedBytes as real)
    && u.pod == p.name && u.volume == v
  }

  lemma PercentExactly(v: Volume, percent: real)
    requires v.capacityBytes > 0
    ensures percent == Percent(v) <==> percent * v.capacityBytes as real == 100.0 * v.usedBytes as real
  {
    var c, share := v.capacityBytes as real, v.usedBytes as real / v.capacityBytes as real;
    assert share * c == v.usedBytes as real;
    assert (share * 100.0) * c == 100.0 * (share * c);
    if percent * c == (share * 100.0) * c {
      assert (percent - share * 100.0) * c == 0.0;
    }
  }

  lemma RecordExactly(namespace: string, p: Pod, v: Volume, u: Usage)
    ensures Wanted(namespace, v) && u == UsageOf(p, v) <==> Records(namespace, p, v, u)
  {
    if v.capacityBytes > 0 {
      PercentExactly(v, u.percent);
    }
  }

  lemma {:induction false} PodUsagesExactly(namespace: string, p: Pod, volumes: seq<Volume>, u: Usage)
    ensures u in PodUsages(namespace, p, volumes) <==> exists v :: v in volumes && Records(namespace, p, v, u)
  {
    hide Records, UsageOf, Wanted;
    if volumes != [] {
      var front, v := volumes[..|volumes| - 1], volumes[|volumes| - 1];
      PodUsagesExactly(namespace, p, front, u);
      RecordExactly(namespace, p, v, u);
      assert volumes == front + [v];
    }
  }

  lemma {:induction false} NodeUsagesExactly(namespace: string, pods: seq<Pod>, u: Usage)
    ensures u in NodeUsages(namespace, pods)
            <==> exists p, v :: p in pods && v in p.volumes && Records(namespace, p, v, u)
  {
    hide Records, PodUsages;
    if pods != [] {
      var front, p := pods[..|pods| - 1], pods[|pods| - 1];
      NodeUsagesExactly(namespace, front, u);
      PodUsagesExactly(namespace, p, p.volumes, u);
      assert pods == front + [p];
    }
  }

  /** The usage records are exactly those of the claims' volumes, on whatever reached node. */
  lemma {:induction false} UsagesExactly(namespace: string, results: seq<NodeResult>, u: Usage)
    ensures u in Usages(namespace, results) <==> IsUsage(namespace, results, u)
  {
    hide Records, NodeUsages;
    if results != [] {
      var front, r := results[..|results| - 1], results[|results| - 1];
      UsagesExactly(namespace, front, u);
      assert results == front + [r];
      match r
      case Stats(_, pods) => NodeUsagesExactly(namespace, pods, u);
      case Unreachable(_, _) =>
    }
  }

  /** The errors are those of the nodes that could not be reached, each once and in the order of the results. */
  lemma {:induction false} LostExactly(results: seq<NodeResult>)
    ensures Keeps(Lost(results), results, (r: NodeResult) => r.Unreachable?)
  {
    var keep := (r: NodeResult) => r.Unreachable?;
    if results == [] {
      KeepsNone(keep);
    } else {
      var front, last := results[..|results| - 1], results[|results| - 1];
      LostExactly(front);
      KeepsOneMore(Lost(front), front, keep, last);
      assert results == front + [last];
    }
  }
}
