/** Counting into a map by key, as the aggregating tasks do, and the sum over such a map. */
module Tally {
  type Counts = map<string, nat>

  function Count(m: Counts, k: string): nat {
    if k in m then m[k] else 0
  }

  function Bump(m: Counts, k: string): Counts {
    m[k := Count(m, k) + 1]
  }

  ghost function Sum(m: Counts): nat {
    if m == map[] then 0
    else
      var k :| k in m;
      m[k] + Sum(m - {k})
  }

  lemma {:induction false} SumWithout(m: Counts, k: string)
    requires k in m
    ensures Sum(m) == m[k] + Sum(m - {k})
    decreases |m|
  {
    var j :| j in m && Sum(m) == m[j] + Sum(m - {j});
    if j != k {
      SumWithout(m - {j}, k);
      SumWithout(m - {k}, j);
      assert m - {j} - {k} == m - {k} - {j};
    }
  }

  lemma SumSet(m: Counts, k: string, v: nat)
    ensures Sum(m[k := v]) == Sum(m) - Count(m, k) + v
  {
    SumWithout(m[k := v], k);
    if k in m {
      SumWithout(m, k);
      assert m[k := v] - {k} == m - {k};
    } else {
      assert m[k := v] - {k} == m;
    }
  }

  /** Counting one more thing adds one to the sum, whatever the thing's key. */
  lemma SumBump(m: Counts, k: string)
    ensures Sum(Bump(m, k)) == Sum(m) + 1
  {
    SumSet(m, k, Count(m, k) + 1);
  }

  /** How often each key occurs. */
  function Histogram(keys: seq<string>): Counts {
    if keys == [] then map[] else Bump(Histogram(keys[..|keys| - 1]), keys[|keys| - 1])
  }

  lemma {:induction false} HistogramExact(keys: seq<string>, k: string)
    ensures Count(Histogram(keys), k) == multiset(keys)[k]
    ensures k in Histogram(keys) <==> k in keys
  {
    if keys != [] {
      HistogramExact(keys[..|keys| - 1], k);
      assert keys == keys[..|keys| - 1] + [keys[|keys| - 1]];
    }
  }

  lemma {:induction false} HistogramSum(keys: seq<string>)
    ensures Sum(Histogram(keys)) == |keys|
  {
    if keys != [] {
      HistogramSum(keys[..|keys| - 1]);
      SumBump(Histogram(keys[..|keys| - 1]), keys[|keys| - 1]);
    }
  }

  /** Adding two counts key by key. */
  function Merge(a: Counts, b: Counts): Counts {
    map k | k in a.Keys + b.Keys :: Count(a, k) + Count(b, k)
  }

  lemma HistogramConcat(a: seq<string>, b: seq<string>)
    ensures Histogram(a + b) == Merge(Histogram(a), Histogram(b))
  {
    forall k ensures Count(Histogram(a + b), k) == Count(Histogram(a), k) + Count(Histogram(b), k)
                  && (k in Histogram(a + b) <==> k in Histogram(a) || k in Histogram(b))
    {
      HistogramExact(a + b, k);
      HistogramExact(a, k);
      HistogramExact(b, k);
    }
    var l, r := Histogram(a + b), Merge(Histogram(a), Histogram(b));
    forall k | k in l ensures k in r && l[k] == r[k] {
      assert Count(l, k) == l[k];
    }
    assert l.Keys == r.Keys;
  }

  // ---------------------------------------------------------------- accumulators by key

  function At<V>(m: map<string, V>, initial: V, k: string): V {
    if k in m then m[k] else initial
  }

  /** Applies `step` to the accumulator of every listed key, starting new ones from `initial`. */
  function UpdateEach<V>(m: map<string, V>, initial: V, step: (V, string) -> V, keys: set<string>): map<string, V> {
    map k | k in m.Keys + keys :: if k in keys then step(At(m, initial, k), k) else m[k]
  }

  lemma UpdateEachCommutes<V>(m: map<string, V>, initial: V, f: (V, string) -> V, g: (V, string) -> V,
    kf: set<string>, kg: set<string>)
    requires forall k | k in kf && k in kg :: g(f(At(m, initial, k), k), k) == f(g(At(m, initial, k), k), k)
    ensures UpdateEach(UpdateEach(m, initial, f, kf), initial, g, kg)
         == UpdateEach(UpdateEach(m, initial, g, kg), initial, f, kf)
  {
    var fg := UpdateEach(UpdateEach(m, initial, f, kf), initial, g, kg);
    var gf := UpdateEach(UpdateEach(m, initial, g, kg), initial, f, kf);
    assert fg.Keys == gf.Keys;
    forall k | k in fg ensures fg[k] == gf[k] {
      if k in kf {
        assert At(UpdateEach(m, initial, f, kf), initial, k) == f(At(m, initial, k), k);
      }
      if k in kg {
        assert At(UpdateEach(m, initial, g, kg), initial, k) == g(At(m, initial, k), k);
      }
    }
  }

  /** Taking the keys one by one, in any order without repetition, updates them all. */
  lemma UpdateOneMore<V>(m: map<string, V>, initial: V, step: (V, string) -> V, done: set<string>, key: string)
    requires key !in done
    ensures var u := UpdateEach(m, initial, step, done);
            u[key := step(At(u, initial, key), key)] == UpdateEach(m, initial, step, done + {key})
  {
    var u := UpdateEach(m, initial, step, done);
    assert u.Keys + {key} == m.Keys + (done + {key});
  }
}
