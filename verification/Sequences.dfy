/** A sequence's elements as a set, sequences without repetition, and subsets of a given size. */
module Sequences {
  function Elements<T>(s: seq<T>): set<T> {
    set x | x in s
  }

  predicate Distinct<T(==)>(s: seq<T>) {
    forall i, j | 0 <= i < j < |s| :: s[i] != s[j]
  }

  lemma ElementsConcat<T>(s: seq<T>, t: seq<T>)
    ensures Elements(s + t) == Elements(s) + Elements(t)
  {
  }

  lemma {:induction false} DistinctSize<T>(s: seq<T>)
    requires Distinct(s)
    ensures |Elements(s)| == |s|
  {
    if s != [] {
      var front, last := s[..|s| - 1], s[|s| - 1];
      DistinctSize(front);
      assert s == front + [last];
      assert Elements(s) == Elements(front) + {last} && last !in front;
    }
  }

  // ---------------------------------------------------------------- subsets by size

  lemma SomeOf<T>(s: set<T>, n: nat) returns (t: set<T>)
    requires n <= |s|
    ensures t <= s && |t| == n
  {
    if n == |s| {
      t := s;
    } else {
      var x :| x in s;
      t := SomeOf(s - {x}, n);
    }
  }

  lemma SubsetIsAll<T>(a: set<T>, b: set<T>)
    requires a <= b && |a| >= |b|
    ensures a == b
  {
    if x :| x in b && x !in a {
      assert |b - {x}| == |b| - 1;
      SubsetSize(a, b - {x});
    }
  }

  lemma SubsetSize<T>(a: set<T>, b: set<T>)
    requires a <= b
    ensures |a| <= |b|
  {
    assert b == a + (b - a);
  }

  // ---------------------------------------------------------------- picking elements

  /** The places, in order, of the elements of `out` in `s`. */
  predicate Places<T(==)>(at: seq<nat>, out: seq<T>, s: seq<T>) {
    && |at| == |out|
    && (forall i | 0 <= i < |at| :: at[i] < |s| && s[at[i]] == out[i])
    && (forall i, j | 0 <= i < j < |at| :: at[i] < at[j])
  }

  /** `out` lists the elements of `s` that are to be kept, each as often as it is there and in the same order. */
  ghost predicate Keeps<T(!new)>(out: seq<T>, s: seq<T>, keep: T -> bool) {
    exists at: seq<nat> :: Places(at, out, s) && forall i | 0 <= i < |s| :: i in at <==> keep(s[i])
  }

  lemma KeepsNone<T(!new)>(keep: T -> bool)
    ensures Keeps([], [], keep)
  {
    var none: seq<T> := [];
    assert Places([], none, none);
  }

  lemma KeepsOneMore<T(!new)>(out: seq<T>, s: seq<T>, keep: T -> bool, x: T)
    requires Keeps(out, s, keep)
    ensures Keeps(out + if keep(x) then [x] else [], s + [x], keep)
  {
    var at: seq<nat> :| Places(at, out, s) && forall i | 0 <= i < |s| :: i in at <==> keep(s[i]);
    var more := at + if keep(x) then [|s|] else [];
    assert Places(more, out + if keep(x) then [x] else [], s + [x]);
    forall i | 0 <= i < |s + [x]| ensures i in more <==> keep((s + [x])[i]) {
      assert i < |s| ==> (i in more <==> i in at);
      assert |s| !in at;
    }
  }
}
