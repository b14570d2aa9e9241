/** The induction step for facts about reordered sequences. */
module Permutations {
  /** The head of one sequence occurs in any reordering of it, and taking both out leaves a reordering. */
  lemma TakeHeadOut<T>(r: seq<T>, s: seq<T>) returns (i: nat)
    requires r != [] && multiset(r) == multiset(s)
    ensures i < |s| && s[i] == r[0]
    ensures multiset(r[1..]) == multiset(s[..i] + s[i + 1..])
    ensures s == s[..i] + ([r[0]] + s[i + 1..])
  {
    assert r == [r[0]] + r[1..];
    assert r[0] in multiset(s);
    i :| 0 <= i < |s| && s[i] == r[0];
    assert s == s[..i] + ([r[0]] + s[i + 1..]);
    assert multiset(s) == multiset(s[..i]) + multiset([r[0]]) + multiset(s[i + 1..]);
    assert multiset(r) == multiset([r[0]]) + multiset(r[1..]);
    calc {
      multiset(r[1..]);
      multiset(r) - multiset([r[0]]);
      multiset(s[..i]) + multiset(s[i + 1..]);
      multiset(s[..i] + s[i + 1..]);
    }
  }

  // ---------------------------------------------------------------- folds that do not mind the order

  function Fold<S, T>(step: (S, T) -> S, s: S, xs: seq<T>): S
    decreases |xs|
  {
    if xs == [] then s else Fold(step, step(s, xs[0]), xs[1..])
  }

  lemma {:induction false} FoldConcat<S, T>(step: (S, T) -> S, s: S, a: seq<T>, b: seq<T>)
    ensures Fold(step, s, a + b) == Fold(step, Fold(step, s, a), b)
    decreases |a|
  {
    if a == [] {
      assert a + b == b;
    } else {
      assert (a + b)[1..] == a[1..] + b;
      FoldConcat(step, step(s, a[0]), a[1..], b);
    }
  }

  /** From any state satisfying ok, any two of the elements can be applied in either order, and keep ok. */
  ghost predicate Swappable<S(!new), T(!new)>(step: (S, T) -> S, ok: S -> bool, xs: seq<T>) {
    && (forall s, x, y | ok(s) && x in xs && y in xs :: step(step(s, x), y) == step(step(s, y), x))
    && (forall s, x | ok(s) && x in xs :: ok(step(s, x)))
  }

  lemma {:induction false} FoldToFront<S(!new), T(!new)>(step: (S, T) -> S, ok: S -> bool, s: S, a: seq<T>, x: T)
    requires ok(s) && Swappable(step, ok, [x] + a)
    ensures Fold(step, s, a + [x]) == Fold(step, step(s, x), a)
    decreases |a|
  {
    if a == [] {
      assert a + [x] == [x] && [x][1..] == [];
    } else {
      assert (a + [x])[1..] == a[1..] + [x];
      assert a[0] in [x] + a && x in [x] + a;
      assert forall y | y in [x] + a[1..] :: y in [x] + a;
      FoldToFront(step, ok, step(s, a[0]), a[1..], x);
    }
  }

  /** Every reordering folds to the same state. */
  lemma {:induction false} FoldPermuted<S(!new), T(!new)>(step: (S, T) -> S, ok: S -> bool, s: S, a: seq<T>, b: seq<T>)
    requires ok(s) && Swappable(step, ok, a) && multiset(a) == multiset(b)
    ensures Fold(step, s, a) == Fold(step, s, b)
    decreases |a|
  {
    if a == [] {
      assert |multiset(a)| == |multiset(b)|;
    } else {
      var i := TakeHeadOut(a, b);
      var x, front, back := a[0], b[..i], b[i + 1..];
      assert x in a;
      FoldPermuted(step, ok, step(s, x), a[1..], front + back);
      assert forall y | y in [x] + front :: y in a by {
        assert forall y :: y in b <==> y in multiset(b);
        assert forall y :: y in a <==> y in multiset(a);
      }
      FoldToFront(step, ok, s, front, x);
      FoldConcat(step, s, front + [x], back);
      FoldConcat(step, step(s, x), front, back);
      assert b == front + [x] + back;
    }
  }
}
