/** A paginated AWS listing: its pages in order, where token 0 is the empty token and token i asks for page i. */
module Pages {
  type Pages<T> = seq<seq<T>>

  function Flatten<T>(pages: Pages<T>): seq<T> {
    if pages == [] then [] else Flatten(pages[..|pages| - 1]) + pages[|pages| - 1]
  }

  /** The items of k pages from page `start` on. */
  function Read<T>(pages: Pages<T>, start: nat, k: nat): seq<T>
    requires start + k <= |pages| || k == 0
  {
    if k == 0 then [] else Flatten(pages[start..start + k])
  }

  lemma {:induction false} FlattenConcat<T>(a: Pages<T>, b: Pages<T>)
    ensures Flatten(a + b) == Flatten(a) + Flatten(b)
  {
    if b == [] {
      assert a + b == a;
    } else {
      assert (a + b)[..|a + b| - 1] == a + b[..|b| - 1];
      FlattenConcat(a, b[..|b| - 1]);
      assert Flatten(a + b) == Flatten(a + b[..|b| - 1]) + b[|b| - 1];
    }
  }

  /** With FlattenConcat this fixes the list: each page once, in order. */
  lemma FlattenOne<T>(page: seq<T>)
    ensures Flatten<T>([]) == [] && Flatten([page]) == page
  {
    assert [page][..0] == [];
  }

  lemma ReadOneMore<T>(pages: Pages<T>, start: nat, k: nat)
    requires start + k < |pages|
    ensures Read(pages, start, k + 1) == Read(pages, start, k) + pages[start + k]
  {
    var next := pages[start..start + k + 1];
    assert next[..k] == pages[start..start + k];
    assert Flatten(next) == Flatten(next[..k]) + next[k];
    if k == 0 {
      assert next[..k] == [];
    }
  }

  /** Reading on from where one stopped is reading further from the start. */
  lemma ReadOn<T>(pages: Pages<T>, m: nat, k: nat)
    requires m + k <= |pages|
    ensures Flatten(pages[..m + k]) == Flatten(pages[..m]) + Read(pages, m, k)
  {
    assert pages[..m + k] == pages[..m] + pages[m..m + k];
    FlattenConcat(pages[..m], pages[m..m + k]);
  }
}
