/** Go's string order, lower-casing of ASCII letters, and slices.Sort followed by slices.Compact. */
module Text {
  import opened Sequences

  /** Go compares strings byte by byte; on valid UTF-8 that is code point by code point. */
  predicate Less(a: string, b: string) {
    if b == [] then false
    else if a == [] then true
    else a[0] < b[0] || (a[0] == b[0] && Less(a[1..], b[1..]))
  }

  /** A proper prefix is less, and else the first differing character decides. */
  lemma {:induction false} LessExactly(a: string, b: string)
    ensures Less(a, b) <==> (a <= b && a != b) || exists i :: FirstDifference(a, b, i) && a[i] < b[i]
  {
    if a != [] && b != [] && a[0] == b[0] {
      LessExactly(a[1..], b[1..]);
      assert a == [a[0]] + a[1..] && b == [b[0]] + b[1..];
      if i :| FirstDifference(a[1..], b[1..], i) && a[1..][i] < b[1..][i] {
        assert FirstDifference(a, b, i + 1);
      }
      if i :| FirstDifference(a, b, i) && a[i] < b[i] {
        assert a[..i][1..] == a[1..][..i - 1] && b[..i][1..] == b[1..][..i - 1];
        assert FirstDifference(a[1..], b[1..], i - 1);
      }
    } else if a != [] && b != [] {
      assert FirstDifference(a, b, 0);
    }
  }

  predicate FirstDifference(a: string, b: string, i: int) {
    0 <= i < |a| && i < |b| && a[..i] == b[..i] && a[i] != b[i]
  }

  lemma {:induction false} LessTransitive(a: string, b: string, c: string)
    requires Less(a, b) && Less(b, c)
    ensures Less(a, c)
  {
    if a != [] && a[0] == b[0] && b[0] == c[0] {
      LessTransitive(a[1..], b[1..], c[1..]);
    }
  }

  lemma {:induction false} LessTotal(a: string, b: string)
    ensures a == b || Less(a, b) || Less(b, a)
    ensures !(Less(a, b) && Less(b, a))
    ensures a == b ==> !Less(a, b)
  {
    if a != [] && b != [] && a[0] == b[0] {
      LessTotal(a[1..], b[1..]);
      assert a == [a[0]] + a[1..] && b == [b[0]] + b[1..];
    }
  }

  predicate Ascending(s: seq<string>) {
    |s| <= 1 || (Less(s[0], s[1]) && Ascending(s[1..]))
  }

  function Insert(x: string, s: seq<string>): seq<string> {
    if s == [] then [x]
    else if x == s[0] then s
    else if Less(x, s[0]) then [x] + s
    else [s[0]] + Insert(x, s[1..])
  }

  /** The list's values in order, each once. */
  function SortCompact(s: seq<string>): seq<string> {
    if s == [] then [] else Insert(s[0], SortCompact(s[1..]))
  }

  lemma {:induction false} InsertKeepsOrder(x: string, s: seq<string>)
    requires Ascending(s)
    ensures Ascending(Insert(x, s))
    ensures Insert(x, s) != [] && (Insert(x, s)[0] == x || (s != [] && Insert(x, s)[0] == s[0]))
  {
    if s != [] && x != s[0] && !Less(x, s[0]) {
      LessTotal(x, s[0]);
      InsertKeepsOrder(x, s[1..]);
      var rest := Insert(x, s[1..]);
      assert ([s[0]] + rest)[1..] == rest && ([s[0]] + rest)[1] == rest[0];
    } else if s != [] && x != s[0] {
      assert ([x] + s)[1..] == s;
    }
  }

  lemma {:induction false} InsertElements(x: string, s: seq<string>)
    ensures Elements(Insert(x, s)) == Elements(s) + {x}
  {
    if s != [] {
      assert s == [s[0]] + s[1..];
      InsertElements(x, s[1..]);
      ElementsConcat([s[0]], s[1..]);
      ElementsConcat([s[0]], Insert(x, s[1..]));
      ElementsConcat([x], s);
    }
  }

  lemma {:induction false} SortCompactSorts(s: seq<string>)
    ensures Ascending(SortCompact(s))
    ensures Elements(SortCompact(s)) == Elements(s)
  {
    if s != [] {
      SortCompactSorts(s[1..]);
      InsertKeepsOrder(s[0], SortCompact(s[1..]));
      InsertElements(s[0], SortCompact(s[1..]));
      assert Elements(s) == {s[0]} + Elements(s[1..]);
    }
  }

  lemma {:induction false} HeadIsLeast(s: seq<string>, x: string)
    requires s != [] && Ascending(s) && x in s[1..]
    ensures Less(s[0], x)
  {
    if x != s[1] {
      HeadIsLeast(s[1..], x);
      LessTransitive(s[0], s[1], x);
    }
  }

  lemma {:induction false} AscendingUnique(s: seq<string>, t: seq<string>)
    requires Ascending(s) && Ascending(t) && Elements(s) == Elements(t)
    ensures s == t
  {
    assert |s| > 0 ==> s[0] in Elements(t);
    assert |t| > 0 ==> t[0] in Elements(s);
    if s != [] && t != [] {
      if s[0] != t[0] {
        HeadIsLeast(s, t[0]);
        HeadIsLeast(t, s[0]);
        LessTotal(s[0], t[0]);
      }
      TailElements(s);
      TailElements(t);
      AscendingUnique(s[1..], t[1..]);
      assert s == [s[0]] + s[1..] && t == [t[0]] + t[1..];
    }
  }

  lemma TailElements(s: seq<string>)
    requires s != [] && Ascending(s)
    ensures Elements(s[1..]) == Elements(s) - {s[0]}
  {
    if s[0] in s[1..] {
      HeadIsLeast(s, s[0]);
      LessTotal(s[0], s[0]);
    }
    assert s == [s[0]] + s[1..];
  }

  /** Two lists sort and compact alike exactly when they hold the same values. */
  lemma SortCompactCanonical(s: seq<string>, t: seq<string>)
    ensures SortCompact(s) == SortCompact(t) <==> Elements(s) == Elements(t)
  {
    SortCompactSorts(s);
    SortCompactSorts(t);
    if Elements(s) == Elements(t) {
      AscendingUnique(SortCompact(s), SortCompact(t));
    }
  }

  /** A set's values in order. */
  ghost function SortedOf(values: set<string>): seq<string> {
    if values == {} then []
    else
      var x :| x in values;
      Insert(x, SortedOf(values - {x}))
  }

  lemma {:induction false} SortedOfSorts(values: set<string>)
    ensures Ascending(SortedOf(values)) && Elements(SortedOf(values)) == values && |SortedOf(values)| == |values|
    decreases values
  {
    if values != {} {
      var x :| x in values && SortedOf(values) == Insert(x, SortedOf(values - {x}));
      SortedOfSorts(values - {x});
      InsertKeepsOrder(x, SortedOf(values - {x}));
      InsertElements(x, SortedOf(values - {x}));
      InsertLength(x, SortedOf(values - {x}));
    }
  }

  lemma {:induction false} InsertLength(x: string, s: seq<string>)
    requires x !in s
    ensures |Insert(x, s)| == |s| + 1
  {
    if s != [] && !Less(x, s[0]) {
      InsertLength(x, s[1..]);
    }
  }

  method SortSet(values: set<string>) returns (s: seq<string>)
    ensures s == SortedOf(values)
  {
    s := [];
    var rest := values;
    while rest != {}
      invariant rest <= values && Ascending(s) && Elements(s) == values - rest
      decreases |rest|
    {
      var x :| x in rest;
      InsertKeepsOrder(x, s);
      InsertElements(x, s);
      s := Insert(x, s);
      rest := rest - {x};
    }
    SortedOfSorts(values);
    AscendingUnique(s, SortedOf(values));
  }

  // ---------------------------------------------------------------- lower case

  function LowerChar(c: char): char {
    if 'A' <= c <= 'Z' then (c as int + 32) as char else c
  }

  function ToLower(s: string): string {
    seq(|s|, i requires 0 <= i < |s| => LowerChar(s[i]))
  }

  function UpperChar(c: char): char {
    if 'a' <= c <= 'z' then (c as int - 32) as char else c
  }

  function ToUpper(s: string): string {
    seq(|s|, i requires 0 <= i < |s| => UpperChar(s[i]))
  }

  /** The 26 letters keep their place in the alphabet and change case, everything else stays. */
  lemma CaseExactly(s: string, i: nat)
    requires i < |s|
    ensures |ToLower(s)| == |ToUpper(s)| == |s|
    ensures 'A' <= s[i] <= 'Z' ==> ToLower(s)[i] as int - 'a' as int == s[i] as int - 'A' as int
    ensures 'a' <= s[i] <= 'z' ==> ToUpper(s)[i] as int - 'A' as int == s[i] as int - 'a' as int
    ensures s[i] < 'A' || 'Z' < s[i] ==> ToLower(s)[i] == s[i]
    ensures s[i] < 'a' || 'z' < s[i] ==> ToUpper(s)[i] == s[i]
  {
  }

  predicate NoLowerCase(s: string) {
    forall i | 0 <= i < |s| :: !('a' <= s[i] <= 'z')
  }

  lemma ToLowerInjective(a: string, b: string)
    requires NoLowerCase(a) && NoLowerCase(b) && ToLower(a) == ToLower(b)
    ensures a == b
  {
    assert |a| == |ToLower(a)| == |ToLower(b)| == |b|;
    forall i | 0 <= i < |a| ensures a[i] == b[i] {
      assert ToLower(a)[i] == ToLower(b)[i];
    }
  }

  // ---------------------------------------------------------------- one way to split

  lemma SplitAtFirst(c: char, a: string, k: string, b: string, l: string)
    requires c !in a && c !in b && a + [c] + k == b + [c] + l
    ensures a == b && k == l
  {
    var s, t := a + [c] + k, b + [c] + l;
    assert s[|a|] == c && t[|b|] == c;
    assert forall i | 0 <= i < |a| :: s[i] == a[i] != c;
    assert forall i | 0 <= i < |b| :: t[i] == b[i] != c;
    assert |a| == |b|;
    assert a == s[..|a|] == t[..|b|] == b;
    assert k == s[|a| + 1..] == t[|b| + 1..] == l;
  }

  lemma SplitAtLast(c: char, a: string, k: string, b: string, l: string)
    requires c !in k && c !in l && a + [c] + k == b + [c] + l
    ensures a == b && k == l
  {
    var s, t := a + [c] + k, b + [c] + l;
    assert s[|a|] == c && t[|b|] == c;
    assert forall i | |a| < i < |s| :: s[i] == k[i - |a| - 1] != c;
    assert forall i | |b| < i < |t| :: t[i] == l[i - |b| - 1] != c;
    assert |a| == |b|;
    assert a == s[..|a|] == t[..|b|] == b;
    assert k == s[|a| + 1..] == t[|b| + 1..] == l;
  }
}
