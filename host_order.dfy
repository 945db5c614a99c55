/** Python's ordering of strings (character by character on code points,
    a proper prefix first) and `sorted` on a list of host names. */
module HostOrder {

  import opened OrderedDict

  /** `a < b` on Python strings. */
  predicate Below(a: string, b: string) {
    if |a| == 0 then |b| > 0
    else if |b| == 0 then false
    else if a[0] != b[0] then a[0] < b[0]
    else Below(a[1..], b[1..])
  }

  predicate AtMost(a: string, b: string) {
    a == b || Below(a, b)
  }

  lemma {:induction false} BelowIrreflexive(a: string)
    ensures !Below(a, a)
  {
    if |a| > 0 { BelowIrreflexive(a[1..]); }
  }

  /** Two different strings are ordered one way or the other. */
  lemma {:induction false} BelowTotal(a: string, b: string)
    requires a != b
    ensures Below(a, b) || Below(b, a)
  {
    if |a| > 0 && |b| > 0 && a[0] == b[0] {
      assert a == [a[0]] + a[1..] && b == [b[0]] + b[1..];
      BelowTotal(a[1..], b[1..]);
    }
  }

  lemma {:induction false} BelowAsymmetric(a: string, b: string)
    requires Below(a, b)
    ensures !Below(b, a)
  {
    if |a| > 0 && |b| > 0 && a[0] == b[0] {
      BelowAsymmetric(a[1..], b[1..]);
    }
  }

  lemma {:induction false} BelowTransitive(a: string, b: string, c: string)
    requires Below(a, b) && Below(b, c)
    ensures Below(a, c)
  {
    if |a| > 0 && a[0] == b[0] && b[0] == c[0] {
      BelowTransitive(a[1..], b[1..], c[1..]);
    }
  }

  /** Each name is at most the next one. */
  predicate Ascending(s: seq<string>) {
    forall i :: 0 < i < |s| ==> AtMost(s[i - 1], s[i])
  }

  /** Putting a name before an ascending list it does not exceed keeps
      the list ascending. */
  lemma AscendingCons(x: string, s: seq<string>)
    requires Ascending(s) && (s != [] ==> AtMost(x, s[0]))
    ensures Ascending([x] + s)
  {
    var r := [x] + s;
    forall i | 0 < i < |r| ensures AtMost(r[i - 1], r[i]) {
      if i > 1 {
        assert r[i - 1] == s[i - 2] && r[i] == s[i - 1];
      }
    }
  }

  lemma AscendingTail(s: seq<string>)
    requires Ascending(s) && s != []
    ensures Ascending(s[1..])
  {
    var t := s[1..];
    forall i | 0 < i < |t| ensures AtMost(t[i - 1], t[i]) {
      assert t[i - 1] == s[i] && t[i] == s[i + 1];
    }
  }

  /** Insert `x` before the first name above it. */
  function Insert(x: string, s: seq<string>): (r: seq<string>)
    requires Ascending(s)
    ensures multiset(r) == multiset(s) + multiset{x}
    ensures Ascending(r)
    ensures |r| > 0 && (r[0] == x || (|s| > 0 && r[0] == s[0]))
  {
    if s == [] then [x]
    else if Below(x, s[0]) then
      AscendingCons(x, s);
      [x] + s
    else
      AscendingTail(s);
      var rest := Insert(x, s[1..]);
      assert AtMost(s[0], x) by {
        if x != s[0] { BelowTotal(x, s[0]); }
      }
      AscendingCons(s[0], rest);
      assert s == [s[0]] + s[1..];
      [s[0]] + rest
  }

  /** `sorted(names)`. */
  function Sort(names: seq<string>): (r: seq<string>)
    ensures multiset(r) == multiset(names)
    ensures Ascending(r)
  {
    if names == [] then []
    else
      assert names == [names[0]] + names[1..];
      Insert(names[0], Sort(names[1..]))
  }

  /** Ascending between neighbours means ascending between any two. */
  lemma {:induction false} AscendingPairwise(s: seq<string>, i: int, j: int)
    requires Ascending(s) && 0 <= i < j < |s|
    ensures AtMost(s[i], s[j])
    decreases j - i
  {
    if i + 1 < j {
      AscendingPairwise(s, i + 1, j);
      if s[i] != s[i + 1] && s[i + 1] != s[j] {
        BelowTransitive(s[i], s[i + 1], s[j]);
      }
    }
  }

  /** A list of distinct names holds each name at most once. */
  lemma {:induction false} DistinctOnce(s: seq<string>, x: string)
    requires Distinct(s)
    ensures multiset(s)[x] <= 1
  {
    if s != [] {
      assert s == [s[0]] + s[1..];
      DistinctOnce(s[1..], x);
      if x == s[0] {
        assert x !in s[1..];
      }
    }
  }

  /** A name at two positions is held at least twice. */
  lemma Twice(s: seq<string>, i: int, j: int)
    requires 0 <= i < j < |s| && s[i] == s[j]
    ensures multiset(s)[s[i]] >= 2
  {
    assert s == s[..i] + [s[i]] + s[i + 1..j] + [s[j]] + s[j + 1..];
  }

  /** Sorting names that are all different (the keys of a dict) gives
      each of them exactly once, strictly ascending. */
  lemma SortDistinct(names: seq<string>, i: int, j: int)
    requires Distinct(names)
    requires 0 <= i < j < |Sort(names)|
    ensures Below(Sort(names)[i], Sort(names)[j]) && !Below(Sort(names)[j], Sort(names)[i])
  {
    var r := Sort(names);
    AscendingPairwise(r, i, j);
    if r[i] == r[j] {
      Twice(r, i, j);
      DistinctOnce(names, r[i]);
      assert false;
    }
    BelowAsymmetric(r[i], r[j]);
  }
}
