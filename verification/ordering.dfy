/** The orders the database applies: `ORDER BY` on an integer key, as an
    insertion sort whose result is a permutation of its input, and the
    comparison of texts by code point, as `MIN` over a text column reads it. */
module Ordering {
  import opened Wrappers

  // ---------------------------------------------------------------------------
  // ordering by an integer key

  /** Elements in non-decreasing order of their key. */
  predicate Ascending<T>(xs: seq<T>, key: T -> int) {
    forall i, j :: 0 <= i < j < |xs| ==> key(xs[i]) <= key(xs[j])
  }

  function InsertBy<T>(x: T, xs: seq<T>, key: T -> int): (r: seq<T>)
    requires Ascending(xs, key)
    ensures Ascending(r, key)
    ensures multiset(r) == multiset(xs) + multiset{x}
    decreases |xs|
  {
    if |xs| == 0 || key(x) <= key(xs[0]) then [x] + xs
    else
      var rest := InsertBy(x, xs[1..], key);
      assert xs == [xs[0]] + xs[1..];
      PrependAscending(xs[0], rest, xs[1..], x, key);
      [xs[0]] + rest
  }

  /** An element no larger than the elements of a permutation of `xs + [x]`
      may be put in front of it. */
  lemma PrependAscending<T>(y: T, rest: seq<T>, xs: seq<T>, x: T, key: T -> int)
    requires Ascending(rest, key)
    requires multiset(rest) == multiset(xs) + multiset{x}
    requires key(y) <= key(x) && forall k :: 0 <= k < |xs| ==> key(y) <= key(xs[k])
    ensures Ascending([y] + rest, key)
  {
    forall j | 0 <= j < |rest| ensures key(y) <= key(rest[j]) {
      assert rest[j] in multiset(rest);
      if rest[j] != x {
        assert rest[j] in multiset(xs);
        var k :| 0 <= k < |xs| && xs[k] == rest[j];
      }
    }
  }

  /** Insertion sort by key, smallest first; the database's order among equal
      keys is not modelled. `ORDER BY c DESC` is a sort by the negated key. */
  function SortBy<T>(xs: seq<T>, key: T -> int): (r: seq<T>)
    ensures Ascending(r, key)
    ensures multiset(r) == multiset(xs)
    decreases |xs|
  {
    if |xs| == 0 then []
    else
      assert xs == [xs[0]] + xs[1..];
      InsertBy(xs[0], SortBy(xs[1..], key), key)
  }

  /** A sorted list holds exactly the elements of its input. */
  lemma SortedMembers<T>(xs: seq<T>, key: T -> int)
    ensures forall x :: x in SortBy(xs, key) <==> x in xs
    ensures |SortBy(xs, key)| == |xs|
  {
    var r := SortBy(xs, key);
    assert |r| == |multiset(r)| == |multiset(xs)| == |xs|;
    forall x ensures x in r <==> x in xs {
      assert x in r <==> x in multiset(r);
      assert x in xs <==> x in multiset(xs);
    }
  }

  // ---------------------------------------------------------------------------
  // texts by code point

  /** `a` sorts no later than `b`, character by character, a prefix first. */
  predicate LexLessEq(a: string, b: string)
    decreases |a|
  {
    |a| == 0 || (|b| > 0 && (a[0] < b[0] || (a[0] == b[0] && LexLessEq(a[1..], b[1..]))))
  }

  lemma {:induction false} LexReflexive(a: string)
    ensures LexLessEq(a, a)
    decreases |a|
  {
    if |a| > 0 {
      LexReflexive(a[1..]);
    }
  }

  lemma {:induction false} LexTotal(a: string, b: string)
    ensures LexLessEq(a, b) || LexLessEq(b, a)
    decreases |a|
  {
    if |a| > 0 && |b| > 0 && a[0] == b[0] {
      LexTotal(a[1..], b[1..]);
    }
  }

  lemma {:induction false} LexTransitive(a: string, b: string, c: string)
    requires LexLessEq(a, b) && LexLessEq(b, c)
    ensures LexLessEq(a, c)
    decreases |a|
  {
    if |a| > 0 && a[0] == b[0] && b[0] == c[0] {
      LexTransitive(a[1..], b[1..], c[1..]);
    }
  }

  lemma {:induction false} LexAntisymmetric(a: string, b: string)
    requires LexLessEq(a, b) && LexLessEq(b, a)
    ensures a == b
    decreases |a|
  {
    if |a| > 0 {
      LexAntisymmetric(a[1..], b[1..]);
      assert a == [a[0]] + a[1..] && b == [b[0]] + b[1..];
    }
  }

  /** Whatever sorts before `b` sorts before everything `b` sorts before. */
  lemma LexBelowAll(m: string, b: string, names: seq<string>)
    requires LexLessEq(m, b)
    requires forall k :: 0 <= k < |names| ==> LexLessEq(b, names[k])
    ensures forall k :: 0 <= k < |names| ==> LexLessEq(m, names[k])
  {
    forall k | 0 <= k < |names| ensures LexLessEq(m, names[k]) {
      LexTransitive(m, b, names[k]);
    }
  }

  /** `MIN` over a text column: the least of the texts, none for no text. */
  function Least(names: seq<string>): (m: Option<string>)
    ensures m.None? <==> |names| == 0
    ensures m.Some? ==> m.value in names && forall k :: 0 <= k < |names| ==> LexLessEq(m.value, names[k])
    decreases |names|
  {
    if |names| == 0 then None
    else
      var rest := Least(names[1..]);
      assert forall k :: 1 <= k < |names| ==> names[k] == names[1..][k - 1];
      LexReflexive(names[0]);
      if rest.None? then Some(names[0])
      else if LexLessEq(names[0], rest.value) then
        LexBelowAll(names[0], rest.value, names[1..]);
        Some(names[0])
      else
        LexTotal(names[0], rest.value);
        rest
  }

  /** The least text does not depend on the order the texts come in, nor on
      repeats: two lists with the same texts have the same least one. */
  lemma LeastIgnoresOrder(a: seq<string>, b: seq<string>)
    requires forall n :: n in a <==> n in b
    ensures Least(a) == Least(b)
  {
    var la, lb := Least(a), Least(b);
    if la.Some? {
      assert |b| > 0 by { assert la.value in b; }
      var i :| 0 <= i < |b| && b[i] == la.value;
      var j :| 0 <= j < |a| && a[j] == lb.value;
      LexAntisymmetric(la.value, lb.value);
    }
  }
}
