/** List comprehensions with a condition, and Python slicing, over sequences. */
module Seqs {

  /** `[x for x in s if p(x)]`: the elements of `s` that satisfy `p`, in order. */
  function Filter<T>(s: seq<T>, p: T -> bool): (r: seq<T>)
    ensures |r| <= |s|
  {
    if s == [] then []
    else (if p(s[0]) then [s[0]] else []) + Filter(s[1..], p)
  }

  /** An element is kept exactly when it is in `s` and satisfies `p`. */
  lemma {:induction false} FilterMembers<T>(s: seq<T>, p: T -> bool, x: T)
    ensures x in Filter(s, p) <==> x in s && p(x)
  {
    if s != [] {
      FilterMembers(s[1..], p, x);
      assert x in s <==> x == s[0] || x in s[1..];
    }
  }

  /** Filtering distributes over concatenation; with `Filter([x], p)` being
      `[x]` or `[]` this pins the order of the result down: it is `s` with the
      rejected elements struck out. */
  lemma {:induction false} FilterAppend<T>(a: seq<T>, b: seq<T>, p: T -> bool)
    ensures Filter(a + b, p) == Filter(a, p) + Filter(b, p)
  {
    if a == [] {
      assert a + b == b;
    } else {
      FilterAppend(a[1..], b, p);
      var head := if p(a[0]) then [a[0]] else [];
      assert (a + b)[0] == a[0] && (a + b)[1..] == a[1..] + b;
      calc {
        Filter(a + b, p);
        head + Filter(a[1..] + b, p);
        head + (Filter(a[1..], p) + Filter(b, p));
        (head + Filter(a[1..], p)) + Filter(b, p);
      }
    }
  }

  /** A filter that accepts every element changes nothing, so an omitted
      query filter imposes no constraint. */
  lemma {:induction false} FilterKeepsAll<T>(s: seq<T>, p: T -> bool)
    requires forall i :: 0 <= i < |s| ==> p(s[i])
    ensures Filter(s, p) == s
  {
    if s != [] {
      FilterKeepsAll(s[1..], p);
    }
  }

  /** Two filters applied one after the other are one filter on the
      conjunction of their conditions. */
  lemma {:induction false} FilterFilter<T>(s: seq<T>, p: T -> bool, q: T -> bool, both: T -> bool)
    requires forall x :: both(x) == (p(x) && q(x))
    ensures Filter(Filter(s, p), q) == Filter(s, both)
  {
    if s != [] {
      FilterFilter(s[1..], p, q, both);
      var head := if p(s[0]) then [s[0]] else [];
      FilterAppend(head, Filter(s[1..], p), q);
    }
  }

  /** Filters whose conditions agree on every element give the same list. */
  lemma {:induction false} FilterSameCondition<T>(s: seq<T>, p: T -> bool, q: T -> bool)
    requires forall x :: p(x) == q(x)
    ensures Filter(s, p) == Filter(s, q)
  {
    if s != [] {
      FilterSameCondition(s[1..], p, q);
    }
  }

  /** `if on: s = [x for x in s if p(x)]`: one optional filter of a query. */
  function When<T>(s: seq<T>, on: bool, p: T -> bool): seq<T> {
    if on then Filter(s, p) else s
  }

  /** A chain of optional filters is one filter on the conjunction of the
      conditions that are switched on: extending a filter on `sofar` with a
      further optional condition gives a filter on `next`. */
  lemma WhenFilter<T>(s: seq<T>, sofar: T -> bool, on: bool, p: T -> bool, next: T -> bool)
    requires forall x :: next(x) == (sofar(x) && (on ==> p(x)))
    ensures When(Filter(s, sofar), on, p) == Filter(s, next)
  {
    if on {
      FilterFilter(s, sofar, p, next);
    } else {
      FilterSameCondition(s, sofar, next);
    }
  }

  /** The start of such a chain: the unfiltered list. */
  lemma FilterNothing<T>(s: seq<T>, all: T -> bool)
    requires forall x :: all(x)
    ensures Filter(s, all) == s
  {
    FilterKeepsAll(s, all);
  }

  /** `s[offset:offset + limit]` for a non-negative offset and limit: Python
      clamps both ends to the length of `s`. */
  function Slice<T>(s: seq<T>, offset: nat, limit: nat): (r: seq<T>)
    ensures |r| == if offset >= |s| then 0 else Min(limit, |s| - offset)
    ensures forall i :: 0 <= i < |r| ==> r[i] == s[offset + i]
  {
    if offset >= |s| then [] else s[offset..offset + Min(limit, |s| - offset)]
  }

  function Min(a: int, b: int): int { if a <= b then a else b }
}
