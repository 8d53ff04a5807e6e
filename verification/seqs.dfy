/** Order-preserving list operations the client code uses: `Array.filter`,
    removal of every occurrence of a value, and subsequences. */
module Seqs {

  /** `a` is `b` with some elements left out, in the same order. */
  predicate Subsequence<T(==)>(a: seq<T>, b: seq<T>)
    decreases |b|
  {
    |a| == 0 || (|b| > 0 && if a[0] == b[0] then Subsequence(a[1..], b[1..]) else Subsequence(a, b[1..]))
  }

  /** `Array.prototype.filter`. */
  function Keep<T>(xs: seq<T>, p: T -> bool): (r: seq<T>)
    ensures |r| <= |xs|
    ensures forall i :: 0 <= i < |r| ==> p(r[i])
    ensures forall i :: 0 <= i < |xs| && p(xs[i]) ==> xs[i] in r
    ensures forall x :: x in r ==> x in xs
  {
    if |xs| == 0 then [] else (if p(xs[0]) then [xs[0]] else []) + Keep(xs[1..], p)
  }

  /** A filter that no element passes keeps nothing. */
  lemma {:induction false} KeepNone<T>(xs: seq<T>, p: T -> bool)
    requires forall i :: 0 <= i < |xs| ==> !p(xs[i])
    ensures Keep(xs, p) == []
  {
    if |xs| > 0 {
      KeepNone(xs[1..], p);
    }
  }

  /** What `filter` keeps is a subsequence of its input. */
  lemma {:induction false} KeepSubsequence<T>(xs: seq<T>, p: T -> bool)
    ensures Subsequence(Keep(xs, p), xs)
  {
    if |xs| > 0 {
      KeepSubsequence(xs[1..], p);
      var r := Keep(xs, p);
      if p(xs[0]) {
        assert r[0] == xs[0] && r[1..] == Keep(xs[1..], p);
      } else {
        assert r == Keep(xs[1..], p);
        SubsequenceSkip(r, xs);
      }
    }
  }

  /** A subsequence of the tail is a subsequence of the whole list. */
  lemma {:induction false} SubsequenceSkip<T>(a: seq<T>, b: seq<T>)
    requires |b| > 0 && Subsequence(a, b[1..])
    ensures Subsequence(a, b)
    decreases |b|, 0
  {
    if |a| > 0 && a[0] == b[0] {
      assert |b[1..]| > 0;
      if a[0] == b[1..][0] {
        assert Subsequence(a[1..], b[1..][1..]);
        SubsequenceSkip(a[1..], b[1..]);
      } else {
        assert Subsequence(a, b[1..][1..]);
        SubsequenceDropHead(a, b[1..][1..]);
        assert Subsequence(a[1..], b[1..][1..]);
        SubsequenceSkip(a[1..], b[1..]);
      }
    }
  }

  /** Dropping the first element of a subsequence keeps it a subsequence. */
  lemma {:induction false} SubsequenceDropHead<T>(a: seq<T>, b: seq<T>)
    requires |a| > 0 && Subsequence(a, b)
    ensures Subsequence(a[1..], b)
    decreases |b|, 1
  {
    assert |b| > 0;
    if a[0] == b[0] {
      assert Subsequence(a[1..], b[1..]);
      SubsequenceSkip(a[1..], b);
    } else {
      assert Subsequence(a, b[1..]);
      SubsequenceDropHead(a, b[1..]);
      SubsequenceSkip(a[1..], b);
    }
  }

  /** Filtering by a predicate and by its negation splits the list: together
      the two results hold every element exactly as often as the input. */
  lemma {:induction false} KeepPartition<T>(xs: seq<T>, p: T -> bool, q: T -> bool)
    requires forall x :: q(x) == !p(x)
    ensures multiset(Keep(xs, p)) + multiset(Keep(xs, q)) == multiset(xs)
  {
    if |xs| > 0 {
      KeepPartition(xs[1..], p, q);
      assert xs == [xs[0]] + xs[1..];
    }
  }

  /** Filtering with predicates that agree everywhere gives the same list. */
  lemma {:induction false} KeepExtensional<T>(xs: seq<T>, p: T -> bool, q: T -> bool)
    requires forall x :: p(x) == q(x)
    ensures Keep(xs, p) == Keep(xs, q)
  {
    if |xs| > 0 {
      KeepExtensional(xs[1..], p, q);
    }
  }

  /** Two filters in a row are one filter by the conjunction. */
  lemma {:induction false} KeepKeep<T>(xs: seq<T>, p: T -> bool, q: T -> bool, both: T -> bool)
    requires forall x :: both(x) == (p(x) && q(x))
    ensures Keep(Keep(xs, p), q) == Keep(xs, both)
  {
    if |xs| > 0 {
      KeepKeep(xs[1..], p, q, both);
      var head := if p(xs[0]) then [xs[0]] else [];
      KeepAppend(head, Keep(xs[1..], p), q);
    }
  }

  /** Filtering distributes over concatenation. */
  lemma {:induction false} KeepAppend<T>(a: seq<T>, b: seq<T>, p: T -> bool)
    ensures Keep(a + b, p) == Keep(a, p) + Keep(b, p)
  {
    if |a| > 0 {
      assert (a + b)[1..] == a[1..] + b;
      KeepAppend(a[1..], b, p);
    } else {
      assert a + b == b;
    }
  }

  /** `xs.filter(y => y !== x)`: every occurrence of `x` removed, everything
      else kept, in order. */
  function RemoveAll<T(==)>(xs: seq<T>, x: T): (r: seq<T>)
    ensures x !in r
    ensures multiset(r) == multiset(xs)[x := 0]
  {
    if |xs| == 0 then []
    else
      var rest := RemoveAll(xs[1..], x);
      assert xs == [xs[0]] + xs[1..];
      if xs[0] == x then rest else [xs[0]] + rest
  }

  /** Removing every occurrence is `filter(y => y !== x)`: the elements
      that remain keep their order. */
  lemma {:induction false} RemoveAllIsFilter<T>(xs: seq<T>, x: T)
    ensures RemoveAll(xs, x) == Keep(xs, y => y != x)
  {
    if |xs| > 0 {
      RemoveAllIsFilter(xs[1..], x);
    }
  }

  /** Removing a value not present changes nothing. */
  lemma {:induction false} RemoveAbsent<T>(xs: seq<T>, x: T)
    requires x !in xs
    ensures RemoveAll(xs, x) == xs
  {
    if |xs| > 0 {
      assert x !in xs[1..];
      RemoveAbsent(xs[1..], x);
    }
  }

  /** Removing what was just appended gives back the list, when the value
      was not in it before. */
  lemma {:induction false} RemoveAppended<T>(xs: seq<T>, x: T)
    requires x !in xs
    ensures RemoveAll(xs + [x], x) == xs
  {
    if |xs| == 0 {
      assert RemoveAll([x], x) == RemoveAll([x][1..], x);
    } else {
      assert (xs + [x])[1..] == xs[1..] + [x];
      assert x !in xs[1..];
      RemoveAppended(xs[1..], x);
    }
  }
}
