// Filtering and summing of table rows, and the algebra the proofs need.
module Seqs {
  function Filter<T>(s: seq<T>, p: T -> bool): (r: seq<T>)
    ensures forall x :: x in r ==> x in s && p(x)
    ensures forall x :: x in s && p(x) ==> x in r
  {
    if s == [] then [] else if p(s[0]) then [s[0]] + Filter(s[1..], p) else Filter(s[1..], p)
  }

  /** The negation of a row test. */
  function Except<T>(p: T -> bool): T -> bool {
    x => !p(x)
  }

  ghost predicate Distinct<T>(s: seq<T>) {
    forall i, j :: 0 <= i < j < |s| ==> s[i] != s[j]
  }

  function SumBy<T>(s: seq<T>, f: T -> int): int {
    if s == [] then 0 else f(s[0]) + SumBy(s[1..], f)
  }

  lemma {:induction false} FilterAppend<T>(a: seq<T>, b: seq<T>, p: T -> bool)
    ensures Filter(a + b, p) == Filter(a, p) + Filter(b, p)
  {
    if a == [] {
      assert a + b == b;
    } else {
      assert (a + b)[1..] == a[1..] + b;
      FilterAppend(a[1..], b, p);
    }
  }

  lemma {:induction false} FilterAll<T>(s: seq<T>, p: T -> bool)
    requires forall x :: x in s ==> p(x)
    ensures Filter(s, p) == s
  {
    if s != [] {
      FilterAll(s[1..], p);
    }
  }

  lemma {:induction false} FilterNone<T>(s: seq<T>, p: T -> bool)
    requires forall x :: x in s ==> !p(x)
    ensures Filter(s, p) == []
  {
    if s != [] {
      FilterNone(s[1..], p);
    }
  }

  lemma FilterSkips<T>(skipped: seq<T>, s: seq<T>, p: T -> bool)
    requires forall x :: x in skipped ==> !p(x)
    ensures Filter(skipped + s, p) == Filter(s, p) && Filter(s + skipped, p) == Filter(s, p)
  {
    FilterAppend(skipped, s, p);
    FilterAppend(s, skipped, p);
    FilterNone(skipped, p);
    assert [] + Filter(s, p) == Filter(s, p) && Filter(s, p) + [] == Filter(s, p);
  }

  /** A test that holds on a contiguous part and nowhere else selects that part. */
  lemma {:induction false} FilterSlice<T>(s: seq<T>, i: nat, j: nat, p: T -> bool)
    requires i <= j <= |s|
    requires forall k | 0 <= k < |s| :: p(s[k]) <==> i <= k < j
    ensures Filter(s, p) == s[i..j]
  {
    if s != [] {
      var a, b := if i > 0 then i - 1 else 0, if j > 0 then j - 1 else 0;
      assert forall k | 0 <= k < |s| - 1 :: s[1..][k] == s[k + 1];
      FilterSlice(s[1..], a, b, p);
      assert p(s[0]) <==> i == 0 && j > 0;
      assert s[i..j] == if i == 0 && j > 0 then [s[0]] + s[1..][a..b] else s[1..][a..b];
    }
  }

  /** Two tests that agree on the rows select the same rows. */
  lemma {:induction false} FilterSame<T>(s: seq<T>, p: T -> bool, q: T -> bool)
    requires forall x :: x in s ==> p(x) == q(x)
    ensures Filter(s, p) == Filter(s, q)
  {
    if s != [] {
      FilterSame(s[1..], p, q);
    }
  }

  /** Selecting by a weaker test first changes nothing. */
  lemma {:induction false} FilterWithin<T>(s: seq<T>, p: T -> bool, q: T -> bool)
    requires forall x :: x in s && q(x) ==> p(x)
    ensures Filter(Filter(s, p), q) == Filter(s, q)
  {
    if s != [] {
      FilterWithin(s[1..], p, q);
    }
  }

  /** Two selections can be made in either order. */
  lemma {:induction false} FilterCommutes<T>(s: seq<T>, p: T -> bool, q: T -> bool)
    ensures Filter(Filter(s, p), q) == Filter(Filter(s, q), p)
  {
    if s != [] {
      FilterCommutes(s[1..], p, q);
    }
  }

  lemma {:induction false} FilterLength<T>(s: seq<T>, p: T -> bool)
    ensures |Filter(s, p)| <= |s|
    ensures (exists x :: x in s && !p(x)) ==> |Filter(s, p)| < |s|
  {
    if s != [] {
      FilterLength(s[1..], p);
    }
  }

  lemma {:induction false} SumAppend<T>(a: seq<T>, b: seq<T>, f: T -> int)
    ensures SumBy(a + b, f) == SumBy(a, f) + SumBy(b, f)
  {
    if a == [] {
      assert a + b == b;
    } else {
      assert (a + b)[1..] == a[1..] + b;
      SumAppend(a[1..], b, f);
    }
  }

  /** Every row is counted either on one side of a test or on the other. */
  lemma {:induction false} SumPartition<T>(s: seq<T>, p: T -> bool, f: T -> int)
    ensures SumBy(s, f) == SumBy(Filter(s, p), f) + SumBy(Filter(s, Except(p)), f)
  {
    if s != [] {
      SumPartition(s[1..], p, f);
    }
  }

  /** Rows outside the test contribute nothing, so only the selected rows matter. */
  lemma {:induction false} SumOverFilter<T>(s: seq<T>, p: T -> bool, f: T -> int)
    requires forall x :: x in s && !p(x) ==> f(x) == 0
    ensures SumBy(s, f) == SumBy(Filter(s, p), f)
  {
    if s != [] {
      SumOverFilter(s[1..], p, f);
    }
  }

  /** Row-for-row equal terms have equal sums. */
  lemma {:induction false} SumMatching<A, B>(a: seq<A>, b: seq<B>, f: A -> int, g: B -> int)
    requires |a| == |b|
    requires forall i :: 0 <= i < |a| ==> f(a[i]) == g(b[i])
    ensures SumBy(a, f) == SumBy(b, g)
  {
    if a != [] {
      assert f(a[0]) == g(b[0]);
      SumMatching(a[1..], b[1..], f, g);
    }
  }

  /** Sums are linear in the term. */
  lemma {:induction false} SumLinear<T>(s: seq<T>, f: T -> int, g: T -> int, k: int, h: T -> int)
    requires forall x :: x in s ==> h(x) == f(x) + k * g(x)
    ensures SumBy(s, h) == SumBy(s, f) + k * SumBy(s, g)
  {
    if s != [] {
      assert s[0] in s;
      SumLinear(s[1..], f, g, k, h);
    }
  }

  lemma {:induction false} SumZero<T>(s: seq<T>, f: T -> int)
    requires forall x :: x in s ==> f(x) == 0
    ensures SumBy(s, f) == 0
  {
    if s != [] {
      assert s[0] in s;
      SumZero(s[1..], f);
    }
  }

  function Elements<T(==)>(s: seq<T>): set<T> {
    set x | x in s
  }

  lemma {:induction false} DistinctCardinality<T>(s: seq<T>)
    ensures |Elements(s)| <= |s|
    ensures Distinct(s) ==> |Elements(s)| == |s|
  {
    if s != [] {
      DistinctCardinality(s[1..]);
      assert Elements(s) == {s[0]} + Elements(s[1..]);
      if Distinct(s) {
        assert Distinct(s[1..]);
        assert s[0] !in s[1..];
      }
    }
  }

  lemma SubsetFits<T>(a: set<T>, b: set<T>)
    requires a <= b
    ensures |a| <= |b|
  {
    assert b == a + (b - a);
  }

  /** Pigeonholes: distinct elements drawn from a list are no more than the list is long. */
  lemma DistinctFits<T>(a: seq<T>, b: seq<T>)
    requires Distinct(a) && forall x | x in a :: x in b
    ensures |a| <= |b|
  {
    DistinctCardinality(a);
    DistinctCardinality(b);
    SubsetFits(Elements(a), Elements(b));
  }

  lemma {:induction false} FilterDistinct<T>(s: seq<T>, p: T -> bool)
    requires Distinct(s)
    ensures Distinct(Filter(s, p))
  {
    if s != [] {
      FilterDistinct(s[1..], p);
      assert s[0] !in s[1..];
    }
  }

  /** Updating one row changes the sum by the difference of its terms. */
  lemma {:induction false} SumUpdated<T>(s: seq<T>, i: nat, x: T, f: T -> int)
    requires i < |s|
    ensures SumBy(s[i := x], f) == SumBy(s, f) - f(s[i]) + f(x)
  {
    if i > 0 {
      assert s[i := x][1..] == s[1..][i - 1 := x];
      SumUpdated(s[1..], i - 1, x, f);
    } else {
      assert s[i := x][1..] == s[1..];
    }
  }

  /** Term by term no larger, in total no larger. */
  lemma {:induction false} SumMonotone<T>(a: seq<T>, b: seq<T>, f: T -> int, g: T -> int)
    requires |a| == |b| && forall i | 0 <= i < |a| :: f(a[i]) <= g(b[i])
    ensures SumBy(a, f) <= SumBy(b, g)
  {
    if a != [] {
      assert f(a[0]) <= g(b[0]);
      SumMonotone(a[1..], b[1..], f, g);
    }
  }

  function Without<T>(s: seq<T>, k: nat): seq<T>
    requires k < |s|
  {
    s[..k] + s[k + 1..]
  }

  lemma SumWithout<T>(s: seq<T>, k: nat, f: T -> int)
    requires k < |s|
    ensures SumBy(s, f) == f(s[k]) + SumBy(Without(s, k), f)
  {
    assert s == s[..k] + s[k..];
    SumAppend(s[..k], s[k..], f);
    SumAppend(s[..k], s[k + 1..], f);
  }

  lemma MultisetWithout<T>(s: seq<T>, k: nat)
    requires k < |s|
    ensures multiset(Without(s, k)) == multiset(s) - multiset{s[k]}
  {
    assert s == s[..k] + ([s[k]] + s[k + 1..]);
  }

  /** A sum does not depend on the order of the rows. */
  lemma {:induction false} SumPermuted<T>(a: seq<T>, b: seq<T>, f: T -> int)
    requires multiset(a) == multiset(b)
    ensures SumBy(a, f) == SumBy(b, f)
    decreases |a|
  {
    if a == [] {
      assert |multiset(b)| == 0;
    } else {
      assert a[0] in multiset(b);
      var k :| 0 <= k < |b| && b[k] == a[0];
      MultisetWithout(a, 0);
      MultisetWithout(b, k);
      SumPermuted(Without(a, 0), Without(b, k), f);
      SumWithout(a, 0, f);
      SumWithout(b, k, f);
    }
  }

  // ----- counting -----

  ghost function Occurrences<T>(s: seq<T>, x: T): nat {
    multiset(s)[x]
  }

  lemma CountOne<T>(s: seq<T>, x: T, y: T)
    ensures Occurrences(s + [x], y) == Occurrences(s, y) + (if x == y then 1 else 0)
    ensures Occurrences([x] + s, y) == Occurrences(s, y) + (if x == y then 1 else 0)
    ensures Occurrences(s, x) > 0 <==> x in s
  {
    assert x in s <==> x in multiset(s);
  }

  lemma TwiceCounts<T>(s: seq<T>, i: nat, j: nat)
    requires i < j < |s| && s[i] == s[j]
    ensures Occurrences(s, s[i]) >= 2
  {
    assert s == s[..j] + s[j..];
    assert s[i] in s[..j] && s[j] in s[j..];
    assert s[i] in multiset(s[..j]) && s[j] in multiset(s[j..]);
  }

  lemma {:induction false} OnceCounts<T>(s: seq<T>, x: T)
    requires Distinct(s)
    ensures Occurrences(s, x) <= 1
  {
    if s != [] {
      OnceCounts(s[1..], x);
      CountOne(s[1..], s[0], x);
      assert s == [s[0]] + s[1..];
      if s[0] == x {
        assert x !in s[1..];
        CountOne(s[1..], x, x);
      }
    }
  }
}
