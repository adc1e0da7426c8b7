// Rounding to the cent, and splitting an amount so that the last share absorbs all rounding.
module Rounding {
  import opened Seqs

  /** n/d to the nearest whole, a tie going away from zero; whole units are taken off one by one. */
  function RoundHalfUp(n: int, d: int): int
    requires d > 0
    decreases n < 0, if n < 0 then -n else n
  {
    if n < 0 then -RoundHalfUp(-n, d)
    else if 2 * n < d then 0
    else if n < d then 1
    else 1 + RoundHalfUp(n - d, d)
  }

  /** No further than half a unit from n/d, and of two equally near not the one nearer to zero. */
  predicate Nearest(n: int, d: int, r: int) {
    -d <= 2 * (n - r * d) <= d && (2 * (n - r * d) == d ==> n < 0) && (2 * (n - r * d) == -d ==> n >= 0)
  }

  lemma Mirrored(n: int, d: int, r: int)
    requires n > 0 && Nearest(n, d, r)
    ensures Nearest(-n, d, -r)
  {
    assert -r * d == -(r * d);
  }

  lemma Shifted(n: int, d: int, r: int)
    requires n >= 0 && Nearest(n, d, r)
    ensures Nearest(n + d, d, r + 1)
  {
    assert (r + 1) * d == r * d + d;
  }

  lemma {:induction false} RoundsToNearest(n: int, d: int)
    requires d > 0
    ensures Nearest(n, d, RoundHalfUp(n, d))
    ensures n >= 0 ==> RoundHalfUp(n, d) >= 0
    decreases n < 0, if n < 0 then -n else n
  {
    if n < 0 {
      RoundsToNearest(-n, d);
      Mirrored(-n, d, RoundHalfUp(-n, d));
    } else if n >= d {
      RoundsToNearest(n - d, d);
      Shifted(n - d, d, RoundHalfUp(n - d, d));
    }
  }

  lemma Below(a: int, b: int, d: int)
    requires a < b && d > 0
    ensures a * d + d <= b * d
  {
    assert b * d == a * d + d + (b - a - 1) * d;
  }

  /** There is exactly one such number. */
  lemma RoundHalfUpIff(n: int, d: int, r: int)
    requires d > 0
    ensures r == RoundHalfUp(n, d) <==> Nearest(n, d, r)
  {
    var q := RoundHalfUp(n, d);
    RoundsToNearest(n, d);
    if q < r {
      Below(q, r, d);
    } else if r < q {
      Below(r, q, d);
    }
  }

  function Itself(): int -> int {
    (x: int) => x
  }

  function Total(s: seq<int>): int {
    SumBy(s, Itself())
  }

  lemma TotalAppend(a: seq<int>, x: int)
    ensures Total(a + [x]) == Total(a) + x
  {
    SumAppend(a, [x], Itself());
  }

  lemma {:induction false} OnesAddUp(ones: seq<int>)
    requires forall i | 0 <= i < |ones| :: ones[i] == 1
    ensures Total(ones) == |ones|
  {
    if ones != [] {
      OnesAddUp(ones[1..]);
    }
  }

  /** The shares before the last, each rounded on its own. */
  function Rounded(amount: int, parts: seq<int>, whole: int): (r: seq<int>)
    requires whole > 0
    ensures |r| == |parts|
  {
    if parts == [] then []
    else
      var n := |parts| - 1;
      Rounded(amount, parts[..n], whole) + [RoundHalfUp(amount * parts[n], whole)]
  }

  /** Shares of the amount in proportion parts[i] : whole, the last being whatever is left. */
  function Split(amount: int, parts: seq<int>, whole: int): seq<int>
    requires whole > 0
  {
    if parts == [] then []
    else
      var before := Rounded(amount, parts[..|parts| - 1], whole);
      before + [amount - Total(before)]
  }

  lemma RoundedNext(amount: int, parts: seq<int>, whole: int, i: nat)
    requires whole > 0 && i < |parts|
    ensures Rounded(amount, parts[..i + 1], whole) == Rounded(amount, parts[..i], whole) + [RoundHalfUp(amount * parts[i], whole)]
    ensures Total(Rounded(amount, parts[..i + 1], whole))
         == Total(Rounded(amount, parts[..i], whole)) + RoundHalfUp(amount * parts[i], whole)
  {
    TotalAppend(Rounded(amount, parts[..i], whole), RoundHalfUp(amount * parts[i], whole));
    assert parts[..i + 1][..i] == parts[..i];
  }

  lemma {:induction false} RoundedAt(amount: int, parts: seq<int>, whole: int, i: nat)
    requires whole > 0 && i < |parts|
    ensures Rounded(amount, parts, whole)[i] == RoundHalfUp(amount * parts[i], whole)
  {
    if i < |parts| - 1 {
      RoundedAt(amount, parts[..|parts| - 1], whole, i);
    }
  }

  /** Nothing is lost: the shares add up to the amount. */
  lemma SplitSums(amount: int, parts: seq<int>, whole: int)
    requires whole > 0 && parts != []
    ensures |Split(amount, parts, whole)| == |parts|
    ensures Total(Split(amount, parts, whole)) == amount
  {
    var before := Rounded(amount, parts[..|parts| - 1], whole);
    TotalAppend(before, amount - Total(before));
  }

  /** Twice the whole times the error of a share: how far it is from exact, in units free of division. */
  function Drift(amount: int, part: int, whole: int, share: int): int {
    2 * (whole * share - amount * part)
  }

  /** Every share before the last is within half a cent of its proportion. */
  lemma SplitNear(amount: int, parts: seq<int>, whole: int, i: nat)
    requires whole > 0 && i + 1 < |parts|
    ensures |Split(amount, parts, whole)| == |parts|
    ensures -whole <= Drift(amount, parts[i], whole, Split(amount, parts, whole)[i]) <= whole
  {
    RoundedNear(amount, parts[i], whole);
    RoundedAt(amount, parts[..|parts| - 1], whole, i);
  }

  lemma DriftAdds(amount: int, p: int, q: int, whole: int, t: int, r: int)
    ensures Drift(amount, p + q, whole, t + r) == Drift(amount, p, whole, t) + Drift(amount, q, whole, r)
  {
    assert amount * (p + q) == amount * p + amount * q;
    assert whole * (t + r) == whole * t + whole * r;
  }

  lemma RoundedNear(amount: int, part: int, whole: int)
    requires whole > 0
    ensures -whole <= Drift(amount, part, whole, RoundHalfUp(amount * part, whole)) <= whole
  {
    var r := RoundHalfUp(amount * part, whole);
    RoundsToNearest(amount * part, whole);
    assert r * whole == whole * r;
  }

  lemma OneMoreShare(amount: int, parts: seq<int>, whole: int, n: nat)
    requires whole > 0 && n < |parts|
    requires -(n * whole) <= Drift(amount, Total(parts[..n]), whole, Total(Rounded(amount, parts[..n], whole))) <= n * whole
    ensures -((n + 1) * whole) <= Drift(amount, Total(parts[..n + 1]), whole, Total(Rounded(amount, parts[..n + 1], whole)))
         <= (n + 1) * whole
  {
    var r := RoundHalfUp(amount * parts[n], whole);
    RoundedNear(amount, parts[n], whole);
    RoundedNext(amount, parts, whole, n);
    assert parts[..n + 1] == parts[..n] + [parts[n]];
    TotalAppend(parts[..n], parts[n]);
    DriftAdds(amount, Total(parts[..n]), parts[n], whole, Total(Rounded(amount, parts[..n], whole)), r);
    Multiple(n, whole);
  }

  lemma Multiple(n: int, whole: int)
    ensures (n + 1) * whole == n * whole + whole
  {}

  /** Rounding n shares moves their total by at most n half cents. */
  lemma {:induction false} RoundedDrift(amount: int, parts: seq<int>, whole: int, n: nat)
    requires whole > 0 && n <= |parts|
    ensures -(n * whole) <= Drift(amount, Total(parts[..n]), whole, Total(Rounded(amount, parts[..n], whole))) <= n * whole
  {
    if n == 0 {
      assert Total(parts[..0]) == 0 && Total(Rounded(amount, parts[..0], whole)) == 0;
    } else {
      RoundedDrift(amount, parts, whole, n - 1);
      OneMoreShare(amount, parts, whole, n - 1);
    }
  }

  /** What all shares but one have too much, the one has too little. */
  lemma DriftBalances(amount: int, p: int, q: int, whole: int, t: int, r: int)
    requires p + q == whole && t + r == amount
    ensures Drift(amount, q, whole, r) == -Drift(amount, p, whole, t)
  {
    DriftAdds(amount, p, q, whole, t, r);
    assert whole * amount == amount * whole;
  }

  /** When the parts make up the whole, the last share is within (n - 1) / 2 cents of its proportion. */
  lemma SplitLast(amount: int, parts: seq<int>, whole: int)
    requires whole > 0 && parts != [] && Total(parts) == whole
    ensures |Split(amount, parts, whole)| == |parts|
    ensures var n := |parts|;
      -((n - 1) * whole) <= Drift(amount, parts[n - 1], whole, Split(amount, parts, whole)[n - 1]) <= (n - 1) * whole
  {
    var n := |parts|;
    RoundedDrift(amount, parts, whole, n - 1);
    assert parts == parts[..n - 1] + [parts[n - 1]];
    TotalAppend(parts[..n - 1], parts[n - 1]);
    var p, t := Total(parts[..n - 1]), Total(Rounded(amount, parts[..n - 1], whole));
    assert p + parts[n - 1] == whole;
    DriftBalances(amount, p, parts[n - 1], whole, t, amount - t);
  }

  lemma NotNegative(whole: int, x: int)
    requires whole > 0 && whole * x >= 0
    ensures x >= 0
  {}

  /** Shares of a non-negative amount are not negative before the last, nor last when its proportion is worth
      at least (n - 1) / 2 cents. */
  lemma SplitNotNegative(amount: int, parts: seq<int>, whole: int, i: nat)
    requires whole > 0 && Total(parts) == whole && i < |parts| && amount >= 0
    requires forall k | 0 <= k < |parts| :: parts[k] >= 0
    requires i + 1 < |parts| || 2 * (amount * parts[i]) >= (|parts| - 1) * whole
    ensures i < |Split(amount, parts, whole)| && Split(amount, parts, whole)[i] >= 0
  {
    if i + 1 < |parts| {
      assert amount * parts[i] >= 0;
      RoundsToNearest(amount * parts[i], whole);
      RoundedAt(amount, parts[..|parts| - 1], whole, i);
    } else {
      SplitLast(amount, parts, whole);
      NotNegative(whole, Split(amount, parts, whole)[i]);
    }
  }
}
