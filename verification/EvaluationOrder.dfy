// What the sorted-queue order is: it exists exactly on acyclic tables, puts every operand first, is the
// least such order, and does not depend on how the table was filled.
module EvaluationOrder {
  import opened Wrappers
  import opened Seqs
  import opened Ordering
  import opened TopologicalSort

  /** All rows, each once, each after the rows it uses. */
  ghost predicate ValidOrder<T(!new)>(table: Table<T>, order: seq<T>) {
    && SameElements(order, table)
    && forall i {:trigger UsesOnly(table, order[i], order[..i])} | 0 <= i < |order| :: UsesOnly(table, order[i], order[..i])
  }

  ghost predicate UsesOnly<T>(table: Table<T>, row: T, placed: seq<T>) {
    row in table && forall d | d in Dependencies(table, row) :: d in placed
  }

  /** A closed walk along dependencies. */
  ghost predicate Cycle<T>(table: Table<T>, walk: seq<T>) {
    && |walk| >= 2 && walk[0] == walk[|walk| - 1]
    && forall i | 0 <= i < |walk| - 1 :: DependsOn(table, walk, i)
  }

  ghost predicate DependsOn<T>(table: Table<T>, walk: seq<T>, i: int)
    requires 0 <= i < |walk| - 1
  {
    walk[i] in table && walk[i + 1] in Dependencies(table, walk[i])
  }

  ghost predicate Acyclic<T(!new)>(table: Table<T>) {
    forall walk :: !Cycle(table, walk)
  }

  // ----- determinacy -----

  lemma {:induction false} SamePrefix<T(!new)>(table: Table<T>, le: (T, T) -> bool, a: seq<T>, b: seq<T>, n: nat)
    requires Linear(le) && TakenInTurn(table, le, a) && TakenInTurn(table, le, b)
    requires n <= |a| && n <= |b|
    ensures a[..n] == b[..n]
  {
    if n > 0 {
      SamePrefix(table, le, a, b, n - 1);
      assert IsLeastReady(table, le, a[..n - 1], a[n - 1]);
      assert IsLeastReady(table, le, b[..n - 1], b[n - 1]);
      assert le(a[n - 1], b[n - 1]) && le(b[n - 1], a[n - 1]);
      assert a[..n] == a[..n - 1] + [a[n - 1]] && b[..n] == b[..n - 1] + [b[n - 1]];
    }
  }

  lemma NextIsReady<T(!new)>(table: Table<T>, le: (T, T) -> bool, order: seq<T>, n: nat)
    requires TakenInTurn(table, le, order) && n < |order|
    ensures IsReady(table, order[..n], order[n])
  {
    assert IsLeastReady(table, le, order[..n], order[n]);
  }

  /** The greedy order is a function of the table alone. */
  lemma GreedyIsUnique<T(!new)>(table: Table<T>, le: (T, T) -> bool, a: seq<T>, b: seq<T>)
    requires Linear(le) && Greedy(table, le, a) && Greedy(table, le, b)
    ensures a == b
  {
    var n: nat := if |a| <= |b| then |a| else |b|;
    SamePrefix(table, le, a, b, n);
    assert a[..|a|] == a && b[..|b|] == b;
    if |a| < |b| {
      NextIsReady(table, le, b, n);
    } else if |b| < |a| {
      NextIsReady(table, le, a, n);
    }
  }

  /** Filling the table in another order of rows gives the same answer, and the same unresolved rows. */
  lemma InsertionOrderIsIrrelevant<T(!new)>(table: Table<T>, le: (T, T) -> bool, keys: seq<T>, other: seq<T>,
                                            a: seq<T>, b: seq<T>)
    requires Linear(le) && SameElements(keys, table) && SameElements(other, table)
    requires Greedy(table, le, a) && Greedy(table, le, b)
    ensures a == b && (|a| == |keys| <==> |b| == |other|)
    ensures forall row :: row in Filter(keys, NotIn(a)) <==> row in Filter(other, NotIn(b))
  {
    GreedyIsUnique(table, le, a, b);
    DistinctFits(keys, other);
    DistinctFits(other, keys);
    forall row ensures row in Filter(keys, NotIn(a)) <==> row in Filter(other, NotIn(b)) {
      assert row in keys <==> row in other;
      assert row in Filter(keys, NotIn(a)) <==> row in keys && NotIn(a)(row);
    }
  }

  // ----- validity and leastness -----

  lemma FullIsValid<T(!new)>(table: Table<T>, le: (T, T) -> bool, keys: seq<T>, order: seq<T>)
    requires SameElements(keys, table) && TakenInTurn(table, le, order) && |order| == |keys|
    ensures ValidOrder(table, order)
  {
    TakenOnce(table, le, order);
    forall row | row in order ensures row in keys {
      PlacedIsDone(table, le, order, row);
    }
    forall row | row in keys ensures row in order {
      if row !in order {
        var longer := order + [row];
        assert Distinct(longer);
        DistinctFits(longer, keys);
      }
    }
    forall i | 0 <= i < |order| ensures UsesOnly(table, order[i], order[..i]) {
      assert IsLeastReady(table, le, order[..i], order[i]);
    }
  }

  /** The lists agree up to some place, where the first one has the smaller row, or they are equal. */
  ghost predicate LeastAtDifference<T>(le: (T, T) -> bool, a: seq<T>, b: seq<T>) {
    a == b || exists i :: DiffersFirst(le, a, b, i)
  }

  ghost predicate DiffersFirst<T>(le: (T, T) -> bool, a: seq<T>, b: seq<T>, i: int) {
    0 <= i < |a| && i < |b| && a[..i] == b[..i] && a[i] != b[i] && le(a[i], b[i])
  }

  lemma {:induction false} FirstDifference<T>(a: seq<T>, b: seq<T>) returns (i: nat)
    requires |a| == |b| && a != b
    ensures i < |a| && a[..i] == b[..i] && a[i] != b[i]
  {
    if a[0] != b[0] {
      return 0;
    }
    assert a == [a[0]] + a[1..] && b == [b[0]] + b[1..];
    var k := FirstDifference(a[1..], b[1..]);
    i := k + 1;
    assert a[..i] == [a[0]] + a[1..][..k] && b[..i] == [b[0]] + b[1..][..k];
  }

  /** Among all valid orders the returned one is lexicographically least. */
  lemma GreedyIsLeast<T(!new)>(table: Table<T>, le: (T, T) -> bool, order: seq<T>, other: seq<T>)
    requires TakenInTurn(table, le, order) && ValidOrder(table, order) && ValidOrder(table, other)
    ensures LeastAtDifference(le, order, other)
  {
    DistinctFits(order, other);
    DistinctFits(other, order);
    if order != other {
      var i := FirstDifference(order, other);
      assert IsLeastReady(table, le, order[..i], order[i]);
      assert UsesOnly(table, other[i], other[..i]);
      assert other[i] !in other[..i];
      assert IsReady(table, order[..i], other[i]);
      assert DiffersFirst(le, order, other, i);
    }
  }

  // ----- cycles -----

  lemma {:induction false} WalkDescends<T(!new)>(table: Table<T>, order: seq<T>, walk: seq<T>, i: nat, p: nat) returns (q: nat)
    requires ValidOrder(table, order)
    requires |walk| >= 2 && forall k | 0 <= k < |walk| - 1 :: DependsOn(table, walk, k)
    requires 0 < i < |walk| && p < |order| && order[p] == walk[0]
    ensures q < p && order[q] == walk[i]
    decreases i
  {
    var before := p;
    if i > 1 {
      before := WalkDescends(table, order, walk, i - 1, p);
    }
    assert DependsOn(table, walk, i - 1);
    assert UsesOnly(table, order[before], order[..before]);
    assert walk[i] in order[..before];
    q :| 0 <= q < before && order[..before][q] == walk[i];
  }

  /** A valid order leaves no room for a cycle. */
  lemma OrderedIsAcyclic<T(!new)>(table: Table<T>, order: seq<T>)
    requires ValidOrder(table, order)
    ensures Acyclic(table)
  {
    forall walk ensures !Cycle(table, walk) {
      if Cycle(table, walk) {
        assert DependsOn(table, walk, 0);
        assert walk[0] in order;
        var p :| 0 <= p < |order| && order[p] == walk[0];
        var q := WalkDescends(table, order, walk, |walk| - 1, p);
      }
    }
  }

  ghost predicate UsesOneOf<T>(table: Table<T>, row: T, rows: seq<T>) {
    row in table && exists d :: d in rows && d in Dependencies(table, row)
  }

  /** Every row of the list uses another row of the list. */
  ghost predicate Stuck<T>(table: Table<T>, rows: seq<T>) {
    forall row {:trigger UsesOneOf(table, row, rows)} | row in rows :: UsesOneOf(table, row, rows)
  }

  lemma {:induction false} LongWalk<T>(table: Table<T>, rows: seq<T>, n: nat) returns (walk: seq<T>)
    requires Stuck(table, rows) && rows != []
    ensures |walk| == n + 1 && forall row | row in walk :: row in rows
    ensures forall i | 0 <= i < n :: DependsOn(table, walk, i)
  {
    if n == 0 {
      return [rows[0]];
    }
    var shorter := LongWalk(table, rows, n - 1);
    var last := shorter[n - 1];
    assert UsesOneOf(table, last, rows);
    var d :| d in rows && d in Dependencies(table, last);
    walk := shorter + [d];
    forall i | 0 <= i < n ensures DependsOn(table, walk, i) {
      if i < n - 1 {
        assert DependsOn(table, shorter, i);
      }
    }
  }

  /** A walk longer than the set it stays in meets itself. */
  lemma StuckMeansCycle<T>(table: Table<T>, rows: seq<T>) returns (walk: seq<T>)
    requires Stuck(table, rows) && rows != []
    ensures Cycle(table, walk)
  {
    var long := LongWalk(table, rows, |rows|);
    if Distinct(long) {
      DistinctFits(long, rows);
    }
    var i, j :| 0 <= i < j < |long| && long[i] == long[j];
    walk := long[i..j + 1];
    forall k | 0 <= k < |walk| - 1 ensures DependsOn(table, walk, k) {
      assert DependsOn(table, long, i + k);
    }
  }

  /** When nothing more is ready and rows are left, those rows are stuck. */
  lemma LeftoversAreStuck<T(!new)>(table: Table<T>, le: (T, T) -> bool, keys: seq<T>, order: seq<T>)
    requires SameElements(keys, table) && Greedy(table, le, order)
    ensures Stuck(table, Filter(keys, NotIn(order)))
    ensures |order| < |keys| ==> Filter(keys, NotIn(order)) != []
  {
    var rows := Filter(keys, NotIn(order));
    forall row | row in rows ensures UsesOneOf(table, row, rows) {
      assert row in keys && NotIn(order)(row);
      assert !IsReady(table, order, row);
      var d :| d in Dependencies(table, row) && d !in order;
      assert InTable(table)(d);
      assert d in keys && NotIn(order)(d);
      assert d in rows;
    }
    if |order| < |keys| && rows == [] {
      forall row | row in keys ensures row in order {
        assert !NotIn(order)(row);
      }
      DistinctFits(keys, order);
    }
  }

  /** The algorithm succeeds exactly on acyclic tables; on the others the reported rows contain a cycle. */
  lemma SucceedsIffAcyclic<T(!new)>(table: Table<T>, le: (T, T) -> bool, keys: seq<T>, order: seq<T>)
    requires SameElements(keys, table) && Greedy(table, le, order)
    ensures |order| == |keys| <==> Acyclic(table)
  {
    OrderFits(table, le, keys, order);
    if |order| == |keys| {
      FullIsValid(table, le, keys, order);
      OrderedIsAcyclic(table, order);
    } else {
      LeftoversAreStuck(table, le, keys, order);
      var walk := StuckMeansCycle(table, Filter(keys, NotIn(order)));
    }
  }

  /** The whole contract of the order in one place. */
  lemma OrderContract<T(!new)>(table: Table<T>, le: (T, T) -> bool, keys: seq<T>, order: seq<T>)
    requires Linear(le) && SameElements(keys, table) && Greedy(table, le, order)
    ensures |order| == |keys| <==> Acyclic(table)
    ensures Acyclic(table) ==> ValidOrder(table, order)
    ensures Acyclic(table) ==> forall other | ValidOrder(table, other) :: LeastAtDifference(le, order, other)
  {
    SucceedsIffAcyclic(table, le, keys, order);
    if Acyclic(table) {
      FullIsValid(table, le, keys, order);
      forall other | ValidOrder(table, other) ensures LeastAtDifference(le, order, other) {
        GreedyIsLeast(table, le, order, other);
      }
    }
  }
}
