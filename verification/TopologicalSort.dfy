// Kahn's algorithm with a sorted queue, over any table of rows and their operands.
module TopologicalSort {
  import opened Wrappers
  import opened Seqs
  import opened Ordering

  /** The operands of each row, with repetitions; an operand that is no row itself is a leaf. */
  type Table<T> = map<T, seq<T>>

  function InTable<T(==)>(table: Table<T>): T -> bool {
    (row: T) => row in table
  }

  /** The operands that are rows. */
  function Dependencies<T(==)>(table: Table<T>, row: T): seq<T>
    requires row in table
  {
    Filter(table[row], InTable(table))
  }

  function NotIn<T(==)>(placed: seq<T>): T -> bool {
    (row: T) => row !in placed
  }

  /** How many operands of a row still wait for their own turn. */
  ghost function Waiting<T>(table: Table<T>, row: T, placed: seq<T>): nat
    requires row in table
  {
    |Filter(Dependencies(table, row), NotIn(placed))|
  }

  // ----- the specification: always take the least row that is ready -----

  ghost predicate IsReady<T>(table: Table<T>, placed: seq<T>, row: T) {
    row in table && row !in placed && forall d | d in Dependencies(table, row) :: d in placed
  }

  ghost predicate IsLeastReady<T(!new)>(table: Table<T>, le: (T, T) -> bool, placed: seq<T>, row: T) {
    IsReady(table, placed, row) && forall other | IsReady(table, placed, other) :: le(row, other)
  }

  /** Every row of the list was the least ready one at its turn. */
  ghost predicate TakenInTurn<T(!new)>(table: Table<T>, le: (T, T) -> bool, order: seq<T>) {
    forall i {:trigger IsLeastReady(table, le, order[..i], order[i])} | 0 <= i < |order| ::
      IsLeastReady(table, le, order[..i], order[i])
  }

  /** Only the table decides this list: no order of insertion enters. */
  ghost predicate Greedy<T(!new)>(table: Table<T>, le: (T, T) -> bool, order: seq<T>) {
    TakenInTurn(table, le, order) && forall row :: !IsReady(table, order, row)
  }

  // ----- the graph -----

  ghost predicate SameElements<T(!new)>(keys: seq<T>, table: Table<T>) {
    Distinct(keys) && forall k :: k in keys <==> k in table
  }

  /** From each row to the rows that use it, once per use, for the users handled so far. */
  ghost predicate HasEdges<T(!new)>(table: Table<T>, done: seq<T>, dependents: map<T, seq<T>>) {
    && dependents.Keys == table.Keys
    && (forall d, row {:trigger Occurrences(dependents[d], row)} | d in table && row in table ::
          Occurrences(dependents[d], row) == if row in done then Occurrences(Dependencies(table, row), d) else 0)
    && (forall d, row {:trigger row in dependents[d]} | d in table && row in dependents[d] :: row in table)
  }

  ghost predicate HasDegrees<T(!new)>(table: Table<T>, done: seq<T>, inDegree: map<T, int>) {
    && inDegree.Keys == table.Keys
    && forall row | row in table :: inDegree[row] == if row in done then |Dependencies(table, row)| else 0
  }

  /** The lists while the uses of one row are being added. */
  ghost predicate Adding<T(!new)>(table: Table<T>, row: T, seen: seq<T>, before: map<T, seq<T>>, now: map<T, seq<T>>) {
    && now.Keys == table.Keys == before.Keys
    && (forall d, r {:trigger Occurrences(now[d], r)} | d in table && r in table :: Occurrences(now[d], r) ==
          if r == row then Occurrences(Filter(seen, InTable(table)), d) else Occurrences(before[d], r))
    && (forall d, r {:trigger r in now[d]} | d in table && r in now[d] :: r in table)
  }

  lemma FilterOne<T>(s: seq<T>, x: T, p: T -> bool)
    ensures Filter(s + [x], p) == if p(x) then Filter(s, p) + [x] else Filter(s, p)
  {
    FilterAppend(s, [x], p);
    assert Filter(s, p) + [] == Filter(s, p);
  }

  lemma OneMoreUser<T(!new)>(table: Table<T>, row: T, seen: seq<T>, dep: T, before: map<T, seq<T>>, now: map<T, seq<T>>, d: T, r: T)
    requires row in table && dep in table && Adding(table, row, seen, before, now) && d in table && r in table
    ensures Occurrences(now[dep := now[dep] + [row]][d], r) ==
      if r == row then Occurrences(Filter(seen + [dep], InTable(table)), d) else Occurrences(before[d], r)
  {
    FilterOne(seen, dep, InTable(table));
    CountOne(now[d], row, r);
    CountOne(Filter(seen, InTable(table)), dep, d);
  }

  lemma UserKnown<T(!new)>(table: Table<T>, row: T, dep: T, now: map<T, seq<T>>, d: T, r: T)
    requires row in table && dep in now && d in now && (r in now[d] ==> r in table) && r in now[dep := now[dep] + [row]][d]
    ensures r in table
  {}

  lemma AddingStep<T(!new)>(table: Table<T>, row: T, seen: seq<T>, dep: T, before: map<T, seq<T>>, now: map<T, seq<T>>)
    requires row in table && dep in table && Adding(table, row, seen, before, now)
    ensures Adding(table, row, seen + [dep], before, now[dep := now[dep] + [row]])
  {
    var next := now[dep := now[dep] + [row]];
    forall d, r | d in table && r in table
      ensures Occurrences(next[d], r) ==
        if r == row then Occurrences(Filter(seen + [dep], InTable(table)), d) else Occurrences(before[d], r)
    {
      OneMoreUser(table, row, seen, dep, before, now, d, r);
    }
    forall d, r | d in table && r in next[d] ensures r in table {
      UserKnown(table, row, dep, now, d, r);
    }
  }

  method AddRow<T(==, !new)>(table: Table<T>, ghost done: seq<T>, row: T, inDegree0: map<T, int>, dependents0: map<T, seq<T>>)
    returns (inDegree: map<T, int>, dependents: map<T, seq<T>>)
    requires row in table && row !in done
    requires HasDegrees(table, done, inDegree0) && HasEdges(table, done, dependents0)
    ensures HasDegrees(table, done + [row], inDegree) && HasEdges(table, done + [row], dependents)
  {
    inDegree, dependents := inDegree0, dependents0;
    var operands := table[row];
    assert Filter(operands[..0], InTable(table)) == [];
    for j := 0 to |operands|
      invariant inDegree.Keys == table.Keys
      invariant forall r | r in table ::
        inDegree[r] == if r == row then |Filter(operands[..j], InTable(table))| else inDegree0[r]
      invariant Adding(table, row, operands[..j], dependents0, dependents)
    {
      var dep := operands[j];
      FilterOne(operands[..j], dep, InTable(table));
      assert operands[..j + 1] == operands[..j] + [dep];
      if dep in table {
        AddingStep(table, row, operands[..j], dep, dependents0, dependents);
        dependents := dependents[dep := dependents[dep] + [row]];
        inDegree := inDegree[row := inDegree[row] + 1];
      }
    }
    assert operands[..|operands|] == operands;
  }

  method BuildGraph<T(==, !new)>(keys: seq<T>, table: Table<T>)
    returns (inDegree: map<T, int>, dependents: map<T, seq<T>>)
    requires SameElements(keys, table)
    ensures HasDegrees(table, keys, inDegree) && HasEdges(table, keys, dependents)
  {
    inDegree := map k | k in table :: 0;
    dependents := map k | k in table :: [];
    for i := 0 to |keys|
      invariant HasDegrees(table, keys[..i], inDegree) && HasEdges(table, keys[..i], dependents)
    {
      inDegree, dependents := AddRow(table, keys[..i], keys[i], inDegree, dependents);
      assert keys[..i + 1] == keys[..i] + [keys[i]];
    }
    assert keys[..|keys|] == keys;
  }

  // ----- counting what waits -----

  lemma {:induction false} PlacingOne<T>(s: seq<T>, placed: seq<T>, row: T)
    requires row !in placed
    ensures |Filter(s, NotIn(placed))| == |Filter(s, NotIn(placed + [row]))| + Occurrences(s, row)
  {
    if s != [] {
      PlacingOne(s[1..], placed, row);
      CountOne(s[1..], s[0], row);
      assert s == [s[0]] + s[1..];
    }
  }

  lemma NothingWaits<T>(table: Table<T>, row: T, placed: seq<T>)
    requires row in table
    ensures Waiting(table, row, placed) == 0 <==> forall d | d in Dependencies(table, row) :: d in placed
  {
    var waiting := Filter(Dependencies(table, row), NotIn(placed));
    if |waiting| > 0 {
      assert waiting[0] in waiting && NotIn(placed)(waiting[0]);
    }
    if d :| d in Dependencies(table, row) && d !in placed {
      assert NotIn(placed)(d) && d in waiting;
    }
  }

  lemma PlacedIsDone<T(!new)>(table: Table<T>, le: (T, T) -> bool, order: seq<T>, row: T)
    requires TakenInTurn(table, le, order) && row in order
    ensures row in table && forall d | d in Dependencies(table, row) :: d in order
  {
    var i :| 0 <= i < |order| && order[i] == row;
    assert IsLeastReady(table, le, order[..i], order[i]);
  }

  lemma TakenOnce<T(!new)>(table: Table<T>, le: (T, T) -> bool, order: seq<T>)
    requires TakenInTurn(table, le, order)
    ensures Distinct(order)
  {
    forall i, j | 0 <= i < j < |order| ensures order[i] != order[j] {
      assert IsLeastReady(table, le, order[..j], order[j]);
      assert order[..j][i] == order[i];
    }
  }

  // ----- the queue -----

  ghost predicate IsQueue<T>(queue: seq<T>, le: (T, T) -> bool) {
    Distinct(queue) && Sorted(queue, le)
  }

  lemma Requeued<T(!new)>(s: seq<T>, le: (T, T) -> bool)
    requires Ranking(le) && Distinct(s)
    ensures IsQueue(Sort(s, le), le)
    ensures forall x :: x in Sort(s, le) <==> x in s
  {
    SortSorted(s, le);
    SortDistinct(s, le);
  }

  // ----- one round of the main loop -----

  /** What holds between two rounds. */
  ghost predicate Between<T(!new)>(table: Table<T>, le: (T, T) -> bool, inDegree: map<T, int>, queue: seq<T>, order: seq<T>) {
    && inDegree.Keys == table.Keys
    && (forall row | row in table :: inDegree[row] == Waiting(table, row, order))
    && IsQueue(queue, le)
    && (forall row :: row in queue <==> IsReady(table, order, row))
    && TakenInTurn(table, le, order)
  }

  /** Inside a round: the current row is placed, and `rest` are its users still to be told. */
  ghost predicate Telling<T(!new)>(table: Table<T>, le: (T, T) -> bool, inDegree: map<T, int>, queue: seq<T>,
                                   placed: seq<T>, rest: seq<T>) {
    && inDegree.Keys == table.Keys
    && (forall row | row in table :: inDegree[row] == Waiting(table, row, placed) + Occurrences(rest, row))
    && IsQueue(queue, le)
    && (forall row :: row in queue <==> row in table && row !in placed && inDegree[row] == 0)
    && (forall row | row in rest :: row in table && row !in placed)
  }

  lemma FrontIsLeast<T(!new)>(table: Table<T>, le: (T, T) -> bool, inDegree: map<T, int>, queue: seq<T>, order: seq<T>)
    requires Ranking(le) && Between(table, le, inDegree, queue, order) && queue != []
    ensures IsLeastReady(table, le, order, queue[0])
  {
    assert queue[0] in queue;
    forall other | IsReady(table, order, other) ensures le(queue[0], other) {
      assert other in queue;
      var k :| 0 <= k < |queue| && queue[k] == other;
      assert k > 0 ==> le(queue[0], queue[k]);
    }
  }

  lemma UsersAreOpen<T(!new)>(table: Table<T>, le: (T, T) -> bool, order: seq<T>, current: T, users: seq<T>, row: T)
    requires TakenInTurn(table, le, order) && IsReady(table, order, current)
    requires row in users && row in table
    requires Occurrences(users, row) == Occurrences(Dependencies(table, row), current)
    ensures row !in order + [current]
  {
    CountOne(users, row, row);
    CountOne(Dependencies(table, row), current, current);
    assert current in Dependencies(table, row);
    if row in order {
      PlacedIsDone(table, le, order, row);
    }
  }

  lemma ShorterQueue<T>(queue: seq<T>, le: (T, T) -> bool)
    requires IsQueue(queue, le) && queue != []
    ensures IsQueue(queue[1..], le) && queue[0] !in queue[1..]
    ensures forall x :: x in queue <==> x == queue[0] || x in queue[1..]
  {
    assert queue == [queue[0]] + queue[1..];
  }

  /** Taking the front row out leaves exactly the others whose count is zero. */
  lemma QueueOfOthers<T(!new)>(table: Table<T>, le: (T, T) -> bool, inDegree: map<T, int>, queue: seq<T>, order: seq<T>, row: T)
    requires Between(table, le, inDegree, queue, order) && queue != []
    ensures row in queue[1..] <==> row in table && row !in order + [queue[0]] && inDegree[row] == 0
  {
    ShorterQueue(queue, le);
    assert row in queue <==> IsReady(table, order, row);
    if row in table {
      NothingWaits(table, row, order);
    }
  }

  lemma CountsAfterPlacing<T(!new)>(table: Table<T>, order: seq<T>, current: T, users: seq<T>, row: T)
    requires row in table && current !in order
    requires Occurrences(users, row) == Occurrences(Dependencies(table, row), current)
    ensures Waiting(table, row, order) == Waiting(table, row, order + [current]) + Occurrences(users, row)
  {
    PlacingOne(Dependencies(table, row), order, current);
  }

  lemma StartTelling<T(!new)>(table: Table<T>, le: (T, T) -> bool, inDegree: map<T, int>, queue: seq<T>, order: seq<T>,
                              users: seq<T>)
    requires Ranking(le) && Between(table, le, inDegree, queue, order) && queue != []
    requires forall row {:trigger Occurrences(users, row)} | row in table ::
      Occurrences(users, row) == Occurrences(Dependencies(table, row), queue[0])
    requires forall row | row in users :: row in table
    ensures Telling(table, le, inDegree, queue[1..], order + [queue[0]], users)
  {
    var current := queue[0];
    var placed := order + [current];
    FrontIsLeast(table, le, inDegree, queue, order);
    ShorterQueue(queue, le);
    forall row | row in table ensures inDegree[row] == Waiting(table, row, placed) + Occurrences(users, row) {
      CountsAfterPlacing(table, order, current, users, row);
    }
    forall row ensures row in queue[1..] <==> row in table && row !in placed && inDegree[row] == 0 {
      QueueOfOthers(table, le, inDegree, queue, order, row);
    }
    forall row | row in users ensures row !in placed {
      UsersAreOpen(table, le, order, current, users, row);
    }
  }

  lemma EndTelling<T(!new)>(table: Table<T>, le: (T, T) -> bool, inDegree: map<T, int>, queue: seq<T>, order: seq<T>, current: T)
    requires TakenInTurn(table, le, order)
    requires IsLeastReady(table, le, order, current)
    requires Telling(table, le, inDegree, queue, order + [current], [])
    ensures Between(table, le, inDegree, queue, order + [current])
  {
    var placed := order + [current];
    forall row ensures row in queue <==> IsReady(table, placed, row) {
      if row in table {
        NothingWaits(table, row, placed);
      }
    }
    forall i | 0 <= i < |placed| ensures IsLeastReady(table, le, placed[..i], placed[i]) {
      assert placed[..i] == if i < |order| then order[..i] else order;
    }
  }

  /** One user told: its count drops, and it joins the sorted queue exactly when nothing else is missing. */
  method Tell<T(==, !new)>(table: Table<T>, le: (T, T) -> bool, inDegree0: map<T, int>, queue0: seq<T>,
                           ghost placed: seq<T>, user: T, ghost rest: seq<T>)
    returns (inDegree: map<T, int>, queue: seq<T>)
    requires Ranking(le) && Telling(table, le, inDegree0, queue0, placed, [user] + rest)
    ensures Telling(table, le, inDegree, queue, placed, rest)
  {
    assert user in [user] + rest;
    forall row ensures Occurrences([user] + rest, row) == Occurrences(rest, row) + (if user == row then 1 else 0) {
      CountOne(rest, user, row);
    }
    var remaining := inDegree0[user] - 1;
    inDegree, queue := inDegree0[user := remaining], queue0;
    if remaining == 0 {
      assert user !in queue0;
      Requeued(queue0 + [user], le);
      queue := Sort(queue0 + [user], le);
    }
    forall row | row in rest ensures row in table && row !in placed {
      assert row in [user] + rest;
    }
  }

  function WithoutInput<T(==)>(inDegree: map<T, int>): T -> bool {
    (n: T) => n in inDegree && inDegree[n] == 0
  }

  lemma StartQueue<T(!new)>(table: Table<T>, le: (T, T) -> bool, keys: seq<T>, inDegree: map<T, int>)
    requires Ranking(le) && SameElements(keys, table) && HasDegrees(table, keys, inDegree)
    ensures Between(table, le, inDegree, Sort(Filter(keys, WithoutInput(inDegree)), le), [])
  {
    var initial := Filter(keys, WithoutInput(inDegree));
    FilterDistinct(keys, WithoutInput(inDegree));
    Requeued(initial, le);
    forall row | row in table ensures inDegree[row] == Waiting(table, row, []) {
      FilterAll(Dependencies(table, row), NotIn([]));
    }
    forall row ensures row in initial <==> IsReady(table, [], row) {
      assert row in initial <==> row in keys && WithoutInput(inDegree)(row);
      if row in table {
        NothingWaits(table, row, []);
      }
    }
  }

  method TellAll<T(==, !new)>(table: Table<T>, le: (T, T) -> bool, inDegree0: map<T, int>, queue0: seq<T>,
                              ghost placed: seq<T>, users: seq<T>)
    returns (inDegree: map<T, int>, queue: seq<T>)
    requires Ranking(le) && Telling(table, le, inDegree0, queue0, placed, users)
    ensures Telling(table, le, inDegree, queue, placed, [])
  {
    inDegree, queue := inDegree0, queue0;
    assert users[0..] == users;
    for j := 0 to |users|
      invariant Telling(table, le, inDegree, queue, placed, users[j..])
    {
      assert users[j..] == [users[j]] + users[j + 1..];
      inDegree, queue := Tell(table, le, inDegree, queue, placed, users[j], users[j + 1..]);
    }
    assert users[|users|..] == [];
  }

  /** One round: the front of the queue is placed and its users are told. */
  method PlaceNext<T(==, !new)>(table: Table<T>, le: (T, T) -> bool, ghost keys: seq<T>, dependents: map<T, seq<T>>,
                                inDegree0: map<T, int>, queue0: seq<T>, order0: seq<T>)
    returns (inDegree: map<T, int>, queue: seq<T>, order: seq<T>)
    requires Ranking(le) && SameElements(keys, table) && HasEdges(table, keys, dependents)
    requires Between(table, le, inDegree0, queue0, order0) && queue0 != []
    ensures Between(table, le, inDegree, queue, order)
    ensures order == order0 + [queue0[0]]
  {
    var current := queue0[0];
    assert current in queue0;
    FrontIsLeast(table, le, inDegree0, queue0, order0);
    StartTelling(table, le, inDegree0, queue0, order0, dependents[current]);
    order := order0 + [current];
    inDegree, queue := TellAll(table, le, inDegree0, queue0[1..], order, dependents[current]);
    EndTelling(table, le, inDegree, queue, order0, current);
  }

  /** What is returned when the queue has run empty. */
  function Answer<T(==)>(keys: seq<T>, order: seq<T>): Result<seq<T>, seq<T>> {
    if |order| == |keys| then Success(order) else Failure(Filter(keys, NotIn(order)))
  }

  /** Either all rows in greedy order, or the rows that never became ready. */
  method TopologicalOrder<T(==, !new)>(keys: seq<T>, table: Table<T>, le: (T, T) -> bool)
    returns (r: Result<seq<T>, seq<T>>)
    requires Ranking(le) && SameElements(keys, table)
    ensures exists greedy :: Greedy(table, le, greedy) && r == Answer(keys, greedy)
  {
    var inDegree, dependents := BuildGraph(keys, table);
    StartQueue(table, le, keys, inDegree);
    var queue := Sort(Filter(keys, WithoutInput(inDegree)), le);
    var order: seq<T> := [];
    while queue != []
      invariant Between(table, le, inDegree, queue, order)
      decreases |keys| - |order|
    {
      inDegree, queue, order := PlaceNext(table, le, keys, dependents, inDegree, queue, order);
      OrderFits(table, le, keys, order);
    }
    r := if |order| != |keys| then Failure(Filter(keys, NotIn(order))) else Success(order);
    assert Greedy(table, le, order) && r == Answer(keys, order);
  }

  lemma OrderFits<T(!new)>(table: Table<T>, le: (T, T) -> bool, keys: seq<T>, order: seq<T>)
    requires SameElements(keys, table) && TakenInTurn(table, le, order)
    ensures |order| <= |keys|
  {
    TakenOnce(table, le, order);
    forall row | row in order ensures row in keys {
      PlacedIsDone(table, le, order, row);
    }
    DistinctFits(order, keys);
  }
}
