// Report rows computed by formula: parse, order, evaluate, and what the resulting amounts are.
module FormulaRows {
  import opened Wrappers
  import opened Seqs
  import opened Ordering
  import opened FormulaText
  import opened TopologicalSort
  import opened EvaluationOrder

  type Formulas = map<string, string>

  function ParseAll(formulas: Formulas): Table<string> {
    map row | row in formulas :: ParseDependencies(formulas[row])
  }

  /** The formula rows of a report in evaluation order, or the rows that form cycles or hang on one. */
  method OrderFormulas(keys: seq<string>, formulas: Formulas) returns (r: Result<seq<string>, seq<string>>)
    requires Distinct(keys) && (forall k :: k in keys <==> k in formulas)
    ensures r.Success? <==> Acyclic(ParseAll(formulas))
    ensures r.Success? ==> ValidOrder(ParseAll(formulas), r.value)
    ensures r.Success? ==> forall other | ValidOrder(ParseAll(formulas), other) ::
      LeastAtDifference(Lexicographic(), r.value, other)
    ensures r.Failure? ==> r.error != [] && Stuck(ParseAll(formulas), r.error)
  {
    var table := ParseAll(formulas);
    LexicographicIsLinear();
    r := TopologicalOrder(keys, table, Lexicographic());
    ghost var greedy :| Greedy(table, Lexicographic(), greedy) && r == Answer(keys, greedy);
    OrderContract(table, Lexicographic(), keys, greedy);
    OrderFits(table, Lexicographic(), keys, greedy);
    LeftoversAreStuck(table, Lexicographic(), keys, greedy);
  }

  // ----- amounts -----

  /** Each row in turn is evaluated on the amounts known by then and added to them. */
  function Resolved(formulas: Formulas, order: seq<string>, amounts: map<string, real>, literal: string -> real): map<string, real>
    requires forall row | row in order :: row in formulas
  {
    if order == [] then amounts
    else
      var row := order[|order| - 1];
      var before := Resolved(formulas, order[..|order| - 1], amounts, literal);
      before[row := Value(formulas[row], before, literal)]
  }

  method ResolveRows(formulas: Formulas, order: seq<string>, leaves: map<string, real>, literal: string -> real)
    returns (amounts: map<string, real>)
    requires forall row | row in order :: row in formulas
    ensures amounts == Resolved(formulas, order, leaves, literal)
  {
    amounts := leaves;
    for i := 0 to |order|
      invariant amounts == Resolved(formulas, order[..i], leaves, literal)
    {
      assert order[..i + 1][..i] == order[..i];
      var amount := Evaluate(formulas[order[i]], amounts, literal);
      amounts := amounts[order[i] := amount];
    }
    assert order[..|order|] == order;
  }

  /** Amounts in which every leaf keeps its own and every formula row equals the value of its formula. */
  ghost predicate Solves(formulas: Formulas, leaves: map<string, real>, literal: string -> real, amounts: map<string, real>) {
    && amounts.Keys == leaves.Keys + formulas.Keys
    && (forall row | row in leaves :: amounts[row] == leaves[row])
    && (forall row {:trigger Value(formulas[row], amounts, literal)} | row in formulas ::
          amounts[row] == Value(formulas[row], amounts, literal))
  }

  /** Every formula row that this row's formula reads is among its reported dependencies. */
  ghost predicate ReportsReads(formulas: Formulas, row: string)
    requires row in formulas
  {
    forall t | t in Operands(formulas[row]) && t in formulas :: t in ParseDependencies(formulas[row])
  }

  ghost predicate Readable(formulas: Formulas) {
    forall row {:trigger ReportsReads(formulas, row)} | row in formulas :: ReportsReads(formulas, row)
  }

  /** What is enough for a report's author to see to: names apart in every formula, and no formula row named like
      a number. */
  lemma WellSpacedIsReadable(formulas: Formulas)
    requires forall row | row in formulas :: WellSpaced(formulas[row]) && !IsNumeral(row)
    ensures Readable(formulas)
  {
    forall row | row in formulas ensures ReportsReads(formulas, row) {
      forall t | t in Operands(formulas[row]) && t in formulas ensures t in ParseDependencies(formulas[row]) {
        OperandIsReported(formulas[row], t);
      }
    }
  }

  lemma {:induction false} ResolvedKeeps(formulas: Formulas, order: seq<string>, leaves: map<string, real>, literal: string -> real)
    requires forall row | row in order :: row in formulas
    requires leaves.Keys !! formulas.Keys
    ensures var amounts := Resolved(formulas, order, leaves, literal);
      && amounts.Keys == leaves.Keys + Elements(order)
      && forall row | row in leaves :: amounts[row] == leaves[row]
  {
    if order != [] {
      ResolvedKeeps(formulas, order[..|order| - 1], leaves, literal);
      assert order == order[..|order| - 1] + [order[|order| - 1]];
    }
  }

  /** Later rows never change the amount of an earlier one. */
  lemma {:induction false} ResolvedGrows(formulas: Formulas, order: seq<string>, n: nat, leaves: map<string, real>,
                                         literal: string -> real, key: string)
    requires forall row | row in order :: row in formulas
    requires leaves.Keys !! formulas.Keys && Distinct(order) && n <= |order|
    ensures var early, late := Resolved(formulas, order[..n], leaves, literal), Resolved(formulas, order, leaves, literal);
      && (key !in order[n..] ==> AgreeOn(early, late, key))
  {
    if n == |order| {
      assert order[..n] == order;
    } else {
      var m := |order| - 1;
      ResolvedGrows(formulas, order[..m], n, leaves, literal, key);
      assert order[..m][..n] == order[..n];
      assert order[n..] == order[..m][n..] + [order[m]];
    }
  }

  lemma PlacedEarlierOnly(order: seq<string>, n: nat, key: string)
    requires Distinct(order) && n <= |order| && key in order[..n]
    ensures key !in order[n..]
  {
    var i :| 0 <= i < n && order[..n][i] == key;
    assert order[i] == key;
  }

  lemma RowsInTable(formulas: Formulas, order: seq<string>)
    requires ValidOrder(ParseAll(formulas), order)
    ensures forall row :: row in order <==> row in formulas
    ensures Elements(order) == formulas.Keys
  {
    forall row ensures row in order <==> row in formulas {
      assert row in ParseAll(formulas) <==> row in formulas;
    }
  }

  /** What a row reads is no formula row, or an earlier one. */
  lemma ReadsEarlierRows(formulas: Formulas, order: seq<string>, n: nat, key: string)
    requires ValidOrder(ParseAll(formulas), order) && n < |order| && Readable(formulas)
    requires order[n] in formulas
    requires key in Operands(formulas[order[n]])
    ensures key in formulas ==> key in order[..n]
    ensures key !in order[n..]
  {
    var table := ParseAll(formulas);
    if key in formulas {
      assert ReportsReads(formulas, order[n]);
      assert UsesOnly(table, order[n], order[..n]);
      assert InTable(table)(key) && key in Dependencies(table, order[n]);
      PlacedEarlierOnly(order, n, key);
    } else {
      RowsInTable(formulas, order);
    }
  }

  lemma RowStable(formulas: Formulas, order: seq<string>, n: nat, leaves: map<string, real>, literal: string -> real)
    requires ValidOrder(ParseAll(formulas), order) && leaves.Keys !! formulas.Keys && Readable(formulas) && n < |order|
    requires forall row | row in order :: row in formulas
    ensures Value(formulas[order[n]], Resolved(formulas, order[..n], leaves, literal), literal)
         == Value(formulas[order[n]], Resolved(formulas, order, leaves, literal), literal)
  {
    var before, final := Resolved(formulas, order[..n], leaves, literal), Resolved(formulas, order, leaves, literal);
    var text := formulas[order[n]];
    forall key | key in Operands(text) ensures AgreeOn(before, final, key) {
      ReadsEarlierRows(formulas, order, n, key);
      ResolvedGrows(formulas, order, n, leaves, literal, key);
    }
    ValueDependsOnOperands(text, before, final, literal);
  }

  lemma RowEquation(formulas: Formulas, order: seq<string>, n: nat, leaves: map<string, real>, literal: string -> real)
    requires ValidOrder(ParseAll(formulas), order) && leaves.Keys !! formulas.Keys && Readable(formulas) && n < |order|
    requires forall row | row in order :: row in formulas
    ensures var final := Resolved(formulas, order, leaves, literal);
      order[n] in final && final[order[n]] == Value(formulas[order[n]], final, literal)
  {
    var row := order[n];
    RowStable(formulas, order, n, leaves, literal);
    assert order[..n + 1][..n] == order[..n] && order[..n + 1][n] == row;
    assert row in order[..n + 1];
    PlacedEarlierOnly(order, n + 1, row);
    ResolvedGrows(formulas, order, n + 1, leaves, literal, row);
  }

  /** Evaluating in a valid order solves all row equations at once. */
  lemma ResolvedSolves(formulas: Formulas, order: seq<string>, leaves: map<string, real>, literal: string -> real)
    requires ValidOrder(ParseAll(formulas), order) && leaves.Keys !! formulas.Keys && Readable(formulas)
    ensures forall row | row in order :: row in formulas
    ensures Solves(formulas, leaves, literal, Resolved(formulas, order, leaves, literal))
  {
    RowsInTable(formulas, order);
    var final := Resolved(formulas, order, leaves, literal);
    ResolvedKeeps(formulas, order, leaves, literal);
    forall row | row in formulas ensures final[row] == Value(formulas[row], final, literal) {
      assert row in Elements(order);
      var n: nat :| n < |order| && order[n] == row;
      RowEquation(formulas, order, n, leaves, literal);
    }
  }

  ghost predicate AgreeBefore(order: seq<string>, n: nat, a: map<string, real>, b: map<string, real>) {
    forall i | 0 <= i < n && i < |order| :: AgreeOn(a, b, order[i])
  }

  lemma AgreeFurther(order: seq<string>, n: nat, a: map<string, real>, b: map<string, real>)
    requires n < |order| && AgreeBefore(order, n, a, b) && AgreeOn(a, b, order[n])
    ensures AgreeBefore(order, n + 1, a, b)
  {
    forall i | 0 <= i < n + 1 ensures AgreeOn(a, b, order[i]) {
      assert i < n || i == n;
    }
  }

  lemma RowsAgree(formulas: Formulas, order: seq<string>, leaves: map<string, real>, literal: string -> real,
                  a: map<string, real>, b: map<string, real>, n: nat)
    requires ValidOrder(ParseAll(formulas), order) && leaves.Keys !! formulas.Keys && Readable(formulas)
    requires Solves(formulas, leaves, literal, a) && Solves(formulas, leaves, literal, b)
    requires n < |order| && AgreeBefore(order, n, a, b)
    ensures AgreeOn(a, b, order[n])
  {
    RowsInTable(formulas, order);
    var row := order[n];
    forall key | key in Operands(formulas[row]) ensures AgreeOn(a, b, key) {
      ReadsEarlierRows(formulas, order, n, key);
      if key in formulas {
        var i :| 0 <= i < n && order[..n][i] == key;
        assert AgreeOn(a, b, order[i]);
      }
    }
    ValueDependsOnOperands(formulas[row], a, b, literal);
  }

  /** Two solutions cannot differ first at any place of a valid order. */
  lemma {:induction false} SolutionsAgree(formulas: Formulas, order: seq<string>, leaves: map<string, real>, literal: string -> real,
                                          a: map<string, real>, b: map<string, real>, n: nat)
    requires ValidOrder(ParseAll(formulas), order) && leaves.Keys !! formulas.Keys && Readable(formulas)
    requires Solves(formulas, leaves, literal, a) && Solves(formulas, leaves, literal, b)
    requires n <= |order|
    ensures AgreeBefore(order, n, a, b)
    decreases n
  {
    if n > 0 {
      SolutionsAgree(formulas, order, leaves, literal, a, b, n - 1);
      RowsAgree(formulas, order, leaves, literal, a, b, n - 1);
      AgreeFurther(order, n - 1, a, b);
    }
  }

  lemma SolutionIsUnique(formulas: Formulas, order: seq<string>, leaves: map<string, real>, literal: string -> real,
                         a: map<string, real>, b: map<string, real>)
    requires ValidOrder(ParseAll(formulas), order) && leaves.Keys !! formulas.Keys && Readable(formulas)
    requires Solves(formulas, leaves, literal, a) && Solves(formulas, leaves, literal, b)
    ensures a == b
  {
    SolutionsAgree(formulas, order, leaves, literal, a, b, |order|);
    forall row | row in a ensures a[row] == b[row] {
      if row in formulas {
        assert row in ParseAll(formulas);
        var i :| 0 <= i < |order| && order[i] == row;
        assert AgreeOn(a, b, order[i]);
      }
    }
  }

  /** The amounts of a report are the one solution of its row equations, whichever valid order was used. */
  lemma AnyOrderSameAmounts(formulas: Formulas, order: seq<string>, other: seq<string>, leaves: map<string, real>,
                            literal: string -> real, amounts: map<string, real>)
    requires ValidOrder(ParseAll(formulas), order) && ValidOrder(ParseAll(formulas), other)
    requires leaves.Keys !! formulas.Keys && Readable(formulas)
    ensures (forall row | row in order :: row in formulas) && (forall row | row in other :: row in formulas)
    ensures Resolved(formulas, order, leaves, literal) == Resolved(formulas, other, leaves, literal)
    ensures Solves(formulas, leaves, literal, amounts) <==> amounts == Resolved(formulas, order, leaves, literal)
  {
    ResolvedSolves(formulas, order, leaves, literal);
    ResolvedSolves(formulas, other, leaves, literal);
    SolutionIsUnique(formulas, order, leaves, literal, Resolved(formulas, order, leaves, literal),
                     Resolved(formulas, other, leaves, literal));
    if Solves(formulas, leaves, literal, amounts) {
      SolutionIsUnique(formulas, order, leaves, literal, amounts, Resolved(formulas, order, leaves, literal));
    }
  }
}
