// What each command of the posting engine demands, in the order in which it demands it, and what it leaves behind,
// read off the tables alone.
module LedgerCommands {
  import opened Wrappers
  import opened Seqs
  import opened Ledger

  // ----- validation -----

  /** A rule that was made for the account, is switched on and binding, and covers the date. */
  ghost predicate Binds(rule: DimensionRule, account: string, date: Date) {
    && rule.account == account && rule.active && rule.required
    && rule.validFrom <= date && (rule.validTo.Some? ==> date <= rule.validTo.value)
  }

  ghost predicate Carries(line: Line, definition: string) {
    exists k :: 0 <= k < |line.dimensions| && line.dimensions[k].definition == definition
  }

  /** The account is known, active and open to posting, and the line has every dimension the account requires that day. */
  ghost predicate Admissible(env: Env, line: Line, date: Date) {
    && line.account in env.accounts && env.accounts[line.account].active && env.accounts[line.account].postingAllowed
    && forall rule | rule in env.rules && Binds(rule, line.account, date) :: Carries(line, rule.definition)
  }

  ghost predicate AllAdmissible(env: Env, lines: seq<Line>, date: Date) {
    forall i | 0 <= i < |lines| :: Admissible(env, lines[i], date)
  }

  /** The error a line that is not admissible is refused with. */
  ghost predicate RefusedWith(env: Env, line: Line, date: Date, error: Error) {
    && !Admissible(env, line, date)
    && (line.account !in env.accounts <==> error == NotFound)
    && (line.account in env.accounts && !env.accounts[line.account].active <==> error == AccountInactive)
    && (line.account in env.accounts && env.accounts[line.account].active && !env.accounts[line.account].postingAllowed
        <==> error == AccountNotPostable)
    && (line.account in env.accounts && env.accounts[line.account].active && env.accounts[line.account].postingAllowed
        <==> error == DimensionRequired)
  }

  lemma LineIsChecked(env: Env, line: Line, date: Date)
    ensures match CheckLine(env, line, date)
            case None => Admissible(env, line, date)
            case Some(error) => RefusedWith(env, line, date, error)
  {
    forall rule | rule in env.rules ensures RuleApplies(rule, line.account, date) <==> Binds(rule, line.account, date)
                                    ensures CarriesDimension(line, rule.definition) <==> Carries(line, rule.definition)
    {
      forall k | 0 <= k < |line.dimensions| ensures line.dimensions[k] in line.dimensions {}
    }
  }

  ghost predicate FirstRefused(env: Env, lines: seq<Line>, date: Date, i: nat, error: Error) {
    i < |lines| && AllAdmissible(env, lines[..i], date) && RefusedWith(env, lines[i], date, error)
  }

  /** The error of the first line that is refused, if one is. */
  ghost predicate IsFirstProblem(env: Env, lines: seq<Line>, date: Date, problem: Option<Error>) {
    match problem
    case None => AllAdmissible(env, lines, date)
    case Some(error) => exists i: nat :: FirstRefused(env, lines, date, i, error)
  }

  lemma LaterProblem(env: Env, lines: seq<Line>, date: Date, problem: Option<Error>)
    requires lines != [] && Admissible(env, lines[0], date) && IsFirstProblem(env, lines[1..], date, problem)
    ensures IsFirstProblem(env, lines, date, problem)
  {
    if problem.Some? {
      var i: nat :| FirstRefused(env, lines[1..], date, i, problem.value);
      assert lines[..i + 1] == [lines[0]] + lines[1..][..i];
      assert FirstRefused(env, lines, date, i + 1, problem.value);
    } else {
      assert lines == [lines[0]] + lines[1..];
    }
  }

  lemma {:induction false} LinesAreChecked(env: Env, lines: seq<Line>, date: Date)
    ensures IsFirstProblem(env, lines, date, CheckLines(env, lines, date))
  {
    if lines != [] {
      var first := CheckLine(env, lines[0], date);
      LineIsChecked(env, lines[0], date);
      if first.Some? {
        assert FirstRefused(env, lines, date, 0, first.value);
        assert IsFirstProblem(env, lines, date, first);
      } else {
        LinesAreChecked(env, lines[1..], date);
        LaterProblem(env, lines, date, CheckLines(env, lines[1..], date));
      }
    }
  }

  /** Validation passes exactly when debits equal credits and every line is admissible. Otherwise the first line that is
      not decides the error, and only then the totals. */
  lemma ValidationPassesIff(env: Env, lines: seq<Line>, date: Date)
    ensures ValidateLines(env, lines, date) == None <==> Balanced(lines) && AllAdmissible(env, lines, date)
    ensures match ValidateLines(env, lines, date)
            case None => true
            case Some(error) =>
              if AllAdmissible(env, lines, date) then error == NotBalanced else IsFirstProblem(env, lines, date, Some(error))
  {
    LinesAreChecked(env, lines, date);
    if CheckLines(env, lines, date).Some? {
      var i: nat :| FirstRefused(env, lines, date, i, CheckLines(env, lines, date).value);
      assert !Admissible(env, lines[i], date);
    }
  }

  // ----- lines as they are stored -----

  ghost predicate Matches(definition: DimensionDefinition, key: string, byId: bool) {
    if byId then definition.id == key else definition.code == key
  }

  /** The last definition in the table with that code, or with that id. */
  ghost predicate IsDefinition(env: Env, key: string, byId: bool, definition: DimensionDefinition) {
    exists k :: 0 <= k < |env.definitions| && env.definitions[k] == definition && Matches(definition, key, byId)
      && forall j | k < j < |env.definitions| :: !Matches(env.definitions[j], key, byId)
  }

  ghost predicate Defined(env: Env, key: string, byId: bool) {
    exists k :: 0 <= k < |env.definitions| && Matches(env.definitions[k], key, byId)
  }

  lemma {:induction false} DefinitionFound(env: Env, n: nat, key: string, byId: bool)
    requires n <= |env.definitions| && forall j | n <= j < |env.definitions| :: !Matches(env.definitions[j], key, byId)
    ensures match FindDefinition(env.definitions[..n], key, byId)
            case None => !Defined(env, key, byId)
            case Some(definition) => IsDefinition(env, key, byId, definition) && Defined(env, key, byId)
    decreases n
  {
    if n > 0 {
      var last := env.definitions[n - 1];
      assert env.definitions[..n][|env.definitions[..n]| - 1] == last && env.definitions[..n][..n - 1] == env.definitions[..n - 1];
      if Matches(last, key, byId) {
        assert IsDefinition(env, key, byId, last);
      } else {
        DefinitionFound(env, n - 1, key, byId);
      }
    }
  }

  /** A stored dimension: the definition's id, its entity type or else its code, and what the caller gave. */
  ghost predicate StoredDimension(env: Env, given: DimensionInput, byId: bool, stored: Dimension) {
    exists definition :: IsDefinition(env, given.key, byId, definition)
      && stored.definition == definition.id && stored.reference == given.reference && stored.scalar == given.scalar
      && stored.referenceType == match definition.referenceEntityType case Some(entity) => entity case None => definition.code
  }

  ghost predicate StoredLine(env: Env, given: LineInput, byId: bool, stored: Line) {
    && stored.account == given.account && stored.side == given.side && stored.amount == given.amount
    && stored.detail == given.detail && stored.sourceLine == given.sourceLine
    && StoredDimensions(env, given.dimensions, byId, stored.dimensions)
  }

  ghost predicate StoredLines(env: Env, given: seq<LineInput>, byId: bool, stored: seq<Line>) {
    |stored| == |given| && forall i | 0 <= i < |given| :: StoredLine(env, given[i], byId, stored[i])
  }

  /** Every dimension named on a line is in the table. */
  ghost predicate AllDefined(env: Env, given: seq<DimensionInput>, byId: bool) {
    forall k | 0 <= k < |given| :: Defined(env, given[k].key, byId)
  }

  lemma FirstDefined(env: Env, given: seq<DimensionInput>, byId: bool)
    requires given != []
    ensures AllDefined(env, given, byId) <==> Defined(env, given[0].key, byId) && AllDefined(env, given[1..], byId)
  {
    if AllDefined(env, given, byId) {
      forall k | 0 <= k < |given[1..]| ensures Defined(env, given[1..][k].key, byId) {
        assert given[1..][k] == given[k + 1];
      }
    }
    if Defined(env, given[0].key, byId) && AllDefined(env, given[1..], byId) {
      forall k | 0 <= k < |given| ensures Defined(env, given[k].key, byId) {
        assert k > 0 ==> given[1..][k - 1] == given[k];
      }
    }
  }

  ghost predicate StoredDimensions(env: Env, given: seq<DimensionInput>, byId: bool, stored: seq<Dimension>) {
    |stored| == |given| && forall k | 0 <= k < |given| :: StoredDimension(env, given[k], byId, stored[k])
  }

  lemma OneMoreStored(env: Env, given: seq<DimensionInput>, byId: bool, first: Dimension, rest: seq<Dimension>)
    requires given != [] && StoredDimension(env, given[0], byId, first) && StoredDimensions(env, given[1..], byId, rest)
    ensures StoredDimensions(env, given, byId, [first] + rest)
  {
    forall k | 0 <= k < |given| ensures StoredDimension(env, given[k], byId, ([first] + rest)[k]) {
      if k > 0 {
        assert StoredDimension(env, given[1..][k - 1], byId, rest[k - 1]);
        assert given[1..][k - 1] == given[k] && ([first] + rest)[k] == rest[k - 1];
      }
    }
  }

  lemma {:induction false} DimensionsAreStored(env: Env, given: seq<DimensionInput>, byId: bool)
    ensures match WriteDimensions(env, given, byId)
            case Failure(error) => error == ValidationFailed && !AllDefined(env, given, byId)
            case Success(stored) => AllDefined(env, given, byId) && StoredDimensions(env, given, byId, stored)
  {
    if given != [] {
      DefinitionFound(env, |env.definitions|, given[0].key, byId);
      assert env.definitions[..|env.definitions|] == env.definitions;
      FirstDefined(env, given, byId);
      DimensionsAreStored(env, given[1..], byId);
      var stored := WriteDimensions(env, given, byId);
      if stored.Success? {
        assert StoredDimension(env, given[0], byId, stored.value[0]);
        OneMoreStored(env, given, byId, stored.value[0], WriteDimensions(env, given[1..], byId).value);
      }
    }
  }

  ghost predicate AllLinesDefined(env: Env, given: seq<LineInput>, byId: bool) {
    forall i | 0 <= i < |given| :: AllDefined(env, given[i].dimensions, byId)
  }

  lemma FirstLineDefined(env: Env, given: seq<LineInput>, byId: bool)
    requires given != []
    ensures AllLinesDefined(env, given, byId) <==> AllDefined(env, given[0].dimensions, byId) && AllLinesDefined(env, given[1..], byId)
  {
    if AllLinesDefined(env, given, byId) {
      forall i | 0 <= i < |given[1..]| ensures AllDefined(env, given[1..][i].dimensions, byId) {
        assert given[1..][i] == given[i + 1];
      }
    }
    if AllDefined(env, given[0].dimensions, byId) && AllLinesDefined(env, given[1..], byId) {
      forall i | 0 <= i < |given| ensures AllDefined(env, given[i].dimensions, byId) {
        assert i > 0 ==> given[1..][i - 1] == given[i];
      }
    }
  }

  lemma OneMoreLine(env: Env, given: seq<LineInput>, byId: bool, first: Line, rest: seq<Line>)
    requires given != [] && StoredLine(env, given[0], byId, first) && StoredLines(env, given[1..], byId, rest)
    ensures StoredLines(env, given, byId, [first] + rest)
  {
    forall i | 0 <= i < |given| ensures StoredLine(env, given[i], byId, ([first] + rest)[i]) {
      if i > 0 {
        assert StoredLine(env, given[1..][i - 1], byId, rest[i - 1]);
        assert given[1..][i - 1] == given[i] && ([first] + rest)[i] == rest[i - 1];
      }
    }
  }

  /** Lines are stored one for one as they were given, exactly when every dimension on them is defined. */
  lemma {:induction false} LinesAreStored(env: Env, given: seq<LineInput>, byId: bool)
    ensures match WriteLines(env, given, byId)
            case Failure(error) => error == ValidationFailed && !AllLinesDefined(env, given, byId)
            case Success(stored) => AllLinesDefined(env, given, byId) && StoredLines(env, given, byId, stored)
  {
    if given != [] {
      DimensionsAreStored(env, given[0].dimensions, byId);
      LinesAreStored(env, given[1..], byId);
      FirstLineDefined(env, given, byId);
      var stored := WriteLines(env, given, byId);
      if stored.Success? {
        OneMoreLine(env, given, byId, stored.value[0], WriteLines(env, given[1..], byId).value);
      }
    }
  }

  lemma DefinitionIsUnique(env: Env, key: string, byId: bool, a: DimensionDefinition, b: DimensionDefinition)
    requires IsDefinition(env, key, byId, a) && IsDefinition(env, key, byId, b)
    ensures a == b
  {
    var i :| 0 <= i < |env.definitions| && env.definitions[i] == a && Matches(a, key, byId)
      && forall j | i < j < |env.definitions| :: !Matches(env.definitions[j], key, byId);
    var k :| 0 <= k < |env.definitions| && env.definitions[k] == b && Matches(b, key, byId)
      && forall j | k < j < |env.definitions| :: !Matches(env.definitions[j], key, byId);
    assert i == k;
  }

  lemma DimensionIsUnique(env: Env, given: DimensionInput, byId: bool, a: Dimension, b: Dimension)
    requires StoredDimension(env, given, byId, a) && StoredDimension(env, given, byId, b)
    ensures a == b
  {
    var x :| IsDefinition(env, given.key, byId, x) && a.definition == x.id
      && a.referenceType == match x.referenceEntityType case Some(entity) => entity case None => x.code;
    var y :| IsDefinition(env, given.key, byId, y) && b.definition == y.id
      && b.referenceType == match y.referenceEntityType case Some(entity) => entity case None => y.code;
    DefinitionIsUnique(env, given.key, byId, x, y);
  }

  /** What is stored follows from what is given. */
  lemma LinesAreUnique(env: Env, given: seq<LineInput>, byId: bool, a: seq<Line>, b: seq<Line>)
    requires StoredLines(env, given, byId, a) && StoredLines(env, given, byId, b)
    ensures a == b
  {
    forall i | 0 <= i < |given| ensures a[i] == b[i] {
      assert StoredLine(env, given[i], byId, a[i]) && StoredLine(env, given[i], byId, b[i]);
      var dimensions := given[i].dimensions;
      forall k | 0 <= k < |dimensions| ensures a[i].dimensions[k] == b[i].dimensions[k] {
        DimensionIsUnique(env, dimensions[k], byId, a[i].dimensions[k], b[i].dimensions[k]);
      }
    }
  }

  lemma StoredMeansDefined(env: Env, given: seq<LineInput>, byId: bool, stored: seq<Line>)
    requires StoredLines(env, given, byId, stored)
    ensures AllLinesDefined(env, given, byId)
  {
    forall i | 0 <= i < |given| ensures AllDefined(env, given[i].dimensions, byId) {
      assert StoredLine(env, given[i], byId, stored[i]);
      forall k | 0 <= k < |given[i].dimensions| ensures Defined(env, given[i].dimensions[k].key, byId) {
        assert StoredDimension(env, given[i].dimensions[k], byId, stored[i].dimensions[k]);
      }
    }
  }

  // ----- commands -----

  /** One row for each line of the entry, in order, after what was there. */
  ghost predicate RegisterGrew(before: Ledger, next: Ledger, id: EntryId, entry: Entry) {
    && |next.movements| == |before.movements| + |entry.lines|
    && (forall k | 0 <= k < |before.movements| :: next.movements[k] == before.movements[k])
    && forall k | 0 <= k < |entry.lines| :: next.movements[|before.movements| + k]
         == Movement(id, k, entry.organization, entry.businessDate, entry.source, entry.lines[k])
  }

  lemma Appended(before: Ledger, next: Ledger, id: EntryId, entry: Entry)
    requires next.movements == before.movements + MovementsFor(id, entry)
    ensures RegisterGrew(before, next, id, entry)
  {}

  /** The only new or changed entry. */
  ghost predicate OnlyEntry(before: Ledger, next: Ledger, id: EntryId) {
    && id in next.entries
    && forall other | other != id :: (other in next.entries <==> other in before.entries)
         && (other in before.entries ==> next.entries[other] == before.entries[other])
  }

  ghost predicate AllPositive(given: seq<LineInput>) {
    given != [] && forall i | 0 <= i < |given| :: given[i].amount > 0
  }

  lemma ShapeIff(given: seq<LineInput>)
    ensures ShapeValid(given) <==> AllPositive(given)
  {
    if ShapeValid(given) {
      forall i | 0 <= i < |given| ensures given[i].amount > 0 {
        assert given[i] in given;
      }
    }
  }

  /** A draft is made of any well-formed lines whose dimensions are defined; accounts are not looked at yet. */
  lemma DraftIsCreated(ledger: Ledger, env: Env, organization: string, date: Date, given: seq<LineInput>)
    ensures var r := CreateDraft(ledger, env, organization, date, given);
      && (r.Success? <==> AllPositive(given) && AllLinesDefined(env, given, false))
      && (r.Failure? ==> r.error == ValidationFailed)
    ensures var r := CreateDraft(ledger, env, organization, date, given);
      r.Success? ==>
        var next, id := r.value.0, r.value.1;
        && id == ledger.nextId && next.nextId == id + 1 && next.movements == ledger.movements && OnlyEntry(ledger, next, id)
        && var entry := next.entries[id];
        && entry.organization == organization && entry.businessDate == date && entry.source == None && entry.reversalOf == None
        && entry.status == Draft && entry.version == 1 && StoredLines(env, given, false, entry.lines)
  {
    ShapeIff(given);
    LinesAreStored(env, given, false);
  }

  /** A draft at the expected version is posted in an open period exactly when it balances and every line is admissible;
      the error is that of the first of these that fails. */
  lemma DraftIsPosted(ledger: Ledger, env: Env, id: EntryId, version: nat)
    ensures var r := PostDraft(ledger, env, id, version);
      r.Success? <==>
        && id in ledger.entries
        && var entry := ledger.entries[id];
        && entry.version == version && entry.status == Draft && env.open(entry.organization, entry.businessDate)
        && Balanced(entry.lines) && AllAdmissible(env, entry.lines, entry.businessDate)
    ensures var r := PostDraft(ledger, env, id, version);
      r.Failure? ==>
        if id !in ledger.entries then r.error == NotFound
        else
          var entry := ledger.entries[id];
          if entry.version != version then r.error == ConcurrencyConflict
          else if entry.status == Posted then r.error == AlreadyPosted
          else if entry.status == Reversed then r.error == ValidationFailed
          else if !env.open(entry.organization, entry.businessDate) then r.error == PeriodClosed
          else if AllAdmissible(env, entry.lines, entry.businessDate) then r.error == NotBalanced
          else IsFirstProblem(env, entry.lines, entry.businessDate, Some(r.error))
    ensures var r := PostDraft(ledger, env, id, version);
      r.Success? ==>
        var next := r.value.0;
        && r.value.1 == id && next.nextId == ledger.nextId && OnlyEntry(ledger, next, id)
        && next.entries[id] == ledger.entries[id].(status := Posted, version := version + 1)
        && RegisterGrew(ledger, next, id, next.entries[id])
  {
    if id in ledger.entries {
      ValidationPassesIff(env, ledger.entries[id].lines, ledger.entries[id].businessDate);
    }
  }

  /** Exactly the entry's rows are gone, the others in the order they were in. */
  ghost predicate RowsGone(before: seq<Movement>, after: seq<Movement>, id: EntryId) {
    && (forall m | m in after :: m.entry != id && m in before)
    && (forall m | m in before && m.entry != id :: multiset(after)[m] == multiset(before)[m])
  }

  lemma {:induction false} RowsAreGone(before: seq<Movement>, id: EntryId)
    ensures RowsGone(before, Filter(before, Except(OfEntry(id))), id)
  {
    if before != [] {
      RowsAreGone(before[1..], id);
      assert before == [before[0]] + before[1..];
      var rest := Filter(before[1..], Except(OfEntry(id)));
      forall m | m in before && m.entry != id
        ensures multiset(Filter(before, Except(OfEntry(id))))[m] == multiset(before)[m]
      {
        assert multiset(rest)[m] == multiset(before[1..])[m];
        assert multiset(before)[m] == multiset([before[0]])[m] + multiset(before[1..])[m];
      }
    }
  }

  /** A posted entry at the expected version in an open period goes back to a draft and its rows go. */
  lemma EntryIsUnposted(ledger: Ledger, env: Env, id: EntryId, version: nat)
    ensures var r := Unpost(ledger, env, id, version);
      r.Success? <==>
        && id in ledger.entries
        && var entry := ledger.entries[id];
        && entry.version == version && entry.status == Posted && env.open(entry.organization, entry.businessDate)
    ensures var r := Unpost(ledger, env, id, version);
      r.Failure? ==>
        if id !in ledger.entries then r.error == NotFound
        else if ledger.entries[id].version != version then r.error == ConcurrencyConflict
        else if ledger.entries[id].status != Posted then r.error == NotPosted
        else r.error == PeriodClosed
    ensures var r := Unpost(ledger, env, id, version);
      r.Success? ==>
        var next := r.value.0;
        && r.value.1 == id && next.nextId == ledger.nextId && OnlyEntry(ledger, next, id)
        && next.entries[id] == ledger.entries[id].(status := Draft, version := version + 1)
        && RowsGone(ledger.movements, next.movements, id)
  {
    RowsAreGone(ledger.movements, id);
  }

  /** A dimension written again for a reversal, under the same definition. */
  ghost predicate CopiedDimension(env: Env, original: Dimension, copy: Dimension) {
    && copy.definition == original.definition && copy.reference == original.reference && copy.scalar == original.scalar
    && exists definition :: IsDefinition(env, original.definition, true, definition)
         && copy.referenceType == match definition.referenceEntityType case Some(entity) => entity case None => definition.code
  }

  ghost predicate MirroredLine(env: Env, original: Line, mirror: Line) {
    && mirror.account == original.account && mirror.side != original.side && mirror.amount == original.amount
    && mirror.detail == original.detail && mirror.sourceLine == None && |mirror.dimensions| == |original.dimensions|
    && forall k | 0 <= k < |original.dimensions| :: CopiedDimension(env, original.dimensions[k], mirror.dimensions[k])
  }

  ghost predicate StillDefined(env: Env, line: Line) {
    forall k | 0 <= k < |line.dimensions| :: Defined(env, line.dimensions[k].definition, true)
  }

  lemma LineIsMirrored(env: Env, original: Line, mirror: Line)
    requires StoredLine(env, FlipLine(original), true, mirror)
    ensures MirroredLine(env, original, mirror)
  {
    forall k | 0 <= k < |original.dimensions| ensures CopiedDimension(env, original.dimensions[k], mirror.dimensions[k]) {
      assert StoredDimension(env, FlipLine(original).dimensions[k], true, mirror.dimensions[k]);
      var definition :| IsDefinition(env, original.dimensions[k].definition, true, definition)
        && mirror.dimensions[k].definition == definition.id;
    }
  }

  lemma FlipsDefinedIff(env: Env, lines: seq<Line>)
    ensures AllLinesDefined(env, FlipLines(lines), true) <==> forall i | 0 <= i < |lines| :: StillDefined(env, lines[i])
  {
    forall i | 0 <= i < |lines| ensures AllDefined(env, FlipLines(lines)[i].dimensions, true) <==> StillDefined(env, lines[i]) {
      var flipped := FlipLine(lines[i]).dimensions;
      if AllDefined(env, flipped, true) {
        forall k | 0 <= k < |lines[i].dimensions| ensures Defined(env, lines[i].dimensions[k].definition, true) {
          assert Defined(env, flipped[k].key, true);
        }
      }
    }
  }

  /** A posted entry at the expected version is reversed in an open period, on the asked date or its own, exactly when its
      dimensions are still defined; whether it balances or its accounts are still open is not asked. */
  lemma EntryIsReversed(ledger: Ledger, env: Env, id: EntryId, version: nat, date: Option<Date>)
    ensures var r := Reverse(ledger, env, id, version, date);
      r.Success? <==>
        && id in ledger.entries
        && var entry := ledger.entries[id];
        && entry.version == version && entry.status == Posted
        && env.open(entry.organization, match date case Some(d) => d case None => entry.businessDate)
        && forall i | 0 <= i < |entry.lines| :: StillDefined(env, entry.lines[i])
    ensures var r := Reverse(ledger, env, id, version, date);
      r.Failure? ==>
        if id !in ledger.entries then r.error == NotFound
        else
          var entry := ledger.entries[id];
          if entry.version != version then r.error == ConcurrencyConflict
          else if entry.status != Posted then r.error == ReversalNotAllowed
          else if !env.open(entry.organization, match date case Some(d) => d case None => entry.businessDate) then r.error == PeriodClosed
          else r.error == ValidationFailed
  {
    if id in ledger.entries {
      LinesAreStored(env, FlipLines(ledger.entries[id].lines), true);
      FlipsDefinedIff(env, ledger.entries[id].lines);
    }
  }

  /** The reversal is a posted entry of its own; the original is only marked. */
  lemma ReversalIsEntered(ledger: Ledger, env: Env, id: EntryId, version: nat, date: Option<Date>)
    requires Reverse(ledger, env, id, version, date).Success? && id < ledger.nextId
    ensures var next, entered := Reverse(ledger, env, id, version, date).value.0, Reverse(ledger, env, id, version, date).value.1;
      && entered == ledger.nextId && next.nextId == entered + 1 && entered in next.entries && id in next.entries && id in ledger.entries
      && (forall other | other in ledger.entries && other != id && other != entered ::
            other in next.entries && next.entries[other] == ledger.entries[other])
      && next.entries[id] == ledger.entries[id].(status := Reversed, version := version + 1)
      && RegisterGrew(ledger, next, entered, next.entries[entered])
  {}

  /** It has the original's lines on the other side. */
  lemma ReversalIsMirrored(ledger: Ledger, env: Env, id: EntryId, version: nat, date: Option<Date>)
    requires Reverse(ledger, env, id, version, date).Success? && id < ledger.nextId
    ensures var next, entered := Reverse(ledger, env, id, version, date).value.0, Reverse(ledger, env, id, version, date).value.1;
      && id in ledger.entries && entered in next.entries
      && var original, reversal := ledger.entries[id], next.entries[entered];
      && reversal.organization == original.organization && reversal.source == original.source
      && reversal.businessDate == (match date case Some(d) => d case None => original.businessDate)
      && reversal.reversalOf == Some(id) && reversal.status == Posted && reversal.version == 1
      && |reversal.lines| == |original.lines|
      && forall i | 0 <= i < |original.lines| :: MirroredLine(env, original.lines[i], reversal.lines[i])
  {
    var original := ledger.entries[id];
    LinesAreStored(env, FlipLines(original.lines), true);
    var lines := WriteLines(env, FlipLines(original.lines), true).value;
    forall i | 0 <= i < |original.lines| ensures MirroredLine(env, original.lines[i], lines[i]) {
      LineIsMirrored(env, original.lines[i], lines[i]);
    }
  }

  ghost predicate PostedBefore(ledger: Ledger, source: Option<SourceKey>) {
    source.Some? && exists id :: id in ledger.entries && ledger.entries[id].source == source && ledger.entries[id].status == Posted
  }

  /** A batch is posted exactly when its source has no posted entry yet, it is well-formed, the period is open, its dimensions
      are defined, and the lines as stored balance and are admissible; the error is that of the first of these that fails. */
  lemma BatchIsPosted(ledger: Ledger, env: Env, organization: string, date: Date, source: Option<SourceKey>, given: seq<LineInput>)
    ensures var r := PostBatch(ledger, env, organization, date, source, given);
      r.Success? <==>
        && !PostedBefore(ledger, source) && AllPositive(given) && env.open(organization, date)
        && exists lines :: StoredLines(env, given, false, lines) && Balanced(lines) && AllAdmissible(env, lines, date)
    ensures var r := PostBatch(ledger, env, organization, date, source, given);
      r.Failure? ==>
        if PostedBefore(ledger, source) then r.error == DuplicatePosting
        else if !AllPositive(given) then r.error == ValidationFailed
        else if !env.open(organization, date) then r.error == PeriodClosed
        else if !AllLinesDefined(env, given, false) then r.error == ValidationFailed
        else exists lines :: StoredLines(env, given, false, lines)
               && if AllAdmissible(env, lines, date) then r.error == NotBalanced && !Balanced(lines)
                  else IsFirstProblem(env, lines, date, Some(r.error))
    ensures var r := PostBatch(ledger, env, organization, date, source, given);
      r.Success? ==>
        var next, id := r.value.0, r.value.1;
        && id == ledger.nextId && next.nextId == id + 1 && OnlyEntry(ledger, next, id)
        && var entry := next.entries[id];
        && entry.organization == organization && entry.businessDate == date && entry.source == source && entry.reversalOf == None
        && entry.status == Posted && entry.version == 1 && StoredLines(env, given, false, entry.lines)
        && Balanced(entry.lines) && AllAdmissible(env, entry.lines, date) && RegisterGrew(ledger, next, id, entry)
  {
    ShapeIff(given);
    LinesAreStored(env, given, false);
    var written := WriteLines(env, given, false);
    if written.Success? {
      ValidationPassesIff(env, written.value, date);
    }
    forall lines | StoredLines(env, given, false, lines) ensures written == Success(lines) {
      StoredMeansDefined(env, given, false, lines);
      LinesAreUnique(env, given, false, lines, written.value);
    }
  }

  /** Exactly the drafts of the source are deleted. */
  lemma DraftsAreDeleted(ledger: Ledger, source: SourceKey)
    ensures var next := DeleteDrafts(ledger, source);
      && next.movements == ledger.movements && next.nextId == ledger.nextId
      && (forall id | id in next.entries :: id in ledger.entries && next.entries[id] == ledger.entries[id])
      && forall id | id in ledger.entries ::
           id !in next.entries <==> ledger.entries[id].source == Some(source) && ledger.entries[id].status == Draft
  {}
}
