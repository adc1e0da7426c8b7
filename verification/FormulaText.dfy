// The text of report formulas: two different tokenisers, one that finds the rows a formula depends
// on and one that evaluates it, and how far they agree.
module FormulaText {
  import opened Seqs

  predicate IsSign(c: char) {
    c == '+' || c == '-'
  }

  /** White space and line terminators as trimming and the space class of regular expressions know them. */
  predicate IsSpace(c: char) {
    || '\U{0009}' <= c <= '\U{000D}' || c == ' ' || c == '\U{00A0}' || c == '\U{1680}' || '\U{2000}' <= c <= '\U{200A}'
    || c == '\U{2028}' || c == '\U{2029}' || c == '\U{202F}' || c == '\U{205F}' || c == '\U{3000}' || c == '\U{FEFF}'
  }

  predicate IsDigit(c: char) {
    '0' <= c <= '9'
  }

  // ----- finding dependencies: split at the signs, trim, drop numerals -----

  /** Length of the part before the first sign. */
  function SegmentLength(s: string): (n: nat)
    ensures n <= |s|
    ensures n < |s| ==> IsSign(s[n])
  {
    if s == [] || IsSign(s[0]) then 0 else 1 + SegmentLength(s[1..])
  }

  function Split(s: string): seq<string> {
    var n := SegmentLength(s);
    if n == |s| then [s] else [s[..n]] + Split(s[n + 1..])
  }

  function TrimStart(s: string): string {
    if s != [] && IsSpace(s[0]) then TrimStart(s[1..]) else s
  }

  function TrimEnd(s: string): string {
    if s != [] && IsSpace(s[|s| - 1]) then TrimEnd(s[..|s| - 1]) else s
  }

  function Trim(s: string): string {
    TrimEnd(TrimStart(s))
  }

  function TrimAll(segments: seq<string>): seq<string> {
    seq(|segments|, i requires 0 <= i < |segments| => Trim(segments[i]))
  }

  function DigitRun(s: string): (n: nat)
    ensures n <= |s|
    ensures forall i | 0 <= i < n :: IsDigit(s[i])
  {
    if s == [] || !IsDigit(s[0]) then 0 else 1 + DigitRun(s[1..])
  }

  /** Digits, optionally followed by a point and more digits. */
  predicate IsNumeral(s: string) {
    var n := DigitRun(s);
    n > 0 && (n == |s| || (s[n] == '.' && n + 1 < |s| && DigitRun(s[n + 1..]) == |s| - n - 1))
  }

  function NamesARow(): string -> bool {
    (t: string) => |t| > 0 && !IsNumeral(t)
  }

  function ParseDependencies(formula: string): seq<string> {
    Filter(TrimAll(Split(formula)), NamesARow())
  }

  // ----- evaluating: scan for signs and for runs of anything else but white space -----

  function WordLength(s: string): (n: nat)
    ensures n <= |s|
    ensures n < |s| ==> IsSign(s[n]) || IsSpace(s[n])
  {
    if s == [] || IsSign(s[0]) || IsSpace(s[0]) then 0 else 1 + WordLength(s[1..])
  }

  function Tokens(s: string): seq<string> {
    if s == [] then []
    else if IsSign(s[0]) then [[s[0]]] + Tokens(s[1..])
    else if IsSpace(s[0]) then Tokens(s[1..])
    else [s[..WordLength(s)]] + Tokens(s[WordLength(s)..])
  }

  predicate IsWord(t: string) {
    |t| > 0 && forall c | c in t :: !IsSign(c) && !IsSpace(c)
  }

  /** The token "+" or the token "-". */
  predicate IsSignToken(t: string) {
    |t| == 1 && IsSign(t[0])
  }

  function IsOperand(): string -> bool {
    (t: string) => !IsSignToken(t)
  }

  function Operands(s: string): seq<string> {
    Filter(Tokens(s), IsOperand())
  }

  /** Rows first, then numbers; `literal` gives zero to what is neither. */
  function Resolve(token: string, amounts: map<string, real>, literal: string -> real): real {
    if token in amounts then amounts[token] else literal(token)
  }

  /** The running total: a sign stays in force until the next one. */
  function TokenSum(tokens: seq<string>, positive: bool, amounts: map<string, real>, literal: string -> real): real {
    if tokens == [] then 0.0
    else if IsSignToken(tokens[0]) then TokenSum(tokens[1..], tokens[0][0] == '+', amounts, literal)
    else
      var value := Resolve(tokens[0], amounts, literal);
      (if positive then value else -value) + TokenSum(tokens[1..], positive, amounts, literal)
  }

  function Value(formula: string, amounts: map<string, real>, literal: string -> real): real {
    TokenSum(Tokens(formula), true, amounts, literal)
  }

  method Evaluate(formula: string, amounts: map<string, real>, literal: string -> real) returns (result: real)
    ensures result == Value(formula, amounts, literal)
  {
    var tokens := Tokens(formula);
    result := 0.0;
    var positive := true;
    for i := 0 to |tokens|
      invariant Value(formula, amounts, literal) == result + TokenSum(tokens[i..], positive, amounts, literal)
    {
      assert tokens[i..][1..] == tokens[i + 1..];
      if IsSignToken(tokens[i]) {
        positive := tokens[i][0] == '+';
      } else {
        var value := Resolve(tokens[i], amounts, literal);
        result := result + if positive then value else -value;
      }
    }
  }

  // ----- what a formula means -----

  /** The pieces of a segment between white space; a segment holds no sign. */
  function Words(s: string): seq<string> {
    if s == [] then []
    else if IsSpace(s[0]) || IsSign(s[0]) then Words(s[1..])
    else [s[..WordLength(s)]] + Words(s[WordLength(s)..])
  }

  function WordSum(words: seq<string>, amounts: map<string, real>, literal: string -> real): real {
    if words == [] then 0.0 else Resolve(words[0], amounts, literal) + WordSum(words[1..], amounts, literal)
  }

  /** Each segment between signs counts with the sign right before it, the first one positively. */
  ghost function Meaning(s: string, positive: bool, amounts: map<string, real>, literal: string -> real): real
    decreases |s|
  {
    var n := SegmentLength(s);
    var sum := WordSum(Words(if n == |s| then s else s[..n]), amounts, literal);
    var signed := if positive then sum else -sum;
    if n == |s| then signed else signed + Meaning(s[n + 1..], s[n] == '+', amounts, literal)
  }

  lemma {:induction false} SegmentIsPlain(s: string)
    ensures forall c | c in s[..SegmentLength(s)] :: !IsSign(c)
  {
    if s != [] && !IsSign(s[0]) {
      SegmentIsPlain(s[1..]);
      assert s[..SegmentLength(s)] == [s[0]] + s[1..][..SegmentLength(s[1..])];
    }
  }

  lemma {:induction false} WordIsPlain(s: string)
    ensures forall c | c in s[..WordLength(s)] :: !IsSign(c) && !IsSpace(c)
  {
    if s != [] && !IsSign(s[0]) && !IsSpace(s[0]) {
      WordIsPlain(s[1..]);
      assert s[..WordLength(s)] == [s[0]] + s[1..][..WordLength(s[1..])];
    }
  }

  lemma {:induction false} WordsAreWords(s: string)
    ensures forall w | w in Words(s) :: IsWord(w)
  {
    if s != [] {
      if IsSpace(s[0]) || IsSign(s[0]) {
        WordsAreWords(s[1..]);
      } else {
        WordIsPlain(s);
        WordsAreWords(s[WordLength(s)..]);
      }
    }
  }

  lemma {:induction false} TokensAreWords(s: string)
    ensures forall t | t in Tokens(s) && !IsSignToken(t) :: IsWord(t)
  {
    if s != [] {
      if IsSign(s[0]) || IsSpace(s[0]) {
        TokensAreWords(s[1..]);
      } else {
        WordIsPlain(s);
        TokensAreWords(s[WordLength(s)..]);
      }
    }
  }

  lemma {:induction false} SegmentSuffix(s: string, k: nat)
    requires k <= SegmentLength(s)
    ensures SegmentLength(s[k..]) == SegmentLength(s) - k
  {
    if k > 0 {
      SegmentSuffix(s[1..], k - 1);
      assert s[1..][k - 1..] == s[k..];
    }
  }

  lemma {:induction false} WordPrefix(s: string, n: nat)
    requires WordLength(s) <= n <= |s|
    ensures WordLength(s[..n]) == WordLength(s)
  {
    if s != [] && !IsSign(s[0]) && !IsSpace(s[0]) {
      WordPrefix(s[1..], n - 1);
      assert s[..n][1..] == s[1..][..n - 1];
    }
  }

  /** The scanner sees the words of the first segment, then its sign, then the rest. */
  ghost predicate ScansBySegment(s: string) {
    var n := SegmentLength(s);
    if n == |s| then Tokens(s) == Words(s) else Tokens(s) == Words(s[..n]) + ([[s[n]]] + Tokens(s[n + 1..]))
  }

  lemma AfterSpace(s: string)
    requires s != [] && IsSpace(s[0])
    requires ScansBySegment(s[1..])
    ensures ScansBySegment(s)
  {
    var n := SegmentLength(s);
    if n < |s| {
      SliceOfSlice(s, 1, n);
    }
  }

  lemma {:induction false} WordFits(s: string)
    ensures WordLength(s) <= SegmentLength(s)
  {
    if s != [] && !IsSign(s[0]) {
      WordFits(s[1..]);
    }
  }

  lemma FirstToken(s: string, k: nat)
    requires s != [] && !IsSign(s[0]) && !IsSpace(s[0]) && k == WordLength(s)
    ensures Tokens(s) == [s[..k]] + Tokens(s[k..])
  {}

  /** The first word belongs to the first segment. */
  lemma FirstWordOfSegment(s: string, k: nat, n: nat)
    requires s != [] && !IsSign(s[0]) && !IsSpace(s[0]) && k == WordLength(s) && n == SegmentLength(s)
    ensures k <= n && SegmentLength(s[k..]) == n - k
    ensures Words(s[..n]) == [s[..k]] + Words(s[k..][..n - k])
  {
    WordFits(s);
    SegmentSuffix(s, k);
    WordPrefix(s, n);
    SliceOfSlice(s, k, n);
    FirstWord(s[..n], k);
  }

  /** What is left after the first word, when its segment ends at n. */
  lemma RestScans(s: string, k: nat, n: nat)
    requires k <= n <= |s| && SegmentLength(s[k..]) == n - k && ScansBySegment(s[k..])
    ensures Tokens(s[k..]) ==
      if n == |s| then Words(s[k..][..n - k]) else Words(s[k..][..n - k]) + ([[s[n]]] + Tokens(s[n + 1..]))
  {
    SliceOfSlice(s, k, n);
    if n == |s| {
      assert s[k..][..n - k] == s[k..];
    }
  }

  lemma WordThenRest(s: string, k: nat, n: nat)
    requires s != [] && !IsSign(s[0]) && !IsSpace(s[0]) && k == WordLength(s) && n == SegmentLength(s)
    requires ScansBySegment(s[k..])
    ensures Tokens(s) == if n == |s| then Words(s[..n]) else Words(s[..n]) + ([[s[n]]] + Tokens(s[n + 1..]))
  {
    FirstToken(s, k);
    FirstWordOfSegment(s, k, n);
    RestScans(s, k, n);
    if n < |s| {
      Assoc([s[..k]], Words(s[k..][..n - k]), [[s[n]]] + Tokens(s[n + 1..]));
    }
  }

  lemma AfterWord(s: string, k: nat)
    requires s != [] && !IsSign(s[0]) && !IsSpace(s[0]) && k == WordLength(s)
    requires ScansBySegment(s[k..])
    ensures ScansBySegment(s)
  {
    var n := SegmentLength(s);
    WordThenRest(s, k, n);
    if n == |s| {
      assert s[..n] == s;
    }
  }

  lemma SliceOfSlice(s: string, k: nat, n: nat)
    requires k <= n <= |s|
    ensures s[..n][k..] == s[k..][..n - k] && s[..n][..k] == s[..k]
    ensures n < |s| ==> s[k..][n - k] == s[n] && s[k..][n - k + 1..] == s[n + 1..]
  {}

  lemma FirstWord(s: string, k: nat)
    requires s != [] && !IsSign(s[0]) && !IsSpace(s[0]) && k == WordLength(s)
    ensures Words(s) == [s[..k]] + Words(s[k..])
  {}

  lemma Assoc<T>(a: seq<T>, b: seq<T>, c: seq<T>)
    ensures (a + b) + c == a + (b + c)
  {}

  lemma {:induction false} TokensBySegment(s: string)
    ensures ScansBySegment(s)
    decreases |s|
  {
    if s != [] && !IsSign(s[0]) {
      if IsSpace(s[0]) {
        TokensBySegment(s[1..]);
        AfterSpace(s);
      } else {
        TokensBySegment(s[WordLength(s)..]);
        AfterWord(s, WordLength(s));
      }
    }
  }

  lemma {:induction false} TokenSumOfWords(words: seq<string>, tail: seq<string>, positive: bool,
                                           amounts: map<string, real>, literal: string -> real)
    requires forall w | w in words :: IsWord(w)
    ensures TokenSum(words + tail, positive, amounts, literal)
         == (if positive then WordSum(words, amounts, literal) else -WordSum(words, amounts, literal))
            + TokenSum(tail, positive, amounts, literal)
  {
    if words == [] {
      assert words + tail == tail;
    } else {
      assert (words + tail)[1..] == words[1..] + tail;
      assert IsWord(words[0]) && words[0][0] in words[0];
      TokenSumOfWords(words[1..], tail, positive, amounts, literal);
    }
  }

  lemma TokenSumOfScan(words: seq<string>, sign: string, tail: seq<string>, positive: bool,
                       amounts: map<string, real>, literal: string -> real)
    requires forall w | w in words :: IsWord(w)
    requires IsSignToken(sign)
    ensures TokenSum(words + ([sign] + tail), positive, amounts, literal)
         == (if positive then WordSum(words, amounts, literal) else -WordSum(words, amounts, literal))
            + TokenSum(tail, sign[0] == '+', amounts, literal)
  {
    TokenSumOfWords(words, [sign] + tail, positive, amounts, literal);
    assert ([sign] + tail)[1..] == tail;
  }

  /** The sign-tracking scan computes the signed sum of the segments. */
  lemma {:induction false} ValueIsMeaning(s: string, positive: bool, amounts: map<string, real>, literal: string -> real)
    ensures TokenSum(Tokens(s), positive, amounts, literal) == Meaning(s, positive, amounts, literal)
    decreases |s|
  {
    var n := SegmentLength(s);
    TokensBySegment(s);
    if n == |s| {
      WordsAreWords(s);
      TokenSumOfWords(Words(s), [], positive, amounts, literal);
      assert Words(s) + [] == Words(s);
    } else {
      WordsAreWords(s[..n]);
      TokenSumOfScan(Words(s[..n]), [s[n]], Tokens(s[n + 1..]), positive, amounts, literal);
      ValueIsMeaning(s[n + 1..], s[n] == '+', amounts, literal);
    }
  }

  // ----- the two tokenisers -----

  /** No two names stand side by side without a sign between them. */
  ghost predicate WellSpaced(formula: string) {
    forall segment | segment in Split(formula) :: |Words(segment)| <= 1
  }

  /** The names the evaluator looks up, numerals aside. */
  function NamesRead(formula: string): seq<string> {
    Filter(Operands(formula), NamesARow())
  }

  lemma {:induction false} NoWordsMeansBlank(s: string)
    requires forall c | c in s :: !IsSign(c)
    ensures Words(s) == [] <==> forall c | c in s :: IsSpace(c)
  {
    if s != [] {
      assert s[0] in s;
      if IsSpace(s[0]) {
        NoWordsMeansBlank(s[1..]);
        assert s == [s[0]] + s[1..];
      }
    }
  }

  lemma {:induction false} TrimStartFacts(s: string)
    requires forall c | c in s :: !IsSign(c)
    ensures forall c | c in TrimStart(s) :: !IsSign(c)
    ensures Words(TrimStart(s)) == Words(s)
    ensures TrimStart(s) != [] ==> !IsSpace(TrimStart(s)[0])
  {
    if s != [] && IsSpace(s[0]) {
      TrimStartFacts(s[1..]);
    }
  }

  lemma {:induction false} TrimEndFacts(s: string)
    ensures |TrimEnd(s)| <= |s| && TrimEnd(s) == s[..|TrimEnd(s)|]
    ensures forall i | |TrimEnd(s)| <= i < |s| :: IsSpace(s[i])
    ensures TrimEnd(s) != [] ==> !IsSpace(TrimEnd(s)[|TrimEnd(s)| - 1])
  {
    if s != [] && IsSpace(s[|s| - 1]) {
      TrimEndFacts(s[..|s| - 1]);
    }
  }

  /** Trimming finds the single word of a segment; with several words it keeps the space between them. */
  lemma TrimFindsTheWord(segment: string)
    requires forall c | c in segment :: !IsSign(c)
    ensures Words(segment) == [] ==> Trim(segment) == ""
    ensures |Words(segment)| == 1 ==> Trim(segment) == Words(segment)[0]
    ensures |Words(segment)| > 1 ==> exists c | c in Trim(segment) :: IsSpace(c)
  {
    var t := TrimStart(segment);
    TrimStartFacts(segment);
    TrimEndFacts(t);
    NoWordsMeansBlank(segment);
    NoWordsMeansBlank(t);
    if t != [] {
      assert t[0] in t;
      var m := WordLength(t);
      assert Words(t) == [t[..m]] + Words(t[m..]);
      NoWordsMeansBlank(t[m..]);
      var kept := |TrimEnd(t)|;
      if Words(t[m..]) == [] {
        forall i | m <= i < |t| ensures IsSpace(t[i]) {
          assert t[m..][i - m] == t[i];
        }
        WordIsPlain(t);
        assert t[..m][m - 1] == t[m - 1];
        assert kept == m;
      } else {
        var c :| c in t[m..] && !IsSpace(c);
        var p :| m <= p < |t| && t[p] == c;
        assert m < |t| && IsSpace(t[m]);
        assert p < kept;
        assert TrimEnd(t)[m] == t[m];
      }
    }
  }

  lemma WordsAreOperands(words: seq<string>)
    requires forall w | w in words :: IsWord(w)
    ensures Filter(words, IsOperand()) == words
  {
    forall w | w in words ensures IsOperand()(w) {
      assert IsWord(w) && w[0] in w;
    }
    FilterAll(words, IsOperand());
  }

  lemma OperandsOfScan(words: seq<string>, sign: string, rest: seq<string>)
    requires forall w | w in words :: IsWord(w)
    requires IsSignToken(sign)
    ensures Filter(words + ([sign] + rest), IsOperand()) == words + Filter(rest, IsOperand())
  {
    WordsAreOperands(words);
    FilterAppend(words, [sign] + rest, IsOperand());
    FilterAppend([sign], rest, IsOperand());
    FilterNone([sign], IsOperand());
  }

  /** Operands segment by segment. */
  lemma OperandsOfLast(s: string)
    requires SegmentLength(s) == |s|
    ensures Operands(s) == Words(s)
  {
    TokensBySegment(s);
    WordsAreWords(s);
    WordsAreOperands(Words(s));
  }

  lemma OperandsOfFirst(s: string, words: seq<string>, rest: string)
    requires var n := SegmentLength(s);
      n < |s| && words == Words(s[..n]) && rest == s[n + 1..]
    ensures Operands(s) == words + Operands(rest)
  {
    var n := SegmentLength(s);
    TokensBySegment(s);
    WordsAreWords(s[..n]);
    OperandsOfScan(words, [s[n]], Tokens(rest));
  }

  lemma DependenciesOfSplit(head: string, rest: seq<string>)
    ensures Filter(TrimAll([head] + rest), NamesARow()) == Filter([Trim(head)], NamesARow()) + Filter(TrimAll(rest), NamesARow())
  {
    assert TrimAll([head] + rest) == [Trim(head)] + TrimAll(rest);
    FilterAppend([Trim(head)], TrimAll(rest), NamesARow());
  }

  lemma OneSegment(s: string)
    requires SegmentLength(s) == |s|
    ensures ParseDependencies(s) == Filter([Trim(s)], NamesARow())
  {
    assert Split(s) == [s];
    assert TrimAll([s]) == [Trim(s)];
  }

  lemma FirstOfSegments(s: string, n: nat)
    requires n == SegmentLength(s) < |s|
    ensures ParseDependencies(s) == Filter([Trim(s[..n])], NamesARow()) + ParseDependencies(s[n + 1..])
  {
    assert Split(s) == [s[..n]] + Split(s[n + 1..]);
    DependenciesOfSplit(s[..n], Split(s[n + 1..]));
  }

  /** On one segment of at most one word both ways of reading find that word, or nothing. */
  lemma OneWordReads(segment: string)
    requires forall c | c in segment :: !IsSign(c)
    requires |Words(segment)| <= 1
    ensures Filter(Words(segment), NamesARow()) == Filter([Trim(segment)], NamesARow())
  {
    TrimFindsTheWord(segment);
    if |Words(segment)| == 1 {
      assert Words(segment) == [Trim(segment)];
    }
  }

  lemma LastSegmentReads(s: string)
    requires SegmentLength(s) == |s| && |Words(s)| <= 1
    ensures NamesRead(s) == ParseDependencies(s)
  {
    SegmentIsPlain(s);
    assert s[..|s|] == s;
    OneSegment(s);
    OperandsOfLast(s);
    OneWordReads(s);
  }

  lemma FirstSegmentReads(s: string, n: nat)
    requires n == SegmentLength(s) < |s| && |Words(s[..n])| <= 1
    requires NamesRead(s[n + 1..]) == ParseDependencies(s[n + 1..])
    ensures NamesRead(s) == ParseDependencies(s)
  {
    SegmentIsPlain(s);
    FirstOfSegments(s, n);
    OperandsOfFirst(s, Words(s[..n]), s[n + 1..]);
    OneWordReads(s[..n]);
    FilterAppend(Words(s[..n]), Operands(s[n + 1..]), NamesARow());
  }

  lemma FirstIsWellSpaced(s: string, n: nat)
    requires WellSpaced(s) && n == SegmentLength(s)
    ensures |Words(s[..n])| <= 1 && (n < |s| ==> WellSpaced(s[n + 1..]))
  {
    if n == |s| {
      assert s[..n] == s && s in Split(s);
    } else {
      var rest := Split(s[n + 1..]);
      assert Split(s) == [s[..n]] + rest;
      assert Split(s)[0] == s[..n] && Split(s)[1..] == rest;
      forall segment | segment in rest ensures segment in Split(s) {}
    }
  }

  lemma {:induction false} WellSpacedReads(s: string)
    requires WellSpaced(s)
    ensures NamesRead(s) == ParseDependencies(s)
    decreases |s|
  {
    var n := SegmentLength(s);
    FirstIsWellSpaced(s, n);
    if n == |s| {
      assert s[..n] == s;
      LastSegmentReads(s);
    } else {
      WellSpacedReads(s[n + 1..]);
      FirstSegmentReads(s, n);
    }
  }

  lemma NumeralIsPlain(s: string)
    requires IsNumeral(s)
    ensures forall c | c in s :: !IsSpace(c) && !IsSign(c)
  {
    var n := DigitRun(s);
    forall i | 0 <= i < |s| ensures !IsSpace(s[i]) && !IsSign(s[i]) {
      if i > n {
        assert s[i] == s[n + 1..][i - n - 1];
      }
    }
  }

  lemma {:induction false} PlainWord(s: string)
    requires forall c | c in s :: !IsSpace(c) && !IsSign(c)
    ensures SegmentLength(s) == |s| && WordLength(s) == |s| && TrimStart(s) == s && TrimEnd(s) == s
  {
    if s != [] {
      assert s[0] in s && s[|s| - 1] in s;
      PlainWord(s[1..]);
    }
  }

  /** A row named like a number is read by a formula that mentions it, but never reported as a dependency. */
  lemma NumeralIsReadNotReported(t: string)
    requires IsNumeral(t)
    ensures Operands(t) == [t] && ParseDependencies(t) == []
  {
    NumeralIsPlain(t);
    PlainWord(t);
    assert t[0] in t;
    FirstToken(t, |t|);
    assert t[..|t|] == t && t[|t|..] == [];
    assert Tokens(t) == [t];
    assert !IsSignToken(t);
    FilterAll([t], IsOperand());
    assert TrimAll([t]) == [t];
    FilterNone([t], NamesARow());
  }

  lemma {:induction false} SegmentsArePlain(s: string, segment: string)
    requires segment in Split(s)
    ensures forall c | c in segment :: !IsSign(c)
    decreases |s|
  {
    var n := SegmentLength(s);
    SegmentIsPlain(s);
    if segment != s[..n] {
      SegmentsArePlain(s[n + 1..], segment);
    }
  }

  lemma {:induction false} SpacedSegmentIsReported(s: string, segment: string)
    requires segment in Split(s)
    requires |Words(segment)| > 1
    ensures Trim(segment) in ParseDependencies(s)
    ensures exists c | c in Trim(segment) :: IsSpace(c)
  {
    SegmentsArePlain(s, segment);
    TrimFindsTheWord(segment);
    var t := Trim(segment);
    if IsNumeral(t) {
      NumeralIsPlain(t);
    }
    assert NamesARow()(t);
    var segments := Split(s);
    var i :| 0 <= i < |segments| && segments[i] == segment;
    assert TrimAll(segments)[i] == t;
  }

  lemma OperandsAreWords(s: string, t: string)
    requires t in Operands(s)
    ensures IsWord(t)
  {
    TokensAreWords(s);
    assert IsOperand()(t);
  }

  /** The rows the evaluator reads are exactly the dependencies the parser reports, in the same order and
      number, if and only if the formula never puts two names side by side. */
  lemma TokenisersAgreeIff(formula: string)
    ensures NamesRead(formula) == ParseDependencies(formula) <==> WellSpaced(formula)
  {
    if WellSpaced(formula) {
      WellSpacedReads(formula);
    } else {
      var segment :| segment in Split(formula) && |Words(segment)| > 1;
      SpacedSegmentIsReported(formula, segment);
      if NamesRead(formula) == ParseDependencies(formula) {
        OperandsAreWords(formula, Trim(segment));
      }
    }
  }

  lemma OperandIsReported(formula: string, t: string)
    requires WellSpaced(formula) && t in Operands(formula) && !IsNumeral(t)
    ensures t in ParseDependencies(formula)
  {
    TokenisersAgreeIff(formula);
    OperandsAreWords(formula, t);
    assert NamesARow()(t) && t in NamesRead(formula);
  }

  /** Two names side by side: both are read, neither is reported. */
  lemma SideBySideExample()
    ensures NamesRead("A B") == ["A", "B"]
    ensures ParseDependencies("A B") == ["A B"]
  {
    var s := "A B";
    assert SegmentLength("B") == 1 && SegmentLength(" B") == 2 && SegmentLength(s) == 3;
    assert WordLength("B") == 1 && WordLength(" B") == 0 && WordLength(s) == 1;
    assert s[1..] == " B" && " B"[1..] == "B" && "B"[1..] == "" && s[..1] == "A" && "B"[..1] == "B";
    assert Tokens("B") == ["B"] + Tokens("") && Tokens(" B") == Tokens("B");
    assert Tokens(s) == ["A"] + Tokens(" B");
    assert Tokens(s) == ["A", "B"];
    assert Split(s) == [s];
    assert TrimStart(s) == s && TrimEnd(s) == s;
    assert TrimAll([s]) == [s];
    assert ["A", "B"][1..] == ["B"] && ["B"][1..] == [];
    assert Filter(["B"], IsOperand()) == ["B"] && Filter(["A", "B"], IsOperand()) == ["A", "B"];
    assert DigitRun("A") == 0 && DigitRun("B") == 0 && DigitRun(s) == 0;
    assert NamesARow()("A") && NamesARow()("B") && NamesARow()(s);
    assert Filter(["B"], NamesARow()) == ["B"] && Filter(["A", "B"], NamesARow()) == ["A", "B"];
  }

  // ----- what a value depends on -----

  lemma {:induction false} TokenSumReads(tokens: seq<string>, positive: bool, a: map<string, real>, b: map<string, real>,
                                         literal: string -> real)
    requires forall t | t in tokens && !IsSignToken(t) :: Resolve(t, a, literal) == Resolve(t, b, literal)
    ensures TokenSum(tokens, positive, a, literal) == TokenSum(tokens, positive, b, literal)
  {
    if tokens != [] {
      assert tokens[0] in tokens;
      var next := if IsSignToken(tokens[0]) then tokens[0][0] == '+' else positive;
      TokenSumReads(tokens[1..], next, a, b, literal);
    }
  }

  ghost predicate AgreeOn(a: map<string, real>, b: map<string, real>, key: string) {
    (key in a <==> key in b) && (key in a ==> key in b && a[key] == b[key])
  }

  /** A formula's value depends on its operands only. */
  lemma ValueDependsOnOperands(formula: string, a: map<string, real>, b: map<string, real>, literal: string -> real)
    requires forall t | t in Operands(formula) :: AgreeOn(a, b, t)
    ensures Value(formula, a, literal) == Value(formula, b, literal)
  {
    forall t | t in Tokens(formula) && !IsSignToken(t) ensures Resolve(t, a, literal) == Resolve(t, b, literal) {
      assert IsOperand()(t) && t in Operands(formula);
      assert AgreeOn(a, b, t);
    }
    TokenSumReads(Tokens(formula), true, a, b, literal);
  }

  /** A well-spaced formula's value depends on the reported rows and on rows that look like numbers only. */
  lemma ValueDependsOnDependencies(formula: string, a: map<string, real>, b: map<string, real>, literal: string -> real)
    requires WellSpaced(formula)
    requires forall key | key in ParseDependencies(formula) :: AgreeOn(a, b, key)
    requires forall key | IsNumeral(key) :: AgreeOn(a, b, key)
    ensures Value(formula, a, literal) == Value(formula, b, literal)
  {
    forall t | t in Operands(formula) ensures AgreeOn(a, b, t) {
      if !IsNumeral(t) { OperandIsReported(formula, t); }
    }
    ValueDependsOnOperands(formula, a, b, literal);
  }
}
