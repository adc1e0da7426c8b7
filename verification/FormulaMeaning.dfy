// What a formula's value is in terms of the amounts of its rows: single codes, sums and differences, and linearity.
module FormulaMeaning {
  import opened Seqs
  import opened FormulaText

  // ----- one code -----

  /** A name without signs or white space. */
  ghost predicate IsCode(s: string) {
    s != [] && forall i | 0 <= i < |s| :: s[i] != '+' && s[i] != '-' && !IsSpace(s[i])
  }

  /** A formula that is one code has the amount of that row, or the code's value as a literal when there is no such row. */
  lemma SingleCode(code: string, amounts: map<string, real>, literal: string -> real)
    requires IsCode(code)
    ensures code in amounts ==> Value(code, amounts, literal) == amounts[code]
    ensures code !in amounts ==> Value(code, amounts, literal) == literal(code)
  {
    PlainWord(code);
    FirstToken(code, |code|);
    assert code[..|code|] == code && code[|code|..] == [];
    assert !IsSignToken(code) && !IsSign(code[0]);
    var tokens := [code];
    assert Tokens(code) == tokens && tokens[1..] == [];
    assert TokenSum(tokens[1..], true, amounts, literal) == 0.0;
  }

  // ----- sums and differences -----

  lemma {:induction false} FirstSegmentOfJoin(f: string, c: char, g: string)
    requires c == '+' || c == '-'
    ensures SegmentLength(f + [c] + g) == SegmentLength(f)
  {
    var s := f + [c] + g;
    if f == [] {
      assert s[0] == c;
    } else {
      assert s[0] == f[0] && s[1..] == f[1..] + [c] + g;
      FirstSegmentOfJoin(f[1..], c, g);
    }
  }

  lemma {:induction false} JoinedMeaning(f: string, c: char, g: string, positive: bool, amounts: map<string, real>, literal: string -> real)
    requires c == '+' || c == '-'
    ensures Meaning(f + [c] + g, positive, amounts, literal)
         == Meaning(f, positive, amounts, literal) + Meaning(g, c == '+', amounts, literal)
    decreases |f|
  {
    var s, n := f + [c] + g, SegmentLength(f);
    FirstSegmentOfJoin(f, c, g);
    assert s[..n] == f[..n];
    if n == |f| {
      assert f[..n] == f && s[n] == c && s[n + 1..] == g;
    } else {
      assert s[n] == f[n] && s[n + 1..] == f[n + 1..] + [c] + g;
      JoinedMeaning(f[n + 1..], c, g, f[n] == '+', amounts, literal);
    }
  }

  /** Joining two formulas with a plus adds their values. */
  lemma PlusAdds(f: string, g: string, amounts: map<string, real>, literal: string -> real)
    ensures Value(f + "+" + g, amounts, literal) == Value(f, amounts, literal) + Value(g, amounts, literal)
  {
    JoinedMeaning(f, '+', g, true, amounts, literal);
    ValueIsMeaning(f + "+" + g, true, amounts, literal);
    ValueIsMeaning(f, true, amounts, literal);
    ValueIsMeaning(g, true, amounts, literal);
  }

  lemma {:induction false} NoSignNoSegments(g: string)
    requires forall i | 0 <= i < |g| :: g[i] != '+' && g[i] != '-'
    ensures SegmentLength(g) == |g|
  {
    if g != [] {
      forall i | 0 <= i < |g[1..]| ensures g[1..][i] != '+' && g[1..][i] != '-' {
        assert g[1..][i] == g[i + 1];
      }
      NoSignNoSegments(g[1..]);
    }
  }

  /** Joining a formula and a part without signs by a minus takes the part's value off. */
  lemma MinusSubtracts(f: string, g: string, amounts: map<string, real>, literal: string -> real)
    requires forall i | 0 <= i < |g| :: g[i] != '+' && g[i] != '-'
    ensures Value(f + "-" + g, amounts, literal) == Value(f, amounts, literal) - Value(g, amounts, literal)
  {
    JoinedMeaning(f, '-', g, true, amounts, literal);
    ValueIsMeaning(f + "-" + g, true, amounts, literal);
    ValueIsMeaning(f, true, amounts, literal);
    ValueIsMeaning(g, true, amounts, literal);
    NoSignNoSegments(g);
  }

  // ----- linearity -----

  type Mix = (real, real) -> real

  ghost predicate AddsAt(mix: Mix, a: real, b: real, ra: real, rb: real) {
    mix(a + ra, b + rb) == mix(a, b) + mix(ra, rb) && mix(-a + ra, -b + rb) == -mix(a, b) + mix(ra, rb)
  }

  /** A combination of two numbers that respects sums and differences. */
  ghost predicate Additive(mix: Mix) {
    mix(0.0, 0.0) == 0.0 && forall a, b, ra, rb {:trigger AddsAt(mix, a, b, ra, rb)} :: AddsAt(mix, a, b, ra, rb)
  }

  /** Pointwise over the same rows and over all literals. */
  ghost predicate Mixed(mix: Mix, a: map<string, real>, b: map<string, real>, c: map<string, real>,
                        la: string -> real, lb: string -> real, lc: string -> real)
  {
    && a.Keys == b.Keys == c.Keys
    && (forall key | key in c :: c[key] == mix(a[key], b[key]))
    && forall t :: lc(t) == mix(la(t), lb(t))
  }

  lemma OneIsMixed(mix: Mix, t: string, a: map<string, real>, b: map<string, real>, c: map<string, real>,
                   la: string -> real, lb: string -> real, lc: string -> real)
    requires Mixed(mix, a, b, c, la, lb, lc)
    ensures Resolve(t, c, lc) == mix(Resolve(t, a, la), Resolve(t, b, lb))
  {
    assert t in a <==> t in c;
    assert t in b <==> t in c;
  }

  lemma {:induction false} TokensAreMixed(mix: Mix, tokens: seq<string>, positive: bool,
                                          a: map<string, real>, b: map<string, real>, c: map<string, real>,
                                          la: string -> real, lb: string -> real, lc: string -> real)
    requires Additive(mix) && Mixed(mix, a, b, c, la, lb, lc)
    ensures TokenSum(tokens, positive, c, lc) == mix(TokenSum(tokens, positive, a, la), TokenSum(tokens, positive, b, lb))
    decreases |tokens|
  {
    if tokens != [] {
      if IsSignToken(tokens[0]) {
        TokensAreMixed(mix, tokens[1..], tokens[0][0] == '+', a, b, c, la, lb, lc);
      } else {
        OneIsMixed(mix, tokens[0], a, b, c, la, lb, lc);
        TokensAreMixed(mix, tokens[1..], positive, a, b, c, la, lb, lc);
        var ta, tb := Resolve(tokens[0], a, la), Resolve(tokens[0], b, lb);
        var ra, rb := TokenSum(tokens[1..], positive, a, la), TokenSum(tokens[1..], positive, b, lb);
        assert AddsAt(mix, ta, tb, ra, rb);
      }
    }
  }

  lemma Distributes(x: real, y: real, a: real, b: real, ra: real, rb: real)
    ensures x * (a + ra) + y * (b + rb) == (x * a + y * b) + (x * ra + y * rb)
    ensures x * (-a + ra) + y * (-b + rb) == -(x * a + y * b) + (x * ra + y * rb)
  {}

  function Linear(x: real, y: real): Mix {
    (a: real, b: real) => x * a + y * b
  }

  lemma LinearIsAdditive(x: real, y: real)
    ensures Additive(Linear(x, y))
  {
    forall a, b, ra, rb ensures AddsAt(Linear(x, y), a, b, ra, rb) {
      Distributes(x, y, a, b, ra, rb);
    }
  }

  /** The value is linear in the amounts of the rows and the literals: when all of them are x times one plus y times
      another, so is the value. */
  lemma ValueIsLinear(formula: string, x: real, y: real, a: map<string, real>, b: map<string, real>, c: map<string, real>,
                      la: string -> real, lb: string -> real, lc: string -> real)
    requires Mixed(Linear(x, y), a, b, c, la, lb, lc)
    ensures Value(formula, c, lc) == Linear(x, y)(Value(formula, a, la), Value(formula, b, lb))
  {
    LinearIsAdditive(x, y);
    TokensAreMixed(Linear(x, y), Tokens(formula), true, a, b, c, la, lb, lc);
  }

  // ----- well-spaced formulas -----

  /** What a trimmed part between signs is worth: nothing when blank, else the row's amount or the literal. */
  function Worth(part: string, amounts: map<string, real>, literal: string -> real): real {
    if part == "" then 0.0 else if part in amounts then amounts[part] else literal(part)
  }

  /** Part by part, each with the sign before it. */
  function SignedSum(formula: string, positive: bool, amounts: map<string, real>, literal: string -> real): real
    decreases |formula|
  {
    var n := SegmentLength(formula);
    var worth := Worth(Trim(formula[..n]), amounts, literal);
    (if positive then worth else -worth)
      + if n < |formula| then SignedSum(formula[n + 1..], formula[n] == '+', amounts, literal) else 0.0
  }

  lemma PartIsWorth(part: string, amounts: map<string, real>, literal: string -> real)
    requires |Words(part)| <= 1 && forall c | c in part :: !IsSign(c)
    ensures WordSum(Words(part), amounts, literal) == Worth(Trim(part), amounts, literal)
  {
    TrimFindsTheWord(part);
    WordsAreWords(part);
    if |Words(part)| == 1 {
      assert Words(part)[1..] == [];
      assert IsWord(Words(part)[0]);
    }
  }

  /** A formula that keeps names apart is worth the signed sum of its rows' amounts, with literals for the rest. */
  lemma {:induction false} WellSpacedMeaning(formula: string, positive: bool, amounts: map<string, real>, literal: string -> real)
    requires WellSpaced(formula)
    ensures Meaning(formula, positive, amounts, literal) == SignedSum(formula, positive, amounts, literal)
    decreases |formula|
  {
    var n := SegmentLength(formula);
    FirstIsWellSpaced(formula, n);
    SegmentIsPlain(formula);
    PartIsWorth(formula[..n], amounts, literal);
    if n < |formula| {
      WellSpacedMeaning(formula[n + 1..], formula[n] == '+', amounts, literal);
    } else {
      assert formula[..n] == formula;
    }
  }

  lemma WellSpacedValue(formula: string, amounts: map<string, real>, literal: string -> real)
    requires WellSpaced(formula)
    ensures Value(formula, amounts, literal) == SignedSum(formula, true, amounts, literal)
  {
    ValueIsMeaning(formula, true, amounts, literal);
    WellSpacedMeaning(formula, true, amounts, literal);
  }

  // ----- what the parser reports -----

  /** The characters that part names: those of the white space class of regular expressions. */
  lemma WhiteSpace(c: char)
    ensures IsSpace(c) <==>
      || c as int in [9, 10, 11, 12, 13, 32, 0xA0, 0x1680, 0x2028, 0x2029, 0x202F, 0x205F, 0x3000, 0xFEFF]
      || 0x2000 <= c as int <= 0x200A
  {}

  ghost predicate Blank(s: string) {
    forall i | 0 <= i < |s| :: IsSpace(s[i])
  }

  /** Trimming takes the white space off both ends and nothing else. */
  lemma TrimIs(s: string) returns (head: string, tail: string)
    ensures s == head + Trim(s) + tail && Blank(head) && Blank(tail)
    ensures Trim(s) != "" ==> !IsSpace(Trim(s)[0]) && !IsSpace(Trim(s)[|Trim(s)| - 1])
  {
    head := StartTrimmed(s);
    tail := EndTrimmed(TrimStart(s));
  }

  lemma {:induction false} StartTrimmed(s: string) returns (head: string)
    ensures s == head + TrimStart(s) && Blank(head)
    ensures TrimStart(s) != "" ==> !IsSpace(TrimStart(s)[0])
  {
    head := "";
    if s != [] && IsSpace(s[0]) {
      head := StartTrimmed(s[1..]);
      head := [s[0]] + head;
    }
  }

  lemma {:induction false} EndTrimmed(s: string) returns (tail: string)
    ensures s == TrimEnd(s) + tail && Blank(tail)
    ensures TrimEnd(s) != "" ==> !IsSpace(TrimEnd(s)[|TrimEnd(s)| - 1]) && TrimEnd(s)[0] == s[0]
    decreases |s|
  {
    tail := "";
    if s != [] && IsSpace(s[|s| - 1]) {
      var n := |s| - 1;
      tail := EndTrimmed(s[..n]);
      tail := tail + [s[n]];
    }
  }

  lemma {:induction false} SplitOfJoin(f: string, c: char, g: string)
    requires c == '+' || c == '-'
    ensures Split(f + [c] + g) == Split(f) + Split(g)
    decreases |f|
  {
    var s, n := f + [c] + g, SegmentLength(f);
    FirstSegmentOfJoin(f, c, g);
    assert s[..n] == f[..n];
    if n == |f| {
      assert f[..n] == f && s[n] == c && s[n + 1..] == g;
    } else {
      assert s[n] == f[n] && s[n + 1..] == f[n + 1..] + [c] + g;
      SplitOfJoin(f[n + 1..], c, g);
      assert [f[..n]] + (Split(f[n + 1..]) + Split(g)) == ([f[..n]] + Split(f[n + 1..])) + Split(g);
    }
  }

  /** What is reported for two formulas joined by a sign is what is reported for either, in order. */
  lemma DependenciesOfJoin(f: string, c: char, g: string)
    requires c == '+' || c == '-'
    ensures ParseDependencies(f + [c] + g) == ParseDependencies(f) + ParseDependencies(g)
  {
    SplitOfJoin(f, c, g);
    assert TrimAll(Split(f) + Split(g)) == TrimAll(Split(f)) + TrimAll(Split(g));
    FilterAppend(TrimAll(Split(f)), TrimAll(Split(g)), NamesARow());
  }

  /** A part without signs is reported as one name, trimmed, unless it is blank or a number. */
  lemma DependencyOfPart(part: string)
    requires forall i | 0 <= i < |part| :: part[i] != '+' && part[i] != '-'
    ensures ParseDependencies(part) == if Trim(part) == "" || IsNumeral(Trim(part)) then [] else [Trim(part)]
  {
    NoSignNoSegments(part);
    assert TrimAll(Split(part)) == [Trim(part)];
    if Trim(part) == "" || IsNumeral(Trim(part)) {
      FilterNone([Trim(part)], NamesARow());
    } else {
      FilterAll([Trim(part)], NamesARow());
    }
  }

  // ----- numerals -----

  ghost predicate Digits(s: string) {
    s != [] && forall i | 0 <= i < |s| :: '0' <= s[i] <= '9'
  }

  lemma {:induction false} DigitsRun(s: string)
    ensures DigitRun(s) == |s| <==> forall i | 0 <= i < |s| :: '0' <= s[i] <= '9'
    ensures DigitRun(s) < |s| ==> !('0' <= s[DigitRun(s)] <= '9')
  {
    if s != [] {
      DigitsRun(s[1..]);
      if DigitRun(s[1..]) == |s[1..]| {
        forall i | 1 <= i < |s| ensures '0' <= s[i] <= '9' {
          assert s[1..][i - 1] == s[i];
        }
      }
    }
  }

  /** What the parser takes for a number and leaves out: digits, or digits, a point and digits. */
  lemma NumeralIff(s: string)
    ensures IsNumeral(s) <==>
      Digits(s) || exists k :: 0 < k < |s| && s[k] == '.' && Digits(s[..k]) && Digits(s[k + 1..])
  {
    var n := DigitRun(s);
    DigitsRun(s);
    if n < |s| {
      DigitsRun(s[n + 1..]);
      if IsNumeral(s) {
        assert Digits(s[..n]) && Digits(s[n + 1..]);
      }
    }
    if k :| 0 < k < |s| && s[k] == '.' && Digits(s[..k]) && Digits(s[k + 1..]) {
      forall i | 0 <= i < k ensures '0' <= s[i] <= '9' {
        assert s[..k][i] == s[i];
      }
      assert n == k;
    }
  }
}
