/** The fact-checker's number pattern
    `\$\d+(?:[.,]\d+)*|\d+(?:[.,]\d+)*%|\b\d+(?:[.,]\d+)*\b`
    and which digits of a text it reaches. */
module NumericScanner {
  import opened Text
  import opened Regex

  const SEPARATORS := {'.', ','}
  const DIGITS := Plus(Chr(Digit))
  const GROUP := Cat(Chr(OneOf(SEPARATORS)), DIGITS)
  const NUMBER := Cat(DIGITS, Star(GROUP))
  const DOLLAR_AMOUNT := Cat(Chr(OneOf({'$'})), NUMBER)
  const PERCENTAGE := Cat(NUMBER, Chr(OneOf({'%'})))
  const BARE_NUMBER := Cat(WordBoundary, Cat(NUMBER, WordBoundary))
  const NUMERIC := Alt(DOLLAR_AMOUNT, Alt(PERCENTAGE, BARE_NUMBER))

  lemma NumericConsumes()
    ensures Consumes(NUMERIC)
  {
    assert Consumes(DIGITS) && Consumes(NUMBER);
  }

  function Numerics(s: string): (ts: seq<Span>)
    ensures forall k | 0 <= k < |ts| :: ts[k].lo < ts[k].hi <= |s|
    ensures forall j, k | 0 <= j < k < |ts| :: ts[j].hi <= ts[k].lo
  {
    NumericConsumes();
    FindAll(NUMERIC, s, 0)
  }

  predicate DigitAt(s: string, i: int) { 0 <= i < |s| && IsDigit(s[i]) }

  predicate SeparatorAt(s: string, i: int) { 0 <= i < |s| && s[i] in SEPARATORS }

  /** [a, b) is a maximal run of digits. */
  predicate MaximalRun(s: string, a: nat, b: nat) {
    a < b <= |s| && (forall k | a <= k < b :: DigitAt(s, k)) && !DigitAt(s, a - 1) && !DigitAt(s, b)
  }

  /** No word character touches the run. */
  predicate Standalone(s: string, a: nat, b: nat) { !WordAt(s, a - 1) && !WordAt(s, b) }

  function RunEnd(s: string, i: nat): (e: nat)
    requires i <= |s|
    ensures i <= e <= |s| && !DigitAt(s, e)
    ensures forall k | i <= k < e :: DigitAt(s, k)
    decreases |s| - i
  {
    if DigitAt(s, i) then RunEnd(s, i + 1) else i
  }

  /** End of the longest `\d+(?:[.,]\d+)*` that continues a digit run ending at e. */
  function GroupsEnd(s: string, e: nat): (g: nat)
    requires e <= |s|
    ensures e <= g <= |s|
    ensures !(SeparatorAt(s, g) && DigitAt(s, g + 1))
    ensures forall k | e <= k < g :: DigitAt(s, k) || SeparatorAt(s, k)
    ensures !DigitAt(s, e) ==> !DigitAt(s, g)
    decreases |s| - e
  {
    if SeparatorAt(s, e) && DigitAt(s, e + 1) then GroupsEnd(s, RunEnd(s, e + 1)) else e
  }

  /** End of the longest number starting at i. */
  function ChainEnd(s: string, i: nat): (g: nat)
    requires i <= |s|
    ensures i <= g <= |s| && !DigitAt(s, g)
    ensures forall k | i <= k < g :: DigitAt(s, k) || SeparatorAt(s, k)
  {
    GroupsEnd(s, RunEnd(s, i))
  }

  // ---- the engine's first choices -----------------------------------------

  lemma {:induction false} DigitStarFirst(s: string, i: nat)
    requires i <= |s|
    ensures Ends(Star(Chr(Digit)), s, i) != [] && Ends(Star(Chr(Digit)), s, i)[0] == RunEnd(s, i)
    decreases |s| - i
  {
    StarFirst(Chr(Digit), s, i);
    if DigitAt(s, i) {
      DigitStarFirst(s, i + 1);
    }
  }

  lemma DigitsFirst(s: string, i: nat)
    requires i <= |s|
    ensures DigitAt(s, i) ==> Ends(DIGITS, s, i) != [] && Ends(DIGITS, s, i)[0] == RunEnd(s, i)
    ensures !DigitAt(s, i) ==> Ends(DIGITS, s, i) == []
  {
    if DigitAt(s, i) {
      DigitStarFirst(s, i + 1);
      CatFirst(Chr(Digit), Star(Chr(Digit)), s, i);
    }
  }

  lemma GroupFirst(s: string, i: nat)
    requires i <= |s|
    ensures SeparatorAt(s, i) && DigitAt(s, i + 1) ==>
              Ends(GROUP, s, i) != [] && Ends(GROUP, s, i)[0] == RunEnd(s, i + 1)
    ensures !(SeparatorAt(s, i) && DigitAt(s, i + 1)) ==> Ends(GROUP, s, i) == []
  {
    if SeparatorAt(s, i) {
      DigitsFirst(s, i + 1);
      assert Ends(Chr(OneOf(SEPARATORS)), s, i) == [i + 1];
      CatSingle(Chr(OneOf(SEPARATORS)), DIGITS, s, i, i + 1);
    }
  }

  lemma {:induction false} GroupStarFirst(s: string, e: nat)
    requires e <= |s|
    ensures Ends(Star(GROUP), s, e) != [] && Ends(Star(GROUP), s, e)[0] == GroupsEnd(s, e)
    decreases |s| - e
  {
    StarFirst(GROUP, s, e);
    GroupFirst(s, e);
    if SeparatorAt(s, e) && DigitAt(s, e + 1) {
      GroupStarFirst(s, RunEnd(s, e + 1));
    }
  }

  lemma NumberFirst(s: string, i: nat)
    requires i <= |s|
    ensures DigitAt(s, i) ==> Ends(NUMBER, s, i) != [] && Ends(NUMBER, s, i)[0] == ChainEnd(s, i)
    ensures !DigitAt(s, i) ==> Ends(NUMBER, s, i) == []
  {
    DigitsFirst(s, i);
    if DigitAt(s, i) {
      GroupStarFirst(s, RunEnd(s, i));
      CatFirst(DIGITS, Star(GROUP), s, i);
    }
  }

  // ---- what a number can and cannot end at --------------------------------

  lemma NumberChars(c: char)
    ensures Allows(NUMBER, c) <==> IsDigit(c) || c in SEPARATORS
  {
    assert Allows(Chr(Digit), c) <==> IsDigit(c);
    assert Allows(Star(Chr(Digit)), c) <==> IsDigit(c);
    assert Allows(DIGITS, c) <==> IsDigit(c);
    assert Allows(GROUP, c) <==> IsDigit(c) || c in SEPARATORS;
  }

  /** The only end of a number that a '%' can follow is the longest one. */
  lemma EndBeforePercent(s: string, i: nat, e: nat)
    requires i <= |s| && Matches(NUMBER, s, i, e) && e < |s| && s[e] == '%'
    ensures i < e && e == ChainEnd(s, i)
  {
    NumberFirst(s, i);
    ConsumesAdvances(NUMBER, s, i, e) by { assert Consumes(DIGITS); }
    forall k | i <= k < e
      ensures DigitAt(s, k) || SeparatorAt(s, k)
    {
      MatchAllows(NUMBER, s, i, e, k);
      NumberChars(s[k]);
    }
    ChainUpTo(s, i, e);
    if e > ChainEnd(s, i) {
      NumberBound(s, i, e);
    }
  }

  lemma ChainUpTo(s: string, i: nat, e: nat)
    requires i <= |s| && e < |s| && s[e] == '%'
    ensures !(i <= e < ChainEnd(s, i))
  {
    assert i <= e < ChainEnd(s, i) ==> DigitAt(s, e) || SeparatorAt(s, e);
  }

  lemma DigitsEndGroups(s: string, e: nat)
    requires e <= |s| && DigitAt(s, e)
    ensures GroupsEnd(s, e) == e
  {
  }

  lemma {:induction false} DigitStarBound(s: string, i: nat, e: nat)
    requires i <= |s| && Matches(Star(Chr(Digit)), s, i, e)
    ensures i <= e <= RunEnd(s, i)
    decreases |s| - i
  {
    if e != i {
      var m := StarSplit(Chr(Digit), s, i, e);
      DigitStarBound(s, m, e);
    }
  }

  lemma DigitsBound(s: string, i: nat, e: nat)
    requires i <= |s| && Matches(DIGITS, s, i, e)
    ensures DigitAt(s, i) && i < e <= RunEnd(s, i)
  {
    var m := CatSplit(Chr(Digit), Star(Chr(Digit)), s, i, e);
    DigitStarBound(s, m, e);
  }

  lemma GroupBound(s: string, m: nat, q: nat)
    requires m <= |s| && Matches(GROUP, s, m, q)
    ensures SeparatorAt(s, m) && DigitAt(s, m + 1) && m + 1 < q <= RunEnd(s, m + 1)
  {
    var d := CatSplit(Chr(OneOf(SEPARATORS)), DIGITS, s, m, q);
    DigitsBound(s, d, q);
  }

  lemma GroupsFrom(s: string, m: nat, q: nat)
    requires m < |s| && SeparatorAt(s, m) && DigitAt(s, m + 1) && m + 1 < q <= RunEnd(s, m + 1)
    ensures GroupsEnd(s, q) <= GroupsEnd(s, m)
  {
    if q < RunEnd(s, m + 1) {
      assert DigitAt(s, q);
      DigitsEndGroups(s, q);
    }
  }

  lemma {:induction false} GroupStarBound(s: string, m: nat, e: nat)
    requires m <= |s| && Matches(Star(GROUP), s, m, e)
    ensures m <= e <= GroupsEnd(s, m)
    decreases |s| - m
  {
    if e != m {
      var q := StarSplit(GROUP, s, m, e);
      GroupBound(s, m, q);
      GroupStarBound(s, q, e);
      GroupsFrom(s, m, q);
    }
  }

  lemma NumberBound(s: string, i: nat, e: nat)
    requires i <= |s| && Matches(NUMBER, s, i, e)
    ensures e <= ChainEnd(s, i)
  {
    var m := CatSplit(DIGITS, Star(GROUP), s, i, e);
    DigitsBound(s, i, m);
    GroupStarBound(s, m, e);
    if m < RunEnd(s, i) {
      assert DigitAt(s, m);
      DigitsEndGroups(s, m);
    }
  }

  // ---- the three kinds of token -------------------------------------------

  predicate IsDollarToken(s: string, t: Span) {
    t.lo < |s| && s[t.lo] == '$' && DigitAt(s, t.lo + 1) && t.hi == ChainEnd(s, t.lo + 1)
  }

  predicate IsPercentToken(s: string, t: Span) {
    t.lo < t.hi <= |s| && DigitAt(s, t.lo) && s[t.hi - 1] == '%' && t.hi == ChainEnd(s, t.lo) + 1
  }

  predicate IsBareToken(s: string, t: Span) {
    && DigitAt(s, t.lo) && t.lo < t.hi <= ChainEnd(s, t.lo) && AtBoundary(s, t.lo) && AtBoundary(s, t.hi)
  }

  lemma DollarEnds(s: string, i: nat)
    requires i <= |s|
    ensures Ends(DOLLAR_AMOUNT, s, i) != [] <==> i < |s| && s[i] == '$' && DigitAt(s, i + 1)
    ensures Ends(DOLLAR_AMOUNT, s, i) != [] ==> Ends(DOLLAR_AMOUNT, s, i)[0] == ChainEnd(s, i + 1)
  {
    if i < |s| && s[i] == '$' {
      assert Ends(Chr(OneOf({'$'})), s, i) == [i + 1];
      CatSingle(Chr(OneOf({'$'})), NUMBER, s, i, i + 1);
      NumberFirst(s, i + 1);
    }
  }

  lemma PercentEnds(s: string, i: nat, e: nat)
    requires i <= |s| && Matches(PERCENTAGE, s, i, e)
    ensures IsPercentToken(s, Span(i, e))
  {
    var m := CatSplit(NUMBER, Chr(OneOf({'%'})), s, i, e);
    EndBeforePercent(s, i, m);
    NumberFirst(s, i);
  }

  lemma BareEnds(s: string, i: nat, e: nat)
    requires i <= |s| && Matches(BARE_NUMBER, s, i, e)
    ensures IsBareToken(s, Span(i, e))
  {
    var m := CatSplit(WordBoundary, Cat(NUMBER, WordBoundary), s, i, e);
    var n := CatSplit(NUMBER, WordBoundary, s, i, e);
    NumberFirst(s, i);
    ConsumesAdvances(NUMBER, s, i, e) by { assert Consumes(DIGITS); }
    NumberBound(s, i, e);
  }

  /** Every reported token is one of the three kinds. */
  lemma TokenKinds(s: string, t: Span)
    requires FirstMatch(NUMERIC, s, t)
    ensures IsDollarToken(s, t) || IsPercentToken(s, t) || IsBareToken(s, t)
  {
    DollarEnds(s, t.lo);
    var d, p, b := Ends(DOLLAR_AMOUNT, s, t.lo), Ends(PERCENTAGE, s, t.lo), Ends(BARE_NUMBER, s, t.lo);
    assert Ends(NUMERIC, s, t.lo) == d + (p + b);
    if d == [] {
      if p != [] {
        assert t.hi == p[0];
        PercentEnds(s, t.lo, t.hi);
      } else {
        assert t.hi == b[0];
        BareEnds(s, t.lo, t.hi);
      }
    }
  }

  /** A token never stops in the middle of a digit run. */
  lemma NeverSplitsARun(s: string, t: Span)
    requires FirstMatch(NUMERIC, s, t)
    ensures !(DigitAt(s, t.hi - 1) && DigitAt(s, t.hi))
  {
    TokenKinds(s, t);
  }

  // ---- which runs the scanner reaches -------------------------------------

  predicate Reaches(t: Span, a: nat, b: nat) { t.lo <= a && b <= t.hi }

  lemma CoverExtends(s: string, t: Span, a: nat, b: nat)
    requires FirstMatch(NUMERIC, s, t) && MaximalRun(s, a, b) && Covers(t, a)
    ensures Reaches(t, a, b)
  {
    NeverSplitsARun(s, t);
  }

  /** The run belongs to a number that a '%' ends. */
  predicate InPercentage(s: string, a: nat)
    requires a <= |s|
  {
    ChainEnd(s, a) < |s| && s[ChainEnd(s, a)] == '%'
  }

  /** The run belongs to a number that a '$' starts. */
  predicate InDollarAmount(s: string, a: nat)
    requires a <= |s|
  {
    exists p | 0 <= p < a :: s[p] == '$' && DigitAt(s, p + 1) && ChainEnd(s, p + 1) > a
  }

  lemma {:induction false} RunEndIs(s: string, a: nat, b: nat)
    requires a <= b <= |s| && !DigitAt(s, b) && forall k | a <= k < b :: DigitAt(s, k)
    ensures RunEnd(s, a) == b
    decreases b - a
  {
    if a < b {
      assert DigitAt(s, a);
      RunEndIs(s, a + 1, b);
    }
  }

  lemma RunIsANumber(s: string, a: nat, b: nat)
    requires MaximalRun(s, a, b)
    ensures RunEnd(s, a) == b && Matches(NUMBER, s, a, b)
  {
    RunEndIs(s, a, b);
    DigitsFirst(s, a);
    StarNonEmpty(GROUP, s, b);
    CatMatch(DIGITS, Star(GROUP), s, a, b, b);
  }

  lemma ReachedIfStandalone(s: string, a: nat, b: nat)
    requires MaximalRun(s, a, b) && Standalone(s, a, b)
    ensures Ends(NUMERIC, s, a) != []
  {
    RunIsANumber(s, a, b);
    assert DigitAt(s, a) && DigitAt(s, b - 1);
    assert Ends(WordBoundary, s, b) == [b] && Ends(WordBoundary, s, a) == [a];
    CatMatch(NUMBER, WordBoundary, s, a, b, b);
    CatMatch(WordBoundary, Cat(NUMBER, WordBoundary), s, a, a, b);
  }

  lemma ReachedIfPercentage(s: string, a: nat)
    requires DigitAt(s, a) && InPercentage(s, a)
    ensures Ends(NUMERIC, s, a) != []
  {
    NumberFirst(s, a);
    var g := ChainEnd(s, a);
    assert Ends(Chr(OneOf({'%'})), s, g) == [g + 1];
    CatMatch(NUMBER, Chr(OneOf({'%'})), s, a, g, g + 1);
  }

  lemma DollarOpensItsToken(s: string, t: Span, p: nat)
    requires FirstMatch(NUMERIC, s, t) && Covers(t, p) && s[p] == '$' && DigitAt(s, p + 1)
    ensures t == Span(p, ChainEnd(s, p + 1))
  {
    TokenKinds(s, t);
    assert !DigitAt(s, p) && !SeparatorAt(s, p);
    assert IsPercentToken(s, t) ==> !(t.lo <= p < t.hi - 1);
  }

  /** Position inside a number: the rest of the number ends at the same place. */
  lemma {:induction false} ChainSuffix(s: string, i: nat, a: nat)
    requires i <= |s| && i <= a < ChainEnd(s, i) && DigitAt(s, a)
    ensures ChainEnd(s, a) == ChainEnd(s, i)
    decreases |s| - i
  {
    var e := RunEnd(s, i);
    if a < e {
      SameRun(s, i, a);
    } else {
      assert a != e;
      ChainSuffix(s, e + 1, a);
    }
  }

  lemma {:induction false} SameRun(s: string, i: nat, a: nat)
    requires i <= |s| && i <= a <= RunEnd(s, i)
    ensures RunEnd(s, a) == RunEnd(s, i)
    decreases a - i
  {
    if i < a {
      SameRun(s, i + 1, a);
    }
  }

  /** Exactly which maximal digit runs the three-way scanner reaches. */
  lemma ReachedRuns(s: string, a: nat, b: nat)
    requires MaximalRun(s, a, b)
    ensures (exists k | 0 <= k < |Numerics(s)| :: Reaches(Numerics(s)[k], a, b))
        <==> Standalone(s, a, b) || InPercentage(s, a) || InDollarAmount(s, a)
  {
    var ts := Numerics(s);
    NumericConsumes();
    FoundIsFirst(NUMERIC, s, 0);
    if k :| 0 <= k < |ts| && Reaches(ts[k], a, b) {
      TokenKinds(s, ts[k]);
      ReachedOnlyIf(s, ts[k], a, b);
    }
    if Standalone(s, a, b) || InPercentage(s, a) {
      if Standalone(s, a, b) { ReachedIfStandalone(s, a, b); } else { ReachedIfPercentage(s, a); }
      var k := Leftmost(NUMERIC, s, 0, a);
      CoverExtends(s, ts[k], a, b);
    } else if InDollarAmount(s, a) {
      var p :| 0 <= p < a && s[p] == '$' && DigitAt(s, p + 1) && ChainEnd(s, p + 1) > a;
      DollarEnds(s, p);
      var k := Leftmost(NUMERIC, s, 0, p);
      DollarOpensItsToken(s, ts[k], p);
      CoverExtends(s, ts[k], a, b);
    }
  }

  lemma ReachedOnlyIf(s: string, t: Span, a: nat, b: nat)
    requires IsDollarToken(s, t) || IsPercentToken(s, t) || IsBareToken(s, t)
    requires MaximalRun(s, a, b) && Reaches(t, a, b)
    ensures Standalone(s, a, b) || InPercentage(s, a) || InDollarAmount(s, a)
  {
    assert DigitAt(s, a);
    if IsDollarToken(s, t) {
      InsideDollarToken(s, t, a);
    } else if IsPercentToken(s, t) {
      ChainSuffix(s, t.lo, a);
    } else {
      InsideBareToken(s, t, a, b);
    }
  }

  lemma InsideDollarToken(s: string, t: Span, a: nat)
    requires IsDollarToken(s, t) && t.lo <= a < t.hi && DigitAt(s, a)
    ensures InDollarAmount(s, a)
  {
    assert t.lo < a;
    assert s[t.lo] == '$' && DigitAt(s, t.lo + 1) && ChainEnd(s, t.lo + 1) > a;
  }

  lemma InsideBareToken(s: string, t: Span, a: nat, b: nat)
    requires IsBareToken(s, t) && MaximalRun(s, a, b) && Reaches(t, a, b)
    ensures Standalone(s, a, b)
  {
    assert DigitAt(s, b - 1);
    assert a > t.lo ==> DigitAt(s, a - 1) || SeparatorAt(s, a - 1);
    assert b < t.hi ==> DigitAt(s, b) || SeparatorAt(s, b);
  }

  /** No standalone number escapes: its digits lie in exactly one token. */
  lemma StandaloneRunsAreScanned(s: string, a: nat, b: nat) returns (k: nat)
    requires MaximalRun(s, a, b) && Standalone(s, a, b)
    ensures k < |Numerics(s)| && Reaches(Numerics(s)[k], a, b)
    ensures forall j | 0 <= j < |Numerics(s)| && j != k :: Numerics(s)[j].hi <= a || b <= Numerics(s)[j].lo
  {
    ReachedRuns(s, a, b);
    k :| 0 <= k < |Numerics(s)| && Reaches(Numerics(s)[k], a, b);
  }

  /** The characters a numeric token is made of. */
  lemma TokenChars(s: string, k: nat, i: nat)
    requires k < |Numerics(s)| && Covers(Numerics(s)[k], i)
    ensures IsDigit(s[i]) || s[i] in SEPARATORS || s[i] == '$' || s[i] == '%'
  {
    NumericConsumes();
    FoundIsFirst(NUMERIC, s, 0);
    KindChars(s, Numerics(s)[k], i);
  }

  lemma KindChars(s: string, t: Span, i: nat)
    requires FirstMatch(NUMERIC, s, t) && Covers(t, i)
    ensures DigitAt(s, i) || SeparatorAt(s, i) || s[i] == '$' || s[i] == '%'
  {
    TokenKinds(s, t);
    assert IsDollarToken(s, t) && i > t.lo ==> DigitAt(s, i) || SeparatorAt(s, i);
    assert IsPercentToken(s, t) && i < t.hi - 1 ==> DigitAt(s, i) || SeparatorAt(s, i);
  }
}
