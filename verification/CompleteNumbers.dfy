/** Numbers of a text that are not a part of anything longer: what the fact checker's
    anchors are meant to find. */
module CompleteNumbers {
  import opened Regex
  import opened NumericScanner

  /** No digit touches [lo, hi). */
  predicate Unadjacent(s: string, lo: int, hi: int) {
    0 <= lo <= hi <= |s| && !DigitAt(s, lo - 1) && !DigitAt(s, hi)
  }

  predicate CharAt(s: string, i: int, c: char) { 0 <= i < |s| && s[i] == c }

  predicate SignAt(s: string, i: int) { CharAt(s, i, '+') || CharAt(s, i, '-') }

  predicate ExponentMarkAt(s: string, i: int) { CharAt(s, i, 'e') || CharAt(s, i, 'E') }

  /** A number that starts at i has begun before: in a word, at a dollar sign or a point, or as a later group or the
      signed exponent of a longer number. */
  predicate HasBegun(s: string, i: int) {
    && DigitAt(s, i)
    && (|| WordAt(s, i - 1) || CharAt(s, i - 1, '$') || CharAt(s, i - 1, '.')
        || (SeparatorAt(s, i - 1) && DigitAt(s, i - 2))
        || (SignAt(s, i - 1) && ExponentMarkAt(s, i - 2) && DigitAt(s, i - 3)))
  }

  /** A number whose last digit stands before i goes on there: with a word, an exponent mark included, with a percent
      sign or with a further group. */
  predicate GoesOn(s: string, i: int) {
    && DigitAt(s, i - 1)
    && (WordAt(s, i) || CharAt(s, i, '%') || (SeparatorAt(s, i) && DigitAt(s, i + 1)))
  }

  /** [lo, hi) is not a part of a longer number, amount, percentage or word. */
  predicate Complete(s: string, lo: int, hi: int) {
    Unadjacent(s, lo, hi) && !HasBegun(s, lo) && !GoesOn(s, hi)
  }

  // ---- complete numbers are tokens ----------------------------------------

  /** A separator inside a number stands between two digits. */
  lemma {:induction false} SeparatorsInside(s: string, i: nat, k: nat)
    requires i <= |s| && DigitAt(s, i) && i <= k < ChainEnd(s, i) && SeparatorAt(s, k)
    ensures i < k && DigitAt(s, k - 1) && DigitAt(s, k + 1)
    decreases |s| - i
  {
    var e := RunEnd(s, i);
    assert k < e ==> DigitAt(s, k);
    assert e > i;
    if k > e { SeparatorsInside(s, e + 1, k); }
  }

  /** No token that starts further left reaches the first digit of a complete number. */
  lemma TokenStartsThere(s: string, t: Span, lo: nat)
    requires FirstMatch(NUMERIC, s, t) && Covers(t, lo) && DigitAt(s, lo) && !HasBegun(s, lo)
    ensures t.lo == lo
  {
    TokenKinds(s, t);
    hide Ends;
    if t.lo < lo {
      var i := if IsDollarToken(s, t) then t.lo + 1 else t.lo;
      assert lo == i || i < lo < ChainEnd(s, i);
      if lo > i { BeginsInside(s, i, lo); }
    }
  }

  lemma BeginsInside(s: string, i: nat, lo: nat)
    requires i <= |s| && DigitAt(s, i) && i < lo < ChainEnd(s, i) && DigitAt(s, lo)
    ensures HasBegun(s, lo)
  {
    if SeparatorAt(s, lo - 1) { SeparatorsInside(s, i, lo - 1); }
  }

  lemma ChainEndsInADigit(s: string, i: nat)
    requires i <= |s| && DigitAt(s, i)
    ensures i < ChainEnd(s, i) && DigitAt(s, ChainEnd(s, i) - 1)
  {
    var g := ChainEnd(s, i);
    assert RunEnd(s, i) > i;
    if SeparatorAt(s, g - 1) { SeparatorsInside(s, i, g - 1); }
  }

  /** The engine's first choice at a complete number is the whole of it. */
  lemma CompleteFirst(s: string, lo: nat, hi: nat)
    requires lo < hi <= |s| && DigitAt(s, lo) && Complete(s, lo, hi)
    requires hi == ChainEnd(s, lo) || (hi - 1 == ChainEnd(s, lo) && CharAt(s, hi - 1, '%'))
    ensures Ends(NUMERIC, s, lo) != [] && Ends(NUMERIC, s, lo)[0] == hi
  {
    NumberFirst(s, lo);
    ChainEndsInADigit(s, lo);
    DollarEnds(s, lo);
    var p, b := Ends(PERCENTAGE, s, lo), Ends(BARE_NUMBER, s, lo);
    assert Ends(NUMERIC, s, lo) == [] + (p + b);
    if p != [] { PercentEnds(s, lo, p[0]); }
    if hi == ChainEnd(s, lo) {
      assert Ends(WordBoundary, s, lo) == [lo] && Ends(WordBoundary, s, hi) == [hi];
      CatFirst(NUMBER, WordBoundary, s, lo);
      CatSingle(WordBoundary, Cat(NUMBER, WordBoundary), s, lo, lo);
    } else {
      assert Ends(Chr(OneOf({'%'})), s, hi - 1) == [hi];
      CatMatch(NUMBER, Chr(OneOf({'%'})), s, lo, hi - 1, hi);
    }
  }

  /** Every complete number or percentage is exactly one token of the scanner. */
  lemma CompleteIsAToken(s: string, lo: nat, hi: nat) returns (k: nat)
    requires lo < hi <= |s| && DigitAt(s, lo) && Complete(s, lo, hi)
    requires hi == ChainEnd(s, lo) || (hi - 1 == ChainEnd(s, lo) && CharAt(s, hi - 1, '%'))
    ensures k < |Numerics(s)| && Numerics(s)[k] == Span(lo, hi)
  {
    CompleteFirst(s, lo, hi);
    NumericConsumes();
    FoundIsFirst(NUMERIC, s, 0);
    k := Leftmost(NUMERIC, s, 0, lo);
    TokenStartsThere(s, Numerics(s)[k], lo);
  }
}
