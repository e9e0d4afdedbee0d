/** Evidence that grounds a numeric without stating an equal number: the spelling inside
    a percentage, and digits inside a word, an amount or a fraction. */
module UnequalGrounds {
  import opened Text
  import opened Decimals
  import opened Regex
  import opened NumericScanner
  import opened CompleteNumbers
  import opened FactChecker
  import opened GroundedNumbers

  // ---- the shape of a spelling --------------------------------------------

  /** Digits at both ends; a point stands before a digit, an exponent mark after one, a sign after the mark. */
  predicate Numeral(x: string) {
    && DigitAt(x, 0) && DigitAt(x, |x| - 1)
    && forall k | 0 <= k < |x| :: NumeralCharAt(x, k)
  }

  predicate NumeralCharAt(x: string, k: int) {
    || DigitAt(x, k)
    || (CharAt(x, k, '.') && DigitAt(x, k + 1))
    || (CharAt(x, k, 'e') && DigitAt(x, k - 1))
    || (SignAt(x, k) && CharAt(x, k - 1, 'e') && DigitAt(x, k - 2))
  }

  lemma DigitsNumeral(x: string)
    requires x != "" && AllDigits(x)
    ensures Numeral(x)
  {
  }

  lemma DecimalNumeral(x: string, i: string, frac: string)
    requires IsDecimalText(x, i, frac)
    ensures Numeral(x)
  {
    DecimalDigits(x, i, frac);
    hide AllDigits;
    forall k | 0 <= k < |x| ensures NumeralCharAt(x, k) {}
  }

  /** A mantissa, a mark, a sign and digits. */
  lemma ScientificNumeral(m: string, sign: char, e: string)
    requires Numeral(m) && sign in {'+', '-'} && e != "" && AllDigits(e)
    ensures Numeral(m + (['e', sign] + e))
  {
    var x := m + (['e', sign] + e);
    var n := |m|;
    assert x[..n] == m && x[n] == 'e' && x[n + 1] == sign && x[n + 2..] == e;
    forall k | n + 2 <= k < |x| ensures DigitAt(x, k) { assert x[k] == e[k - n - 2]; AllDigitsAt(e, k - n - 2); }
    forall k | 0 <= k < |x| ensures NumeralCharAt(x, k) {
      if k < n { assert NumeralCharAt(m, k) && x[k] == m[k]; }
    }
  }

  lemma FloatTextNumeral(d: Dec)
    ensures Numeral(FloatText(d))
  {
    if d.c == 0 {
      DecimalNumeral("0.0", "0", "0");
    } else {
      var t := Trim(d);
      FixedNumeral(t);
      var e, ds := Exponent(t), NatText(Strip10(t.c).0);
      MantissaNumeral(ds);
      var mag: nat := if e < 0 then -e else e;
      ScientificNumeral(MantissaText(ds), if e < 0 then '-' else '+', ExponentText(mag));
      assert ExponentSuffix(e < 0, mag) == ['e', if e < 0 then '-' else '+'] + ExponentText(mag);
    }
  }

  lemma FixedNumeral(t: Dec)
    ensures Numeral(FixedText(t))
  {
    DecimalNumeral(FixedText(t), NatText(Shr(t.c, t.k)), if t.k == 0 then "0" else Padded(t.c, t.k));
  }

  lemma MantissaNumeral(ds: string)
    requires ds != "" && AllDigits(ds)
    ensures Numeral(MantissaText(ds))
  {
    if |ds| == 1 { DigitsNumeral(ds); } else { DecimalNumeral(MantissaText(ds), ds[..1], ds[1..]); }
  }

  lemma FormsAreNumerals(d: Dec, x: string)
    requires x in NumberForms(d)
    ensures Numeral(x)
  {
    FloatTextNumeral(d);
    if x != FloatText(d) { DigitsNumeral(x); }
  }

  /** Every spelling of a percentage is a numeral, and every spelling of a plain number is one with a percent sign. */
  lemma SpellingsAreNumerals(numeric: string, x: string)
    requires x in NumericVariants(numeric)
    ensures IsPercent(numeric) ==> Numeral(x)
    ensures !IsPercent(numeric) ==> IsPercent(x) && Numeral(x[..|x| - 1])
  {
    hide Numeral, FloatText, NatText, ParseDec, Strip, WithoutCommas, AtMostOne, NumberForms, PercentForms;
    if IsPercent(numeric) {
      var v := PercentNumber(numeric).value;
      if x in NumberForms(v) { FormsAreNumerals(v, x); } else { FormsAreNumerals(Hundredth(v), x); }
    } else {
      PercentFormsAreNumerals(HundredTimes(ParseDec(WithoutCommas(numeric)).value), x);
    }
  }

  lemma PercentFormsAreNumerals(p: Dec, x: string)
    requires x in PercentForms(p)
    ensures IsPercent(x) && Numeral(x[..|x| - 1])
  {
    hide Numeral;
    FloatTextNumeral(p);
    var t := NatText(Shr(p.c, p.k));
    DigitsNumeral(t);
    DecimalNumeral(t + ("." + "0"), t, "0");
    assert (t + "%")[..|t|] == t && (t + ".0%")[..|t| + 2] == t + ("." + "0");
    assert (FloatText(p) + "%")[..|FloatText(p)|] == FloatText(p);
  }

  /** What states an equal number is a numeral, with or without a percent sign. */
  lemma StatedNumeral(numeric: string, x: string)
    requires StatesEqual(numeric, x)
    ensures Numeral(if IsPercent(x) then x[..|x| - 1] else x)
    ensures IsPercent(numeric) && !IsPercent(x) ==> x in NumericVariants(numeric)
    ensures IsPercent(numeric) && IsPercent(x) ==>
              && x[..|x| - 1] in NumericVariants(numeric)
              && Val(ParseDec(x[..|x| - 1]).value) == Val(PercentNumber(numeric).value)
  {
    hide Numeral, SpellsEqual, Canonical, NumericVariants;
    var y := if Respells(numeric, x) then x else x[..|x| - 1];
    SpellingIff(numeric, y);
    SpellingsAreNumerals(numeric, y);
  }

  /** The end of the numeral in [lo, hi): a percent sign is not part of it. */
  function NumeralEnd(s: string, hi: int): int { if CharAt(s, hi - 1, '%') then hi - 1 else hi }

  /** The same for a part of a text. */
  lemma StatedPart(numeric: string, s: string, lo: int, hi: int)
    requires 0 <= lo <= hi <= |s| && StatesEqual(numeric, s[lo..hi])
    ensures var g := NumeralEnd(s, hi);
            && lo < g && DigitAt(s, lo) && DigitAt(s, g - 1) && Numeral(s[lo..g])
            && (IsPercent(numeric) ==> s[lo..g] in NumericVariants(numeric))
            && (IsPercent(numeric) && g < hi ==>
                  && PercentNumber(numeric).Some? && ParseDec(s[lo..g]).Some?
                  && Val(ParseDec(s[lo..g]).value) == Val(PercentNumber(numeric).value))
  {
    hide StatesEqual, NumericVariants, ParseDec, Val, Strip, WithoutCommas;
    var x, g := s[lo..hi], NumeralEnd(s, hi);
    StatedNumeral(numeric, x);
    assert hi > lo ==> s[hi - 1] == x[|x| - 1];
    var y := s[lo..g];
    assert y == if IsPercent(x) then x[..|x| - 1] else x;
    assert DigitAt(y, 0) && DigitAt(y, |y| - 1);
    assert s[lo] == y[0] && s[g - 1] == y[|y| - 1];
    if IsPercent(numeric) { PercentVariantsDenote(numeric, y); }
  }

  lemma NumeralStops(s: string, lo: int, hi: int)
    requires Complete(s, lo, hi) && DigitAt(s, NumeralEnd(s, hi) - 1)
    ensures var g := NumeralEnd(s, hi); !DigitAt(s, g) && !(SeparatorAt(s, g) && DigitAt(s, g + 1))
  {
  }

  // ---- complete numbers are tokens, spelled out ---------------------------

  /** Digits and points or commas between digits, up to where the number cannot go on: the longest number from i. */
  lemma {:induction false} ChainIs(s: string, i: nat, g: nat)
    requires i < g <= |s| && DigitAt(s, i)
    requires forall k | i <= k < g :: DigitAt(s, k) || (SeparatorAt(s, k) && k + 1 < g && DigitAt(s, k + 1))
    requires !DigitAt(s, g) && !(SeparatorAt(s, g) && DigitAt(s, g + 1))
    ensures ChainEnd(s, i) == g
    decreases g - i
  {
    var e := RunEnd(s, i);
    assert i < e;
    assert e > g ==> DigitAt(s, g);
    if e < g { ChainIs(s, e + 1, g); }
  }

  /** An equal number that the evidence holds is, unless written with an exponent, one token of the scanner run on
      the evidence. */
  lemma EqualNumberIsAToken(numeric: string, blob: string, lo: nat, hi: nat) returns (k: nat)
    requires Complete(blob, lo, hi) && StatesEqual(numeric, blob[lo..hi]) && 'e' !in blob[lo..hi]
    ensures k < |Numerics(blob)| && Numerics(blob)[k] == Span(lo, hi)
  {
    hide StatesEqual, HasBegun, GoesOn, Numeral, NumericVariants, ParseDec, Val, Numerics;
    StatedPart(numeric, blob, lo, hi);
    NumeralStops(blob, lo, hi);
    var g := NumeralEnd(blob, hi);
    assert blob[lo..hi][..g - lo] == blob[lo..g];
    NumeralChain(blob, lo, g);
    k := CompleteIsAToken(blob, lo, hi);
  }

  lemma NumeralChain(s: string, lo: nat, g: nat)
    requires lo <= g <= |s| && Numeral(s[lo..g]) && 'e' !in s[lo..g]
    requires !DigitAt(s, g) && !(SeparatorAt(s, g) && DigitAt(s, g + 1))
    ensures ChainEnd(s, lo) == g && DigitAt(s, lo)
  {
    var y := s[lo..g];
    forall k | lo <= k < g
      ensures DigitAt(s, k) || (SeparatorAt(s, k) && k + 1 < g && DigitAt(s, k + 1))
    {
      assert y[k - lo] == s[k] && NumeralCharAt(y, k - lo);
      assert k + 1 < g ==> y[k - lo + 1] == s[k + 1];
    }
    assert DigitAt(y, 0) && y[0] == s[lo];
    ChainIs(s, lo, g);
  }

  // ---- inside a percentage ------------------------------------------------

  /** In a percentage, a complete number starts at the front and takes the sign along. */
  lemma CompleteInAPercentage(x: string, lo: int, hi: int)
    requires Numeral(x) && Complete(x + "%", lo, hi) && DigitAt(x + "%", lo) && lo < hi
    ensures lo == 0 && !DigitAt(x + "%", hi - 1) && (CharAt(x + "%", hi - 1, '%') ==> hi == |x| + 1)
  {
    var s := x + "%";
    assert forall k | 0 <= k < |x| :: s[k] == x[k];
    assert s[|x|] == '%';
    assert lo > 0 ==> NumeralCharAt(x, lo - 1);
    assert hi < |x| ==> NumeralCharAt(x, hi);
    assert hi <= |x| ==> NumeralCharAt(x, hi - 1);
  }

  /** Every spelling of v% with a percent sign behind it grounds v%, but only the spellings of v itself, and not those
      of v/100, are an equal number there: 40% is grounded by "0.4%". */
  lemma SpelledPercentageIff(numeric: string, x: string)
    requires IsPercent(numeric) && x in NumericVariants(numeric)
    ensures NumericGrounded(numeric, x + "%")
    ensures PercentNumber(numeric).Some? && ParseDec(x).Some?
    ensures HoldsEqualNumber(numeric, x + "%") <==> Val(ParseDec(x).value) == Val(PercentNumber(numeric).value)
  {
    PercentVariantsDenote(numeric, x);
    SpellingIff(numeric, x);
    SpellingsAreNumerals(numeric, x);
    hide NumericVariants, ParseDec, Val, Respells, HasBegun, GoesOn;
    var s := x + "%";
    assert s[0..|x|] == x && s[0..|s|] == s && s[..|s| - 1] == x && s[|x|] == '%';
    GroundedIff(numeric, s);
    hide NumericGrounded, Found;
    assert Unadjacent(s, 0, |x|);
    if Val(ParseDec(x).value) == Val(PercentNumber(numeric).value) {
      assert StatesEqual(numeric, s);
      WholeIsComplete(s);
    }
    if lo, hi :| Complete(s, lo, hi) && StatesEqual(numeric, s[lo..hi]) { EqualPercentage(numeric, x, lo, hi); }
  }

  lemma WholeIsComplete(s: string)
    ensures Complete(s, 0, |s|)
  {
  }

  lemma EqualPercentage(numeric: string, x: string, lo: int, hi: int)
    requires IsPercent(numeric) && Numeral(x) && Complete(x + "%", lo, hi) && StatesEqual(numeric, (x + "%")[lo..hi])
    ensures PercentNumber(numeric).Some? && ParseDec(x).Some?
    ensures Val(ParseDec(x).value) == Val(PercentNumber(numeric).value)
  {
    hide StatesEqual, HasBegun, GoesOn, Numeral, NumericVariants, ParseDec, Val;
    var s := x + "%";
    StatedPart(numeric, s, lo, hi);
    CompleteInAPercentage(x, lo, hi);
    assert s[|x|] == '%' && !DigitAt(s, |x|);
    assert lo == 0 && NumeralEnd(s, hi) == |x|;
    assert s[0..|x|] == x;
  }

  /** For every n > 0, n% is grounded by its hundredth in percent, which is no equal number. */
  lemma HundredthPercentGrounds(n: nat)
    requires n > 0
    ensures NumericGrounded(NatText(n) + "%", FloatText(Dec(n, 2)) + "%")
    ensures !HoldsEqualNumber(NatText(n) + "%", FloatText(Dec(n, 2)) + "%")
  {
    WholePercentVariants(n);
    hide NumericVariants, FloatText, NatText, ParseDec, Val, NumericGrounded, HoldsEqualNumber;
    var numeric := NatText(n) + "%";
    var x := FloatText(Dec(n, 2));
    assert NumericVariants(numeric)[2] == x;
    SpelledPercentageIff(numeric, x);
    WholePercentNumber(n);
    FloatTextDenotes(Dec(n, 2));
    HundredVals(Dec(n, 0));
    assert Val(Dec(n, 0)) == n as real by { WholeValueOf(n); }
  }

  lemma WholeValueOf(n: nat)
    ensures Val(Dec(n, 0)) == n as real
  {
  }

  lemma WholePercentNumber(n: nat)
    ensures PercentNumber(NatText(n) + "%") == Some(Dec(n, 0))
  {
    hide ParseDec, NatText, Strip, WithoutCommas;
    ParseNatText(n);
    CommasOfDigits(NatText(n));
    assert (NatText(n) + "%")[..|NatText(n)|] == NatText(n);
  }

  // ---- one number in a text -----------------------------------------------

  predicate NoDigits(s: string) { forall k | 0 <= k < |s| :: !IsDigit(s[k]) }

  /** A number can begin after this text. */
  predicate Opens(before: string) {
    before == "" || !(IsWordChar(before[|before| - 1]) || before[|before| - 1] in {'$', '.'})
  }

  /** A number can end before this text, with or without a percent sign. */
  predicate Closes(after: string) { after == "" || !IsWordChar(after[0]) }

  /** Any text whose only digits read n grounds n%; it holds an equal number if and only if no word character, dollar
      sign or point touches them in front and no word character behind: "a40b" and "$40" ground 40%. */
  lemma OneNumberIff(n: nat, before: string, after: string)
    requires NoDigits(before) && NoDigits(after)
    ensures NumericGrounded(NatText(n) + "%", before + NatText(n) + after)
    ensures HoldsEqualNumber(NatText(n) + "%", before + NatText(n) + after) <==> Opens(before) && Closes(after)
  {
    hide NatText, StatesEqual, NumericGrounded, HasBegun, GoesOn;
    var numeric, s := NatText(n) + "%", before + NatText(n) + after;
    assert before != "" ==> !IsDigit(before[|before| - 1]);
    WholePercentGroundedByAPart(n, before, after);
    if Opens(before) && Closes(after) { OneNumberHolds(n, before, after); }
    if lo, hi :| Complete(s, lo, hi) && StatesEqual(numeric, s[lo..hi]) { OneNumberOnly(n, before, after, lo, hi); }
  }

  lemma OneNumberOnly(n: nat, before: string, after: string, lo: int, hi: int)
    requires NoDigits(before) && NoDigits(after) && Complete(before + NatText(n) + after, lo, hi)
    requires StatesEqual(NatText(n) + "%", (before + NatText(n) + after)[lo..hi])
    ensures Opens(before) && Closes(after)
  {
    hide StatesEqual, Numeral, NumericVariants, ParseDec, Val, NatText;
    var t := NatText(n);
    var s := before + t + after;
    StatedPart(t + "%", s, lo, hi);
    var g := NumeralEnd(s, hi);
    OneRun(t, before, after, lo - 1);
    OneRun(t, before, after, lo);
    OneRun(t, before, after, g - 1);
    OneRun(t, before, after, g);
    assert lo == |before| && g == |before| + |t|;
    assert s[..|before|] == before && s[g..] == after;
    assert before != "" ==> s[lo - 1] == before[|before| - 1];
    assert after != "" ==> s[g] == after[0];
  }

  lemma OneNumberHolds(n: nat, before: string, after: string)
    requires NoDigits(before) && NoDigits(after) && Opens(before) && Closes(after)
    ensures HoldsEqualNumber(NatText(n) + "%", before + NatText(n) + after)
  {
    hide NatText, FloatText, NumericVariants, ParseDec, Val, Respells;
    var numeric, t := NatText(n) + "%", NatText(n);
    var s, a, b := before + t + after, |before|, |before| + |t|;
    WholePercentVariants(n);
    assert NumericVariants(numeric)[1] == t;
    SpellingIff(numeric, t);
    WholePercentNumber(n);
    ParseNatText(n);
    OneNumberIsComplete(t, before, after);
    assert s[a..b] == t;
    if CharAt(s, b, '%') {
      assert s[a..b + 1] == t + "%" && (t + "%")[..|t|] == t;
      assert StatesEqual(numeric, s[a..b + 1]);
    } else {
      assert StatesEqual(numeric, s[a..b]);
    }
  }

  lemma OneNumberIsComplete(t: string, before: string, after: string)
    requires t != "" && AllDigits(t) && NoDigits(before) && NoDigits(after) && Opens(before) && Closes(after)
    ensures var s, a, b := before + t + after, |before|, |before| + |t|;
            Complete(s, a, if CharAt(s, b, '%') then b + 1 else b)
  {
    hide AllDigits;
    var s, a, b := before + t + after, |before|, |before| + |t|;
    forall k ensures DigitAt(s, k) <==> a <= k < b { OneRun(t, before, after, k); }
    assert before != "" ==> s[a - 1] == before[|before| - 1];
    assert after != "" ==> s[b] == after[0];
  }

  /** The digits of the text are exactly those of t. */
  lemma OneRun(t: string, before: string, after: string, k: int)
    requires AllDigits(t) && NoDigits(before) && NoDigits(after)
    ensures DigitAt(before + t + after, k) <==> |before| <= k < |before| + |t|
  {
    var s := before + t + after;
    if 0 <= k < |s| {
      if k < |before| { assert s[k] == before[k]; }
      else if k < |before| + |t| { assert s[k] == t[k - |before|]; AllDigitsAt(t, k - |before|); }
      else { assert s[k] == after[k - |before| - |t|]; }
    }
  }
}
