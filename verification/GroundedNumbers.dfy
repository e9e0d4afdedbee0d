/** What the evidence really holds when the fact checker calls a numeric grounded:
    an equal number in canonical spelling, or a spelling that is only a part of something
    longer: another number, a percentage, an amount or a word. */
module GroundedNumbers {
  import opened Text
  import opened Decimals
  import opened NumericScanner
  import opened CompleteNumbers
  import opened FactChecker

  // ---- which texts are spellings ------------------------------------------

  lemma NumberFormsCanonical(a: Dec, b: Dec)
    requires Val(a) == Val(b)
    ensures NumberForms(a) == NumberForms(b)
  {
    hide FloatText, NatText, Val, IsWhole;
    WholeCanonical(a, b);
    FloatTextCanonical(a, b);
  }

  /** x spells an equal number: v or v/100 when `numeric` is the percentage v%, and 100v percent when it is a plain v
      in (0, 1]. */
  ghost predicate SpellsEqual(numeric: string, x: string) {
    if IsPercent(numeric) then
      && PercentNumber(numeric).Some? && ParseDec(x).Some?
      && var v := Val(PercentNumber(numeric).value);
         Val(ParseDec(x).value) == v || Val(ParseDec(x).value) == v / 100.0
    else
      && '$' !in numeric && '%' !in numeric && ParseDec(WithoutCommas(numeric)).Some?
      && IsPercent(x) && ParseDec(x[..|x| - 1]).Some?
      && var v := Val(ParseDec(WithoutCommas(numeric)).value);
         0.0 < v <= 1.0 && Val(ParseDec(x[..|x| - 1]).value) == 100.0 * v
  }

  /** x is spelled the way Python prints the number it denotes, as a float or, when it is whole, as an integer. */
  predicate Canonical(x: string) {
    if IsPercent(x) then ParseDec(x[..|x| - 1]).Some? && x in PercentForms(ParseDec(x[..|x| - 1]).value)
    else ParseDec(x).Some? && x in NumberForms(ParseDec(x).value)
  }

  lemma NumberFormsArePlain(d: Dec, x: string)
    requires x in NumberForms(d)
    ensures !IsPercent(x)
  {
    hide FloatText, NatText, IsWhole;
    FloatTextIsBare(d);
    if x != FloatText(d) { assert IsDigit(x[|x| - 1]); }
  }

  lemma PercentSpellingIff(numeric: string, x: string)
    requires IsPercent(numeric)
    ensures x in NumericVariants(numeric) <==> SpellsEqual(numeric, x) && !IsPercent(x) && Canonical(x)
  {
    hide ParseDec, Strip, Val, WithoutCommas, NumberForms;
    if PercentNumber(numeric).Some? {
      var v := PercentNumber(numeric).value;
      HundredVals(v);
      if x in NumericVariants(numeric) {
        PercentVariantsDenote(numeric, x);
        var d := ParseDec(x).value;
        if x in NumberForms(v) {
          NumberFormsArePlain(v, x);
          NumberFormsDenote(v, x);
          NumberFormsCanonical(v, d);
        } else {
          NumberFormsArePlain(Hundredth(v), x);
          NumberFormsDenote(Hundredth(v), x);
          NumberFormsCanonical(Hundredth(v), d);
        }
      }
      if SpellsEqual(numeric, x) && !IsPercent(x) && Canonical(x) {
        var d := ParseDec(x).value;
        if Val(d) == Val(v) { NumberFormsCanonical(d, v); } else { NumberFormsCanonical(d, Hundredth(v)); }
      }
    }
  }

  lemma PlainSpellingIff(numeric: string, x: string)
    requires !IsPercent(numeric)
    ensures x in NumericVariants(numeric) <==> SpellsEqual(numeric, x) && Canonical(x)
  {
    hide ParseDec, Strip, Val, WithoutCommas, PercentForms, AtMostOne;
    if '$' !in numeric && '%' !in numeric && ParseDec(WithoutCommas(numeric)).Some? {
      var v := ParseDec(WithoutCommas(numeric)).value;
      AtMostOneVal(v);
      HundredVals(v);
      var p := HundredTimes(v);
      if x in NumericVariants(numeric) {
        PercentFormsDenote(p, x);
        PercentFormsCanonical(p, ParseDec(x[..|x| - 1]).value);
      }
      if SpellsEqual(numeric, x) && Canonical(x) {
        PercentFormsCanonical(ParseDec(x[..|x| - 1]).value, p);
      }
    }
  }

  /** x can ground `numeric` without being its own text. */
  ghost predicate Respells(numeric: string, x: string) {
    SpellsEqual(numeric, x) && Canonical(x) && (IsPercent(numeric) ==> !IsPercent(x))
  }

  /** The spellings tried for a numeric are exactly the canonical spellings of an equal number in the other notation,
      and for a percentage also of the bare number in front of the sign. */
  lemma SpellingIff(numeric: string, x: string)
    ensures x in NumericVariants(numeric) <==> Respells(numeric, x)
  {
    hide NumericVariants, SpellsEqual, Canonical;
    if IsPercent(numeric) { PercentSpellingIff(numeric, x); } else { PlainSpellingIff(numeric, x); }
  }

  lemma FoundIff(x: string, s: string)
    ensures Found(x, s, true) <==> exists lo, hi :: Unadjacent(s, lo, hi) && s[lo..hi] == x
  {
    if Found(x, s, true) {
      var i :| 0 <= i <= |s| && Hit(x, s, i, true);
      assert Unadjacent(s, i, i + |x|) && s[i..i + |x|] == x;
    }
    if lo, hi :| Unadjacent(s, lo, hi) && s[lo..hi] == x {
      assert hi == lo + |x|;
      assert Hit(x, s, lo, true);
    }
  }

  /** Exactly what grounds a numeric: its own text anywhere, or a canonical spelling of an equal number with no digit
      next to it. */
  lemma GroundedIff(numeric: string, blob: string)
    ensures NumericGrounded(numeric, blob) <==>
              || Found(numeric, blob, false)
              || exists lo, hi :: Unadjacent(blob, lo, hi) && Respells(numeric, blob[lo..hi])
  {
    hide NumericVariants, SpellsEqual, Canonical, Found, DigitAt;
    var xs := NumericVariants(numeric);
    if k :| 0 <= k < |xs| && Found(xs[k], blob, true) {
      FoundIff(xs[k], blob);
      SpellingIff(numeric, xs[k]);
      var lo, hi :| Unadjacent(blob, lo, hi) && blob[lo..hi] == xs[k];
      assert xs[k] in xs && Respells(numeric, blob[lo..hi]);
    }
    if lo, hi :| Unadjacent(blob, lo, hi) && Respells(numeric, blob[lo..hi]) {
      SpellingIff(numeric, blob[lo..hi]);
      FoundIff(blob[lo..hi], blob);
      var k :| 0 <= k < |xs| && xs[k] == blob[lo..hi];
    }
  }

  // ---- complete numbers ---------------------------------------------------

  /** x states the same number: as one of the spellings tried, or as the same percentage spelled differently. */
  ghost predicate StatesEqual(numeric: string, x: string) {
    || Respells(numeric, x)
    || (&& IsPercent(numeric) && IsPercent(x) && Respells(numeric, x[..|x| - 1])
        && Val(ParseDec(x[..|x| - 1]).value) == Val(PercentNumber(numeric).value))
  }

  /** The evidence holds, as a complete number or percentage, one that states the same. */
  ghost predicate HoldsEqualNumber(numeric: string, blob: string) {
    exists lo, hi :: Complete(blob, lo, hi) && StatesEqual(numeric, blob[lo..hi])
  }

  lemma EqualNumberGrounds(numeric: string, blob: string)
    requires HoldsEqualNumber(numeric, blob)
    ensures NumericGrounded(numeric, blob)
  {
    hide NumericGrounded, Found, Respells, StatesEqual, HasBegun, GoesOn;
    GroundedIff(numeric, blob);
    var lo, hi :| Complete(blob, lo, hi) && StatesEqual(numeric, blob[lo..hi]);
    var g := EqualPartGrounds(numeric, blob, lo, hi);
  }

  /** Without its percent sign, what states an equal number is a spelling that no digit touches. */
  lemma EqualPartGrounds(numeric: string, blob: string, lo: int, hi: int) returns (g: int)
    requires Unadjacent(blob, lo, hi) && StatesEqual(numeric, blob[lo..hi])
    ensures Unadjacent(blob, lo, g) && Respells(numeric, blob[lo..g])
  {
    hide Respells;
    var x := blob[lo..hi];
    g := hi;
    if !Respells(numeric, x) {
      g := hi - 1;
      assert x[|x| - 1] == blob[g] == '%';
      assert x[..|x| - 1] == blob[lo..g];
    }
  }

  /** A spelling of `numeric` occurs as a part of something longer. */
  ghost predicate OccursInsideMore(numeric: string, blob: string) {
    exists lo, hi ::
      Unadjacent(blob, lo, hi) && (HasBegun(blob, lo) || GoesOn(blob, hi)) && Respells(numeric, blob[lo..hi])
  }

  /** A numeric that does not occur literally is grounded if and only if the evidence holds an equal number of its own
      or a spelling inside something longer. */
  lemma GroundedByAnEqualNumberIff(numeric: string, blob: string)
    requires !Found(numeric, blob, false)
    ensures NumericGrounded(numeric, blob) <==> HoldsEqualNumber(numeric, blob) || OccursInsideMore(numeric, blob)
  {
    GroundedIff(numeric, blob);
    hide NumericGrounded, Respells, HasBegun, GoesOn;
    if lo, hi :| Unadjacent(blob, lo, hi) && Respells(numeric, blob[lo..hi]) {
      if HasBegun(blob, lo) || GoesOn(blob, hi) {
        assert OccursInsideMore(numeric, blob);
      } else {
        assert Complete(blob, lo, hi) && StatesEqual(numeric, blob[lo..hi]);
      }
    }
    if HoldsEqualNumber(numeric, blob) { EqualNumberGrounds(numeric, blob); }
  }

  /** Wherever the checker finds a spelling of `numeric` in the evidence, it is a complete number. */
  predicate SpellingsStandAlone(numeric: string, blob: string) {
    forall x, i | x in NumericVariants(numeric) && 0 <= i <= |blob| ::
      Hit(x, blob, i, true) ==> Complete(blob, i, i + |x|)
  }

  /** In evidence where the spellings stand alone, being grounded means occurring or having an equal number. */
  lemma StandingAloneMeansEqual(numeric: string, blob: string)
    requires SpellingsStandAlone(numeric, blob)
    ensures NumericGrounded(numeric, blob) <==> Found(numeric, blob, false) || HoldsEqualNumber(numeric, blob)
  {
    if HoldsEqualNumber(numeric, blob) { EqualNumberGrounds(numeric, blob); }
    if !Found(numeric, blob, false) {
      GroundedByAnEqualNumberIff(numeric, blob);
      hide NumericGrounded, Respells, HasBegun, GoesOn, SpellingsStandAlone, HoldsEqualNumber, Found;
      if OccursInsideMore(numeric, blob) {
        var lo, hi :|
          Unadjacent(blob, lo, hi) && (HasBegun(blob, lo) || GoesOn(blob, hi)) && Respells(numeric, blob[lo..hi]);
        StandsAlone(numeric, blob, lo, hi);
      }
    }
  }

  lemma StandsAlone(numeric: string, blob: string, lo: int, hi: int)
    requires SpellingsStandAlone(numeric, blob) && Unadjacent(blob, lo, hi) && Respells(numeric, blob[lo..hi])
    ensures Complete(blob, lo, hi)
  {
    hide NumericVariants, Respells, HasBegun, GoesOn, Complete, SpellingsStandAlone;
    var x := blob[lo..hi];
    SpellingIff(numeric, x);
    assert OccursAt(x, blob, lo) && lo + |x| == hi;
    HitStandsAlone(numeric, blob, x, lo);
  }

  lemma HitStandsAlone(numeric: string, blob: string, x: string, i: nat)
    requires SpellingsStandAlone(numeric, blob) && x in NumericVariants(numeric) && Hit(x, blob, i, true)
    ensures Complete(blob, i, i + |x|)
  {
    hide NumericVariants, HasBegun, GoesOn, Complete;
  }

  // ---- the literal search -------------------------------------------------

  /** A dollar amount, a number above 1 and a zero are grounded only by their own text. */
  lemma LiteralOnly(numeric: string, blob: string)
    requires !IsPercent(numeric)
    requires '$' in numeric || ParseDec(WithoutCommas(numeric)).None?
             || !(0.0 < Val(ParseDec(WithoutCommas(numeric)).value) <= 1.0)
    ensures NumericGrounded(numeric, blob) <==> Contains(blob, numeric)
  {
    hide ParseDec, Strip, Val, WithoutCommas;
    if '$' !in numeric && '%' !in numeric { DecimalVariantsDenote(numeric); }
    assert NumericVariants(numeric) == [];
    LiteralIsContained(numeric, blob);
  }

  lemma LiteralIsContained(x: string, s: string)
    ensures Found(x, s, false) <==> Contains(s, x)
  {
    if Contains(s, x) {
      var i :| 0 <= i <= |s| && OccursAt(x, s, i);
      assert Hit(x, s, i, false);
    }
    if Found(x, s, false) {
      var i :| 0 <= i <= |s| && Hit(x, s, i, false);
      assert OccursAt(x, s, i);
    }
  }

  /** The literal search has no anchors: a numeric is grounded inside any longer number. */
  lemma GroundedInsideALongerNumber(numeric: string, before: string, after: string)
    ensures NumericGrounded(numeric, before + numeric + after)
  {
    hide NumericVariants;
    var blob := before + numeric + after;
    assert blob[|before|..|before| + |numeric|] == numeric;
    assert Hit(numeric, blob, |before|, false);
  }

  lemma WholeForms(n: nat)
    ensures NumberForms(Dec(n, 0)) == [FloatText(Dec(n, 0)), NatText(n)]
  {
    hide FloatText;
    hide NatText;
    assert Shr(n, 0) == n && Shl(n, 0) == n;
  }

  lemma CommasOfDigits(s: string)
    requires AllDigits(s) && s != ""
    ensures WithoutCommas(Strip(s)) == s
  {
    assert !IsSpace(s[0]) && !IsSpace(s[|s| - 1]);
    StripTrimmed(s);
  }

  // ---- whole percentages --------------------------------------------------

  /** The spellings of n%, for a natural number n. */
  lemma WholePercentVariants(n: nat)
    ensures NumericVariants(NatText(n) + "%")
         == [FloatText(Dec(n, 0)), NatText(n), FloatText(Dec(n, 2))] + if n % 100 == 0 then [NatText(n / 100)] else []
  {
    hide ParseDec, NatText, FloatText, Strip, WithoutCommas;
    var numeric := NatText(n) + "%";
    ParseNatText(n);
    CommasOfDigits(NatText(n));
    assert numeric[..|numeric| - 1] == NatText(n);
    WholeForms(n);
    assert Shr(n, 2) == Shr(n / 10, 1) == n / 10 / 10 == n / 100;
    assert Shl(n / 100, 2) == 10 * Shl(n / 100, 1) == 100 * (n / 100);
  }

  /** A maximal run of digits of the evidence reads t. */
  ghost predicate RunReads(s: string, t: string) {
    exists a: nat, b: nat :: MaximalRun(s, a, b) && s[a..b] == t
  }

  lemma DigitsFoundIff(t: string, s: string)
    requires t != "" && AllDigits(t)
    ensures Found(t, s, true) <==> RunReads(s, t)
  {
    if Found(t, s, true) {
      var i: int :| 0 <= i <= |s| && Hit(t, s, i, true);
      forall k | i <= k < i + |t| ensures DigitAt(s, k) { assert s[i..i + |t|][k - i] == t[k - i]; }
      assert MaximalRun(s, i, i + |t|);
    }
    if a: nat, b: nat :| MaximalRun(s, a, b) && s[a..b] == t {
      assert Hit(t, s, a, true);
    }
  }

  /** Exactly what grounds a whole percentage n%, for every n and every evidence: its own text, a digit run that reads n
      (or n/100 when that is whole) wherever the run stands, or the float spelling of n or n/100. */
  lemma WholePercentGroundedIff(n: nat, blob: string)
    ensures NumericGrounded(NatText(n) + "%", blob) <==>
              || Contains(blob, NatText(n) + "%")
              || RunReads(blob, NatText(n)) || (n % 100 == 0 && RunReads(blob, NatText(n / 100)))
              || Found(FloatText(Dec(n, 0)), blob, true) || Found(FloatText(Dec(n, 2)), blob, true)
  {
    hide NumericVariants, NatText, FloatText, RunReads;
    var numeric, xs := NatText(n) + "%", NumericVariants(NatText(n) + "%");
    WholePercentVariants(n);
    DigitsFoundIff(NatText(n), blob);
    DigitsFoundIff(NatText(n / 100), blob);
    LiteralIsContained(numeric, blob);
    hide Found;
    assert xs[0] == FloatText(Dec(n, 0)) && xs[1] == NatText(n) && xs[2] == FloatText(Dec(n, 2));
    assert n % 100 == 0 ==> |xs| == 4 && xs[3] == NatText(n / 100);
  }

  /** A digit run may be a group or an exponent of a longer number: n% is grounded by every n.ddd, by every ddd.n and by
      every mantissa with exponent n, equal or not. */
  lemma WholePercentGroundedByAPart(n: nat, before: string, after: string)
    requires before == "" || !IsDigit(before[|before| - 1])
    requires after == "" || !IsDigit(after[0])
    ensures NumericGrounded(NatText(n) + "%", before + NatText(n) + after)
  {
    var t := NatText(n);
    hide NatText, NumericVariants, FloatText, NumericGrounded;
    RunInside(t, before, after);
    WholePercentGroundedIff(n, before + t + after);
  }

  lemma RunInside(t: string, before: string, after: string)
    requires t != "" && AllDigits(t)
    requires before == "" || !IsDigit(before[|before| - 1])
    requires after == "" || !IsDigit(after[0])
    ensures RunReads(before + t + after, t)
  {
    var s, a, b := before + t + after, |before|, |before| + |t|;
    assert s[a..b] == t && s[..a] == before && s[b..] == after;
    hide AllDigits;
    forall k | a <= k < b ensures DigitAt(s, k) {
      assert s[k] == t[k - a];
      AllDigitsAt(t, k - a);
    }
    assert a > 0 ==> s[a - 1] == before[a - 1];
    assert b < |s| ==> s[b] == after[0];
    assert MaximalRun(s, a, b);
  }

  lemma AllDigitsAt(t: string, k: nat)
    requires AllDigits(t) && k < |t|
    ensures IsDigit(t[k])
  {
  }

  /** The evidence is one decimal number i.frac. */
  predicate IsDecimalText(s: string, i: string, frac: string) {
    i != "" && frac != "" && AllDigits(i) && AllDigits(frac) && s == i + ("." + frac)
  }

  lemma RunsOfADecimal(s: string, i: string, frac: string, t: string)
    requires IsDecimalText(s, i, frac)
    ensures RunReads(s, t) <==> t == i || t == frac
  {
    DecimalDigits(s, i, frac);
    var m := |i|;
    hide AllDigits;
    if a: nat, b: nat :| MaximalRun(s, a, b) && s[a..b] == t {
      assert DigitAt(s, a) && !DigitAt(s, m);
      if a < m { assert a == 0 && b == m; } else { assert a == m + 1 && b == |s|; }
    }
    assert MaximalRun(s, 0, m) && s[0..m] == i;
    assert MaximalRun(s, m + 1, |s|) && s[m + 1..|s|] == frac;
  }

  /** A printed float is one decimal number, or it has an exponent mark. */
  lemma FloatTextShape(d: Dec) returns (i: string, frac: string)
    ensures 'e' in FloatText(d) || IsDecimalText(FloatText(d), i, frac)
  {
    i, frac := "0", "0";
    if d.c == 0 {
      assert FloatText(d) == "0" + ("." + "0");
    } else {
      var t := Trim(d);
      i, frac := NatText(Shr(t.c, t.k)), if t.k == 0 then "0" else Padded(t.c, t.k);
      var e := Exponent(t);
      if !(-4 <= e < 16) {
        var m, x := MantissaText(NatText(Strip10(t.c).0)), ExponentSuffix(e < 0, if e < 0 then -e else e);
        assert (m + x)[|m|] == x[0] == 'e';
      }
    }
  }

  /** Everything but the point is a digit. */
  lemma DecimalDigits(s: string, i: string, frac: string)
    requires IsDecimalText(s, i, frac)
    ensures |s| == |i| + 1 + |frac| && s[..|i|] == i && s[|i|] == '.' && s[|i| + 1..] == frac
    ensures forall k | 0 <= k < |s| :: k != |i| ==> IsDigit(s[k])
  {
    forall k | 0 <= k < |s| && k != |i| ensures IsDigit(s[k]) {
      if k < |i| { assert s[k] == i[k]; } else { assert s[k] == frac[k - |i| - 1]; }
    }
  }

  lemma DecimalInDecimal(x: string, j: string, tail: string, s: string, i: string, frac: string)
    requires IsDecimalText(x, j, tail) && IsDecimalText(s, i, frac)
    ensures Found(x, s, true) <==> x == s
    ensures x == s ==> j == i
  {
    DecimalDigits(x, j, tail);
    DecimalDigits(s, i, frac);
    hide IsDecimalText;
    if Found(x, s, true) {
      var p :| 0 <= p <= |s| && Hit(x, s, p, true);
      assert x == s[p..p + |x|];
      assert s[p + |j|] == x[|j|] == '.';
      assert p + |j| == |i|;
      assert p == 0;
      assert !DigitAt(s, |x|);
      assert |x| == |s|;
    }
    if x == s {
      assert Hit(x, s, 0, true);
      assert s[|j|] == '.';
    }
  }

  lemma FoundChars(x: string, s: string, c: char)
    requires Found(x, s, true) && c in x
    ensures c in s
  {
    var p :| 0 <= p <= |s| && Hit(x, s, p, true);
    assert x == s[p..p + |x|];
  }

  lemma FloatsOfADecimal(s: string, i: string, frac: string, d: Dec)
    requires IsDecimalText(s, i, frac)
    ensures Found(FloatText(d), s, true) <==> FloatText(d) == s
  {
    hide FloatText;
    var x := FloatText(d);
    var j, tail := FloatTextShape(d);
    if 'e' in x {
      DecimalDigits(s, i, frac);
      assert 'e' !in s;
      if Found(x, s, true) { FoundChars(x, s, 'e'); }
    } else {
      DecimalInDecimal(x, j, tail, s, i, frac);
    }
  }

  /** When the evidence is the single decimal number i.frac, a whole percentage n% is grounded by it if and only if
      either side of the point reads n (or n/100 when that is whole), whatever the other side says, or the number is
      the decimal spelling of n%. */
  lemma WholePercentByADecimalIff(n: nat, i: string, frac: string)
    requires IsDecimalText(i + ("." + frac), i, frac)
    ensures NumericGrounded(NatText(n) + "%", i + ("." + frac)) <==>
              || NatText(n) == i || NatText(n) == frac
              || (n % 100 == 0 && (NatText(n / 100) == i || NatText(n / 100) == frac))
              || FloatText(Dec(n, 2)) == i + ("." + frac)
  {
    hide NumericGrounded, FloatText, Found, RunReads, NatText;
    var s := i + ("." + frac);
    WholePercentGroundedIff(n, s);
    RunsOfADecimal(s, i, frac, NatText(n));
    RunsOfADecimal(s, i, frac, NatText(n / 100));
    FloatsOfADecimal(s, i, frac, Dec(n, 0));
    FloatsOfADecimal(s, i, frac, Dec(n, 2));
    NoPercentInADecimal(s, i, frac, NatText(n));
    WholeFloatText(n);
    DecimalDigits(s, i, frac);
    if FloatText(Dec(n, 0)) == s { DecimalInDecimal(s, NatText(n), "0", s, i, frac); }
  }

  lemma WholeFloatText(n: nat)
    ensures 'e' in FloatText(Dec(n, 0)) || FloatText(Dec(n, 0)) == NatText(n) + ("." + "0")
  {
    if n == 0 {
      assert NatText(0) == "0";
    } else {
      var e := Exponent(Dec(n, 0));
      assert e >= 0;
      if e >= 16 {
        var m, x := MantissaText(NatText(Strip10(n).0)), ExponentSuffix(false, e);
        assert (m + x)[|m|] == x[0] == 'e';
      }
    }
  }

  lemma ContainedChars(x: string, s: string, c: char)
    requires Contains(s, x) && c in x
    ensures c in s
  {
    var p :| 0 <= p <= |s| && OccursAt(x, s, p);
    assert x == s[p..p + |x|];
  }

  lemma NoPercentInADecimal(s: string, i: string, frac: string, t: string)
    requires IsDecimalText(s, i, frac)
    ensures !Contains(s, t + "%")
  {
    DecimalDigits(s, i, frac);
    assert '%' !in s;
    assert (t + "%")[|t|] == '%';
    if Contains(s, t + "%") { ContainedChars(t + "%", s, '%'); }
  }

  /** Only the whole of a decimal number is complete, among texts that begin and end with a digit. */
  lemma CompleteInADecimal(s: string, i: string, frac: string, lo: int, hi: int)
    requires IsDecimalText(s, i, frac)
    ensures Complete(s, 0, |s|)
    ensures Complete(s, lo, hi) && DigitAt(s, lo) && DigitAt(s, hi - 1) ==> lo == 0 && hi == |s|
  {
    DecimalDigits(s, i, frac);
    hide AllDigits;
    assert SeparatorAt(s, |i|) && DigitAt(s, |i| - 1) && DigitAt(s, |i| + 1);
  }

  /** A spelling that occurs in a decimal number begins and ends with a digit. */
  lemma SpellingEnds(s: string, i: string, frac: string, n: nat, lo: int, hi: int)
    requires IsDecimalText(s, i, frac) && 0 <= lo <= hi <= |s| && s[lo..hi] in NumericVariants(NatText(n) + "%")
    ensures DigitAt(s, lo) && DigitAt(s, hi - 1)
    ensures s[lo..hi] == s ==> s == FloatText(Dec(n, 2)) || s == FloatText(Dec(n, 0))
  {
    hide FloatText, NatText, NumericVariants;
    WholePercentVariants(n);
    DecimalDigits(s, i, frac);
    var x := s[lo..hi];
    if x == FloatText(Dec(n, 0)) || x == FloatText(Dec(n, 2)) {
      var j, tail := FloatTextShape(if x == FloatText(Dec(n, 0)) then Dec(n, 0) else Dec(n, 2));
      assert 'e' !in s && 'e' !in x;
      DecimalDigits(x, j, tail);
      assert s[lo] == x[0] && s[hi - 1] == x[|x| - 1];
    } else {
      assert s[lo] == x[0] && s[hi - 1] == x[|x| - 1];
      assert s[|i|] == '.';
      AllDigitsAt(x, 0);
      AllDigitsAt(x, |x| - 1);
    }
  }

  /** The number itself is equal to n% only as one of its two float spellings; so every other case of
      `WholePercentByADecimalIff` grounds n% by an unequal number. */
  lemma EqualDecimalIff(n: nat, i: string, frac: string)
    requires IsDecimalText(i + ("." + frac), i, frac)
    ensures HoldsEqualNumber(NatText(n) + "%", i + ("." + frac)) <==>
              i + ("." + frac) == FloatText(Dec(n, 2)) || i + ("." + frac) == FloatText(Dec(n, 0))
  {
    hide FloatText, NatText, NumericVariants, Respells, HasBegun, GoesOn, IsDecimalText;
    var s, numeric := i + ("." + frac), NatText(n) + "%";
    assert '%' !in s by { DecimalDigits(s, i, frac); }
    if lo, hi :| Complete(s, lo, hi) && StatesEqual(numeric, s[lo..hi]) {
      assert !IsPercent(s[lo..hi]);
      CompleteInADecimal(s, i, frac, lo, hi);
      SpellingIff(numeric, s[lo..hi]);
      SpellingEnds(s, i, frac, n, lo, hi);
    }
    var xs := NumericVariants(numeric);
    WholePercentVariants(n);
    assert xs[0] == FloatText(Dec(n, 0)) && xs[2] == FloatText(Dec(n, 2));
    if s == xs[0] || s == xs[2] {
      CompleteInADecimal(s, i, frac, 0, |s|);
      SpellingIff(numeric, s);
      assert s[0..|s|] == s;
    }
  }

  lemma FortyTexts()
    ensures NatText(40) == "40" && FloatText(Dec(40, 0)) == "40.0" && FloatText(Dec(40, 2)) == "0.4"
  {
    assert NatText(4) == "4" && NatText(0) == "0";
    assert NatText(40) == NatText(4) + [DigitChar(0)] == "40";
    assert Strip10(4) == (4, 0) && Strip10(40) == (4, 1);
    assert Trim(Dec(4, 1)) == Dec(4, 1) && Trim(Dec(40, 2)) == Dec(4, 1) && Trim(Dec(40, 0)) == Dec(40, 0);
    assert Exponent(Dec(40, 0)) == 1 && Exponent(Dec(4, 1)) == -1;
    assert Shr(4, 1) == Shr(0, 0) == 0 && Shr(40, 0) == 40;
    assert Padded(4, 1) == Padded(0, 0) + [DigitChar(4)] == "4";
    assert FixedText(Dec(40, 0)) == "40" + ("." + "0") == "40.0";
    assert FixedText(Dec(4, 1)) == "0" + ("." + "4") == "0.4";
  }

  /** A printed float with a percent sign is respelled as the number it prints and as its hundredth. */
  lemma FloatPercentVariants(d: Dec)
    ensures NumericVariants(FloatText(d) + "%") == NumberForms(d) + NumberForms(Hundredth(d))
  {
    hide FloatText, ParseDec, Val, Strip, WithoutCommas, NumberForms;
    var t := FloatText(d);
    FloatTextChars(d);
    FloatTextIsBare(d);
    StripTrimmed(t);
    assert (t + "%")[..|t + "%"| - 1] == t;
    FloatTextDenotes(d);
    var e := ParseDec(t).value;
    NumberFormsCanonical(e, d);
    HundredVals(e);
    HundredVals(d);
    NumberFormsCanonical(Hundredth(e), Hundredth(d));
  }

  /** The spellings of the docstring's own example. */
  lemma FortyPercent()
    ensures NumericVariants("40.0%") == ["40.0", "40", "0.4"]
  {
    FortyTexts();
    FloatPercentVariants(Dec(40, 0));
    WholePercentVariants(40);
    hide FloatText, NatText, NumericVariants;
    WholeForms(40);
    assert "40.0" + "%" == "40.0%";
    HundredthOfForty();
  }

  lemma HundredthOfForty()
    ensures NumberForms(Dec(40, 2)) == [FloatText(Dec(40, 2))]
  {
    hide FloatText;
    assert Shr(40, 2) == Shr(4, 1) == Shr(0, 0) == 0;
  }
}
