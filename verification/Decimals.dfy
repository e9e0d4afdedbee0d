/** Decimal numerals: printers for naturals, integers and floats, and the
    parser behind `float(...)` and `Decimal(...)`.

    A `Dec(c, k)` is the exact number c / 10^k. `FloatText` is Python's
    `str(float(d))`: the shortest decimal, in fixed notation for magnitudes in
    [1e-4, 1e16) and in exponent notation outside. */
module Decimals {
  import opened Text

  datatype Option<+T> = None | Some(value: T)

  datatype Dec = Dec(c: nat, k: nat)

  /** c × 10^j. */
  function Shl(c: nat, j: nat): (r: nat)
    ensures r >= c && (c > 0 ==> r > 0) && (c == 0 ==> r == 0)
  {
    if j == 0 then c else 10 * Shl(c, j - 1)
  }

  /** The integer part of c / 10^j. */
  function Shr(c: nat, j: nat): nat {
    if j == 0 then c else Shr(c / 10, j - 1)
  }

  /** The number a decimal denotes, c / 10^k. */
  function Val(d: Dec): real
    decreases d.k
  {
    if d.k == 0 then d.c as real else Val(Dec(d.c, d.k - 1)) / 10.0
  }

  lemma {:induction false} ShlAdd(c: nat, i: nat, j: nat)
    ensures Shl(Shl(c, i), j) == Shl(c, i + j)
  {
    if j > 0 { ShlAdd(c, i, j - 1); }
  }

  lemma ShlDivides(c: nat, j: nat)
    requires j > 0
    ensures Shl(c, j) % 10 == 0
  {
  }

  /** For a fixed number of fractional digits, values compare as their integers do. */
  lemma {:induction false} ValInjective(c: nat, c': nat, k: nat)
    ensures Val(Dec(c, k)) == Val(Dec(c', k)) <==> c == c'
  {
    if k > 0 { ValInjective(c, c', k - 1); }
  }

  lemma {:induction false} ValMonotone(c: nat, c': nat, k: nat)
    ensures Val(Dec(c, k)) <= Val(Dec(c', k)) <==> c <= c'
  {
    if k > 0 { ValMonotone(c, c', k - 1); }
  }

  lemma {:induction false} ValTimes10(c: nat, k: nat)
    ensures Val(Dec(10 * c, k)) == 10.0 * Val(Dec(c, k))
  {
    if k > 0 { ValTimes10(c, k - 1); }
  }

  lemma {:induction false} ValShift(c: nat, k: nat, j: nat)
    ensures Val(Dec(Shl(c, j), k + j)) == Val(Dec(c, k))
  {
    if j > 0 {
      ValTimes10(Shl(c, j - 1), k + j - 1);
      ValShift(c, k, j - 1);
    }
  }

  lemma {:induction false} ValZero(k: nat)
    ensures Val(Dec(0, k)) == 0.0
  {
    if k > 0 { ValZero(k - 1); }
  }

  lemma {:induction false} ValPositive(c: nat, k: nat)
    requires c > 0
    ensures Val(Dec(c, k)) > 0.0
  {
    if k > 0 { ValPositive(c, k - 1); }
  }

  // ---- naturals -----------------------------------------------------------

  function DigitChar(d: nat): (c: char)
    requires d < 10
    ensures IsDigit(c) && DigitValue(c) == d
  {
    (48 + d) as char
  }

  function DigitValue(c: char): (d: nat)
    requires IsDigit(c)
    ensures d < 10
  {
    c as int - 48
  }

  /** `str(n)` for a natural number. */
  function NatText(n: nat): (s: string)
    ensures s != "" && AllDigits(s)
    ensures n > 0 ==> s[0] != '0'
  {
    if n < 10 then [DigitChar(n)] else NatText(n / 10) + [DigitChar(n % 10)]
  }

  /** The low k digits of n, zero-padded. */
  function Padded(n: nat, k: nat): (s: string)
    ensures |s| == k && AllDigits(s)
  {
    if k == 0 then "" else Padded(n / 10, k - 1) + [DigitChar(n % 10)]
  }

  function ParseNat(s: string): nat
    requires AllDigits(s)
  {
    if s == "" then 0 else 10 * ParseNat(s[..|s| - 1]) + DigitValue(s[|s| - 1])
  }

  lemma ParseNatSnoc(s: string, d: nat)
    requires AllDigits(s) && d < 10
    ensures ParseNat(s + [DigitChar(d)]) == 10 * ParseNat(s) + d
  {
    assert (s + [DigitChar(d)])[..|s|] == s;
  }

  lemma {:induction false} NatRoundTrip(n: nat)
    ensures ParseNat(NatText(n)) == n
  {
    if n >= 10 {
      NatRoundTrip(n / 10);
      ParseNatSnoc(NatText(n / 10), n % 10);
    } else {
      ParseNatSnoc("", n);
      assert NatText(n) == "" + [DigitChar(n)];
    }
  }

  /** Splitting off the low k digits and putting them back gives the same number. */
  lemma {:induction false} SplitDigits(c: nat, k: nat)
    ensures ParseNat(NatText(Shr(c, k)) + Padded(c, k)) == c
  {
    hide ParseNat, NatText;
    if k == 0 {
      NatRoundTrip(c);
      assert NatText(c) + "" == NatText(c);
    } else {
      SplitDigits(c / 10, k - 1);
      var s := NatText(Shr(c / 10, k - 1)) + Padded(c / 10, k - 1);
      ParseNatSnoc(s, c % 10);
      assert NatText(Shr(c, k)) + Padded(c, k) == s + [DigitChar(c % 10)];
    }
  }

  /** Padding loses nothing when the number fits. */
  lemma {:induction false} PaddedRoundTrip(n: nat, k: nat)
    requires Shr(n, k) == 0
    ensures ParseNat(Padded(n, k)) == n
  {
    if k > 0 {
      PaddedRoundTrip(n / 10, k - 1);
      ParseNatSnoc(Padded(n / 10, k - 1), n % 10);
    }
  }

  // ---- numeral syntax -----------------------------------------------------

  function DigitSpan(s: string): (n: nat)
    ensures n <= |s| && AllDigits(s[..n])
    ensures n < |s| ==> !IsDigit(s[n])
  {
    LeadingRun(s, IsDigit)
  }

  lemma DigitSpanPrefix(a: string, rest: string)
    requires AllDigits(a) && (rest == "" || !IsDigit(rest[0]))
    ensures DigitSpan(a + rest) == |a|
  {
    LeadingRunPrefix(a, rest, IsDigit);
  }

  /** d × 10^e or d / 10^e, for the exponent part of a numeral. */
  function Scale(d: Dec, down: bool, e: nat): Dec {
    if down then Dec(d.c, d.k + e) else Dec(Shl(d.c, e), d.k)
  }

  /** What follows the mantissa: nothing, or `e`, an optional sign and digits. */
  function ParseExponent(d: Dec, s: string): Option<Dec> {
    if s == "" then Some(d)
    else if s[0] != 'e' && s[0] != 'E' then None
    else
      var signed := |s| > 1 && (s[1] == '-' || s[1] == '+');
      var e := if signed then s[2..] else s[1..];
      if e == "" || !AllDigits(e) then None
      else Some(Scale(d, signed && s[1] == '-', ParseNat(e)))
  }

  /** An unsigned decimal numeral: digits, an optional fraction, an optional exponent. */
  function ParseDec(s: string): Option<Dec> {
    var n := DigitSpan(s);
    var rest := s[n..];
    if rest != "" && rest[0] == '.' then
      var frac := rest[1..];
      var m := DigitSpan(frac);
      if n + m == 0 then None
      else ParseExponent(Dec(ParseNat(s[..n] + frac[..m]), m), frac[m..])
    else if n == 0 then None
    else ParseExponent(Dec(ParseNat(s[..n]), 0), rest)
  }

  lemma ParseFixed(a: string, b: string, tail: string)
    requires AllDigits(a) && AllDigits(b) && a != ""
    requires tail == "" || tail[0] == 'e'
    ensures ParseDec(a + ("." + (b + tail))) == ParseExponent(Dec(ParseNat(a + b), |b|), tail)
  {
    var s := a + ("." + (b + tail));
    DigitSpanPrefix(a, "." + (b + tail));
    assert s[|a|..] == "." + (b + tail) && s[..|a|] == a;
    assert ("." + (b + tail))[1..] == b + tail;
    DigitSpanPrefix(b, tail);
    assert (b + tail)[..|b|] == b && (b + tail)[|b|..] == tail;
  }

  lemma ParsePlain(a: string, tail: string)
    requires AllDigits(a) && a != ""
    requires tail == "" || tail[0] == 'e'
    ensures ParseDec(a + tail) == ParseExponent(Dec(ParseNat(a), 0), tail)
  {
    DigitSpanPrefix(a, tail);
    assert (a + tail)[..|a|] == a && (a + tail)[|a|..] == tail;
  }

  /** A string of digits is read as the natural number it spells. */
  lemma ParseNatText(n: nat)
    ensures ParseDec(NatText(n)) == Some(Dec(n, 0))
  {
    ParsePlain(NatText(n), "");
    assert NatText(n) + "" == NatText(n);
    NatRoundTrip(n);
  }

  // ---- floats -------------------------------------------------------------

  /** Drop trailing zeros of the fraction. */
  function Trim(d: Dec): (t: Dec)
    ensures t.k == 0 || t.c % 10 != 0
    ensures d.c > 0 ==> t.c > 0
    decreases d.k
  {
    if d.k > 0 && d.c % 10 == 0 then Trim(Dec(d.c / 10, d.k - 1)) else d
  }

  lemma {:induction false} TrimVal(d: Dec)
    ensures Val(Trim(d)) == Val(d)
    decreases d.k
  {
    if d.k > 0 && d.c % 10 == 0 {
      var e := Dec(d.c / 10, d.k - 1);
      TrimVal(e);
      ValTimes10(e.c, e.k);
      assert Val(d) == Val(Dec(10 * e.c, e.k)) / 10.0;
    }
  }

  lemma ReducedUnique(a: Dec, b: Dec)
    requires b.k == 0 || b.c % 10 != 0
    requires Val(a) == Val(b) && a.k <= b.k
    ensures a == b
  {
    var j := b.k - a.k;
    ValShift(a.c, a.k, j);
    ValInjective(Shl(a.c, j), b.c, b.k);
    if j > 0 { ShlDivides(a.c, j); }
  }

  /** Equal numbers have the same trimmed form. */
  lemma TrimUnique(a: Dec, b: Dec)
    requires Val(a) == Val(b)
    ensures Trim(a) == Trim(b)
  {
    TrimVal(a);
    TrimVal(b);
    if Trim(a).k <= Trim(b).k {
      ReducedUnique(Trim(a), Trim(b));
    } else {
      ReducedUnique(Trim(b), Trim(a));
    }
  }

  /** Drop every trailing zero of a positive natural: c == m × 10^t. */
  function Strip10(c: nat): (r: (nat, nat))
    requires c > 0
    ensures r.0 > 0 && c == Shl(r.0, r.1)
  {
    if c % 10 != 0 then (c, 0) else var r := Strip10(c / 10); (r.0, r.1 + 1)
  }

  /** Fixed notation with at least one fractional digit. */
  function FixedText(d: Dec): string {
    NatText(Shr(d.c, d.k)) + ("." + (if d.k == 0 then "0" else Padded(d.c, d.k)))
  }

  /** Exponents are printed with at least two digits. */
  function ExponentText(e: nat): (s: string)
    ensures s != "" && AllDigits(s)
  {
    if e < 10 then Padded(e, 2) else NatText(e)
  }

  lemma ExponentRoundTrip(e: nat)
    ensures ParseNat(ExponentText(e)) == e
  {
    if e < 10 {
      assert Shr(e, 2) == Shr(e / 10, 1);
      PaddedRoundTrip(e, 2);
    } else { NatRoundTrip(e); }
  }

  /** `e-XX` or `e+XX`. */
  function ExponentSuffix(down: bool, e: nat): string {
    (if down then "e-" else "e+") + ExponentText(e)
  }

  lemma ParseSuffix(d: Dec, down: bool, e: nat)
    ensures ParseExponent(d, ExponentSuffix(down, e)) == Some(Scale(d, down, e))
  {
    var s := ExponentSuffix(down, e);
    assert s[2..] == ExponentText(e);
    ExponentRoundTrip(e);
  }

  /** `d` or `d.ddd`. */
  function MantissaText(ds: string): string
    requires ds != ""
  {
    if |ds| == 1 then ds else ds[..1] + ("." + ds[1..])
  }

  /** The decimal exponent: t is d.ddd × 10^e. */
  function Exponent(t: Dec): int
    requires t.c > 0
  {
    var r := Strip10(t.c);
    |NatText(r.0)| + r.1 - t.k - 1
  }

  function ScientificText(t: Dec): string
    requires t.c > 0
  {
    var e := Exponent(t);
    MantissaText(NatText(Strip10(t.c).0)) + ExponentSuffix(e < 0, if e < 0 then -e else e)
  }

  /** `str(float(d))`. */
  function FloatText(d: Dec): string {
    if d.c == 0 then "0.0" else FloatTextTrimmed(Trim(d))
  }

  function FloatTextTrimmed(t: Dec): string
    requires t.c > 0
  {
    if -4 <= Exponent(t) < 16 then FixedText(t) else ScientificText(t)
  }

  ghost predicate Denotes(s: string, d: Dec) {
    ParseDec(s).Some? && Val(ParseDec(s).value) == Val(d)
  }

  lemma FixedTextDenotes(d: Dec)
    ensures Denotes(FixedText(d), d)
  {
    var a := NatText(Shr(d.c, d.k));
    var b := if d.k == 0 then "0" else Padded(d.c, d.k);
    ParseFixed(a, b, "");
    assert b + "" == b;
    if d.k == 0 {
      NatRoundTrip(d.c);
      ParseNatSnoc(a, 0);
      assert a + "0" == a + [DigitChar(0)];
      ValTimes10(d.c, 0);
      assert Val(Dec(10 * d.c, 1)) == Val(Dec(10 * d.c, 0)) / 10.0;
    } else {
      SplitDigits(d.c, d.k);
    }
  }

  lemma MantissaShape(ds: string, tail: string)
    requires |ds| > 1
    ensures MantissaText(ds) + tail == ds[..1] + ("." + (ds[1..] + tail))
  {
  }

  lemma MantissaParses(ds: string, tail: string)
    requires ds != "" && AllDigits(ds)
    requires tail == "" || tail[0] == 'e'
    ensures ParseDec(MantissaText(ds) + tail) == ParseExponent(Dec(ParseNat(ds), |ds| - 1), tail)
  {
    if |ds| == 1 {
      ParsePlain(ds, tail);
    } else {
      MantissaShape(ds, tail);
      ParseFixed(ds[..1], ds[1..], tail);
      assert ds[..1] + ds[1..] == ds;
    }
  }

  lemma ScaleBack(m: nat, t: nat, f: nat, k: nat, down: bool, e: nat)
    requires (f + t) - k == if down then 0 - e else e
    ensures Val(Scale(Dec(m, f), down, e)) == Val(Dec(Shl(m, t), k))
  {
    if down {
      ValShift(m, f + e, t);
      assert f + e + t == k;
    } else {
      ValShift(Shl(m, e), f, k);
      ValShift(Shl(m, t), k, f);
      ShlAdd(m, e, k);
      ShlAdd(m, t, f);
    }
  }

  lemma ScientificTextDenotes(t: Dec)
    requires t.c > 0
    ensures Denotes(ScientificText(t), t)
  {
    hide ParseDec, Scale, Val, MantissaText, ExponentSuffix;
    var e := Exponent(t);
    var mag: nat := if e < 0 then -e else e;
    var r := Strip10(t.c);
    ScientificParses(r.0, e < 0, mag);
    ScaleBack(r.0, r.1, |NatText(r.0)| - 1, t.k, e < 0, mag);
  }

  lemma ScientificParses(m: nat, down: bool, e: nat)
    ensures ParseDec(MantissaText(NatText(m)) + ExponentSuffix(down, e))
         == Some(Scale(Dec(m, |NatText(m)| - 1), down, e))
  {
    NatRoundTrip(m);
    MantissaParses(NatText(m), ExponentSuffix(down, e));
    ParseSuffix(Dec(m, |NatText(m)| - 1), down, e);
  }

  /** Printing a float and reading it back gives the same number. */
  lemma FloatTextDenotes(d: Dec)
    ensures Denotes(FloatText(d), d)
  {
    if d.c == 0 {
      FixedTextDenotes(Dec(0, 0));
      assert FloatText(d) == FixedText(Dec(0, 0));
      ValZero(d.k);
    } else {
      TrimVal(d);
      FixedTextDenotes(Trim(d));
      ScientificTextDenotes(Trim(d));
    }
  }

  /** The printed form depends on the number only, not on how it was written. */
  lemma FloatTextCanonical(a: Dec, b: Dec)
    requires Val(a) == Val(b)
    ensures FloatText(a) == FloatText(b)
  {
    ValZero(a.k);
    ValZero(b.k);
    if a.c > 0 { ValPositive(a.c, a.k); }
    if b.c > 0 { ValPositive(b.c, b.k); }
    TrimUnique(a, b);
  }

  lemma {:induction false} FixedChars(d: Dec)
    ensures forall i | 0 <= i < |FixedText(d)| :: IsNumeralChar(FixedText(d)[i])
  {
  }

  /** A character `FloatText` can print. */
  predicate IsNumeralChar(c: char) { IsDigit(c) || c in {'.', 'e', '-', '+'} }

  /** A printed float consists of digits, at most a point, and at most an exponent mark and sign. */
  lemma FloatTextChars(d: Dec)
    ensures FloatText(d) != ""
    ensures forall i | 0 <= i < |FloatText(d)| :: IsNumeralChar(FloatText(d)[i])
  {
    if d.c > 0 {
      var t := Trim(d);
      FixedChars(t);
      var m, e := MantissaText(NatText(Strip10(t.c).0)), Exponent(t);
      assert forall i | 0 <= i < |m| :: IsNumeralChar(m[i]);
      var x := ExponentSuffix(e < 0, if e < 0 then -e else e);
      assert forall i | 0 <= i < |x| :: IsNumeralChar(x[i]);
      assert ScientificText(t) == m + x;
    }
  }

  // ---- whole numbers ------------------------------------------------------

  /** d is a whole number; `Shr(d.c, d.k)` is then its integer value. */
  predicate IsWhole(d: Dec) { d.c == Shl(Shr(d.c, d.k), d.k) }

  lemma {:induction false} ShrOfShl(n: nat, k: nat)
    ensures Shr(Shl(n, k), k) == n
  {
    if k > 0 {
      assert Shl(n, k) / 10 == Shl(n, k - 1);
      ShrOfShl(n, k - 1);
    }
  }

  /** d is whole exactly when its value is that of some natural n, and then n is its integer value. */
  lemma WholeValue(d: Dec, n: nat)
    ensures IsWhole(d) ==> Val(d) == Shr(d.c, d.k) as real
    ensures Val(d) == n as real ==> IsWhole(d) && Shr(d.c, d.k) == n
  {
    ValShift(n, 0, d.k);
    ValInjective(Shl(n, d.k), d.c, d.k);
    ValShift(Shr(d.c, d.k), 0, d.k);
    ShrOfShl(n, d.k);
  }

  lemma WholeCanonical(a: Dec, b: Dec)
    requires Val(a) == Val(b)
    ensures IsWhole(a) == IsWhole(b)
    ensures IsWhole(a) ==> Shr(a.c, a.k) == Shr(b.c, b.k)
  {
    WholeValue(a, Shr(b.c, b.k));
    WholeValue(b, Shr(a.c, a.k));
  }

  // ---- hundredths ---------------------------------------------------------

  function Hundredth(d: Dec): Dec { Dec(d.c, d.k + 2) }

  function HundredTimes(d: Dec): Dec { Dec(Shl(d.c, 2), d.k) }

  lemma HundredVals(d: Dec)
    ensures Val(Hundredth(d)) == Val(d) / 100.0
    ensures Val(HundredTimes(d)) == Val(d) * 100.0
  {
    assert Val(Hundredth(d)) == Val(Dec(d.c, d.k + 1)) / 10.0;
    ValTimes10(d.c, d.k);
    ValTimes10(10 * d.c, d.k);
    assert Shl(d.c, 2) == 10 * Shl(d.c, 1) == 10 * (10 * d.c);
  }

  // ---- signed numerals ----------------------------------------------------

  /** `str(i)`. */
  function IntText(i: int): string {
    if i < 0 then "-" + NatText(-i) else NatText(i)
  }

  datatype Signed = Signed(negative: bool, magnitude: Dec)

  function SignedVal(x: Signed): real { if x.negative then -Val(x.magnitude) else Val(x.magnitude) }

  /** The decimal behind `float(s)`, for a finite numeral with an optional sign. */
  function ParseSigned(s: string): Option<Signed> {
    var neg := s != "" && s[0] == '-';
    var signed := neg || (s != "" && s[0] == '+');
    match ParseDec(if signed then s[1..] else s)
    case None => None
    case Some(d) => Some(Signed(neg, d))
  }

  /** `float(s)`. */
  function ParseFloat(s: string): Option<real> {
    match ParseSigned(s) case None => None case Some(x) => Some(SignedVal(x))
  }

  /** `float(str(i))` is i. */
  lemma IntRoundTrip(i: int)
    ensures ParseFloat(IntText(i)) == Some(i as real)
  {
    var n: nat := if i < 0 then -i else i;
    ParseNatText(n);
    if i < 0 {
      assert IntText(i)[1..] == NatText(n);
    }
  }
}
