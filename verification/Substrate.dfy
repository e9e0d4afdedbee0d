/** The Layer-3 search text: evidence, findings, anchors and glossaries joined by newlines. */
module Substrate {
  import opened Text
  import opened Decimals
  import opened Regex
  import opened NumericScanner
  import opened FactChecker

  /** A pattern that the separator cannot be part of. */
  predicate OneLine(pat: string) { pat != "" && '\n' !in pat }

  lemma HitInFront(pat: string, a: string, b: string, i: int, anchored: bool)
    requires OneLine(pat)
    requires i + |pat| <= |a|
    ensures Hit(pat, a, i, anchored) <==> Hit(pat, a + ("\n" + b), i, anchored)
  {
    var s := a + ("\n" + b);
    assert 0 <= i ==> s[i..i + |pat|] == a[i..i + |pat|];
    assert s[|a|] == '\n';
  }

  lemma HitBehind(pat: string, a: string, b: string, i: int, anchored: bool)
    requires OneLine(pat) && 0 <= i
    ensures Hit(pat, b, i, anchored) <==> Hit(pat, a + ("\n" + b), |a| + 1 + i, anchored)
  {
    var s := a + ("\n" + b);
    var j := |a| + 1 + i;
    if i + |pat| <= |b| {
      assert s[j..j + |pat|] == b[i..i + |pat|];
    }
    assert s[|a|] == '\n';
    assert i > 0 && i - 1 < |b| ==> s[j - 1] == b[i - 1];
    assert i + |pat| < |b| ==> s[j + |pat|] == b[i + |pat|];
  }

  lemma NoHitAcross(pat: string, a: string, b: string, i: int)
    requires OneLine(pat) && i <= |a| < i + |pat|
    ensures !OccursAt(pat, a + ("\n" + b), i)
  {
    var s := a + ("\n" + b);
    if 0 <= i {
      assert pat[|a| - i] in pat;
      assert s[|a|] == '\n';
      assert i + |pat| <= |s| ==> s[i..i + |pat|][|a| - i] == s[|a|];
    }
  }

  lemma FoundInTwo(pat: string, a: string, b: string, anchored: bool)
    requires OneLine(pat)
    ensures Found(pat, a + ("\n" + b), anchored) <==> Found(pat, a, anchored) || Found(pat, b, anchored)
  {
    var s := a + ("\n" + b);
    if i :| 0 <= i <= |s| && Hit(pat, s, i, anchored) {
      if i + |pat| <= |a| {
        HitInFront(pat, a, b, i, anchored);
      } else if i <= |a| {
        NoHitAcross(pat, a, b, i);
      } else {
        HitBehind(pat, a, b, i - |a| - 1, anchored);
      }
    }
    if i :| 0 <= i <= |a| && Hit(pat, a, i, anchored) {
      HitInFront(pat, a, b, i, anchored);
      assert Hit(pat, s, i, anchored);
    }
    if i :| 0 <= i <= |b| && Hit(pat, b, i, anchored) {
      HitBehind(pat, a, b, i, anchored);
      assert Hit(pat, s, |a| + 1 + i, anchored);
    }
  }

  /** Joining with newlines neither adds nor hides an occurrence. */
  lemma {:induction false} FoundInJoin(pat: string, parts: seq<string>, anchored: bool)
    requires OneLine(pat)
    ensures Found(pat, Join("\n", parts), anchored)
        <==> exists k | 0 <= k < |parts| :: Found(pat, parts[k], anchored)
  {
    if |parts| == 0 {
      assert forall i :: !OccursAt(pat, "", i);
    } else if |parts| > 1 {
      var rest := Join("\n", parts[1..]);
      assert Join("\n", parts) == parts[0] + ("\n" + rest);
      FoundInTwo(pat, parts[0], rest, anchored);
      FoundInJoin(pat, parts[1..], anchored);
      assert forall k | 0 < k < |parts| :: parts[k] == parts[1..][k - 1];
      if k :| 0 <= k < |parts| && Found(pat, parts[k], anchored) {
        assert k > 0 ==> Found(pat, parts[1..][k - 1], anchored);
      }
    }
  }

  lemma NumberFormsOneLine(d: Dec, x: string)
    requires x in NumberForms(d)
    ensures OneLine(x)
  {
    FloatTextChars(d);
    assert forall c | IsNumeralChar(c) || IsDigit(c) :: c != '\n';
  }

  lemma PercentFormsOneLine(p: Dec, x: string)
    requires x in PercentForms(p)
    ensures OneLine(x)
  {
    FloatTextChars(p);
    assert forall c | IsNumeralChar(c) || IsDigit(c) :: c != '\n';
  }

  lemma VariantsAreOneLine(numeric: string, x: string)
    requires x in NumericVariants(numeric)
    ensures OneLine(x)
  {
    if IsPercent(numeric) {
      var v := PercentNumber(numeric).value;
      if x in NumberForms(v) {
        NumberFormsOneLine(v, x);
      } else {
        NumberFormsOneLine(Hundredth(v), x);
      }
    } else {
      PercentFormsOneLine(HundredTimes(ParseDec(WithoutCommas(numeric)).value), x);
    }
  }

  /** For any list of parts, a one-line numeric is grounded in the joined substrate exactly
      when it is grounded in one of the parts. */
  lemma GroundedInJoin(numeric: string, parts: seq<string>)
    requires OneLine(numeric)
    ensures NumericGrounded(numeric, Join("\n", parts))
        <==> exists k | 0 <= k < |parts| :: NumericGrounded(numeric, parts[k])
  {
    hide NumericVariants;
    hide Found;
    var blob, vs := Join("\n", parts), NumericVariants(numeric);
    FoundInJoin(numeric, parts, false);
    forall j | 0 <= j < |vs|
      ensures Found(vs[j], blob, true) <==> exists k | 0 <= k < |parts| :: Found(vs[j], parts[k], true)
    {
      VariantsAreOneLine(numeric, vs[j]);
      FoundInJoin(vs[j], parts, true);
    }
  }

  /** Every token the scanner reports is one line, so the equivalence covers the whole narrative. */
  lemma TokensAreOneLine(text: string, k: nat)
    requires k < |Numerics(text)|
    ensures OneLine(Extract(text, Numerics(text)[k]))
  {
    var t := Numerics(text)[k];
    forall i | 0 <= i < t.hi - t.lo
      ensures Extract(text, t)[i] != '\n'
    {
      TokenChars(text, k, t.lo + i);
    }
  }
}
