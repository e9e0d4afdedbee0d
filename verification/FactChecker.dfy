/** The deterministic grounding check: every numeric and every entity of a
    narrative must be found in the evidence text.

    The fuzzy entity score is an arbitrary predicate `similar`; the stopword
    list is a parameter because Layer 2 and Layer 3 use different ones. */
module FactChecker {
  import opened Text
  import opened Decimals
  import opened Regex
  import opened NumericScanner
  import opened EntityScanner

  // ---- equivalent spellings of a number -----------------------------------

  function WithoutCommas(s: string): (r: string)
    ensures ',' !in s ==> r == s
  {
    if s == "" then "" else (if s[0] == ',' then "" else s[..1]) + WithoutCommas(s[1..])
  }

  /** The float form, and the integer form when there is one. */
  function NumberForms(d: Dec): seq<string> {
    [FloatText(d)] + if IsWhole(d) then [NatText(Shr(d.c, d.k))] else []
  }

  /** `n%` and `n.0%` for a whole percentage, the float form with `%` otherwise. */
  function PercentForms(p: Dec): seq<string> {
    if IsWhole(p) then [NatText(Shr(p.c, p.k)) + "%", NatText(Shr(p.c, p.k)) + ".0%"]
    else [FloatText(p) + "%"]
  }

  predicate IsPercent(numeric: string) { numeric != "" && numeric[|numeric| - 1] == '%' }

  /** The number written before the '%'. */
  function PercentNumber(numeric: string): Option<Dec>
    requires IsPercent(numeric)
  {
    ParseDec(WithoutCommas(Strip(numeric[..|numeric| - 1])))
  }

  predicate AtMostOne(d: Dec) { 0 < d.c <= Shl(1, d.k) }

  lemma PercentHasMark(numeric: string)
    ensures IsPercent(numeric) ==> '%' in numeric
  {
  }

  function NumericVariants(numeric: string): seq<string> {
    if IsPercent(numeric) then
      match PercentNumber(numeric)
      case None => []
      case Some(v) => NumberForms(v) + NumberForms(Hundredth(v))
    else if '$' in numeric || '%' in numeric then []
    else
      match ParseDec(WithoutCommas(numeric))
      case None => []
      case Some(v) => if AtMostOne(v) then PercentForms(HundredTimes(v)) else []
  }

  method AppendForms(variants: seq<string>, d: Dec) returns (r: seq<string>)
    ensures r == variants + NumberForms(d)
  {
    r := variants + [FloatText(d)];
    if IsWhole(d) {
      r := r + [NatText(Shr(d.c, d.k))];
    }
  }

  method ExpandNumeric(numeric: string) returns (variants: seq<string>)
    ensures variants == NumericVariants(numeric)
  {
    hide ParseDec, WithoutCommas, FloatText, NatText, Strip, AtMostOne, NumberForms;
    variants := [];
    if IsPercent(numeric) {
      var bare := PercentNumber(numeric);
      if bare.Some? {
        variants := AppendForms(variants, bare.value);
        variants := AppendForms(variants, Hundredth(bare.value));
      }
    } else if '$' !in numeric && '%' !in numeric {
      var bare := ParseDec(WithoutCommas(numeric));
      if bare.Some? && AtMostOne(bare.value) {
        var percent := HundredTimes(bare.value);
        if IsWhole(percent) {
          variants := variants + [NatText(Shr(percent.c, percent.k)) + "%"];
          variants := variants + [NatText(Shr(percent.c, percent.k)) + ".0%"];
        } else {
          variants := variants + [FloatText(percent) + "%"];
        }
        assert variants == PercentForms(percent);
      }
    }
  }

  lemma NumberFormsDenote(d: Dec, x: string)
    requires x in NumberForms(d)
    ensures Denotes(x, d)
  {
    FloatTextDenotes(d);
    if x != FloatText(d) {
      ParseNatText(Shr(d.c, d.k));
      WholeValue(d, Shr(d.c, d.k));
    }
  }

  /** Every spelling offered for `v%` denotes v or v/100. */
  lemma PercentVariantsDenote(numeric: string, x: string)
    requires IsPercent(numeric) && x in NumericVariants(numeric)
    ensures PercentNumber(numeric).Some? && ParseDec(x).Some?
    ensures var v := Val(PercentNumber(numeric).value);
            Val(ParseDec(x).value) == v || Val(ParseDec(x).value) == v / 100.0
  {
    var v := PercentNumber(numeric).value;
    if x in NumberForms(v) {
      NumberFormsDenote(v, x);
    } else {
      NumberFormsDenote(Hundredth(v), x);
      HundredVals(v);
    }
  }

  lemma PointZero(n: nat)
    ensures Denotes(NatText(n) + ".0", Dec(n, 0))
  {
    FixedTextDenotes(Dec(n, 0));
    assert Shr(n, 0) == n && ".0" == "." + "0";
  }

  lemma PercentFormsDenote(p: Dec, x: string)
    requires x in PercentForms(p)
    ensures IsPercent(x) && Denotes(x[..|x| - 1], p)
  {
    if IsWhole(p) {
      var n := Shr(p.c, p.k);
      WholeValue(p, n);
      ParseNatText(n);
      PointZero(n);
      assert (NatText(n) + "%")[..|NatText(n)|] == NatText(n);
      assert NatText(n) + ".0%" == NatText(n) + ".0" + "%";
      assert (NatText(n) + ".0" + "%")[..|NatText(n)| + 2] == NatText(n) + ".0";
    } else {
      FloatTextDenotes(p);
      assert (FloatText(p) + "%")[..|FloatText(p)|] == FloatText(p);
    }
  }

  lemma AtMostOneVal(d: Dec)
    ensures AtMostOne(d) <==> 0.0 < Val(d) <= 1.0
  {
    ValMonotone(d.c, Shl(1, d.k), d.k);
    ValShift(1, 0, d.k);
    ValZero(d.k);
    if d.c > 0 { ValPositive(d.c, d.k); }
  }

  /** A bare number gets spellings exactly when it is a decimal v with 0 < v <= 1, and each denotes 100·v percent. */
  lemma DecimalVariantsDenote(numeric: string)
    requires '$' !in numeric && '%' !in numeric
    ensures var d := ParseDec(WithoutCommas(numeric));
            && (NumericVariants(numeric) != [] <==> d.Some? && 0.0 < Val(d.value) <= 1.0)
            && forall x | x in NumericVariants(numeric) ::
                 IsPercent(x) && ParseDec(x[..|x| - 1]).Some?
                 && Val(ParseDec(x[..|x| - 1]).value) == 100.0 * Val(d.value)
  {
    hide ParseDec, WithoutCommas, FloatText, NatText, IsWhole, Val, Strip;
    PercentHasMark(numeric);
    var d := ParseDec(WithoutCommas(numeric));
    if d.Some? {
      AtMostOneVal(d.value);
      HundredVals(d.value);
      forall x | x in NumericVariants(numeric)
        ensures Denotes(x[..|x| - 1], HundredTimes(d.value)) && IsPercent(x)
      {
        PercentFormsDenote(HundredTimes(d.value), x);
      }
    }
  }

  /** A dollar amount is never respelled. */
  lemma DollarHasNoVariants(numeric: string)
    requires numeric != "" && numeric[0] == '$'
    ensures NumericVariants(numeric) == []
  {
    if IsPercent(numeric) {
      var bare := numeric[..|numeric| - 1];
      StripFirst(bare);
      CommasFirst(Strip(bare));
    } else {
      assert numeric[0] in numeric;
    }
  }

  lemma StripFirst(s: string)
    requires s == "" || s[0] == '$'
    ensures Strip(s) == "" || Strip(s)[0] == '$'
  {
    RStripShape(s);
  }

  lemma CommasFirst(s: string)
    requires s == "" || s[0] == '$'
    ensures ParseDec(WithoutCommas(s)) == None
  {
    assert WithoutCommas("") == "";
  }

  lemma PercentFormsCanonical(a: Dec, b: Dec)
    requires Val(a) == Val(b)
    ensures PercentForms(a) == PercentForms(b)
  {
    WholeCanonical(a, b);
    FloatTextCanonical(a, b);
  }

  lemma FloatTextIsBare(d: Dec)
    ensures var t := FloatText(d); !IsPercent(t) && '$' !in t && '%' !in t && ',' !in t
  {
    FloatTextChars(d);
    var t := FloatText(d);
    assert forall c | c in t :: IsNumeralChar(c);
  }

  /** For 0 < p <= 100 the decimal spelling of `p%` expands back to the canonical spellings of p percent. */
  lemma PercentRoundTrip(numeric: string, p: Dec)
    requires IsPercent(numeric) && PercentNumber(numeric) == Some(p) && 0.0 < Val(p) <= 100.0
    ensures FloatText(Hundredth(p)) in NumericVariants(numeric)
    ensures NumericVariants(FloatText(Hundredth(p))) == PercentForms(p)
  {
    var h := Hundredth(p);
    assert NumberForms(h)[0] == FloatText(h);
    FloatTextIsBare(h);
    FloatTextDenotes(h);
    HundredVals(p);
    var d := ParseDec(FloatText(h)).value;
    HundredVals(d);
    AtMostOneVal(d);
    PercentFormsCanonical(HundredTimes(d), p);
  }

  // ---- grounding ----------------------------------------------------------

  /** pat occurs at i; when anchored, with no digit on either side. */
  predicate Hit(pat: string, s: string, i: int, anchored: bool) {
    OccursAt(pat, s, i) && (anchored ==> !DigitAt(s, i - 1) && !DigitAt(s, i + |pat|))
  }

  predicate Found(pat: string, s: string, anchored: bool) {
    exists i | 0 <= i <= |s| :: Hit(pat, s, i, anchored)
  }

  /** The token itself occurs, or one of its spellings occurs with no adjacent digit. */
  predicate NumericGrounded(numeric: string, blob: string) {
    || Found(numeric, blob, false)
    || exists k | 0 <= k < |NumericVariants(numeric)| :: Found(NumericVariants(numeric)[k], blob, true)
  }

  // ---- entities -----------------------------------------------------------

  function DropStopwords(tokens: seq<string>, stopwords: set<string>): (r: seq<string>)
    ensures |r| <= |tokens| && r == tokens[|tokens| - |r|..]
    ensures r != [] ==> r[0] !in stopwords
    ensures forall k | 0 <= k < |tokens| - |r| :: tokens[k] in stopwords
  {
    if tokens != [] && tokens[0] in stopwords then DropStopwords(tokens[1..], stopwords) else tokens
  }

  function StrippedEntity(entity: string, stopwords: set<string>): string {
    Join(" ", DropStopwords(Words(entity), stopwords))
  }

  method StripLeadingStopwords(entity: string, stopwords: set<string>) returns (r: string)
    ensures r == StrippedEntity(entity, stopwords)
  {
    var tokens := Words(entity);
    while tokens != [] && tokens[0] in stopwords
      invariant DropStopwords(tokens, stopwords) == DropStopwords(Words(entity), stopwords)
      decreases |tokens|
    {
      tokens := tokens[1..];
    }
    r := Join(" ", tokens);
  }

  /** What is left is a tail of the entity's words that does not start with a stopword;
      it is empty exactly when every word is one. */
  lemma StrippedEntityWords(entity: string, stopwords: set<string>)
    ensures var rest := Words(StrippedEntity(entity, stopwords));
            && |rest| <= |Words(entity)| && rest == Words(entity)[|Words(entity)| - |rest|..]
            && (rest != [] ==> rest[0] !in stopwords)
            && (StrippedEntity(entity, stopwords) == ""
                <==> forall k | 0 <= k < |Words(entity)| :: Words(entity)[k] in stopwords)
  {
    var ws := Words(entity);
    var rest := DropStopwords(ws, stopwords);
    assert AreWords(rest);
    SplitOfJoin(rest);
    if rest != [] {
      assert ws[|ws| - |rest|] == rest[0];
    }
  }

  predicate EntityGrounded(entity: string, blob: string, similar: (string, string) -> bool) {
    Contains(blob, entity) || similar(entity, blob)
  }

  // ---- the check ----------------------------------------------------------

  datatype Issue = UngroundedNumeric(token: string) | UngroundedEntity(token: string)

  function NumericIssue(numeric: string, blob: string): seq<Issue> {
    if NumericGrounded(numeric, blob) then [] else [UngroundedNumeric(numeric)]
  }

  function EntityIssue(cleaned: string, blob: string, similar: (string, string) -> bool): seq<Issue> {
    if cleaned == "" || EntityGrounded(cleaned, blob, similar) then [] else [UngroundedEntity(cleaned)]
  }

  /** The issues of the first n tokens. */
  function NumericIssues(text: string, blob: string, ts: seq<Span>, n: nat): seq<Issue>
    requires n <= |ts| && forall k | 0 <= k < |ts| :: ts[k].lo <= ts[k].hi <= |text|
  {
    if n == 0 then []
    else NumericIssues(text, blob, ts, n - 1) + NumericIssue(Extract(text, ts[n - 1]), blob)
  }

  function EntityIssues(text: string, blob: string, ts: seq<Span>, stopwords: set<string>,
                        similar: (string, string) -> bool, n: nat): seq<Issue>
    requires n <= |ts| && forall k | 0 <= k < |ts| :: ts[k].lo <= ts[k].hi <= |text|
  {
    if n == 0 then []
    else EntityIssues(text, blob, ts, stopwords, similar, n - 1)
         + EntityIssue(StrippedEntity(Extract(text, ts[n - 1]), stopwords), blob, similar)
  }

  function Issues(text: string, blob: string, stopwords: set<string>, similar: (string, string) -> bool): seq<Issue> {
    var ns, es := Numerics(text), Entities(text);
    NumericIssues(text, blob, ns, |ns|) + EntityIssues(text, blob, es, stopwords, similar, |es|)
  }

  predicate Passes(text: string, blob: string, stopwords: set<string>, similar: (string, string) -> bool) {
    Issues(text, blob, stopwords, similar) == []
  }

  method Check(text: string, blob: string, stopwords: set<string>, similar: (string, string) -> bool)
    returns (passed: bool, issues: seq<Issue>)
    ensures issues == Issues(text, blob, stopwords, similar)
    ensures passed == Passes(text, blob, stopwords, similar)
  {
    hide Numerics;
    hide Entities;
    hide NumericGrounded;
    hide EntityGrounded;
    hide StrippedEntity;
    issues := [];
    var numerics := Numerics(text);
    for k := 0 to |numerics|
      invariant issues == NumericIssues(text, blob, numerics, k)
    {
      var numeric := Extract(text, numerics[k]);
      if !NumericGrounded(numeric, blob) {
        issues := issues + [UngroundedNumeric(numeric)];
      }
    }
    ghost var first := issues;
    var entities := Entities(text);
    for k := 0 to |entities|
      invariant issues == first + EntityIssues(text, blob, entities, stopwords, similar, k)
    {
      var cleaned := StripLeadingStopwords(Extract(text, entities[k]), stopwords);
      if cleaned != "" {
        if !EntityGrounded(cleaned, blob, similar) {
          issues := issues + [UngroundedEntity(cleaned)];
        }
      }
    }
    passed := |issues| == 0;
  }

  lemma {:induction false} NoNumericIssues(text: string, blob: string, ts: seq<Span>, n: nat)
    requires n <= |ts| && forall k | 0 <= k < |ts| :: ts[k].lo <= ts[k].hi <= |text|
    ensures NumericIssues(text, blob, ts, n) == []
        <==> forall k | 0 <= k < n :: NumericIssue(Extract(text, ts[k]), blob) == []
  {
    hide NumericIssue;
    if n > 0 {
      NoNumericIssues(text, blob, ts, n - 1);
    }
  }

  lemma {:induction false} NoEntityIssues(text: string, blob: string, ts: seq<Span>, stopwords: set<string>,
                                         similar: (string, string) -> bool, n: nat)
    requires n <= |ts| && forall k | 0 <= k < |ts| :: ts[k].lo <= ts[k].hi <= |text|
    ensures EntityIssues(text, blob, ts, stopwords, similar, n) == []
        <==> forall k | 0 <= k < n ::
               EntityIssue(StrippedEntity(Extract(text, ts[k]), stopwords), blob, similar) == []
  {
    hide EntityIssue;
    hide StrippedEntity;
    if n > 0 {
      NoEntityIssues(text, blob, ts, stopwords, similar, n - 1);
    }
  }

  /** The check passes exactly when every scanned numeric is grounded and every scanned entity, once its leading
      stopwords are gone, is empty, a slice of the evidence or found by the fuzzy score. */
  lemma PassesIff(text: string, blob: string, stopwords: set<string>, similar: (string, string) -> bool)
    ensures Passes(text, blob, stopwords, similar) <==>
              && (forall k | 0 <= k < |Numerics(text)| :: NumericGrounded(Extract(text, Numerics(text)[k]), blob))
              && (forall k | 0 <= k < |Entities(text)| ::
                    var e := StrippedEntity(Extract(text, Entities(text)[k]), stopwords);
                    e == "" || IsSlice(e, blob) || similar(e, blob))
  {
    hide Numerics, Entities, NumericGrounded, StrippedEntity, NumericIssues, EntityIssues, Extract, Contains, IsSlice;
    forall e ensures Contains(blob, e) <==> IsSlice(e, blob) { ContainsIsSlice(blob, e); }
    NoNumericIssues(text, blob, Numerics(text), |Numerics(text)|);
    NoEntityIssues(text, blob, Entities(text), stopwords, similar, |Entities(text)|);
  }

  /** When the check passes, every standalone number of the narrative lies in exactly one
      scanned token, and that token is grounded in the evidence. */
  lemma PassGroundsEveryNumber(text: string, blob: string, stopwords: set<string>,
                               similar: (string, string) -> bool, a: nat, b: nat) returns (k: nat)
    requires Passes(text, blob, stopwords, similar)
    requires MaximalRun(text, a, b) && Standalone(text, a, b)
    ensures k < |Numerics(text)| && Reaches(Numerics(text)[k], a, b)
    ensures forall j | 0 <= j < |Numerics(text)| && Reaches(Numerics(text)[j], a, b) :: j == k
    ensures NumericGrounded(Extract(text, Numerics(text)[k]), blob)
  {
    k := StandaloneRunsAreScanned(text, a, b);
    PassesIff(text, blob, stopwords, similar);
  }

  /** When the check passes, every capitalised word of the narrative lies in exactly one scanned entity, and that
      entity, once its leading stopwords are gone, is empty, a slice of the evidence or found by the fuzzy score. */
  lemma PassGroundsEveryEntity(text: string, blob: string, stopwords: set<string>,
                               similar: (string, string) -> bool, a: nat, b: nat) returns (k: nat)
    requires Passes(text, blob, stopwords, similar) && CapitalisedWord(text, a, b)
    ensures k < |Entities(text)| && Entities(text)[k].lo <= a && b <= Entities(text)[k].hi
    ensures forall j | 0 <= j < |Entities(text)| && j != k :: Entities(text)[j].hi <= a || b <= Entities(text)[j].lo
    ensures var e := StrippedEntity(Extract(text, Entities(text)[k]), stopwords);
            e == "" || IsSlice(e, blob) || similar(e, blob)
  {
    k := CapitalisedWordsAreScanned(text, a, b);
    hide Entities, CapitalisedWord, EntityGrounded, StrippedEntity, Passes;
    PassesIff(text, blob, stopwords, similar);
  }
}
