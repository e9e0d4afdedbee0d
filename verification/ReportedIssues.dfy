/** What the fact check reports, said in slices of the evidence: exactly the scanned
    numerics and entities that the evidence does not contain. */
module ReportedIssues {
  import opened Text
  import opened Regex
  import opened NumericScanner
  import opened EntityScanner
  import opened FactChecker

  /** The evidence has pat as a slice that no digit touches. */
  ghost predicate IsLoneSlice(pat: string, s: string) {
    exists lo, hi | 0 <= lo <= hi <= |s| ::
      s[lo..hi] == pat && (lo > 0 ==> !IsDigit(s[lo - 1])) && (hi < |s| ==> !IsDigit(s[hi]))
  }

  lemma FoundIsSlice(pat: string, s: string)
    ensures Found(pat, s, false) <==> IsSlice(pat, s)
  {
    if Found(pat, s, false) {
      var i :| 0 <= i <= |s| && Hit(pat, s, i, false);
      assert s[i..i + |pat|] == pat;
    }
    if lo, hi :| 0 <= lo <= hi <= |s| && s[lo..hi] == pat {
      assert hi == lo + |pat|;
      assert Hit(pat, s, lo, false);
    }
  }

  lemma FoundIsLoneSlice(pat: string, s: string)
    ensures Found(pat, s, true) <==> IsLoneSlice(pat, s)
  {
    if Found(pat, s, true) {
      var i :| 0 <= i <= |s| && Hit(pat, s, i, true);
      assert s[i..i + |pat|] == pat;
    }
    if lo, hi :| 0 <= lo <= hi <= |s| && s[lo..hi] == pat
                 && (lo > 0 ==> !IsDigit(s[lo - 1])) && (hi < |s| ==> !IsDigit(s[hi])) {
      assert hi == lo + |pat|;
      assert Hit(pat, s, lo, true);
    }
  }

  lemma {:induction false} NumericIssuesHold(text: string, blob: string, ts: seq<Span>, n: nat, x: Issue)
    requires n <= |ts| && forall k | 0 <= k < |ts| :: ts[k].lo <= ts[k].hi <= |text|
    ensures x in NumericIssues(text, blob, ts, n) <==>
              x.UngroundedNumeric? && !NumericGrounded(x.token, blob)
              && exists k | 0 <= k < n :: Extract(text, ts[k]) == x.token
  {
    hide NumericGrounded, Extract;
    if n > 0 { NumericIssuesHold(text, blob, ts, n - 1, x); }
  }

  lemma {:induction false} EntityIssuesHold(text: string, blob: string, ts: seq<Span>, stopwords: set<string>,
                                           similar: (string, string) -> bool, n: nat, x: Issue)
    requires n <= |ts| && forall k | 0 <= k < |ts| :: ts[k].lo <= ts[k].hi <= |text|
    ensures x in EntityIssues(text, blob, ts, stopwords, similar, n) <==>
              && x.UngroundedEntity? && x.token != "" && !EntityGrounded(x.token, blob, similar)
              && exists k | 0 <= k < n :: StrippedEntity(Extract(text, ts[k]), stopwords) == x.token
  {
    hide EntityGrounded, StrippedEntity, Extract;
    if n > 0 { EntityIssuesHold(text, blob, ts, stopwords, similar, n - 1, x); }
  }

  /** A numeric is reported if and only if it is a scanned token, it is no slice of the evidence, and none of its
      spellings is a slice of the evidence that no digit touches. */
  lemma NumericReportedIff(text: string, blob: string, stopwords: set<string>, similar: (string, string) -> bool,
                           t: string)
    ensures UngroundedNumeric(t) in Issues(text, blob, stopwords, similar) <==>
              && (exists k | 0 <= k < |Numerics(text)| :: text[Numerics(text)[k].lo..Numerics(text)[k].hi] == t)
              && !IsSlice(t, blob)
              && forall x | x in NumericVariants(t) :: !IsLoneSlice(x, blob)
  {
    hide Numerics, Entities, NumericVariants, IsSlice, IsLoneSlice, Found, EntityGrounded, StrippedEntity;
    var ns, es := Numerics(text), Entities(text);
    NumericIssuesHold(text, blob, ns, |ns|, UngroundedNumeric(t));
    EntityIssuesHold(text, blob, es, stopwords, similar, |es|, UngroundedNumeric(t));
    FoundIsSlice(t, blob);
    forall x ensures Found(x, blob, true) <==> IsLoneSlice(x, blob) { FoundIsLoneSlice(x, blob); }
    hide NumericIssues, EntityIssues;
    assert forall k | 0 <= k < |ns| :: Extract(text, ns[k]) == text[ns[k].lo..ns[k].hi];
  }

  /** An entity is reported if and only if it is the non-empty text a scanned entity leaves once its leading stopwords
      are gone, it is no slice of the evidence, and the fuzzy score does not find it either. */
  lemma EntityReportedIff(text: string, blob: string, stopwords: set<string>, similar: (string, string) -> bool,
                          e: string)
    ensures UngroundedEntity(e) in Issues(text, blob, stopwords, similar) <==>
              && e != ""
              && (exists k | 0 <= k < |Entities(text)| ::
                    StrippedEntity(text[Entities(text)[k].lo..Entities(text)[k].hi], stopwords) == e)
              && !IsSlice(e, blob) && !similar(e, blob)
  {
    hide Numerics, Entities, IsSlice, NumericGrounded, StrippedEntity;
    var ns, es := Numerics(text), Entities(text);
    NumericIssuesHold(text, blob, ns, |ns|, UngroundedEntity(e));
    EntityIssuesHold(text, blob, es, stopwords, similar, |es|, UngroundedEntity(e));
    ContainsIsSlice(blob, e);
    hide NumericIssues, EntityIssues, Contains;
    assert forall k | 0 <= k < |es| :: Extract(text, es[k]) == text[es[k].lo..es[k].hi];
  }

  /** Numerics are reported before entities. */
  lemma NumericsFirst(text: string, blob: string, stopwords: set<string>, similar: (string, string) -> bool,
                      i: nat, j: nat)
    requires i < j < |Issues(text, blob, stopwords, similar)|
    requires Issues(text, blob, stopwords, similar)[i].UngroundedEntity?
    ensures Issues(text, blob, stopwords, similar)[j].UngroundedEntity?
  {
    hide Numerics, Entities, NumericGrounded, EntityGrounded, StrippedEntity, NumericIssues, EntityIssues;
    var ns, es := Numerics(text), Entities(text);
    var a, b := NumericIssues(text, blob, ns, |ns|), EntityIssues(text, blob, es, stopwords, similar, |es|);
    var xs := a + b;
    assert xs == Issues(text, blob, stopwords, similar);
    NumericIssuesHold(text, blob, ns, |ns|, xs[i]);
    EntityIssuesHold(text, blob, es, stopwords, similar, |es|, xs[j]);
    assert forall k | 0 <= k < |a| :: xs[k] in a;
    assert forall k | |a| <= k < |xs| :: xs[k] in b;
  }

  /** Without a fuzzy match, a text passes if and only if all its numerics are grounded and every entity is, once its
      leading stopwords are gone, empty or a slice of the evidence. */
  lemma PassesWithoutFuzzyIff(text: string, blob: string, stopwords: set<string>)
    ensures Passes(text, blob, stopwords, (e, b) => false) <==>
              && (forall k | 0 <= k < |Numerics(text)| ::
                    var t := text[Numerics(text)[k].lo..Numerics(text)[k].hi];
                    IsSlice(t, blob) || exists x | x in NumericVariants(t) :: IsLoneSlice(x, blob))
              && (forall k | 0 <= k < |Entities(text)| ::
                    var e := StrippedEntity(text[Entities(text)[k].lo..Entities(text)[k].hi], stopwords);
                    e == "" || IsSlice(e, blob))
  {
    hide Numerics, Entities, NumericVariants, IsSlice, IsLoneSlice, Issues, StrippedEntity;
    var xs := Issues(text, blob, stopwords, (e, b) => false);
    forall t ensures UngroundedNumeric(t) in xs <==>
                       && (exists k | 0 <= k < |Numerics(text)| ::
                             text[Numerics(text)[k].lo..Numerics(text)[k].hi] == t)
                       && !IsSlice(t, blob) && forall x | x in NumericVariants(t) :: !IsLoneSlice(x, blob)
    {
      NumericReportedIff(text, blob, stopwords, (e, b) => false, t);
    }
    forall e ensures UngroundedEntity(e) in xs <==>
                       && e != ""
                       && (exists k | 0 <= k < |Entities(text)| ::
                             StrippedEntity(text[Entities(text)[k].lo..Entities(text)[k].hi], stopwords) == e)
                       && !IsSlice(e, blob)
    {
      EntityReportedIff(text, blob, stopwords, (e, b) => false, e);
    }
    if xs != [] {
      var x := xs[0];
      assert x in xs && (x == UngroundedNumeric(x.token) || x == UngroundedEntity(x.token));
    }
  }
}
