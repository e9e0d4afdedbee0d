/** The billing-rate tool on stored evidence: the JSON dictionary a DC-9.D check is stored
    with, and what the tool reads out of it. */
module RateTool {
  import opened Text
  import opened Decimals
  import opened Evidence
  import opened AttributeChecks
  import opened Amendments
  import S = Silver
  import SR = SilverReader
  import J = Json

  // ---- the stored dictionary ----------------------------------------------

  /** A float as `json.dumps` writes it and `json.loads` reads it. */
  function RateJson(x: Signed): J.Value { J.Float(x.negative, Trim(x.magnitude)) }

  /** `extracted_value`; `other` stands for the dictionaries that no later layer looks into. */
  function Encode(v: Extracted, other: J.Value): J.Value {
    match v
    case Nothing => J.Null
    case Rates(prior, current) =>
      J.Obj([J.Field("current_rate", RateJson(current)), J.Field("prior_rate", RateJson(prior)),
             J.Field("rate_change", J.Bool(false))])
    case RatesAndAmendment(prior, current, amendment) =>
      J.Obj([J.Field("amendment", J.Str(amendment)), J.Field("current_rate", RateJson(current)),
             J.Field("prior_rate", RateJson(prior))])
    case Other => other
  }

  lemma RateJsonWellFormed(x: Signed)
    ensures J.WellFormed(RateJson(x))
  {
    TrimUnique(Trim(x.magnitude), x.magnitude) by { TrimVal(x.magnitude); }
  }

  lemma KeyOrder()
    ensures J.Less("amendment", "current_rate") && J.Less("amendment", "prior_rate")
    ensures J.Less("current_rate", "prior_rate")
    ensures J.Less("current_rate", "rate_change") && J.Less("prior_rate", "rate_change")
  {
    assert "amendment"[0] == 'a' && "current_rate"[0] == 'c' && "prior_rate"[0] == 'p' && "rate_change"[0] == 'r';
  }

  /** The dictionary is one that survives JSON. */
  lemma EncodedIsWellFormed(v: Extracted, other: J.Value)
    requires J.WellFormed(other)
    ensures J.WellFormed(Encode(v, other))
  {
    KeyOrder();
    match v
    case Rates(prior, current) => RateJsonWellFormed(prior); RateJsonWellFormed(current);
    case RatesAndAmendment(prior, current, _) => RateJsonWellFormed(prior); RateJsonWellFormed(current);
    case _ =>
  }

  // ---- what the tool reads ------------------------------------------------

  lemma FieldIsSmaller(fs: seq<J.Field>, key: string)
    ensures S.FieldOf(fs, key).Some? ==> exists i :: 0 <= i < |fs| && fs[i].value == S.FieldOf(fs, key).value
  {
    if fs != [] && fs[0].key != key && S.FieldOf(fs, key).Some? {
      FieldIsSmaller(fs[1..], key);
      if i :| 0 <= i < |fs[1..]| && fs[1..][i].value == S.FieldOf(fs, key).value { assert fs[i + 1] == fs[1..][i]; }
    }
  }

  /** `_coerce_rate`: numbers, numeric strings, and dictionaries by their current rate. */
  function CoerceJson(v: J.Value): Option<real>
    decreases v
  {
    match v
    case Null => None
    case Bool(b) => Some(if b then 1.0 else 0.0)
    case Int(i) => Some(i as real)
    case Float(negative, magnitude) => Some(SignedVal(Signed(negative, magnitude)))
    case Str(s) => ParseFloat(Strip(s))
    case Arr(_) => None
    case Obj(fs) =>
      FieldIsSmaller(fs, "current_rate");
      match S.FieldOf(fs, "current_rate") case None => None case Some(x) => CoerceJson(x)
  }

  /** `_embedded_prior_rate`. */
  function EmbeddedPriorJson(v: J.Value): Option<real> {
    match v
    case Obj(fs) => (match S.FieldOf(fs, "prior_rate") case None => None case Some(x) => CoerceJson(x))
    case _ => None
  }

  /** `_resolve_amendment`. */
  function ResolveStored(check: S.AttributeCheck): Option<string> {
    if check.extracted.Obj? && S.FieldOf(check.extracted.fields, "amendment").Some? then
      var candidate := S.FieldOf(check.extracted.fields, "amendment").value;
      if candidate.Str? && IsRealAmendment(candidate.s) then Some(candidate.s) else None
    else
      var scanned := DetectAmendmentInNotes(check.notes);
      if scanned.Some? && IsRealAmendment(scanned.value) then scanned else None
  }

  /** `_resolve_evidence_for_quarter`, for the two records of the investigation. */
  function EvidenceFor(current: Option<S.Record>, prior: Option<S.Record>, q: Quarter): Option<S.Record> {
    if current.Some? && current.value.triple.quarter == q then current
    else if prior.Some? && prior.value.triple.quarter == q then prior
    else None
  }

  /** The DC-9.D check of a record, if there is a record and it has one. */
  function RateCheckOf(r: Option<S.Record>): Option<S.AttributeCheck> {
    if r.None? then None else SR.CheckFor(r.value.attributes, D)
  }

  datatype Comparison = Comparison(current: Option<real>, prior: Option<real>, delta: Option<real>,
                                   percentChange: Option<real>, amendment: Option<string>)

  /** `compare_billing_rates`. */
  function CompareStored(current: Option<S.Record>, prior: Option<S.Record>, q: Quarter, p: Quarter): Comparison {
    var currentCheck := RateCheckOf(EvidenceFor(current, prior, q));
    var priorCheck := RateCheckOf(EvidenceFor(current, prior, p));
    var rate := if currentCheck.Some? then CoerceJson(currentCheck.value.extracted) else None;
    var own := if priorCheck.Some? then CoerceJson(priorCheck.value.extracted) else None;
    var before := if own.None? && currentCheck.Some? then EmbeddedPriorJson(currentCheck.value.extracted) else own;
    var delta := if rate.Some? && before.Some? then Some(rate.value - before.value) else None;
    var pct := if delta.Some? && before.value > 0.0 then Some(delta.value / before.value) else None;
    Comparison(rate, before, delta, pct, if currentCheck.Some? then ResolveStored(currentCheck.value) else None)
  }

  // ---- what the answer is -------------------------------------------------

  /** Numbers count as themselves, truth values as 1 and 0, and a numeral in a text like the number it spells. */
  lemma CoercesNumbers(i: int, negative: bool, d: Dec)
    ensures CoerceJson(J.Int(i)) == CoerceJson(J.Str(IntText(i))) == Some(i as real)
    ensures CoerceJson(J.Bool(true)) == Some(1.0) && CoerceJson(J.Bool(false)) == Some(0.0)
    ensures CoerceJson(J.Float(negative, d)) == Some(if negative then -Val(d) else Val(d))
    ensures CoerceJson(J.Null) == None
  {
    hide ParseFloat, Strip;
    IntTextChars(i);
    StripTrimmed(IntText(i));
    IntRoundTrip(i);
  }

  /** A dictionary counts as its current rate, and without one as nothing. */
  lemma CoercesDictionaries(fs: seq<J.Field>, k: nat)
    requires k < |fs| && fs[k].key == "current_rate" && forall j | 0 <= j < k :: fs[j].key != "current_rate"
    ensures CoerceJson(J.Obj(fs)) == CoerceJson(fs[k].value)
    ensures CoerceJson(J.Obj(fs[..k])) == None
  {
    FirstField(fs, "current_rate", k);
  }

  lemma {:induction false} FirstField(fs: seq<J.Field>, key: string, k: nat)
    requires k <= |fs| && forall j | 0 <= j < k :: fs[j].key != key
    ensures k < |fs| && fs[k].key == key ==> S.FieldOf(fs, key) == Some(fs[k].value)
    ensures S.FieldOf(fs[..k], key) == None
  {
    if k > 0 {
      FirstField(fs[1..], key, k - 1);
      assert fs[..k][1..] == fs[1..][..k - 1];
    }
  }

  /** Of the two records of the investigation, r is the one of quarter q, the current one first. */
  ghost predicate IsRecordOf(current: Option<S.Record>, prior: Option<S.Record>, q: Quarter, r: Option<S.Record>) {
    && (r.Some? ==> r.value.triple.quarter == q && (r == current || r == prior))
    && (r.None? ==> !(current.Some? && current.value.triple.quarter == q)
                    && !(prior.Some? && prior.value.triple.quarter == q))
    && (current.Some? && current.value.triple.quarter == q ==> r == current)
  }

  /** What the comparison answers, from the two records it is about, whatever they hold: the current rate is that of the
      asked quarter's check, the prior rate that of the other quarter's check or else the one the asked quarter's check
      embeds, the change is their difference, absolute and in parts of a positive prior rate, and the amendment is the
      asked quarter's. */
  lemma ComparisonIs(current: Option<S.Record>, prior: Option<S.Record>, q: Quarter, p: Quarter,
                     here: Option<S.Record>, there: Option<S.Record>)
    requires IsRecordOf(current, prior, q, here) && IsRecordOf(current, prior, p, there)
    ensures var x := CompareStored(current, prior, q, p);
            var c, o := RateCheckOf(here), RateCheckOf(there);
            && (c.None? ==> x.current == None && x.amendment == None)
            && (c.Some? ==> x.current == CoerceJson(c.value.extracted) && x.amendment == ResolveStored(c.value))
            && (o.Some? && CoerceJson(o.value.extracted).Some? ==> x.prior == CoerceJson(o.value.extracted))
            && ((o.None? || CoerceJson(o.value.extracted).None?) && c.Some? ==>
                  x.prior == EmbeddedPriorJson(c.value.extracted))
            && ((o.None? || CoerceJson(o.value.extracted).None?) && c.None? ==> x.prior == None)
            && (x.delta.Some? <==> x.current.Some? && x.prior.Some?)
            && (x.delta.Some? ==> x.prior.value + x.delta.value == x.current.value)
            && (x.percentChange.Some? <==> x.delta.Some? && x.prior.value > 0.0)
            && (x.percentChange.Some? ==> x.prior.value * (1.0 + x.percentChange.value) == x.current.value)
  {
    hide CoerceJson, EmbeddedPriorJson, ResolveStored, RateCheckOf, EvidenceFor, CompareStored, IsRecordOf;
    PicksRecord(current, prior, q, here);
    PicksRecord(current, prior, p, there);
    ComparedRates(current, prior, q, p);
    ComparedChange(current, prior, q, p);
    var x := CompareStored(current, prior, q, p);
    if x.percentChange.Some? { Rescaled(x.delta.value, x.prior.value); }
  }

  lemma PicksRecord(current: Option<S.Record>, prior: Option<S.Record>, q: Quarter, r: Option<S.Record>)
    requires IsRecordOf(current, prior, q, r)
    ensures r == EvidenceFor(current, prior, q)
  {
  }

  lemma ComparedRates(current: Option<S.Record>, prior: Option<S.Record>, q: Quarter, p: Quarter)
    ensures var x := CompareStored(current, prior, q, p);
            var c, o := RateCheckOf(EvidenceFor(current, prior, q)), RateCheckOf(EvidenceFor(current, prior, p));
            && x.current == (if c.Some? then CoerceJson(c.value.extracted) else None)
            && x.amendment == (if c.Some? then ResolveStored(c.value) else None)
            && (o.Some? && CoerceJson(o.value.extracted).Some? ==> x.prior == CoerceJson(o.value.extracted))
            && (o.None? || CoerceJson(o.value.extracted).None? ==>
                  x.prior == if c.Some? then EmbeddedPriorJson(c.value.extracted) else None)
  {
    hide CoerceJson, EmbeddedPriorJson, ResolveStored, RateCheckOf, EvidenceFor;
  }

  lemma ComparedChange(current: Option<S.Record>, prior: Option<S.Record>, q: Quarter, p: Quarter)
    ensures var x := CompareStored(current, prior, q, p);
            && (x.delta.Some? <==> x.current.Some? && x.prior.Some?)
            && (x.delta.Some? ==> x.prior.value + x.delta.value == x.current.value)
            && x.percentChange
               == if x.delta.Some? && x.prior.value > 0.0 then Some(x.delta.value / x.prior.value) else None
  {
    hide CoerceJson, EmbeddedPriorJson, ResolveStored, RateCheckOf, EvidenceFor;
  }

  lemma Rescaled(delta: real, prior: real)
    requires prior > 0.0
    ensures prior * (1.0 + delta / prior) == prior + delta
  {
    var q := delta / prior;
    assert prior * q == delta;
  }

  lemma NoRecordNoCheck()
    ensures RateCheckOf(None) == None
  {
  }

  // ---- nothing is lost ----------------------------------------------------

  lemma RateReadsBack(x: Signed)
    ensures CoerceJson(RateJson(x)) == Some(SignedVal(x))
  {
    TrimVal(x.magnitude);
  }

  lemma FieldsOfDictionary(a: J.Field, b: J.Field, c: J.Field, key: string)
    ensures S.FieldOf([a, b, c], key)
         == if a.key == key then Some(a.value) else if b.key == key then Some(b.value)
            else if c.key == key then Some(c.value) else None
  {
    assert [a, b, c][1..] == [b, c] && [b, c][1..] == [c] && [c][1..] == [];
    assert S.FieldOf([c], key) == if c.key == key then Some(c.value) else None;
    assert S.FieldOf([b, c], key) == if b.key == key then Some(b.value) else S.FieldOf([c], key);
  }

  /** The stored check gives the tool exactly the rates and the amendment that Layer 1 put in. */
  lemma StoredCheckReads(check: Check, stored: S.AttributeCheck, other: J.Value)
    requires !check.value.Other? && stored.extracted == Encode(check.value, other) && stored.notes == check.notes
    ensures CoerceJson(stored.extracted) == CoerceRate(check.value)
    ensures EmbeddedPriorJson(stored.extracted) == EmbeddedPriorRate(check.value)
    ensures ResolveStored(stored) == ResolveAmendment(check)
  {
    hide IsRealAmendment, DetectAmendmentInNotes, Strip, ParseFloat, SignedVal, RateJson;
    var a, c, p, r := "amendment", "current_rate", "prior_rate", "rate_change";
    assert a[0] == 'a' && c[0] == 'c' && p[0] == 'p' && r[0] == 'r';
    match check.value
    case Nothing =>
    case Rates(prior, current) =>
      var x, y, z := J.Field(c, RateJson(current)), J.Field(p, RateJson(prior)), J.Field(r, J.Bool(false));
      FieldsOfDictionary(x, y, z, a);
      FieldsOfDictionary(x, y, z, c);
      FieldsOfDictionary(x, y, z, p);
      RateReadsBack(current);
      RateReadsBack(prior);
    case RatesAndAmendment(prior, current, amendment) =>
      var x, y, z := J.Field(a, J.Str(amendment)), J.Field(c, RateJson(current)), J.Field(p, RateJson(prior));
      FieldsOfDictionary(x, y, z, a);
      FieldsOfDictionary(x, y, z, c);
      FieldsOfDictionary(x, y, z, p);
      RateReadsBack(current);
      RateReadsBack(prior);
  }

  /** The rate check never stores one of the other dictionaries. */
  lemma RateCheckIsNotOther(priorRaw: string, currentRaw: Option<string>, amendment: string)
    ensures !RateChangeCheck(priorRaw, currentRaw, amendment).value.Other?
  {
  }
}
