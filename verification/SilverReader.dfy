/** Reading the silver table back: what `read` returns after any sequence of writes. */
module SilverReader {
  import opened Decimals
  import opened Evidence
  import opened Keys
  import opened Silver
  import J = Json

  datatype ReadResult = Read(record: Record) | NoRows | MissingEnvelope | MalformedNarrative | RejectedByModel

  /** Rows of a triple in `ORDER BY attribute_id`, for an attribute column holding A to F. */
  function RowsWith(rows: seq<Row>, k: Key): seq<Row> {
    if rows == [] then [] else (if rows[0].key == k then [rows[0]] else []) + RowsWith(rows[1..], k)
  }

  function Ordered(rows: seq<Row>, t: Triple, attributes: seq<Attribute>): seq<Row> {
    if attributes == [] then []
    else RowsWith(rows, KeyOf(t, attributes[0])) + Ordered(rows, t, attributes[1..])
  }

  function Select(rows: seq<Row>, t: Triple): seq<Row> { Ordered(rows, t, ALL_ATTRIBUTES) }

  function ParseRows(rows: seq<Row>): Option<seq<AttributeCheck>> {
    if rows == [] then Some([])
    else
      match ParseNarrative(rows[0].key.control, rows[0].key.attribute, rows[0].narrative)
      case None => None
      case Some(c) => match ParseRows(rows[1..]) case None => None case Some(cs) => Some([c] + cs)
  }

  /** `SilverEvidenceReader.read`: the envelope comes from the first row. */
  function ReadTriple(rows: seq<Row>, t: Triple): ReadResult {
    var selected := Select(rows, t);
    if selected == [] then NoRows
    else if selected[0].envelope.None? then MissingEnvelope
    else
      match ParseRows(selected)
      case None => MalformedNarrative
      case Some(checks) =>
        var first := selected[0];
        var e := first.envelope.value;
        var r := Record(t, e.runId, first.ingestedAt, e.preparer, e.reviewer, checks, first.fileHash, first.sourcePath);
        if Valid(r) then Read(r) else RejectedByModel
  }

  // ---- the table ----------------------------------------------------------

  class SilverTable {
    var rows: seq<Row>

    constructor (rows: seq<Row>)
      ensures this.rows == rows
    {
      this.rows := rows;
    }

    /** One atomic MERGE of the exploded record. */
    method WriteEvidence(r: Record)
      requires Valid(r)
      modifies this
      ensures rows == Merge(old(rows), Explode(r))
    {
      rows := Merge(rows, Explode(r));
    }

    method ReadEvidence(t: Triple) returns (result: ReadResult)
      ensures result == ReadTriple(rows, t)
    {
      result := ReadTriple(rows, t);
    }
  }

  /** Keys are unique and no row carries an attribute its control does not define. Rows without an envelope
      may be present. */
  predicate TableOk(rows: seq<Row>) { UniqueKeys(rows) && AllDefined(rows) }

  predicate AllDefined(rows: seq<Row>) { forall i | 0 <= i < |rows| :: OfItsControl(rows[i].key) }

  predicate OfItsControl(k: Key) { k.attribute in AttributesOf(k.control) }

  // ---- one write ----------------------------------------------------------

  function CheckFor(cs: seq<AttributeCheck>, a: Attribute): Option<AttributeCheck> {
    if cs == [] then None else if cs[0].attribute == a then Some(cs[0]) else CheckFor(cs[1..], a)
  }

  /** The record's checks in attribute order. */
  function SortedChecks(cs: seq<AttributeCheck>, attributes: seq<Attribute>): seq<AttributeCheck> {
    if attributes == [] then []
    else (match CheckFor(cs, attributes[0]) case None => [] case Some(c) => [c]) + SortedChecks(cs, attributes[1..])
  }

  /** The record as it is read back: the same record with its attributes sorted by id. */
  function SortedRecord(r: Record): Record { r.(attributes := SortedChecks(r.attributes, ALL_ATTRIBUTES)) }

  lemma ValidIds(r: Record, i: nat, j: nat)
    requires Valid(r) && i < j < |r.attributes|
    ensures r.attributes[i].attribute != r.attributes[j].attribute
  {
    var ids := AttributeIds(r.attributes);
    var expected := AttributesOf(r.triple.control);
    assert multiset(expected)[ids[i]] <= 1 by { AtMostOnce(r.triple.control, ids[i]); }
    if ids[i] == ids[j] {
      TwiceIsTwo(ids, i, j);
    }
  }

  lemma AtMostOnce(c: Control, a: Attribute)
    ensures multiset(AttributesOf(c))[a] <= 1
    ensures a in AttributesOf(c) <==> multiset(AttributesOf(c))[a] == 1
  {
  }

  lemma TwiceIsTwo(s: seq<Attribute>, i: nat, j: nat)
    requires i < j < |s| && s[i] == s[j]
    ensures multiset(s)[s[i]] >= 2
  {
    assert s == s[..j] + s[j..];
    assert s[i] in s[..j] && s[j] in s[j..];
    assert multiset(s) == multiset(s[..j]) + multiset(s[j..]);
  }

  /** The validator forces exactly one check for each of the control's attributes and none for any other. */
  lemma ValidCoverage(r: Record, a: Attribute)
    requires Valid(r)
    ensures multiset(AttributeIds(r.attributes))[a] == if a in AttributesOf(r.triple.control) then 1 else 0
    ensures a in AttributesOf(r.triple.control) <==> CheckFor(r.attributes, a).Some?
    ensures CheckFor(r.attributes, a).Some? ==>
              CheckFor(r.attributes, a).value in r.attributes && CheckFor(r.attributes, a).value.attribute == a
  {
    AtMostOnce(r.triple.control, a);
    hide AttributesOf, CheckFor;
    CheckForMember(r.attributes, a);
    var ids := AttributeIds(r.attributes);
    assert a in AttributesOf(r.triple.control) <==> a in multiset(AttributesOf(r.triple.control));
    assert a in AttributesOf(r.triple.control) <==> a in multiset(ids);
    hide Valid;
    if a in multiset(ids) {
      var i :| 0 <= i < |ids| && ids[i] == a;
      assert r.attributes[i].attribute == a;
    }
    if i :| 0 <= i < |r.attributes| && r.attributes[i].attribute == a {
      assert ids[i] == a;
    }
  }

  lemma {:induction false} CheckForMember(cs: seq<AttributeCheck>, a: Attribute)
    ensures CheckFor(cs, a).Some? <==> exists i | 0 <= i < |cs| :: cs[i].attribute == a
    ensures CheckFor(cs, a).Some? ==> CheckFor(cs, a).value in cs && CheckFor(cs, a).value.attribute == a
  {
    if cs != [] {
      CheckForMember(cs[1..], a);
      if i :| 0 <= i < |cs| && cs[i].attribute == a { assert i > 0 ==> cs[1..][i - 1].attribute == a; }
    }
  }

  lemma ExplodedKeys(r: Record)
    requires Valid(r)
    ensures UniqueKeys(Explode(r))
    ensures AllDefined(Explode(r))
  {
    var rows := Explode(r);
    forall i, j | 0 <= i < j < |rows| ensures rows[i].key != rows[j].key {
      ValidIds(r, i, j);
    }
    forall i | 0 <= i < |rows| ensures OfItsControl(rows[i].key) {
      CheckForMember(r.attributes, r.attributes[i].attribute);
      ValidCoverage(r, r.attributes[i].attribute);
    }
  }

  lemma {:induction false} FindExploded(r: Record, cs: seq<AttributeCheck>, rows: seq<Row>, k: Key)
    requires |rows| == |cs| && forall i | 0 <= i < |rows| :: rows[i] == RowOf(r, cs[i])
    ensures Find(rows, k)
         == if k == KeyOf(r.triple, k.attribute) && CheckFor(cs, k.attribute).Some?
            then Some(RowOf(r, CheckFor(cs, k.attribute).value)) else None
  {
    hide Narrative;
    if rows != [] { FindExploded(r, cs[1..], rows[1..], k); }
  }

  lemma MergeKeepsDefined(rows: seq<Row>, src: seq<Row>)
    requires AllDefined(rows) && AllDefined(src)
    ensures AllDefined(Merge(rows, src))
  {
    UpdatedShape(rows, src);
    InsertedShape(rows, src);
    hide OfItsControl, UniqueKeys, Updated, Inserted, Find;
    var m := Merge(rows, src);
    forall i | 0 <= i < |m| ensures OfItsControl(m[i].key) {
      if i < |rows| {
        assert m[i] == Updated(rows, src)[i];
      } else {
        assert m[i] == Inserted(rows, src)[i - |rows|];
        assert m[i] in Inserted(rows, src);
      }
    }
  }

  /** Writing keeps the table well formed. */
  lemma WriteKeepsTableOk(rows: seq<Row>, r: Record)
    requires TableOk(rows) && Valid(r)
    ensures TableOk(Merge(rows, Explode(r)))
  {
    hide Merge, Explode, UniqueKeys, AllDefined, Valid;
    ExplodedKeys(r);
    MergeKeepsKeysUnique(rows, Explode(r));
    MergeKeepsDefined(rows, Explode(r));
  }

  // ---- reading ------------------------------------------------------------

  lemma {:induction false} NoRowsWith(rows: seq<Row>, k: Key)
    requires Find(rows, k).None?
    ensures RowsWith(rows, k) == []
  {
    if rows != [] { NoRowsWith(rows[1..], k); }
  }

  lemma {:induction false} OneRowWith(rows: seq<Row>, k: Key)
    requires UniqueKeys(rows)
    ensures RowsWith(rows, k) == match Find(rows, k) case None => [] case Some(x) => [x]
  {
    if rows != [] {
      if rows[0].key == k {
        FindKey(rows[1..], k);
        assert forall i | 0 <= i < |rows[1..]| :: rows[1..][i] == rows[i + 1];
        NoRowsWith(rows[1..], k);
      } else {
        OneRowWith(rows[1..], k);
      }
    }
  }

  /** Two tables with the same row under every key of a triple select the same rows. */
  lemma {:induction false} SameSelection(a: seq<Row>, b: seq<Row>, t: Triple, attributes: seq<Attribute>)
    requires UniqueKeys(a) && UniqueKeys(b)
    requires forall x: Attribute :: Find(a, KeyOf(t, x)) == Find(b, KeyOf(t, x))
    ensures Ordered(a, t, attributes) == Ordered(b, t, attributes)
  {
    hide RowsWith;
    if attributes != [] {
      OneRowWith(a, KeyOf(t, attributes[0]));
      OneRowWith(b, KeyOf(t, attributes[0]));
      SameSelection(a, b, t, attributes[1..]);
    }
  }

  function RowsOf(r: Record, cs: seq<AttributeCheck>): (rows: seq<Row>)
    ensures |rows| == |cs| && forall i | 0 <= i < |cs| :: rows[i] == RowOf(r, cs[i])
  {
    seq(|cs|, i requires 0 <= i < |cs| => RowOf(r, cs[i]))
  }

  /** After a write, one attribute selects the record's row for it, or nothing when the control has none. */
  lemma AttributeAfterWrite(rows: seq<Row>, r: Record, a: Attribute)
    requires TableOk(rows) && Valid(r)
    ensures RowsWith(Merge(rows, Explode(r)), KeyOf(r.triple, a))
         == match CheckFor(r.attributes, a) case None => [] case Some(c) => [RowOf(r, c)]
  {
    hide RowsWith;
    hide Merge;
    hide Narrative;
    hide CheckFor;
    var k := KeyOf(r.triple, a);
    WriteKeepsTableOk(rows, r);
    OneRowWith(Merge(rows, Explode(r)), k);
    FindMerged(rows, Explode(r), k);
    FindExploded(r, r.attributes, Explode(r), k);
    ValidCoverage(r, a);
    if a !in AttributesOf(r.triple.control) { StrayAbsent(rows, k); }
  }

  lemma RowsOfConcat(r: Record, a: seq<AttributeCheck>, b: seq<AttributeCheck>)
    ensures RowsOf(r, a + b) == RowsOf(r, a) + RowsOf(r, b)
  {
  }

  /** After a write, the triple selects exactly the record's rows in attribute order. */
  lemma {:induction false} SelectAfterWrite(rows: seq<Row>, r: Record, attributes: seq<Attribute>)
    requires TableOk(rows) && Valid(r)
    ensures Ordered(Merge(rows, Explode(r)), r.triple, attributes) == RowsOf(r, SortedChecks(r.attributes, attributes))
  {
    hide RowOf;
    hide RowsWith;
    hide Merge;
    hide CheckFor;
    hide TableOk;
    hide Valid;
    if attributes != [] {
      AttributeAfterWrite(rows, r, attributes[0]);
      SelectAfterWrite(rows, r, attributes[1..]);
      var head := match CheckFor(r.attributes, attributes[0]) case None => [] case Some(c) => [c];
      RowsOfConcat(r, head, SortedChecks(r.attributes, attributes[1..]));
    }
  }

  lemma StrayAbsent(rows: seq<Row>, k: Key)
    requires TableOk(rows) && k.attribute !in AttributesOf(k.control)
    ensures Find(rows, k).None?
  {
    FindKey(rows, k);
  }

  lemma {:induction false} ParseRowsOf(r: Record, cs: seq<AttributeCheck>)
    requires forall i | 0 <= i < |cs| :: cs[i].control == r.triple.control && J.WellFormed(cs[i].extracted)
    ensures ParseRows(RowsOf(r, cs)) == Some(cs)
  {
    hide ParseNarrative;
    hide Narrative;
    hide J.WellFormed;
    if cs != [] {
      NarrativeRoundTrip(cs[0]);
      assert RowsOf(r, cs)[1..] == RowsOf(r, cs[1..]);
      ParseRowsOf(r, cs[1..]);
      assert cs == [cs[0]] + cs[1..];
    }
  }

  lemma {:induction false} SortedMembers(cs: seq<AttributeCheck>, attributes: seq<Attribute>)
    ensures forall c | c in SortedChecks(cs, attributes) :: c in cs
  {
    if attributes != [] {
      CheckForMember(cs, attributes[0]);
      SortedMembers(cs, attributes[1..]);
    }
  }

  /** Sorting puts exactly the control's attributes in order. */
  lemma SortedIds(r: Record)
    requires Valid(r)
    ensures AttributeIds(SortedChecks(r.attributes, ALL_ATTRIBUTES)) == AttributesOf(r.triple.control)
  {
    hide CheckFor;
    forall a ensures a in AttributesOf(r.triple.control) <==> CheckFor(r.attributes, a).Some? { ValidCoverage(r, a); }
    forall a ensures CheckFor(r.attributes, a).Some? ==> CheckFor(r.attributes, a).value.attribute == a {
      ValidCoverage(r, a);
    }
    IdsOfSorted(r.attributes, ALL_ATTRIBUTES, r.triple.control);
    FilteredAttributes(r.triple.control);
  }

  function Defined(attributes: seq<Attribute>, c: Control): seq<Attribute> {
    if attributes == [] then []
    else (if attributes[0] in AttributesOf(c) then [attributes[0]] else []) + Defined(attributes[1..], c)
  }

  lemma FilteredAttributes(c: Control)
    ensures Defined(ALL_ATTRIBUTES, c) == AttributesOf(c)
  {
    assert Defined([F], c) == if c == DC9 then [F] else [];
    assert Defined([E, F], c) == if c == DC9 then [E, F] else [];
    assert Defined([D, E, F], c) == if c == DC9 then [D, E, F] else [D];
    assert Defined([C, D, E, F], c) == if c == DC9 then [C, D, E, F] else [C, D];
    assert Defined([B, C, D, E, F], c) == if c == DC9 then [B, C, D, E, F] else [B, C, D];
  }

  lemma IdsConcat(a: seq<AttributeCheck>, b: seq<AttributeCheck>)
    ensures AttributeIds(a + b) == AttributeIds(a) + AttributeIds(b)
  {
  }

  lemma {:induction false} IdsOfSorted(cs: seq<AttributeCheck>, attributes: seq<Attribute>, c: Control)
    requires forall a :: a in AttributesOf(c) <==> CheckFor(cs, a).Some?
    requires forall a :: CheckFor(cs, a).Some? ==> CheckFor(cs, a).value.attribute == a
    ensures AttributeIds(SortedChecks(cs, attributes)) == Defined(attributes, c)
  {
    hide CheckFor;
    if attributes != [] {
      IdsOfSorted(cs, attributes[1..], c);
      var head := match CheckFor(cs, attributes[0]) case None => [] case Some(x) => [x];
      IdsConcat(head, SortedChecks(cs, attributes[1..]));
    }
  }

  /** Reading a triple right after writing it gives the record with its attributes sorted by id, whatever the
      table held before, rows without an envelope included. */
  lemma ReadAfterWrite(rows: seq<Row>, r: Record)
    requires TableOk(rows) && Valid(r) && Representable(r)
    ensures ReadTriple(Merge(rows, Explode(r)), r.triple) == Read(SortedRecord(r))
    ensures Select(Merge(rows, Explode(r)), r.triple) == RowsOf(r, SortedRecord(r).attributes)
    ensures |Select(Merge(rows, Explode(r)), r.triple)| == |AttributesOf(r.triple.control)|
  {
    hide Merge;
    hide Ordered;
    hide ParseRows;
    hide SortedChecks;
    hide J.WellFormed;
    hide AllDefined, Explode, UniqueKeys, Narrative;
    var cs := SortedChecks(r.attributes, ALL_ATTRIBUTES);
    SelectAfterWrite(rows, r, ALL_ATTRIBUTES);
    SortedMembers(r.attributes, ALL_ATTRIBUTES);
    forall i | 0 <= i < |cs| ensures cs[i].control == r.triple.control && J.WellFormed(cs[i].extracted) {
      assert cs[i] in r.attributes;
    }
    ParseRowsOf(r, cs);
    SortedIds(r);
    assert |cs| == |AttributeIds(cs)|;
  }

  lemma OtherKeysUntouched(rows: seq<Row>, r: Record, k: Key)
    requires k != KeyOf(r.triple, k.attribute)
    ensures Find(Merge(rows, Explode(r)), k) == Find(rows, k)
  {
    hide Merge;
    hide Narrative;
    FindMerged(rows, Explode(r), k);
    FindExploded(r, r.attributes, Explode(r), k);
  }

  /** Writing one triple leaves every other triple as it reads. */
  lemma OtherTriplesUntouched(rows: seq<Row>, r: Record, t: Triple)
    requires TableOk(rows) && Valid(r) && t != r.triple
    ensures Select(Merge(rows, Explode(r)), t) == Select(rows, t)
    ensures ReadTriple(Merge(rows, Explode(r)), t) == ReadTriple(rows, t)
  {
    hide Merge;
    hide Ordered;
    hide Find;
    hide Explode;
    hide ParseRows;
    hide Valid;
    WriteKeepsTableOk(rows, r);
    forall x: Attribute ensures Find(Merge(rows, Explode(r)), KeyOf(t, x)) == Find(rows, KeyOf(t, x)) {
      OtherKeysUntouched(rows, r, KeyOf(t, x));
    }
    SameSelection(Merge(rows, Explode(r)), rows, t, ALL_ATTRIBUTES);
  }

  /** Writing the same record twice is writing it once. */
  lemma RewriteIsIdempotent(rows: seq<Row>, r: Record)
    requires Valid(r)
    ensures Merge(Merge(rows, Explode(r)), Explode(r)) == Merge(rows, Explode(r))
  {
    hide Merge;
    ExplodedKeys(r);
    MergeIsIdempotent(rows, Explode(r));
  }

  // ---- any sequence of writes ---------------------------------------------

  function TableAfter(rows: seq<Row>, history: seq<Record>): seq<Row> {
    if history == [] then rows
    else Merge(TableAfter(rows, history[..|history| - 1]), Explode(history[|history| - 1]))
  }

  /** The last record written for a triple. */
  function LastWrite(history: seq<Record>, t: Triple): Option<Record> {
    if history == [] then None
    else
      var last := history[|history| - 1];
      if last.triple == t then Some(last) else LastWrite(history[..|history| - 1], t)
  }

  lemma {:induction false} TableStaysOk(rows: seq<Row>, history: seq<Record>)
    requires TableOk(rows) && forall i | 0 <= i < |history| :: Valid(history[i])
    ensures TableOk(TableAfter(rows, history))
  {
    hide Valid;
    hide TableOk;
    hide Merge;
    if history != [] {
      TableStaysOk(rows, history[..|history| - 1]);
      WriteKeepsTableOk(TableAfter(rows, history[..|history| - 1]), history[|history| - 1]);
    }
  }

  /** After any sequence of writes, a triple reads as the last record written for it, with its attributes
      sorted and exactly 4 or 6 rows that all carry that record's envelope, or as it did before any write. */
  lemma {:induction false} ReadsLastWrite(rows: seq<Row>, history: seq<Record>, t: Triple)
    requires TableOk(rows) && forall i | 0 <= i < |history| :: Valid(history[i]) && Representable(history[i])
    ensures var after, last := TableAfter(rows, history), LastWrite(history, t);
            && ReadTriple(after, t) == (if last.Some? then Read(SortedRecord(last.value)) else ReadTriple(rows, t))
            && (last.None? ==> Select(after, t) == Select(rows, t))
            && (last.Some? ==>
                  && |Select(after, t)| == |AttributesOf(t.control)|
                  && forall i | 0 <= i < |Select(after, t)| ::
                       Select(after, t)[i].envelope
                       == Some(Envelope(last.value.runId, last.value.preparer, last.value.reviewer)))
  {
    hide Valid;
    hide Representable;
    hide TableOk;
    hide Merge;
    hide Select;
    hide ReadTriple;
    hide Narrative;
    hide SortedRecord;
    if history != [] {
      var before, last := history[..|history| - 1], history[|history| - 1];
      var mid := TableAfter(rows, before);
      TableStaysOk(rows, before);
      if last.triple == t {
        ReadAfterWrite(mid, last);
      } else {
        ReadsLastWrite(rows, before, t);
        OtherTriplesUntouched(mid, last, t);
      }
    }
  }
}
