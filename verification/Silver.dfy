/** The silver evidence table: one keyed row per attribute, merged by the Layer-1
    writer and folded back into a record by the Layer-2 reader. */
module Silver {
  import opened Decimals
  import opened Evidence
  import opened Keys
  import J = Json

  type Timestamp = int

  datatype Role = Preparer | Reviewer

  datatype SignOff = SignOff(initials: string, role: Role, date: Timestamp)

  datatype AttributeCheck = AttributeCheck(control: Control, attribute: Attribute, status: CheckStatus,
                                           cellRefs: seq<string>, extracted: J.Value, notes: Option<string>)

  datatype Triple = Triple(engagement: string, control: Control, quarter: Quarter)

  /** `ExtractedEvidence`. */
  datatype Record = Record(triple: Triple, runId: string, extractedAt: Timestamp, preparer: SignOff, reviewer: SignOff,
                           attributes: seq<AttributeCheck>, fileHash: string, sourcePath: string)

  function AttributeIds(cs: seq<AttributeCheck>): (ids: seq<Attribute>)
    ensures |ids| == |cs| && forall i | 0 <= i < |cs| :: ids[i] == cs[i].attribute
  {
    seq(|cs|, i requires 0 <= i < |cs| => cs[i].attribute)
  }

  /** The model's field constraints and `attributes_match_control`: exactly the control's attributes, each once. */
  predicate Valid(r: Record) {
    && r.triple.engagement != "" && r.runId != "" && r.fileHash != ""
    && 2 <= |r.preparer.initials| <= 4 && 2 <= |r.reviewer.initials| <= 4
    && (forall i | 0 <= i < |r.attributes| :: r.attributes[i].control == r.triple.control)
    && multiset(AttributeIds(r.attributes)) == multiset(AttributesOf(r.triple.control))
  }

  /** Every extracted value is one JSON can represent. */
  predicate Representable(r: Record) {
    forall i | 0 <= i < |r.attributes| :: J.WellFormed(r.attributes[i].extracted)
  }

  // ---- the narrative column -----------------------------------------------

  function StatusText(s: CheckStatus): string {
    match s case Passed => "pass" case Failed => "fail" case NotApplicable => "n/a"
  }

  function ParseStatus(s: string): Option<CheckStatus> {
    if s == "pass" then Some(Passed) else if s == "fail" then Some(Failed) else if s == "n/a" then Some(NotApplicable)
    else None
  }

  function StringList(ss: seq<string>): (vs: seq<J.Value>)
    ensures |vs| == |ss| && forall i | 0 <= i < |ss| :: vs[i] == J.Str(ss[i])
  {
    seq(|ss|, i requires 0 <= i < |ss| => J.Str(ss[i]))
  }

  function NotesValue(n: Option<string>): J.Value { match n case None => J.Null case Some(s) => J.Str(s) }

  /** The four serialised fields, in key order. */
  function NarrativeValue(c: AttributeCheck): J.Value {
    J.Obj([J.Field("evidence_cell_refs", J.Arr(StringList(c.cellRefs))), J.Field("extracted_value", c.extracted),
           J.Field("notes", NotesValue(c.notes)), J.Field("status", J.Str(StatusText(c.status)))])
  }

  function Narrative(c: AttributeCheck): string { J.Dumps(NarrativeValue(c)) }

  function FieldOf(fs: seq<J.Field>, key: string): Option<J.Value> {
    if fs == [] then None else if fs[0].key == key then Some(fs[0].value) else FieldOf(fs[1..], key)
  }

  /** A list of strings; anything else is rejected by the model. */
  function ParseStrings(vs: seq<J.Value>): Option<seq<string>> {
    if vs == [] then Some([])
    else if !vs[0].Str? then None
    else match ParseStrings(vs[1..]) case None => None case Some(ss) => Some([vs[0].s] + ss)
  }

  /** `_row_to_attribute_check`: `status` is required, the other fields have defaults. */
  function ParseNarrative(control: Control, attribute: Attribute, text: string): Option<AttributeCheck> {
    match J.Loads(text)
    case Some(Obj(fs)) =>
      var refs := FieldOf(fs, "evidence_cell_refs");
      var value := FieldOf(fs, "extracted_value");
      var notes := FieldOf(fs, "notes");
      var status := FieldOf(fs, "status");
      if status.None? || !status.value.Str? || ParseStatus(status.value.s).None? then None
      else if notes.Some? && !notes.value.Null? && !notes.value.Str? then None
      else if refs.Some? && !refs.value.Arr? then None
      else
        (match ParseStrings(if refs.Some? then refs.value.items else [])
         case None => None
         case Some(ss) =>
           Some(AttributeCheck(control, attribute, ParseStatus(status.value.s).value, ss,
                               if value.Some? then value.value else J.Null,
                               if notes.Some? && notes.value.Str? then Some(notes.value.s) else None)))
    case _ => None
  }

  lemma {:induction false} StringsRoundTrip(ss: seq<string>)
    ensures ParseStrings(StringList(ss)) == Some(ss)
  {
    if ss != [] {
      StringsRoundTrip(ss[1..]);
      assert StringList(ss)[1..] == StringList(ss[1..]);
      assert ss == [ss[0]] + ss[1..];
    }
  }

  lemma KeysAreSorted(c: AttributeCheck)
    ensures J.SortedFields(NarrativeValue(c).fields)
  {
    var a, b, n, s := "evidence_cell_refs", "extracted_value", "notes", "status";
    assert a[1..][0] == 'v' && b[1..][0] == 'x';
    assert J.Less(a[1..], b[1..]);
    assert J.Less(a, b) && J.Less(a, n) && J.Less(a, s) && J.Less(b, n) && J.Less(b, s) && J.Less(n, s);
  }

  lemma NarrativeIsWellFormed(c: AttributeCheck)
    requires J.WellFormed(c.extracted)
    ensures J.WellFormed(NarrativeValue(c))
  {
    hide J.Less;
    KeysAreSorted(c);
    var fs := NarrativeValue(c).fields;
    assert J.WellFormed(fs[0].value) && J.WellFormed(fs[1].value);
    assert J.WellFormed(fs[2].value) && J.WellFormed(fs[3].value);
  }

  lemma FieldsFound(c: AttributeCheck)
    ensures var fs := NarrativeValue(c).fields;
            && FieldOf(fs, "evidence_cell_refs") == Some(fs[0].value)
            && FieldOf(fs, "extracted_value") == Some(fs[1].value)
            && FieldOf(fs, "notes") == Some(fs[2].value)
            && FieldOf(fs, "status") == Some(fs[3].value)
  {
    var fs := NarrativeValue(c).fields;
    var a, b, n, s := "evidence_cell_refs", "extracted_value", "notes", "status";
    assert a[0] == 'e' && b[0] == 'e' && n[0] == 'n' && s[0] == 's' && |a| != |b|;
    assert fs[1..] == [fs[1], fs[2], fs[3]] && fs[1..][1..] == [fs[2], fs[3]] && fs[1..][1..][1..] == [fs[3]];
    assert FieldOf([fs[3]], s) == Some(fs[3].value);
    assert FieldOf([fs[2], fs[3]], s) == Some(fs[3].value) && FieldOf([fs[2], fs[3]], n) == Some(fs[2].value);
    assert FieldOf(fs[1..], s) == Some(fs[3].value) && FieldOf(fs[1..], n) == Some(fs[2].value);
  }

  /** The column gives the attribute check back. */
  lemma NarrativeRoundTrip(c: AttributeCheck)
    requires J.WellFormed(c.extracted)
    ensures ParseNarrative(c.control, c.attribute, Narrative(c)) == Some(c)
  {
    hide J.Dumps;
    hide J.Loads;
    hide J.WellFormed;
    hide FieldOf;
    hide ParseStrings;
    NarrativeIsWellFormed(c);
    J.LoadsDumps(NarrativeValue(c));
    FieldsFound(c);
    StringsRoundTrip(c.cellRefs);
    StatusRoundTrip(c.status);
  }

  lemma StatusRoundTrip(s: CheckStatus)
    ensures ParseStatus(StatusText(s)) == Some(s)
  {
    assert StatusText(Passed)[0] == 'p' && StatusText(Failed)[0] == 'f' && StatusText(NotApplicable)[0] == 'n';
  }

  // ---- rows ---------------------------------------------------------------

  datatype Envelope = Envelope(runId: string, preparer: SignOff, reviewer: SignOff)

  /** `envelope` is None on rows written before the envelope columns existed. */
  datatype Row = Row(key: Key, sourcePath: string, fileHash: string, narrative: string, ingestedAt: Timestamp,
                     envelope: Option<Envelope>)

  function KeyOf(t: Triple, a: Attribute): Key { Key(t.engagement, t.control, a, t.quarter) }

  function RowOf(r: Record, c: AttributeCheck): Row {
    Row(KeyOf(r.triple, c.attribute), r.sourcePath, r.fileHash, Narrative(c), r.extractedAt,
        Some(Envelope(r.runId, r.preparer, r.reviewer)))
  }

  /** `_explode_to_silver_rows`. */
  function Explode(r: Record): (rows: seq<Row>)
    ensures |rows| == |r.attributes| && forall i | 0 <= i < |rows| :: rows[i] == RowOf(r, r.attributes[i])
  {
    seq(|r.attributes|, i requires 0 <= i < |r.attributes| => RowOf(r, r.attributes[i]))
  }

  function Find(rows: seq<Row>, k: Key): Option<Row> {
    if rows == [] then None else if rows[0].key == k then Some(rows[0]) else Find(rows[1..], k)
  }

  predicate UniqueKeys(rows: seq<Row>) { forall i, j | 0 <= i < j < |rows| :: rows[i].key != rows[j].key }

  // ---- MERGE --------------------------------------------------------------

  /** WHEN MATCHED THEN UPDATE SET *. */
  function Updated(rows: seq<Row>, src: seq<Row>): seq<Row> {
    if rows == [] then []
    else [match Find(src, rows[0].key) case Some(s) => s case None => rows[0]] + Updated(rows[1..], src)
  }

  /** WHEN NOT MATCHED THEN INSERT *. */
  function Inserted(rows: seq<Row>, src: seq<Row>): seq<Row> {
    if src == [] then []
    else (if Find(rows, src[0].key).None? then [src[0]] else []) + Inserted(rows, src[1..])
  }

  function Merge(rows: seq<Row>, src: seq<Row>): seq<Row> { Updated(rows, src) + Inserted(rows, src) }

  lemma {:induction false} FindKey(rows: seq<Row>, k: Key)
    ensures Find(rows, k).Some? ==> Find(rows, k).value.key == k && Find(rows, k).value in rows
    ensures Find(rows, k).Some? <==> exists i | 0 <= i < |rows| :: rows[i].key == k
  {
    if rows != [] {
      FindKey(rows[1..], k);
      if i :| 0 <= i < |rows| && rows[i].key == k { assert i > 0 ==> rows[1..][i - 1].key == k; }
    }
  }

  lemma {:induction false} FindUnique(rows: seq<Row>, i: nat)
    requires UniqueKeys(rows) && i < |rows|
    ensures Find(rows, rows[i].key) == Some(rows[i])
  {
    if i > 0 { FindUnique(rows[1..], i - 1); }
  }

  lemma {:induction false} FindInConcat(a: seq<Row>, b: seq<Row>, k: Key)
    ensures Find(a + b, k) == if Find(a, k).Some? then Find(a, k) else Find(b, k)
  {
    if a == [] {
      assert a + b == b;
    } else {
      assert (a + b)[1..] == a[1..] + b;
      FindInConcat(a[1..], b, k);
    }
  }

  lemma {:induction false} FindUpdated(rows: seq<Row>, src: seq<Row>, k: Key)
    ensures Find(Updated(rows, src), k)
         == if Find(rows, k).None? then None else if Find(src, k).Some? then Find(src, k) else Find(rows, k)
  {
    if rows != [] {
      FindKey(src, rows[0].key);
      FindUpdated(rows[1..], src, k);
    }
  }

  lemma {:induction false} FindInserted(rows: seq<Row>, src: seq<Row>, k: Key)
    ensures Find(Inserted(rows, src), k) == if Find(rows, k).None? then Find(src, k) else None
  {
    if src != [] {
      FindInserted(rows, src[1..], k);
      FindInConcat(if Find(rows, src[0].key).None? then [src[0]] else [], Inserted(rows, src[1..]), k);
    }
  }

  /** A key reads as the source row when there is one and as before otherwise. */
  lemma FindMerged(rows: seq<Row>, src: seq<Row>, k: Key)
    ensures Find(Merge(rows, src), k) == if Find(src, k).Some? then Find(src, k) else Find(rows, k)
  {
    FindUpdated(rows, src, k);
    FindInserted(rows, src, k);
    FindInConcat(Updated(rows, src), Inserted(rows, src), k);
  }

  lemma {:induction false} UpdatedShape(rows: seq<Row>, src: seq<Row>)
    ensures |Updated(rows, src)| == |rows|
    ensures forall i | 0 <= i < |rows| :: Updated(rows, src)[i].key == rows[i].key
  {
    if rows != [] {
      FindKey(src, rows[0].key);
      UpdatedShape(rows[1..], src);
      assert forall i | 0 < i < |rows| :: rows[i] == rows[1..][i - 1];
    }
  }

  lemma {:induction false} InsertedShape(rows: seq<Row>, src: seq<Row>)
    ensures forall x | x in Inserted(rows, src) :: x in src && Find(rows, x.key).None?
    ensures UniqueKeys(src) ==> UniqueKeys(Inserted(rows, src))
  {
    if src != [] {
      InsertedShape(rows, src[1..]);
      var rest := Inserted(rows, src[1..]);
      if UniqueKeys(src) && Find(rows, src[0].key).None? {
        forall j | 0 <= j < |rest| ensures rest[j].key != src[0].key {
          assert rest[j] in src[1..];
        }
      }
    }
  }

  /** Merging distinct source rows keeps the key unique. */
  lemma MergeKeepsKeysUnique(rows: seq<Row>, src: seq<Row>)
    requires UniqueKeys(rows) && UniqueKeys(src)
    ensures UniqueKeys(Merge(rows, src))
  {
    UpdatedShape(rows, src);
    InsertedShape(rows, src);
    var u, n := Updated(rows, src), Inserted(rows, src);
    forall i, j | 0 <= i < |u| && 0 <= j < |n| ensures u[i].key != n[j].key {
      assert n[j] in n;
      FindKey(rows, n[j].key);
    }
  }

  /** Merging the same rows again changes nothing, row order included. */
  lemma MergeIsIdempotent(rows: seq<Row>, src: seq<Row>)
    requires UniqueKeys(src)
    ensures Merge(Merge(rows, src), src) == Merge(rows, src)
  {
    var m := Merge(rows, src);
    forall i | 0 <= i < |src| ensures Find(m, src[i].key).Some? {
      FindUnique(src, i);
      FindMerged(rows, src, src[i].key);
    }
    NothingToInsert(m, src);
    forall i | 0 <= i < |m| ensures Find(src, m[i].key) in {None, Some(m[i])} {
      MergedRowIsCurrent(rows, src, i);
    }
    NothingToUpdate(m, src);
  }

  lemma {:induction false} NothingToInsert(m: seq<Row>, src: seq<Row>)
    requires forall i | 0 <= i < |src| :: Find(m, src[i].key).Some?
    ensures Inserted(m, src) == []
  {
    if src != [] {
      assert forall i | 0 <= i < |src[1..]| :: src[1..][i] == src[i + 1];
      NothingToInsert(m, src[1..]);
    }
  }

  lemma {:induction false} NothingToUpdate(m: seq<Row>, src: seq<Row>)
    requires forall i | 0 <= i < |m| :: Find(src, m[i].key) in {None, Some(m[i])}
    ensures Updated(m, src) == m
  {
    if m != [] {
      assert forall i | 0 <= i < |m[1..]| :: m[1..][i] == m[i + 1];
      NothingToUpdate(m[1..], src);
    }
  }

  lemma {:induction false} UpdatedAt(rows: seq<Row>, src: seq<Row>, i: nat)
    requires i < |rows|
    ensures |Updated(rows, src)| == |rows|
    ensures Updated(rows, src)[i] == match Find(src, rows[i].key) case Some(s) => s case None => rows[i]
  {
    UpdatedShape(rows, src);
    if i > 0 { UpdatedAt(rows[1..], src, i - 1); }
  }

  lemma MergedRowIsCurrent(rows: seq<Row>, src: seq<Row>, i: nat)
    requires UniqueKeys(src) && i < |Merge(rows, src)|
    ensures Find(src, Merge(rows, src)[i].key) in {None, Some(Merge(rows, src)[i])}
  {
    var u, n := Updated(rows, src), Inserted(rows, src);
    UpdatedShape(rows, src);
    if i < |rows| {
      UpdatedAt(rows, src, i);
      FindKey(src, rows[i].key);
      assert Merge(rows, src)[i] == u[i];
    } else {
      InsertedShape(rows, src);
      var x := n[i - |u|];
      assert Merge(rows, src)[i] == x && x in n;
      var j :| 0 <= j < |src| && src[j] == x;
      FindUnique(src, j);
    }
  }
}
