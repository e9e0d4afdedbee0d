/** The Layer-2 sweep, which generates, checks and merges one narrative per
    narratable combination, and the re-check of the narratives it left behind. */
module Layer2Sweep {
  import opened Decimals
  import opened Evidence
  import opened Keys
  import opened Silver
  import opened EvidenceCache
  import opened GoldNarratives
  import FC = FactChecker
  import L2 = Layer2Generator
  import SR = SilverReader
  import opened Llm

  // ---- the combinations ---------------------------------------------------

  datatype Combination = Combination(triple: Triple, attribute: Attribute)

  const QUARTERS := [Q1, Q2, Q3, Q4]

  /** `NARRATABLE_ATTRIBUTES_PER_CONTROL`: the rest is reserved for Layer 3. */
  function Narratable(c: Control): seq<Attribute> {
    match c case DC2 => [A, C, D] case DC9 => [A, B, C, E, F]
  }

  function PerQuarter(engagement: string, c: Control, q: Quarter, attributes: seq<Attribute>): seq<Combination> {
    if attributes == [] then []
    else [Combination(Triple(engagement, c, q), attributes[0])] + PerQuarter(engagement, c, q, attributes[1..])
  }

  function PerControl(engagement: string, c: Control, quarters: seq<Quarter>, attributes: seq<Attribute>)
    : seq<Combination>
  {
    if quarters == [] then []
    else PerQuarter(engagement, c, quarters[0], attributes) + PerControl(engagement, c, quarters[1..], attributes)
  }

  /** `iter_narratable_combinations`. */
  function Combinations(engagement: string): seq<Combination> {
    PerControl(engagement, DC2, QUARTERS, Narratable(DC2)) + PerControl(engagement, DC9, QUARTERS, Narratable(DC9))
  }

  lemma DistinctConcat<T>(a: seq<T>, b: seq<T>)
    requires Distinct(a) && Distinct(b) && forall x :: !(x in a && x in b)
    ensures Distinct(a + b)
  {
    forall i, j | 0 <= i < j < |a + b| ensures (a + b)[i] != (a + b)[j] {
      if i < |a| <= j { assert a[i] in a && b[j - |a|] in b; }
    }
  }

  lemma {:induction false} PerQuarterExact(engagement: string, c: Control, q: Quarter, attributes: seq<Attribute>)
    requires Distinct(attributes)
    ensures var cs := PerQuarter(engagement, c, q, attributes);
            && |cs| == |attributes| && Distinct(cs)
            && forall x :: x in cs <==> x.triple == Triple(engagement, c, q) && x.attribute in attributes
  {
    if attributes != [] {
      PerQuarterExact(engagement, c, q, attributes[1..]);
      assert attributes == [attributes[0]] + attributes[1..];
      DistinctConcat([Combination(Triple(engagement, c, q), attributes[0])],
                     PerQuarter(engagement, c, q, attributes[1..]));
    }
  }

  predicate Of(x: Combination, engagement: string, c: Control, quarters: seq<Quarter>, attributes: seq<Attribute>) {
    && x.triple.engagement == engagement && x.triple.control == c
    && x.triple.quarter in quarters && x.attribute in attributes
  }

  lemma {:induction false} PerControlExact(engagement: string, c: Control, quarters: seq<Quarter>,
                                           attributes: seq<Attribute>)
    requires Distinct(quarters) && Distinct(attributes)
    ensures var cs := PerControl(engagement, c, quarters, attributes);
            && |cs| == |quarters| * |attributes| && Distinct(cs)
            && forall x :: x in cs <==> Of(x, engagement, c, quarters, attributes)
  {
    if quarters != [] {
      PerQuarterExact(engagement, c, quarters[0], attributes);
      PerControlExact(engagement, c, quarters[1..], attributes);
      assert quarters == [quarters[0]] + quarters[1..];
      DistinctConcat(PerQuarter(engagement, c, quarters[0], attributes),
                     PerControl(engagement, c, quarters[1..], attributes));
      Product(|quarters|, |attributes|);
    }
  }

  lemma Product(q: nat, a: nat)
    requires q > 0
    ensures a + (q - 1) * a == q * a
  {
  }

  lemma EveryQuarter(q: Quarter)
    ensures q in QUARTERS
  {
    match q
    case Q1 => assert QUARTERS[0] == q;
    case Q2 => assert QUARTERS[1] == q;
    case Q3 => assert QUARTERS[2] == q;
    case Q4 => assert QUARTERS[3] == q;
  }

  /** Every narratable attribute of every quarter of both controls, each once: 32 in all. */
  lemma CombinationsExact(engagement: string)
    ensures var cs := Combinations(engagement);
            && |cs| == 32 && Distinct(cs)
            && forall x :: x in cs <==> x.triple.engagement == engagement && x.attribute in Narratable(x.triple.control)
  {
    PerControlExact(engagement, DC2, QUARTERS, Narratable(DC2));
    PerControlExact(engagement, DC9, QUARTERS, Narratable(DC9));
    hide PerControl;
    DistinctConcat(PerControl(engagement, DC2, QUARTERS, Narratable(DC2)),
                   PerControl(engagement, DC9, QUARTERS, Narratable(DC9)));
    forall q: Quarter ensures q in QUARTERS { EveryQuarter(q); }
  }

  // ---- one combination ----------------------------------------------------

  /** What surrounds the loop: the model's replies, the call id and the success of the write, row by row. */
  datatype Setting = Setting(replies: nat -> nat -> Reply<L2.Payload>, callId: nat -> string,
                             write: (nat, GoldNarrative) -> bool,
                             checker: Checker, promptVersion: string, runId: string)

  function SourceId(t: Triple, a: Attribute): string {
    JoinedKey(Key(t.engagement, t.control, a, t.quarter), '|')
  }

  /** `generate`: rejects reserved attributes, then runs the word-limit retry; unchecked narratives count as failed. */
  function Generated(s: Setting, i: nat, a: Attribute, e: Record): Option<GoldNarrative> {
    if a !in Narratable(e.triple.control) || SR.CheckFor(e.attributes, a).None? then None
    else
      match L2.WordLimitRun(s.replies(i), 0).outcome
      case Done(r) =>
        if e.triple.engagement == "" || s.promptVersion == "" || s.runId == "" then None
        else Some(GoldNarrative(GoldKey(e.triple, a, s.promptVersion), r, SourceId(e.triple, a), s.runId,
                                Some(s.callId(i)), false, []))
      case _ => None
  }

  /** A generated narrative, field by field: it exists if and only if the attribute is narratable and was extracted, the
      model's answer goes through and no name is empty; it carries that answer under the scope of the evidence, the
      run's and the call's ids, and no verdict yet. */
  lemma GeneratedIs(s: Setting, i: nat, a: Attribute, e: Record)
    ensures var g, o := Generated(s, i, a, e), L2.WordLimitRun(s.replies(i), 0).outcome;
            && (g.Some? <==>
                  && a in Narratable(e.triple.control)
                  && (exists k | 0 <= k < |e.attributes| :: e.attributes[k].attribute == a)
                  && o.Done? && e.triple.engagement != "" && s.promptVersion != "" && s.runId != "")
            && (g.Some? ==>
                  && g.value.response == o.value && !g.value.passed && g.value.issues == []
                  && g.value.key.triple == e.triple && g.value.key.attribute == a
                  && g.value.key.promptVersion == s.promptVersion
                  && g.value.generationRunId == s.runId && g.value.callId == Some(s.callId(i)))
  {
    hide L2.WordLimitRun, Narratable, SourceId;
    FindsTheCheck(e.attributes, a);
  }

  lemma {:induction false} FindsTheCheck(cs: seq<AttributeCheck>, a: Attribute)
    ensures SR.CheckFor(cs, a).Some? <==> exists k | 0 <= k < |cs| :: cs[k].attribute == a
  {
    if cs != [] {
      FindsTheCheck(cs[1..], a);
      if k :| 0 <= k < |cs| && cs[k].attribute == a { assert k > 0 ==> cs[1..][k - 1] == cs[k]; }
      if k :| 0 <= k < |cs[1..]| && cs[1..][k].attribute == a { assert cs[k + 1] == cs[1..][k]; }
    }
  }

  /** The source id names the evidence by engagement, control, attribute and quarter, in this order. */
  lemma SourceIdText(engagement: string)
    ensures SourceId(Triple(engagement, DC9, Q2), E) == engagement + "|DC-9|E|Q2"
    ensures SourceId(Triple(engagement, DC2, Q4), A) == engagement + "|DC-2|A|Q4"
  {
  }

  /** The narratable attributes, and that they are exactly the ones no investigation is opened for. */
  lemma NarratableIs(c: Control, a: Attribute)
    ensures a in Narratable(c) <==> a in AttributesOf(c) && !(c == DC2 && a == B) && !(c == DC9 && a == D)
  {
  }

  /** Everything after the evidence is at hand; None when any step raises. */
  function SweepRow(s: Setting, i: nat, x: Combination, e: Record): Option<GoldNarrative> {
    match Generated(s, i, x.attribute, e)
    case None => None
    case Some(n) =>
      var checked := Verdict(n, e, s.checker);
      if s.write(i, checked) then Some(checked) else None
  }

  method GenerateOne(s: Setting, i: nat, x: Combination, e: Record, table: GoldTable) returns (n: Option<GoldNarrative>)
    modifies table
    ensures n == SweepRow(s, i, x, e)
    ensures table.rows == if n.Some? then old(table.rows)[n.value.key := n.value] else old(table.rows)
  {
    hide FC.Issues;
    if x.attribute !in Narratable(e.triple.control) || SR.CheckFor(e.attributes, x.attribute).None? { return None; }
    var client := new Client(s.replies(i));
    var response := L2.CallWithWordLimit(client);
    var narrative := Generated(s, i, x.attribute, e);
    if narrative.None? { return None; }
    var passed, issues := FC.Check(response.value.text, s.checker.blob(e), s.checker.stopwords, s.checker.similar);
    var checked := narrative.value.(passed := passed, issues := issues);
    if !s.write(i, checked) { return None; }
    table.WriteNarrative(checked);
    n := Some(checked);
  }

  // ---- the sweep ----------------------------------------------------------

  function SweepOf(s: Setting, xs: seq<Combination>, read: Script): Swept<GoldNarrative> {
    Sweep(xs, (x: Combination) => x.triple, read, (i, x, e) => SweepRow(s, i, x, e))
  }

  function PassedCount(ns: seq<GoldNarrative>): nat {
    if ns == [] then 0 else PassedCount(ns[..|ns| - 1]) + if ns[|ns| - 1].passed then 1 else 0
  }

  function Merged(t: Table, ns: seq<GoldNarrative>): Table {
    if ns == [] then t else Merged(t, ns[..|ns| - 1])[ns[|ns| - 1].key := ns[|ns| - 1]]
  }

  lemma NoneKept(t: Table)
    ensures Merged(t, []) == t && PassedCount([]) == 0
  {
  }

  lemma OneMoreKept(t: Table, kept: seq<GoldNarrative>, n: GoldNarrative)
    ensures Merged(t, kept + [n]) == Merged(t, kept)[n.key := n]
    ensures PassedCount(kept + [n]) == PassedCount(kept) + if n.passed then 1 else 0
  {
    assert (kept + [n])[..|kept|] == kept;
  }

  method RunSweep(s: Setting, engagement: string, reader: Reader, table: GoldTable)
    returns (succeeded: nat, passed: nat)
    requires reader.calls == []
    modifies reader, table
    ensures var swept := SweepOf(s, Combinations(engagement), reader.script);
            && reader.calls == swept.cache.calls
            && table.rows == Merged(old(table.rows), swept.kept)
            && succeeded == |swept.kept|
            && passed == PassedCount(swept.kept)
  {
    hide SweepRow, Merged, PassedCount;
    succeeded, passed := 0, 0;
    NoneKept(table.rows);
    var cache: map<Triple, Record> := map[];
    var xs := Combinations(engagement);
    ghost var kept: seq<GoldNarrative> := [];
    hide Combinations;
    for i := 0 to |xs|
      invariant Swept(Cache(cache, reader.calls), kept) == SweepOf(s, xs[..i], reader.script)
      invariant table.rows == Merged(old(table.rows), kept)
      invariant succeeded == |kept| && passed == PassedCount(kept)
    {
      assert xs[..i + 1][..i] == xs[..i];
      var e;
      cache, e := Get(reader, cache, xs[i].triple);
      if e.Some? {
        var n := GenerateOne(s, i, xs[i], e.value, table);
        if n.Some? {
          OneMoreKept(old(table.rows), kept, n.value);
          succeeded := succeeded + 1;
          if n.value.passed { passed := passed + 1; }
          kept := kept + [n.value];
        }
      }
    }
    assert xs[..|xs|] == xs;
  }

  /** A reader that never raises serves the whole sweep with eight reads, one per control and quarter. */
  lemma EightReads(s: Setting, engagement: string, read: Script)
    requires forall n, t :: read(n, t).Some?
    ensures var calls := SweepOf(s, Combinations(engagement), read).cache.calls;
            && |calls| == 8 && Distinct(calls)
            && forall t :: t in calls <==> t.engagement == engagement
  {
    var xs := Combinations(engagement);
    var key := (x: Combination) => x.triple;
    OneCallPerTriple(xs, key, read, (i, x, e) => SweepRow(s, i, x, e));
    CombinationsExact(engagement);
    var calls := SweepOf(s, xs, read).cache.calls;
    forall t ensures t in calls <==> t.engagement == engagement {
      TripleOccurs(xs, engagement, t);
    }
    EightTriples(engagement, calls);
  }

  lemma TripleOccurs(xs: seq<Combination>, engagement: string, t: Triple)
    requires forall x :: x in xs <==> x.triple.engagement == engagement && x.attribute in Narratable(x.triple.control)
    ensures Occurs(xs, (x: Combination) => x.triple, t) <==> t.engagement == engagement
  {
    if t.engagement == engagement {
      assert Combination(t, A) in xs;
    }
  }

  lemma EightTriples(engagement: string, ts: seq<Triple>)
    requires Distinct(ts) && forall t :: t in ts <==> t.engagement == engagement
    ensures |ts| == 8
  {
    var two := seq(4, i requires 0 <= i < 4 => Triple(engagement, DC2, QUARTERS[i]));
    var nine := seq(4, i requires 0 <= i < 4 => Triple(engagement, DC9, QUARTERS[i]));
    var all := two + nine;
    assert Distinct(all);
    forall t: Triple | t.engagement == engagement ensures t in all {
      EveryQuarter(t.quarter);
      var i :| 0 <= i < 4 && QUARTERS[i] == t.quarter;
      assert if t.control == DC2 then two[i] == t == all[i] else nine[i] == t == all[4 + i];
    }
    SameSize(ts, all);
  }

  lemma {:induction false} SetOfDistinct<T>(s: seq<T>)
    requires Distinct(s)
    ensures |set x | x in s| == |s|
  {
    if s != [] {
      var front, last := s[..|s| - 1], s[|s| - 1];
      SetOfDistinct(front);
      assert (set x | x in s) == (set x | x in front) + {last};
    }
  }

  lemma SameSize<T>(a: seq<T>, b: seq<T>)
    requires Distinct(a) && Distinct(b) && forall x :: x in a <==> x in b
    ensures |a| == |b|
  {
    SetOfDistinct(a);
    SetOfDistinct(b);
    assert (set x | x in a) == (set x | x in b);
  }

  // ---- what the sweep leaves in the table ---------------------------------

  predicate DistinctKeys(ns: seq<GoldNarrative>) { forall i, j :: 0 <= i < j < |ns| ==> ns[i].key != ns[j].key }

  /** A row whose verdict columns are what the fact check says of its text and the evidence of its triple. */
  ghost predicate Stands(n: GoldNarrative, read: Triple -> Option<Record>, c: Checker) {
    var e := read(n.key.triple);
    e.Some? && n.response.text != "" && n == Verdict(n, e.value, c)
  }

  lemma GeneratedText(s: Setting, i: nat, a: Attribute, e: Record)
    ensures Generated(s, i, a, e).Some? ==> Generated(s, i, a, e).value.response.text != ""
  {
  }

  ghost predicate RowsStand(kept: seq<GoldNarrative>, xs: seq<Combination>, version: string,
                            read: Triple -> Option<Record>, c: Checker) {
    && DistinctKeys(kept)
    && forall n :: n in kept ==>
         && Combination(n.key.triple, n.key.attribute) in xs && n.key.promptVersion == version
         && Stands(n, read, c) && (n.passed <==> n.issues == [])
  }

  lemma {:induction false} RowsFrom(s: Setting, xs: seq<Combination>, script: Script, read: Triple -> Option<Record>)
    requires Distinct(xs) && AnswersLike(script, read)
    requires forall t :: read(t).Some? ==> read(t).value.triple == t
    ensures RowsStand(SweepOf(s, xs, script).kept, xs, s.promptVersion, read, s.checker)
  {
    hide SweepRow, Verdict;
    if xs != [] {
      var k := |xs| - 1;
      var front := xs[..k];
      RowsFrom(s, front, script, read);
      CacheAgrees(front, (x: Combination) => x.triple, script, read, (i, x, e) => SweepRow(s, i, x, e));
      var e := read(xs[k].triple);
      if e.Some? && SweepRow(s, k, xs[k], e.value).Some? {
        LastRow(s, k, xs[k], e.value);
      }
    }
  }

  /** Over a silver table, read by a reader any of whose calls may raise, the kept rows have one key per combination
      that succeeded, in order, and each carries the verdict of its own text on the evidence stored for its triple; a
      row counted as passed has no issues. */
  lemma KeptRows(s: Setting, xs: seq<Combination>, script: Script, silver: seq<Row>)
    requires Distinct(xs) && AnswersLike(script, SilverOf(silver))
    ensures RowsStand(SweepOf(s, xs, script).kept, xs, s.promptVersion, SilverOf(silver), s.checker)
  {
    hide ReadSilver, RowsStand;
    RowsFrom(s, xs, script, SilverOf(silver));
  }

  lemma LastRow(s: Setting, i: nat, x: Combination, e: Record)
    requires SweepRow(s, i, x, e).Some?
    ensures var n := SweepRow(s, i, x, e).value;
            && n.key == GoldKey(e.triple, x.attribute, s.promptVersion)
            && n.response.text != "" && n == Verdict(n, e, s.checker)
            && (n.passed <==> n.issues == [])
  {
    GeneratedText(s, i, x.attribute, e);
    hide FC.Issues;
  }

  lemma {:induction false} MergedRows(t: Table, ns: seq<GoldNarrative>)
    requires DistinctKeys(ns)
    ensures forall n :: n in ns ==> n.key in Merged(t, ns) && Merged(t, ns)[n.key] == n
    ensures forall k :: k in Merged(t, ns) <==> k in t || exists n :: n in ns && n.key == k
    ensures forall k :: k in t && (forall n :: n in ns ==> n.key != k) ==> Merged(t, ns)[k] == t[k]
  {
    if ns != [] {
      var front, last := ns[..|ns| - 1], ns[|ns| - 1];
      MergedRows(t, front);
      assert forall n :: n in ns <==> n in front || n == last;
    }
  }
}
