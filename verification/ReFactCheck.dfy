/** `re_fact_check`: every gold narrative of one engagement and prompt version is
    checked again against silver and, unless dry, its verdict columns are rewritten.
    Unlike the sweeps, nothing is caught: the first exception ends the run. */
module ReFactCheck {
  import opened Decimals
  import opened Evidence
  import opened Silver
  import opened EvidenceCache
  import opened GoldNarratives
  import L = Layer2Sweep
  import FC = FactChecker

  // ---- the selection ------------------------------------------------------

  function AllScopes(engagement: string): seq<L.Combination> {
    L.PerControl(engagement, DC2, L.QUARTERS, ALL_ATTRIBUTES)
    + L.PerControl(engagement, DC9, L.QUARTERS, ALL_ATTRIBUTES)
  }

  function Present(t: Table, xs: seq<L.Combination>, version: string): (keys: seq<GoldKey>)
    ensures forall k :: k in keys ==> k in t
  {
    if xs == [] then []
    else
      var k := GoldKey(xs[0].triple, xs[0].attribute, version);
      (if k in t then [k] else []) + Present(t, xs[1..], version)
  }

  /** The SELECT, ordered by control, quarter and attribute. */
  function Selected(t: Table, engagement: string, version: string): seq<GoldKey> {
    Present(t, AllScopes(engagement), version)
  }

  lemma {:induction false} PresentExact(t: Table, xs: seq<L.Combination>, version: string)
    requires Distinct(xs)
    ensures var keys := Present(t, xs, version);
            && Distinct(keys)
            && forall k :: k in keys <==>
                 k in t && k.promptVersion == version && L.Combination(k.triple, k.attribute) in xs
  {
    if xs != [] {
      PresentExact(t, xs[1..], version);
      assert xs == [xs[0]] + xs[1..];
      var k := GoldKey(xs[0].triple, xs[0].attribute, version);
      if k in t {
        L.DistinctConcat([k], Present(t, xs[1..], version));
      }
    }
  }

  /** Exactly the rows of the engagement and version, each once. */
  lemma SelectedExact(t: Table, engagement: string, version: string)
    ensures var keys := Selected(t, engagement, version);
            && Distinct(keys)
            && forall k :: k in keys <==> k in t && k.promptVersion == version && k.triple.engagement == engagement
  {
    L.PerControlExact(engagement, DC2, L.QUARTERS, ALL_ATTRIBUTES);
    L.PerControlExact(engagement, DC9, L.QUARTERS, ALL_ATTRIBUTES);
    L.DistinctConcat(L.PerControl(engagement, DC2, L.QUARTERS, ALL_ATTRIBUTES),
                     L.PerControl(engagement, DC9, L.QUARTERS, ALL_ATTRIBUTES));
    PresentExact(t, AllScopes(engagement), version);
    forall k: GoldKey
      ensures L.Combination(k.triple, k.attribute) in AllScopes(engagement) <==> k.triple.engagement == engagement
    {
      EveryScope(k.triple.quarter, k.attribute);
    }
  }

  lemma EveryScope(q: Quarter, a: Attribute)
    ensures q in L.QUARTERS && a in ALL_ATTRIBUTES
  {
    L.EveryQuarter(q);
    match a
    case A => assert ALL_ATTRIBUTES[0] == a;
    case B => assert ALL_ATTRIBUTES[1] == a;
    case C => assert ALL_ATTRIBUTES[2] == a;
    case D => assert ALL_ATTRIBUTES[3] == a;
    case E => assert ALL_ATTRIBUTES[4] == a;
    case F => assert ALL_ATTRIBUTES[5] == a;
  }

  // ---- the run ------------------------------------------------------------

  datatype Counts = Counts(evaluated: nat, passed: nat, changed: nat)

  datatype Progress = Progress(cache: Cache, table: Table, counts: Counts, raised: bool)

  /** `update` is whether the i-th UPDATE goes through. */
  datatype Setting = Setting(checker: Checker, dryRun: bool, update: nat -> bool)

  function Count(c: Counts, was: bool, now: bool): Counts {
    Counts(c.evaluated + 1, c.passed + (if now then 1 else 0), c.changed + if was != now then 1 else 0)
  }

  /** One row of the loaded snapshot. */
  function Step(s: Setting, loaded: Table, before: Progress, i: nat, k: GoldKey, read: Script): Progress
    requires k in loaded
  {
    var row := loaded[k];
    var (cache, e) := Lookup(before.cache, read, k.triple);
    if e.None? || row.response.text == "" then before.(cache := cache, raised := true)
    else
      var checked := Verdict(row, e.value, s.checker);
      var counts := Count(before.counts, row.passed, checked.passed);
      if s.dryRun then Progress(cache, before.table, counts, false)
      else if !s.update(i) then Progress(cache, before.table, counts, true)
      else Progress(cache, before.table[k := checked], counts, false)
  }

  function Recheck(s: Setting, loaded: Table, keys: seq<GoldKey>, read: Script): Progress
    requires forall k :: k in keys ==> k in loaded
  {
    if keys == [] then Progress(EMPTY, loaded, Counts(0, 0, 0), false)
    else
      var i := |keys| - 1;
      var before := Recheck(s, loaded, keys[..i], read);
      if before.raised then before else Step(s, loaded, before, i, keys[i], read)
  }

  method RecheckOne(s: Setting, row: GoldNarrative, i: nat, k: GoldKey, cache: map<Triple, Record>, tally: Counts,
                    reader: Reader, table: GoldTable, ghost loaded: Table)
    returns (cache': map<Triple, Record>, tally': Counts, raised: bool)
    requires k in loaded && loaded[k] == row && k in table.rows && table.rows[k] == row
    modifies reader, table
    ensures Progress(Cache(cache', reader.calls), table.rows, tally', raised)
         == Step(s, loaded, Progress(Cache(cache, old(reader.calls)), old(table.rows), tally, false), i, k,
                 reader.script)
  {
    hide FC.Issues, Count, Lookup;
    var e;
    tally' := tally;
    cache', e := Get(reader, cache, k.triple);
    if e.None? || row.response.text == "" { return cache', tally, true; }
    var passed, issues := FC.Check(row.response.text, s.checker.blob(e.value), s.checker.stopwords, s.checker.similar);
    tally' := Count(tally, row.passed, passed);
    if s.dryRun { return cache', tally', false; }
    if !s.update(i) { return cache', tally', true; }
    table.UpdateVerdict(k, passed, issues);
    raised := false;
  }

  /** The rows from the i-th on are as they were loaded. */
  ghost predicate Untouched(now: Table, loaded: Table, keys: seq<GoldKey>, i: nat) {
    now.Keys == loaded.Keys && forall j :: i <= j < |keys| && keys[j] in now ==> now[keys[j]] == loaded[keys[j]]
  }

  lemma StepFrame(s: Setting, loaded: Table, before: Progress, keys: seq<GoldKey>, i: nat, read: Script)
    requires Distinct(keys) && i < |keys| && keys[i] in loaded && Untouched(before.table, loaded, keys, i)
    ensures Untouched(Step(s, loaded, before, i, keys[i], read).table, loaded, keys, i + 1)
  {
    hide Count, Lookup, Verdict;
  }

  /** After an exception nothing more happens. */
  lemma {:induction false} StaysRaised(s: Setting, loaded: Table, keys: seq<GoldKey>, i: nat, read: Script)
    requires forall k :: k in keys ==> k in loaded
    requires i <= |keys| && Recheck(s, loaded, keys[..i], read).raised
    ensures Recheck(s, loaded, keys, read) == Recheck(s, loaded, keys[..i], read)
  {
    if i < |keys| {
      var front := keys[..|keys| - 1];
      assert front[..i] == keys[..i];
      StaysRaised(s, loaded, front, i, read);
    } else {
      assert keys[..i] == keys;
    }
  }

  /** The loop stands before row i with progress p. */
  ghost predicate Reached(s: Setting, loaded: Table, keys: seq<GoldKey>, i: nat, read: Script, p: Progress) {
    && i <= |keys| && Distinct(keys) && (forall k :: k in keys ==> k in loaded)
    && Recheck(s, loaded, keys[..i], read) == p
    && !p.raised && Untouched(p.table, loaded, keys, i)
  }

  lemma ReachedStart(s: Setting, loaded: Table, keys: seq<GoldKey>, read: Script)
    requires Distinct(keys) && forall k :: k in keys ==> k in loaded
    ensures Reached(s, loaded, keys, 0, read, Progress(EMPTY, loaded, Counts(0, 0, 0), false))
  {
  }

  lemma ReachedNext(s: Setting, loaded: Table, keys: seq<GoldKey>, i: nat, read: Script, p: Progress)
    requires i < |keys| && keys[i] in loaded && Reached(s, loaded, keys, i, read, p)
    ensures var q := Step(s, loaded, p, i, keys[i], read);
            && (!q.raised ==> Reached(s, loaded, keys, i + 1, read, q))
            && (q.raised ==> Recheck(s, loaded, keys, read) == q)
  {
    hide Step;
    assert keys[..i + 1][..i] == keys[..i];
    StepFrame(s, loaded, p, keys, i, read);
    hide Untouched, Distinct;
    if Step(s, loaded, p, i, keys[i], read).raised { StaysRaised(s, loaded, keys, i + 1, read); }
  }

  lemma ReachedRow(s: Setting, loaded: Table, keys: seq<GoldKey>, i: nat, read: Script, p: Progress)
    requires i < |keys| && Reached(s, loaded, keys, i, read, p)
    ensures keys[i] in loaded && keys[i] in p.table && p.table[keys[i]] == loaded[keys[i]]
  {
    hide Recheck;
    assert keys[i] in keys;
  }

  lemma ReachedEnd(s: Setting, loaded: Table, keys: seq<GoldKey>, read: Script, p: Progress)
    requires Reached(s, loaded, keys, |keys|, read, p)
    ensures (forall k :: k in keys ==> k in loaded) && Recheck(s, loaded, keys, read) == p
  {
    assert keys[..|keys|] == keys;
  }

  /** The counts, or None when an exception propagated; the updates made before it stay. */
  method RunRecheck(s: Setting, engagement: string, version: string, reader: Reader, table: GoldTable)
    returns (counts: Option<Counts>)
    requires reader.calls == []
    modifies reader, table
    ensures var p := Recheck(s, old(table.rows), Selected(old(table.rows), engagement, version), reader.script);
            && reader.calls == p.cache.calls
            && table.rows == p.table
            && counts == if p.raised then None else Some(p.counts)
  {
    var loaded := table.rows;
    var keys := Selected(loaded, engagement, version);
    var tally := Counts(0, 0, 0);
    var cache: map<Triple, Record> := map[];
    SelectedExact(loaded, engagement, version);
    ReachedStart(s, loaded, keys, reader.script);
    hide Step, Count, Selected, Recheck, Reached;
    for i := 0 to |keys|
      invariant Reached(s, loaded, keys, i, reader.script,
                        Progress(Cache(cache, reader.calls), table.rows, tally, false))
    {
      ghost var before := Progress(Cache(cache, reader.calls), table.rows, tally, false);
      ReachedRow(s, loaded, keys, i, reader.script, before);
      ReachedNext(s, loaded, keys, i, reader.script, before);
      var raised;
      cache, tally, raised := RecheckOne(s, loaded[keys[i]], i, keys[i], cache, tally, reader, table, loaded);
      if raised { return None; }
    }
    ReachedEnd(s, loaded, keys, reader.script, Progress(Cache(cache, reader.calls), table.rows, tally, false));
    return Some(tally);
  }

  // ---- what a completed run means -----------------------------------------

  function CountIf(keys: seq<GoldKey>, p: GoldKey -> bool): nat {
    if keys == [] then 0 else CountIf(keys[..|keys| - 1], p) + if p(keys[|keys| - 1]) then 1 else 0
  }

  /** Nothing can go wrong with row i. */
  predicate Checkable(s: Setting, loaded: Table, keys: seq<GoldKey>, i: nat, read: Triple -> Option<Record>)
    requires i < |keys| && keys[i] in loaded
  {
    read(keys[i].triple).Some? && loaded[keys[i]].response.text != "" && (s.dryRun || s.update(i))
  }

  /** The row of k as the checker sees it now. */
  function Now(loaded: Table, read: Triple -> Option<Record>, c: Checker, k: GoldKey): GoldNarrative
    requires k in loaded
  {
    if read(k.triple).None? then loaded[k] else Verdict(loaded[k], read(k.triple).value, c)
  }

  function NowPasses(loaded: Table, read: Triple -> Option<Record>, c: Checker): GoldKey -> bool {
    k => k in loaded && Now(loaded, read, c, k).passed
  }

  function NowDiffers(loaded: Table, read: Triple -> Option<Record>, c: Checker): GoldKey -> bool {
    k => k in loaded && Now(loaded, read, c, k).passed != loaded[k].passed
  }

  ghost predicate Agrees(c: Cache, read: Triple -> Option<Record>) {
    forall t :: t in c.found ==> read(t) == Some(c.found[t])
  }

  lemma StepCompletes(s: Setting, loaded: Table, before: Progress, keys: seq<GoldKey>, i: nat,
                      script: Script, read: Triple -> Option<Record>)
    requires i < |keys| && keys[i] in loaded && !before.raised
    requires Agrees(before.cache, read) && forall n, t :: script(n, t) == read(t)
    ensures var after := Step(s, loaded, before, i, keys[i], script);
            && Agrees(after.cache, read)
            && (!after.raised <==> Checkable(s, loaded, keys, i, read))
            && (!after.raised ==>
                  var now := Now(loaded, read, s.checker, keys[i]);
                  && after.counts == Count(before.counts, loaded[keys[i]].passed, now.passed)
                  && after.table == if s.dryRun then before.table else before.table[keys[i] := now])
  {
    hide Verdict;
    hide Count;
  }

  lemma {:induction false} RunAgrees(s: Setting, loaded: Table, keys: seq<GoldKey>, script: Script,
                                     read: Triple -> Option<Record>)
    requires forall k :: k in keys ==> k in loaded
    requires forall n, t :: script(n, t) == read(t)
    ensures !Recheck(s, loaded, keys, script).raised ==> Agrees(Recheck(s, loaded, keys, script).cache, read)
    ensures !Recheck(s, loaded, keys, script).raised <==>
              forall i :: 0 <= i < |keys| ==> Checkable(s, loaded, keys, i, read)
  {
    hide Step, Agrees;
    if keys != [] {
      var n := |keys| - 1;
      var front := keys[..n];
      RunAgrees(s, loaded, front, script, read);
      forall i | 0 <= i < n ensures Checkable(s, loaded, front, i, read) <==> Checkable(s, loaded, keys, i, read) {
        assert front[i] == keys[i];
      }
      var before := Recheck(s, loaded, front, script);
      hide Checkable;
      if !before.raised { StepCompletes(s, loaded, before, keys, n, script, read); }
    } else {
      EmptyAgrees(read);
    }
  }

  lemma EmptyAgrees(read: Triple -> Option<Record>)
    ensures Agrees(EMPTY, read)
  {
  }

  /** The verdict columns of the selected rows, rewritten one after the other. */
  function Rewritten(loaded: Table, keys: seq<GoldKey>, read: Triple -> Option<Record>, c: Checker): Table
    requires forall k :: k in keys ==> k in loaded
  {
    if keys == [] then loaded
    else
      var k := keys[|keys| - 1];
      Rewritten(loaded, keys[..|keys| - 1], read, c)[k := Now(loaded, read, c, k)]
  }

  lemma {:induction false} RewrittenExact(loaded: Table, keys: seq<GoldKey>, read: Triple -> Option<Record>, c: Checker)
    requires forall k :: k in keys ==> k in loaded
    ensures var t := Rewritten(loaded, keys, read, c);
            && t.Keys == loaded.Keys
            && forall k :: k in loaded ==> t[k] == if k in keys then Now(loaded, read, c, k) else loaded[k]
  {
    hide Now;
    if keys != [] {
      RewrittenExact(loaded, keys[..|keys| - 1], read, c);
      assert forall k :: k in keys <==> k in keys[..|keys| - 1] || k == keys[|keys| - 1];
    }
  }

  lemma {:induction false} RunResult(s: Setting, loaded: Table, keys: seq<GoldKey>, script: Script,
                                     read: Triple -> Option<Record>)
    requires forall k :: k in keys ==> k in loaded
    requires forall n, t :: script(n, t) == read(t)
    requires !Recheck(s, loaded, keys, script).raised
    ensures var p := Recheck(s, loaded, keys, script);
            && p.counts == Counts(|keys|, CountIf(keys, NowPasses(loaded, read, s.checker)),
                                  CountIf(keys, NowDiffers(loaded, read, s.checker)))
            && p.table == if s.dryRun then loaded else Rewritten(loaded, keys, read, s.checker)
  {
    hide Step, Now, Agrees, Checkable;
    if keys != [] {
      var n := |keys| - 1;
      RunResult(s, loaded, keys[..n], script, read);
      RunAgrees(s, loaded, keys[..n], script, read);
      StepCompletes(s, loaded, Recheck(s, loaded, keys[..n], script), keys, n, script, read);
    }
  }

  /** A run completes exactly when every row can be read, checked and written; then it counted every row,
      its passes and its changes, and a dry run left the table alone while a real one rewrote the verdict of
      every selected row and of no other. */
  lemma CompletedRun(s: Setting, loaded: Table, keys: seq<GoldKey>, script: Script, read: Triple -> Option<Record>)
    requires forall k :: k in keys ==> k in loaded
    requires forall n, t :: script(n, t) == read(t)
    ensures var p := Recheck(s, loaded, keys, script);
            && (!p.raised <==> forall i :: 0 <= i < |keys| ==> Checkable(s, loaded, keys, i, read))
            && (!p.raised ==>
                  && p.counts == Counts(|keys|, CountIf(keys, NowPasses(loaded, read, s.checker)),
                                        CountIf(keys, NowDiffers(loaded, read, s.checker)))
                  && p.table.Keys == loaded.Keys
                  && forall k :: k in loaded ==>
                       p.table[k] == if !s.dryRun && k in keys then Now(loaded, read, s.checker, k) else loaded[k])
  {
    RunAgrees(s, loaded, keys, script, read);
    hide Checkable, Now, Recheck, NowPasses, NowDiffers, Rewritten;
    if !Recheck(s, loaded, keys, script).raised {
      RunResult(s, loaded, keys, script, read);
      RewrittenExact(loaded, keys, read, s.checker);
    }
  }

  lemma {:induction false} CountNone(keys: seq<GoldKey>, p: GoldKey -> bool)
    requires forall k :: k in keys ==> !p(k)
    ensures CountIf(keys, p) == 0
  {
    if keys != [] { CountNone(keys[..|keys| - 1], p); }
  }

  /** Checking again changes nothing: after a completed real run, a second run with the same silver and the
      same checker finds the same rows, counts no change and leaves the table as it is. */
  lemma SecondRunChangesNothing(s: Setting, t: Table, engagement: string, version: string,
                                script: Script, read: Triple -> Option<Record>)
    requires forall n, t :: script(n, t) == read(t)
    requires !s.dryRun && !Recheck(s, t, Selected(t, engagement, version), script).raised
    ensures var once := Recheck(s, t, Selected(t, engagement, version), script);
            var twice := Recheck(s, once.table, Selected(once.table, engagement, version), script);
            !twice.raised && twice.table == once.table && twice.counts == once.counts.(changed := 0)
  {
    var keys := Selected(t, engagement, version);
    SelectedExact(t, engagement, version);
    var once := Recheck(s, t, keys, script).table;
    CompletedRun(s, t, keys, script, read);
    assert t.Keys == once.Keys;
    SameSelection(t, once, AllScopes(engagement), version);
    assert Selected(once, engagement, version) == keys;
    hide Selected, Recheck, NowPasses, NowDiffers;
    CompletedRun(s, once, keys, script, read);
    SecondLook(s, t, once, keys, read);
  }

  lemma SecondLook(s: Setting, t: Table, once: Table, keys: seq<GoldKey>, read: Triple -> Option<Record>)
    requires t.Keys == once.Keys && forall k :: k in keys ==> k in t
    requires forall k :: k in keys ==> once[k] == Now(t, read, s.checker, k)
    requires forall i :: 0 <= i < |keys| ==> Checkable(s, t, keys, i, read)
    ensures forall k :: k in keys ==> Now(once, read, s.checker, k) == once[k]
    ensures forall i :: 0 <= i < |keys| ==> Checkable(s, once, keys, i, read)
    ensures CountIf(keys, NowDiffers(once, read, s.checker)) == 0
    ensures CountIf(keys, NowPasses(once, read, s.checker)) == CountIf(keys, NowPasses(t, read, s.checker))
  {
    hide FC.Issues;
    forall i | 0 <= i < |keys| ensures Checkable(s, once, keys, i, read) {
      assert Checkable(s, t, keys, i, read) && keys[i] in keys;
    }
    CountNone(keys, NowDiffers(once, read, s.checker));
    SameCount(keys, NowPasses(t, read, s.checker), NowPasses(once, read, s.checker));
  }

  lemma {:induction false} SameSelection(t: Table, u: Table, xs: seq<L.Combination>, version: string)
    requires t.Keys == u.Keys
    ensures Present(t, xs, version) == Present(u, xs, version)
  {
    if xs != [] { SameSelection(t, u, xs[1..], version); }
  }

  lemma {:induction false} SameCount(keys: seq<GoldKey>, p: GoldKey -> bool, q: GoldKey -> bool)
    requires forall k :: k in keys ==> (p(k) <==> q(k))
    ensures CountIf(keys, p) == CountIf(keys, q)
  {
    if keys != [] { SameCount(keys[..|keys| - 1], p, q); }
  }

  /** A re-check right after a Layer-2 sweep, on the same silver table and with the same checker, overturns no verdict
      the sweep wrote: every change it counts is in a row the sweep did not write. */
  lemma SweepVerdictsStand(l: L.Setting, s: Setting, before: Table, engagement: string,
                           script: Script, silver: seq<Row>, k: GoldKey)
    requires AnswersLike(script, SilverOf(silver)) && s.checker == l.checker
    requires exists n :: n in L.SweepOf(l, L.Combinations(engagement), script).kept && n.key == k
    ensures var after := L.Merged(before, L.SweepOf(l, L.Combinations(engagement), script).kept);
            && k in Selected(after, engagement, l.promptVersion)
            && !NowDiffers(after, SilverOf(silver), s.checker)(k)
            && Now(after, SilverOf(silver), s.checker, k) == after[k]
  {
    hide FC.Issues;
    var kept := L.SweepOf(l, L.Combinations(engagement), script).kept;
    L.CombinationsExact(engagement);
    L.KeptRows(l, L.Combinations(engagement), script, silver);
    L.MergedRows(before, kept);
    var after := L.Merged(before, kept);
    SelectedExact(after, engagement, l.promptVersion);
    hide L.Combinations, Selected;
    var n :| n in kept && n.key == k;
    assert L.Stands(n, SilverOf(silver), l.checker);
  }
}
