/** The evidence cache the sweep drivers share: one dictionary per sweep, filled
    by the silver reader, and the loop that maps items to kept rows through it. */
module EvidenceCache {
  import opened Decimals
  import opened Silver
  import SR = SilverReader

  /** The reader's answer to its n-th call; None when it raises. */
  type Script = (nat, Triple) -> Option<Record>

  class Reader {
    const script: Script
    var calls: seq<Triple>

    constructor (script: Script)
      ensures this.script == script && calls == []
    {
      this.script := script;
      calls := [];
    }

    method Read(t: Triple) returns (e: Option<Record>)
      modifies this
      ensures e == script(|old(calls)|, t) && calls == old(calls) + [t]
    {
      e := script(|calls|, t);
      calls := calls + [t];
    }
  }

  // ---- one lookup ---------------------------------------------------------

  datatype Cache = Cache(found: map<Triple, Record>, calls: seq<Triple>)

  const EMPTY := Cache(map[], [])

  /** Read on a miss, and remember what was read; a reader that raises leaves no entry. */
  function Lookup(c: Cache, read: Script, t: Triple): (Cache, Option<Record>) {
    if t in c.found then (c, Some(c.found[t]))
    else
      var e := read(|c.calls|, t);
      (Cache(if e.Some? then c.found[t := e.value] else c.found, c.calls + [t]), e)
  }

  method Get(reader: Reader, cache: map<Triple, Record>, t: Triple)
    returns (cache': map<Triple, Record>, e: Option<Record>)
    modifies reader
    ensures (Cache(cache', reader.calls), e) == Lookup(Cache(cache, old(reader.calls)), reader.script, t)
  {
    cache' := cache;
    if t !in cache {
      e := reader.Read(t);
      if e.None? { return; }
      cache' := cache[t := e.value];
    }
    e := Some(cache'[t]);
  }

  /** Call i answered for t. */
  predicate Answers(c: Cache, read: Script, i: int, t: Triple) {
    0 <= i < |c.calls| && c.calls[i] == t && read(i, t).Some?
  }

  /** What is cached is exactly what was read: a triple has an entry when one of its reads succeeded, the
      entry is that read's answer, and the triple is never read again. */
  ghost predicate Faithful(c: Cache, read: Script) {
    && (forall t :: t in c.found ==> exists i :: Answers(c, read, i, t))
    && (forall i, t :: Answers(c, read, i, t) ==> t in c.found && c.found[t] == read(i, t).value)
    && (forall i, t :: Answers(c, read, i, t) ==> forall j :: i < j < |c.calls| ==> c.calls[j] != t)
  }

  lemma LookupStaysFaithful(c: Cache, read: Script, t: Triple)
    requires Faithful(c, read)
    ensures Faithful(Lookup(c, read, t).0, read)
    ensures c.calls <= Lookup(c, read, t).0.calls
  {
    if t !in c.found {
      var c' := Lookup(c, read, t).0;
      var n := |c.calls|;
      forall i, u
        ensures Answers(c', read, i, u) <==> Answers(c, read, i, u) || (i == n && u == t && read(n, t).Some?)
      {
        assert i < n ==> (0 <= i ==> c'.calls[i] == c.calls[i]);
      }
      hide Answers;
      forall u | u in c'.found ensures exists i :: Answers(c', read, i, u) {
        if u in c.found {
          var i :| Answers(c, read, i, u);
          assert Answers(c', read, i, u);
        } else {
          assert Answers(c', read, n, u);
        }
      }
    }
  }

  // ---- the loop -----------------------------------------------------------

  datatype Swept<+R> = Swept(cache: Cache, kept: seq<R>)

  /** Item by item through the cache; `row` is everything after the evidence is at hand, and an item
      whose read or row raises is skipped. */
  function Sweep<I, R>(items: seq<I>, key: I -> Triple, read: Script, row: (nat, I, Record) -> Option<R>): Swept<R> {
    if items == [] then Swept(EMPTY, [])
    else
      var i := |items| - 1;
      var before := Sweep(items[..i], key, read, row);
      var (cache, e) := Lookup(before.cache, read, key(items[i]));
      var r := if e.Some? then row(i, items[i], e.value) else None;
      Swept(cache, before.kept + (if r.Some? then [r.value] else []))
  }

  /** The same loop without a cache: every item reads its evidence afresh. */
  function Uncached<I, R>(items: seq<I>, key: I -> Triple, read: Triple -> Option<Record>,
                          row: (nat, I, Record) -> Option<R>): seq<R> {
    if items == [] then []
    else
      var i := |items| - 1;
      var e := read(key(items[i]));
      var r := if e.Some? then row(i, items[i], e.value) else None;
      Uncached(items[..i], key, read, row) + (if r.Some? then [r.value] else [])
  }

  /** Whatever the reader answers, each triple is read successfully at most once, and every row of the
      triple after that sees that one answer. */
  lemma {:induction false} ReadsOnce<I, R>(items: seq<I>, key: I -> Triple, read: Script,
                                           row: (nat, I, Record) -> Option<R>)
    ensures var c := Sweep(items, key, read, row).cache;
            && Faithful(c, read)
            && forall i, j :: 0 <= i < j < |c.calls| && c.calls[i] == c.calls[j] ==> read(i, c.calls[i]).None?
  {
    if items != [] {
      var i := |items| - 1;
      ReadsOnce(items[..i], key, read, row);
      LookupStaysFaithful(Sweep(items[..i], key, read, row).cache, read, key(items[i]));
    }
  }

  /** With a deterministic reader the cache is invisible: the same rows are kept, in the same order. */
  lemma {:induction false} CacheIsTransparent<I, R>(items: seq<I>, key: I -> Triple, script: Script,
                                                    read: Triple -> Option<Record>, row: (nat, I, Record) -> Option<R>)
    requires forall n, t :: script(n, t) == read(t)
    ensures var s := Sweep(items, key, script, row);
            && s.kept == Uncached(items, key, read, row)
            && forall t :: t in s.cache.found ==> read(t) == Some(s.cache.found[t])
  {
    if items != [] {
      CacheIsTransparent(items[..|items| - 1], key, script, read, row);
    }
  }

  /** Any call may raise, but answers are those of `read`. */
  ghost predicate AnswersLike(script: Script, read: Triple -> Option<Record>) {
    forall n, t :: script(n, t).Some? ==> script(n, t) == read(t)
  }

  lemma {:induction false} CacheAgrees<I, R>(items: seq<I>, key: I -> Triple, script: Script,
                                             read: Triple -> Option<Record>, row: (nat, I, Record) -> Option<R>)
    requires AnswersLike(script, read)
    ensures var found := Sweep(items, key, script, row).cache.found;
            forall t :: t in found ==> read(t) == Some(found[t])
  {
    if items != [] { CacheAgrees(items[..|items| - 1], key, script, read, row); }
  }

  predicate Occurs<I>(items: seq<I>, key: I -> Triple, t: Triple) {
    exists i :: 0 <= i < |items| && key(items[i]) == t
  }

  lemma OccursLast<I>(items: seq<I>, key: I -> Triple, t: Triple)
    requires items != []
    ensures Occurs(items, key, t) <==> Occurs(items[..|items| - 1], key, t) || key(items[|items| - 1]) == t
  {
    var n := |items| - 1;
    if Occurs(items, key, t) && key(items[n]) != t {
      var i :| 0 <= i < |items| && key(items[i]) == t;
      assert items[..n][i] == items[i];
    }
  }

  predicate Distinct<T(==)>(s: seq<T>) { forall i, j :: 0 <= i < j < |s| ==> s[i] != s[j] }

  /** A reader that never raises is called exactly once for every triple that occurs. */
  lemma {:induction false} OneCallPerTriple<I, R>(items: seq<I>, key: I -> Triple, read: Script,
                                                  row: (nat, I, Record) -> Option<R>)
    requires forall n, t :: read(n, t).Some?
    ensures var c := Sweep(items, key, read, row).cache;
            && Distinct(c.calls)
            && (forall t :: t in c.calls <==> Occurs(items, key, t))
            && (forall t :: t in c.calls <==> t in c.found)
  {
    if items != [] {
      hide Occurs;
      var front := items[..|items| - 1];
      OneCallPerTriple(front, key, read, row);
      forall t { OccursLast(items, key, t); }
    } else {
      hide Distinct;
    }
  }

  // ---- the silver reader --------------------------------------------------

  /** The reader over a silver table that no one writes to meanwhile. */
  function ReadSilver(rows: seq<Row>, t: Triple): (e: Option<Record>)
    ensures e.Some? ==> e.value.triple == t && Valid(e.value)
  {
    var r := SR.ReadTriple(rows, t);
    if r.Read? then Some(r.record) else None
  }

  function SilverOf(rows: seq<Row>): Triple -> Option<Record> { t => ReadSilver(rows, t) }
}
