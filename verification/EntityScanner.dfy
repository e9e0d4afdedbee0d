/** The fact checker's entity pattern `\b[A-Z][A-Za-z0-9]*(?:[-\s][A-Z][A-Za-z0-9]*)*\b`
    and the words of a text it reaches. */
module EntityScanner {
  import opened Text
  import opened Regex
  import opened Decimals

  const CAPITALISED := Cat(Chr(CharClass.Upper), Star(Chr(AlphaNum)))
  const LINKED := Cat(Chr(Either(OneOf({'-'}), Space)), CAPITALISED)
  const ENTITY := Cat(WordBoundary, Cat(CAPITALISED, Cat(Star(LINKED), WordBoundary)))

  function Entities(s: string): (ts: seq<Span>)
    ensures forall k | 0 <= k < |ts| :: ts[k].lo < ts[k].hi <= |s|
    ensures forall j, k | 0 <= j < k < |ts| :: ts[j].hi <= ts[k].lo
  {
    EntityConsumes();
    FindAll(ENTITY, s, 0)
  }

  lemma EntityConsumes()
    ensures Consumes(ENTITY)
  {
    assert Consumes(CAPITALISED);
  }

  predicate AlphaNumAt(s: string, i: int) { 0 <= i < |s| && AlphaNum.Has(s[i]) }

  /** [a, b) is a whole word: a capital followed by letters and digits, with no word character on either side. */
  predicate CapitalisedWord(s: string, a: nat, b: nat) {
    && a < b <= |s| && IsUpper(s[a]) && (forall k | a <= k < b :: AlphaNumAt(s, k))
    && !WordAt(s, a - 1) && !WordAt(s, b)
  }

  lemma {:induction false} LettersMatch(s: string, a: nat, b: nat)
    requires a <= b <= |s| && forall k | a <= k < b :: AlphaNumAt(s, k)
    ensures Matches(Star(Chr(AlphaNum)), s, a, b)
    decreases b - a
  {
    if a < b {
      assert AlphaNumAt(s, a);
      LettersMatch(s, a + 1, b);
      StarStep(Chr(AlphaNum), s, a, a + 1, b);
    } else {
      StarNonEmpty(Chr(AlphaNum), s, a);
    }
  }

  lemma WordMatches(s: string, a: nat, b: nat)
    requires CapitalisedWord(s, a, b)
    ensures Matches(ENTITY, s, a, b)
  {
    LettersMatch(s, a + 1, b);
    CatMatch(Chr(CharClass.Upper), Star(Chr(AlphaNum)), s, a, a + 1, b);
    StarNonEmpty(LINKED, s, b);
    assert AlphaNumAt(s, a) && AlphaNumAt(s, b - 1);
    assert AtBoundary(s, a) && AtBoundary(s, b);
    CatMatch(Star(LINKED), WordBoundary, s, b, b, b);
    CatMatch(CAPITALISED, Cat(Star(LINKED), WordBoundary), s, a, b, b);
    CatMatch(WordBoundary, Cat(CAPITALISED, Cat(Star(LINKED), WordBoundary)), s, a, a, b);
  }

  lemma EndsAtBoundary(s: string, i: nat, e: nat)
    requires i <= |s| && Matches(ENTITY, s, i, e)
    ensures i <= e <= |s| && AtBoundary(s, e)
  {
    var m := CatSplit(WordBoundary, Cat(CAPITALISED, Cat(Star(LINKED), WordBoundary)), s, i, e);
    var n := CatSplit(CAPITALISED, Cat(Star(LINKED), WordBoundary), s, m, e);
    var o := CatSplit(Star(LINKED), WordBoundary, s, n, e);
  }

  /** No capitalised word escapes: it lies in exactly one entity, and every other entity is disjoint from it. */
  lemma CapitalisedWordsAreScanned(s: string, a: nat, b: nat) returns (k: nat)
    requires CapitalisedWord(s, a, b)
    ensures k < |Entities(s)| && Entities(s)[k].lo <= a && b <= Entities(s)[k].hi
    ensures forall j | 0 <= j < |Entities(s)| && j != k :: Entities(s)[j].hi <= a || b <= Entities(s)[j].lo
  {
    hide Ends;
    EntityConsumes();
    WordMatches(s, a, b);
    k := Leftmost(ENTITY, s, 0, a);
    FoundIsFirst(ENTITY, s, 0);
    var t := Entities(s)[k];
    assert Ends(ENTITY, s, t.lo)[0] == t.hi;
    EndsAtBoundary(s, t.lo, t.hi);
    assert forall k: int | a <= k < b :: AlphaNumAt(s, k) && WordAt(s, k);
  }

  // ---- exactly which spans ------------------------------------------------

  const REST := Cat(Star(LINKED), WordBoundary)

  predicate UpperAt(s: string, i: int) { 0 <= i < |s| && IsUpper(s[i]) }

  /** A hyphen or a space with a capital behind it. */
  predicate LinkAt(s: string, i: int) { 0 <= i < |s| && (s[i] == '-' || IsSpace(s[i])) && UpperAt(s, i + 1) }

  /** The end of the letters and digits from i on. */
  function LettersEnd(s: string, i: nat): (e: nat)
    requires i <= |s|
    ensures i <= e <= |s| && !AlphaNumAt(s, e)
    ensures forall k | i <= k < e :: AlphaNumAt(s, k)
    decreases |s| - i
  {
    if AlphaNumAt(s, i) then LettersEnd(s, i + 1) else i
  }

  /** Where an entity whose last word ends at e stops: as far as capitalised words follow, back to the last one that is
      not glued to an underscore. */
  function EntityEnd(s: string, e: nat): (r: Option<nat>)
    requires e <= |s|
    ensures r.Some? ==> e <= r.value <= |s|
    decreases |s| - e
  {
    if LinkAt(s, e) then
      var r := EntityEnd(s, LettersEnd(s, e + 2));
      if r.Some? then r else Some(e)
    else if WordAt(s, e) then None
    else Some(e)
  }

  // ---- the engine's lists -------------------------------------------------

  lemma {:induction false} ContinueBase(r: Re, s: string, i: nat, j: nat, starts: seq<nat>)
    requires i <= |s| && j <= |s|
    requires forall k | 0 <= k < |starts| :: i <= starts[k] <= |s| && j <= starts[k]
    ensures Continue(r, s, i, starts) == Continue(r, s, j, starts)
  {
    hide Ends;
    if starts != [] { ContinueBase(r, s, i, j, starts[1..]); }
  }

  lemma {:induction false} ContinueAppend(r: Re, s: string, i: nat, a: seq<nat>, b: seq<nat>)
    requires i <= |s|
    requires forall k | 0 <= k < |a| :: i <= a[k] <= |s|
    requires forall k | 0 <= k < |b| :: i <= b[k] <= |s|
    ensures Continue(r, s, i, a + b) == Continue(r, s, i, a) + Continue(r, s, i, b)
  {
    hide Ends;
    if a == [] {
      assert a + b == b;
    } else {
      assert (a + b)[1..] == a[1..] + b && (a + b)[0] == a[0];
      ContinueAppend(r, s, i, a[1..], b);
    }
  }

  lemma {:induction false} ContinueNone(r: Re, s: string, i: nat, starts: seq<nat>)
    requires i <= |s|
    requires forall k | 0 <= k < |starts| :: i <= starts[k] <= |s| && Ends(r, s, starts[k]) == []
    ensures Continue(r, s, i, starts) == []
  {
    hide Ends;
    if starts != [] { ContinueNone(r, s, i, starts[1..]); }
  }

  /** The letters of a word are taken greedily: first all of them, then one fewer at a time. */
  lemma {:induction false} LettersGreedy(s: string, i: nat)
    requires i <= |s|
    ensures var ms := Ends(Star(Chr(AlphaNum)), s, i);
            ms != [] && ms[0] == LettersEnd(s, i) && forall k | 1 <= k < |ms| :: i <= ms[k] < LettersEnd(s, i)
    decreases |s| - i
  {
    if AlphaNumAt(s, i) {
      LettersGreedy(s, i + 1);
      assert Ends(Chr(AlphaNum), s, i) == [i + 1];
      assert Repeat(Chr(AlphaNum), s, i, [i + 1]) == Ends(Star(Chr(AlphaNum)), s, i + 1);
      assert Ends(Star(Chr(AlphaNum)), s, i) == Ends(Star(Chr(AlphaNum)), s, i + 1) + [i];
    } else {
      assert Ends(Chr(AlphaNum), s, i) == [];
      assert Ends(Star(Chr(AlphaNum)), s, i) == [i];
    }
  }

  lemma CapitalisedEnds(s: string, i: nat)
    requires i <= |s|
    ensures UpperAt(s, i) ==> Ends(CAPITALISED, s, i) == Ends(Star(Chr(AlphaNum)), s, i + 1)
    ensures !UpperAt(s, i) ==> Ends(CAPITALISED, s, i) == []
  {
    if UpperAt(s, i) {
      assert Ends(Chr(CharClass.Upper), s, i) == [i + 1];
      CatSingle(Chr(CharClass.Upper), Star(Chr(AlphaNum)), s, i, i + 1);
    }
  }

  lemma LinkedEnds(s: string, e: nat)
    requires e <= |s|
    ensures LinkAt(s, e) ==> Ends(LINKED, s, e) == Ends(Star(Chr(AlphaNum)), s, e + 2)
    ensures !LinkAt(s, e) ==> Ends(LINKED, s, e) == []
  {
    var link := Either(OneOf({'-'}), Space);
    if e < |s| {
      assert OneOf({'-'}).Has(s[e]) <==> s[e] == '-';
      assert link.Has(s[e]) <==> s[e] == '-' || IsSpace(s[e]);
    }
    if e < |s| && (s[e] == '-' || IsSpace(s[e])) {
      CapitalisedEnds(s, e + 1);
      assert Ends(Chr(link), s, e) == [e + 1];
      CatSingle(Chr(link), CAPITALISED, s, e, e + 1);
    } else {
      assert Ends(Chr(link), s, e) == [];
    }
  }

  /** In the middle of a word nothing can follow. */
  lemma MidWord(s: string, m: nat)
    requires m < |s| && AlphaNumAt(s, m) && WordAt(s, m - 1)
    ensures Ends(Star(LINKED), s, m) == [m] && Ends(WordBoundary, s, m) == [] && Ends(REST, s, m) == []
  {
    hide Ends;
    BoundaryEnds(s, m);
    NoLinkInWord(s, m);
    RestOfNoLink(s, m);
    LinkedEnds(s, m);
    StarUnfolds(s, m);
  }

  lemma NoLinkInWord(s: string, m: nat)
    requires m < |s| && AlphaNumAt(s, m)
    ensures !LinkAt(s, m) && WordAt(s, m)
  {
  }

  /** Repetitions from inside a word all fail at the boundary. */
  lemma {:induction false} MidRepeats(s: string, e: nat, ms: seq<nat>)
    requires e <= |s|
    requires forall k | 0 <= k < |ms| :: e < ms[k] < |s| && AlphaNumAt(s, ms[k]) && WordAt(s, ms[k] - 1)
    ensures Continue(WordBoundary, s, e, Repeat(LINKED, s, e, ms)) == []
  {
    hide Ends, Continue, Repeat, AlphaNumAt, WordAt;
    if ms == [] {
      NothingRepeats(s, e);
    } else {
      var more := Repeat(LINKED, s, e, ms[1..]);
      MidRepeats(s, e, ms[1..]);
      MidWord(s, ms[0]);
      RepeatUnfolds(s, e, ms);
      ContinueNone(WordBoundary, s, e, [ms[0]]);
      ContinueAppend(WordBoundary, s, e, [ms[0]], more);
    }
  }

  lemma NothingRepeats(s: string, e: nat)
    requires e <= |s|
    ensures Continue(WordBoundary, s, e, Repeat(LINKED, s, e, [])) == []
  {
    hide Ends;
  }

  /** A linked word can be taken whole or cut short in its middle. */
  lemma LinkedWordEnds(s: string, e: nat)
    requires e <= |s| && LinkAt(s, e)
    ensures var ms := Ends(LINKED, s, e);
            && ms != [] && ms[0] == LettersEnd(s, e + 2)
            && forall k | 1 <= k < |ms| :: e < ms[k] < |s| && AlphaNumAt(s, ms[k]) && WordAt(s, ms[k] - 1)
  {
    LinkedEnds(s, e);
    LettersGreedy(s, e + 2);
    var ms := Ends(LINKED, s, e);
    hide Ends;
    forall k | 1 <= k < |ms| ensures e < ms[k] < |s| && AlphaNumAt(s, ms[k]) && WordAt(s, ms[k] - 1) {
      assert AlphaNumAt(s, ms[k]);
      assert ms[k] > e + 2 ==> AlphaNumAt(s, ms[k] - 1);
    }
  }

  /** Behind a word the engine tries the next linked word first and then stops here. */
  lemma RestOfLink(s: string, e: nat)
    requires e <= |s| && LinkAt(s, e)
    ensures Ends(REST, s, e) == Ends(REST, s, LettersEnd(s, e + 2)) + Ends(WordBoundary, s, e)
  {
    hide Ends, Continue, Repeat, LettersEnd, LinkAt, AlphaNumAt, WordAt;
    LinkedWordEnds(s, e);
    var q, ms := LettersEnd(s, e + 2), Ends(LINKED, s, e);
    var first, more := Ends(Star(LINKED), s, q), Repeat(LINKED, s, e, ms[1..]);
    LaterThanLink(s, e);
    RepeatUnfolds(s, e, ms);
    MidRepeats(s, e, ms[1..]);
    StarUnfolds(s, e);
    ContinueAppend(WordBoundary, s, e, first + more, [e]);
    ContinueAppend(WordBoundary, s, e, first, more);
    ContinueBase(WordBoundary, s, e, q, first);
    RestUnfolds(s, e);
    RestUnfolds(s, q);
    ContinueOne(s, e);
    assert Continue(WordBoundary, s, e, first) + [] == Continue(WordBoundary, s, e, first);
  }

  lemma LaterThanLink(s: string, e: nat)
    requires e <= |s| && LinkAt(s, e)
    ensures e < LettersEnd(s, e + 2)
  {
  }

  lemma RepeatUnfolds(s: string, e: nat, ms: seq<nat>)
    requires e <= |s| && ms != [] && ms[0] > e && forall k | 0 <= k < |ms| :: e <= ms[k] <= |s|
    ensures Repeat(LINKED, s, e, ms) == Ends(Star(LINKED), s, ms[0]) + Repeat(LINKED, s, e, ms[1..])
  {
  }

  lemma ContinueOne(s: string, e: nat)
    requires e <= |s|
    ensures Continue(WordBoundary, s, e, [e]) == Ends(WordBoundary, s, e)
  {
    assert Continue(WordBoundary, s, e, [e]) == Ends(WordBoundary, s, e) + Continue(WordBoundary, s, e, []);
  }

  lemma StarUnfolds(s: string, e: nat)
    requires e <= |s|
    ensures Ends(Star(LINKED), s, e) == Repeat(LINKED, s, e, Ends(LINKED, s, e)) + [e]
  {
  }

  lemma RestUnfolds(s: string, e: nat)
    requires e <= |s|
    ensures Ends(REST, s, e) == Continue(WordBoundary, s, e, Ends(Star(LINKED), s, e))
  {
  }

  lemma BoundaryEnds(s: string, e: nat)
    requires e <= |s| && WordAt(s, e - 1)
    ensures Ends(WordBoundary, s, e) == if WordAt(s, e) then [] else [e]
  {
  }

  /** Without a linked word the engine can only stop. */
  lemma RestOfNoLink(s: string, e: nat)
    requires e <= |s| && !LinkAt(s, e)
    ensures Ends(REST, s, e) == Ends(WordBoundary, s, e)
  {
    hide Ends;
    LinkedEnds(s, e);
    StarUnfolds(s, e);
    RestUnfolds(s, e);
    assert Ends(Star(LINKED), s, e) == [e];
    ContinueOne(s, e);
  }

  lemma {:induction false} RestFirst(s: string, e: nat)
    requires e <= |s| && WordAt(s, e - 1) && !AlphaNumAt(s, e)
    ensures Ends(REST, s, e) != [] <==> EntityEnd(s, e).Some?
    ensures Ends(REST, s, e) != [] ==> Ends(REST, s, e)[0] == EntityEnd(s, e).value
    decreases |s| - e
  {
    hide Ends, Continue, Repeat, LettersEnd;
    BoundaryEnds(s, e);
    if LinkAt(s, e) {
      var q := LettersEnd(s, e + 2);
      LastLetter(s, e + 1);
      RestFirst(s, q);
      RestOfLink(s, e);
    } else {
      RestOfNoLink(s, e);
    }
  }

  /** A word that begins with a capital ends behind a word character. */
  lemma LastLetter(s: string, a: nat)
    requires UpperAt(s, a)
    ensures WordAt(s, LettersEnd(s, a + 1) - 1) && LettersEnd(s, a + 1) > a
  {
    var e := LettersEnd(s, a + 1);
    assert e > a + 1 ==> AlphaNumAt(s, e - 1);
  }

  // ---- what an entity is --------------------------------------------------

  /** The engine's first choice, as a function of where the entity starts. */
  lemma EntityFirst(s: string, t: Span)
    requires FirstMatch(ENTITY, s, t)
    ensures UpperAt(s, t.lo) && !WordAt(s, t.lo - 1)
    ensures EntityEnd(s, LettersEnd(s, t.lo + 1)) == Some(t.hi)
  {
    hide Ends, Continue, Repeat, LettersEnd, EntityEnd, AlphaNumAt;
    var i := t.lo;
    NeedsBoundary(s, i);
    CapitalisedEnds(s, i);
    CapitalisedUnfolds(s, i);
    var ms := Ends(CAPITALISED, s, i);
    if !UpperAt(s, i) {
      ContinueNone(REST, s, i, []);
    } else {
      LettersGreedy(s, i + 1);
      LastLetter(s, i);
      RestAfterCapital(s, i, ms);
      RestFirst(s, LettersEnd(s, i + 1));
    }
  }

  lemma NeedsBoundary(s: string, i: nat)
    requires i <= |s|
    ensures Ends(ENTITY, s, i) == if AtBoundary(s, i) then Ends(Cat(CAPITALISED, REST), s, i) else []
  {
    if AtBoundary(s, i) {
      assert Ends(WordBoundary, s, i) == [i];
      CatSingle(WordBoundary, Cat(CAPITALISED, REST), s, i, i);
    } else {
      assert Ends(WordBoundary, s, i) == [];
    }
  }

  lemma CapitalisedUnfolds(s: string, i: nat)
    requires i <= |s|
    ensures Ends(Cat(CAPITALISED, REST), s, i) == Continue(REST, s, i, Ends(CAPITALISED, s, i))
  {
  }

  lemma RestAfterCapital(s: string, i: nat, ms: seq<nat>)
    requires UpperAt(s, i) && ms != [] && ms[0] == LettersEnd(s, i + 1)
    requires forall k | 1 <= k < |ms| :: i + 1 <= ms[k] < LettersEnd(s, i + 1)
    ensures Continue(REST, s, i, ms) == Ends(REST, s, ms[0])
  {
    hide Ends, LettersEnd;
    forall k | 1 <= k < |ms| ensures Ends(REST, s, ms[k]) == [] {
      assert AlphaNumAt(s, ms[k]);
      assert ms[k] > i + 1 ==> AlphaNumAt(s, ms[k] - 1);
      MidWord(s, ms[k]);
    }
    ContinueNone(REST, s, i, ms[1..]);
  }

  /** Between its ends an entity has letters and digits and single links between words, and it stops only where no
      further capitalised word is linked. */
  lemma {:induction false} EntityEndIs(s: string, e: nat)
    requires 0 < e <= |s| && AlphaNumAt(s, e - 1) && !AlphaNumAt(s, e) && EntityEnd(s, e).Some?
    ensures var h := EntityEnd(s, e).value;
            && (forall k | e <= k < h :: AlphaNumAt(s, k) || (LinkAt(s, k) && AlphaNumAt(s, k - 1)))
            && AlphaNumAt(s, h - 1) && !WordAt(s, h)
            && !(LinkAt(s, h) && !WordAt(s, LettersEnd(s, h + 2)))
    decreases |s| - e
  {
    if LinkAt(s, e) {
      var q := LettersEnd(s, e + 2);
      assert q > e + 2 ==> AlphaNumAt(s, q - 1);
      assert AlphaNumAt(s, e + 1);
      if EntityEnd(s, q).Some? {
        EntityEndIs(s, q);
      }
    }
  }

  /** Every entity begins with a capital at the start of a word and ends at the end of one; inside it are letters and
      digits, and hyphens or spaces between a word and a capital. */
  lemma EntityShape(s: string, k: nat)
    requires k < |Entities(s)|
    ensures var t := Entities(s)[k];
            && IsUpper(s[t.lo]) && !WordAt(s, t.lo - 1) && AlphaNumAt(s, t.hi - 1) && !WordAt(s, t.hi)
            && forall i | t.lo <= i < t.hi ::
                 AlphaNumAt(s, i) || (t.lo < i < t.hi - 1 && LinkAt(s, i) && AlphaNumAt(s, i - 1))
  {
    EntityConsumes();
    FoundIsFirst(ENTITY, s, 0);
    var t := Entities(s)[k];
    hide Ends, Entities;
    EntityFirst(s, t);
    var e := LettersEnd(s, t.lo + 1);
    assert e > t.lo + 1 ==> AlphaNumAt(s, e - 1);
    assert AlphaNumAt(s, t.lo);
    EntityEndIs(s, e);
  }

  lemma StopsUnlinked(s: string, k: nat)
    requires k < |Entities(s)|
    ensures var h := Entities(s)[k].hi; !(LinkAt(s, h) && !WordAt(s, LettersEnd(s, h + 2)))
  {
    EntityConsumes();
    FoundIsFirst(ENTITY, s, 0);
    var t := Entities(s)[k];
    hide Ends, Entities;
    EntityFirst(s, t);
    var e := LettersEnd(s, t.lo + 1);
    assert e > t.lo + 1 ==> AlphaNumAt(s, e - 1);
    assert AlphaNumAt(s, t.lo);
    EntityEndIs(s, e);
  }

  /** Two capitalised words with one hyphen or space between them lie in the same entity. */
  lemma LinkedWordsShareAnEntity(s: string, a: nat, b: nat, c: nat) returns (k: nat)
    requires CapitalisedWord(s, a, b) && b < |s| && (s[b] == '-' || IsSpace(s[b])) && CapitalisedWord(s, b + 1, c)
    ensures k < |Entities(s)| && Entities(s)[k].lo <= a && c <= Entities(s)[k].hi
  {
    k := CapitalisedWordsAreScanned(s, a, b);
    EntityShape(s, k);
    StopsUnlinked(s, k);
    hide Ends, Entities;
    var t := Entities(s)[k];
    LettersEndOfWord(s, b + 2, c);
    assert t.hi != b;
    assert forall i: int | b + 1 <= i < c :: AlphaNumAt(s, i) && WordAt(s, i);
    if t.hi < c { assert !WordAt(s, t.hi); }
  }

  lemma {:induction false} LettersEndOfWord(s: string, i: nat, c: nat)
    requires i <= c <= |s| && !WordAt(s, c) && forall k | i <= k < c :: AlphaNumAt(s, k)
    ensures LettersEnd(s, i) == c
    decreases c - i
  {
    if i < c { LettersEndOfWord(s, i + 1, c); }
  }
}
