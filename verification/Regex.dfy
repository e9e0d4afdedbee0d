/** Python's backtracking regular expressions, as far as the fact-checker's two
    patterns need them.

    `Ends(r, s, i)` lists every position at which r, started at i, can stop, in
    the order the backtracking engine tries them: left alternative first, one
    more repetition before one fewer. `re` reports the first one. `FindAll` is
    `re.findall` for patterns that never match the empty string. */
module Regex {
  import opened Text

  datatype CharClass = Digit | Upper | AlphaNum | Space | OneOf(cs: set<char>) | Either(a: CharClass, b: CharClass) {
    predicate Has(c: char) {
      match this
      case Digit => IsDigit(c)
      case Upper => IsUpper(c)
      case AlphaNum => IsDigit(c) || IsUpper(c) || IsLower(c)
      case Space => IsSpace(c)
      case OneOf(cs) => c in cs
      case Either(a, b) => a.Has(c) || b.Has(c)
    }
  }

  datatype Re =
    | Chr(cls: CharClass)
    | WordBoundary
    | Cat(first: Re, second: Re)
    | Alt(left: Re, right: Re)
    | Star(body: Re)

  function Plus(r: Re): Re { Cat(r, Star(r)) }

  predicate WordAt(s: string, i: int) { 0 <= i < |s| && IsWordChar(s[i]) }

  /** `\b`: exactly one neighbour of position i is a word character. */
  predicate AtBoundary(s: string, i: int) { WordAt(s, i - 1) != WordAt(s, i) }

  function Ends(r: Re, s: string, i: nat): (es: seq<nat>)
    requires i <= |s|
    ensures forall k | 0 <= k < |es| :: i <= es[k] <= |s|
    decreases r, |s| - i, 1, 0
  {
    match r
    case Chr(c) => if i < |s| && c.Has(s[i]) then [i + 1] else []
    case WordBoundary => if AtBoundary(s, i) then [i] else []
    case Cat(a, b) => Continue(b, s, i, Ends(a, s, i))
    case Alt(a, b) => Ends(a, s, i) + Ends(b, s, i)
    case Star(a) => Repeat(a, s, i, Ends(a, s, i)) + [i]
  }

  /** Run r from each of the given positions in turn. */
  function Continue(r: Re, s: string, i: nat, starts: seq<nat>): (es: seq<nat>)
    requires i <= |s|
    requires forall k | 0 <= k < |starts| :: i <= starts[k] <= |s|
    ensures forall k | 0 <= k < |es| :: i <= es[k] <= |s|
    decreases r, |s| + 1, 0, |starts|
  {
    if starts == [] then [] else Ends(r, s, starts[0]) + Continue(r, s, i, starts[1..])
  }

  /** Repeat `a` from each position it advanced to; a repetition that consumed nothing is not repeated. */
  function Repeat(a: Re, s: string, i: nat, starts: seq<nat>): (es: seq<nat>)
    requires i <= |s|
    requires forall k | 0 <= k < |starts| :: i <= starts[k] <= |s|
    ensures forall k | 0 <= k < |es| :: i <= es[k] <= |s|
    decreases Star(a), |s| - i, 0, |starts|
  {
    if starts == [] then []
    else (if starts[0] > i then Ends(Star(a), s, starts[0]) else []) + Repeat(a, s, i, starts[1..])
  }

  // ---- reading the list of ends -------------------------------------------

  lemma ContinueMember(r: Re, s: string, i: nat, starts: seq<nat>, e: nat)
    requires i <= |s|
    requires forall k | 0 <= k < |starts| :: i <= starts[k] <= |s|
    ensures e in Continue(r, s, i, starts) <==> exists k | 0 <= k < |starts| :: e in Ends(r, s, starts[k])
  {
    if starts != [] {
      ContinueMember(r, s, i, starts[1..], e);
      if k :| 0 <= k < |starts| && e in Ends(r, s, starts[k]) {
        assert k > 0 ==> starts[1..][k - 1] == starts[k];
      }
      if k :| 0 <= k < |starts[1..]| && e in Ends(r, s, starts[1..][k]) {
        assert starts[k + 1] == starts[1..][k];
      }
    }
  }

  lemma RepeatMember(a: Re, s: string, i: nat, starts: seq<nat>, e: nat)
    requires i <= |s|
    requires forall k | 0 <= k < |starts| :: i <= starts[k] <= |s|
    ensures e in Repeat(a, s, i, starts)
        <==> exists k | 0 <= k < |starts| :: starts[k] > i && e in Ends(Star(a), s, starts[k])
  {
    if starts != [] {
      RepeatMember(a, s, i, starts[1..], e);
      if k :| 0 <= k < |starts| && starts[k] > i && e in Ends(Star(a), s, starts[k]) {
        assert k > 0 ==> starts[1..][k - 1] == starts[k];
      }
      if k :| 0 <= k < |starts[1..]| && starts[1..][k] > i && e in Ends(Star(a), s, starts[1..][k]) {
        assert starts[k + 1] == starts[1..][k];
      }
    }
  }

  /** r can match s[i..e]. */
  predicate Matches(r: Re, s: string, i: nat, e: nat)
    requires i <= |s|
  {
    e in Ends(r, s, i)
  }

  lemma CatMatch(a: Re, b: Re, s: string, i: nat, m: nat, e: nat)
    requires i <= |s| && Matches(a, s, i, m) && Matches(b, s, m, e)
    ensures Matches(Cat(a, b), s, i, e)
  {
    ContinueMember(b, s, i, Ends(a, s, i), e);
    var k :| 0 <= k < |Ends(a, s, i)| && Ends(a, s, i)[k] == m;
  }

  lemma CatSplit(a: Re, b: Re, s: string, i: nat, e: nat) returns (m: nat)
    requires i <= |s| && Matches(Cat(a, b), s, i, e)
    ensures i <= m <= |s| && Matches(a, s, i, m) && Matches(b, s, m, e)
  {
    ContinueMember(b, s, i, Ends(a, s, i), e);
    var k :| 0 <= k < |Ends(a, s, i)| && e in Ends(b, s, Ends(a, s, i)[k]);
    m := Ends(a, s, i)[k];
  }

  /** A match of a star that consumed something starts with a match of its body. */
  lemma StarSplit(a: Re, s: string, i: nat, e: nat) returns (m: nat)
    requires i <= |s| && Matches(Star(a), s, i, e) && e != i
    ensures i < m <= |s| && Matches(a, s, i, m) && Matches(Star(a), s, m, e)
  {
    var ms := Ends(a, s, i);
    RepeatMember(a, s, i, ms, e);
    var j :| 0 <= j < |ms| && ms[j] > i && e in Ends(Star(a), s, ms[j]);
    m := ms[j];
  }

  /** A match of the body followed by a match of the star is a match of the star. */
  lemma StarStep(a: Re, s: string, i: nat, m: nat, e: nat)
    requires i < m <= |s| && Matches(a, s, i, m) && Matches(Star(a), s, m, e)
    ensures Matches(Star(a), s, i, e)
  {
    var ms := Ends(a, s, i);
    RepeatMember(a, s, i, ms, e);
    var j :| 0 <= j < |ms| && ms[j] == m;
  }

  /** The engine's first choice through a concatenation, when it does not have to backtrack. */
  lemma CatFirst(a: Re, b: Re, s: string, i: nat)
    requires i <= |s| && Ends(a, s, i) != [] && Ends(b, s, Ends(a, s, i)[0]) != []
    ensures Ends(Cat(a, b), s, i) != []
    ensures Ends(Cat(a, b), s, i)[0] == Ends(b, s, Ends(a, s, i)[0])[0]
  {
  }

  /** When the first part has one way to match, the rest decides. */
  lemma CatSingle(a: Re, b: Re, s: string, i: nat, m: nat)
    requires i <= |s| && Ends(a, s, i) == [m]
    ensures m <= |s| && Ends(Cat(a, b), s, i) == Ends(b, s, m)
  {
    assert m == Ends(a, s, i)[0];
    assert Continue(b, s, i, [m]) == Ends(b, s, m) + Continue(b, s, i, []);
  }

  /** A greedy star repeats for as long as its body advances. */
  lemma StarFirst(a: Re, s: string, i: nat)
    requires i <= |s|
    ensures Ends(Star(a), s, i) != []
    ensures Ends(a, s, i) == [] ==> Ends(Star(a), s, i)[0] == i
    ensures Ends(a, s, i) != [] && Ends(a, s, i)[0] > i ==>
              && Ends(Star(a), s, Ends(a, s, i)[0]) != []
              && Ends(Star(a), s, i)[0] == Ends(Star(a), s, Ends(a, s, i)[0])[0]
  {
    if Ends(a, s, i) != [] && Ends(a, s, i)[0] > i {
      StarNonEmpty(a, s, Ends(a, s, i)[0]);
    }
  }

  lemma StarNonEmpty(a: Re, s: string, i: nat)
    requires i <= |s|
    ensures Ends(Star(a), s, i) != [] && i in Ends(Star(a), s, i)
  {
  }

  // ---- patterns that consume ----------------------------------------------

  /** Every match of r is non-empty. */
  predicate Consumes(r: Re) {
    match r
    case Chr(_) => true
    case WordBoundary => false
    case Cat(a, b) => Consumes(a) || Consumes(b)
    case Alt(a, b) => Consumes(a) && Consumes(b)
    case Star(_) => false
  }

  lemma {:induction false} ConsumesAdvances(r: Re, s: string, i: nat, e: nat)
    requires i <= |s| && Consumes(r) && Matches(r, s, i, e)
    ensures i < e <= |s|
    decreases r
  {
    match r
    case Chr(_) =>
    case Cat(a, b) =>
      var m := CatSplit(a, b, s, i, e);
      if Consumes(a) {
        ConsumesAdvances(a, s, i, m);
      } else {
        ConsumesAdvances(b, s, m, e);
      }
    case Alt(a, b) =>
      if e in Ends(a, s, i) {
        ConsumesAdvances(a, s, i, e);
      } else {
        ConsumesAdvances(b, s, i, e);
      }
  }

  /** Characters that some part of the pattern can consume. */
  predicate Allows(r: Re, c: char) {
    match r
    case Chr(cls) => cls.Has(c)
    case WordBoundary => false
    case Cat(a, b) => Allows(a, c) || Allows(b, c)
    case Alt(a, b) => Allows(a, c) || Allows(b, c)
    case Star(a) => Allows(a, c)
  }

  lemma {:induction false} MatchAllows(r: Re, s: string, i: nat, e: nat, k: nat)
    requires i <= |s| && Matches(r, s, i, e) && i <= k < e
    ensures e <= |s| && Allows(r, s[k])
    decreases r, |s| - i
  {
    match r
    case Chr(_) =>
    case WordBoundary =>
    case Cat(a, b) =>
      var m := CatSplit(a, b, s, i, e);
      if k < m {
        MatchAllows(a, s, i, m, k);
      } else {
        MatchAllows(b, s, m, e, k);
      }
    case Alt(a, b) =>
      if e in Ends(a, s, i) {
        MatchAllows(a, s, i, e, k);
      } else {
        MatchAllows(b, s, i, e, k);
      }
    case Star(a) =>
      var m := StarSplit(a, s, i, e);
      if k < m {
        MatchAllows(a, s, i, m, k);
      } else {
        MatchAllows(r, s, m, e, k);
      }
  }

  // ---- findall ------------------------------------------------------------

  /** A token occupies s[lo..hi]. */
  datatype Span = Span(lo: nat, hi: nat)

  function Extract(s: string, t: Span): string
    requires t.lo <= t.hi <= |s|
  {
    s[t.lo..t.hi]
  }

  /** The matches found from position p on, left to right and never overlapping. */
  function FindAll(r: Re, s: string, p: nat): (ts: seq<Span>)
    requires p <= |s| && Consumes(r)
    ensures forall k | 0 <= k < |ts| :: p <= ts[k].lo < ts[k].hi <= |s|
    ensures forall j, k | 0 <= j < k < |ts| :: ts[j].hi <= ts[k].lo
    decreases |s| - p
  {
    if p == |s| then []
    else
      var es := Ends(r, s, p);
      if es == [] then FindAll(r, s, p + 1)
      else
        ConsumesAdvances(r, s, p, es[0]);
        [Span(p, es[0])] + FindAll(r, s, es[0])
  }

  /** t is what the engine reports when it tries r at t.lo. */
  predicate FirstMatch(r: Re, s: string, t: Span) {
    t.lo < t.hi <= |s| && Ends(r, s, t.lo) != [] && Ends(r, s, t.lo)[0] == t.hi
  }

  predicate Covers(t: Span, k: int) { t.lo <= k < t.hi }

  /** Every reported token is the engine's first choice where it starts, and tokens come in order without overlap. */
  lemma {:induction false} FoundIsFirst(r: Re, s: string, p: nat)
    requires p <= |s| && Consumes(r)
    ensures forall k | 0 <= k < |FindAll(r, s, p)| :: FirstMatch(r, s, FindAll(r, s, p)[k])
    ensures forall j, k | 0 <= j < k < |FindAll(r, s, p)| :: FindAll(r, s, p)[j].hi <= FindAll(r, s, p)[k].lo
    decreases |s| - p
  {
    if p < |s| {
      var es := Ends(r, s, p);
      if es == [] {
        FoundIsFirst(r, s, p + 1);
      } else {
        ConsumesAdvances(r, s, p, es[0]);
        FoundIsFirst(r, s, es[0]);
      }
    }
  }

  /** Leftmost matching: a position at which r could start lies inside a reported token. */
  lemma {:induction false} Leftmost(r: Re, s: string, p: nat, q: nat) returns (k: nat)
    requires p <= q < |s| && Consumes(r) && Ends(r, s, q) != []
    ensures k < |FindAll(r, s, p)| && Covers(FindAll(r, s, p)[k], q)
    decreases |s| - p
  {
    var es := Ends(r, s, p);
    if es == [] {
      k := Leftmost(r, s, p + 1, q);
    } else {
      ConsumesAdvances(r, s, p, es[0]);
      if q < es[0] {
        k := 0;
      } else {
        k := Leftmost(r, s, es[0], q);
        k := k + 1;
      }
    }
  }
}
