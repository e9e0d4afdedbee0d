/** Strings as Python sees them, over ASCII: character classes, `str.split()`,
    `str.join`, `str.strip`, substring search and case mapping. */
module Text {

  predicate IsDigit(c: char) { '0' <= c <= '9' }

  predicate IsUpper(c: char) { 'A' <= c <= 'Z' }

  predicate IsLower(c: char) { 'a' <= c <= 'z' }

  /** The class `\w`. */
  predicate IsWordChar(c: char) { IsDigit(c) || IsUpper(c) || IsLower(c) || c == '_' }

  /** The class `\s`, which is also what `split()` and `strip()` drop. */
  predicate IsSpace(c: char) { c == ' ' || 9 <= c as int <= 13 || 28 <= c as int <= 31 }

  predicate AllDigits(s: string) { forall i | 0 <= i < |s| :: IsDigit(s[i]) }

  predicate NoSpace(s: string) { forall i | 0 <= i < |s| :: !IsSpace(s[i]) }

  predicate OccursAt(pat: string, s: string, i: int) {
    0 <= i <= |s| - |pat| && s[i..i + |pat|] == pat
  }

  /** Python's `pat in s`. */
  predicate Contains(s: string, pat: string) {
    exists i | 0 <= i <= |s| :: OccursAt(pat, s, i)
  }

  /** pat is a slice of s. */
  ghost predicate IsSlice(pat: string, s: string) { exists lo, hi | 0 <= lo <= hi <= |s| :: s[lo..hi] == pat }

  lemma ContainsIsSlice(s: string, pat: string)
    ensures Contains(s, pat) <==> IsSlice(pat, s)
  {
    if Contains(s, pat) {
      var i :| 0 <= i <= |s| && OccursAt(pat, s, i);
      assert s[i..i + |pat|] == pat;
    }
    if lo, hi :| 0 <= lo <= hi <= |s| && s[lo..hi] == pat {
      assert hi == lo + |pat|;
      assert OccursAt(pat, s, lo);
    }
  }

  predicate StartsWith(s: string, pat: string) { pat <= s }

  /** A pattern whose first character is absent does not occur. */
  lemma FirstCharAbsent(s: string, pat: string)
    requires pat != "" && pat[0] !in s
    ensures !Contains(s, pat)
  {
    forall i: int ensures !OccursAt(pat, s, i) {
      if 0 <= i <= |s| - |pat| { assert s[i..i + |pat|][0] == s[i]; }
    }
  }

  /** A pattern whose first two characters are never adjacent does not occur. */
  lemma BigramAbsent(s: string, pat: string)
    requires |pat| >= 2
    requires forall i | 0 <= i < |s| - 1 && s[i] == pat[0] :: s[i + 1] != pat[1]
    ensures !Contains(s, pat)
  {
    forall i: int ensures !OccursAt(pat, s, i) {
      if 0 <= i <= |s| - |pat| {
        var w := s[i..i + |pat|];
        assert w[0] == s[i] && w[1] == s[i + 1];
      }
    }
  }

  // ---- join ---------------------------------------------------------------

  function Join(sep: string, parts: seq<string>): string {
    if |parts| == 0 then ""
    else if |parts| == 1 then parts[0]
    else parts[0] + sep + Join(sep, parts[1..])
  }

  // ---- split --------------------------------------------------------------

  /** Length of the longest prefix whose characters all satisfy p. */
  function LeadingRun(s: string, p: char -> bool): (n: nat)
    ensures n <= |s| && forall i | 0 <= i < n :: p(s[i])
    ensures n < |s| ==> !p(s[n])
  {
    if s == "" || !p(s[0]) then 0 else 1 + LeadingRun(s[1..], p)
  }

  lemma {:induction false} LeadingRunPrefix(a: string, rest: string, p: char -> bool)
    requires (forall i | 0 <= i < |a| :: p(a[i])) && (rest == "" || !p(rest[0]))
    ensures LeadingRun(a + rest, p) == |a|
  {
    if a == "" {
      assert a + rest == rest;
    } else {
      assert (a + rest)[1..] == a[1..] + rest;
      LeadingRunPrefix(a[1..], rest, p);
    }
  }

  function WordSpan(s: string): (n: nat)
    ensures n <= |s| && NoSpace(s[..n])
    ensures n < |s| ==> IsSpace(s[n])
  {
    LeadingRun(s, c => !IsSpace(c))
  }

  /** `s.split()`: maximal runs of non-space characters. */
  function Words(s: string): (ws: seq<string>)
    ensures AreWords(ws)
  {
    if s == "" then []
    else if IsSpace(s[0]) then Words(s[1..])
    else
      var n := WordSpan(s);
      [s[..n]] + Words(s[n..])
  }

  predicate AreWords(ws: seq<string>) {
    forall i | 0 <= i < |ws| :: ws[i] != "" && NoSpace(ws[i])
  }

  lemma WordSpanPrefix(w: string, rest: string)
    requires NoSpace(w) && (rest == "" || IsSpace(rest[0]))
    ensures WordSpan(w + rest) == |w|
  {
    LeadingRunPrefix(w, rest, c => !IsSpace(c));
  }

  lemma {:induction false} NonBlankHasWords(s: string, i: nat)
    requires i < |s| && !IsSpace(s[i])
    ensures Words(s) != []
  {
    if IsSpace(s[0]) { NonBlankHasWords(s[1..], i - 1); }
  }

  /** Splitting a single-space join gives back exactly the joined words. */
  lemma {:induction false} SplitOfJoin(ws: seq<string>)
    requires AreWords(ws)
    ensures Words(Join(" ", ws)) == ws
  {
    if |ws| == 1 {
      WordSpanPrefix(ws[0], "");
      assert ws[0] + "" == ws[0];
      assert Words(ws[0]) == [ws[0][..|ws[0]|]] + Words(ws[0][|ws[0]|..]);
    } else if |ws| > 1 {
      var tail := Join(" ", ws[1..]);
      var s := ws[0] + (" " + tail);
      assert Join(" ", ws) == s;
      WordSpanPrefix(ws[0], " " + tail);
      assert s[..|ws[0]|] == ws[0] && s[|ws[0]|..] == " " + tail;
      assert (" " + tail)[1..] == tail;
      SplitOfJoin(ws[1..]);
      assert Words(s) == [ws[0]] + Words(" " + tail);
    }
  }

  /** A text without spaces is one word. */
  lemma OneWord(w: string)
    requires w != "" && NoSpace(w)
    ensures Words(w) == [w] && Words("") == []
  {
    WordSpanPrefix(w, "");
    assert w + "" == w;
    assert Words(w) == [w[..|w|]] + Words(w[|w|..]);
  }

  /** A space separates words, and any number of spaces separates no more than one. */
  lemma {:induction false} WordsAround(a: string, c: char, b: string)
    requires IsSpace(c)
    ensures Words(a + ([c] + b)) == Words(a) + Words(b)
    decreases |a|
  {
    var s := a + ([c] + b);
    if a == "" {
      assert s[0] == c && s[1..] == b;
    } else if IsSpace(a[0]) {
      assert s[1..] == a[1..] + ([c] + b);
      WordsAround(a[1..], c, b);
    } else {
      hide Words, IsSpace;
      var n := WordSpan(a);
      var w, rest := a[..n], a[n..];
      assert s == w + (rest + ([c] + b)) && a == w + rest;
      FirstWord(w, rest + ([c] + b));
      FirstWord(w, rest);
      WordsAround(rest, c, b);
      assert [w] + Words(rest) + Words(b) == [w] + (Words(rest) + Words(b));
    }
  }

  lemma FirstWord(w: string, rest: string)
    requires w != "" && NoSpace(w) && (rest == "" || IsSpace(rest[0]))
    ensures Words(w + rest) == [w] + Words(rest)
  {
    WordSpanPrefix(w, rest);
    assert (w + rest)[..|w|] == w && (w + rest)[|w|..] == rest;
  }

  lemma {:induction false} FewerWordsThanChars(s: string)
    ensures |Words(s)| <= |s|
  {
    if s != "" {
      if IsSpace(s[0]) {
        FewerWordsThanChars(s[1..]);
      } else {
        FewerWordsThanChars(s[WordSpan(s)..]);
      }
    }
  }

  // ---- strip --------------------------------------------------------------

  function LStrip(s: string): string {
    if s != "" && IsSpace(s[0]) then LStrip(s[1..]) else s
  }

  function RStrip(s: string): string {
    if s != "" && IsSpace(s[|s| - 1]) then RStrip(s[..|s| - 1]) else s
  }

  function Strip(s: string): string { RStrip(LStrip(s)) }

  lemma LStripShape(s: string)
    ensures LStrip(s) == "" || !IsSpace(LStrip(s)[0])
  {
  }

  lemma RStripShape(s: string)
    ensures RStrip(s) <= s
    ensures RStrip(s) == "" || !IsSpace(RStrip(s)[|RStrip(s)| - 1])
  {
  }

  /** Stripping keeps a string that neither starts nor ends with a space, and a second strip does nothing. */
  lemma StripTrimmed(s: string)
    ensures s == "" || (!IsSpace(s[0]) && !IsSpace(s[|s| - 1])) ==> Strip(s) == s
    ensures Strip(Strip(s)) == Strip(s)
  {
    LStripShape(s);
    RStripShape(LStrip(s));
  }

  /** What is left is a slice that begins and ends with no space, and only spaces are gone. */
  lemma StripIs(s: string) returns (lo: nat, hi: nat)
    ensures lo <= hi <= |s| && Strip(s) == s[lo..hi]
    ensures forall i | 0 <= i < |s| && (i < lo || hi <= i) :: IsSpace(s[i])
    ensures lo < hi ==> !IsSpace(s[lo]) && !IsSpace(s[hi - 1])
  {
    hide LStrip, RStrip, IsSpace;
    lo := LStripIs(s);
    var rest := s[lo..];
    var n := RStripIs(rest);
    LStripShape(s);
    RStripShape(rest);
    hi := lo + n;
    assert rest[..n] == s[lo..hi];
    forall i | hi <= i < |s| ensures IsSpace(s[i]) { assert s[i] == rest[i - lo]; }
  }

  lemma {:induction false} LStripIs(s: string) returns (lo: nat)
    ensures lo <= |s| && LStrip(s) == s[lo..] && forall i | 0 <= i < lo :: IsSpace(s[i])
  {
    lo := 0;
    if s != "" && IsSpace(s[0]) {
      lo := LStripIs(s[1..]);
      assert s[1..][lo..] == s[lo + 1..];
      assert forall i | 0 < i <= lo :: s[i] == s[1..][i - 1];
      lo := lo + 1;
    }
  }

  lemma {:induction false} RStripIs(s: string) returns (hi: nat)
    ensures hi <= |s| && RStrip(s) == s[..hi] && forall i | hi <= i < |s| :: IsSpace(s[i])
  {
    hi := |s|;
    if s != "" && IsSpace(s[|s| - 1]) {
      hi := RStripIs(s[..|s| - 1]);
    }
  }

  // ---- case ---------------------------------------------------------------

  function UpperChar(c: char): char { if IsLower(c) then (c as int - 32) as char else c }

  function LowerChar(c: char): char { if IsUpper(c) then (c as int + 32) as char else c }

  function Upper(s: string): (u: string)
    ensures |u| == |s| && forall i | 0 <= i < |s| :: u[i] == UpperChar(s[i])
  {
    seq(|s|, i requires 0 <= i < |s| => UpperChar(s[i]))
  }

  function Lower(s: string): (u: string)
    ensures |u| == |s| && forall i | 0 <= i < |s| :: u[i] == LowerChar(s[i])
  {
    seq(|s|, i requires 0 <= i < |s| => LowerChar(s[i]))
  }

  lemma UpperOfUpper(s: string)
    requires forall i | 0 <= i < |s| :: !IsLower(s[i])
    ensures Upper(s) == s
  {
  }

  /** `UpperChar` and `LowerChar` identify the same pairs of characters. */
  lemma SameCaseFold(a: char, b: char)
    ensures UpperChar(a) == UpperChar(b) <==> LowerChar(a) == LowerChar(b)
  {
  }

  /** Searching for a phrase in upper case or in lower case finds it at the same places. */
  lemma CaseInsensitiveSearch(s: string, pat: string)
    ensures Contains(Upper(s), Upper(pat)) <==> Contains(Lower(s), Lower(pat))
  {
    forall i: int
      ensures OccursAt(Upper(pat), Upper(s), i) <==> OccursAt(Lower(pat), Lower(s), i)
    {
      if 0 <= i <= |s| - |pat| {
        var u, l := Upper(s)[i..i + |pat|], Lower(s)[i..i + |pat|];
        forall k | 0 <= k < |pat|
          ensures u[k] == Upper(pat)[k] <==> l[k] == Lower(pat)[k]
        {
          SameCaseFold(s[i + k], pat[k]);
        }
        if u == Upper(pat) {
          forall k | 0 <= k < |pat| ensures l[k] == Lower(pat)[k] { assert u[k] == Upper(pat)[k]; }
        }
        if l == Lower(pat) {
          forall k | 0 <= k < |pat| ensures u[k] == Upper(pat)[k] { assert l[k] == Lower(pat)[k]; }
        }
      }
    }
  }
}
