/** The sign-off cell parser `^[A-Z]{2,4}\s*[—-]\s*\d{4}-\d{2}-\d{2}\s*$`. */
module Signoffs {
  import opened Text
  import opened Decimals
  import opened Corpus

  datatype Signoff = Signoff(initials: string, date: Date)

  function UpperSpan(s: string): (n: nat)
    ensures n <= |s| && forall i | 0 <= i < n :: IsUpper(s[i])
    ensures n < |s| ==> !IsUpper(s[n])
  {
    LeadingRun(s, IsUpper)
  }

  /** `\d{4}-\d{2}-\d{2}` and nothing after it. */
  predicate IsDateShape(s: string) {
    |s| == 10 && AllDigits(s[..4]) && s[4] == '-' && AllDigits(s[5..7]) && s[7] == '-' && AllDigits(s[8..])
  }

  /** `datetime.fromisoformat`, which rejects dates that do not exist. */
  function ParseDate(s: string): Option<Date> {
    if !IsDateShape(s) then None
    else
      var d := Date(ParseNat(s[..4]), ParseNat(s[5..7]), ParseNat(s[8..]));
      if ValidDate(d) then Some(d) else None
  }

  predicate IsDash(c: char) { c == '—' || c == '-' }

  function ParseSignoff(value: string): Option<Signoff> {
    var s := Strip(value);
    var n := UpperSpan(s);
    if !(2 <= n <= 4) then None
    else
      var rest := LStrip(s[n..]);
      if rest == "" || !IsDash(rest[0]) then None
      else
        match ParseDate(LStrip(rest[1..]))
        case None => None
        case Some(d) => Some(Signoff(s[..n], d))
  }

  predicate IsInitials(s: string) { 2 <= |s| <= 4 && forall i | 0 <= i < |s| :: IsUpper(s[i]) }

  lemma ShrSmall(n: nat)
    ensures n < 100 ==> Shr(n, 2) == 0
    ensures n < 10000 ==> Shr(n, 4) == 0
  {
    assert Shr(n, 2) == Shr(n / 10, 1) == Shr(n / 10 / 10, 0);
    assert Shr(n, 4) == Shr(n / 10, 3) == Shr(n / 10 / 10, 2) == Shr(n / 10 / 10 / 10, 1);
  }

  lemma DateRoundTrip(d: Date)
    requires ValidDate(d)
    ensures ParseDate(DateText(d)) == Some(d)
  {
    hide Padded;
    hide ParseNat;
    var s := DateText(d);
    assert s[..4] == Padded(d.year, 4) && s[5..7] == Padded(d.month, 2) && s[8..] == Padded(d.day, 2);
    ShrSmall(d.year);
    ShrSmall(d.month);
    ShrSmall(d.day);
    PaddedRoundTrip(d.year, 4);
    PaddedRoundTrip(d.month, 2);
    PaddedRoundTrip(d.day, 2);
  }

  lemma UpperSpanPrefix(a: string, rest: string)
    requires (forall i | 0 <= i < |a| :: IsUpper(a[i])) && (rest == "" || !IsUpper(rest[0]))
    ensures UpperSpan(a + rest) == |a|
  {
    LeadingRunPrefix(a, rest, IsUpper);
  }

  lemma TextShape(initials: string, d: Date)
    requires IsInitials(initials) && ValidDate(d)
    ensures var s := SignoffText(initials, d);
            && Strip(s) == s && UpperSpan(s) == |initials|
            && s[..|initials|] == initials && s[|initials|..] == " — " + DateText(d)
  {
    hide Padded, ValidDate;
    var t, s := DateText(d), SignoffText(initials, d);
    assert IsDigit(t[9]) by { assert t[9] == Padded(d.day, 2)[1]; }
    assert s[0] == initials[0] && s[|s| - 1] == t[9];
    hide DateText, Strip;
    StripTrimmed(s);
    UpperSpanPrefix(initials, " — " + t);
  }

  lemma RestShape(t: string)
    requires t != "" && !IsSpace(t[0])
    ensures LStrip(" — " + t) == "— " + t
    ensures ("— " + t)[1..] == " " + t && LStrip(" " + t) == t
  {
    assert (" — " + t)[1..] == "— " + t && (" " + t)[1..] == t;
  }

  /** The parser recovers exactly the initials and the date the writers print. */
  lemma SignoffRoundTrip(initials: string, d: Date)
    requires IsInitials(initials) && ValidDate(d)
    ensures ParseSignoff(SignoffText(initials, d)) == Some(Signoff(initials, d))
  {
    hide ParseDate, Padded;
    var t := DateText(d);
    assert IsDigit(t[0]) by { assert t[0] == Padded(d.year, 4)[0]; }
    hide DateText, Strip, LStrip, UpperSpan, ValidDate;
    TextShape(initials, d);
    RestShape(t);
    DateRoundTrip(d);
  }

  /** Whatever is parsed has two to four capitals and a date that exists. */
  lemma ParsedSignoffIsValid(value: string)
    ensures ParseSignoff(value).Some? ==>
              IsInitials(ParseSignoff(value).value.initials) && ValidDate(ParseSignoff(value).value.date)
  {
  }

  predicate AllSpaces(s: string) { forall i | 0 <= i < |s| :: IsSpace(s[i]) }

  lemma {:induction false} SkipsSpaces(sp: string, t: string)
    requires AllSpaces(sp) && t != "" && !IsSpace(t[0])
    ensures LStrip(sp + t) == t
  {
    if sp == "" {
      assert sp + t == t;
    } else {
      assert (sp + t)[1..] == sp[1..] + t;
      SkipsSpaces(sp[1..], t);
    }
  }

  lemma DateEnds(d: Date)
    ensures !IsSpace(DateText(d)[0]) && !IsSpace(DateText(d)[9])
  {
    hide Padded;
    var t := DateText(d);
    assert t[0] == Padded(d.year, 4)[0] && t[9] == Padded(d.day, 2)[1];
  }

  /** Any spaces around an em dash or a hyphen are accepted. */
  lemma SpacedSignoff(initials: string, before: string, dash: char, after: string, d: Date)
    requires IsInitials(initials) && AllSpaces(before) && AllSpaces(after) && dash in {'—', '-'} && ValidDate(d)
    ensures ParseSignoff(initials + (before + ([dash] + (after + DateText(d))))) == Some(Signoff(initials, d))
  {
    DateEnds(d);
    DateRoundTrip(d);
    hide DateText, ParseDate, ValidDate, Strip, LStrip, UpperSpan, AllSpaces;
    var t := DateText(d);
    var tail := [dash] + (after + t);
    var rest := before + tail;
    var s := initials + rest;
    assert s[0] == initials[0] && s[|s| - 1] == t[9];
    StripTrimmed(s);
    assert before != "" ==> rest[0] == before[0] && IsSpace(before[0]) by { FirstIsSpace(before); }
    assert before == "" ==> rest[0] == dash;
    UpperSpanPrefix(initials, rest);
    assert s[..|initials|] == initials && s[|initials|..] == rest;
    SkipsSpaces(before, tail);
    assert tail[0] == dash && tail[1..] == after + t;
    SkipsSpaces(after, t);
  }

  lemma FirstIsSpace(sp: string)
    requires AllSpaces(sp)
    ensures sp != "" ==> IsSpace(sp[0])
  {
  }

  /** And nothing else is: a parsed cell is, without the spaces around it, two to four capitals, spaces, an em dash or a
      hyphen, spaces and a date. */
  lemma ParsedSignoffShape(value: string) returns (before: string, dash: char, after: string, t: string)
    requires ParseSignoff(value).Some?
    ensures var p := ParseSignoff(value).value;
            && Strip(value) == p.initials + (before + ([dash] + (after + t)))
            && IsInitials(p.initials) && AllSpaces(before) && dash in {'—', '-'} && AllSpaces(after)
            && ParseDate(t) == Some(p.date)
  {
    hide Strip, LStrip, ParseDate;
    var s := Strip(value);
    var n := UpperSpan(s);
    var r := s[n..];
    var lo := LStripIs(r);
    var rest := LStrip(r);
    var lo2 := LStripIs(rest[1..]);
    before, dash, after, t := r[..lo], rest[0], rest[1..][..lo2], LStrip(rest[1..]);
    assert rest[1..] == after + t && rest == [dash] + rest[1..] && r == before + rest && s == s[..n] + r;
  }

  lemma SignoffHasDash(initials: string, date: Date)
    ensures Contains(SignoffText(initials, date), "—") && SignoffText(initials, date) != ""
  {
    var s := SignoffText(initials, date);
    assert s[|initials| + 1..|initials| + 2] == "—";
    assert OccursAt("—", s, |initials| + 1);
  }

  lemma PoolInitials(i: string)
    requires i in INITIALS_POOL
    ensures IsInitials(i)
  {
  }
}
