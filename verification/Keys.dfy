/** The joined natural keys: `eng,control,attr,quarter` behind the silver evidence id
    and `eng|control|attr|quarter` on a narrative. */
module Keys {
  import opened Evidence
  import opened Corpus
  import opened Utf8

  datatype Key = Key(engagement: string, control: Control, attribute: Attribute, quarter: Quarter)

  function ControlText(c: Control): string { match c case DC2 => "DC-2" case DC9 => "DC-9" }

  function AttributeText(a: Attribute): string {
    match a case A => "A" case B => "B" case C => "C" case D => "D" case E => "E" case F => "F"
  }

  function JoinedKey(k: Key, sep: char): string {
    k.engagement + [sep] + ControlText(k.control) + [sep] + AttributeText(k.attribute) + [sep] + QuarterText(k.quarter)
  }

  /** The last separator splits a join whose last field has none. */
  lemma LastFieldUnique(a: string, b: string, x: string, y: string, sep: char)
    requires sep !in x && sep !in y && a + [sep] + x == b + [sep] + y
    ensures a == b && x == y
  {
    var s := a + [sep] + x;
    forall j | |a| < j < |s| ensures s[j] != sep { assert s[j] == x[j - |a| - 1]; }
    forall j | |b| < j < |s| ensures s[j] != sep { assert (b + [sep] + y)[j] == y[j - |b| - 1]; }
    assert s[|a|] == sep && s[|b|] == (b + [sep] + y)[|b|] == sep;
    assert a == s[..|a|] && b == (b + [sep] + y)[..|b|] && x == s[|a| + 1..] && y == (b + [sep] + y)[|b| + 1..];
  }

  lemma TextsAreInjective(k: Key, l: Key)
    ensures ControlText(k.control) == ControlText(l.control) ==> k.control == l.control
    ensures AttributeText(k.attribute) == AttributeText(l.attribute) ==> k.attribute == l.attribute
    ensures QuarterText(k.quarter) == QuarterText(l.quarter) ==> k.quarter == l.quarter
  {
    assert ControlText(DC2)[3] == '2' && ControlText(DC9)[3] == '9';
    assert forall a: Attribute :: |AttributeText(a)| == 1;
    assert QuarterText(k.quarter)[1] == QuarterDigit(k.quarter)[0];
    assert QuarterText(l.quarter)[1] == QuarterDigit(l.quarter)[0];
  }

  /** For any engagement id, separators included, the joined key identifies the four fields. */
  lemma JoinedKeyInjective(k: Key, l: Key, sep: char)
    requires sep in {',', '|'} && JoinedKey(k, sep) == JoinedKey(l, sep)
    ensures k == l
  {
    hide ControlText;
    hide AttributeText;
    hide QuarterText;
    FieldsHaveNoSeparator(k, sep);
    FieldsHaveNoSeparator(l, sep);
    var a, b := k.engagement + [sep] + ControlText(k.control), l.engagement + [sep] + ControlText(l.control);
    LastFieldUnique(a + [sep] + AttributeText(k.attribute), b + [sep] + AttributeText(l.attribute),
                    QuarterText(k.quarter), QuarterText(l.quarter), sep);
    LastFieldUnique(a, b, AttributeText(k.attribute), AttributeText(l.attribute), sep);
    LastFieldUnique(k.engagement, l.engagement, ControlText(k.control), ControlText(l.control), sep);
    TextsAreInjective(k, l);
  }

  lemma FieldsHaveNoSeparator(k: Key, sep: char)
    requires sep in {',', '|'}
    ensures sep !in ControlText(k.control) && sep !in AttributeText(k.attribute) && sep !in QuarterText(k.quarter)
  {
  }

  /** `_evidence_id`: the first eight digest bytes without the lowest bit. */
  function EvidenceId(k: Key, digest: string -> Bytes): (id: nat)
    requires |digest(JoinedKey(k, ','))| >= 8
  {
    ParseBigEndian(digest(JoinedKey(k, ','))[..8]) / 2
  }

  lemma {:induction false} BigEndianBound(bs: Bytes)
    ensures ParseBigEndian(bs) < Power256(|bs|)
  {
    if bs != [] { BigEndianBound(bs[..|bs| - 1]); }
  }

  /** The id always fits a signed 64-bit column. */
  lemma EvidenceIdFits(k: Key, digest: string -> Bytes)
    requires |digest(JoinedKey(k, ','))| >= 8
    ensures EvidenceId(k, digest) < 0x8000_0000_0000_0000
  {
    BigEndianBound(digest(JoinedKey(k, ','))[..8]);
    assert Power256(8) == 0x1_0000_0000_0000_0000 by {
      assert Power256(4) == 0x1_0000_0000;
      assert Power256(8) == 256 * (256 * (256 * (256 * Power256(4))));
    }
  }
}
