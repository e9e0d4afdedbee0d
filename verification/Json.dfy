/** JSON text (sections 4 to 7 of RFC 8259) as Python writes it with
    `json.dumps(..., sort_keys=True)` and reads it with `json.loads`.

    A dict is represented by its items in increasing key order, the one listing
    every finite map of strings has. Floats are exact decimals in trimmed form. */
module Json {
  import opened Text
  import opened Decimals

  datatype Value =
    | Null
    | Bool(b: bool)
    | Int(i: int)
    | Float(negative: bool, magnitude: Dec)
    | Str(s: string)
    | Arr(items: seq<Value>)
    | Obj(fields: seq<Field>)

  datatype Field = Field(key: string, value: Value)

  // ---- dicts --------------------------------------------------------------

  /** Python's order on strings. */
  predicate Less(a: string, b: string) {
    b != "" && (a == "" || a[0] < b[0] || (a[0] == b[0] && Less(a[1..], b[1..])))
  }

  lemma {:induction false} LessIsStrict(a: string, b: string)
    requires Less(a, b)
    ensures a != b && !Less(b, a)
  {
    if a != "" && a[0] == b[0] { LessIsStrict(a[1..], b[1..]); }
  }

  predicate SortedFields(fs: seq<Field>) {
    forall i, j | 0 <= i < j < |fs| :: Less(fs[i].key, fs[j].key)
  }

  /** `d[key] = value`. */
  function Put(fs: seq<Field>, f: Field): seq<Field> {
    if fs == [] then [f]
    else if fs[0].key == f.key then [f] + fs[1..]
    else if Less(f.key, fs[0].key) then [f] + fs
    else [fs[0]] + Put(fs[1..], f)
  }

  lemma {:induction false} PutLast(fs: seq<Field>, f: Field)
    requires forall i | 0 <= i < |fs| :: Less(fs[i].key, f.key)
    ensures Put(fs, f) == fs + [f]
  {
    hide Less;
    if fs != [] {
      LessIsStrict(fs[0].key, f.key);
      PutLast(fs[1..], f);
    }
  }

  predicate WellFormed(v: Value) {
    match v
    case Float(_, d) => Trim(d) == d
    case Arr(items) => forall i | 0 <= i < |items| :: WellFormed(items[i])
    case Obj(fields) => SortedFields(fields) && forall i | 0 <= i < |fields| :: WellFormed(fields[i].value)
    case _ => true
  }

  // ---- string escapes -----------------------------------------------------

  function HexChar(n: nat): char
    requires n < 16
  {
    if n < 10 then (48 + n) as char else (87 + n) as char
  }

  function HexValue(c: char): Option<nat> {
    if IsDigit(c) then Some(c as nat - 48)
    else if 'a' <= c <= 'f' then Some(c as nat - 87)
    else if 'A' <= c <= 'F' then Some(c as nat - 55)
    else None
  }

  /** `\uXXXX`. */
  function UnicodeEscape(n: nat): (s: string)
    requires n < 0x1_0000
    ensures |s| == 6
  {
    ['\\', 'u', HexChar(n / 4096), HexChar(n / 256 % 16), HexChar(n / 16 % 16), HexChar(n % 16)]
  }

  function ShortEscape(c: char): Option<char> {
    if c == '"' then Some('"') else if c == '\\' then Some('\\') else if c == '\n' then Some('n')
    else if c == '\r' then Some('r') else if c == '\t' then Some('t')
    else if c as int == 12 then Some('f') else if c as int == 8 then Some('b')
    else None
  }

  /** One character with `ensure_ascii`: a surrogate pair beyond the basic plane. */
  function EscapeChar(c: char): (s: string)
    ensures s != ""
  {
    var n := c as int;
    if ShortEscape(c).Some? then ['\\', ShortEscape(c).value]
    else if 0x20 <= n < 0x7F then [c]
    else if n < 0x1_0000 then UnicodeEscape(n)
    else UnicodeEscape(0xD800 + (n - 0x1_0000) / 1024) + UnicodeEscape(0xDC00 + (n - 0x1_0000) % 1024)
  }

  function Escape(s: string): string {
    if s == "" then "" else EscapeChar(s[0]) + Escape(s[1..])
  }

  /** Four hex digits after `\u`. */
  function ParseHex4(s: string): Option<nat> {
    if |s| < 4 then None
    else
      match (HexValue(s[0]), HexValue(s[1]), HexValue(s[2]), HexValue(s[3]))
      case (Some(a), Some(b), Some(c), Some(d)) => Some(4096 * a + 256 * b + 16 * c + d)
      case _ => None
  }

  function ShortUnescape(c: char): Option<char> {
    if c == '"' || c == '\\' || c == '/' then Some(c)
    else if c == 'n' then Some('\n') else if c == 'r' then Some('\r') else if c == 't' then Some('\t')
    else if c == 'f' then Some(12 as char) else if c == 'b' then Some(8 as char)
    else None
  }

  predicate IsScalar(n: nat) { n < 0xD800 || 0xE000 <= n < 0x11_0000 }

  /** The character an escape sequence stands for, and the rest. A lone surrogate is outside the model. */
  function ParseEscape(s: string): (r: Option<(char, string)>)
    ensures r.Some? ==> |r.value.1| < |s|
  {
    if |s| < 2 || s[0] != '\\' then None
    else if s[1] != 'u' then
      match ShortUnescape(s[1]) case None => None case Some(c) => Some((c, s[2..]))
    else
      match ParseHex4(s[2..])
      case None => None
      case Some(hi) =>
        if IsScalar(hi) then Some((hi as char, s[6..]))
        else if hi < 0xDC00 && |s| >= 12 && s[6] == '\\' && s[7] == 'u' then
          match ParseHex4(s[8..])
          case None => None
          case Some(lo) =>
            var n := 0x1_0000 + (hi - 0xD800) * 1024 + (lo - 0xDC00);
            if 0xDC00 <= lo < 0xE000 && IsScalar(n) then Some((n as char, s[12..])) else None
        else None
  }

  /** The body of a string literal up to and including the closing quote. */
  function ParseChars(s: string): (r: Option<(string, string)>)
    ensures r.Some? ==> |r.value.1| < |s|
  {
    if s == "" then None
    else if s[0] == '"' then Some(("", s[1..]))
    else if s[0] == '\\' then
      match ParseEscape(s)
      case None => None
      case Some((c, rest)) =>
        match ParseChars(rest) case None => None case Some((t, tail)) => Some(([c] + t, tail))
    else if s[0] as int < 0x20 then None
    else
      match ParseChars(s[1..]) case None => None case Some((t, tail)) => Some((s[..1] + t, tail))
  }

  lemma HexRoundTrip(n: nat)
    requires n < 16
    ensures HexValue(HexChar(n)) == Some(n)
  {
  }

  lemma Hex4RoundTrip(n: nat, rest: string)
    requires n < 0x1_0000
    ensures ParseHex4((UnicodeEscape(n) + rest)[2..]) == Some(n)
  {
    hide HexChar;
    hide HexValue;
    var t := (UnicodeEscape(n) + rest)[2..];
    var m := n / 16;
    var k := m / 16;
    HexRoundTrip(n % 16);
    HexRoundTrip(m % 16);
    HexRoundTrip(k % 16);
    HexRoundTrip(k / 16);
    assert n / 256 == k && n / 4096 == k / 16;
    assert t[0] == HexChar(k / 16) && t[1] == HexChar(k % 16) && t[2] == HexChar(m % 16) && t[3] == HexChar(n % 16);
    assert n == 16 * m + n % 16 && m == 16 * k + m % 16 && k == 16 * (k / 16) + k % 16;
  }

  lemma EscapeRoundTrip(c: char, rest: string)
    requires EscapeChar(c) != [c]
    ensures ParseEscape(EscapeChar(c) + rest) == Some((c, rest))
  {
    hide UnicodeEscape;
    hide ParseHex4;
    var n := c as int;
    var s := EscapeChar(c) + rest;
    if ShortEscape(c).Some? {
      assert s[2..] == rest;
    } else if n < 0x1_0000 {
      Hex4RoundTrip(n, rest);
      UnicodeStart(n);
      assert s[6..] == rest;
    } else {
      var v := n - 0x1_0000;
      var hi, lo := 0xD800 + v / 1024, 0xDC00 + v % 1024;
      var tail := UnicodeEscape(lo) + rest;
      assert s == UnicodeEscape(hi) + tail;
      Hex4RoundTrip(hi, tail);
      Hex4RoundTrip(lo, rest);
      UnicodeStart(hi);
      UnicodeStart(lo);
      assert s[6..] == tail && s[8..] == tail[2..] && s[12..] == rest;
      assert s[6] == tail[0] && s[7] == tail[1];
    }
  }

  lemma UnicodeStart(n: nat)
    requires n < 0x1_0000
    ensures UnicodeEscape(n)[0] == '\\' && UnicodeEscape(n)[1] == 'u'
  {
  }

  lemma EscapeStart(c: char)
    ensures EscapeChar(c) == [c] ==> c != '"' && c != '\\' && c as int >= 0x20
    ensures EscapeChar(c) != [c] ==> EscapeChar(c)[0] == '\\'
  {
  }

  /** Escaping and unescaping a string gives it back. */
  lemma {:induction false} StringRoundTrip(s: string, rest: string)
    ensures ParseChars(Escape(s) + ("\"" + rest)) == Some((s, rest))
  {
    hide EscapeChar;
    hide ParseEscape;
    if s == "" {
      assert Escape(s) + ("\"" + rest) == "\"" + rest;
      assert ("\"" + rest)[1..] == rest;
    } else {
      var tail := Escape(s[1..]) + ("\"" + rest);
      var t := EscapeChar(s[0]) + tail;
      assert Escape(s) + ("\"" + rest) == t;
      StringRoundTrip(s[1..], rest);
      EscapeStart(s[0]);
      assert t[0] == EscapeChar(s[0])[0];
      assert [s[0]] + s[1..] == s;
      if EscapeChar(s[0]) != [s[0]] {
        EscapeRoundTrip(s[0], tail);
      } else {
        assert t[1..] == tail && t[..1] == [s[0]];
      }
    }
  }

  // ---- numbers ------------------------------------------------------------

  predicate IsNumberChar(c: char) { IsDigit(c) || c in {'.', 'e', 'E', '-', '+'} }

  function NumberSpan(s: string): (n: nat)
    ensures n <= |s| && forall i | 0 <= i < n :: IsNumberChar(s[i])
    ensures n < |s| ==> !IsNumberChar(s[n])
  {
    LeadingRun(s, IsNumberChar)
  }

  lemma NumberSpanPrefix(a: string, rest: string)
    requires (forall i | 0 <= i < |a| :: IsNumberChar(a[i])) && (rest == "" || !IsNumberChar(rest[0]))
    ensures NumberSpan(a + rest) == |a|
  {
    LeadingRunPrefix(a, rest, IsNumberChar);
  }

  /** The unsigned number grammar: no leading zeros, digits on both sides of the point. */
  predicate IsJsonNumber(t: string) {
    && t != "" && IsDigit(t[0])
    && (t[0] == '0' && |t| > 1 ==> !IsDigit(t[1]))
    && (forall i | 0 <= i < |t| && t[i] == '.' :: i + 1 < |t| && IsDigit(t[i + 1]))
    && ParseDec(t).Some?
  }

  /** A number token: an int when it is digits only, a float otherwise. */
  function ParseNumber(token: string): Option<Value> {
    var neg := token != "" && token[0] == '-';
    var t := if neg then token[1..] else token;
    if !IsJsonNumber(t) then None
    else if AllDigits(t) then
      var n: int := ParseNat(t);
      Some(Int(if neg then -n else n))
    else Some(Float(neg, Trim(ParseDec(t).value)))
  }

  function NumberText(v: Value): string
    requires v.Int? || v.Float?
  {
    if v.Int? then IntText(v.i) else (if v.negative then "-" else "") + FloatText(v.magnitude)
  }

  lemma NatTextIsJson(n: nat)
    ensures IsJsonNumber(NatText(n))
  {
    hide ParseDec;
    ParseNatText(n);
  }

  lemma FixedIsJson(d: Dec)
    ensures IsJsonNumber(FixedText(d)) && !AllDigits(FixedText(d))
  {
    hide ParseDec;
    hide NatText;
    hide Padded;
    FixedTextDenotes(d);
    var a := NatText(Shr(d.c, d.k));
    var t := FixedText(d);
    assert t[|a|] == '.' && forall i | 0 <= i < |t| && i != |a| :: IsDigit(t[i]);
    if Shr(d.c, d.k) == 0 { assert NatText(0) == "0" by { ZeroText(); } }
  }

  lemma ZeroText()
    ensures NatText(0) == "0"
  {
  }

  lemma ScientificIsJson(t: Dec)
    requires t.c > 0
    ensures IsJsonNumber(ScientificText(t)) && !AllDigits(ScientificText(t))
  {
    hide ParseDec;
    hide NatText;
    hide ExponentText;
    ScientificTextDenotes(t);
    var e := Exponent(t);
    var ds := NatText(Strip10(t.c).0);
    var m, x := MantissaText(ds), ExponentSuffix(e < 0, if e < 0 then -e else e);
    var s := ScientificText(t);
    assert s == m + x;
    assert forall i | 0 <= i < |x| :: x[i] != '.';
    assert forall i | 0 <= i < |m| && m[i] == '.' :: i == 1 && |m| > 2 && IsDigit(m[2]);
    assert s[|m|] == 'e';
  }

  lemma FloatIsJson(d: Dec)
    ensures IsJsonNumber(FloatText(d)) && !AllDigits(FloatText(d))
  {
    hide IsJsonNumber;
    hide AllDigits;
    if d.c == 0 {
      FixedIsJson(Dec(0, 0));
      ZeroText();
      assert FixedText(Dec(0, 0)) == "0.0";
    } else {
      FixedIsJson(Trim(d));
      ScientificIsJson(Trim(d));
    }
  }

  lemma IntNumberRoundTrip(i: int)
    ensures ParseNumber(IntText(i)) == Some(Int(i))
  {
    hide IsJsonNumber;
    hide NatText;
    var n: nat := if i < 0 then -i else i;
    NatTextIsJson(n);
    NatRoundTrip(n);
    if i < 0 {
      assert IntText(i)[1..] == NatText(n);
    } else {
      assert IsDigit(NatText(n)[0]);
    }
  }

  lemma FloatNumberRoundTrip(neg: bool, d: Dec)
    requires Trim(d) == d
    ensures ParseNumber((if neg then "-" else "") + FloatText(d)) == Some(Float(neg, d))
  {
    hide FloatText;
    hide AllDigits;
    var t := FloatText(d);
    FloatIsJson(d);
    FloatTextDenotes(d);
    TrimUnique(ParseDec(t).value, d);
    hide IsJsonNumber;
    hide ParseDec;
    hide Trim;
    FirstIsDigit(t);
    if neg {
      assert ("-" + t)[1..] == t;
    } else {
      assert "" + t == t;
    }
  }

  lemma NumberRoundTrip(v: Value)
    requires (v.Int? || v.Float?) && WellFormed(v)
    ensures ParseNumber(NumberText(v)) == Some(v)
  {
    hide ParseNumber;
    if v.Int? { IntNumberRoundTrip(v.i); } else { FloatNumberRoundTrip(v.negative, v.magnitude); }
  }

  lemma FirstIsDigit(t: string)
    requires IsJsonNumber(t)
    ensures t != "" && IsDigit(t[0])
  {
  }

  lemma NumberTextChars(v: Value)
    requires v.Int? || v.Float?
    ensures var t := NumberText(v);
            t != "" && (IsDigit(t[0]) || t[0] == '-') && forall i | 0 <= i < |t| :: IsNumberChar(t[i])
  {
    hide IsJsonNumber;
    hide NatText;
    hide FloatText;
    if v.Float? {
      FloatTextChars(v.magnitude);
      FloatIsJson(v.magnitude);
      FirstIsDigit(FloatText(v.magnitude));
    }
  }

  // ---- printing -----------------------------------------------------------

  /** `json.dumps(v, sort_keys=True)`. */
  function Dumps(v: Value): string
    decreases v, 0
  {
    match v
    case Null => "null"
    case Bool(b) => if b then "true" else "false"
    case Str(s) => "\"" + (Escape(s) + "\"")
    case Arr(items) => if items == [] then "[]" else "[" + (Elements(items) + "]")
    case Obj(fields) => if fields == [] then "{}" else "{" + (Members(fields) + "}")
    case _ => NumberText(v)
  }

  function Elements(items: seq<Value>): string
    requires items != []
    decreases items, 1
  {
    if |items| == 1 then Dumps(items[0]) else Dumps(items[0]) + (", " + Elements(items[1..]))
  }

  function Member(f: Field): string
    decreases f, 1
  {
    "\"" + (Escape(f.key) + ("\": " + Dumps(f.value)))
  }

  function Members(fields: seq<Field>): string
    requires fields != []
    decreases fields, 1
  {
    if |fields| == 1 then Member(fields[0]) else Member(fields[0]) + (", " + Members(fields[1..]))
  }

  // ---- parsing ------------------------------------------------------------

  predicate IsJsonSpace(c: char) { c == ' ' || c == '\t' || c == '\n' || c == '\r' }

  function SkipSpace(s: string): (r: string)
    ensures |r| <= |s|
  {
    if s != "" && IsJsonSpace(s[0]) then SkipSpace(s[1..]) else s
  }

  /** One value at the front, and the rest. */
  function ParseValue(s: string): (r: Option<(Value, string)>)
    ensures r.Some? ==> |r.value.1| < |s|
    decreases |s|, 0
  {
    if s == "" then None
    else if s[0] == '"' then
      match ParseChars(s[1..]) case None => None case Some((t, rest)) => Some((Str(t), rest))
    else if s[0] == '[' then
      var t := SkipSpace(s[1..]);
      if t != "" && t[0] == ']' then Some((Arr([]), t[1..]))
      else
        match ParseElements(t) case None => None case Some((vs, rest)) => Some((Arr(vs), rest))
    else if s[0] == '{' then
      var t := SkipSpace(s[1..]);
      if t != "" && t[0] == '}' then Some((Obj([]), t[1..]))
      else
        match ParseMembers(t, []) case None => None case Some((fs, rest)) => Some((Obj(fs), rest))
    else if "null" <= s then Some((Null, s[4..]))
    else if "true" <= s then Some((Bool(true), s[4..]))
    else if "false" <= s then Some((Bool(false), s[5..]))
    else
      var n := NumberSpan(s);
      match ParseNumber(s[..n])
      case None => None
      case Some(v) => if n == 0 then None else Some((v, s[n..]))
  }

  /** Values separated by commas up to the closing bracket. */
  function ParseElements(s: string): (r: Option<(seq<Value>, string)>)
    ensures r.Some? ==> |r.value.1| < |s|
    decreases |s|, 1
  {
    match ParseValue(s)
    case None => None
    case Some((v, rest)) =>
      var t := SkipSpace(rest);
      if t == "" then None
      else if t[0] == ']' then Some(([v], t[1..]))
      else if t[0] != ',' then None
      else
        match ParseElements(SkipSpace(t[1..]))
        case None => None
        case Some((vs, tail)) => Some(([v] + vs, tail))
  }

  /** `"key": value` pairs up to the closing brace; a repeated key overwrites. */
  function ParseMembers(s: string, before: seq<Field>): (r: Option<(seq<Field>, string)>)
    ensures r.Some? ==> |r.value.1| < |s|
    decreases |s|, 1
  {
    if s == "" || s[0] != '"' then None
    else
      match ParseChars(s[1..])
      case None => None
      case Some((key, rest)) =>
        var colon := SkipSpace(rest);
        if colon == "" || colon[0] != ':' then None
        else
          match ParseValue(SkipSpace(colon[1..]))
          case None => None
          case Some((v, after)) =>
            var t := SkipSpace(after);
            if t == "" then None
            else if t[0] == '}' then Some((Put(before, Field(key, v)), t[1..]))
            else if t[0] != ',' then None
            else ParseMembers(SkipSpace(t[1..]), Put(before, Field(key, v)))
  }

  /** `json.loads`. */
  function Loads(s: string): Option<Value> {
    match ParseValue(SkipSpace(s))
    case None => None
    case Some((v, rest)) => if SkipSpace(rest) == "" then Some(v) else None
  }

  // ---- round trip ---------------------------------------------------------

  /** What can follow a value without being read as part of it. */
  predicate Delimited(rest: string) { rest == "" || rest[0] in {',', ']', '}'} }

  lemma DelimitedIsNotSpace(rest: string)
    requires Delimited(rest)
    ensures SkipSpace(rest) == rest && (rest != "" ==> !IsNumberChar(rest[0]))
  {
  }

  lemma DumpsStart(v: Value)
    ensures Dumps(v) != "" && !IsJsonSpace(Dumps(v)[0]) && Dumps(v)[0] !in {']', '}', ','}
  {
    hide NumberText;
    hide Escape;
    if v.Int? || v.Float? { NumberTextChars(v); }
  }

  lemma ParsesNumber(v: Value, rest: string)
    requires (v.Int? || v.Float?) && WellFormed(v) && Delimited(rest)
    ensures ParseValue(Dumps(v) + rest) == Some((v, rest))
  {
    hide NumberText;
    hide ParseNumber;
    hide NumberSpan;
    var t := NumberText(v);
    var s := t + rest;
    NumberTextChars(v);
    DelimitedIsNotSpace(rest);
    NumberSpanPrefix(t, rest);
    NumberRoundTrip(v);
    assert s[..|t|] == t && s[|t|..] == rest && s[0] == t[0];
  }

  lemma WordsDiffer(rest: string)
    ensures !("null" <= "true" + rest) && !("null" <= "false" + rest) && !("true" <= "false" + rest)
  {
    assert ("true" + rest)[0] == 't' && ("false" + rest)[0] == 'f';
    assert "null"[0] == 'n' && "true"[0] == 't';
  }

  lemma Quoted(body: string, rest: string)
    ensures ("\"" + (body + "\"") + rest)[1..] == body + ("\"" + rest)
  {
  }

  lemma ParsesWord(v: Value, rest: string)
    requires v.Null? || v.Bool?
    ensures ParseValue(Dumps(v) + rest) == Some((v, rest))
  {
    hide ParseElements, ParseMembers, ParseChars, ParseNumber;
    assert (Dumps(v) + rest)[|Dumps(v)|..] == rest;
    WordsDiffer(rest);
  }

  lemma ParsesString(t: string, rest: string)
    ensures ParseValue(Dumps(Str(t)) + rest) == Some((Str(t), rest))
  {
    hide ParseElements, ParseMembers, ParseChars, ParseNumber, Escape;
    StringRoundTrip(t, rest);
    Quoted(Escape(t), rest);
  }

  lemma {:induction false} ParsesDumped(v: Value, rest: string)
    requires WellFormed(v) && Delimited(rest)
    ensures ParseValue(Dumps(v) + rest) == Some((v, rest))
    decreases v, 0
  {
    hide ParseElements;
    hide ParseMembers;
    hide Elements;
    hide Members;
    hide Escape;
    hide ParseChars, ParseNumber, NumberText, NumberSpan, Less;
    match v
    case Null => ParsesWord(v, rest);
    case Bool(_) => ParsesWord(v, rest);
    case Str(s) => ParsesString(s, rest);
    case Arr(items) =>
      if items == [] {
        assert (Dumps(v) + rest)[1..] == "]" + rest;
        assert ("]" + rest)[1..] == rest;
      } else {
        var t := Elements(items) + ("]" + rest);
        assert (Dumps(v) + rest)[1..] == t;
        ElementsStart(items);
        ParsesElements(items, rest);
      }
    case Obj(fields) =>
      if fields == [] {
        assert (Dumps(v) + rest)[1..] == "}" + rest;
        assert ("}" + rest)[1..] == rest;
      } else {
        var t := Members(fields) + ("}" + rest);
        assert (Dumps(v) + rest)[1..] == t;
        MembersStart(fields);
        ParsesMembers([], fields, rest);
        assert [] + fields == fields;
      }
    case _ =>
      ParsesNumber(v, rest);
  }

  lemma ElementsStart(items: seq<Value>)
    requires items != []
    ensures Elements(items) != "" && !IsJsonSpace(Elements(items)[0]) && Elements(items)[0] != ']'
  {
    hide Dumps;
    DumpsStart(items[0]);
  }

  lemma MembersStart(fields: seq<Field>)
    requires fields != []
    ensures Members(fields) != "" && Members(fields)[0] == '"'
  {
  }

  lemma CommaThen(tail: string)
    requires tail != "" && !IsJsonSpace(tail[0])
    ensures var t := ", " + tail; Delimited(t) && SkipSpace(t) == t && t[0] == ',' && SkipSpace(t[1..]) == tail
  {
    var t := ", " + tail;
    assert t[1..] == " " + tail && (" " + tail)[1..] == tail;
  }

  lemma {:induction false} ParsesElements(items: seq<Value>, rest: string)
    requires items != [] && forall i | 0 <= i < |items| :: WellFormed(items[i])
    ensures ParseElements(Elements(items) + ("]" + rest)) == Some((items, rest))
    decreases items, 1
  {
    hide Dumps;
    hide ParseValue;
    hide WellFormed;
    hide Delimited;
    if |items| == 1 {
      var t := "]" + rest;
      assert Delimited(t) by { ClosingIsDelimited(rest); }
      ParsesDumped(items[0], t);
      assert SkipSpace(t) == t && t[1..] == rest;
      assert items == [items[0]];
    } else {
      var tail := Elements(items[1..]) + ("]" + rest);
      var t := ", " + tail;
      ElementsStart(items[1..]);
      assert tail[0] == Elements(items[1..])[0];
      CommaThen(tail);
      ParsesDumped(items[0], t);
      ParsesElements(items[1..], rest);
      assert Elements(items) + ("]" + rest) == Dumps(items[0]) + t;
      assert [items[0]] + items[1..] == items;
    }
  }

  lemma ClosingIsDelimited(rest: string)
    ensures Delimited("]" + rest) && Delimited("}" + rest)
  {
  }

  /** One `"key": value` pair in front of t. */
  lemma MemberSplits(f: Field, t: string)
    ensures var s := Member(f) + t;
            && s[0] == '"'
            && ParseChars(s[1..]) == Some((f.key, ": " + (Dumps(f.value) + t)))
            && SkipSpace(": " + (Dumps(f.value) + t)) == ": " + (Dumps(f.value) + t)
            && SkipSpace((": " + (Dumps(f.value) + t))[1..]) == Dumps(f.value) + t
  {
    hide Dumps;
    hide Escape;
    hide ParseChars;
    var d := Dumps(f.value) + t;
    StringRoundTrip(f.key, ": " + d);
    assert (Member(f) + t)[1..] == Escape(f.key) + ("\"" + (": " + d));
    DumpsStart(f.value);
    assert (": " + d)[1..] == " " + d && (" " + d)[1..] == d && d[0] == Dumps(f.value)[0];
  }

  lemma {:induction false} ParsesMembers(before: seq<Field>, fields: seq<Field>, rest: string)
    requires fields != [] && SortedFields(before + fields)
    requires forall i | 0 <= i < |fields| :: WellFormed(fields[i].value)
    ensures ParseMembers(Members(fields) + ("}" + rest), before) == Some((before + fields, rest))
    decreases fields, 1
  {
    hide Dumps;
    hide ParseValue;
    hide ParseChars;
    hide WellFormed;
    hide Delimited;
    hide Member;
    hide Less;
    hide Put;
    var f := fields[0];
    assert forall i | 0 <= i < |before| :: (before + fields)[i] == before[i];
    assert (before + fields)[|before|] == f;
    PutLast(before, f);
    if |fields| == 1 {
      var t := "}" + rest;
      ClosingIsDelimited(rest);
      MemberSplits(f, t);
      ParsesDumped(f.value, t);
      assert SkipSpace(t) == t && t[1..] == rest;
      assert fields == [f];
    } else {
      var tail := Members(fields[1..]) + ("}" + rest);
      var t := ", " + tail;
      MembersStart(fields[1..]);
      assert tail[0] == Members(fields[1..])[0];
      CommaThen(tail);
      MemberSplits(f, t);
      ParsesDumped(f.value, t);
      assert before + [f] + fields[1..] == before + fields;
      ParsesMembers(before + [f], fields[1..], rest);
      assert Members(fields) + ("}" + rest) == Member(f) + t;
    }
  }

  /** Reading back what was written gives the same value. */
  lemma LoadsDumps(v: Value)
    requires WellFormed(v)
    ensures Loads(Dumps(v)) == Some(v)
  {
    hide Dumps;
    hide ParseValue;
    ParsesDumped(v, "");
    DumpsStart(v);
    assert Dumps(v) + "" == Dumps(v);
  }
}
