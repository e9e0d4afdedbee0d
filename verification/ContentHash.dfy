/** The content hash of a workbook archive: sorted entry names and entry bytes,
    each behind a length. The digest itself is an arbitrary function. */
module ContentHash {
  import opened Decimals
  import opened Utf8

  datatype Entry = Entry(name: Name, data: Bytes)

  type Archive = seq<Entry>

  // ---- sorted() on strings ------------------------------------------------

  /** Lexicographic order by code point. */
  predicate Le(a: Name, b: Name) {
    a == [] || (b != [] && (a[0] < b[0] || (a[0] == b[0] && Le(a[1..], b[1..]))))
  }

  lemma {:induction false} LeTotal(a: Name, b: Name)
    ensures Le(a, b) || Le(b, a)
    ensures Le(a, b) && Le(b, a) ==> a == b
  {
    if a != [] && b != [] && a[0] == b[0] {
      LeTotal(a[1..], b[1..]);
      assert a == [a[0]] + a[1..] && b == [b[0]] + b[1..];
    }
  }

  lemma {:induction false} LeTransitive(a: Name, b: Name, c: Name)
    requires Le(a, b) && Le(b, c)
    ensures Le(a, c)
  {
    if a != [] && a[0] == b[0] == c[0] {
      LeTransitive(a[1..], b[1..], c[1..]);
    }
  }

  predicate Sorted(s: seq<Name>) { forall i, j | 0 <= i < j < |s| :: Le(s[i], s[j]) }

  function Insert(x: Name, s: seq<Name>): (r: seq<Name>)
    ensures multiset(r) == multiset(s) + multiset{x}
  {
    if s == [] || Le(x, s[0]) then
      [x] + s
    else
      assert s == [s[0]] + s[1..];
      [s[0]] + Insert(x, s[1..])
  }

  function Sort(s: seq<Name>): (r: seq<Name>)
    ensures multiset(r) == multiset(s)
  {
    if s == [] then []
    else
      assert s == [s[0]] + s[1..];
      Insert(s[0], Sort(s[1..]))
  }

  lemma SortedCons(x: Name, s: seq<Name>)
    requires Sorted(s) && forall y | y in multiset(s) :: Le(x, y)
    ensures Sorted([x] + s)
  {
    forall j | 0 <= j < |s| ensures Le(x, s[j]) { assert s[j] in multiset(s); }
  }

  lemma {:induction false} InsertSorted(x: Name, s: seq<Name>)
    requires Sorted(s)
    ensures Sorted(Insert(x, s))
  {
    if s != [] {
      LeTotal(x, s[0]);
      if Le(x, s[0]) {
        forall y | y in multiset(s) ensures Le(x, y) {
          var j :| 0 <= j < |s| && s[j] == y;
          if j > 0 { LeTransitive(x, s[0], y); }
        }
        SortedCons(x, s);
      } else {
        InsertSorted(x, s[1..]);
        forall y | y in multiset(Insert(x, s[1..])) ensures Le(s[0], y) {
          if y != x {
            assert y in multiset(s[1..]);
            var j :| 0 <= j < |s[1..]| && s[1..][j] == y;
          }
        }
        SortedCons(s[0], Insert(x, s[1..]));
      }
    }
  }

  lemma {:induction false} SortSorted(s: seq<Name>)
    ensures Sorted(Sort(s))
  {
    if s != [] {
      SortSorted(s[1..]);
      InsertSorted(s[0], Sort(s[1..]));
    }
  }

  lemma HeadIsLeast(a: seq<Name>, b: seq<Name>)
    requires a != [] && b != [] && Sorted(a) && multiset(a) == multiset(b)
    ensures Le(a[0], b[0])
  {
    hide Le;
    assert b[0] in multiset(a);
    var i :| 0 <= i < |a| && a[i] == b[0];
    LeTotal(a[0], a[0]);
  }

  lemma TailMultiset(a: seq<Name>)
    requires a != []
    ensures multiset(a[1..]) == multiset(a) - multiset{a[0]}
  {
    assert a == [a[0]] + a[1..];
  }

  lemma {:induction false} SortedUnique(a: seq<Name>, b: seq<Name>)
    requires Sorted(a) && Sorted(b) && multiset(a) == multiset(b)
    ensures a == b
  {
    if a == [] {
      assert |multiset(b)| == |b|;
    } else {
      hide Le;
      assert |multiset(a)| == |multiset(b)| == |b|;
      HeadIsLeast(a, b);
      HeadIsLeast(b, a);
      LeTotal(a[0], b[0]);
      TailMultiset(a);
      TailMultiset(b);
      SortedUnique(a[1..], b[1..]);
      assert a == [a[0]] + a[1..] && b == [b[0]] + b[1..];
    }
  }

  /** The order in which names were listed does not matter. */
  lemma SortIgnoresOrder(a: seq<Name>, b: seq<Name>)
    requires multiset(a) == multiset(b)
    ensures Sort(a) == Sort(b)
  {
    SortSorted(a);
    SortSorted(b);
    SortedUnique(Sort(a), Sort(b));
  }

  // ---- the stream ---------------------------------------------------------

  function NameList(z: Archive): (ns: seq<Name>)
    ensures |ns| == |z| && forall i | 0 <= i < |z| :: ns[i] == z[i].name
  {
    seq(|z|, i requires 0 <= i < |z| => z[i].name)
  }

  /** `z.read(name)`: with repeated names the last entry is read. */
  function Read(z: Archive, name: Name): Bytes {
    if z == [] then [] else if z[|z| - 1].name == name then z[|z| - 1].data else Read(z[..|z| - 1], name)
  }

  predicate Fits(name: Name, data: Bytes) { |name| < Power256(4) && |data| < Power256(8) }

  /** What one entry feeds the hash: code-point count, UTF-8 name, byte count, data. */
  function Frame(name: Name, data: Bytes): Bytes {
    BigEndian(|name|, 4) + (Encode(name) + (BigEndian(|data|, 8) + data))
  }

  /** The whole stream; None where `to_bytes` overflows. */
  function FramesOf(names: seq<Name>, z: Archive): Option<Bytes> {
    if names == [] then Some([])
    else if !Fits(names[0], Read(z, names[0])) then None
    else
      match FramesOf(names[1..], z)
      case None => None
      case Some(rest) => Some(Frame(names[0], Read(z, names[0])) + rest)
  }

  function Stream(z: Archive): Option<Bytes> { FramesOf(Sort(NameList(z)), z) }

  // ---- the order and the stream, spelled out ------------------------------

  /** a comes before b or is b: it is a prefix of b, or smaller at the first code point where they differ. */
  ghost predicate PrefixOrSmaller(a: Name, b: Name) {
    || (|a| <= |b| && b[..|a|] == a)
    || exists k | 0 <= k < |a| && k < |b| :: a[..k] == b[..k] && a[k] < b[k]
  }

  lemma {:induction false} LeIsLexicographic(a: Name, b: Name)
    ensures Le(a, b) ==> PrefixOrSmaller(a, b)
  {
    if a != [] && Le(a, b) {
      if a[0] < b[0] {
        assert a[..0] == b[..0];
      } else {
        LeIsLexicographic(a[1..], b[1..]);
        if |a[1..]| <= |b[1..]| && b[1..][..|a[1..]|] == a[1..] {
          assert b[..|a|] == [b[0]] + b[1..][..|a[1..]|] == a;
        } else {
          var k :| 0 <= k < |a[1..]| && k < |b[1..]| && a[1..][..k] == b[1..][..k] && a[1..][k] < b[1..][k];
          assert a[..k + 1] == [a[0]] + a[1..][..k] && b[..k + 1] == [b[0]] + b[1..][..k];
        }
      }
    }
  }

  /** The names are fed to the hash in ascending code-point order. */
  lemma NamesAscend(z: Archive, i: nat, j: nat)
    requires i < j < |Sort(NameList(z))|
    ensures PrefixOrSmaller(Sort(NameList(z))[i], Sort(NameList(z))[j])
  {
    hide Le, Sort, PrefixOrSmaller;
    SortSorted(NameList(z));
    LeIsLexicographic(Sort(NameList(z))[i], Sort(NameList(z))[j]);
  }

  function Concat(parts: seq<Bytes>): Bytes { if parts == [] then [] else parts[0] + Concat(parts[1..]) }

  /** The four parts of one frame: a 4-byte length, the UTF-8 name, an 8-byte length and the data. */
  predicate IsFrame(f: Bytes, name: Name, data: Bytes) {
    var n := |Encode(name)|;
    && |f| == 4 + n + 8 + |data|
    && f[..4] == BigEndian(|name|, 4) && f[4..4 + n] == Encode(name)
    && f[4 + n..12 + n] == BigEndian(|data|, 8) && f[12 + n..] == data
  }

  lemma FrameIsFrame(name: Name, data: Bytes)
    ensures IsFrame(Frame(name, data), name, data)
  {
  }

  lemma {:induction false} FramesConcat(names: seq<Name>, z: Archive) returns (parts: seq<Bytes>)
    requires FramesOf(names, z).Some?
    ensures FramesOf(names, z).value == Concat(parts) && |parts| == |names|
    ensures forall k | 0 <= k < |names| :: IsFrame(parts[k], names[k], Read(z, names[k]))
  {
    hide IsFrame, Read, Fits;
    if names == [] {
      parts := [];
    } else {
      var rest := FramesConcat(names[1..], z);
      FrameIsFrame(names[0], Read(z, names[0]));
      parts := [Frame(names[0], Read(z, names[0]))] + rest;
    }
  }

  /** The stream is the concatenation of one frame per name, in ascending order of the names. */
  lemma StreamIsFrames(z: Archive) returns (parts: seq<Bytes>)
    requires Stream(z).Some?
    ensures var names := Sort(NameList(z));
            && Stream(z).value == Concat(parts) && |parts| == |names|
            && forall k | 0 <= k < |names| :: IsFrame(parts[k], names[k], Read(z, names[k]))
  {
    parts := FramesConcat(Sort(NameList(z)), z);
  }

  lemma {:induction false} FramesFitIff(names: seq<Name>, z: Archive)
    ensures FramesOf(names, z).Some? <==> forall k | 0 <= k < |names| :: Fits(names[k], Read(z, names[k]))
  {
    hide Read, Fits, Frame;
    if names != [] { FramesFitIff(names[1..], z); }
  }

  lemma LengthLimits()
    ensures Power256(4) == 0x1_0000_0000 && Power256(8) == 0x1_0000_0000_0000_0000
  {
  }

  /** Hashing fails exactly when some name has 2^32 or more code points or some read has 2^64 or more bytes. */
  lemma StreamExistsIff(z: Archive)
    ensures Stream(z).Some? <==>
              forall k | 0 <= k < |z| ::
                |z[k].name| < 0x1_0000_0000 && |Read(z, z[k].name)| < 0x1_0000_0000_0000_0000
  {
    hide Sort, Read, Power256;
    LengthLimits();
    var ns := Sort(NameList(z));
    FramesFitIff(ns, z);
    forall k | 0 <= k < |z| ensures exists j | 0 <= j < |ns| :: ns[j] == z[k].name {
      assert NameList(z)[k] in multiset(ns);
    }
    forall j | 0 <= j < |ns| ensures exists k | 0 <= k < |z| :: z[k].name == ns[j] {
      assert ns[j] in multiset(NameList(z));
      var k :| 0 <= k < |NameList(z)| && NameList(z)[k] == ns[j];
    }
  }

  /** Under a repeated name the bytes of its last entry are read. */
  lemma {:induction false} ReadsLastEntry(z: Archive, k: nat)
    requires k < |z| && forall j | k < j < |z| :: z[j].name != z[k].name
    ensures Read(z, z[k].name) == z[k].data
  {
    if k < |z| - 1 { ReadsLastEntry(z[..|z| - 1], k); }
  }

  // ---- the hash accumulator -----------------------------------------------

  class Sha256 {
    var fed: Bytes

    constructor ()
      ensures fed == []
    {
      fed := [];
    }

    method Update(data: Bytes)
      modifies this
      ensures fed == old(fed) + data
    {
      fed := fed + data;
    }
  }

  lemma {:induction false} FramesSnoc(names: seq<Name>, k: nat, z: Archive)
    requires k < |names| && FramesOf(names[..k], z).Some?
    ensures var d := Read(z, names[k]);
            && (Fits(names[k], d) ==>
                  FramesOf(names[..k + 1], z) == Some(FramesOf(names[..k], z).value + Frame(names[k], d)))
            && (!Fits(names[k], d) ==> FramesOf(names, z) == None)
  {
    hide Frame;
    hide Read;
    hide Fits;
    var d := Read(z, names[k]);
    if k > 0 {
      assert names[1..][..k - 1] == names[..k][1..] && names[1..][..k] == names[..k + 1][1..];
      FramesSnoc(names[1..], k - 1, z);
      var f, x := Frame(names[0], Read(z, names[0])), FramesOf(names[1..][..k - 1], z).value;
      assert names[1..][k - 1] == names[k];
      assert f + (x + Frame(names[k], d)) == f + x + Frame(names[k], d);
    } else {
      assert names[..1] == [names[0]] && names[..1][1..] == [];
      assert [] + Frame(names[0], d) == Frame(names[0], d) + [];
    }
  }

  /** Feeds the accumulator entry by entry; the digest is that of exactly the stream. */
  method HashContent(z: Archive, digest: Bytes -> string) returns (hex: Option<string>)
    ensures hex == if Stream(z).Some? then Some(digest(Stream(z).value)) else None
  {
    hide Frame;
    hide Sort;
    hide Read;
    hide Fits;
    var h := new Sha256();
    var names := Sort(NameList(z));
    for k := 0 to |names|
      invariant FramesOf(names[..k], z) == Some(h.fed)
    {
      var data := Read(z, names[k]);
      FramesSnoc(names, k, z);
      if !Fits(names[k], data) { return None; }
      ghost var before := h.fed;
      h.Update(BigEndian(|names[k]|, 4));
      h.Update(Encode(names[k]));
      h.Update(BigEndian(|data|, 8));
      h.Update(data);
      FrameParts(before, names[k], data);
    }
    assert names[..|names|] == names;
    return Some(digest(h.fed));
  }

  lemma FrameParts(before: Bytes, name: Name, data: Bytes)
    ensures before + BigEndian(|name|, 4) + Encode(name) + BigEndian(|data|, 8) + data == before + Frame(name, data)
  {
  }

  // ---- decoding -----------------------------------------------------------

  function DecodeFrame(bs: Bytes): Option<((seq<nat>, Bytes), Bytes)> {
    if |bs| < 4 then None
    else
      match DecodeN(ParseBigEndian(bs[..4]), bs[4..])
      case None => None
      case Some((name, rest)) =>
        if |rest| < 8 then None
        else
          var n := ParseBigEndian(rest[..8]);
          if |rest| < 8 + n then None else Some(((name, rest[8..8 + n]), rest[8 + n..]))
  }

  lemma DecodeFrameUndoes(name: Name, data: Bytes, rest: Bytes)
    requires Fits(name, data)
    ensures DecodeFrame(Frame(name, data) + rest) == Some(((name, data), rest))
  {
    hide DecodeN;
    hide ParseBigEndian;
    hide BigEndian;
    hide Encode;
    var tail := BigEndian(|data|, 8) + (data + rest);
    var bs := Frame(name, data) + rest;
    assert bs == BigEndian(|name|, 4) + (Encode(name) + tail);
    assert bs[..4] == BigEndian(|name|, 4) && bs[4..] == Encode(name) + tail;
    BigEndianRoundTrip(|name|, 4);
    DecodeNEncode(name, tail);
    BigEndianRoundTrip(|data|, 8);
    assert tail[..8] == BigEndian(|data|, 8);
    assert tail[8..8 + |data|] == data && tail[8 + |data|..] == rest;
  }

  /** Reading the frames back one by one recovers the sorted names and what was read under each. */
  lemma {:induction false} FramesInjective(ns: seq<Name>, y: Archive, ms: seq<Name>, z: Archive)
    requires FramesOf(ns, y).Some? && FramesOf(ns, y) == FramesOf(ms, z)
    ensures ns == ms && forall k | 0 <= k < |ns| :: Read(y, ns[k]) == Read(z, ns[k])
  {
    hide Read;
    hide DecodeFrame;
    if ns != [] && ms != [] {
      var a, b := FramesOf(ns[1..], y).value, FramesOf(ms[1..], z).value;
      DecodeFrameUndoes(ns[0], Read(y, ns[0]), a);
      DecodeFrameUndoes(ms[0], Read(z, ms[0]), b);
      assert a == b && ns[0] == ms[0];
      FramesInjective(ns[1..], y, ms[1..], z);
      assert ns == [ns[0]] + ns[1..] && ms == [ms[0]] + ms[1..];
      assert forall k | 0 < k < |ns| :: ns[k] == ns[1..][k - 1];
    } else if ns != [] {
      FrameNonEmpty(ns[0], Read(y, ns[0]));
    } else if ms != [] {
      FrameNonEmpty(ms[0], Read(z, ms[0]));
    }
  }

  lemma FrameNonEmpty(name: Name, data: Bytes)
    ensures |Frame(name, data)| >= 12
  {
  }

  lemma {:induction false} SameReadsSameFrames(ns: seq<Name>, y: Archive, z: Archive)
    requires forall k | 0 <= k < |ns| :: Read(y, ns[k]) == Read(z, ns[k])
    ensures FramesOf(ns, y) == FramesOf(ns, z)
  {
    hide Read;
    if ns != [] {
      assert forall k | 0 <= k < |ns| - 1 :: ns[1..][k] == ns[k + 1];
      SameReadsSameFrames(ns[1..], y, z);
    }
  }

  /** Same names with the same multiplicities, and the same bytes read under each. */
  predicate SameContent(y: Archive, z: Archive) {
    && multiset(NameList(y)) == multiset(NameList(z))
    && forall k | 0 <= k < |y| :: Read(y, y[k].name) == Read(z, y[k].name)
  }

  /** For any two archives, repeated names included, the hashed streams are equal exactly when
      the archives have the same content. */
  lemma StreamIdentifiesContent(y: Archive, z: Archive)
    requires Stream(y).Some?
    ensures Stream(y) == Stream(z) <==> SameContent(y, z)
  {
    hide Read;
    hide Sort;
    var ns, ms := Sort(NameList(y)), Sort(NameList(z));
    if Stream(y) == Stream(z) {
      FramesInjective(ns, y, ms, z);
      assert multiset(NameList(y)) == multiset(ns) == multiset(NameList(z));
      forall k | 0 <= k < |y| ensures Read(y, y[k].name) == Read(z, y[k].name) {
        assert NameList(y)[k] in multiset(ns);
        var j :| 0 <= j < |ns| && ns[j] == y[k].name;
      }
    }
    if SameContent(y, z) {
      SortIgnoresOrder(NameList(y), NameList(z));
      forall j | 0 <= j < |ns| ensures Read(y, ns[j]) == Read(z, ns[j]) {
        assert ns[j] in multiset(NameList(y));
        var k :| 0 <= k < |NameList(y)| && NameList(y)[k] == ns[j];
      }
      SameReadsSameFrames(ns, y, z);
    }
  }

  predicate DistinctNames(z: Archive) { forall i, j | 0 <= i < j < |z| :: z[i].name != z[j].name }

  lemma ReadDistinct(z: Archive, k: nat)
    requires DistinctNames(z) && k < |z|
    ensures Read(z, z[k].name) == z[k].data
  {
    ReadsLastEntry(z, k);
  }

  lemma EntryOfName(y: Archive, z: Archive, e: Entry)
    requires SameContent(y, z) && DistinctNames(y) && DistinctNames(z) && e in y
    ensures e in z
  {
    var k :| 0 <= k < |y| && y[k] == e;
    assert NameList(y)[k] in multiset(NameList(z));
    var j :| 0 <= j < |NameList(z)| && NameList(z)[j] == e.name;
    ReadDistinct(y, k);
    ReadDistinct(z, j);
  }

  /** With distinct entry names, equal streams mean the same set of (name, data) entries. */
  lemma DistinctArchives(y: Archive, z: Archive)
    requires DistinctNames(y) && DistinctNames(z) && Stream(y).Some? && Stream(y) == Stream(z)
    ensures |y| == |z| && forall e: Entry :: e in y <==> e in z
  {
    StreamIdentifiesContent(y, z);
    assert |multiset(NameList(y))| == |y|;
    forall k | 0 <= k < |z| ensures Read(z, z[k].name) == Read(y, z[k].name) {
      assert NameList(z)[k] in multiset(NameList(y));
      var j :| 0 <= j < |NameList(y)| && NameList(y)[j] == z[k].name;
    }
    forall e: Entry ensures e in y <==> e in z {
      if e in y { EntryOfName(y, z, e); }
      if e in z { EntryOfName(z, y, e); }
    }
  }
}
