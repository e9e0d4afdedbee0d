/** UTF-8 (section 3 of RFC 3629) and big-endian integers, each with a decoder that undoes it. */
module Utf8 {
  import opened Decimals

  type Byte = b: nat | b < 256

  type Bytes = seq<Byte>

  /** A Unicode scalar value: any code point except the surrogates. */
  type CodePoint = c: nat | c < 0x11_0000 && !(0xD800 <= c < 0xE000)

  type Name = seq<CodePoint>

  // ---- one character ------------------------------------------------------

  function Tail(x: nat): Byte
    requires x < 64
  {
    128 + x
  }

  function Encode1(c: CodePoint): (b: Bytes)
    ensures 1 <= |b| <= 4
  {
    if c < 0x80 then [c]
    else if c < 0x800 then [0xC0 + c / 64, Tail(c % 64)]
    else if c < 0x1_0000 then [0xE0 + c / 64 / 64, Tail(c / 64 % 64), Tail(c % 64)]
    else [0xF0 + c / 64 / 64 / 64, Tail(c / 64 / 64 % 64), Tail(c / 64 % 64), Tail(c % 64)]
  }

  /** The length announced by a lead byte; 0 when it is not one. */
  function LeadLength(b: Byte): nat {
    if b < 0x80 then 1 else if b < 0xC0 then 0 else if b < 0xE0 then 2 else if b < 0xF0 then 3
    else if b < 0xF8 then 4 else 0
  }

  function LeadBits(b: Byte): nat {
    if b < 0x80 then b else if b < 0xC0 then 0 else if b < 0xE0 then b - 0xC0 else if b < 0xF0 then b - 0xE0
    else if b < 0xF8 then b - 0xF0 else 0
  }

  function TailBits(bs: Bytes): nat {
    if bs == [] then 0 else 64 * TailBits(bs[..|bs| - 1]) + bs[|bs| - 1] % 64
  }

  function Power64(k: nat): nat { if k == 0 then 1 else 64 * Power64(k - 1) }

  /** The first character of a byte string and the rest. */
  function Decode1(bs: Bytes): Option<(nat, Bytes)> {
    if bs == [] then None
    else
      var n := LeadLength(bs[0]);
      if n == 0 || n > |bs| then None
      else Some((LeadBits(bs[0]) * Power64(n - 1) + TailBits(bs[1..n]), bs[n..]))
  }

  lemma TailBitsSnoc(bs: Bytes, b: Byte)
    ensures TailBits(bs + [b]) == 64 * TailBits(bs) + b % 64
  {
    assert (bs + [b])[..|bs|] == bs;
  }

  lemma TailBits1(a: nat)
    requires a < 64
    ensures TailBits([Tail(a)]) == a
  {
    TailBitsSnoc([], Tail(a));
    assert [] + [Tail(a)] == [Tail(a)];
  }

  lemma TailBits2(a: nat, b: nat)
    requires a < 64 && b < 64
    ensures TailBits([Tail(a), Tail(b)]) == 64 * a + b
  {
    TailBits1(a);
    TailBitsSnoc([Tail(a)], Tail(b));
    assert [Tail(a)] + [Tail(b)] == [Tail(a), Tail(b)];
  }

  lemma TailBits3(a: nat, b: nat, c: nat)
    requires a < 64 && b < 64 && c < 64
    ensures TailBits([Tail(a), Tail(b), Tail(c)]) == 4096 * a + 64 * b + c
  {
    TailBits2(a, b);
    TailBitsSnoc([Tail(a), Tail(b)], Tail(c));
    assert [Tail(a), Tail(b)] + [Tail(c)] == [Tail(a), Tail(b), Tail(c)];
  }

  lemma EncodedBits(c: CodePoint)
    ensures var e := Encode1(c);
            LeadLength(e[0]) == |e| && LeadBits(e[0]) * Power64(|e| - 1) + TailBits(e[1..]) == c
  {
    var e := Encode1(c);
    assert Power64(0) == 1 && Power64(1) == 64 && Power64(2) == 4096 && Power64(3) == 262144;
    if |e| == 1 {
      assert TailBits([]) == 0;
    } else if |e| == 2 {
      TailBits1(c % 64);
      assert e[1..] == [Tail(c % 64)];
    } else if |e| == 3 {
      TailBits2(c / 64 % 64, c % 64);
      assert e[1..] == [Tail(c / 64 % 64), Tail(c % 64)];
    } else {
      TailBits3(c / 64 / 64 % 64, c / 64 % 64, c % 64);
      assert e[1..] == [Tail(c / 64 / 64 % 64), Tail(c / 64 % 64), Tail(c % 64)];
    }
  }

  lemma Decode1Encode1(c: CodePoint, rest: Bytes)
    ensures Decode1(Encode1(c) + rest) == Some((c, rest))
  {
    hide TailBits;
    hide LeadBits;
    hide LeadLength;
    EncodedBits(c);
    var e := Encode1(c);
    var bs := e + rest;
    assert bs[0] == e[0] && bs[1..|e|] == e[1..] && bs[|e|..] == rest;
  }

  // ---- strings ------------------------------------------------------------

  function Encode(s: Name): Bytes {
    if s == [] then [] else Encode1(s[0]) + Encode(s[1..])
  }

  /** Decode exactly n characters. */
  function DecodeN(n: nat, bs: Bytes): Option<(seq<nat>, Bytes)> {
    if n == 0 then Some(([], bs))
    else
      match Decode1(bs)
      case None => None
      case Some((c, rest)) =>
        match DecodeN(n - 1, rest)
        case None => None
        case Some((cs, tail)) => Some(([c] + cs, tail))
  }

  /** Knowing the number of code points is enough to find where a UTF-8 string stops. */
  lemma {:induction false} DecodeNEncode(s: Name, rest: Bytes)
    ensures DecodeN(|s|, Encode(s) + rest) == Some((s, rest))
  {
    if s == [] {
      assert Encode(s) + rest == rest;
    } else {
      var tail := Encode(s[1..]) + rest;
      assert Encode(s) + rest == Encode1(s[0]) + tail;
      Decode1Encode1(s[0], tail);
      DecodeNEncode(s[1..], rest);
      assert [s[0]] + s[1..] == s;
    }
  }

  // ---- fixed-width integers -----------------------------------------------

  function Power256(w: nat): nat { if w == 0 then 1 else 256 * Power256(w - 1) }

  /** `n.to_bytes(w, "big")` when it fits. */
  function BigEndian(n: nat, w: nat): (b: Bytes)
    ensures |b| == w
  {
    if w == 0 then [] else BigEndian(n / 256, w - 1) + [n % 256]
  }

  function ParseBigEndian(bs: Bytes): nat {
    if bs == [] then 0 else 256 * ParseBigEndian(bs[..|bs| - 1]) + bs[|bs| - 1]
  }

  lemma {:induction false} BigEndianRoundTrip(n: nat, w: nat)
    requires n < Power256(w)
    ensures ParseBigEndian(BigEndian(n, w)) == n
  {
    if w > 0 {
      BigEndianRoundTrip(n / 256, w - 1);
      assert BigEndian(n, w)[..w - 1] == BigEndian(n / 256, w - 1);
    }
  }
}
