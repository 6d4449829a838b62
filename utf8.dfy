/**
 * UTF-8, as `str.encode("UTF-8")` produces it: the autocomplete step of
 * src/documents/index.py compares the engine's matched terms, which are
 * bytes, with the encoded search term. A Dafny `char` is a Unicode scalar
 * value, so every string here has an encoding.
 */
module Utf8 {
  import opened Wrappers

  newtype byte = x: int | 0 <= x < 0x100

  type Bytes = seq<byte>

  /** Code points a `char` can hold: everything up to U+10FFFF except the surrogates. */
  predicate IsScalar(cp: int) {
    0 <= cp < 0xD800 || 0xE000 <= cp < 0x11_0000
  }

  /** The number of bytes the encoding of `cp` takes. */
  function EncodedLength(cp: int): nat {
    if cp < 0x80 then 1 else if cp < 0x800 then 2 else if cp < 0x1_0000 then 3 else 4
  }

  /** The length a sequence announces in its lead byte; 0 for a byte that cannot start one. */
  function LeadLength(lead: byte): nat {
    if lead < 0x80 then 1
    else if lead < 0xC0 then 0
    else if lead < 0xE0 then 2
    else if lead < 0xF0 then 3
    else if lead < 0xF8 then 4
    else 0
  }

  predicate IsContinuation(b: byte) {
    0x80 <= b < 0xC0
  }

  /** The shortest-form encoding of one code point. */
  function EncodeCodePoint(cp: int): (r: Bytes)
    requires IsScalar(cp)
    ensures |r| == EncodedLength(cp)
  {
    if cp < 0x80 then
      [cp as byte]
    else if cp < 0x800 then
      [(0xC0 + cp / 0x40) as byte, (0x80 + cp % 0x40) as byte]
    else if cp < 0x1_0000 then
      [(0xE0 + cp / 0x1000) as byte, (0x80 + cp / 0x40 % 0x40) as byte, (0x80 + cp % 0x40) as byte]
    else
      [(0xF0 + cp / 0x4_0000) as byte, (0x80 + cp / 0x1000 % 0x40) as byte,
       (0x80 + cp / 0x40 % 0x40) as byte, (0x80 + cp % 0x40) as byte]
  }

  /** The code point a sequence of one to four bytes carries, payload bits only. */
  function DecodeCodePoint(b: Bytes): int
    requires 1 <= |b| <= 4
  {
    if |b| == 1 then
      b[0] as int
    else if |b| == 2 then
      (b[0] as int - 0xC0) * 0x40 + (b[1] as int - 0x80)
    else if |b| == 3 then
      (b[0] as int - 0xE0) * 0x1000 + (b[1] as int - 0x80) * 0x40 + (b[2] as int - 0x80)
    else
      (b[0] as int - 0xF0) * 0x4_0000 + (b[1] as int - 0x80) * 0x1000
        + (b[2] as int - 0x80) * 0x40 + (b[3] as int - 0x80)
  }

  /** One encoded code point: its lead byte announces its length, the rest are continuation bytes, and it reads back. */
  lemma CodePointRoundTrip(cp: int)
    requires IsScalar(cp)
    ensures var b := EncodeCodePoint(cp);
            && LeadLength(b[0]) == |b|
            && (forall k :: 1 <= k < |b| ==> IsContinuation(b[k]))
            && DecodeCodePoint(b) == cp
  {
    if cp < 0x80 {
    } else if cp < 0x800 {
      TwoByteRoundTrip(cp);
    } else if cp < 0x1_0000 {
      ThreeByteRoundTrip(cp);
    } else {
      FourByteRoundTrip(cp);
    }
  }

  lemma TwoByteRoundTrip(cp: int)
    requires 0x80 <= cp < 0x800
    ensures var b := EncodeCodePoint(cp);
            && LeadLength(b[0]) == 2 && IsContinuation(b[1]) && DecodeCodePoint(b) == cp
  {
    var hi, lo := cp / 0x40, cp % 0x40;
    assert cp == hi * 0x40 + lo;
    assert 2 <= hi < 0x20;
  }

  lemma ThreeByteRoundTrip(cp: int)
    requires 0x800 <= cp < 0x1_0000 && IsScalar(cp)
    ensures var b := EncodeCodePoint(cp);
            && LeadLength(b[0]) == 3 && IsContinuation(b[1]) && IsContinuation(b[2])
            && DecodeCodePoint(b) == cp
  {
    var q, lo := cp / 0x40, cp % 0x40;
    var hi, mid := q / 0x40, q % 0x40;
    assert cp == q * 0x40 + lo;
    assert q == hi * 0x40 + mid;
    assert cp / 0x1000 == hi;
    assert cp / 0x40 % 0x40 == mid;
  }

  lemma FourByteRoundTrip(cp: int)
    requires 0x1_0000 <= cp < 0x11_0000
    ensures var b := EncodeCodePoint(cp);
            && LeadLength(b[0]) == 4 && IsContinuation(b[1]) && IsContinuation(b[2]) && IsContinuation(b[3])
            && DecodeCodePoint(b) == cp
  {
    var q, lo := cp / 0x40, cp % 0x40;
    var p, mid := q / 0x40, q % 0x40;
    var hi, upper := p / 0x40, p % 0x40;
    assert cp == q * 0x40 + lo;
    assert q == p * 0x40 + mid;
    assert p == hi * 0x40 + upper;
    assert cp / 0x1000 == p;
    assert cp / 0x4_0000 == hi;
    assert cp / 0x1000 % 0x40 == upper;
    assert cp / 0x40 % 0x40 == mid;
  }

  function EncodeString(s: string): (r: Bytes)
    ensures |r| >= |s|
    ensures s == [] <==> r == []
  {
    if s == [] then [] else EncodeCodePoint(s[0] as int) + EncodeString(s[1..])
  }

  /** Strict decoding: a byte string is valid UTF-8 when it splits into shortest-form encodings of scalar values. */
  function Decode(b: Bytes): (r: Option<string>)
    decreases |b|
  {
    if b == [] then Some("")
    else
      var n := LeadLength(b[0]);
      if n == 0 || |b| < n then None
      else
        var cp := DecodeCodePoint(b[..n]);
        if !IsScalar(cp) || EncodeCodePoint(cp) != b[..n] then None
        else
          var rest := Decode(b[n..]);
          if rest.None? then None else Some([cp as char] + rest.value)
  }

  /** How a valid, non-empty byte string decodes: one code point, then the rest. */
  lemma DecodeHead(b: Bytes)
    requires b != [] && Decode(b).Some?
    ensures var n := LeadLength(b[0]);
            && 0 < n <= |b|
            && IsScalar(DecodeCodePoint(b[..n]))
            && EncodeCodePoint(DecodeCodePoint(b[..n])) == b[..n]
            && Decode(b[n..]).Some?
            && Decode(b).value == [DecodeCodePoint(b[..n]) as char] + Decode(b[n..]).value
  {
  }

  lemma EncodeCons(cp: int, s: string)
    requires IsScalar(cp)
    ensures EncodeString([cp as char] + s) == EncodeCodePoint(cp) + EncodeString(s)
  {
    assert ([cp as char] + s)[1..] == s;
  }

  /** Encoding the decoded text re-encodes the first code point, then the decoded rest. */
  lemma DecodeEncodeStep(b: Bytes)
    requires b != [] && Decode(b).Some?
    ensures var n := LeadLength(b[0]);
            && 0 < n <= |b| && Decode(b[n..]).Some?
            && EncodeString(Decode(b).value) == b[..n] + EncodeString(Decode(b[n..]).value)
  {
    DecodeHead(b);
    var n := LeadLength(b[0]);
    EncodeCons(DecodeCodePoint(b[..n]), Decode(b[n..]).value);
  }

  lemma SplitAt(b: Bytes, n: nat)
    requires n <= |b|
    ensures b[..n] + b[n..] == b
  {
  }

  /** Decoding a valid byte string and encoding the text again gives the same bytes. */
  lemma {:induction false} DecodeEncode(b: Bytes)
    requires Decode(b).Some?
    ensures EncodeString(Decode(b).value) == b
    decreases |b|
  {
    if b != [] {
      DecodeEncodeStep(b);
      var n := LeadLength(b[0]);
      DecodeEncode(b[n..]);
      SplitAt(b, n);
    }
  }

  /** Encoding then decoding gives the text back: the encoding loses nothing. */
  lemma {:induction false} EncodeDecode(s: string)
    ensures Decode(EncodeString(s)) == Some(s)
  {
    if s != [] {
      var cp := s[0] as int;
      var head := EncodeCodePoint(cp);
      var b := EncodeString(s);
      CodePointRoundTrip(cp);
      EncodeDecode(s[1..]);
      assert b[..|head|] == head;
      assert b[|head|..] == EncodeString(s[1..]);
      assert (cp as char) == s[0];
      assert [s[0]] + s[1..] == s;
    }
  }

  /** Different texts have different encodings, so comparing encoded terms compares the terms. */
  lemma EncodeInjective(s: string, t: string)
    requires EncodeString(s) == EncodeString(t)
    ensures s == t
  {
    EncodeDecode(s);
    EncodeDecode(t);
  }
}
