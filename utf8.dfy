/**
 * UTF-8 as defined by the syntax of section 4 of RFC 3629: the classifier the
 * service uses to decide whether a blob is text, together with the encoding of
 * a string into bytes and the decoding of bytes back into a string.
 */
module Utf8 {
  import opened Results

  type byte = b: int | 0 <= b < 0x100

  /** UTF8-tail = %x80-BF */
  predicate IsTail(b: byte) {
    0x80 <= b <= 0xBF
  }

  /** The range allowed for the second octet of a three-octet character led by `b0`. */
  predicate SecondOfThree(b0: byte, b1: byte) {
    if b0 == 0xE0 then 0xA0 <= b1 <= 0xBF
    else if b0 == 0xED then 0x80 <= b1 <= 0x9F
    else IsTail(b1)
  }

  /** The range allowed for the second octet of a four-octet character led by `b0`. */
  predicate SecondOfFour(b0: byte, b1: byte) {
    if b0 == 0xF0 then 0x90 <= b1 <= 0xBF
    else if b0 == 0xF4 then 0x80 <= b1 <= 0x8F
    else IsTail(b1)
  }

  /**
   * The number of octets of the UTF8-char at the front of `s`, or 0 when `s`
   * does not start with one.
   */
  function FirstCharLength(s: seq<byte>): (n: nat)
    ensures n <= 4 && n <= |s|
    ensures n > 0 ==> |s| > 0
  {
    if |s| == 0 then 0
    else if s[0] <= 0x7F then 1
    else if 0xC2 <= s[0] <= 0xDF then
      (if 2 <= |s| && IsTail(s[1]) then 2 else 0)
    else if 0xE0 <= s[0] <= 0xEF then
      (if 3 <= |s| && SecondOfThree(s[0], s[1]) && IsTail(s[2]) then 3 else 0)
    else if 0xF0 <= s[0] <= 0xF4 then
      (if 4 <= |s| && SecondOfFour(s[0], s[1]) && IsTail(s[2]) && IsTail(s[3]) then 4 else 0)
    else 0
  }

  /** UTF8-octets = *( UTF8-char ): `s` is well-formed UTF-8 end to end. */
  predicate IsValid(s: seq<byte>)
    ensures IsValid(s) && |s| > 0 ==> s[0] < 0x80 || 0xC2 <= s[0] <= 0xF4
    ensures IsValid(s) && |s| > 0 ==> s[|s| - 1] < 0xC0
    decreases |s|
  {
    |s| == 0 || (FirstCharLength(s) > 0 && IsValid(s[FirstCharLength(s)..]))
  }

  /** True when `n` is a Unicode scalar value, the values a `char` holds. */
  predicate IsScalar(n: int) {
    0 <= n < 0xD800 || 0xE000 <= n < 0x11_0000
  }

  /** The scalar value of the UTF8-char at the front of `s`. */
  function DecodeFirst(s: seq<byte>): (c: char)
    requires FirstCharLength(s) > 0
  {
    var n := FirstCharLength(s);
    var b0: int, b1: int := s[0], if n >= 2 then s[1] else 0;
    var b2: int, b3: int := if n >= 3 then s[2] else 0, if n == 4 then s[3] else 0;
    var v :=
      if n == 1 then b0
      else if n == 2 then (b0 - 0xC0) * 64 + (b1 - 0x80)
      else if n == 3 then ((b0 - 0xE0) * 64 + (b1 - 0x80)) * 64 + (b2 - 0x80)
      else (((b0 - 0xF0) * 64 + (b1 - 0x80)) * 64 + (b2 - 0x80)) * 64 + (b3 - 0x80);
    assert IsScalar(v);
    v as char
  }

  /** The octets that encode one character. */
  function EncodeChar(c: char): (b: seq<byte>)
    ensures 1 <= |b| <= 4
  {
    var n := c as int;
    if n < 0x80 then [n]
    else if n < 0x800 then [0xC0 + n / 64, 0x80 + n % 64]
    else if n < 0x1_0000 then
      var hi := n / 64;
      [0xE0 + hi / 64, 0x80 + hi % 64, 0x80 + n % 64]
    else
      var hi := n / 64;
      var top := hi / 64;
      [0xF0 + top / 64, 0x80 + top % 64, 0x80 + hi % 64, 0x80 + n % 64]
  }

  /** The UTF-8 encoding of a string (Rust's `str::as_bytes`). */
  function Encode(s: string): (b: seq<byte>)
    ensures |s| <= |b| <= 4 * |s|
  {
    if s == [] then [] else EncodeChar(s[0]) + Encode(s[1..])
  }

  /** Decoding of a byte sequence as UTF-8 (Rust's `String::from_utf8`): None when it is not well-formed. */
  function Decode(s: seq<byte>): (r: Option<string>)
    ensures r.Some? ==> |r.value| <= |s|
    decreases |s|
  {
    if |s| == 0 then Some([])
    else if FirstCharLength(s) == 0 then None
    else match Decode(s[FirstCharLength(s)..])
      case None => None
      case Some(rest) => Some([DecodeFirst(s)] + rest)
  }

  /** Every character's encoding is a well-formed UTF8-char, whatever follows it, and decodes back to it. */
  lemma EncodeCharDecodes(c: char, rest: seq<byte>)
    ensures FirstCharLength(EncodeChar(c) + rest) == |EncodeChar(c)|
    ensures DecodeFirst(EncodeChar(c) + rest) == c
  {
    var n := c as int;
    if n < 0x80 {
    } else if n < 0x800 {
      EncodeTwoDecodes(c, rest);
    } else if n < 0x1_0000 {
      EncodeThreeDecodes(c, rest);
    } else {
      EncodeFourDecodes(c, rest);
    }
  }

  /** The two-octet case of EncodeCharDecodes. */
  lemma EncodeTwoDecodes(c: char, rest: seq<byte>)
    requires 0x80 <= c as int < 0x800
    ensures FirstCharLength(EncodeChar(c) + rest) == 2
    ensures DecodeFirst(EncodeChar(c) + rest) == c
  {
    var n := c as int;
    var s := EncodeChar(c) + rest;
    assert s[0] == 0xC0 + n / 64 && s[1] == 0x80 + n % 64;
  }

  /** The three-octet case of EncodeCharDecodes. */
  lemma EncodeThreeDecodes(c: char, rest: seq<byte>)
    requires 0x800 <= c as int < 0x1_0000
    ensures FirstCharLength(EncodeChar(c) + rest) == 3
    ensures DecodeFirst(EncodeChar(c) + rest) == c
  {
    var n := c as int;
    var hi := n / 64;
    var s := EncodeChar(c) + rest;
    assert s[0] == 0xE0 + hi / 64 && s[1] == 0x80 + hi % 64 && s[2] == 0x80 + n % 64;
  }

  /** The four-octet case of EncodeCharDecodes. */
  lemma EncodeFourDecodes(c: char, rest: seq<byte>)
    requires 0x1_0000 <= c as int
    ensures FirstCharLength(EncodeChar(c) + rest) == 4
    ensures DecodeFirst(EncodeChar(c) + rest) == c
  {
    var n := c as int;
    var hi := n / 64;
    var top := hi / 64;
    var s := EncodeChar(c) + rest;
    assert s[0] == 0xF0 + top / 64 && s[1] == 0x80 + top % 64;
    assert s[2] == 0x80 + hi % 64 && s[3] == 0x80 + n % 64;
  }

  /** Splitting off six bits undoes appending them. */
  lemma DivMod64(q: int, r: int)
    requires 0 <= q && 0 <= r < 64
    ensures (q * 64 + r) / 64 == q && (q * 64 + r) % 64 == r
  {
  }

  /** A well-formed UTF8-char is the encoding of the character it decodes to. */
  lemma DecodeFirstEncodes(s: seq<byte>)
    requires FirstCharLength(s) > 0
    ensures EncodeChar(DecodeFirst(s)) == s[..FirstCharLength(s)]
  {
    var n := FirstCharLength(s);
    if n == 2 {
      DecodeTwoEncodes(s);
    } else if n == 3 {
      DecodeThreeEncodes(s);
    } else if n == 4 {
      DecodeFourEncodes(s);
    }
  }

  /** The two-octet case of DecodeFirstEncodes. */
  lemma DecodeTwoEncodes(s: seq<byte>)
    requires FirstCharLength(s) == 2
    ensures EncodeChar(DecodeFirst(s)) == s[..2]
  {
    DivMod64(s[0] - 0xC0, s[1] - 0x80);
  }

  /** The three-octet case of DecodeFirstEncodes. */
  lemma DecodeThreeEncodes(s: seq<byte>)
    requires FirstCharLength(s) == 3
    ensures EncodeChar(DecodeFirst(s)) == s[..3]
  {
    var b0: int, b1: int, b2: int := s[0], s[1], s[2];
    DivMod64((b0 - 0xE0) * 64 + (b1 - 0x80), b2 - 0x80);
    DivMod64(b0 - 0xE0, b1 - 0x80);
  }

  /** The four-octet case of DecodeFirstEncodes. */
  lemma DecodeFourEncodes(s: seq<byte>)
    requires FirstCharLength(s) == 4
    ensures EncodeChar(DecodeFirst(s)) == s[..4]
  {
    var b0: int, b1: int, b2: int, b3: int := s[0], s[1], s[2], s[3];
    var top := (b0 - 0xF0) * 64 + (b1 - 0x80);
    DivMod64(top * 64 + (b2 - 0x80), b3 - 0x80);
    DivMod64(top, b2 - 0x80);
    DivMod64(b0 - 0xF0, b1 - 0x80);
  }

  /** Decoding inverts encoding: every string survives `as_bytes` followed by `from_utf8`. */
  lemma {:induction false} DecodeEncode(s: string)
    ensures Decode(Encode(s)) == Some(s)
  {
    if s != [] {
      var e := Encode(s[1..]);
      EncodeCharDecodes(s[0], e);
      assert (EncodeChar(s[0]) + e)[|EncodeChar(s[0])|..] == e;
      DecodeEncode(s[1..]);
      assert [s[0]] + s[1..] == s;
    }
  }

  /** The encoding of a string is the encoding of no other string. */
  lemma EncodeIsInjective(a: string, b: string)
    requires Encode(a) == Encode(b)
    ensures a == b
  {
    DecodeEncode(a);
    DecodeEncode(b);
  }

  /** Encoding inverts decoding: bytes accepted as text are exactly the encoding of the decoded text. */
  lemma {:induction false} EncodeDecode(b: seq<byte>)
    requires Decode(b).Some?
    ensures Encode(Decode(b).value) == b
    decreases |b|
  {
    if |b| > 0 {
      var n := FirstCharLength(b);
      DecodeStep(b);
      var c, rest := DecodeFirst(b), Decode(b[n..]).value;
      EncodeDecode(b[n..]);
      DecodeFirstEncodes(b);
      EncodeCons(c, rest);
      SplitJoin(b, n);
      calc {
        Encode(Decode(b).value);
        Encode([c] + rest);
        EncodeChar(c) + Encode(rest);
        b[..n] + b[n..];
        b;
      }
    }
  }

  /** A sequence is its prefix followed by its suffix. */
  lemma SplitJoin<T>(s: seq<T>, n: nat)
    requires n <= |s|
    ensures s[..n] + s[n..] == s
  {
  }

  /** Decoding a non-empty sequence decodes its first character and then the rest. */
  lemma DecodeStep(b: seq<byte>)
    requires |b| > 0 && Decode(b).Some?
    ensures FirstCharLength(b) > 0 && Decode(b[FirstCharLength(b)..]).Some?
    ensures Decode(b).value == [DecodeFirst(b)] + Decode(b[FirstCharLength(b)..]).value
  {
  }

  /** Encoding a string encodes its first character and then the rest. */
  lemma EncodeCons(c: char, rest: string)
    ensures Encode([c] + rest) == EncodeChar(c) + Encode(rest)
  {
    assert ([c] + rest)[1..] == rest;
  }

  /** The grammar of RFC 3629 accepts exactly the byte sequences that decode. */
  lemma {:induction false} ValidIffDecodes(b: seq<byte>)
    ensures IsValid(b) <==> Decode(b).Some?
    decreases |b|
  {
    if |b| > 0 && FirstCharLength(b) > 0 {
      ValidIffDecodes(b[FirstCharLength(b)..]);
    }
  }

  /** The encoding of any string is valid UTF-8, so text is never classified as binary. */
  lemma {:induction false} EncodedIsValid(s: string)
    ensures IsValid(Encode(s))
  {
    DecodeEncode(s);
    ValidIffDecodes(Encode(s));
  }
}
