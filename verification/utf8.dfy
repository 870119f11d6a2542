/** UTF-8 (RFC 3629) as protobuf's Python runtime applies it when a `bytes`
    value is given to a `string` field: the bytes are accepted only if they
    are well-formed UTF-8, and the field then holds the characters they
    encode.  Well-formed means the shortest form of a Unicode scalar value:
    no overlong sequence, no surrogate code point, nothing above U+10FFFF
    (the table of section 4 of RFC 3629). */
module Utf8 {
  import opened Errors

  /** A continuation byte, `10xxxxxx`. */
  predicate IsCont(b: byte)
  {
    0x80 <= b <= 0xBF
  }

  /** The shortest encoding of one character (section 3 of RFC 3629). */
  function EncodeChar(c: char): (r: Bytes)
    ensures 1 <= |r| <= 4
    ensures |r| == 1 <==> (c as int) < 0x80
    ensures forall i | 1 <= i < |r| :: IsCont(r[i])
  {
    var n := c as int;
    if n < 0x80 then [n as byte]
    else if n < 0x800 then [(0xC0 + n / 64) as byte, (0x80 + n % 64) as byte]
    else if n < 0x10000 then
      [(0xE0 + n / 64 / 64) as byte, (0x80 + n / 64 % 64) as byte, (0x80 + n % 64) as byte]
    else
      [(0xF0 + n / 64 / 64 / 64) as byte, (0x80 + n / 64 / 64 % 64) as byte,
       (0x80 + n / 64 % 64) as byte, (0x80 + n % 64) as byte]
  }

  /** The encoding of a string: its characters' encodings, in order. */
  function EncodeString(s: string): (r: Bytes)
    ensures |r| >= |s|
  {
    if |s| == 0 then [] else EncodeChar(s[0]) + EncodeString(s[1..])
  }

  /** The bounds the second byte of a multi-byte sequence must lie in,
      given its lead byte: tighter than a plain continuation byte after E0
      and F0 (no overlong forms), ED (no surrogates) and F4 (nothing above
      U+10FFFF). */
  function SecondLow(lead: byte): byte
  {
    if lead == 0xE0 then 0xA0 else if lead == 0xF0 then 0x90 else 0x80
  }

  function SecondHigh(lead: byte): byte
  {
    if lead == 0xED then 0x9F else if lead == 0xF4 then 0x8F else 0xBF
  }

  /** The character a well-formed sequence at the start of `b` encodes, and
      the sequence's length; `None` if `b` does not start with one. */
  function DecodeChar(b: Bytes): (r: Option<(char, nat)>)
    ensures r.Some? ==> 1 <= r.value.1 <= |b| && EncodeChar(r.value.0) == b[..r.value.1]
  {
    if |b| == 0 then None
    else
      var b0 := b[0];
      if b0 < 0x80 then
        Some(((b0 as int) as char, 1))
      else if 0xC2 <= b0 <= 0xDF then
        if |b| < 2 || !IsCont(b[1]) then None
        else
          assert b[..2] == [b0, b[1]];
          Some((Char2(b0, b[1]), 2))
      else if 0xE0 <= b0 <= 0xEF then
        if |b| < 3 || !(SecondLow(b0) <= b[1] <= SecondHigh(b0)) || !IsCont(b[2]) then None
        else
          assert b[..3] == [b0, b[1], b[2]];
          Some((Char3(b0, b[1], b[2]), 3))
      else if 0xF0 <= b0 <= 0xF4 then
        if |b| < 4 || !(SecondLow(b0) <= b[1] <= SecondHigh(b0)) || !IsCont(b[2]) || !IsCont(b[3]) then None
        else
          assert b[..4] == [b0, b[1], b[2], b[3]];
          Some((Char4(b0, b[1], b[2], b[3]), 4))
      else None
  }

  /** The character of a well-formed two-byte sequence. */
  function Char2(b0: byte, b1: byte): (c: char)
    requires 0xC2 <= b0 <= 0xDF && IsCont(b1)
    ensures EncodeChar(c) == [b0, b1]
  {
    ((b0 as int - 0xC0) * 64 + (b1 as int - 0x80)) as char
  }

  /** The character of a well-formed three-byte sequence. */
  function Char3(b0: byte, b1: byte, b2: byte): (c: char)
    requires 0xE0 <= b0 <= 0xEF && SecondLow(b0) <= b1 <= SecondHigh(b0) && IsCont(b2)
    ensures EncodeChar(c) == [b0, b1, b2]
  {
    (((b0 as int - 0xE0) * 64 + (b1 as int - 0x80)) * 64 + (b2 as int - 0x80)) as char
  }

  /** The character of a well-formed four-byte sequence. */
  function Char4(b0: byte, b1: byte, b2: byte, b3: byte): (c: char)
    requires 0xF0 <= b0 <= 0xF4 && SecondLow(b0) <= b1 <= SecondHigh(b0) && IsCont(b2) && IsCont(b3)
    ensures EncodeChar(c) == [b0, b1, b2, b3]
  {
    var hi := (b0 as int - 0xF0) * 64 + (b1 as int - 0x80);
    var mid := hi * 64 + (b2 as int - 0x80);
    var n := mid * 64 + (b3 as int - 0x80);
    SplitSix(mid, b3 as int - 0x80);
    SplitSix(hi, b2 as int - 0x80);
    SplitSix(b0 as int - 0xF0, b1 as int - 0x80);
    assert 0x10000 <= n <= 0x10FFFF;
    n as char
  }

  /** Splitting off the low six bits of `q * 64 + r`. */
  lemma SplitSix(q: int, r: int)
    requires 0 <= r < 64
    ensures (q * 64 + r) / 64 == q && (q * 64 + r) % 64 == r
  {
  }

  /** Strict decoding of a whole byte string; `None` for ill-formed input. */
  function Decode(b: Bytes): (r: Option<string>)
    ensures r.Some? ==> EncodeString(r.value) == b
    decreases |b|
  {
    if |b| == 0 then Some([])
    else
      match DecodeChar(b)
      case None => None
      case Some((c, k)) =>
        match Decode(b[k..])
        case None => None
        case Some(rest) =>
          assert b == b[..k] + b[k..];
          Some([c] + rest)
  }

  /** The decoder reads back the character at the head of any encoding. */
  lemma DecodeEncodedChar(c: char, rest: Bytes)
    ensures DecodeChar(EncodeChar(c) + rest) == Some((c, |EncodeChar(c)|))
  {
    var n := c as int;
    var b := EncodeChar(c) + rest;
    if n < 0x80 {
    } else if n < 0x800 {
      assert b[0] as int == 0xC0 + n / 64 && b[1] as int == 0x80 + n % 64;
    } else if n < 0x10000 {
      assert b[0] as int == 0xE0 + n / 64 / 64;
      assert b[1] as int == 0x80 + n / 64 % 64;
      assert b[2] as int == 0x80 + n % 64;
      assert (n / 64 / 64 * 64 + n / 64 % 64) * 64 + n % 64 == n;
    } else {
      assert b[0] as int == 0xF0 + n / 64 / 64 / 64;
      assert b[1] as int == 0x80 + n / 64 / 64 % 64;
      assert b[2] as int == 0x80 + n / 64 % 64;
      assert b[3] as int == 0x80 + n % 64;
      assert ((n / 64 / 64 / 64 * 64 + n / 64 / 64 % 64) * 64 + n / 64 % 64) * 64 + n % 64 == n;
    }
  }

  /** Decoding undoes encoding. */
  lemma {:induction false} DecodeEncoded(s: string)
    ensures Decode(EncodeString(s)) == Some(s)
  {
    if |s| > 0 {
      var b := EncodeString(s);
      DecodeEncodedChar(s[0], EncodeString(s[1..]));
      assert b[|EncodeChar(s[0])|..] == EncodeString(s[1..]);
      DecodeEncoded(s[1..]);
      assert s == [s[0]] + s[1..];
    }
  }

  /** Bytes decode to a string exactly when they are that string's
      encoding, so strict decoding accepts precisely the encodings. */
  lemma DecodeIffEncoding(b: Bytes, s: string)
    ensures Decode(b) == Some(s) <==> EncodeString(s) == b
  {
    if EncodeString(s) == b {
      DecodeEncoded(s);
    }
  }

  /** ASCII bytes decode to the characters with the same codes. */
  lemma {:induction false} AsciiDecodes(b: Bytes)
    requires forall i | 0 <= i < |b| :: b[i] < 0x80
    ensures Decode(b).Some? && |Decode(b).value| == |b|
    ensures forall i | 0 <= i < |b| :: Decode(b).value[i] as int == b[i] as int
  {
    if |b| > 0 {
      AsciiDecodes(b[1..]);
    }
  }

  /** Sample sequences: "é" in two bytes decodes, while a lone 0xFF, an
      overlong NUL, an encoded surrogate and a code point above U+10FFFF
      are all rejected. */
  lemma SampleSequences()
    ensures Decode([0xC3, 0xA9]) == Some("\U{E9}")
    ensures Decode([0xFF]) == None
    ensures Decode([0xC0, 0x80]) == None
    ensures Decode([0xED, 0xA0, 0x80]) == None
    ensures Decode([0xF4, 0x90, 0x80, 0x80]) == None
  {
    assert EncodeString("\U{E9}") == EncodeChar('\U{E9}') + EncodeString([]);
    DecodeEncoded("\U{E9}");
  }
}
