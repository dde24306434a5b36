/** Unpadded base64url (section 5 of RFC 4648), the encoding behind JWK members,
    `ath` values, thumbprints and block identifiers. Decoding is strict: a length
    of one modulo four, a foreign character or non-zero trailing bits is an error. */
module Base64Url {
  import opened Prelude

  type Sextet = v: int | 0 <= v < 64

  function Digit(v: Sextet): char {
    if v < 26 then ('A' as int + v) as char
    else if v < 52 then ('a' as int + (v - 26)) as char
    else if v < 62 then ('0' as int + (v - 52)) as char
    else if v == 62 then '-'
    else '_'
  }

  predicate IsDigit(c: char) {
    'A' <= c <= 'Z' || 'a' <= c <= 'z' || '0' <= c <= '9' || c == '-' || c == '_'
  }

  function Value(c: char): Sextet
    requires IsDigit(c)
  {
    if 'A' <= c <= 'Z' then c as int - 'A' as int
    else if 'a' <= c <= 'z' then c as int - 'a' as int + 26
    else if '0' <= c <= '9' then c as int - '0' as int + 52
    else if c == '-' then 62
    else 63
  }

  predicate AllDigits(s: string) {
    forall i :: 0 <= i < |s| ==> IsDigit(s[i])
  }

  // The four sextets of a three-byte group, and the three bytes of a four-digit
  // group. A missing byte or digit at the end counts as zero.
  function Sextet0(b0: Byte): Sextet { b0 / 4 }
  function Sextet1(b0: Byte, b1: Byte): Sextet { b0 % 4 * 16 + b1 / 16 }
  function Sextet2(b1: Byte, b2: Byte): Sextet { b1 % 16 * 4 + b2 / 64 }
  function Sextet3(b2: Byte): Sextet { b2 % 64 }

  function Byte0(v0: Sextet, v1: Sextet): Byte { v0 * 4 + v1 / 16 }
  function Byte1(v1: Sextet, v2: Sextet): Byte { v1 % 16 * 16 + v2 / 4 }
  function Byte2(v2: Sextet, v3: Sextet): Byte { v2 % 4 * 64 + v3 }

  function Encode(b: Bytes): string {
    if |b| == 0 then ""
    else if |b| == 1 then [Digit(Sextet0(b[0])), Digit(Sextet1(b[0], 0))]
    else if |b| == 2 then
      [Digit(Sextet0(b[0])), Digit(Sextet1(b[0], b[1])), Digit(Sextet2(b[1], 0))]
    else
      [Digit(Sextet0(b[0])), Digit(Sextet1(b[0], b[1])), Digit(Sextet2(b[1], b[2])), Digit(Sextet3(b[2]))]
      + Encode(b[3..])
  }

  function Decode(s: string): Option<Bytes> {
    if |s| == 0 then Some([])
    else if |s| == 1 || !AllDigits(s) then None
    else if |s| == 2 then
      if Value(s[1]) % 16 != 0 then None
      else Some([Byte0(Value(s[0]), Value(s[1]))])
    else if |s| == 3 then
      if Value(s[2]) % 4 != 0 then None
      else Some([Byte0(Value(s[0]), Value(s[1])), Byte1(Value(s[1]), Value(s[2]))])
    else
      match Decode(s[4..])
      case None => None
      case Some(rest) => Some(Group(s[0], s[1], s[2], s[3]) + rest)
  }

  function Group(c0: char, c1: char, c2: char, c3: char): Bytes
    requires IsDigit(c0) && IsDigit(c1) && IsDigit(c2) && IsDigit(c3)
  {
    [Byte0(Value(c0), Value(c1)), Byte1(Value(c1), Value(c2)), Byte2(Value(c2), Value(c3))]
  }

  lemma BytesOfSextets(b0: Byte, b1: Byte, b2: Byte)
    ensures Byte0(Sextet0(b0), Sextet1(b0, b1)) == b0
    ensures Byte1(Sextet1(b0, b1), Sextet2(b1, b2)) == b1
    ensures Byte2(Sextet2(b1, b2), Sextet3(b2)) == b2
    ensures Sextet1(b0, 0) % 16 == 0 && Sextet2(b1, 0) % 4 == 0
  {
  }

  lemma SextetsOfBytes(v0: Sextet, v1: Sextet, v2: Sextet, v3: Sextet)
    ensures Sextet0(Byte0(v0, v1)) == v0
    ensures Sextet1(Byte0(v0, v1), Byte1(v1, v2)) == v1
    ensures Sextet2(Byte1(v1, v2), Byte2(v2, v3)) == v2
    ensures Sextet3(Byte2(v2, v3)) == v3
    ensures v1 % 16 == 0 ==> Sextet1(Byte0(v0, v1), 0) == v1
    ensures v2 % 4 == 0 ==> Sextet2(Byte1(v1, v2), 0) == v2
  {
  }

  lemma DigitValue(v: Sextet)
    ensures IsDigit(Digit(v)) && Value(Digit(v)) == v
  {
  }

  lemma ValueDigit(c: char)
    requires IsDigit(c)
    ensures Digit(Value(c)) == c
  {
  }

  /** One full group survives encoding and decoding ... */
  lemma GroupOfSextets(b0: Byte, b1: Byte, b2: Byte)
    ensures
      var c0, c1, c2, c3 := Digit(Sextet0(b0)), Digit(Sextet1(b0, b1)), Digit(Sextet2(b1, b2)), Digit(Sextet3(b2));
      && IsDigit(c0) && IsDigit(c1) && IsDigit(c2) && IsDigit(c3)
      && Group(c0, c1, c2, c3) == [b0, b1, b2]
      && (b2 == 0 ==> Value(c2) % 4 == 0)
      && (b1 == 0 ==> Value(c1) % 16 == 0)
  {
    BytesOfSextets(b0, b1, b2);
    hide Digit, Value, IsDigit, Byte0, Byte1, Byte2, Sextet0, Sextet1, Sextet2, Sextet3;
    DigitValue(Sextet0(b0));
    DigitValue(Sextet1(b0, b1));
    DigitValue(Sextet2(b1, b2));
    DigitValue(Sextet3(b2));
  }

  /** ... and decoding and encoding. */
  lemma SextetsOfGroup(c0: char, c1: char, c2: char, c3: char)
    requires IsDigit(c0) && IsDigit(c1) && IsDigit(c2) && IsDigit(c3)
    ensures
      var g := Group(c0, c1, c2, c3);
      && Digit(Sextet0(g[0])) == c0
      && Digit(Sextet1(g[0], g[1])) == c1
      && Digit(Sextet2(g[1], g[2])) == c2
      && Digit(Sextet3(g[2])) == c3
      && (Value(c1) % 16 == 0 ==> Digit(Sextet1(g[0], 0)) == c1)
      && (Value(c2) % 4 == 0 ==> Digit(Sextet2(g[1], 0)) == c2)
  {
    hide Digit, Value, IsDigit;
    ValueDigit(c0);
    ValueDigit(c1);
    ValueDigit(c2);
    ValueDigit(c3);
    SextetsOfBytes(Value(c0), Value(c1), Value(c2), Value(c3));
  }

  /** Length and alphabet of an encoding. */
  lemma {:induction false} EncodeShape(b: Bytes)
    ensures AllDigits(Encode(b))
    ensures |Encode(b)| == (4 * |b| + 2) / 3
  {
    if |b| >= 3 {
      EncodeShape(b[3..]);
    }
  }

  /** The alphabet: its ends, and that it counts up in between. */
  lemma AlphabetOrder(v: Sextet)
    ensures Digit(0) == 'A' && Digit(25) == 'Z' && Digit(26) == 'a' && Digit(51) == 'z'
    ensures Digit(52) == '0' && Digit(61) == '9' && Digit(62) == '-' && Digit(63) == '_'
    ensures v !in {25, 51, 61, 62, 63} ==> Digit(v + 1) as int == Digit(v) as int + 1
  {
  }

  /** The byte at position `k`, zero beyond the end. */
  function ByteAt(b: Bytes, k: nat): Byte { if k < |b| then b[k] else 0 }

  /** The six bits of a byte string that start at an even bit position. */
  function SixBitsAt(b: Bytes, bit: nat): int {
    var two := ByteAt(b, bit / 8) * 256 + ByteAt(b, bit / 8 + 1);
    match bit % 8
    case 0 => two / 1024 % 64
    case 2 => two / 256 % 64
    case 4 => two / 64 % 64
    case _ => two / 16 % 64
  }

  lemma Sextet0Bits(b0: Byte, b1: Byte)
    ensures Sextet0(b0) == (b0 * 256 + b1) / 1024 % 64
  {
    assert b0 * 256 + b1 == 1024 * (b0 / 4) + (b0 % 4 * 256 + b1);
  }

  lemma Sextet1Bits(b0: Byte, b1: Byte)
    ensures Sextet1(b0, b1) == (b0 * 256 + b1) / 16 % 64
  {
    assert b0 * 256 + b1 == 16 * (b0 * 16 + b1 / 16) + b1 % 16;
    assert b0 * 16 + b1 / 16 == 64 * (b0 / 4) + (b0 % 4 * 16 + b1 / 16);
  }

  lemma Sextet2Bits(b0: Byte, b1: Byte)
    ensures Sextet2(b0, b1) == (b0 * 256 + b1) / 64 % 64
  {
    assert b0 * 256 + b1 == 64 * (b0 * 4 + b1 / 64) + b1 % 64;
    assert b0 * 4 + b1 / 64 == 64 * (b0 / 16) + (b0 % 16 * 4 + b1 / 64);
  }

  lemma Sextet3Bits(b0: Byte, b1: Byte)
    ensures Sextet3(b0) == (b0 * 256 + b1) / 256 % 64
  {
  }

  lemma ShiftedBits(b: Bytes, i: nat)
    requires |b| >= 3
    ensures SixBitsAt(b[3..], 6 * i) == SixBitsAt(b, 6 * (i + 4))
  {
    var bit := 6 * i;
    assert 6 * (i + 4) == bit + 24;
    assert (bit + 24) / 8 == bit / 8 + 3 && (bit + 24) % 8 == bit % 8;
    assert ByteAt(b[3..], bit / 8) == ByteAt(b, bit / 8 + 3);
    assert ByteAt(b[3..], bit / 8 + 1) == ByteAt(b, bit / 8 + 4);
  }

  /** What an encoding means: its characters stand for the bits of the byte string, six at
      a time from the first, with zero bits added at the end. */
  lemma {:induction false} EncodeMeans(b: Bytes, i: nat)
    requires i < |Encode(b)|
    ensures IsDigit(Encode(b)[i]) && Value(Encode(b)[i]) == SixBitsAt(b, 6 * i)
    decreases |b|
  {
    if i < 4 {
      FirstGroupMeans(b, i);
    } else {
      assert Encode(b)[i] == Encode(b[3..])[i - 4];
      EncodeMeans(b[3..], i - 4);
      hide SixBitsAt, Value, Digit;
      ShiftedBits(b, i - 4);
    }
  }

  lemma FirstGroupMeans(b: Bytes, i: nat)
    requires i < 4 && i < |Encode(b)|
    ensures IsDigit(Encode(b)[i]) && Value(Encode(b)[i]) == SixBitsAt(b, 6 * i)
  {
    hide Digit, Value, Sextet0, Sextet1, Sextet2, Sextet3;
    var b0, b1, b2 := ByteAt(b, 0), ByteAt(b, 1), ByteAt(b, 2);
    DigitValue(Sextet0(b0));
    DigitValue(Sextet1(b0, b1));
    DigitValue(Sextet2(b1, b2));
    DigitValue(Sextet3(b2));
    Sextet0Bits(b0, b1);
    Sextet1Bits(b0, b1);
    Sextet2Bits(b1, b2);
    Sextet3Bits(b2, ByteAt(b, 3));
    assert SixBitsAt(b, 0) == (b0 * 256 + b1) / 1024 % 64;
    assert SixBitsAt(b, 6) == (b0 * 256 + b1) / 16 % 64;
    assert SixBitsAt(b, 12) == (b1 * 256 + b2) / 64 % 64;
    assert SixBitsAt(b, 18) == (b2 * 256 + ByteAt(b, 3)) / 256 % 64;
    hide SixBitsAt, ByteAt;
  }

  /** Decoding undoes encoding, for every byte string. */
  lemma {:induction false} DecodeEncode(b: Bytes)
    ensures Decode(Encode(b)) == Some(b)
  {
    hide Digit, Value, IsDigit, Sextet0, Sextet1, Sextet2, Sextet3, Byte0, Byte1, Byte2;
    EncodeShape(b);
    var s := Encode(b);
    if |b| == 1 {
      GroupOfSextets(b[0], 0, 0);
      assert Decode(s).value == b;
    } else if |b| == 2 {
      GroupOfSextets(b[0], b[1], 0);
      assert Decode(s).value == b;
    } else if |b| >= 3 {
      DecodeEncode(b[3..]);
      GroupOfSextets(b[0], b[1], b[2]);
      assert s[4..] == Encode(b[3..]);
      assert Decode(s).value == b;
    }
  }

  /** A string that decodes is the one encoding of what it decodes to. */
  lemma {:induction false} EncodeDecode(s: string)
    requires Decode(s).Some?
    ensures Encode(Decode(s).value) == s
    ensures |Decode(s).value| == |s| * 3 / 4
  {
    hide Digit, Value, IsDigit, Sextet0, Sextet1, Sextet2, Sextet3, Byte0, Byte1, Byte2;
    var b := Decode(s).value;
    if |s| == 2 {
      SextetsOfGroup(s[0], s[1], s[0], s[0]);
      assert Encode(b) == s;
    } else if |s| == 3 {
      SextetsOfGroup(s[0], s[1], s[2], s[0]);
      assert Encode(b) == s;
    } else if |s| >= 4 {
      EncodeDecode(s[4..]);
      SextetsOfGroup(s[0], s[1], s[2], s[3]);
      var rest := Decode(s[4..]).value;
      assert b == Group(s[0], s[1], s[2], s[3]) + rest;
      assert b[3..] == rest;
      assert s == [s[0], s[1], s[2], s[3]] + s[4..];
    }
  }

  /** Encoding and decoding are inverse: a bijection between byte strings and the
      strings that decode. */
  lemma DecodeIffEncode(s: string, b: Bytes)
    ensures Decode(s) == Some(b) <==> Encode(b) == s
  {
    hide Encode, Decode;
    DecodeEncode(b);
    if Decode(s).Some? {
      EncodeDecode(s);
    }
  }

  lemma EncodeInjective(a: Bytes, b: Bytes)
    ensures Encode(a) == Encode(b) <==> a == b
  {
    hide Encode, Decode;
    DecodeEncode(a);
    DecodeEncode(b);
  }

  /** Which strings decode: every character is a digit, the length is not one
      modulo four, and the bits beyond the last whole byte are zero. */
  lemma {:induction false} DecodesIff(s: string)
    ensures Decode(s).Some? <==>
            && AllDigits(s)
            && |s| % 4 != 1
            && (|s| % 4 == 2 ==> Value(s[|s| - 1]) % 16 == 0)
            && (|s| % 4 == 3 ==> Value(s[|s| - 1]) % 4 == 0)
  {
    hide Value, IsDigit, Group;
    if |s| >= 4 {
      var rest := s[4..];
      DecodesIff(rest);
      assert AllDigits(s) ==> AllDigits(rest);
      assert Decode(s).Some? <==> AllDigits(s) && Decode(rest).Some?;
      if |rest| > 0 {
        assert rest[|rest| - 1] == s[|s| - 1];
      }
    }
  }
}
