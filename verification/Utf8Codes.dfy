/** UTF-8 from the other side: how a code point is written, and that reading is exactly the inverse of that. */
module Utf8Codes {
  import opened Utf8

  /** The code points that can be written: all but the surrogates. */
  predicate IsScalar(r: int) {
    0 <= r <= 0xD7FF || 0xE000 <= r <= 0x10FFFF
  }

  /** A tail byte carries six bits. */
  function Tail(bits: int): Byte {
    0x80 + bits % 64
  }

  /** Section 3 of RFC 3629. */
  function Encode(r: int): (s: Bytes)
    requires IsScalar(r)
    ensures 1 <= |s| <= 4
  {
    if r <= 0x7F then [r]
    else if r <= 0x7FF then [0xC0 + r / 64, Tail(r)]
    else if r <= 0xFFFF then [0xE0 + r / 4096, Tail(r / 64), Tail(r)]
    else [0xF0 + r / 262144, Tail(r / 4096), Tail(r / 64), Tail(r)]
  }

  /** What is written is read back, whatever follows. */
  lemma EncodedIsRead(r: int, rest: Bytes)
    requires IsScalar(r)
    ensures Width(Encode(r) + rest) == |Encode(r)| && Rune(Encode(r) + rest) == r
  {
    var s := Encode(r);
    if r > 0xFFFF {
      FourBytesAreRead(r);
    } else if r > 0x7FF {
      ThreeBytesAreRead(r);
    } else {
      assert Width(s) == |s| && Rune(s) == r;
    }
    WidthOfFront(s, rest);
  }

  /** A number in base 64. */
  lemma InDigits(r: int)
    requires r >= 0
    ensures r == r / 64 * 64 + r % 64
    ensures r / 64 / 64 == r / 4096 && r / 4096 / 64 == r / 262144
  {
  }

  lemma ThreeBytesAreRead(r: int)
    requires 0x800 <= r <= 0xFFFF && IsScalar(r)
    ensures Width(Encode(r)) == 3 && Rune(Encode(r)) == r
  {
    var s := Encode(r);
    assert s[0] == 0xE0 + r / 4096 && s[1] == 0x80 + r / 64 % 64 && s[2] == 0x80 + r % 64;
    InDigits(r);
    InDigits(r / 64);
  }

  lemma FourBytesAreRead(r: int)
    requires 0x10000 <= r <= 0x10FFFF
    ensures Width(Encode(r)) == 4 && Rune(Encode(r)) == r
  {
    var s := Encode(r);
    InDigits(r);
    InDigits(r / 64);
    InDigits(r / 4096);
    FourDigits(r);
    assert Width(s) == 4;
  }

  lemma FourDigits(r: int)
    requires r >= 0
    ensures r == r / 262144 * 262144 + r / 4096 % 64 * 4096 + r / 64 % 64 * 64 + r % 64
  {
    InDigits(r);
    InDigits(r / 64);
    InDigits(r / 4096);
  }

  lemma ShortIsWritten(s: Bytes)
    requires 1 <= Width(s) <= 2
    ensures IsScalar(Rune(s)) && Encode(Rune(s)) == s[..Width(s)]
  {
    if Width(s) == 2 {
      var (a, b) := (Payload(s[0], 0xC0), Payload(s[1], 0x80));
      assert Rune(s) == a * 64 + b && (a * 64 + b) / 64 == a && (a * 64 + b) % 64 == b;
    }
  }

  lemma ThreeIsWritten(s: Bytes)
    requires Width(s) == 3
    ensures IsScalar(Rune(s)) && Encode(Rune(s)) == s[..3]
  {
    var (a, b, c) := (Payload(s[0], 0xE0), Payload(s[1], 0x80), Payload(s[2], 0x80));
    var r := a * 4096 + b * 64 + c;
    assert Rune(s) == r && r / 4096 == a && r / 64 == a * 64 + b && (a * 64 + b) % 64 == b && r % 64 == c;
  }

  lemma FourIsWritten(s: Bytes)
    requires Width(s) == 4
    ensures IsScalar(Rune(s)) && Encode(Rune(s)) == s[..4]
  {
    var (a, b, c, d) := (Payload(s[0], 0xF0), Payload(s[1], 0x80), Payload(s[2], 0x80), Payload(s[3], 0x80));
    var r := a * 262144 + b * 4096 + c * 64 + d;
    assert Rune(s) == r && r / 262144 == a && r / 4096 == a * 64 + b && r / 64 == a * 4096 + b * 64 + c;
    assert (a * 64 + b) % 64 == b && (a * 4096 + b * 64 + c) % 64 == c && r % 64 == d;
  }

  /** What is read as a character is the way its code point is written. */
  lemma ReadIsWritten(s: Bytes)
    requires Width(s) > 0
    ensures IsScalar(Rune(s)) && Encode(Rune(s)) == s[..Width(s)]
  {
    if Width(s) == 4 {
      FourIsWritten(s);
    } else if Width(s) == 3 {
      ThreeIsWritten(s);
    } else {
      ShortIsWritten(s);
    }
  }

  /** A character stands at the front exactly when some code point is written there. */
  lemma CharacterExactly(s: Bytes)
    ensures Width(s) > 0 <==> exists r :: IsScalar(r) && Encode(r) <= s
  {
    if Width(s) > 0 {
      ReadIsWritten(s);
      assert Encode(Rune(s)) <= s;
    }
    if r :| IsScalar(r) && Encode(r) <= s {
      EncodedIsRead(r, s[|Encode(r)|..]);
      assert Encode(r) + s[|Encode(r)|..] == s;
    }
  }
}
