/** UTF-8 as section 4 of RFC 3629 defines it, and the replacement of what is not UTF-8. */
module Utf8 {

  type Byte = b: nat | b < 256

  type Bytes = seq<Byte>

  predicate IsTail(b: Byte) {
    0x80 <= b <= 0xBF
  }

  /** How long a character is, by its first byte; 0 for bytes no character starts with. */
  function LengthByLead(lead: Byte): (n: nat)
    ensures n <= 4
  {
    if lead <= 0x7F then 1
    else if 0xC2 <= lead <= 0xDF then 2
    else if 0xE0 <= lead <= 0xEF then 3
    else if 0xF0 <= lead <= 0xF4 then 4
    else 0
  }

  /** The second byte is restricted further: no overlong forms, no surrogates, nothing above U+10FFFF. */
  predicate IsSecond(lead: Byte, b: Byte) {
    (if lead == 0xE0 then 0xA0 else if lead == 0xF0 then 0x90 else 0x80) <= b
    <= (if lead == 0xED then 0x9F else if lead == 0xF4 then 0x8F else 0xBF)
  }

  /** The length of the character at the start of the bytes, or 0 when there is no well-formed one. */
  function Width(s: Bytes): (n: nat)
    ensures n <= 4 && n <= |s|
  {
    if s == [] then 0
    else
      var n := LengthByLead(s[0]);
      if |s| < n || (n >= 2 && !IsSecond(s[0], s[1])) || (n >= 3 && !IsTail(s[2])) || (n >= 4 && !IsTail(s[3])) then 0
      else n
  }

  const RUNE_ERROR: int := 0xFFFD

  const REPLACEMENT: Bytes := [0xEF, 0xBF, 0xBD]

  /** What a byte adds to the code point: its value above the mark that the encoding puts on it. */
  function Payload(b: Byte, mark: nat): int {
    b as int - mark
  }

  /** The code point of the character at the start. */
  function Rune(s: Bytes): int
    requires Width(s) > 0
  {
    match Width(s)
    case 1 => s[0]
    case 2 => Payload(s[0], 0xC0) * 64 + Payload(s[1], 0x80)
    case 3 => Payload(s[0], 0xE0) * 4096 + Payload(s[1], 0x80) * 64 + Payload(s[2], 0x80)
    case _ =>
      Payload(s[0], 0xF0) * 262144 + Payload(s[1], 0x80) * 4096 + Payload(s[2], 0x80) * 64 + Payload(s[3], 0x80)
  }

  /** A rune and its length; what is not well-formed counts as the replacement character, one byte long. */
  function DecodeRune(s: Bytes): (r: (int, nat))
    requires s != []
    ensures 1 <= r.1 <= |s|
  {
    if Width(s) == 0 then (RUNE_ERROR, 1) else (Rune(s), Width(s))
  }

  predicate WellFormed(s: Bytes)
    decreases |s|
  {
    s == [] || (Width(s) > 0 && WellFormed(s[Width(s)..]))
  }

  /** A character is recognized whatever follows it. */
  lemma WidthOfFront(front: Bytes, back: Bytes)
    requires Width(front) > 0
    ensures Width(front + back) == Width(front) && Rune(front + back) == Rune(front)
  {
    assert forall i :: 0 <= i < Width(front) ==> (front + back)[i] == front[i];
  }

  lemma WidthOfCut(s: Bytes, n: nat)
    requires 0 < Width(s) <= n <= |s|
    ensures Width(s[..n]) == Width(s)
  {
  }

  /** Bytes that do not start a character in a longer text do not start one when the text is cut. */
  lemma NoCharacterInFront(front: Bytes, back: Bytes)
    requires Width(front + back) == 0
    ensures Width(front) == 0
  {
    if Width(front) > 0 {
      WidthOfFront(front, back);
    }
  }

  lemma {:induction false} WellFormedJoin(front: Bytes, back: Bytes)
    requires WellFormed(front) && WellFormed(back)
    ensures WellFormed(front + back)
    decreases |front|
  {
    if front == [] {
      assert front + back == back;
    } else {
      var n := Width(front);
      WidthOfFront(front, back);
      assert (front + back)[n..] == front[n..] + back;
      WellFormedJoin(front[n..], back);
    }
  }

  /**
   What the first step of the decoder contributes: the character, or a replacement where a run of bad bytes
   begins.
   */
  function ValidHead(s: Bytes, inRun: bool): Bytes
    requires s != []
  {
    if Width(s) > 0 then s[..Width(s)] else if inRun then [] else REPLACEMENT
  }

  /** `strings.ToValidUTF8` with the replacement character: each run of ill-formed bytes becomes one such character. */
  function ToValidUTF8(s: Bytes, inRun: bool): Bytes
    decreases |s|
  {
    if s == [] then [] else ValidHead(s, inRun) + ToValidUTF8(s[DecodeRune(s).1..], Width(s) == 0)
  }

  lemma CharacterIsWellFormed(s: Bytes)
    requires Width(s) > 0
    ensures WellFormed(s[..Width(s)])
  {
    WidthOfCut(s, Width(s));
    assert s[..Width(s)][Width(s)..] == [];
  }

  lemma ReplacementIsWellFormed()
    ensures WellFormed(REPLACEMENT)
  {
    assert Width(REPLACEMENT) == 3;
    assert REPLACEMENT[3..] == [];
  }

  lemma ValidHeadIsWellFormed(s: Bytes, inRun: bool)
    requires s != []
    ensures WellFormed(ValidHead(s, inRun))
  {
    ReplacementIsWellFormed();
    if Width(s) > 0 {
      CharacterIsWellFormed(s);
    }
  }

  lemma {:induction false} ToValidUTF8IsWellFormed(s: Bytes, inRun: bool)
    ensures WellFormed(ToValidUTF8(s, inRun))
    decreases |s|
  {
    if s != [] {
      var rest := s[DecodeRune(s).1..];
      ToValidUTF8IsWellFormed(rest, Width(s) == 0);
      ValidHeadIsWellFormed(s, inRun);
      WellFormedJoin(ValidHead(s, inRun), ToValidUTF8(rest, Width(s) == 0));
    }
  }

  lemma {:induction false} ToValidUTF8Keeps(s: Bytes, inRun: bool)
    requires WellFormed(s)
    ensures ToValidUTF8(s, inRun) == s
    decreases |s|
  {
    if s != [] {
      ToValidUTF8Keeps(s[Width(s)..], false);
    }
  }

  /** The result is well-formed, and well-formed text stays as it is. */
  lemma ToValidUTF8Spec(s: Bytes, inRun: bool)
    ensures WellFormed(ToValidUTF8(s, inRun))
    ensures WellFormed(s) ==> ToValidUTF8(s, inRun) == s
  {
    ToValidUTF8IsWellFormed(s, inRun);
    if WellFormed(s) {
      ToValidUTF8Keeps(s, inRun);
    }
  }

  // Cutting bytes where the decoder steps.

  /** The decoder, started at the front of `front + back`, steps from `front` to `back` at their border. */
  predicate Aligned(front: Bytes, back: Bytes)
    decreases |front|
  {
    front == []
    || (DecodeRune(front + back).1 <= |front| && Aligned(front[DecodeRune(front + back).1..], back))
  }

  /** The first step is the same when the text is cut behind it. */
  lemma SameHead(front: Bytes, back: Bytes)
    requires front != [] && DecodeRune(front + back).1 <= |front|
    ensures DecodeRune(front) == DecodeRune(front + back) && (Width(front) == 0 <==> Width(front + back) == 0)
  {
    if Width(front + back) == 0 {
      NoCharacterInFront(front, back);
    } else {
      WidthOfCut(front + back, |front|);
      assert (front + back)[..|front|] == front;
      WidthOfFront(front, back);
    }
  }

  lemma {:induction false} AlignedWithCut(front: Bytes, back: Bytes, n: nat)
    requires Aligned(front, back) && n <= |back|
    ensures Aligned(front, back[..n])
    decreases |front|
  {
    if front != [] {
      SameHead(front, back);
      var k := DecodeRune(front).1;
      if Width(front) > 0 {
        WidthOfFront(front, back[..n]);
      } else {
        assert front + back == (front + back[..n]) + back[n..];
        NoCharacterInFront(front + back[..n], back[n..]);
      }
      AlignedWithCut(front[k..], back, n);
    }
  }

  lemma AlignedFirst(back: Bytes)
    requires back != []
    ensures var n := DecodeRune(back).1; Aligned(back[..n], back[n..])
  {
    var n := DecodeRune(back).1;
    assert back[..n] + back[n..] == back;
    assert back[..n][n..] == [];
  }

  lemma AlignedBehind(front: Bytes, back: Bytes)
    requires front != [] && DecodeRune(front + back).1 <= |front|
    requires Aligned(front[DecodeRune(front + back).1..], back)
    ensures Aligned(front, back)
  {
  }

  /** Stepping once more moves the border behind the next step. */
  lemma {:induction false} AlignedFurther(front: Bytes, back: Bytes)
    requires Aligned(front, back) && back != []
    ensures var n := DecodeRune(back).1; Aligned(front + back[..n], back[n..])
    decreases |front|
  {
    var n := DecodeRune(back).1;
    if front == [] {
      assert front + back[..n] == back[..n];
      AlignedFirst(back);
    } else {
      var k := DecodeRune(front + back).1;
      AlignedFurther(front[k..], back);
      assert front + back[..n] + back[n..] == front + back;
      assert (front + back[..n])[k..] == front[k..] + back[..n];
      AlignedBehind(front + back[..n], back[n..]);
    }
  }

  lemma SameValidHead(front: Bytes, back: Bytes, inRun: bool)
    requires front != [] && DecodeRune(front + back).1 <= |front|
    ensures ValidHead(front + back, inRun) == ValidHead(front, inRun)
    ensures (front + back)[DecodeRune(front).1..] == front[DecodeRune(front).1..] + back
  {
    SameHead(front, back);
    assert (front + back)[..DecodeRune(front).1] == front[..DecodeRune(front).1];
  }

  lemma ConcatAssociates(a: Bytes, b: Bytes, c: Bytes)
    ensures a + (b + c) == (a + b) + c
  {
  }

  /** The text ends in a run of ill-formed bytes, or is empty and goes on with one. */
  predicate EndsInRun(s: Bytes, inRun: bool)
    decreases |s|
  {
    if s == [] then inRun else EndsInRun(s[DecodeRune(s).1..], Width(s) == 0)
  }

  /** At any place where the decoder steps, both sides may be done on their own, if the second knows of the run. */
  lemma {:induction false} ToValidUTF8Join(front: Bytes, back: Bytes, inRun: bool)
    requires Aligned(front, back)
    ensures ToValidUTF8(front + back, inRun) == ToValidUTF8(front, inRun) + ToValidUTF8(back, EndsInRun(front, inRun))
    decreases |front|
  {
    if front == [] {
      assert front + back == back;
    } else {
      var n := DecodeRune(front).1;
      SameHead(front, back);
      SameValidHead(front, back, inRun);
      ToValidUTF8Join(front[n..], back, Width(front) == 0);
      var behind := ToValidUTF8(back, EndsInRun(front, inRun));
      ConcatAssociates(ValidHead(front, inRun), ToValidUTF8(front[n..], Width(front) == 0), behind);
    }
  }

  /** The second side need not know exactly when no run goes on across the border. */
  lemma JoinsFreshExactly(front: Bytes, back: Bytes, inRun: bool)
    requires Aligned(front, back)
    ensures ToValidUTF8(front + back, inRun) == ToValidUTF8(front, inRun) + ToValidUTF8(back, false)
            <==> !EndsInRun(front, inRun) || back == [] || Width(back) > 0
  {
    ToValidUTF8Join(front, back, inRun);
    if EndsInRun(front, inRun) {
      KnowingOfRun(back);
    }
  }

  lemma KnowingOfRun(back: Bytes)
    ensures |ToValidUTF8(back, true)| == |ToValidUTF8(back, false)| <==> back == [] || Width(back) > 0
    ensures back == [] || Width(back) > 0 ==> ToValidUTF8(back, true) == ToValidUTF8(back, false)
  {
    if back != [] {
      var rest := ToValidUTF8(back[DecodeRune(back).1..], Width(back) == 0);
      assert ToValidUTF8(back, true) == ValidHead(back, true) + rest;
      assert ToValidUTF8(back, false) == ValidHead(back, false) + rest;
    }
  }
}
