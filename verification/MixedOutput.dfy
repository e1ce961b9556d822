/**
 What the repair writes, said of the texts alone: which characters it leaves, and which readings of a suspect run it
 takes, by the kinds of the characters read.
 */
module MixedOutput {
  import opened Text
  import opened Utf8
  import opened Utf8Codes
  import opened MixedEncoding

  /** The code points of a text; a byte that is not part of a character counts as U+FFFD. */
  function Runes(text: Bytes): seq<int>
    decreases |text|
  {
    if text == [] then [] else [DecodeRune(text).0] + Runes(text[DecodeRune(text).1..])
  }

  ghost predicate AllRunes(text: Bytes, test: int -> bool) {
    forall i :: 0 <= i < |Runes(text)| ==> test(Runes(text)[i])
  }

  // The kinds of characters, in the order in which they are told apart.

  const REPLACED: int := 0xFFFD

  predicate IsHan(r: int, tables: Tables) {
    r != REPLACED && tables.isHan(r)
  }

  /** Latin letters with marks and their neighbours, and four other scripts. */
  predicate IsForeign(r: int, tables: Tables) {
    0x00C0 <= r <= 0x02FF || tables.isOtherScript(r)
  }

  predicate IsMojibake(r: int, tables: Tables) {
    r != REPLACED && !tables.isHan(r) && IsForeign(r, tables)
  }

  predicate IsPlainPrint(r: int, tables: Tables) {
    r != REPLACED && !tables.isHan(r) && !IsForeign(r, tables) && tables.isPrint(r)
  }

  predicate IsUnprintable(r: int, tables: Tables) {
    r != REPLACED && !tables.isHan(r) && !IsForeign(r, tables) && !tables.isPrint(r)
  }

  // Scores of texts of one kind.

  lemma {:induction false} UniformScore(text: Bytes, tables: Tables, weight: int)
    requires AllRunes(text, (r: int) => RuneScore(r, tables) == weight)
    ensures Score(text, tables) == weight * |Runes(text)|
    decreases |text|
  {
    if text != [] {
      var rest := text[DecodeRune(text).1..];
      assert Runes(text)[0] == DecodeRune(text).0;
      assert forall i :: 0 <= i < |Runes(rest)| ==> Runes(rest)[i] == Runes(text)[i + 1];
      UniformScore(rest, tables, weight);
    }
  }

  lemma {:induction false} NegativeScore(text: Bytes, tables: Tables)
    requires AllRunes(text, (r: int) => RuneScore(r, tables) <= -3)
    ensures Score(text, tables) <= if text == [] then 0 else -3
    decreases |text|
  {
    if text != [] {
      var rest := text[DecodeRune(text).1..];
      assert Runes(text)[0] == DecodeRune(text).0;
      assert forall i :: 0 <= i < |Runes(rest)| ==> Runes(rest)[i] == Runes(text)[i + 1];
      NegativeScore(rest, tables);
    }
  }

  lemma RunesOfSome(text: Bytes)
    requires text != []
    ensures |Runes(text)| > 0
  {
  }

  // Texts that are one suspect run.

  predicate IsSuspectRune(r: int, tables: Tables) {
    r == REPLACED || IsForeign(r, tables)
  }

  lemma {:induction false} SuspectByRunes(text: Bytes, tables: Tables)
    ensures AllSuspect(text, tables) <==> AllRunes(text, (r: int) => IsSuspectRune(r, tables))
    decreases |text|
  {
    if text != [] {
      var rest := text[DecodeRune(text).1..];
      assert Runes(text)[0] == DecodeRune(text).0;
      assert forall i :: 0 <= i < |Runes(rest)| ==> Runes(rest)[i] == Runes(text)[i + 1];
      assert forall i :: 1 <= i < |Runes(text)| ==> Runes(text)[i] == Runes(rest)[i - 1];
      SuspectByRunes(rest, tables);
    }
  }

  lemma {:induction false} ScanOfSuspect(raw: Bytes, suspect: Bytes, tables: Tables)
    requires AllSuspect(raw, tables)
    ensures Scan(raw, suspect, tables) == Flush(suspect + raw)
    decreases |raw|
  {
    if raw == [] {
      assert suspect + raw == suspect;
    } else {
      var n := DecodeRune(raw).1;
      assert suspect + raw == (suspect + raw[..n]) + raw[n..];
      ScanOfSuspect(raw[n..], suspect + raw[..n], tables);
    }
  }

  /** A text that is one suspect run is repaired as a whole. */
  lemma SuspectIsRepaired(text: Bytes, tables: Tables)
    requires text != [] && AllSuspect(text, tables)
    ensures Normalized(text, tables) == Repair(text, tables)
  {
    ScanOfSuspect(text, [], tables);
    assert [] + text == text;
    var segments := Scan(text, [], tables);
    assert segments == [Suspect(text)] && segments[1..] == [];
    assert Render(segments, tables) == Repair(text, tables) + Render([], tables);
  }

  lemma {:induction false} RunesOfJoin(front: Bytes, back: Bytes)
    requires WellFormed(front)
    ensures Runes(front + back) == Runes(front) + Runes(back)
    decreases |front|
  {
    if front == [] {
      assert front + back == back;
    } else {
      var n := Width(front);
      WidthOfFront(front, back);
      assert (front + back)[n..] == front[n..] + back;
      RunesOfJoin(front[n..], back);
    }
  }

  lemma RunesOfReplacement()
    ensures WellFormed(REPLACEMENT) && Runes(REPLACEMENT) == [REPLACED]
  {
    ReplacementIsWellFormed();
    assert Width(REPLACEMENT) == 3 && Rune(REPLACEMENT) == 0xFFFD;
    assert REPLACEMENT[3..] == [];
  }

  lemma RunesOfCharacter(s: Bytes)
    requires Width(s) > 0
    ensures Runes(s[..Width(s)]) == [Rune(s)]
  {
    var c := s[..Width(s)];
    WidthOfCut(s, Width(s));
    assert c[Width(s)..] == [] && c + s[Width(s)..] == s;
    WidthOfFront(c, s[Width(s)..]);
  }

  /** Replacing bad bytes brings in no code point but U+FFFD, and that only for them. */
  lemma {:induction false} SanitizedRunes(s: Bytes, inRun: bool, r: int)
    requires r in Runes(ToValidUTF8(s, inRun))
    ensures r in Runes(s)
    decreases |s|
  {
    if s != [] {
      var (head, rest) := (ValidHead(s, inRun), s[DecodeRune(s).1..]);
      ValidHeadIsWellFormed(s, inRun);
      RunesOfJoin(head, ToValidUTF8(rest, Width(s) == 0));
      RunesOfReplacement();
      if Width(s) > 0 {
        RunesOfCharacter(s);
      }
      if r in Runes(ToValidUTF8(rest, Width(s) == 0)) {
        SanitizedRunes(rest, Width(s) == 0, r);
      }
    }
  }

  lemma {:induction false} SanitizedIsNotEmpty(s: Bytes)
    requires s != []
    ensures ToValidUTF8(s, false) != []
  {
    assert ValidHead(s, false) != [];
  }

  // Which readings are taken.

  /** The text is one suspect run without a Han character. */
  ghost predicate IsForeignRun(text: Bytes, tables: Tables) {
    text != [] && AllRunes(text, (r: int) => IsSuspectRune(r, tables) && !IsHan(r, tables))
  }

  lemma ForeignRunScoresLow(text: Bytes, tables: Tables)
    requires IsForeignRun(text, tables)
    ensures AllSuspect(text, tables) && Score(ToValidUTF8(text, false), tables) <= -3
  {
    SuspectByRunes(text, tables);
    var plain := ToValidUTF8(text, false);
    forall i | 0 <= i < |Runes(plain)| ensures RuneScore(Runes(plain)[i], tables) <= -3 {
      SanitizedRunes(text, false, Runes(plain)[i]);
    }
    SanitizedIsNotEmpty(text);
    NegativeScore(plain, tables);
  }

  /** A run that decodes to Han characters alone is written decoded. */
  lemma HanIsTaken(text: Bytes, decoded: Bytes, tables: Tables)
    requires IsForeignRun(text, tables) && tables.decode(text) == Some(decoded)
    requires decoded != [] && WellFormed(decoded) && AllRunes(decoded, (r: int) => IsHan(r, tables))
    ensures Normalized(text, tables) == decoded
  {
    ForeignRunScoresLow(text, tables);
    SuspectIsRepaired(text, tables);
    UniformScore(decoded, tables, 4);
  }

  /** A text in which no character is written. */
  predicate AllBad(text: Bytes)
    decreases |text|
  {
    text == [] || (Width(text) == 0 && AllBad(text[1..]))
  }

  lemma {:induction false} BadBecomesOne(text: Bytes, inRun: bool)
    requires AllBad(text) && (text == [] ==> !inRun)
    ensures ToValidUTF8(text, inRun) == if inRun || text == [] then [] else REPLACEMENT
    decreases |text|
  {
    if text != [] && text[1..] != [] {
      BadBecomesOne(text[1..], true);
    }
    assert REPLACEMENT + [] == REPLACEMENT;
  }

  lemma {:induction false} BadRunes(text: Bytes)
    requires AllBad(text)
    ensures AllRunes(text, (r: int) => r == REPLACED)
    decreases |text|
  {
    if text != [] {
      BadRunes(text[1..]);
      assert Runes(text) == [REPLACED] + Runes(text[1..]);
    }
  }

  lemma BadRunIsRepaired(text: Bytes, tables: Tables)
    requires text != [] && AllBad(text)
    ensures Normalized(text, tables) == Repair(text, tables)
    ensures ToValidUTF8(text, false) == REPLACEMENT && Score(REPLACEMENT, tables) == -6
  {
    BadRunes(text);
    SuspectByRunes(text, tables);
    SuspectIsRepaired(text, tables);
    BadBecomesOne(text, false);
    RunesOfReplacement();
    UniformScore(REPLACEMENT, tables, -6);
  }

  ghost predicate Decodes(text: Bytes, decoded: Bytes, tables: Tables) {
    text != [] && AllBad(text) && tables.decode(text) == Some(decoded) && WellFormed(decoded) && decoded != []
  }

  /** Bytes that decode to no more than replacement characters are written as one of these. */
  lemma ReplacementsAreNotTaken(text: Bytes, decoded: Bytes, tables: Tables)
    requires Decodes(text, decoded, tables) && AllRunes(decoded, (r: int) => r == REPLACED)
    ensures Normalized(text, tables) == REPLACEMENT
  {
    BadRunIsRepaired(text, tables);
    RunesOfSome(decoded);
    UniformScore(decoded, tables, -6);
  }

  lemma NotReplacement(decoded: Bytes)
    requires decoded != [] && REPLACED !in Runes(decoded)
    ensures decoded != REPLACEMENT
  {
    RunesOfReplacement();
  }

  /** Bytes that decode to mojibake are written decoded exactly when that is one character. */
  lemma MojibakeIsTakenExactly(text: Bytes, decoded: Bytes, tables: Tables)
    requires Decodes(text, decoded, tables) && AllRunes(decoded, (r: int) => IsMojibake(r, tables))
    ensures Normalized(text, tables) == if |Runes(decoded)| == 1 then decoded else REPLACEMENT
  {
    BadRunIsRepaired(text, tables);
    RunesOfSome(decoded);
    UniformScore(decoded, tables, -3);
  }

  /** Bytes that decode to other printable characters are written decoded. */
  lemma PrintableIsTaken(text: Bytes, decoded: Bytes, tables: Tables)
    requires Decodes(text, decoded, tables) && AllRunes(decoded, (r: int) => IsPlainPrint(r, tables))
    ensures Normalized(text, tables) == decoded
  {
    BadRunIsRepaired(text, tables);
    UniformScore(decoded, tables, 1);
  }

  /** Bytes that decode to characters that cannot be printed are written decoded exactly when these are two at most. */
  lemma UnprintableIsTakenExactly(text: Bytes, decoded: Bytes, tables: Tables)
    requires Decodes(text, decoded, tables) && AllRunes(decoded, (r: int) => IsUnprintable(r, tables))
    ensures Normalized(text, tables) == if |Runes(decoded)| <= 2 then decoded else REPLACEMENT
  {
    BadRunIsRepaired(text, tables);
    UniformScore(decoded, tables, -2);
  }

  /** Without a well-formed reading the bad bytes of a run are replaced. */
  lemma UnreadableIsReplaced(text: Bytes, tables: Tables)
    requires text != [] && AllRunes(text, (r: int) => IsSuspectRune(r, tables))
    requires tables.decode(text).None? || !WellFormed(tables.decode(text).value)
    ensures Normalized(text, tables) == ToValidUTF8(text, false)
  {
    SuspectByRunes(text, tables);
    SuspectIsRepaired(text, tables);
  }

  // Mixed readings, by counting.

  function CountOf(runes: seq<int>, test: int -> bool): nat {
    if runes == [] then 0 else (if test(runes[0]) then 1 else 0) + CountOf(runes[1..], test)
  }

  /** What speaks for a reading and against it: how many characters of each kind it has. */
  function Merit(runes: seq<int>, tables: Tables): int {
    4 * CountOf(runes, (r: int) => IsHan(r, tables)) + CountOf(runes, (r: int) => IsPlainPrint(r, tables))
    - 2 * CountOf(runes, (r: int) => IsUnprintable(r, tables)) - 3 * CountOf(runes, (r: int) => IsMojibake(r, tables))
    - 6 * CountOf(runes, (r: int) => r == REPLACED)
  }

  lemma {:induction false} ScoreIsMerit(text: Bytes, tables: Tables)
    ensures Score(text, tables) == Merit(Runes(text), tables)
    decreases |text|
  {
    if text != [] {
      var rest := text[DecodeRune(text).1..];
      ScoreIsMerit(rest, tables);
      assert Runes(text)[1..] == Runes(rest);
    }
  }

  /** Any suspect run with a well-formed reading is written decoded exactly when that has more merit. */
  lemma TakenExactlyByMerit(text: Bytes, decoded: Bytes, tables: Tables)
    requires text != [] && AllRunes(text, (r: int) => IsSuspectRune(r, tables))
    requires tables.decode(text) == Some(decoded) && WellFormed(decoded)
    ensures var plain := ToValidUTF8(text, false);
            Normalized(text, tables)
            == if Merit(Runes(decoded), tables) > Merit(Runes(plain), tables) then decoded else plain
  {
    SuspectByRunes(text, tables);
    SuspectIsRepaired(text, tables);
    ScoreIsMerit(decoded, tables);
    ScoreIsMerit(ToValidUTF8(text, false), tables);
  }

  // What is left alone.

  lemma {:induction false} NoSuspectByRunes(text: Bytes, tables: Tables)
    requires WellFormed(text) && AllRunes(text, (r: int) => !IsSuspectRune(r, tables))
    ensures NoSuspect(text, tables)
    decreases |text|
  {
    if text != [] {
      var rest := text[Width(text)..];
      assert Runes(text)[0] == Rune(text);
      assert forall i :: 0 <= i < |Runes(rest)| ==> Runes(rest)[i] == Runes(text)[i + 1];
      NoSuspectByRunes(rest, tables);
    }
  }

  /** Well-formed text with no such character comes back as it was, whatever the decoder. */
  lemma OtherTextStays(text: Bytes, tables: Tables)
    requires WellFormed(text) && AllRunes(text, (r: int) => !IsSuspectRune(r, tables))
    ensures Normalized(text, tables) == text
  {
    NoSuspectByRunes(text, tables);
    CleanTextIsUnchanged(text, tables);
  }
}
