/** Repairing error messages that mix UTF-8 with text in another encoding. */
module MixedEncoding {
  import opened Text
  import opened Utf8

  /** The tables of Unicode that the repair looks into, and the decoder of the other encoding, which may fail. */
  datatype Tables = Tables(
    isHan: int -> bool,
    isPrint: int -> bool,
    isOtherScript: int -> bool,
    decode: Bytes -> Option<Bytes>)

  predicate IsLikelyMojibakeRune(r: int, tables: Tables) {
    r == RUNE_ERROR || 0x00C0 <= r <= 0x02FF || tables.isOtherScript(r)
  }

  function RuneScore(r: int, tables: Tables): int {
    if r == RUNE_ERROR then -6
    else if tables.isHan(r) then 4
    else if IsLikelyMojibakeRune(r, tables) then -3
    else if tables.isPrint(r) then 1
    else -2
  }

  /** The score of a text: the sum over its runes. */
  function Score(text: Bytes, tables: Tables): int
    decreases |text|
  {
    if text == [] then 0
    else
      var (r, n) := DecodeRune(text);
      RuneScore(r, tables) + Score(text[n..], tables)
  }

  method ScoreDecodedText(text: Bytes, tables: Tables) returns (score: int)
    ensures score == Score(text, tables)
  {
    score := 0;
    var rest := text;
    while rest != []
      invariant score + Score(rest, tables) == Score(text, tables)
      decreases |rest|
    {
      var (r, n) := DecodeRune(rest);
      score := score + RuneScore(r, tables);
      rest := rest[n..];
    }
  }

  /**
   The decoded text of a suspect run is taken when it is well-formed and scores better than the run without bad
   bytes.
   */
  predicate Reads(run: Bytes, decoded: Option<Bytes>, tables: Tables) {
    decoded.Some? && WellFormed(decoded.value)
    && Score(decoded.value, tables) > Score(ToValidUTF8(run, false), tables)
  }

  function Repair(run: Bytes, tables: Tables): Bytes {
    var decoded := tables.decode(run);
    if Reads(run, decoded, tables) then decoded.value else ToValidUTF8(run, false)
  }

  /** Ill-formed bytes and characters that look like mojibake are suspect. */
  predicate IsSuspectHead(raw: Bytes, tables: Tables)
    requires raw != []
  {
    Width(raw) == 0 || IsLikelyMojibakeRune(Rune(raw), tables)
  }

  /** The text is cut into characters that stay as they are and runs that are suspect. */
  datatype Segment = Plain(bytes: Bytes) | Suspect(bytes: Bytes)

  function Flush(suspect: Bytes): seq<Segment> {
    if suspect == [] then [] else [Suspect(suspect)]
  }

  function Scan(raw: Bytes, suspect: Bytes, tables: Tables): seq<Segment>
    decreases |raw|
  {
    if raw == [] then Flush(suspect)
    else
      var n := DecodeRune(raw).1;
      if IsSuspectHead(raw, tables) then Scan(raw[n..], suspect + raw[..n], tables)
      else Flush(suspect) + ([Plain(raw[..n])] + Scan(raw[n..], [], tables))
  }

  function RenderOne(segment: Segment, tables: Tables): Bytes {
    match segment
    case Plain(bytes) => bytes
    case Suspect(bytes) => Repair(bytes, tables)
  }

  function Render(segments: seq<Segment>, tables: Tables): Bytes {
    if segments == [] then [] else RenderOne(segments[0], tables) + Render(segments[1..], tables)
  }

  function Normalized(text: Bytes, tables: Tables): Bytes {
    Render(Scan(text, [], tables), tables)
  }

  lemma {:induction false} RenderJoin(front: seq<Segment>, back: seq<Segment>, tables: Tables)
    ensures Render(front + back, tables) == Render(front, tables) + Render(back, tables)
  {
    if front == [] {
      assert front + back == back;
    } else {
      assert (front + back)[1..] == front[1..] + back;
      RenderJoin(front[1..], back, tables);
    }
  }

  lemma RenderPlain(suspect: Bytes, bytes: Bytes, rest: seq<Segment>, tables: Tables)
    ensures Render(Flush(suspect) + ([Plain(bytes)] + rest), tables)
         == Render(Flush(suspect), tables) + (bytes + Render(rest, tables))
  {
    RenderJoin(Flush(suspect), [Plain(bytes)] + rest, tables);
    assert ([Plain(bytes)] + rest)[1..] == rest;
  }

  method FlushSuspect(output: Bytes, suspect: Bytes, tables: Tables) returns (output': Bytes)
    ensures output' == output + Render(Flush(suspect), tables)
  {
    output' := output;
    if suspect == [] {
      return;
    }
    assert Render(Flush(suspect), tables) == Repair(suspect, tables) + Render([], tables);
    var fallback := ToValidUTF8(suspect, false);
    var decoded := tables.decode(suspect);
    if decoded.Some? && WellFormed(decoded.value) {
      var better := ScoreDecodedText(decoded.value, tables);
      var score := ScoreDecodedText(fallback, tables);
      output' := output + if better > score then decoded.value else fallback;
    } else {
      output' := output + fallback;
    }
  }

  /** What the repair still has to write, with some suspect bytes collected and the raw bytes to come. */
  function Pending(raw: Bytes, suspect: Bytes, tables: Tables): Bytes {
    Render(Scan(raw, suspect, tables), tables)
  }

  lemma PendingSuspect(raw: Bytes, suspect: Bytes, tables: Tables)
    requires raw != [] && IsSuspectHead(raw, tables)
    ensures var n := DecodeRune(raw).1; Pending(raw, suspect, tables) == Pending(raw[n..], suspect + raw[..n], tables)
  {
  }

  lemma PendingPlain(raw: Bytes, suspect: Bytes, tables: Tables)
    requires raw != [] && !IsSuspectHead(raw, tables)
    ensures var n := DecodeRune(raw).1;
            Pending(raw, suspect, tables) == Render(Flush(suspect), tables) + (raw[..n] + Pending(raw[n..], [], tables))
  {
    var n := DecodeRune(raw).1;
    RenderPlain(suspect, raw[..n], Scan(raw[n..], [], tables), tables);
  }

  lemma ConcatFour(a: Bytes, b: Bytes, c: Bytes, d: Bytes)
    ensures a + b + c + d == a + (b + (c + d))
  {
  }

  /** The repair loop over the raw bytes. */
  method NormalizeMixedEncodingText(text: Bytes, tables: Tables) returns (output: Bytes)
    ensures output == Normalized(text, tables)
  {
    if text == [] {
      return text;
    }
    var raw := text;
    output := [];
    var suspect: Bytes := [];
    while raw != []
      invariant output + Pending(raw, suspect, tables) == Pending(text, [], tables)
      decreases |raw|
    {
      output, suspect, raw := NormalizeHead(output, suspect, raw, tables);
    }
    output := FlushSuspect(output, suspect, tables);
  }

  /** One turn of the loop: the first character of the raw bytes is collected, or written after what was collected. */
  method NormalizeHead(output: Bytes, suspect: Bytes, raw: Bytes, tables: Tables)
    returns (output': Bytes, suspect': Bytes, raw': Bytes)
    requires raw != []
    ensures output' + Pending(raw', suspect', tables) == output + Pending(raw, suspect, tables)
    ensures |raw'| < |raw|
  {
    var (r, size) := DecodeRune(raw);
    raw' := raw[size..];
    if IsSuspectHead(raw, tables) {
      PendingSuspect(raw, suspect, tables);
      output', suspect' := output, suspect + raw[..size];
    } else {
      PendingPlain(raw, suspect, tables);
      var flushed := FlushSuspect(output, suspect, tables);
      output', suspect' := flushed + raw[..size], [];
      ConcatFour(output, Render(Flush(suspect), tables), raw[..size], Pending(raw', [], tables));
    }
  }

  // The cut.

  function Joined(segments: seq<Segment>): Bytes {
    if segments == [] then [] else segments[0].bytes + Joined(segments[1..])
  }

  predicate AllSuspect(bytes: Bytes, tables: Tables)
    decreases |bytes|
  {
    bytes == [] || (IsSuspectHead(bytes, tables) && AllSuspect(bytes[DecodeRune(bytes).1..], tables))
  }

  /** A plain segment is one well-formed character that is not suspect; a suspect one is a run of suspect heads. */
  predicate IsProper(segment: Segment, tables: Tables) {
    segment.bytes != []
    && match segment
       case Plain(bytes) => Width(bytes) == |bytes| && !IsLikelyMojibakeRune(Rune(bytes), tables)
       case Suspect(bytes) => AllSuspect(bytes, tables)
  }

  /** All segments are proper, and suspect runs are as long as they can be. */
  ghost predicate IsProperCut(segments: seq<Segment>, tables: Tables) {
    (forall i :: 0 <= i < |segments| ==> IsProper(segments[i], tables))
    && forall i :: 0 <= i < |segments| - 1 ==> segments[i].Plain? || segments[i + 1].Plain?
  }

  lemma {:induction false} AllSuspectJoin(front: Bytes, back: Bytes, tables: Tables)
    requires AllSuspect(front, tables) && AllSuspect(back, tables) && Aligned(front, back)
    ensures AllSuspect(front + back, tables)
    decreases |front|
  {
    if front == [] {
      assert front + back == back;
    } else {
      var n := DecodeRune(front).1;
      SameHead(front, back);
      assert (front + back)[n..] == front[n..] + back;
      AllSuspectJoin(front[n..], back, tables);
      if Width(front) > 0 {
        WidthOfFront(front, back);
      }
    }
  }

  lemma HeadIsSuspect(raw: Bytes, tables: Tables)
    requires raw != [] && IsSuspectHead(raw, tables)
    ensures AllSuspect(raw[..DecodeRune(raw).1], tables)
  {
    var n := DecodeRune(raw).1;
    var head := raw[..n];
    assert raw == head + raw[n..];
    SameHead(head, raw[n..]);
    if Width(raw) > 0 {
      WidthOfFront(head, raw[n..]);
    }
    assert head[n..] == [];
  }

  /** The next suspect head joins the run. */
  lemma RunGrows(raw: Bytes, suspect: Bytes, tables: Tables)
    requires raw != [] && IsSuspectHead(raw, tables) && AllSuspect(suspect, tables) && Aligned(suspect, raw)
    ensures var n := DecodeRune(raw).1;
            AllSuspect(suspect + raw[..n], tables) && Aligned(suspect + raw[..n], raw[n..])
  {
    var n := DecodeRune(raw).1;
    HeadIsSuspect(raw, tables);
    AlignedWithCut(suspect, raw, n);
    AllSuspectJoin(suspect, raw[..n], tables);
    AlignedFurther(suspect, raw);
  }

  lemma PlainIsProper(raw: Bytes, tables: Tables)
    requires raw != [] && !IsSuspectHead(raw, tables)
    ensures IsProper(Plain(raw[..DecodeRune(raw).1]), tables)
  {
    var n := Width(raw);
    WidthOfCut(raw, n);
    assert raw == raw[..n] + raw[n..];
    WidthOfFront(raw[..n], raw[n..]);
  }

  lemma CutStep(suspect: Bytes, plain: Segment, rest: seq<Segment>, tables: Tables)
    requires AllSuspect(suspect, tables) && plain.Plain? && IsProper(plain, tables) && IsProperCut(rest, tables)
    ensures var segments := Flush(suspect) + ([plain] + rest);
            IsProperCut(segments, tables) && Joined(segments) == suspect + plain.bytes + Joined(rest)
  {
    var tail := [plain] + rest;
    assert tail[1..] == rest;
    if suspect != [] {
      assert (Flush(suspect) + tail)[1..] == tail;
    } else {
      assert Flush(suspect) + tail == tail;
    }
  }

  /** The segments are a proper cut of the bytes: joined in order they are the bytes again. */
  ghost predicate IsCutOf(segments: seq<Segment>, bytes: Bytes, tables: Tables) {
    IsProperCut(segments, tables) && Joined(segments) == bytes
  }

  lemma SplitAt(front: Bytes, bytes: Bytes, n: nat)
    requires n <= |bytes|
    ensures front + bytes[..n] + bytes[n..] == front + bytes
  {
  }

  lemma ScanSuspect(raw: Bytes, suspect: Bytes, tables: Tables)
    requires raw != [] && IsSuspectHead(raw, tables)
    ensures var n := DecodeRune(raw).1;
            Scan(raw, suspect, tables) == Scan(raw[n..], suspect + raw[..n], tables)
            && suspect + raw[..n] + raw[n..] == suspect + raw
  {
    SplitAt(suspect, raw, DecodeRune(raw).1);
  }

  lemma ScanPlain(raw: Bytes, suspect: Bytes, tables: Tables)
    requires raw != [] && !IsSuspectHead(raw, tables) && AllSuspect(suspect, tables)
    requires var n := DecodeRune(raw).1; IsCutOf(Scan(raw[n..], [], tables), raw[n..], tables)
    ensures IsCutOf(Scan(raw, suspect, tables), suspect + raw, tables)
  {
    var n := DecodeRune(raw).1;
    PlainIsProper(raw, tables);
    CutStep(suspect, Plain(raw[..n]), Scan(raw[n..], [], tables), tables);
    SplitAt(suspect, raw, n);
  }

  lemma ScanEnd(suspect: Bytes, tables: Tables)
    requires AllSuspect(suspect, tables)
    ensures IsCutOf(Scan([], suspect, tables), suspect + [], tables)
  {
    assert suspect + [] == suspect;
    if suspect != [] {
      assert Joined([Suspect(suspect)]) == suspect + Joined([]) == suspect;
    }
  }

  lemma {:induction false} ScanCuts(raw: Bytes, suspect: Bytes, tables: Tables)
    requires AllSuspect(suspect, tables) && Aligned(suspect, raw)
    ensures IsCutOf(Scan(raw, suspect, tables), suspect + raw, tables)
    decreases |raw|
  {
    if raw == [] {
      ScanEnd(suspect, tables);
    } else {
      var n := DecodeRune(raw).1;
      if IsSuspectHead(raw, tables) {
        RunGrows(raw, suspect, tables);
        ScanCuts(raw[n..], suspect + raw[..n], tables);
        ScanSuspect(raw, suspect, tables);
      } else {
        ScanCuts(raw[n..], [], tables);
        SplitAt([], raw, n);
        assert [] + raw[n..] == raw[n..];
        ScanPlain(raw, suspect, tables);
      }
    }
  }

  /** The repair cuts every text into plain characters and maximal suspect runs. */
  lemma TextIsCut(text: Bytes, tables: Tables)
    ensures IsCutOf(Scan(text, [], tables), text, tables)
  {
    ScanCuts(text, [], tables);
    assert [] + text == text;
  }

  // The result.

  lemma RenderOneIsWellFormed(segment: Segment, tables: Tables)
    requires IsProper(segment, tables)
    ensures WellFormed(RenderOne(segment, tables))
  {
    match segment
    case Plain(bytes) => assert bytes[Width(bytes)..] == [];
    case Suspect(bytes) => ToValidUTF8Spec(bytes, false);
  }

  lemma {:induction false} RenderIsWellFormed(segments: seq<Segment>, tables: Tables)
    requires forall i :: 0 <= i < |segments| ==> IsProper(segments[i], tables)
    ensures WellFormed(Render(segments, tables))
  {
    if segments != [] {
      RenderOneIsWellFormed(segments[0], tables);
      RenderIsWellFormed(segments[1..], tables);
      WellFormedJoin(RenderOne(segments[0], tables), Render(segments[1..], tables));
    }
  }

  /** Whatever bytes come in and whatever the decoder makes of them, the result is well-formed UTF-8. */
  lemma NormalizedIsWellFormed(text: Bytes, tables: Tables)
    ensures WellFormed(Normalized(text, tables))
  {
    TextIsCut(text, tables);
    RenderIsWellFormed(Scan(text, [], tables), tables);
  }

  /** No suspect run reads better decoded. */
  ghost predicate NothingReads(segments: seq<Segment>, tables: Tables) {
    forall i :: 0 <= i < |segments| && segments[i].Suspect? ==>
      !Reads(segments[i].bytes, tables.decode(segments[i].bytes), tables)
  }

  /** The text with the ill-formed bytes of each segment replaced, and nothing decoded. */
  function Sanitized(segments: seq<Segment>): Bytes {
    if segments == [] then [] else ToValidUTF8(segments[0].bytes, false) + Sanitized(segments[1..])
  }

  lemma SanitizedMore(segment: Segment, rest: seq<Segment>)
    ensures Sanitized([segment] + rest) == ToValidUTF8(segment.bytes, false) + Sanitized(rest)
  {
    assert ([segment] + rest)[1..] == rest;
  }

  lemma SanitizedPlain(suspect: Bytes, bytes: Bytes, rest: seq<Segment>)
    requires WellFormed(bytes)
    ensures Sanitized(Flush(suspect) + ([Plain(bytes)] + rest))
         == ToValidUTF8(suspect, false) + (bytes + Sanitized(rest))
  {
    var tail := [Plain(bytes)] + rest;
    ToValidUTF8Spec(bytes, false);
    SanitizedMore(Plain(bytes), rest);
    if suspect == [] {
      assert Flush(suspect) + tail == tail;
    } else {
      SanitizedMore(Suspect(suspect), tail);
    }
  }

  lemma SanitizedEnd(suspect: Bytes)
    ensures Sanitized(Flush(suspect)) == ToValidUTF8(suspect, false)
  {
    if suspect != [] {
      SanitizedMore(Suspect(suspect), []);
      assert [Suspect(suspect)] + [] == Flush(suspect);
    }
  }

  lemma PlainIsKept(raw: Bytes)
    requires Width(raw) > 0
    ensures var n := Width(raw);
            ToValidUTF8(raw, false) == raw[..n] + ToValidUTF8(raw[n..], false) && WellFormed(raw[..n])
  {
    CharacterIsWellFormed(raw);
  }

  lemma SanitizedStep(raw: Bytes, suspect: Bytes, tables: Tables)
    requires Aligned(suspect, raw) && raw != [] && !IsSuspectHead(raw, tables)
    requires var rest := raw[DecodeRune(raw).1..]; Sanitized(Scan(rest, [], tables)) == ToValidUTF8(rest, false)
    ensures Sanitized(Scan(raw, suspect, tables)) == ToValidUTF8(suspect + raw, false)
  {
    var n := DecodeRune(raw).1;
    PlainIsKept(raw);
    SanitizedPlain(suspect, raw[..n], Scan(raw[n..], [], tables));
    JoinsFreshExactly(suspect, raw, false);
  }

  /** Replacing ill-formed bytes segment by segment is replacing them in the whole text. */
  lemma {:induction false} SanitizedIsWhole(raw: Bytes, suspect: Bytes, tables: Tables)
    requires Aligned(suspect, raw)
    ensures Sanitized(Scan(raw, suspect, tables)) == ToValidUTF8(suspect + raw, false)
    decreases |raw|
  {
    if raw == [] {
      assert suspect + raw == suspect;
      SanitizedEnd(suspect);
    } else {
      var n := DecodeRune(raw).1;
      if IsSuspectHead(raw, tables) {
        AlignedFurther(suspect, raw);
        ScanSuspect(raw, suspect, tables);
        SanitizedIsWhole(raw[n..], suspect + raw[..n], tables);
      } else {
        SanitizedIsWhole(raw[n..], [], tables);
        assert [] + raw[n..] == raw[n..];
        SanitizedStep(raw, suspect, tables);
      }
    }
  }

  lemma {:induction false} ScoreJoin(front: Bytes, back: Bytes, tables: Tables)
    requires WellFormed(front)
    ensures Score(front + back, tables) == Score(front, tables) + Score(back, tables)
    decreases |front|
  {
    if front == [] {
      assert front + back == back;
    } else {
      var n := Width(front);
      WidthOfFront(front, back);
      assert (front + back)[n..] == front[n..] + back;
      ScoreJoin(front[n..], back, tables);
    }
  }

  /** A segment is rendered like its sanitized bytes, or it scores strictly better. */
  lemma RenderOneScores(segment: Segment, tables: Tables)
    requires IsProper(segment, tables)
    ensures WellFormed(RenderOne(segment, tables)) && WellFormed(ToValidUTF8(segment.bytes, false))
    ensures if segment.Suspect? && Reads(segment.bytes, tables.decode(segment.bytes), tables)
            then Score(RenderOne(segment, tables), tables) > Score(ToValidUTF8(segment.bytes, false), tables)
            else RenderOne(segment, tables) == ToValidUTF8(segment.bytes, false)
  {
    RenderOneIsWellFormed(segment, tables);
    ToValidUTF8Spec(segment.bytes, false);
  }

  lemma {:induction false} RenderScores(segments: seq<Segment>, tables: Tables)
    requires forall i :: 0 <= i < |segments| ==> IsProper(segments[i], tables)
    ensures if NothingReads(segments, tables) then Render(segments, tables) == Sanitized(segments)
            else Score(Render(segments, tables), tables) > Score(Sanitized(segments), tables)
  {
    if segments != [] {
      var (first, rest) := (segments[0], segments[1..]);
      RenderOneScores(first, tables);
      RenderScores(rest, tables);
      ScoreJoin(RenderOne(first, tables), Render(rest, tables), tables);
      ScoreJoin(ToValidUTF8(first.bytes, false), Sanitized(rest), tables);
      NothingReadsInRest(segments, tables);
    }
  }

  lemma NothingReadsInRest(segments: seq<Segment>, tables: Tables)
    requires segments != []
    ensures NothingReads(segments, tables)
       <==> !(segments[0].Suspect? && Reads(segments[0].bytes, tables.decode(segments[0].bytes), tables))
            && NothingReads(segments[1..], tables)
  {
    var rest := segments[1..];
    forall i | 0 <= i < |segments| ensures i > 0 ==> segments[i] == rest[i - 1] {
    }
    forall i | 0 <= i < |rest| ensures rest[i] == segments[i + 1] {
    }
  }

  /**
   What the repair does to any text: when no suspect run reads better decoded, it only replaces ill-formed
   bytes, so that well-formed text comes back unchanged; otherwise the result scores strictly higher than that.
   */
  lemma RepairOnlyImproves(text: Bytes, tables: Tables)
    ensures var plain := ToValidUTF8(text, false);
            if NothingReads(Scan(text, [], tables), tables)
            then Normalized(text, tables) == plain && (WellFormed(text) ==> Normalized(text, tables) == text)
            else Score(Normalized(text, tables), tables) > Score(plain, tables)
  {
    TextIsCut(text, tables);
    RenderScores(Scan(text, [], tables), tables);
    SanitizedIsWhole(text, [], tables);
    assert [] + text == text;
    ToValidUTF8Spec(text, false);
  }

  /** Well-formed text without a suspect character. */
  predicate NoSuspect(text: Bytes, tables: Tables)
    decreases |text|
  {
    text == [] || (!IsSuspectHead(text, tables) && NoSuspect(text[Width(text)..], tables))
  }

  lemma {:induction false} NoSuspectSegments(text: Bytes, tables: Tables)
    requires NoSuspect(text, tables)
    ensures WellFormed(text)
    ensures forall i :: 0 <= i < |Scan(text, [], tables)| ==> Scan(text, [], tables)[i].Plain?
    decreases |text|
  {
    if text != [] {
      NoSuspectSegments(text[Width(text)..], tables);
    }
  }

  /** Well-formed text without suspect characters comes back unchanged, whatever the decoder. */
  lemma CleanTextIsUnchanged(text: Bytes, tables: Tables)
    requires NoSuspect(text, tables)
    ensures Normalized(text, tables) == text
  {
    NoSuspectSegments(text, tables);
    RepairOnlyImproves(text, tables);
  }
}
