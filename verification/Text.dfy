/** Strings as the program uses them: trimming, and decimal numbers. */
module Text {

  datatype Option<+T> = None | Some(value: T)

  predicate IsUnicodeSpace(c: char) {
    c == '\U{00A0}' || c == '\U{1680}' || '\U{2000}' <= c <= '\U{200A}' || c == '\U{2028}' || c == '\U{2029}'
    || c == '\U{202F}' || c == '\U{205F}' || c == '\U{3000}'
  }

  /** The white space of Go's `unicode.IsSpace`. */
  predicate GoSpace(c: char) {
    '\t' <= c <= '\r' || c == ' ' || c == '\U{0085}' || IsUnicodeSpace(c)
  }

  /** The white space of ECMAScript's `String.prototype.trim`. */
  predicate JsSpace(c: char) {
    '\t' <= c <= '\r' || c == ' ' || c == '\U{FEFF}' || IsUnicodeSpace(c)
  }

  function TrimStart(s: string, space: char -> bool): string {
    if s != "" && space(s[0]) then TrimStart(s[1..], space) else s
  }

  function TrimEnd(s: string, space: char -> bool): string {
    if s != "" && space(s[|s| - 1]) then TrimEnd(s[..|s| - 1], space) else s
  }

  function Trim(s: string, space: char -> bool): string {
    TrimEnd(TrimStart(s, space), space)
  }

  predicate IsTrimmed(s: string, space: char -> bool) {
    s == "" || (!space(s[0]) && !space(s[|s| - 1]))
  }

  lemma {:induction false} TrimStartSpec(s: string, space: char -> bool)
    ensures var r := TrimStart(s, space); |r| <= |s| && r == s[|s| - |r|..] && (r == "" || !space(r[0]))
  {
    if s != "" && space(s[0]) {
      TrimStartSpec(s[1..], space);
    }
  }

  lemma {:induction false} TrimEndSpec(s: string, space: char -> bool)
    ensures var r := TrimEnd(s, space); |r| <= |s| && r == s[..|r|] && (r == "" || !space(r[|r| - 1]))
  {
    if s != "" && space(s[|s| - 1]) {
      TrimEndSpec(s[..|s| - 1], space);
    }
  }

  /** Trimming leaves a string without white space at its ends, and one that has none there as it is. */
  lemma TrimSpec(s: string, space: char -> bool)
    ensures IsTrimmed(Trim(s, space), space)
    ensures IsTrimmed(s, space) ==> Trim(s, space) == s
  {
    TrimStartSpec(s, space);
    TrimEndSpec(TrimStart(s, space), space);
  }

  /** Trimming twice is trimming once. */
  lemma TrimTwice(s: string, space: char -> bool)
    ensures Trim(Trim(s, space), space) == Trim(s, space)
  {
    TrimSpec(s, space);
    TrimSpec(Trim(s, space), space);
  }

  /** Nothing is left exactly when there is nothing but white space. */
  lemma {:induction false} TrimsToNothing(s: string, space: char -> bool)
    ensures Trim(s, space) == "" <==> forall i :: 0 <= i < |s| ==> space(s[i])
  {
    if s != "" && space(s[0]) {
      TrimsToNothing(s[1..], space);
      assert forall i :: 1 <= i < |s| ==> s[i] == s[1..][i - 1];
    } else if s != "" {
      KeepsFirst(s, space);
    }
  }

  lemma {:induction false} KeepsFirst(s: string, space: char -> bool)
    requires s != "" && !space(s[0])
    ensures TrimEnd(s, space) != ""
  {
    if space(s[|s| - 1]) {
      KeepsFirst(s[..|s| - 1], space);
    }
  }

  function TrimSpace(s: string): string {
    Trim(s, GoSpace)
  }

  function JsTrim(s: string): string {
    Trim(s, JsSpace)
  }

  predicate IsDigit(c: char) {
    '0' <= c <= '9'
  }

  predicate AllDigits(s: string) {
    forall i :: 0 <= i < |s| ==> IsDigit(s[i])
  }

  function DigitChar(d: nat): (c: char)
    requires d < 10
    ensures IsDigit(c) && c as int - '0' as int == d
  {
    '0' + d as char
  }

  /** The decimal numeral of a natural number, most significant digit first. */
  function Decimal(n: nat): (s: string)
    ensures s != "" && AllDigits(s)
  {
    if n < 10 then [DigitChar(n)] else Decimal(n / 10) + [DigitChar(n % 10)]
  }

  function DigitsValue(s: string): nat
    requires AllDigits(s)
  {
    if s == "" then 0
    else 10 * DigitsValue(s[..|s| - 1]) + (s[|s| - 1] as int - '0' as int)
  }

  /** `strconv.Atoi`: an optional sign, then at least one digit, and nothing else. */
  function Atoi(s: string): Option<int> {
    var digits := if s != "" && s[0] in "+-" then s[1..] else s;
    if digits == "" || !AllDigits(digits) then None
    else
      var value: int := DigitsValue(digits);
      Some(if s[0] == '-' then -value else value)
  }

  lemma {:induction false} DecimalValue(n: nat)
    ensures DigitsValue(Decimal(n)) == n
  {
    if n >= 10 {
      DecimalValue(n / 10);
      assert Decimal(n)[..|Decimal(n)| - 1] == Decimal(n / 10);
    }
  }

  /** Reading back a printed number gives the number. */
  lemma AtoiDecimal(n: nat)
    ensures Atoi(Decimal(n)) == Some(n)
  {
    DecimalValue(n);
    assert IsDigit(Decimal(n)[0]);
  }

  lemma DecimalInjective(m: nat, n: nat)
    requires Decimal(m) == Decimal(n)
    ensures m == n
  {
    DecimalValue(m);
    DecimalValue(n);
  }
}
