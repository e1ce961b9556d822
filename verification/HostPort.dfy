/** Host and port in one text: printing them, and parsing them with a default port. */
module HostPort {
  import opened Text

  datatype Address = Address(host: string, port: int)

  function PortText(port: int): string {
    if port < 0 then "-" + Decimal(-port) else Decimal(port)
  }

  /** A host with a colon is put in brackets, unless it starts with one. */
  function FormatHostPort(host: string, port: int): string {
    var h := TrimSpace(host);
    if ':' in h && !("[" <= h) then ['['] + h + "]:" + PortText(port) else h + [':'] + PortText(port)
  }

  function IndexOf(s: string, c: char): (i: int)
    ensures -1 <= i < |s|
    ensures i >= 0 ==> s[i] == c
  {
    if s == "" then -1
    else if s[0] == c then 0
    else
      var rest := IndexOf(s[1..], c);
      if rest < 0 then -1 else rest + 1
  }

  function LastIndexOf(s: string, c: char): (i: int)
    ensures -1 <= i < |s|
    ensures i >= 0 ==> s[i] == c
  {
    if s == "" then -1
    else if s[|s| - 1] == c then |s| - 1
    else LastIndexOf(s[..|s| - 1], c)
  }

  function Count(s: string, c: char): nat {
    if s == "" then 0 else Count(s[..|s| - 1], c) + if s[|s| - 1] == c then 1 else 0
  }

  datatype HostAndPort = HostAndPort(host: string, portText: string)

  /** `net.SplitHostPort`: what is before and behind the last colon; a host with colons must stand in brackets. */
  function SplitHostPort(hostport: string): Option<HostAndPort> {
    var i := LastIndexOf(hostport, ':');
    if i < 0 then None
    else if hostport[0] == '[' then
      var end := IndexOf(hostport, ']');
      if end < 0 || end + 1 != i || '[' in hostport[1..] || ']' in hostport[end + 1..] then None
      else Some(HostAndPort(hostport[1..end], hostport[i + 1..]))
    else if ':' in hostport[..i] || '[' in hostport || ']' in hostport then None
    else Some(HostAndPort(hostport[..i], hostport[i + 1..]))
  }

  predicate IsClosing(c: char) {
    c == ']'
  }

  /** Host and port where the split succeeded: the port must be a number from 1 to 65535. */
  function WithPort(split: HostAndPort): Option<Address> {
    match Atoi(split.portText)
    case Some(port) => if 0 < port <= 65535 then Some(Address(TrimSpace(split.host), port)) else None
    case None => None
  }

  function ParseBracketed(text: string, defaultPort: int): Option<Address>
    requires text != ""
  {
    match SplitHostPort(text)
    case Some(split) => WithPort(split)
    case None =>
      var trimmed := Trim(text[1..], IsClosing);
      if trimmed != "" && defaultPort > 0 then Some(Address(trimmed, defaultPort)) else None
  }

  function ParseWithColon(text: string, defaultPort: int): Option<Address> {
    match SplitHostPort(text)
    case Some(split) => WithPort(split)
    case None => if defaultPort > 0 then Some(Address(TrimSpace(text), defaultPort)) else None
  }

  function ParseAddressWithDefaultPort(raw: string, defaultPort: int): Option<Address> {
    var text := TrimSpace(raw);
    if text == "" then None
    else if "[" <= text then ParseBracketed(text, defaultPort)
    else if Count(text, ':') == 1 then ParseWithColon(text, defaultPort)
    else if defaultPort > 0 then Some(Address(text, defaultPort))
    else None
  }

  // Places of characters.

  lemma {:induction false} LastIndexSplit(front: string, c: char, back: string)
    requires c !in back
    ensures LastIndexOf(front + [c] + back, c) == |front|
  {
    var s := front + [c] + back;
    if back == "" {
      assert s[|s| - 1] == c;
    } else {
      assert s[|s| - 1] == back[|back| - 1];
      assert s[..|s| - 1] == front + [c] + back[..|back| - 1];
      LastIndexSplit(front, c, back[..|back| - 1]);
    }
  }

  lemma {:induction false} IndexSplit(front: string, c: char, back: string)
    requires c !in front
    ensures IndexOf(front + [c] + back, c) == |front|
  {
    var s := front + [c] + back;
    if front != "" {
      assert s[0] == front[0];
      assert s[1..] == front[1..] + [c] + back;
      IndexSplit(front[1..], c, back);
    }
  }

  lemma {:induction false} CountJoin(s: string, t: string, c: char)
    ensures Count(s + t, c) == Count(s, c) + Count(t, c)
  {
    if t == "" {
      assert s + t == s;
    } else {
      assert (s + t)[..|s + t| - 1] == s + t[..|t| - 1];
      CountJoin(s, t[..|t| - 1], c);
    }
  }

  lemma {:induction false} CountNone(s: string, c: char)
    requires c !in s
    ensures Count(s, c) == 0
  {
    if s != "" {
      CountNone(s[..|s| - 1], c);
    }
  }

  lemma DigitsOnly(port: nat, c: char)
    requires !IsDigit(c)
    ensures c !in Decimal(port)
  {
  }

  predicate NoBrackets(s: string) {
    '[' !in s && ']' !in s
  }

  lemma OneColon(h: string, digits: string)
    requires ':' !in h && ':' !in digits
    ensures Count(h + [':'] + digits, ':') == 1
  {
    CountJoin(h + [':'], digits, ':');
    CountJoin(h, [':'], ':');
    CountNone(h, ':');
    CountNone(digits, ':');
    assert [':'][..0] == "";
  }

  /** The text for a host without brackets is taken apart again. */
  lemma SplitPlain(h: string, digits: string)
    requires NoBrackets(h) && ':' !in h && NoBrackets(digits) && ':' !in digits
    ensures SplitHostPort(h + [':'] + digits) == Some(HostAndPort(h, digits))
  {
    var text := h + [':'] + digits;
    LastIndexSplit(h, ':', digits);
    assert text[..|h|] == h && text[|h| + 1..] == digits;
    assert NoBrackets(text) by {
      assert forall c :: c in text ==> c in h || c == ':' || c in digits;
    }
    assert text[0] in text;
  }

  lemma BracketedColon(h: string, digits: string)
    ensures ['['] + h + "]:" + digits == (['['] + h + [']']) + [':'] + digits
  {
  }

  lemma BracketedEnd(h: string, digits: string)
    ensures ['['] + h + "]:" + digits == (['['] + h) + [']'] + ([':'] + digits)
  {
  }

  lemma BracketedPlaces(h: string, digits: string)
    requires NoBrackets(h) && ':' !in digits
    ensures LastIndexOf(['['] + h + "]:" + digits, ':') == |h| + 2
    ensures IndexOf(['['] + h + "]:" + digits, ']') == |h| + 1
  {
    BracketedColon(h, digits);
    LastIndexSplit(['['] + h + [']'], ':', digits);
    BracketedEnd(h, digits);
    IndexSplit(['['] + h, ']', [':'] + digits);
  }

  lemma BracketedSlices(h: string, digits: string)
    ensures var text := ['['] + h + "]:" + digits;
            text[1..] == h + "]:" + digits && text[1..|h| + 1] == h
            && text[|h| + 2..] == [':'] + digits && text[|h| + 3..] == digits
  {
  }

  lemma SplitBracketed(h: string, digits: string)
    requires NoBrackets(h) && NoBrackets(digits) && ':' !in digits
    ensures SplitHostPort(['['] + h + "]:" + digits) == Some(HostAndPort(h, digits))
  {
    BracketedPlaces(h, digits);
    BracketedSlices(h, digits);
  }

  // The round trip.

  lemma FormattedIsTrimmed(h: string, port: nat)
    requires IsTrimmed(h, GoSpace)
    ensures TrimSpace(h + [':'] + Decimal(port)) == h + [':'] + Decimal(port)
    ensures TrimSpace(['['] + h + "]:" + Decimal(port)) == ['['] + h + "]:" + Decimal(port)
  {
    var digits := Decimal(port);
    assert IsDigit(digits[|digits| - 1]);
    TrimSpec(h + [':'] + digits, GoSpace);
    TrimSpec(['['] + h + "]:" + digits, GoSpace);
  }

  lemma PortIsRead(h: string, port: nat)
    requires 1 <= port <= 65535 && IsTrimmed(h, GoSpace)
    ensures WithPort(HostAndPort(h, Decimal(port))) == Some(Address(h, port))
  {
    AtoiDecimal(port);
    TrimSpec(h, GoSpace);
  }

  lemma DigitsArePlain(port: nat)
    ensures NoBrackets(Decimal(port)) && ':' !in Decimal(port)
  {
    DigitsOnly(port, '[');
    DigitsOnly(port, ']');
    DigitsOnly(port, ':');
  }

  lemma HostWithoutBracketsReturns(h: string, port: nat, defaultPort: int)
    requires 1 <= port <= 65535 && IsTrimmed(h, GoSpace) && NoBrackets(h)
    ensures ParseAddressWithDefaultPort(FormatHostPort(h, port), defaultPort) == Some(Address(h, port))
  {
    TrimSpec(h, GoSpace);
    DigitsArePlain(port);
    FormattedIsTrimmed(h, port);
    PortIsRead(h, port);
    if ':' in h {
      SplitBracketed(h, Decimal(port));
      assert "[" <= ['['] + h + "]:" + Decimal(port);
    } else {
      SplitPlain(h, Decimal(port));
      OneColon(h, Decimal(port));
      OtherStart(h, Decimal(port));
    }
  }

  // Hosts with brackets do not come back.

  /** A host that was split off has no brackets, and trimming does not bring any. */
  lemma SplitHostHasNoBrackets(text: string)
    requires text != "" && SplitHostPort(text).Some?
    ensures NoBrackets(SplitHostPort(text).value.host)
  {
    var end := IndexOf(text, ']');
    if text[0] == '[' {
      BeforeFirst(text, ']');
      assert text[1..end] == text[1..][..end - 1];
    }
  }

  lemma {:induction false} BeforeFirst(s: string, c: char)
    requires IndexOf(s, c) >= 0
    ensures c !in s[..IndexOf(s, c)]
  {
    if s[0] != c {
      BeforeFirst(s[1..], c);
      assert s[..IndexOf(s, c)] == [s[0]] + s[1..][..IndexOf(s[1..], c)];
    }
  }

  lemma TrimmedHasNoBrackets(s: string)
    requires NoBrackets(s)
    ensures NoBrackets(TrimSpace(s))
  {
    TrimStartSpec(s, GoSpace);
    TrimEndSpec(TrimStart(s, GoSpace), GoSpace);
  }

  lemma SplitNeverGivesBrackets(text: string, h: string, port: int)
    requires text != "" && SplitHostPort(text).Some? && !NoBrackets(h)
    ensures WithPort(SplitHostPort(text).value) != Some(Address(h, port))
  {
    SplitHostHasNoBrackets(text);
    TrimmedHasNoBrackets(SplitHostPort(text).value.host);
  }

  lemma {:induction false} CountAfterTrim(s: string)
    ensures Count(Trim(s, IsClosing), '[') == Count(s, '[')
  {
    var r := TrimStart(s, IsClosing);
    TrimStartKeepsCount(s);
    TrimEndKeepsCount(r);
  }

  lemma {:induction false} TrimStartKeepsCount(s: string)
    ensures Count(TrimStart(s, IsClosing), '[') == Count(s, '[')
  {
    if s != "" && IsClosing(s[0]) {
      TrimStartKeepsCount(s[1..]);
      assert s == [s[0]] + s[1..];
      CountJoin([s[0]], s[1..], '[');
      CountNone([s[0]], '[');
    }
  }

  lemma {:induction false} TrimEndKeepsCount(s: string)
    ensures Count(TrimEnd(s, IsClosing), '[') == Count(s, '[')
  {
    if s != "" && IsClosing(s[|s| - 1]) {
      TrimEndKeepsCount(s[..|s| - 1]);
    }
  }

  /** The fallback for a host that starts with a bracket has one opening bracket less. */
  lemma FallbackLosesBracket(h: string, digits: string)
    requires "[" <= h && '[' !in digits
    ensures Trim((h + [':'] + digits)[1..], IsClosing) != h
  {
    var text := h + [':'] + digits;
    CountAfterTrim(text[1..]);
    assert text == [text[0]] + text[1..];
    CountJoin([text[0]], text[1..], '[');
    assert Count(['['], '[') == 1 by {
      assert ['['][..0] == "";
    }
    CountJoin(h + [':'], digits, '[');
    CountJoin(h, [':'], '[');
    CountNone(digits, '[');
    CountNone([':'], '[');
  }

  /**
   The fallback for a bracketed text starts with no closing bracket and, if nothing is cut, is longer than the
   host.
   */
  lemma FallbackIsLonger(h: string, digits: string)
    requires digits != "" && IsDigit(digits[|digits| - 1])
    ensures Trim((['['] + h + "]:" + digits)[1..], IsClosing) != h
  {
    var tail := (['['] + h + "]:" + digits)[1..];
    assert tail == h + "]:" + digits;
    TrimStartSpec(tail, IsClosing);
    var r := TrimStart(tail, IsClosing);
    assert tail[|tail| - 1] == digits[|digits| - 1];
    if h != "" && IsClosing(h[0]) {
      TrimSpec(tail, IsClosing);
      assert Trim(tail, IsClosing) != h;
    } else if h != "" {
      assert tail[0] == h[0];
      TrimSpec(tail, IsClosing);
      assert Trim(tail, IsClosing) == tail;
    } else {
      ColonSurvives(tail);
    }
  }

  lemma {:induction false} ColonSurvives(s: string)
    requires ':' in s
    ensures ':' in TrimStart(s, IsClosing) && Trim(s, IsClosing) != ""
  {
    if IsClosing(s[0]) {
      assert ':' in s[1..];
      ColonSurvives(s[1..]);
    } else {
      TrimEndSpec(s, IsClosing);
      NotAllTrimmed(s);
    }
  }

  lemma {:induction false} NotAllTrimmed(s: string)
    requires s != "" && !IsClosing(s[0])
    ensures TrimEnd(s, IsClosing) != ""
  {
    if IsClosing(s[|s| - 1]) {
      NotAllTrimmed(s[..|s| - 1]);
    }
  }

  lemma BracketedBranchFails(text: string, h: string, port: int, defaultPort: int)
    requires text != "" && !NoBrackets(h) && Trim(text[1..], IsClosing) != h
    ensures ParseBracketed(text, defaultPort) != Some(Address(h, port))
  {
    if SplitHostPort(text).Some? {
      SplitNeverGivesBrackets(text, h, port);
    }
  }

  lemma ColonBranchFails(text: string, h: string, port: int, defaultPort: int)
    requires text != "" && !NoBrackets(h) && TrimSpace(text) != h
    ensures ParseWithColon(text, defaultPort) != Some(Address(h, port))
  {
    if SplitHostPort(text).Some? {
      SplitNeverGivesBrackets(text, h, port);
    }
  }

  lemma HostWithBracketsDoesNotReturn(h: string, port: nat, defaultPort: int)
    requires IsTrimmed(h, GoSpace) && !NoBrackets(h)
    ensures ParseAddressWithDefaultPort(FormatHostPort(h, port), defaultPort) != Some(Address(h, port))
  {
    var digits := Decimal(port);
    TrimSpec(h, GoSpace);
    DigitsArePlain(port);
    FormattedIsTrimmed(h, port);
    var text := FormatHostPort(h, port);
    if "[" <= h {
      FallbackLosesBracket(h, digits);
      assert "[" <= h + [':'] + digits;
      BracketedBranchFails(h + [':'] + digits, h, port, defaultPort);
    } else if ':' in h {
      FallbackIsLonger(h, digits);
      assert "[" <= ['['] + h + "]:" + digits;
      BracketedBranchFails(['['] + h + "]:" + digits, h, port, defaultPort);
    } else {
      OneColon(h, digits);
      OtherStart(h, digits);
      ColonBranchFails(h + [':'] + digits, h, port, defaultPort);
    }
  }

  lemma OtherStart(h: string, digits: string)
    requires !("[" <= h)
    ensures !("[" <= h + [':'] + digits)
  {
    if h != "" {
      assert (h + [':'] + digits)[0] == h[0];
    } else {
      assert (h + [':'] + digits)[0] == ':';
    }
  }

  /**
   The round trip, whatever the default port: parsing a formatted address gives back the trimmed host and the
   port exactly when the trimmed host has no square bracket. Hosts with colons, such as IPv6 addresses, are included.
   */
  lemma RoundTripExactlyWithoutBrackets(host: string, port: nat, defaultPort: int)
    requires 1 <= port <= 65535
    ensures ParseAddressWithDefaultPort(FormatHostPort(host, port), defaultPort) == Some(Address(TrimSpace(host), port))
       <==> NoBrackets(TrimSpace(host))
  {
    var h := TrimSpace(host);
    TrimSpec(host, GoSpace);
    TrimTwice(host, GoSpace);
    assert FormatHostPort(h, port) == FormatHostPort(host, port);
    if NoBrackets(h) {
      HostWithoutBracketsReturns(h, port, defaultPort);
    } else {
      HostWithBracketsDoesNotReturn(h, port, defaultPort);
    }
  }

  /** The port of a parsed address is a valid one, or the default. */
  lemma ParsedPortIsValid(raw: string, defaultPort: int)
    ensures match ParseAddressWithDefaultPort(raw, defaultPort)
            case Some(address) => 1 <= address.port <= 65535 || (address.port == defaultPort && defaultPort > 0)
            case None => true
  {
  }

  lemma {:induction false} BehindLast(s: string, c: char)
    ensures LastIndexOf(s, c) < 0 <==> c !in s
    ensures c !in s[LastIndexOf(s, c) + 1..]
  {
    if s != "" && s[|s| - 1] != c {
      var front := s[..|s| - 1];
      BehindLast(front, c);
      assert s == front + [s[|s| - 1]];
      assert s[LastIndexOf(s, c) + 1..] == front[LastIndexOf(front, c) + 1..] + [s[|s| - 1]];
    }
  }

  /** A text that is not in brackets is split only at its one colon. */
  lemma SplitNeedsOneColon(text: string)
    requires text != "" && !("[" <= text) && SplitHostPort(text).Some?
    ensures Count(text, ':') == 1
  {
    var i := LastIndexOf(text, ':');
    BehindLast(text, ':');
    assert text == text[..i] + [':'] + text[i + 1..];
    OneColon(text[..i], text[i + 1..]);
  }

  lemma OneColonSplits(text: string)
    requires NoBrackets(text) && Count(text, ':') == 1
    ensures var i := LastIndexOf(text, ':');
            i >= 0 && SplitHostPort(text) == Some(HostAndPort(text[..i], text[i + 1..]))
  {
    var i := LastIndexOf(text, ':');
    BehindLast(text, ':');
    if i < 0 {
      CountNone(text, ':');
    } else {
      var (front, back) := (text[..i], text[i + 1..]);
      assert text == front + [':'] + back;
      OneColonIsOnly(front, back);
      SplitPlain(front, back);
    }
  }

  lemma {:induction false} CountSome(s: string, c: char)
    requires c in s
    ensures Count(s, c) > 0
  {
    if s[|s| - 1] != c {
      assert c in s[..|s| - 1];
      CountSome(s[..|s| - 1], c);
    }
  }

  lemma OneColonIsOnly(front: string, back: string)
    requires Count(front + [':'] + back, ':') == 1
    ensures ':' !in front && ':' !in back
  {
    CountJoin(front + [':'], back, ':');
    CountJoin(front, [':'], ':');
    assert [':'][..0] == "";
    if ':' in front {
      CountSome(front, ':');
    }
    if ':' in back {
      CountSome(back, ':');
    }
  }

  /** What is left of a text in brackets when it cannot be split is nothing. */
  predicate IsOnlyBrackets(text: string) {
    "[" <= text && Trim(text[1..], IsClosing) == ""
  }

  /** The default port plays a part exactly when there is a host that cannot be split from a port, in whatever form. */
  lemma DefaultPortMattersExactly(raw: string, one: int, other: int)
    requires 0 < one && 0 < other && one != other
    ensures ParseAddressWithDefaultPort(raw, one) != ParseAddressWithDefaultPort(raw, other)
       <==> TrimSpace(raw) != "" && SplitHostPort(TrimSpace(raw)).None? && !IsOnlyBrackets(TrimSpace(raw))
  {
    var text := TrimSpace(raw);
    if text != "" && !("[" <= text) && SplitHostPort(text).Some? {
      SplitNeedsOneColon(text);
    }
  }

  /** A host without brackets is taken whole, with the default port, exactly when it does not have exactly one colon. */
  lemma BareHostGetsDefaultPort(raw: string, defaultPort: int)
    requires TrimSpace(raw) != "" && NoBrackets(TrimSpace(raw)) && defaultPort > 0
    ensures ParseAddressWithDefaultPort(raw, defaultPort) == Some(Address(TrimSpace(raw), defaultPort))
       <==> Count(TrimSpace(raw), ':') != 1
  {
    var text := TrimSpace(raw);
    assert text[0] in text;
    if Count(text, ':') == 1 {
      OneColonSplits(text);
      var host := text[..LastIndexOf(text, ':')];
      TrimStartSpec(host, GoSpace);
      TrimEndSpec(TrimStart(host, GoSpace), GoSpace);
      assert |TrimSpace(host)| < |text|;
    }
  }

  /** Without a positive default, an address is found exactly where a valid port stands in the text itself. */
  lemma NoDefaultNeedsPort(raw: string, defaultPort: int)
    requires defaultPort <= 0
    ensures var split := SplitHostPort(TrimSpace(raw));
            ParseAddressWithDefaultPort(raw, defaultPort)
            == if TrimSpace(raw) != "" && split.Some? then WithPort(split.value) else None
  {
    var text := TrimSpace(raw);
    if text != "" && !("[" <= text) && SplitHostPort(text).Some? {
      SplitNeedsOneColon(text);
    }
  }

  /** With exactly one colon what stands behind it must be a port; the default is not used. */
  lemma OneColonNeedsPort(front: string, back: string, defaultPort: int)
    requires NoBrackets(front) && NoBrackets(back) && ':' !in front && ':' !in back
    requires IsTrimmed(front + [':'] + back, GoSpace)
    ensures ParseAddressWithDefaultPort(front + [':'] + back, defaultPort)
         == match Atoi(back)
            case Some(port) => if 1 <= port <= 65535 then Some(Address(TrimSpace(front), port)) else None
            case None => None
  {
    TrimSpec(front + [':'] + back, GoSpace);
    SplitPlain(front, back);
    OneColon(front, back);
    if front != "" {
      assert front[0] in front;
    }
    OtherStart(front, back);
  }
}
