/** The two argument escapers of the serializer (`CurlCommand.Serializer`): Windows `"…"` quoting
    and POSIX `'…'` / `$'…'` quoting, each a chain of `replaceAll` calls whose replacement strings
    are interpreted as Java interprets them. */
module Escaping {
  import opened Wrappers
  import opened Exceptions
  import opened JavaStrings
  import opened Seqs

  // ---------------------------------------------------------------------------------------------
  // Windows

  /** `escapeStringWin`: quotes doubled, `%` wrapped in quotes, backslashes "doubled" with the
      replacement `\\`, and every run of CR/LF replaced by `"^$&"`; the whole wrapped in quotes. */
  function EscapeStringWin(s: string): Result<string, Failure>
  {
    var quotes :- ReplaceEachIn(s, {'"'}, "\"\"");
    var percents :- ReplaceEachIn(quotes, {'%'}, "\"%\"");
    var backslashes :- ReplaceEachIn(percents, {'\\'}, "\\\\");
    var breaks :- ReplaceRunsIn(backslashes, {'\r', '\n'}, "\"^$&\"");
    Success("\"" + breaks + "\"")
  }

  /** The character map the Windows escaper applies when it succeeds: a quote becomes two quotes,
      a percent sign becomes `"%"`, everything else (backslashes included) stays. */
  function WinMap(s: string): string
  {
    if s == [] then []
    else (if s[0] == '"' then "\"\"" else if s[0] == '%' then "\"%\"" else [s[0]]) + WinMap(s[1..])
  }

  /** How `cmd.exe` reads a quoted argument back: `""` is a quote and `"%"` a percent sign. */
  function UnescapeWin(t: string): Option<string>
    decreases |t|
  {
    if t == [] then Some([])
    else if t[0] != '"' then
      var rest :- UnescapeWin(t[1..]);
      Some([t[0]] + rest)
    else if |t| >= 2 && t[1] == '"' then
      var rest :- UnescapeWin(t[2..]);
      Some(['"'] + rest)
    else if |t| >= 3 && t[1] == '%' && t[2] == '"' then
      var rest :- UnescapeWin(t[3..]);
      Some(['%'] + rest)
    else None
  }

  // ---------------------------------------------------------------------------------------------
  // POSIX

  /** A character that `[^\x20-\x7E]|'` matches. */
  predicate NeedsQuoting(c: char)
  {
    c < ' ' || '~' < c || c == '\''
  }

  /** `s.matches("^.*([^\\x20-\\x7E]|').*$")`: some character needing quoting, and, because `.`
      matches no line terminator, no line terminator anywhere else. */
  predicate NeedsAnsiC(s: string)
  {
    exists i | 0 <= i < |s| :: NeedsQuoting(s[i]) && forall j | 0 <= j < |s| && j != i :: !IsLineTerminator(s[j])
  }

  /** `escapeStringPosix`: `'s'` unless the string needs ANSI-C quoting; then backslashes and
      quotes pass through their identity replacements, LF and CR become the letters `n` and `r`,
      and every code unit is written by `escapeCharacter`, all inside `$'…'`. */
  function EscapeStringPosix(s: string): Result<string, Failure>
  {
    if NeedsAnsiC(s) then
      var backslashes :- ReplaceEachIn(s, {'\\'}, "\\\\");
      var quotes :- ReplaceEachIn(backslashes, {'\''}, "\\'");
      var lineFeeds :- ReplaceEachIn(quotes, {'\n'}, "\\n");
      var carriageReturns :- ReplaceEachIn(lineFeeds, {'\r'}, "\\r");
      var body :- EscapeCodeUnits(carriageReturns);
      Success("$'" + body + "'")
    else
      Success("'" + s + "'")
  }

  /** `escapeCharacter`: `\x` and two hex digits below 256; above, `\u` followed by
      `toHexString(c).substring(length, 4)`, which fails for three-digit values and is empty for
      four-digit ones. */
  function EscapeCharacter(u: CodeUnit): Result<string, Failure>
  {
    var hex := ToHexString(u);
    if u < 256 then
      Success(if u < 16 then "\\x0" + hex else "\\x" + hex)
    else
      var tail :- Substring(hex, |hex|, 4);
      Success("\\u" + tail)
  }

  /** The UTF-16 code units of `s`, in order. */
  function Units(s: string): seq<CodeUnit>
  {
    if s == [] then [] else Units(s[..|s| - 1]) + CodeUnits(s[|s| - 1])
  }

  /** `s.chars().mapToObj(c -> escapeCharacter((char) c)).collect(joining())`. */
  function EscapeCodeUnits(s: string): Result<string, Failure>
  {
    var parts :- MapResult(Units(s), EscapeCharacter);
    Success(Concat(parts))
  }

  /** The text the four `replaceAll` calls leave for `escapeCharacter`: LF becomes `n`, CR
      becomes `r`, every other character stays. */
  function PosixSubstitute(s: string): string
  {
    if s == [] then []
    else [if s[0] == '\n' then 'n' else if s[0] == '\r' then 'r' else s[0]] + PosixSubstitute(s[1..])
  }

  predicate IsHexDigit(c: char)
  {
    '0' <= c <= '9' || 'a' <= c <= 'f'
  }

  function HexValue(c: char): (d: nat)
    requires IsHexDigit(c)
    ensures d < 16
  {
    if c <= '9' then c as int - '0' as int else c as int - 'a' as int + 10
  }

  /** How a shell reads back a `$'…'` body made only of `\xHH` escapes. */
  function DecodeHexEscapes(t: string): Option<string>
    decreases |t|
  {
    if t == [] then Some([])
    else if |t| >= 4 && t[|t| - 4] == '\\' && t[|t| - 3] == 'x' && IsHexDigit(t[|t| - 2]) && IsHexDigit(t[|t| - 1]) then
      var init :- DecodeHexEscapes(t[..|t| - 4]);
      Some(init + [(16 * HexValue(t[|t| - 2]) + HexValue(t[|t| - 1])) as char])
    else None
  }

  // ---------------------------------------------------------------------------------------------
  // Windows: what the chain of replacements computes.

  lemma {:induction false} WinMapConcat(a: string, b: string)
    ensures WinMap(a + b) == WinMap(a) + WinMap(b)
  {
    if a != [] {
      assert (a + b)[1..] == a[1..] + b;
      WinMapConcat(a[1..], b);
    } else {
      assert a + b == b;
    }
  }

  /** The quote and percent replacements together are `WinMap`. */
  lemma {:induction false} QuotesThenPercents(s: string)
    ensures MapChar(MapChar(s, '"', "\"\""), '%', "\"%\"") == WinMap(s)
  {
    if s != [] {
      QuotesThenPercents(s[1..]);
      var head := if s[0] == '"' then "\"\"" else [s[0]];
      MapCharConcat(head, MapChar(s[1..], '"', "\"\""), '%', "\"%\"");
      if s[0] == '"' {
        assert head == ['"'] + ['"'];
        MapCharConcat(['"'], ['"'], '%', "\"%\"");
      }
    }
  }

  /** `WinMap` keeps every character other than a quote or a percent sign and adds no other. */
  lemma {:induction false} WinMapMembers(s: string)
    ensures forall ch <- WinMap(s) :: ch in s || ch == '"' || ch == '%'
    ensures forall ch <- s :: ch in WinMap(s) || ch == '"' || ch == '%'
  {
    if s != [] {
      WinMapMembers(s[1..]);
      assert forall ch <- s :: ch == s[0] || ch in s[1..];
    }
  }

  /** A string with no CR or LF is escaped character by character with `WinMap`. */
  lemma EscapeWinPlain(s: string)
    requires '\r' !in s && '\n' !in s
    ensures EscapeStringWin(s) == Success("\"" + WinMap(s) + "\"")
  {
    SourceReplacements(['"']);
    SourceReplacements(['%']);
    SourceReplacements(['\\']);
    ReplaceEachChar(s, '"', "\"\"", "\"\"");
    var quotes := MapChar(s, '"', "\"\"");
    ReplaceEachChar(quotes, '%', "\"%\"", "\"%\"");
    QuotesThenPercents(s);
    ReplaceEachChar(WinMap(s), '\\', "\\\\", "\\");
    MapCharSelf(WinMap(s), '\\');
    WinMapMembers(s);
    ReplaceRunsAbsent(WinMap(s), {'\r', '\n'}, "\"^$&\"");
  }

  /** Any CR or LF makes the last replacement fail: `$&` is no group reference. */
  lemma EscapeWinBreak(s: string)
    requires '\r' in s || '\n' in s
    ensures EscapeStringWin(s) == Failure(IllegalGroupReference)
  {
    SourceReplacements(['"']);
    SourceReplacements(['%']);
    SourceReplacements(['\\']);
    ReplaceEachChar(s, '"', "\"\"", "\"\"");
    var quotes := MapChar(s, '"', "\"\"");
    ReplaceEachChar(quotes, '%', "\"%\"", "\"%\"");
    QuotesThenPercents(s);
    ReplaceEachChar(WinMap(s), '\\', "\\\\", "\\");
    MapCharSelf(WinMap(s), '\\');
    WinMapMembers(s);
    forall m ensures ExpandReplacement("\"^$&\"", m) == Failure(IllegalGroupReference) {
      SourceReplacements(m);
    }
    ReplaceRunsFail(WinMap(s), {'\r', '\n'}, "\"^$&\"", IllegalGroupReference);
  }

  /** `cmd.exe` reads the escaped body back as the original string. */
  lemma {:induction false} WinRoundTrip(s: string)
    ensures UnescapeWin(WinMap(s)) == Some(s)
  {
    if s != [] {
      WinRoundTrip(s[1..]);
      var rest := WinMap(s[1..]);
      if s[0] == '"' {
        assert ("\"\"" + rest)[2..] == rest;
      } else if s[0] == '%' {
        assert ("\"%\"" + rest)[3..] == rest;
      } else {
        assert ([s[0]] + rest)[1..] == rest;
      }
      assert [s[0]] + s[1..] == s;
    }
  }

  /** The Windows escaper succeeds exactly when there is no CR or LF, and then its output is the
      quoted text that reads back as `s`. */
  lemma EscapeWin(s: string)
    ensures EscapeStringWin(s).Success? <==> '\r' !in s && '\n' !in s
    ensures EscapeStringWin(s).Failure? ==> EscapeStringWin(s).error == IllegalGroupReference
    ensures EscapeStringWin(s).Success? ==>
              var r := EscapeStringWin(s).value;
              |r| >= 2 && r[0] == '"' && r[|r| - 1] == '"' && UnescapeWin(r[1..|r| - 1]) == Some(s)
  {
    if '\r' in s || '\n' in s {
      EscapeWinBreak(s);
    } else {
      EscapeWinPlain(s);
      WinRoundTrip(s);
      var r := "\"" + WinMap(s) + "\"";
      assert r[1..|r| - 1] == WinMap(s);
    }
  }

  // ---------------------------------------------------------------------------------------------
  // POSIX: which quoting is chosen.

  /** The regex accepts exactly the strings with a character needing quoting and at most one line
      terminator (a terminator itself needs quoting). */
  lemma NeedsAnsiCIff(s: string)
    ensures NeedsAnsiC(s) <==>
              (exists i | 0 <= i < |s| :: NeedsQuoting(s[i])) &&
              !(exists i, j | 0 <= i < j < |s| :: IsLineTerminator(s[i]) && IsLineTerminator(s[j]))
  {
    if (exists i | 0 <= i < |s| :: NeedsQuoting(s[i])) &&
       !(exists i, j | 0 <= i < j < |s| :: IsLineTerminator(s[i]) && IsLineTerminator(s[j])) {
      if p :| 0 <= p < |s| && IsLineTerminator(s[p]) {
        assert forall a, b | 0 <= a < b < |s| :: !(IsLineTerminator(s[a]) && IsLineTerminator(s[b]));
        assert forall j | 0 <= j < |s| && j != p :: !IsLineTerminator(s[j]);
        assert NeedsQuoting(s[p]);
      } else {
        var i :| 0 <= i < |s| && NeedsQuoting(s[i]);
        assert forall j | 0 <= j < |s| && j != i :: !IsLineTerminator(s[j]);
      }
    }
    if NeedsAnsiC(s) {
      var i :| 0 <= i < |s| && NeedsQuoting(s[i]) && forall j | 0 <= j < |s| && j != i :: !IsLineTerminator(s[j]);
      forall p, q | 0 <= p < q < |s| ensures !(IsLineTerminator(s[p]) && IsLineTerminator(s[q])) {
        if p != i {
          assert !IsLineTerminator(s[p]);
        } else {
          assert !IsLineTerminator(s[q]);
        }
      }
    }
  }

  /** Plain printable text, and any text holding a CR LF pair, is written in single quotes as
      it is. */
  lemma PosixSingleQuoted(s: string)
    requires (forall c <- s :: !NeedsQuoting(c)) || (exists i | 0 <= i < |s| - 1 :: s[i] == '\r' && s[i + 1] == '\n')
    ensures EscapeStringPosix(s) == Success("'" + s + "'")
  {
    NeedsAnsiCIff(s);
    if exists i | 0 <= i < |s| - 1 :: s[i] == '\r' && s[i + 1] == '\n' {
      var i :| 0 <= i < |s| - 1 && s[i] == '\r' && s[i + 1] == '\n';
      assert IsLineTerminator(s[i]) && IsLineTerminator(s[i + 1]);
    } else {
      assert forall i | 0 <= i < |s| :: !NeedsQuoting(s[i]) by {
        forall i | 0 <= i < |s| ensures !NeedsQuoting(s[i]) { assert s[i] in s; }
      }
    }
  }

  // ---------------------------------------------------------------------------------------------
  // POSIX: what the `$'…'` body is.

  /** The four replacements in the ANSI-C branch only turn LF into `n` and CR into `r`. */
  lemma {:induction false} SubstituteSteps(s: string)
    ensures MapChar(MapChar(s, '\n', "n"), '\r', "r") == PosixSubstitute(s)
  {
    if s != [] {
      SubstituteSteps(s[1..]);
      var head := if s[0] == '\n' then "n" else [s[0]];
      MapCharConcat(head, MapChar(s[1..], '\n', "n"), '\r', "r");
    }
  }

  /** The ANSI-C branch escapes the substituted text code unit by code unit. */
  lemma PosixShape(s: string)
    requires NeedsAnsiC(s)
    ensures EscapeStringPosix(s).Success? <==> EscapeCodeUnits(PosixSubstitute(s)).Success?
    ensures EscapeStringPosix(s).Success? ==>
              EscapeStringPosix(s).value == "$'" + EscapeCodeUnits(PosixSubstitute(s)).value + "'"
    ensures EscapeStringPosix(s).Failure? ==>
              EscapeStringPosix(s).error == EscapeCodeUnits(PosixSubstitute(s)).error
  {
    SourceReplacements(['\\']);
    SourceReplacements(['\'']);
    SourceReplacements(['\n']);
    SourceReplacements(['\r']);
    ReplaceEachChar(s, '\\', "\\\\", "\\");
    MapCharSelf(s, '\\');
    ReplaceEachChar(s, '\'', "\\'", "'");
    MapCharSelf(s, '\'');
    ReplaceEachChar(s, '\n', "\\n", "n");
    ReplaceEachChar(MapChar(s, '\n', "n"), '\r', "\\r", "r");
    SubstituteSteps(s);
  }

  /** What `escapeCharacter` yields in each range of code units. */
  lemma EscapeCharacterCases(u: CodeUnit)
    ensures u < 256 ==> EscapeCharacter(u) == Success(['\\', 'x', HexDigit(u / 16), HexDigit(u % 16)])
    ensures 256 <= u < 0x1000 ==> EscapeCharacter(u) == Failure(StringIndexOutOfBounds)
    ensures 0x1000 <= u ==> EscapeCharacter(u) == Success("\\u")
  {
    HexLength(u);
    var hex := ToHexString(u);
    if u < 16 {
      HexBelow256(u);
      assert u / 16 == 0 && u % 16 == u && HexDigit(0) == '0';
      assert "\\x0" + hex == ['\\', 'x', HexDigit(u / 16), HexDigit(u % 16)];
    } else if u < 256 {
      HexBelow256(u);
      assert "\\x" + hex == ['\\', 'x', HexDigit(u / 16), HexDigit(u % 16)];
    } else if 0x1000 <= u {
      var empty: string := [];
      assert hex[4..4] == empty;
      assert "\\u" + empty == "\\u";
    }
  }

  lemma HexDigitValue(d: nat)
    requires d < 16
    ensures IsHexDigit(HexDigit(d)) && HexValue(HexDigit(d)) == d
  {
  }

  /** Every code unit of a character below 256 becomes a four-character `\xHH`, so the body is
      four times as long as the text and decodes back to it. */
  lemma {:induction false} HexBodyRoundTrip(s: string)
    requires forall c <- s :: (c as int) < 256
    ensures EscapeCodeUnits(s).Success?
    ensures |EscapeCodeUnits(s).value| == 4 * |s|
    ensures DecodeHexEscapes(EscapeCodeUnits(s).value) == Some(s)
  {
    if s != [] {
      var init, c := s[..|s| - 1], s[|s| - 1];
      assert forall x <- init :: x in s;
      HexBodyRoundTrip(init);
      assert c in s;
      EscapeUnitsSnoc(s);
      DecodeHexPiece(EscapeCodeUnits(init).value, init, c);
      assert init + [c] == s;
    }
  }

  /** The four-character escape of a character below 256. */
  function HexPiece(c: char): string
    requires (c as int) < 256
  {
    ['\\', 'x', HexDigit(c as int / 16), HexDigit(c as int % 16)]
  }

  lemma EscapeUnitsSnoc(s: string)
    requires s != [] && (s[|s| - 1] as int) < 256 && EscapeCodeUnits(s[..|s| - 1]).Success?
    ensures EscapeCodeUnits(s) == Success(EscapeCodeUnits(s[..|s| - 1]).value + HexPiece(s[|s| - 1]))
  {
    var init, c := s[..|s| - 1], s[|s| - 1];
    assert s == init + [c];
    var u: CodeUnit := c as int;
    assert Units(s) == Units(init) + [u];
    var us := Units(s);
    assert us[..|us| - 1] == Units(init);
    var parts := MapResult(Units(init), EscapeCharacter).value;
    EscapeCharacterCases(u);
    assert MapResult(us, EscapeCharacter) == Success(parts + [HexPiece(c)]);
    assert (parts + [HexPiece(c)])[..|parts|] == parts;
    assert Concat(parts + [HexPiece(c)]) == Concat(parts) + HexPiece(c);
  }

  lemma DecodeHexPiece(prefix: string, t: string, c: char)
    requires (c as int) < 256 && DecodeHexEscapes(prefix) == Some(t)
    ensures DecodeHexEscapes(prefix + HexPiece(c)) == Some(t + [c])
  {
    var u: CodeUnit := c as int;
    var hi, lo := HexDigit(u / 16), HexDigit(u % 16);
    var body := prefix + HexPiece(c);
    HexDigitValue(u / 16);
    HexDigitValue(u % 16);
    assert body[|body| - 4..] == HexPiece(c) == ['\\', 'x', hi, lo];
    assert body[..|body| - 4] == prefix;
    assert DecodeHexEscapes(body) == Some(t + [(16 * HexValue(hi) + HexValue(lo)) as char]);
    DivModSixteen(u);
  }

  lemma DivModSixteen(u: CodeUnit)
    ensures 16 * (u / 16) + u % 16 == u
  {
  }

  lemma {:induction false} SubstituteMembers(s: string)
    ensures |PosixSubstitute(s)| == |s|
    ensures forall i | 0 <= i < |s| :: PosixSubstitute(s)[i] == (if s[i] == '\n' then 'n' else if s[i] == '\r' then 'r' else s[i])
  {
    if s != [] {
      SubstituteMembers(s[1..]);
    }
  }

  /** For text below 256 that needs ANSI-C quoting, the body is `\xHH` for each character of the
      substituted text: four characters each, decoding back to the substituted text. */
  lemma PosixHexEscape(s: string)
    requires NeedsAnsiC(s) && forall c <- s :: (c as int) < 256
    ensures EscapeStringPosix(s).Success?
    ensures var r := EscapeStringPosix(s).value;
              |r| == 4 * |s| + 3 && r[..2] == "$'" && r[|r| - 1] == '\'' &&
              DecodeHexEscapes(r[2..|r| - 1]) == Some(PosixSubstitute(s))
  {
    PosixShape(s);
    SubstituteMembers(s);
    var t := PosixSubstitute(s);
    assert forall c <- t :: (c as int) < 256 by {
      forall c <- t ensures (c as int) < 256 {
        var i :| 0 <= i < |t| && t[i] == c;
        assert s[i] in s;
      }
    }
    HexBodyRoundTrip(t);
    var b := EscapeCodeUnits(t).value;
    var r := "$'" + b + "'";
    assert r[2..|r| - 1] == b;
  }

  lemma {:induction false} UnitsHold(s: string, i: nat)
    requires i < |s| && (s[i] as int) < 0x1_0000
    ensures s[i] as int in Units(s)
  {
    if i < |s| - 1 {
      UnitsHold(s[..|s| - 1], i);
    }
  }

  /** A character from U+0100 to U+0FFF makes the ANSI-C branch fail: its hex string has three
      digits, and `substring(3, 4)` is out of bounds. */
  lemma PosixThreeDigitFails(s: string, i: nat)
    requires NeedsAnsiC(s) && i < |s| && 0x100 <= s[i] as int < 0x1000
    ensures EscapeStringPosix(s) == Failure(StringIndexOutOfBounds)
  {
    PosixShape(s);
    SubstituteMembers(s);
    var t := PosixSubstitute(s);
    UnitsHold(t, i);
    var us := Units(t);
    var k :| 0 <= k < |us| && us[k] == s[i] as int;
    EscapeCharacterCases(us[k]);
    MapResultFails(us, EscapeCharacter);
    var parts := MapResult(us, EscapeCharacter);
    var j :| 0 <= j < |us| && EscapeCharacter(us[j]) == Failure(parts.error);
    EscapeCharacterCases(us[j]);
  }
}
