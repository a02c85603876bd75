/** The parts of `java.lang.String` and `java.util.regex` that the translator and the serializer
    rely on, stated on Dafny strings. A Dafny `char` stands for one UTF-16 code unit of the Java
    string, or, above U+FFFF, for the surrogate pair that Java stores for it. */
module JavaStrings {
  import opened Wrappers
  import opened Exceptions

  predicate StartsWith(s: string, prefix: string) {
    |prefix| <= |s| && s[..|prefix|] == prefix
  }

  predicate EndsWith(s: string, suffix: string) {
    |suffix| <= |s| && s[|s| - |suffix|..] == suffix
  }

  /** The characters that the regex `.` does not match and that `$` may precede. */
  predicate IsLineTerminator(c: char) {
    c == '\n' || c == '\r' || c == '\U{0085}' || c == '\U{2028}' || c == '\U{2029}'
  }

  /** One UTF-16 code unit, as `String.chars()` yields it. */
  type CodeUnit = u: int | 0 <= u < 0x1_0000

  /** The UTF-16 code units Java stores for `c` (what `String.chars()` yields for it). */
  function CodeUnits(c: char): (r: seq<CodeUnit>)
    ensures 1 <= |r| <= 2
    ensures |r| == 1 <==> c as int < 0x1_0000
    ensures |r| == 1 ==> r[0] == c as int
    ensures |r| == 2 ==> 0xD800 <= r[0] < 0xDC00 <= r[1] < 0xE000
  {
    if c as int < 0x1_0000 then [c as int]
    else
      var v := c as int - 0x1_0000;
      [0xD800 + v / 0x400, 0xDC00 + v % 0x400]
  }

  /** `Matcher.appendReplacement` for a pattern without capturing groups: a backslash takes the
      next character literally, `$0` stands for the matched text, and any other `$` fails. */
  function ExpandReplacement(rep: string, matched: string): Result<string, Failure>
    decreases |rep|
  {
    if rep == [] then Success([])
    else if rep[0] == '\\' then
      if |rep| == 1 then Failure(IllegalGroupReference)
      else
        var rest :- ExpandReplacement(rep[2..], matched);
        Success([rep[1]] + rest)
    else if rep[0] == '$' then
      if |rep| == 1 then Failure(IllegalGroupReference)
      else if rep[1] == '0' then
        var rest :- ExpandReplacement(rep[2..], matched);
        Success(matched + rest)
      else if '1' <= rep[1] <= '9' then Failure(NoSuchGroup)
      else Failure(IllegalGroupReference)
    else
      var rest :- ExpandReplacement(rep[1..], matched);
      Success([rep[0]] + rest)
  }

  /** `s.replaceAll(p, rep)` for a pattern `p` that matches exactly one character of `cs`. The
      replacement string is only interpreted at a match, so it cannot fail on a string without one. */
  function ReplaceEachIn(s: string, cs: set<char>, rep: string): Result<string, Failure>
  {
    if s == [] then Success([])
    else
      var head :- if s[0] in cs then ExpandReplacement(rep, [s[0]]) else Success([s[0]]);
      var tail :- ReplaceEachIn(s[1..], cs, rep);
      Success(head + tail)
  }

  /** The length of the run of characters of `cs` that starts `s`. */
  function RunLength(s: string, cs: set<char>): (n: nat)
    ensures n <= |s|
    ensures forall i | 0 <= i < n :: s[i] in cs
    ensures n < |s| ==> s[n] !in cs
  {
    if s != [] && s[0] in cs then 1 + RunLength(s[1..], cs) else 0
  }

  /** `s.replaceAll("[cs]+", rep)`: each maximal run of characters of `cs` is one match. */
  function ReplaceRunsIn(s: string, cs: set<char>, rep: string): Result<string, Failure>
    decreases |s|
  {
    if s == [] then Success([])
    else if s[0] in cs then
      var n := RunLength(s, cs);
      var head :- ExpandReplacement(rep, s[..n]);
      var tail :- ReplaceRunsIn(s[n..], cs, rep);
      Success(head + tail)
    else
      var tail :- ReplaceRunsIn(s[1..], cs, rep);
      Success([s[0]] + tail)
  }

  /** `s.replaceAll(target, rep)` for a regex `target` without metacharacters: the leftmost
      occurrences, taken without overlap from left to right, are replaced. */
  function ReplaceAllLiteral(s: string, target: string, rep: string): Result<string, Failure>
    requires target != []
    decreases |s|
  {
    if s == [] then Success([])
    else if StartsWith(s, target) then
      var head :- ExpandReplacement(rep, target);
      var tail :- ReplaceAllLiteral(s[|target|..], target, rep);
      Success(head + tail)
    else
      var tail :- ReplaceAllLiteral(s[1..], target, rep);
      Success([s[0]] + tail)
  }

  /** Where `$` matches without MULTILINE: at the end of the input, or just before a line
      terminator (or a CR LF pair) that ends the input, but never between CR and LF. */
  predicate DollarAt(s: string, i: nat)
    requires i <= |s|
  {
    || i == |s|
    || (i + 1 == |s| && IsLineTerminator(s[i]) && !(s[i] == '\n' && i > 0 && s[i - 1] == '\r'))
    || (i + 2 == |s| && s[i] == '\r' && s[i + 1] == '\n')
  }

  /** Every field of `s` between occurrences of `d`, empty ones included. */
  function Fields(s: string, d: char): (r: seq<string>)
    ensures |r| >= 1
  {
    if s == [] then [[]]
    else
      var rest := Fields(s[1..], d);
      if s[0] == d then [[]] + rest else [[s[0]] + rest[0]] + rest[1..]
  }

  function DropTrailingEmpty(fs: seq<string>): (r: seq<string>)
    ensures |r| <= |fs| && r == fs[..|r|]
    ensures r != [] ==> r[|r| - 1] != []
    ensures forall i | |r| <= i < |fs| :: fs[i] == []
  {
    if fs != [] && fs[|fs| - 1] == [] then DropTrailingEmpty(fs[..|fs| - 1]) else fs
  }

  /** `s.split(d)` for a delimiter that is not a regex metacharacter: without an occurrence the
      whole string, otherwise the fields with the trailing empty ones removed. */
  function Split(s: string, d: char): seq<string>
  {
    if d !in s then [s] else DropTrailingEmpty(Fields(s, d))
  }

  /** `Collectors.joining(sep)`. */
  function JoinWith(parts: seq<string>, sep: string): string
  {
    if parts == [] then []
    else if |parts| == 1 then parts[0]
    else parts[0] + sep + JoinWith(parts[1..], sep)
  }

  /** `String.trim`: drops the leading and trailing characters at or below U+0020. */
  function Trim(s: string): string {
    TrimEnd(TrimStart(s))
  }

  function TrimStart(s: string): string {
    if s != [] && s[0] <= ' ' then TrimStart(s[1..]) else s
  }

  function TrimEnd(s: string): string {
    if s != [] && s[|s| - 1] <= ' ' then TrimEnd(s[..|s| - 1]) else s
  }

  /** The lower-case hexadecimal digit for `d`. */
  function HexDigit(d: nat): char
    requires d < 16
  {
    if d < 10 then ('0' as int + d) as char else ('a' as int + d - 10) as char
  }

  /** `Integer.toHexString` for a non-negative value: lower-case digits, no leading zeros. */
  function ToHexString(n: nat): string
  {
    if n < 16 then [HexDigit(n)] else ToHexString(n / 16) + [HexDigit(n % 16)]
  }

  /** `String.substring(begin, end)`. */
  function Substring(s: string, begin: int, end: int): (r: Result<string, Failure>)
    ensures r.Success? <==> 0 <= begin <= end <= |s|
  {
    if 0 <= begin <= end <= |s| then Success(s[begin..end]) else Failure(StringIndexOutOfBounds)
  }

  /** `s` with every `c` replaced by the text `r`. */
  function MapChar(s: string, c: char, r: string): string
  {
    if s == [] then [] else (if s[0] == c then r else [s[0]]) + MapChar(s[1..], c, r)
  }

  /** `s` with every character of `cs` replaced by the text `r`. */
  function MapChars(s: string, cs: set<char>, r: string): string
  {
    if s == [] then [] else (if s[0] in cs then r else [s[0]]) + MapChars(s[1..], cs, r)
  }

  // ---------------------------------------------------------------------------------------------
  // Properties of the library semantics above.

  /** Joining the fields of `s` with `d` gives back `s`, and no field contains `d`. */
  lemma {:induction false} FieldsJoin(s: string, d: char)
    ensures JoinWith(Fields(s, d), [d]) == s
    ensures forall f <- Fields(s, d) :: d !in f
  {
    if s != [] {
      FieldsJoin(s[1..], d);
      var rest := Fields(s[1..], d);
      if s[0] == d {
        assert Fields(s, d) == [[]] + rest;
        assert ([[]] + rest)[1..] == rest;
      } else {
        var r := [[s[0]] + rest[0]] + rest[1..];
        assert Fields(s, d) == r;
        if |rest| == 1 {
          assert r == [[s[0]] + rest[0]];
        } else {
          assert r[1..] == rest[1..];
          assert JoinWith(rest, [d]) == rest[0] + [d] + JoinWith(rest[1..], [d]);
        }
        forall f <- r ensures d !in f {
          if f == [s[0]] + rest[0] { assert rest[0] in rest; } else { assert f in rest; }
        }
      }
    }
  }

  /** A string without the delimiter is a single field. */
  lemma {:induction false} FieldsPlain(a: string, d: char)
    requires d !in a
    ensures Fields(a, d) == [a]
  {
    if a != [] {
      assert d !in a[1..];
      FieldsPlain(a[1..], d);
      assert [a[0]] + a[1..] == a;
    }
  }

  /** The text before the first delimiter is the first field; the fields of the rest follow. */
  lemma {:induction false} FieldsCons(a: string, b: string, d: char)
    requires d !in a
    ensures Fields(a + [d] + b, d) == [a] + Fields(b, d)
  {
    if a == [] {
      assert a + [d] + b == [d] + b;
      assert ([d] + b)[1..] == b;
    } else {
      var s := a + [d] + b;
      assert s[1..] == a[1..] + [d] + b;
      assert d !in a[1..];
      FieldsCons(a[1..], b, d);
      assert [a[0]] + a[1..] == a;
    }
  }

  /** When the text starts with a piece, the delimiter and a non-empty piece, and what follows is
      nothing or starts with the delimiter, the split's first two fields are those pieces. */
  lemma SplitFirstTwo(a: string, b: string, rest: string, d: char)
    requires d !in a && d !in b && b != [] && (rest == [] || rest[0] == d)
    ensures var r := Split(a + [d] + b + rest, d); |r| >= 2 && r[0] == a && r[1] == b
    ensures rest == [] ==> Split(a + [d] + b + rest, d) == [a, b]
  {
    var s := a + [d] + b + rest;
    assert s == a + [d] + (b + rest);
    assert s[|a|] == d;
    FieldsCons(a, b + rest, d);
    if rest == [] {
      assert b + rest == b;
      FieldsPlain(b, d);
    } else {
      assert b + rest == b + [d] + rest[1..];
      FieldsCons(b, rest[1..], d);
    }
    var fs := Fields(s, d);
    assert fs[0] == a && fs[1] == b;
    if rest == [] {
      assert fs == [a, b];
    }
  }

  /** A trailing delimiter adds no field. */
  lemma SplitTrailing(a: string, d: char)
    requires d !in a
    ensures Split(a + [d], d) == if a == [] then [] else [a]
  {
    assert a + [d] + [] == a + [d];
    FieldsCons(a, [], d);
    assert (a + [d])[|a|] == d;
    assert Fields([], d) == [[]];
    assert DropTrailingEmpty([a, []]) == DropTrailingEmpty([a]);
  }

  /** `split` returns the string itself when the delimiter does not occur, and the fields
      otherwise, as long as the string does not end with the delimiter; either way the result
      joins back to `s`. */
  lemma SplitJoin(s: string, d: char)
    requires s == [] || s[|s| - 1] != d
    ensures Split(s, d) == (if d in s then Fields(s, d) else [s])
    ensures JoinWith(Split(s, d), [d]) == s
  {
    FieldsJoin(s, d);
    if d in s {
      FieldsLast(s, d);
    }
  }

  /** The last field of `s` is the text after the last delimiter, so it is empty only if `s` ends
      with the delimiter. */
  lemma {:induction false} FieldsLast(s: string, d: char)
    requires s != [] && s[|s| - 1] != d
    ensures Fields(s, d)[|Fields(s, d)| - 1] != []
  {
    if |s| > 1 {
      FieldsLast(s[1..], d);
    }
  }

  /** `trim` keeps a contiguous slice of `s` whose ends are above U+0020. */
  lemma {:induction false} TrimSlice(s: string)
    ensures exists i, j | 0 <= i <= j <= |s| :: Trim(s) == s[i..j]
    ensures Trim(s) != [] ==> Trim(s)[0] > ' ' && Trim(s)[|Trim(s)| - 1] > ' '
  {
    var i := TrimStartAt(s);
    var j := TrimEndAt(s[i..]);
    assert Trim(s) == s[i..][..j] == s[i..i + j];
    if Trim(s) != [] {
      TrimEndKeepsFirst(s[i..]);
    }
  }

  lemma {:induction false} TrimStartAt(s: string) returns (i: nat)
    ensures i <= |s| && TrimStart(s) == s[i..]
    ensures TrimStart(s) != [] ==> TrimStart(s)[0] > ' '
  {
    if s != [] && s[0] <= ' ' {
      var k := TrimStartAt(s[1..]);
      i := k + 1;
      assert s[1..][k..] == s[i..];
    } else {
      i := 0;
    }
  }

  lemma {:induction false} TrimEndAt(s: string) returns (j: nat)
    ensures j <= |s| && TrimEnd(s) == s[..j]
    ensures TrimEnd(s) != [] ==> TrimEnd(s)[|TrimEnd(s)| - 1] > ' '
  {
    if s != [] && s[|s| - 1] <= ' ' {
      j := TrimEndAt(s[..|s| - 1]);
      assert s[..|s| - 1][..j] == s[..j];
    } else {
      j := |s|;
    }
  }

  lemma {:induction false} TrimEndKeepsFirst(s: string)
    requires s != [] && s[0] > ' '
    ensures TrimEnd(s) != [] && TrimEnd(s)[0] == s[0]
  {
    if s[|s| - 1] <= ' ' {
      TrimEndKeepsFirst(s[..|s| - 1]);
    }
  }

  /** `Integer.toHexString` gives one digit below 16, two below 256, three below 4096 and four
      below 65536. */
  lemma HexLength(n: nat)
    ensures n < 0x10 ==> |ToHexString(n)| == 1
    ensures 0x10 <= n < 0x100 ==> |ToHexString(n)| == 2
    ensures 0x100 <= n < 0x1000 ==> |ToHexString(n)| == 3
    ensures 0x1000 <= n < 0x1_0000 ==> |ToHexString(n)| == 4
  {
  }

  /** Below 256 the hex string is the two digits of `n`, without the leading zero. */
  lemma HexBelow256(n: nat)
    requires n < 0x100
    ensures n < 0x10 ==> ToHexString(n) == [HexDigit(n)]
    ensures 0x10 <= n ==> ToHexString(n) == [HexDigit(n / 16), HexDigit(n % 16)]
  {
  }

  /** What the replacement strings written in the serializer expand to: a backslash quotes the
      character after it, so the backslash and quote replacements give the character back and the
      line-break ones the bare letters; `$&` is no group reference and fails. */
  lemma SourceReplacements(m: string)
    ensures ExpandReplacement("\"\"", m) == Success("\"\"")
    ensures ExpandReplacement("\"%\"", m) == Success("\"%\"")
    ensures ExpandReplacement("\\\\", m) == Success("\\")
    ensures ExpandReplacement("\"^$&\"", m) == Failure(IllegalGroupReference)
    ensures ExpandReplacement("\\'", m) == Success("'")
    ensures ExpandReplacement("\\n", m) == Success("n")
    ensures ExpandReplacement("\\r", m) == Success("r")
    ensures ExpandReplacement("\\$&", m) == Success("$&")
  {
    var empty: string := [];
    assert ExpandReplacement(empty, m) == Success([]);
    ExpandPlain('"', empty, m);
    assert "\"\"" == ['"'] + ['"'] + empty && "\"%\"" == ['"'] + (['%'] + (['"'] + empty));
    ExpandPlain('"', ['"'] + empty, m);
    ExpandPlain('%', ['"'] + empty, m);
    ExpandPlain('"', ['%'] + (['"'] + empty), m);
    ExpandQuoted('\\', empty, m);
    ExpandQuoted('\'', empty, m);
    ExpandQuoted('n', empty, m);
    ExpandQuoted('r', empty, m);
    ExpandPlain('&', empty, m);
    ExpandQuoted('$', ['&'] + empty, m);
    assert "\\\\" == ['\\', '\\'] + empty && "\\'" == ['\\', '\''] + empty;
    assert "\\n" == ['\\', 'n'] + empty && "\\r" == ['\\', 'r'] + empty;
    assert "\\$&" == ['\\', '$'] + (['&'] + empty);
    assert "\"^$&\"" == ['"'] + (['^'] + "$&\"") && "$&\""[1] == '&';
    assert ['"'] + (['"'] + empty) == "\"\"" && ['"'] + (['%'] + (['"'] + empty)) == "\"%\"";
    assert ['\\'] + empty == "\\" && ['\''] + empty == "'" && ['n'] + empty == "n" && ['r'] + empty == "r";
    assert ['$'] + (['&'] + empty) == "$&";
    ExpandPlain('^', "$&\"", m);
    ExpandPlain('"', ['^'] + "$&\"", m);
  }

  /** A character other than a backslash or a dollar sign stands for itself. */
  lemma ExpandPlain(c: char, rest: string, m: string)
    requires c != '\\' && c != '$'
    ensures ExpandReplacement([c] + rest, m) ==
              if ExpandReplacement(rest, m).Success? then Success([c] + ExpandReplacement(rest, m).value)
              else ExpandReplacement(rest, m)
  {
    assert ([c] + rest)[1..] == rest;
  }

  /** A backslash quotes the character after it. */
  lemma ExpandQuoted(c: char, rest: string, m: string)
    ensures ExpandReplacement(['\\', c] + rest, m) ==
              if ExpandReplacement(rest, m).Success? then Success([c] + ExpandReplacement(rest, m).value)
              else ExpandReplacement(rest, m)
  {
    assert (['\\', c] + rest)[2..] == rest;
  }

  /** A one-character pattern replaced by a text that expands without a group reference is a
      character-by-character map. */
  lemma {:induction false} ReplaceEachChar(s: string, c: char, rep: string, r: string)
    requires ExpandReplacement(rep, [c]) == Success(r)
    ensures ReplaceEachIn(s, {c}, rep) == Success(MapChar(s, c, r))
  {
    if s != [] {
      ReplaceEachChar(s[1..], c, rep, r);
    }
  }

  /** A character-class pattern replaced by a text that expands to `r` at every match, with no
      group reference, is a character-by-character map. */
  lemma {:induction false} ReplaceEachChars(s: string, cs: set<char>, rep: string, r: string)
    requires forall c <- cs :: ExpandReplacement(rep, [c]) == Success(r)
    ensures ReplaceEachIn(s, cs, rep) == Success(MapChars(s, cs, r))
  {
    if s != [] {
      ReplaceEachChars(s[1..], cs, rep, r);
    }
  }

  /** The map leaves no character of `cs` behind when `r` has none, and keeps a string without
      one unchanged. */
  lemma {:induction false} MapCharsMembers(s: string, cs: set<char>, r: string)
    requires forall c <- r :: c !in cs
    ensures forall c <- MapChars(s, cs, r) :: c !in cs
    ensures (forall c <- s :: c !in cs) ==> MapChars(s, cs, r) == s
  {
    if s != [] {
      assert forall c <- s[1..] :: c in s;
      MapCharsMembers(s[1..], cs, r);
      assert [s[0]] + s[1..] == s;
    }
  }

  /** Without a match, the replacement is never read and the string comes back unchanged. */
  lemma {:induction false} ReplaceEachAbsent(s: string, cs: set<char>, rep: string)
    requires forall ch <- s :: ch !in cs
    ensures ReplaceEachIn(s, cs, rep) == Success(s)
  {
    if s != [] {
      assert s[0] in s && forall ch <- s[1..] :: ch in s;
      ReplaceEachAbsent(s[1..], cs, rep);
      assert [s[0]] + s[1..] == s;
    }
  }

  lemma {:induction false} ReplaceRunsAbsent(s: string, cs: set<char>, rep: string)
    requires forall ch <- s :: ch !in cs
    ensures ReplaceRunsIn(s, cs, rep) == Success(s)
  {
    if s != [] {
      assert s[0] in s && forall ch <- s[1..] :: ch in s;
      ReplaceRunsAbsent(s[1..], cs, rep);
      assert [s[0]] + s[1..] == s;
    }
  }

  /** A replacement string that always fails makes the whole call fail as soon as there is a
      match. */
  lemma {:induction false} ReplaceRunsFail(s: string, cs: set<char>, rep: string, e: Failure)
    requires forall m :: ExpandReplacement(rep, m) == Failure(e)
    requires exists ch <- s :: ch in cs
    ensures ReplaceRunsIn(s, cs, rep) == Failure(e)
  {
    if s[0] !in cs {
      assert exists ch <- s[1..] :: ch in cs by {
        var ch :| ch in s && ch in cs;
        var i :| 0 <= i < |s| && s[i] == ch;
        assert s[1..][i - 1] == ch;
      }
      ReplaceRunsFail(s[1..], cs, rep, e);
    }
  }

  /** `MapChar` works piecewise on a concatenation. */
  lemma {:induction false} MapCharConcat(a: string, b: string, c: char, r: string)
    ensures MapChar(a + b, c, r) == MapChar(a, c, r) + MapChar(b, c, r)
  {
    if a != [] {
      assert (a + b)[1..] == a[1..] + b;
      MapCharConcat(a[1..], b, c, r);
    } else {
      assert a + b == b;
    }
  }

  /** Replacing a character by itself changes nothing. */
  lemma {:induction false} MapCharSelf(s: string, c: char)
    ensures MapChar(s, c, [c]) == s
  {
    if s != [] {
      MapCharSelf(s[1..], c);
      assert [s[0]] + s[1..] == s;
    }
  }

  /** Joining two non-empty lists puts the separator once between the two joined halves. */
  lemma {:induction false} JoinWithConcat(a: seq<string>, b: seq<string>, sep: string)
    requires a != [] && b != []
    ensures JoinWith(a + b, sep) == JoinWith(a, sep) + sep + JoinWith(b, sep)
  {
    assert (a + b)[0] == a[0];
    if |a| == 1 {
      assert (a + b)[1..] == b;
    } else {
      assert (a + b)[1..] == a[1..] + b;
      JoinWithConcat(a[1..], b, sep);
    }
  }
}
