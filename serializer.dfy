/** Rendering a command as text (`CurlCommand.Serializer`): one line of tokens per option, in a
    fixed group order, with short or long option names, joined on one line or on several. */
module Serialization {
  import opened Wrappers
  import opened Exceptions
  import opened JavaStrings
  import opened Seqs
  import opened Escaping
  import opened Platforms
  import opened Command

  /** `SHORT_PARAMETER_NAMES`. */
  const ShortParameterNames: map<string, string> := map[
    "--user" := "-u", "--data" := "-d", "--insecure" := "-k", "--form" := "-F",
    "--cookie" := "-b", "--header" := "-H", "--request" := "-X", "--verbose" := "-v"]

  /** `parameterName`: the short spelling when asked for and known, otherwise the long one. */
  function ParameterName(longParameterName: string, useShortForm: bool): string
  {
    if useShortForm && longParameterName in ShortParameterNames then ShortParameterNames[longParameterName]
    else longParameterName
  }

  /** `line`: the option name followed by its arguments. */
  function Line(useShortForm: bool, longParameterName: string, arguments: seq<string>): seq<string>
  {
    [ParameterName(longParameterName, useShortForm)] + arguments
  }

  /** Each line's tokens joined with one space. */
  function JoinEach(lines: seq<seq<string>>): (r: seq<string>)
    ensures |r| == |lines|
  {
    if lines == [] then [] else JoinEach(lines[..|lines| - 1]) + [JoinWith(lines[|lines| - 1], " ")]
  }

  /** All tokens of all lines, in order. */
  function Flatten(lines: seq<seq<string>>): seq<string>
  {
    if lines == [] then [] else Flatten(lines[..|lines| - 1]) + lines[|lines| - 1]
  }

  /** The `replaceAll` on the escaped URL: each `{`, `}` and `\` is a match, where the replacement
      text is expanded. */
  function UrlArgument(escaped: string): Result<string, Failure>
  {
    ReplaceEachIn(escaped, {'{', '}', '\\'}, "\\$&")
  }

  /** The serializer's three settings, plus the host that `RECOGNIZE_AUTOMATICALLY` reads. */
  datatype Serializer = Serializer(targetPlatform: Platform, host: HostEnvironment, useShortForm: bool, printMultiliner: bool)
  {
    /** `escapeString`: the Windows escaper on Windows, the POSIX one elsewhere. */
    function EscapeString(s: string): Result<string, Failure>
    {
      if IsOsWindows(targetPlatform, host) then EscapeStringWin(s) else EscapeStringPosix(s)
    }

    /** `chooseJoiningString`. */
    function JoiningString(): string
    {
      if printMultiliner then
        " " + (if IsOsWindows(targetPlatform, host) then "^" else "\\") + LineSeparator(targetPlatform, host) + "  "
      else " "
    }

    /** The first line: the escaped URL with every `{`, `}` and `\` replaced by the literal `$&`;
        a URL that was never set fails. */
    function UrlLine(url: Option<string>): Result<seq<string>, Failure>
    {
      if url.None? then Failure(NullUrl)
      else
        var escaped :- EscapeString(url.value);
        var argument :- UrlArgument(escaped);
        Success(Line(useShortForm, "curl", [argument]))
    }

    /** An option with one escaped argument. */
    function ArgumentLine(longParameterName: string, text: string): Result<seq<string>, Failure>
    {
      var argument :- EscapeString(text);
      Success(Line(useShortForm, longParameterName, [argument]))
    }

    function OptionalLine(longParameterName: string, text: Option<string>): Result<seq<seq<string>>, Failure>
    {
      if text.None? then Success([])
      else
        var line :- ArgumentLine(longParameterName, text.value);
        Success([line])
    }

    function FlagLine(longParameterName: string, on: bool): seq<seq<string>>
    {
      if on then [Line(useShortForm, longParameterName, [])] else []
    }

    /** The lines `serialize` collects, or the first exception an escaper throws. */
    function Lines(v: CommandView): Result<seq<seq<string>>, Failure>
    {
      var head :- HeadLines(v);
      var withLists :- AddListLines(head, v);
      var user :- OptionalLine("--user", UserText(v.serverAuthentication));
      Success(withLists + user + FlagLines(v))
    }

    /** The URL line, then `--request` and `--cookie` when present. */
    function HeadLines(v: CommandView): Result<seq<seq<string>>, Failure>
    {
      var url :- UrlLine(v.url);
      var request := if v.httpMethod.Some? then [Line(useShortForm, "--request", [v.httpMethod.value])] else [];
      var cookie :- OptionalLine("--cookie", v.cookieHeader);
      Success([url] + request + cookie)
    }

    /** `command` followed by one line per header, form part, data and binary data, each group in
        insertion order. */
    function AddListLines(command: seq<seq<string>>, v: CommandView): Result<seq<seq<string>>, Failure>
    {
      var withHeaders :- AddLines(command, v.headers, HeaderLine);
      var withForms :- AddLines(withHeaders, v.formParts, FormLine);
      var withDatas :- AddLines(withForms, v.datas, DataLine);
      AddLines(withDatas, v.datasBinary, DataBinaryLine)
    }

    function FlagLines(v: CommandView): seq<seq<string>>
    {
      FlagLine("--compressed", v.compressed) + FlagLine("--insecure", v.insecure) + FlagLine("--verbose", v.verbose)
    }

    const HeaderLine := (h: Header) => ArgumentLine("--header", HeaderText(h))
    const FormLine := (p: FormPart) => ArgumentLine("--form", FormText(p))
    const DataLine := (d: string) => ArgumentLine("--data", d)
    const DataBinaryLine := (d: string) => ArgumentLine("--data-binary", d)

    /** The lines joined: tokens with a space, lines with the joining string. */
    function Render(lines: seq<seq<string>>): string
    {
      JoinWith(JoinEach(lines), JoiningString())
    }

    function Serialized(v: CommandView): Result<string, Failure>
    {
      var lines :- Lines(v);
      Success(Render(lines))
    }

    /** `serialize`: grows the list of lines group by group, then joins it. */
    method Serialize(curl: CurlCommand) returns (r: Result<string, Failure>)
      ensures r == Serialized(curl.View())
    {
      ghost var v := curl.View();
      var urlLine := UrlLine(curl.url);
      if urlLine.Failure? {
        assert Lines(v) == Failure(urlLine.error);
        return Failure(urlLine.error);
      }
      var command: seq<seq<string>> := [urlLine.value];
      if curl.httpMethod.Some? {
        command := command + [Line(useShortForm, "--request", [curl.httpMethod.value])];
      }
      assert command == [urlLine.value] + (if v.httpMethod.Some? then [Line(useShortForm, "--request", [v.httpMethod.value])] else []);
      var cookie := OptionalLine("--cookie", curl.cookieHeader);
      if cookie.Failure? {
        assert HeadLines(v) == Failure(cookie.error);
        return Failure(cookie.error);
      }
      command := command + cookie.value;
      assert HeadLines(v) == Success(command);
      ghost var head := command;
      var grown := AddEach(command, curl.headers, HeaderLine);
      if grown.Success? {
        grown := AddEach(grown.value, curl.formParts, FormLine);
      }
      if grown.Success? {
        grown := AddEach(grown.value, curl.datas, DataLine);
      }
      if grown.Success? {
        grown := AddEach(grown.value, curl.datasBinary, DataBinaryLine);
      }
      assert grown == AddListLines(head, v);
      if grown.Failure? {
        return Failure(grown.error);
      }
      command := grown.value;
      var user := OptionalLine("--user", UserText(curl.serverAuthentication));
      if user.Failure? {
        assert Lines(v) == Failure(user.error);
        return Failure(user.error);
      }
      command := command + user.value;
      ghost var lines := command + FlagLines(v);
      assert Lines(v) == Success(lines);
      AppendThree(command, FlagLine("--compressed", v.compressed), FlagLine("--insecure", v.insecure), FlagLine("--verbose", v.verbose));
      command := command + FlagLine("--compressed", curl.compressed);
      command := command + FlagLine("--insecure", curl.insecure);
      command := command + FlagLine("--verbose", curl.verbose);
      r := Success(Render(command));
    }
  }

  function HeaderText(h: Header): string
  {
    h.name + ": " + h.value
  }

  function FormText(p: FormPart): string
  {
    p.name + "=" + p.content
  }

  function UserText(sa: Option<ServerAuthentication>): Option<string>
  {
    if sa.None? then None else Some(sa.value.user + ":" + sa.value.password)
  }

  /** `command` with one line added per item, or the first exception. */
  function AddLines<T>(command: seq<seq<string>>, items: seq<T>, toLine: T -> Result<seq<string>, Failure>)
    : Result<seq<seq<string>>, Failure>
  {
    var lines :- MapResult(items, toLine);
    Success(command + lines)
  }

  /** A `forEach` that adds one line per item, stopping at the first exception. */
  method AddEach<T>(command: seq<seq<string>>, items: seq<T>, toLine: T -> Result<seq<string>, Failure>)
      returns (r: Result<seq<seq<string>>, Failure>)
    ensures r == AddLines(command, items, toLine)
  {
    var lines := command;
    var i := 0;
    while i < |items|
      invariant 0 <= i <= |items|
      invariant MapResult(items[..i], toLine).Success?
      invariant lines == command + MapResult(items[..i], toLine).value
    {
      var line := toLine(items[i]);
      assert items[..i + 1][..i] == items[..i];
      if line.Failure? {
        MapResultPrefixFailure(items, i + 1, toLine);
        return Failure(line.error);
      }
      lines := lines + [line.value];
      i := i + 1;
    }
    assert items[..i] == items;
    r := Success(lines);
  }
}

/** What the serializer promises about the text it renders. */
module SerializationFacts {
  import opened Wrappers
  import opened Exceptions
  import opened JavaStrings
  import opened Seqs
  import opened Escaping
  import opened Platforms
  import opened Command
  import opened Serialization

  // ---------------------------------------------------------------------------------------------
  // Option names and separators.

  /** Short form replaces exactly the eight table entries; `curl`, `--compressed` and
      `--data-binary` keep their long spelling, and long form changes nothing. */
  lemma ShortNames(name: string)
    ensures ParameterName(name, false) == name
    ensures ParameterName("--user", true) == "-u" && ParameterName("--data", true) == "-d"
    ensures ParameterName("--insecure", true) == "-k" && ParameterName("--form", true) == "-F"
    ensures ParameterName("--cookie", true) == "-b" && ParameterName("--header", true) == "-H"
    ensures ParameterName("--request", true) == "-X" && ParameterName("--verbose", true) == "-v"
    ensures ParameterName("curl", true) == "curl"
    ensures ParameterName("--compressed", true) == "--compressed"
    ensures ParameterName("--data-binary", true) == "--data-binary"
  {
  }

  /** Lines are joined by one space, or by a space, the continuation character (`^` on Windows,
      `\` elsewhere), the platform's line separator and two spaces of indentation. */
  lemma JoiningStrings(ser: Serializer)
    ensures !ser.printMultiliner ==> ser.JoiningString() == " "
    ensures ser.printMultiliner && ser.targetPlatform == Windows ==> ser.JoiningString() == " ^\r\n  "
    ensures ser.printMultiliner && ser.targetPlatform == Unix ==> ser.JoiningString() == " \\\n  "
    ensures ser.printMultiliner && ser.targetPlatform == RecognizeAutomatically ==>
              ser.JoiningString() == " " + (if IsOsWindows(RecognizeAutomatically, ser.host) then "^" else "\\")
                                     + ser.host.lineSeparator + "  "
  {
  }

  /** The URL argument is the escaped URL with every `{`, `}` and `\` replaced by the two
      characters `$&`, so none of the three is left; text without them is kept. */
  lemma UrlArgumentDollars(escaped: string)
    ensures var argument := MapChars(escaped, {'{', '}', '\\'}, "$&");
            && UrlArgument(escaped) == Success(argument)
            && (forall c <- argument :: c !in {'{', '}', '\\'})
            && ((forall c <- escaped :: c !in {'{', '}', '\\'}) ==> argument == escaped)
  {
    var cs := {'{', '}', '\\'};
    forall c <- cs
      ensures ExpandReplacement("\\$&", [c]) == Success("$&")
    {
      SourceReplacements([c]);
    }
    ReplaceEachChars(escaped, cs, "\\$&", "$&");
    MapCharsMembers(escaped, cs, "$&");
  }

  /** The method after `--request` is passed on as it is, without escaping. */
  lemma MethodLineUnescaped(ser: Serializer, v: CommandView)
    requires ser.HeadLines(v).Success? && v.httpMethod.Some?
    ensures ser.HeadLines(v).value[1] == [ParameterName("--request", ser.useShortForm), v.httpMethod.value]
  {
  }

  // ---------------------------------------------------------------------------------------------
  // The order of the lines.

  function Repeat(name: string, n: nat): (r: seq<string>)
    ensures |r| == n && forall k | 0 <= k < n :: r[k] == name
  {
    if n == 0 then [] else Repeat(name, n - 1) + [name]
  }

  function Optional(name: string, present: bool): seq<string>
  {
    if present then [name] else []
  }

  /** The long option name of each line, in the fixed group order. */
  function LongNames(v: CommandView): seq<string>
  {
    HeadNames(v) + ListNames(v) + TailNames(v)
  }

  /** Line `k` starts with the spelling of `names[k]`. */
  predicate NamedAs(lines: seq<seq<string>>, names: seq<string>, useShortForm: bool)
  {
    |lines| == |names| && forall k | 0 <= k < |lines| :: |lines[k]| > 0 && lines[k][0] == ParameterName(names[k], useShortForm)
  }

  lemma NamedAsConcat(a: seq<seq<string>>, na: seq<string>, b: seq<seq<string>>, nb: seq<string>, useShortForm: bool)
    requires NamedAs(a, na, useShortForm) && NamedAs(b, nb, useShortForm)
    ensures NamedAs(a + b, na + nb, useShortForm)
  {
    forall k | 0 <= k < |a + b| ensures |(a + b)[k]| > 0 && (a + b)[k][0] == ParameterName((na + nb)[k], useShortForm) {
      if k >= |a| {
        assert (a + b)[k] == b[k - |a|] && (na + nb)[k] == nb[k - |a|];
      }
    }
  }

  /** A group added by `AddLines` has one line per item, each starting with the group's name. */
  lemma {:induction false} AddLinesNamed<T>(ser: Serializer, command: seq<seq<string>>, names: seq<string>,
                                            items: seq<T>, toLine: T -> Result<seq<string>, Failure>, name: string)
    requires NamedAs(command, names, ser.useShortForm)
    requires forall x :: toLine(x).Success? ==> |toLine(x).value| > 0 && toLine(x).value[0] == ParameterName(name, ser.useShortForm)
    requires AddLines(command, items, toLine).Success?
    ensures NamedAs(AddLines(command, items, toLine).value, names + Repeat(name, |items|), ser.useShortForm)
  {
    var lines := MapResult(items, toLine).value;
    forall k | 0 <= k < |lines| ensures |lines[k]| > 0 && lines[k][0] == ParameterName(name, ser.useShortForm) {
      MapResultAt(items, toLine, k);
    }
    assert NamedAs(lines, Repeat(name, |items|), ser.useShortForm);
    NamedAsConcat(command, names, lines, Repeat(name, |items|), ser.useShortForm);
  }

  function HeadNames(v: CommandView): seq<string>
  {
    ["curl"] + Optional("--request", v.httpMethod.Some?) + Optional("--cookie", v.cookieHeader.Some?)
  }

  function ListNames(v: CommandView): seq<string>
  {
    Repeat("--header", |v.headers|) + Repeat("--form", |v.formParts|)
    + Repeat("--data", |v.datas|) + Repeat("--data-binary", |v.datasBinary|)
  }

  function TailNames(v: CommandView): seq<string>
  {
    Optional("--user", v.serverAuthentication.Some?) + FlagNames(v)
  }

  function FlagNames(v: CommandView): seq<string>
  {
    Optional("--compressed", v.compressed) + Optional("--insecure", v.insecure) + Optional("--verbose", v.verbose)
  }

  lemma HeadNamed(ser: Serializer, v: CommandView)
    requires ser.HeadLines(v).Success?
    ensures NamedAs(ser.HeadLines(v).value, HeadNames(v), ser.useShortForm)
  {
    var short := ser.useShortForm;
    var url := ser.UrlLine(v.url).value;
    var request := if v.httpMethod.Some? then [Line(short, "--request", [v.httpMethod.value])] else [];
    var cookie := ser.OptionalLine("--cookie", v.cookieHeader).value;
    assert NamedAs([url], ["curl"], short);
    assert NamedAs(request, Optional("--request", v.httpMethod.Some?), short);
    assert NamedAs(cookie, Optional("--cookie", v.cookieHeader.Some?), short);
    NamedAsConcat([url], ["curl"], request, Optional("--request", v.httpMethod.Some?), short);
    NamedAsConcat([url] + request, ["curl"] + Optional("--request", v.httpMethod.Some?),
                  cookie, Optional("--cookie", v.cookieHeader.Some?), short);
  }

  /** `AddListLines` is the four `AddLines` steps, each of which succeeded. */
  lemma AddListLinesSteps(ser: Serializer, head: seq<seq<string>>, v: CommandView)
    requires ser.AddListLines(head, v).Success?
    ensures var h := AddLines(head, v.headers, ser.HeaderLine);
            && h.Success?
            && var f := AddLines(h.value, v.formParts, ser.FormLine);
            && f.Success?
            && var d := AddLines(f.value, v.datas, ser.DataLine);
            && d.Success?
            && ser.AddListLines(head, v) == AddLines(d.value, v.datasBinary, ser.DataBinaryLine)
  {
  }

  /** Each list group's line function is an argument line with the group's name. */
  lemma GroupLines(ser: Serializer)
    ensures forall h :: ser.HeaderLine(h) == ser.ArgumentLine("--header", HeaderText(h))
    ensures forall p :: ser.FormLine(p) == ser.ArgumentLine("--form", FormText(p))
    ensures forall d :: ser.DataLine(d) == ser.ArgumentLine("--data", DataText(d))
    ensures forall d :: ser.DataBinaryLine(d) == ser.ArgumentLine("--data-binary", DataText(d))
  {
  }

  /** An argument line starts with the spelling of its name. */
  lemma ArgumentLineNamed<T>(ser: Serializer, name: string, text: T -> string, toLine: T -> Result<seq<string>, Failure>)
    requires forall x :: toLine(x) == ser.ArgumentLine(name, text(x))
    ensures forall x :: toLine(x).Success? ==> |toLine(x).value| > 0 && toLine(x).value[0] == ParameterName(name, ser.useShortForm)
  {
  }

  /** Each list group's lines start with the group's name. */
  lemma GroupsNamed(ser: Serializer)
    ensures forall h :: ser.HeaderLine(h).Success? ==> |ser.HeaderLine(h).value| > 0 && ser.HeaderLine(h).value[0] == ParameterName("--header", ser.useShortForm)
    ensures forall p :: ser.FormLine(p).Success? ==> |ser.FormLine(p).value| > 0 && ser.FormLine(p).value[0] == ParameterName("--form", ser.useShortForm)
    ensures forall d :: ser.DataLine(d).Success? ==> |ser.DataLine(d).value| > 0 && ser.DataLine(d).value[0] == ParameterName("--data", ser.useShortForm)
    ensures forall d :: ser.DataBinaryLine(d).Success? ==> |ser.DataBinaryLine(d).value| > 0 && ser.DataBinaryLine(d).value[0] == ParameterName("--data-binary", ser.useShortForm)
  {
    GroupLines(ser);
    ArgumentLineNamed(ser, "--header", HeaderText, ser.HeaderLine);
    ArgumentLineNamed(ser, "--form", FormText, ser.FormLine);
    ArgumentLineNamed(ser, "--data", DataText, ser.DataLine);
    ArgumentLineNamed(ser, "--data-binary", DataText, ser.DataBinaryLine);
  }

  lemma ListNamesSplit(names: seq<string>, v: CommandView)
    ensures names + Repeat("--header", |v.headers|) + Repeat("--form", |v.formParts|) + Repeat("--data", |v.datas|)
            + Repeat("--data-binary", |v.datasBinary|) == names + ListNames(v)
  {
  }

  lemma ListsNamed(ser: Serializer, head: seq<seq<string>>, names: seq<string>, v: CommandView)
    requires NamedAs(head, names, ser.useShortForm)
    requires ser.AddListLines(head, v).Success?
    ensures NamedAs(ser.AddListLines(head, v).value, names + ListNames(v), ser.useShortForm)
  {
    AddListLinesSteps(ser, head, v);
    GroupsNamed(ser);
    var withHeaders := AddLines(head, v.headers, ser.HeaderLine).value;
    AddLinesNamed(ser, head, names, v.headers, ser.HeaderLine, "--header");
    var n1 := names + Repeat("--header", |v.headers|);
    var withForms := AddLines(withHeaders, v.formParts, ser.FormLine).value;
    AddLinesNamed(ser, withHeaders, n1, v.formParts, ser.FormLine, "--form");
    var n2 := n1 + Repeat("--form", |v.formParts|);
    var withDatas := AddLines(withForms, v.datas, ser.DataLine).value;
    AddLinesNamed(ser, withForms, n2, v.datas, ser.DataLine, "--data");
    var n3 := n2 + Repeat("--data", |v.datas|);
    AddLinesNamed(ser, withDatas, n3, v.datasBinary, ser.DataBinaryLine, "--data-binary");
    ListNamesSplit(names, v);
  }

  lemma OptionalNamed(ser: Serializer, name: string, text: Option<string>)
    requires ser.OptionalLine(name, text).Success?
    ensures NamedAs(ser.OptionalLine(name, text).value, Optional(name, text.Some?), ser.useShortForm)
  {
  }

  lemma FlagNamed(ser: Serializer, name: string, on: bool)
    ensures NamedAs(ser.FlagLine(name, on), Optional(name, on), ser.useShortForm)
  {
  }

  lemma TailNamed(ser: Serializer, v: CommandView)
    requires ser.OptionalLine("--user", UserText(v.serverAuthentication)).Success?
    ensures NamedAs(ser.OptionalLine("--user", UserText(v.serverAuthentication)).value + ser.FlagLines(v),
                    TailNames(v), ser.useShortForm)
  {
    var short := ser.useShortForm;
    var user := ser.OptionalLine("--user", UserText(v.serverAuthentication)).value;
    var c := ser.FlagLine("--compressed", v.compressed);
    var i := ser.FlagLine("--insecure", v.insecure);
    var b := ser.FlagLine("--verbose", v.verbose);
    var nu, nc, ni, nb := Optional("--user", v.serverAuthentication.Some?), Optional("--compressed", v.compressed),
                          Optional("--insecure", v.insecure), Optional("--verbose", v.verbose);
    OptionalNamed(ser, "--user", UserText(v.serverAuthentication));
    assert UserText(v.serverAuthentication).Some? == v.serverAuthentication.Some?;
    FlagNamed(ser, "--compressed", v.compressed);
    FlagNamed(ser, "--insecure", v.insecure);
    FlagNamed(ser, "--verbose", v.verbose);
    NamedAsConcat(c, nc, i, ni, short);
    NamedAsConcat(c + i, nc + ni, b, nb, short);
    NamedAsConcat(user, nu, ser.FlagLines(v), FlagNames(v), short);
  }

  /** `serialize` emits, in this order: the URL line, `--request`, `--cookie`, the headers, the
      form parts, the data, the binary data, `--user`, `--compressed`, `--insecure`, `--verbose`,
      each group only when present and each list in insertion order. */
  lemma LinesOrder(ser: Serializer, v: CommandView)
    requires ser.Lines(v).Success?
    ensures NamedAs(ser.Lines(v).value, LongNames(v), ser.useShortForm)
  {
    var head := ser.HeadLines(v).value;
    var lists := ser.AddListLines(head, v).value;
    var user := ser.OptionalLine("--user", UserText(v.serverAuthentication)).value;
    var tail := user + ser.FlagLines(v);
    assert ser.Lines(v).value == lists + tail;
    HeadNamed(ser, v);
    ListsNamed(ser, head, HeadNames(v), v);
    TailNamed(ser, v);
    NamedAsConcat(lists, HeadNames(v) + ListNames(v), tail, TailNames(v), ser.useShortForm);
  }

  // ---------------------------------------------------------------------------------------------
  // The argument of each line.

  /** `AddLines` keeps `command` in front and puts item `k`'s line at `|command| + k`. */
  lemma AddLinesAt<T>(command: seq<seq<string>>, items: seq<T>, toLine: T -> Result<seq<string>, Failure>)
    requires AddLines(command, items, toLine).Success?
    ensures var r := AddLines(command, items, toLine).value;
            && |r| == |command| + |items| && r[..|command|] == command
            && forall k | 0 <= k < |items| :: toLine(items[k]).Success? && r[|command| + k] == toLine(items[k]).value
  {
    var r := AddLines(command, items, toLine).value;
    assert r[..|command|] == command;
    forall k | 0 <= k < |items|
      ensures toLine(items[k]).Success? && r[|command| + k] == toLine(items[k]).value
    {
      MapResultAt(items, toLine, k);
    }
  }

  /** The head lines: `curl` and the URL argument, then the method as given, then the escaped
      cookie. */
  lemma HeadArguments(ser: Serializer, v: CommandView)
    requires ser.HeadLines(v).Success?
    ensures var h := ser.HeadLines(v).value;
            && v.url.Some? && ser.EscapeString(v.url.value).Success?
            && UrlArgument(ser.EscapeString(v.url.value).value).Success?
            && |h| == |HeadNames(v)|
            && h[0] == ["curl", UrlArgument(ser.EscapeString(v.url.value).value).value]
            && (v.httpMethod.Some? ==> h[1] == [ParameterName("--request", ser.useShortForm), v.httpMethod.value])
            && (v.cookieHeader.Some? ==>
                  && ser.EscapeString(v.cookieHeader.value).Success?
                  && h[|h| - 1] == [ParameterName("--cookie", ser.useShortForm), ser.EscapeString(v.cookieHeader.value).value])
  {
    assert ParameterName("curl", ser.useShortForm) == "curl";
  }

  /** A data item is escaped as it is. */
  function DataText(d: string): string
  {
    d
  }

  /** From position `start`, line `k` is the spelling of `name` followed by the escaped text of
      item `k`. */
  predicate ArgumentLinesAt<T>(ser: Serializer, lines: seq<seq<string>>, start: nat, items: seq<T>, name: string,
                               text: T -> string)
  {
    && start + |items| <= |lines|
    && forall k | 0 <= k < |items| ::
         && ser.EscapeString(text(items[k])).Success?
         && lines[start + k] == [ParameterName(name, ser.useShortForm), ser.EscapeString(text(items[k])).value]
  }

  /** From position `start`: the header lines, the form lines, the data lines and the binary data
      lines of `v`, in that order. */
  predicate ListGroupsAt(ser: Serializer, lines: seq<seq<string>>, start: nat, v: CommandView)
  {
    var f0 := start + |v.headers|;
    var d0 := f0 + |v.formParts|;
    var b0 := d0 + |v.datas|;
    && ArgumentLinesAt(ser, lines, start, v.headers, "--header", HeaderText)
    && ArgumentLinesAt(ser, lines, f0, v.formParts, "--form", FormText)
    && ArgumentLinesAt(ser, lines, d0, v.datas, "--data", DataText)
    && ArgumentLinesAt(ser, lines, b0, v.datasBinary, "--data-binary", DataText)
  }

  /** Lines that extend `a` keep `a`'s list groups. */
  lemma ListGroupsExtend(ser: Serializer, a: seq<seq<string>>, b: seq<seq<string>>, start: nat, v: CommandView)
    requires ListGroupsAt(ser, a, start, v)
    requires |a| <= |b| && b[..|a|] == a
    ensures ListGroupsAt(ser, b, start, v)
  {
    var f0 := start + |v.headers|;
    var d0 := f0 + |v.formParts|;
    var b0 := d0 + |v.datas|;
    ArgumentLinesExtend(ser, a, b, start, v.headers, "--header", HeaderText);
    ArgumentLinesExtend(ser, a, b, f0, v.formParts, "--form", FormText);
    ArgumentLinesExtend(ser, a, b, d0, v.datas, "--data", DataText);
    ArgumentLinesExtend(ser, a, b, b0, v.datasBinary, "--data-binary", DataText);
  }

  /** A group of argument lines added by `AddLines` sits right after `command`. */
  lemma AddArgumentLinesAt<T>(ser: Serializer, command: seq<seq<string>>, items: seq<T>, name: string,
                              text: T -> string, toLine: T -> Result<seq<string>, Failure>)
    requires forall x :: toLine(x) == ser.ArgumentLine(name, text(x))
    requires AddLines(command, items, toLine).Success?
    ensures var r := AddLines(command, items, toLine).value;
            && |r| == |command| + |items| && r[..|command|] == command
            && ArgumentLinesAt(ser, r, |command|, items, name, text)
  {
    AddLinesAt(command, items, toLine);
  }

  /** Lines that extend `a` keep `a`'s argument lines. */
  lemma ArgumentLinesExtend<T>(ser: Serializer, a: seq<seq<string>>, b: seq<seq<string>>, start: nat, items: seq<T>,
                               name: string, text: T -> string)
    requires ArgumentLinesAt(ser, a, start, items, name, text)
    requires |a| <= |b| && b[..|a|] == a
    ensures ArgumentLinesAt(ser, b, start, items, name, text)
  {
    forall i | start <= i < start + |items|
      ensures b[i] == a[i]
    {
      assert b[..|a|][i] == b[i];
    }
  }

  /** The list lines after `head`: one `--header` line per header with the escaped `name: value`,
      one `--form` line per part with the escaped `name=content`, one `--data` and one
      `--data-binary` line per item with the escaped item, each group in insertion order. */
  lemma ListArguments(ser: Serializer, head: seq<seq<string>>, v: CommandView)
    requires ser.AddListLines(head, v).Success?
    ensures var r := ser.AddListLines(head, v).value;
            var f0 := |head| + |v.headers|;
            var d0 := f0 + |v.formParts|;
            var b0 := d0 + |v.datas|;
            && |r| == b0 + |v.datasBinary| && r[..|head|] == head
            && ArgumentLinesAt(ser, r, |head|, v.headers, "--header", HeaderText)
            && ArgumentLinesAt(ser, r, f0, v.formParts, "--form", FormText)
            && ArgumentLinesAt(ser, r, d0, v.datas, "--data", DataText)
            && ArgumentLinesAt(ser, r, b0, v.datasBinary, "--data-binary", DataText)
  {
    var h := AddLines(head, v.headers, ser.HeaderLine).value;
    AddArgumentLinesAt(ser, head, v.headers, "--header", HeaderText, ser.HeaderLine);
    var f := AddLines(h, v.formParts, ser.FormLine).value;
    AddArgumentLinesAt(ser, h, v.formParts, "--form", FormText, ser.FormLine);
    var d := AddLines(f, v.datas, ser.DataLine).value;
    AddArgumentLinesAt(ser, f, v.datas, "--data", DataText, ser.DataLine);
    var b := AddLines(d, v.datasBinary, ser.DataBinaryLine).value;
    AddArgumentLinesAt(ser, d, v.datasBinary, "--data-binary", DataText, ser.DataBinaryLine);
    ArgumentLinesExtend(ser, h, f, |head|, v.headers, "--header", HeaderText);
    ArgumentLinesExtend(ser, f, d, |head|, v.headers, "--header", HeaderText);
    ArgumentLinesExtend(ser, d, b, |head|, v.headers, "--header", HeaderText);
    ArgumentLinesExtend(ser, f, d, |h|, v.formParts, "--form", FormText);
    ArgumentLinesExtend(ser, d, b, |h|, v.formParts, "--form", FormText);
    ArgumentLinesExtend(ser, d, b, |f|, v.datas, "--data", DataText);
    assert b[..|head|] == d[..|head|] == f[..|head|] == h[..|head|];
  }

  /** There is one head line per head name. */
  lemma HeadLength(ser: Serializer, v: CommandView)
    requires ser.HeadLines(v).Success?
    ensures |ser.HeadLines(v).value| == |HeadNames(v)|
  {
  }

  /** The list lines add one line per header, form part, data and binary data item. */
  lemma ListLength(ser: Serializer, head: seq<seq<string>>, v: CommandView)
    requires ser.AddListLines(head, v).Success?
    ensures |ser.AddListLines(head, v).value| == |head| + |v.headers| + |v.formParts| + |v.datas| + |v.datasBinary|
  {
    ListArguments(ser, head, v);
  }

  /** The `--user` line carries the escaped `user:password`. */
  lemma UserLine(ser: Serializer, sa: ServerAuthentication)
    requires ser.OptionalLine("--user", UserText(Some(sa))).Success?
    ensures ser.EscapeString(sa.user + ":" + sa.password).Success?
    ensures ser.OptionalLine("--user", UserText(Some(sa))).value ==
              [[ParameterName("--user", ser.useShortForm), ser.EscapeString(sa.user + ":" + sa.password).value]]
  {
    var text := sa.user + ":" + sa.password;
    assert UserText(Some(sa)) == Some(text);
    var escaped := ser.EscapeString(text).value;
    assert ser.ArgumentLine("--user", text) == Success(Line(ser.useShortForm, "--user", [escaped]));
    assert Line(ser.useShortForm, "--user", [escaped]) == [ParameterName("--user", ser.useShortForm), escaped];
    assert ser.OptionalLine("--user", Some(text)).value == [ser.ArgumentLine("--user", text).value];
  }

  /** One line per set flag, each without an argument. */
  lemma FlagLinesBare(ser: Serializer, v: CommandView)
    ensures |ser.FlagLines(v)| == |FlagNames(v)|
    ensures forall k | 0 <= k < |ser.FlagLines(v)| :: |ser.FlagLines(v)[k]| == 1
  {
  }

  /** The lines of `serialize` are the head and list lines, then the `--user` line, then the flags. */
  lemma LinesParts(ser: Serializer, v: CommandView)
    requires ser.Lines(v).Success?
    ensures var head := ser.HeadLines(v).value;
            var lists := ser.AddListLines(head, v).value;
            var user := ser.OptionalLine("--user", UserText(v.serverAuthentication)).value;
            && ser.Lines(v).value == lists + (user + ser.FlagLines(v))
            && ser.Lines(v).value[..|lists|] == lists
            && |user| == (if v.serverAuthentication.Some? then 1 else 0)
  {
  }

  /** The head of the output: `curl` and the URL argument, the method as given, and the escaped
      cookie. */
  lemma LinesHeadArguments(ser: Serializer, v: CommandView)
    requires ser.Lines(v).Success?
    ensures var lines := ser.Lines(v).value;
            var h0 := |HeadNames(v)|;
            && v.url.Some? && ser.EscapeString(v.url.value).Success?
            && UrlArgument(ser.EscapeString(v.url.value).value).Success?
            && h0 <= |lines|
            && lines[0] == ["curl", UrlArgument(ser.EscapeString(v.url.value).value).value]
            && (v.httpMethod.Some? ==> lines[1] == [ParameterName("--request", ser.useShortForm), v.httpMethod.value])
            && (v.cookieHeader.Some? ==>
                  && ser.EscapeString(v.cookieHeader.value).Success?
                  && lines[h0 - 1] == [ParameterName("--cookie", ser.useShortForm), ser.EscapeString(v.cookieHeader.value).value])
  {
    var head := ser.HeadLines(v).value;
    var lists := ser.AddListLines(head, v).value;
    var lines := ser.Lines(v).value;
    LinesParts(ser, v);
    HeadArguments(ser, v);
    ListArguments(ser, head, v);
    forall i | 0 <= i < |head|
      ensures lines[i] == head[i]
    {
      assert lines[..|lists|][i] == lists[i];
      assert lists[..|head|][i] == head[i];
    }
  }

  /** The list groups of the output: the escaped `name: value` of each header, `name=content` of
      each form part, and each data and binary data item, every group in insertion order. */
  lemma LinesListArguments(ser: Serializer, v: CommandView)
    requires ser.Lines(v).Success?
    ensures ListGroupsAt(ser, ser.Lines(v).value, |HeadNames(v)|, v)
  {
    var head := ser.HeadLines(v).value;
    var lists := ser.AddListLines(head, v).value;
    LinesParts(ser, v);
    HeadLength(ser, v);
    ListArguments(ser, head, v);
    assert ListGroupsAt(ser, lists, |head|, v);
    ListGroupsExtend(ser, lists, ser.Lines(v).value, |head|, v);
  }

  /** The tail of the output: the escaped `user:password` right after the binary data, then the
      flags, which carry no argument. */
  lemma LinesTailArguments(ser: Serializer, v: CommandView)
    requires ser.Lines(v).Success?
    ensures var lines := ser.Lines(v).value;
            var u0 := |HeadNames(v)| + |v.headers| + |v.formParts| + |v.datas| + |v.datasBinary|;
            var t0 := u0 + (if v.serverAuthentication.Some? then 1 else 0);
            && |lines| == t0 + |FlagNames(v)|
            && (v.serverAuthentication.Some? ==>
                  var sa := v.serverAuthentication.value;
                  && ser.EscapeString(sa.user + ":" + sa.password).Success?
                  && lines[u0] == [ParameterName("--user", ser.useShortForm), ser.EscapeString(sa.user + ":" + sa.password).value])
            && (forall k | t0 <= k < |lines| :: |lines[k]| == 1)
  {
    var head := ser.HeadLines(v).value;
    var lists := ser.AddListLines(head, v).value;
    var user := ser.OptionalLine("--user", UserText(v.serverAuthentication)).value;
    var flags := ser.FlagLines(v);
    var lines := ser.Lines(v).value;
    LinesParts(ser, v);
    HeadLength(ser, v);
    ListLength(ser, head, v);
    FlagLinesBare(ser, v);
    if v.serverAuthentication.Some? {
      UserLine(ser, v.serverAuthentication.value);
      assert lines[|lists|] == user[0];
    }
    forall i | |lists| + |user| <= i < |lines|
      ensures |lines[i]| == 1
    {
      assert lines[i] == flags[i - |lists| - |user|];
    }
  }

  // ---------------------------------------------------------------------------------------------
  // When serialising succeeds.

  /** Every text that `serialize` escapes can be escaped. */
  predicate AllEscapable(ser: Serializer, v: CommandView)
  {
    && v.url.Some? && ser.EscapeString(v.url.value).Success?
    && (v.cookieHeader.Some? ==> ser.EscapeString(v.cookieHeader.value).Success?)
    && (forall h <- v.headers :: ser.EscapeString(HeaderText(h)).Success?)
    && (forall p <- v.formParts :: ser.EscapeString(FormText(p)).Success?)
    && (forall d <- v.datas :: ser.EscapeString(d).Success?)
    && (forall d <- v.datasBinary :: ser.EscapeString(d).Success?)
    && (v.serverAuthentication.Some? ==> ser.EscapeString(UserText(v.serverAuthentication).value).Success?)
  }

  /** A replacement string that always expands makes `replaceAll` succeed. */
  lemma {:induction false} ReplaceEachSucceeds(s: string, cs: set<char>, rep: string)
    requires forall m :: ExpandReplacement(rep, m).Success?
    ensures ReplaceEachIn(s, cs, rep).Success?
  {
    if s != [] {
      ReplaceEachSucceeds(s[1..], cs, rep);
    }
  }

  lemma MapLinesSucceed<T>(items: seq<T>, toLine: T -> Result<seq<string>, Failure>, ok: T -> bool)
    requires forall x :: toLine(x).Success? <==> ok(x)
    ensures MapResult(items, toLine).Success? <==> forall x <- items :: ok(x)
  {
    MapResultFails(items, toLine);
  }

  /** `serialize` throws exactly when the URL was never set or one of the texts it escapes cannot
      be escaped; the replacement of `{`, `}` and `\` in the URL never throws. */
  lemma SerializeSucceeds(ser: Serializer, v: CommandView)
    ensures ser.Serialized(v).Success? <==> AllEscapable(ser, v)
    ensures v.url.None? ==> ser.Serialized(v) == Failure(NullUrl)
  {
    forall m ensures ExpandReplacement("\\$&", m).Success? {
      SourceReplacements(m);
    }
    if v.url.Some? && ser.EscapeString(v.url.value).Success? {
      ReplaceEachSucceeds(ser.EscapeString(v.url.value).value, {'{', '}', '\\'}, "\\$&");
    }
    MapLinesSucceed(v.headers, ser.HeaderLine, (h: Header) => ser.EscapeString(HeaderText(h)).Success?);
    MapLinesSucceed(v.formParts, ser.FormLine, (p: FormPart) => ser.EscapeString(FormText(p)).Success?);
    MapLinesSucceed(v.datas, ser.DataLine, (d: string) => ser.EscapeString(d).Success?);
    MapLinesSucceed(v.datasBinary, ser.DataBinaryLine, (d: string) => ser.EscapeString(d).Success?);
  }

  /** On Windows, serialising succeeds exactly when the URL is set and no escaped text holds a CR
      or LF. */
  lemma WindowsSerializeSucceeds(ser: Serializer, v: CommandView)
    requires ser.targetPlatform == Windows
    ensures ser.Serialized(v).Success? <==>
              && v.url.Some? && NoBreak(v.url.value)
              && (v.cookieHeader.Some? ==> NoBreak(v.cookieHeader.value))
              && (forall h <- v.headers :: NoBreak(HeaderText(h)))
              && (forall p <- v.formParts :: NoBreak(FormText(p)))
              && (forall d <- v.datas :: NoBreak(d))
              && (forall d <- v.datasBinary :: NoBreak(d))
              && (v.serverAuthentication.Some? ==> NoBreak(UserText(v.serverAuthentication).value))
  {
    SerializeSucceeds(ser, v);
    forall s ensures ser.EscapeString(s).Success? <==> NoBreak(s) {
      EscapeWin(s);
    }
  }

  predicate NoBreak(s: string)
  {
    '\r' !in s && '\n' !in s
  }

  // ---------------------------------------------------------------------------------------------
  // Joining.

  lemma {:induction false} FlattenNonEmpty(lines: seq<seq<string>>)
    requires lines != [] && forall k | 0 <= k < |lines| :: |lines[k]| > 0
    ensures Flatten(lines) != []
  {
  }

  /** On one line, the output is every token of every line joined by a single space. */
  lemma {:induction false} RenderSingleLine(ser: Serializer, lines: seq<seq<string>>)
    requires !ser.printMultiliner
    requires forall k | 0 <= k < |lines| :: |lines[k]| > 0
    ensures ser.Render(lines) == JoinWith(Flatten(lines), " ")
  {
    if lines != [] {
      var init, last := lines[..|lines| - 1], lines[|lines| - 1];
      if init == [] {
        assert lines == [last] && lines[..0] == [];
        assert JoinEach(lines) == [JoinWith(last, " ")];
        assert Flatten(lines) == last;
        assert ser.JoiningString() == " ";
      } else {
        RenderSingleLine(ser, init);
        assert JoinEach(lines) == JoinEach(init) + [JoinWith(last, " ")];
        JoinWithConcat(JoinEach(init), [JoinWith(last, " ")], " ");
        FlattenNonEmpty(init);
        JoinWithConcat(Flatten(init), last, " ");
      }
    }
  }
}
