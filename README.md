# curl-logger translator, modelled in Dafny

This project models the core of `curl-logger`, a library that prints a curl command for every
HTTP request a test sends. It covers four pieces of that core:

- the translator `Http2Curl`, which turns an HTTP request into a curl command (module
  `Translation`, properties in `TranslationFacts`);
- the mutable command model `CurlCommand` (module `Command`);
- its `Serializer`, which renders a command as text with POSIX or Windows quoting (modules
  `Escaping`, `Serialization` and `SerializationFacts`);
- the settings `Options` with their `Builder` (module `Configuration`) and the `Platform` enum
  (module `Platforms`).

Two library modules support these. `JavaStrings` gives the meaning of the `java.lang.String` and
`java.util.regex` calls the code relies on: replacement strings where a backslash quotes and `$`
must name a group, `split` dropping trailing empty fields, `trim`, `Integer.toHexString` and
`substring`. `Seqs` holds generic sequence helpers, including `Collectors.toMap` with its
duplicate-key exception.

Each Java exception that can end a translation or a serialisation becomes a `Failure` value.
The operations that can throw return a `Result`: translation, serialisation, the escapers and
the parsing steps they use. The command's mutators, the `Options` getters and the `Builder`
toggles cannot throw and return their plain Java result.

State that Java changes in place is modelled the same way in Dafny:

- `CurlCommand`, `Options` and `Builder` are classes with the Java fields. Their mutators return
  the object itself, as the Java ones return `this` for chaining.
- `removeHeader` is a loop that removes entries in place.
- `serialize` grows its list of lines step by step.
- `http2curl` calls the command's mutators in the order the Java does.

Each such method is proved against a pure function of the old state: `AfterCall`, `Serialized`,
`Translate`, `GeneratedCurl`. The lemmas in `SerializationFacts` and `TranslationFacts` state
what those functions guarantee.

Things the translator reads from outside are parameters:

- the `java.net.URL` validity check, `URI.getHost` and Base64 decoding (an `Env` value);
- the text of an entity or a part (`Entity` and `PartContent`);
- the `os.name` property and the line separator that `RECOGNIZE_AUTOMATICALLY` reads (a
  `HostEnvironment`);
- an updater given to `updateCurl`, which is modelled as the sequence of builder calls it makes
  on the command.

## Model

Source paths are relative to the repository root.

| member | source | states |
|---|---|---|
| Platforms.IsOsWindows | src/main/java/com/github/dzieciou/testing/curl/Platform.java:6-24 | reads the first constructor argument of the constant: true for `WINDOWS`, false for `UNIX`, and for `RECOGNIZE_AUTOMATICALLY` true iff `os.name` is set and starts with `Windows` |
| Platforms.LineSeparator | src/main/java/com/github/dzieciou/testing/curl/Platform.java:6-28 | reads the second constructor argument of the constant: `\r\n` for `WINDOWS`, `\n` for `UNIX`, the host's separator for `RECOGNIZE_AUTOMATICALLY` |
| Platforms.PlatformFacts | src/main/java/com/github/dzieciou/testing/curl/Platform.java:6-24 | `WINDOWS` and `UNIX` give the same answer and separator whatever the host. `RECOGNIZE_AUTOMATICALLY` is Windows iff `os.name` is set and its first seven characters are `Windows` (`startsWith`) |
| Command.CurlCommand.constructor | src/main/java/com/github/dzieciou/testing/curl/CurlCommand.java:50-60 | a new command has no url, empty lists, no cookie, method or credentials, and every flag false |
| Command.CurlCommand.SetUrl | src/main/java/com/github/dzieciou/testing/curl/CurlCommand.java:62-65 | overwrites the url and changes no other field; returns the same command |
| Command.CurlCommand.AddHeader | src/main/java/com/github/dzieciou/testing/curl/CurlCommand.java:67-70 | appends one header at the end; earlier headers and other fields stay; returns the same command |
| Command.CurlCommand.RemoveHeader | src/main/java/com/github/dzieciou/testing/curl/CurlCommand.java:72-80 | the in-place iterator loop leaves exactly `WithoutName(old headers, name)` and changes no other field; returns the same command |
| Command.CurlCommand.AddFormPart | src/main/java/com/github/dzieciou/testing/curl/CurlCommand.java:82-85 | appends one form part at the end; nothing else changes; returns the same command |
| Command.CurlCommand.AddData | src/main/java/com/github/dzieciou/testing/curl/CurlCommand.java:87-90 | appends one data item at the end; nothing else changes; returns the same command |
| Command.CurlCommand.AddDataBinary | src/main/java/com/github/dzieciou/testing/curl/CurlCommand.java:92-95 | appends one binary data item at the end; nothing else changes; returns the same command |
| Command.CurlCommand.SetCookieHeader | src/main/java/com/github/dzieciou/testing/curl/CurlCommand.java:97-100 | overwrites the cookie; nothing else changes; returns the same command |
| Command.CurlCommand.SetCompressed | src/main/java/com/github/dzieciou/testing/curl/CurlCommand.java:102-105 | overwrites the compressed flag; nothing else changes; returns the same command |
| Command.CurlCommand.SetVerbose | src/main/java/com/github/dzieciou/testing/curl/CurlCommand.java:107-110 | overwrites the verbose flag; nothing else changes; returns the same command |
| Command.CurlCommand.SetInsecure | src/main/java/com/github/dzieciou/testing/curl/CurlCommand.java:112-115 | overwrites the insecure flag; nothing else changes; returns the same command |
| Command.CurlCommand.SetMethod | src/main/java/com/github/dzieciou/testing/curl/CurlCommand.java:117-120 | overwrites the method; nothing else changes; returns the same command |
| Command.CurlCommand.SetServerAuthentication | src/main/java/com/github/dzieciou/testing/curl/CurlCommand.java:122-125 | overwrites the credentials with the given user and password; nothing else changes; returns the same command |
| Command.CurlCommand.Perform | src/main/java/com/github/dzieciou/testing/curl/CurlCommand.java:62-125 | one builder call changes the command exactly as `AfterCall` says |
| Command.CurlCommand.PerformAll | src/main/java/com/github/dzieciou/testing/curl/CurlCommand.java:62-125 | a sequence of builder calls, made in order, gives `AfterCalls` |
| Command.WithoutNameMembers | src/main/java/com/github/dzieciou/testing/curl/CurlCommand.java:72-80 | after removal no header has the name; a header survives iff it was present and has another name |
| Command.WithoutNameOrder | src/main/java/com/github/dzieciou/testing/curl/CurlCommand.java:72-80 | removal works piecewise on any split of the list, so survivors keep their relative order |
| Command.WithoutNameStable | src/main/java/com/github/dzieciou/testing/curl/CurlCommand.java:72-80 | a list without the name is unchanged, and removing twice is the same as removing once |
| Command.WithoutNameIsFilter | src/main/java/com/github/dzieciou/testing/curl/CurlCommand.java:72-80 | removal equals filtering with any predicate that rejects exactly that name |
| Command.AfterCallsConcat | src/main/java/com/github/dzieciou/testing/curl/CurlCommand.java:62-125 | running two call sequences one after the other is running their concatenation |
| Command.AfterCallsKeepsHeaders | src/main/java/com/github/dzieciou/testing/curl/CurlCommand.java:62-125 | calls other than `setUrl`, `addHeader` and `removeHeader` leave the url and the headers alone |
| Command.BuilderClient | src/main/java/com/github/dzieciou/testing/curl/CurlCommand.java:62-125 | for a sample sequence, list fields grow at the end, the last setter call wins, and `removeHeader` keeps the other headers in order |
| Escaping.WinMapConcat | src/main/java/com/github/dzieciou/testing/curl/CurlCommand.java:245-253 | the Windows character map works piecewise on a concatenation |
| Escaping.EscapeStringWin | src/main/java/com/github/dzieciou/testing/curl/CurlCommand.java:245-253 | the four `replaceAll` calls in source order (quotes doubled, `%` quoted, the backslash replacement, each CR/LF run), then the wrapping quotes; `EscapeWin` and `WinRoundTrip` state the result |
| Escaping.QuotesThenPercents | src/main/java/com/github/dzieciou/testing/curl/CurlCommand.java:248-249 | the quote replacement followed by the percent replacement is the one character map `WinMap` |
| Escaping.WinMapMembers | src/main/java/com/github/dzieciou/testing/curl/CurlCommand.java:245-253 | `WinMap` keeps every character except quote and percent, and adds no other characters |
| Escaping.EscapeWinPlain | src/main/java/com/github/dzieciou/testing/curl/CurlCommand.java:245-253 | without CR or LF the result is `"` + `WinMap(s)` + `"`. The backslash replacement is an identity |
| Escaping.EscapeWinBreak | src/main/java/com/github/dzieciou/testing/curl/CurlCommand.java:251 | any CR or LF makes the last `replaceAll` throw, because `$&` is no group reference |
| Escaping.WinRoundTrip | src/main/java/com/github/dzieciou/testing/curl/CurlCommand.java:232-253 | reading the quoted body back as `cmd.exe` does (`""` is a quote, `"%"` is a percent sign) gives the original string |
| Escaping.EscapeWin | src/main/java/com/github/dzieciou/testing/curl/CurlCommand.java:245-253 | Windows escaping succeeds iff there is no CR and no LF. A failure is the group-reference error. A success is quoted and reads back as `s` |
| Escaping.NeedsAnsiCIff | src/main/java/com/github/dzieciou/testing/curl/CurlCommand.java:257 | the regex accepts exactly the strings that have a character outside 0x20–0x7E or a `'`, and at most one line terminator |
| Escaping.EscapeStringPosix | src/main/java/com/github/dzieciou/testing/curl/CurlCommand.java:255-275 | `'s'` unless `NeedsAnsiC`; otherwise the four replacements in source order and each code unit through `escapeCharacter`, inside `$'…'`; `PosixShape`, `PosixSingleQuoted` and `PosixHexEscape` state the result |
| Escaping.PosixSingleQuoted | src/main/java/com/github/dzieciou/testing/curl/CurlCommand.java:255-273 | printable text without `'`, and any text with a CR LF pair, is returned as `'` + s + `'` unchanged |
| Escaping.SubstituteSteps | src/main/java/com/github/dzieciou/testing/curl/CurlCommand.java:262-263 | the LF and CR replacements turn LF into the bare letter `n` and CR into `r` |
| Escaping.PosixShape | src/main/java/com/github/dzieciou/testing/curl/CurlCommand.java:257-269 | in the ANSI-C branch the result is `$'` + per-code-unit escape of the substituted text + `'`, failing exactly when a code unit's escape fails. The backslash and quote replacements are identities |
| Escaping.EscapeCharacterCases | src/main/java/com/github/dzieciou/testing/curl/CurlCommand.java:277-285 | below 256 the result is `\x` plus two lower-case hex digits. From 256 to 0xFFF `substring` throws. From 0x1000 up the result is a bare `\u` |
| Escaping.EscapeCharacter | src/main/java/com/github/dzieciou/testing/curl/CurlCommand.java:277-285 | `\x` and two hex digits below 256, else `\u` and `toHexString(c).substring(length, 4)`, which throws for three digits; `EscapeCharacterCases` and `HexBodyRoundTrip` state the result |
| Escaping.HexBodyRoundTrip | src/main/java/com/github/dzieciou/testing/curl/CurlCommand.java:265-267 | for text below 256, escaping each code unit succeeds, the output is four characters per input character, and decoding each `\xHH` gives `s` back |
| Escaping.PosixHexEscape | src/main/java/com/github/dzieciou/testing/curl/CurlCommand.java:255-285 | for ANSI-C text below 256, the output is `$'`, four characters per input character, and `'`, and the body decodes to the substituted text |
| Escaping.PosixThreeDigitFails | src/main/java/com/github/dzieciou/testing/curl/CurlCommand.java:277-285 | any character from U+0100 to U+0FFF in ANSI-C text makes POSIX escaping throw `StringIndexOutOfBoundsException` |
| Serialization.Serializer.Serialize | src/main/java/com/github/dzieciou/testing/curl/CurlCommand.java:287-328 | the line list built group by group and joined gives exactly `Serialized` of the command, including the first exception an escaper throws; the content of each line is stated by `LinesOrder` and the three `Lines…Arguments` lemmas |
| Serialization.AddEach | src/main/java/com/github/dzieciou/testing/curl/CurlCommand.java:298-309 | a `forEach` adds one line per item, in order, or stops at the first exception |
| Serialization.ParameterName | src/main/java/com/github/dzieciou/testing/curl/CurlCommand.java:217-223 | the short spelling from the table when the short form is asked for and one exists, else the long name; `ShortNames` states the table |
| Serialization.Line | src/main/java/com/github/dzieciou/testing/curl/CurlCommand.java:225-230 | the parameter name followed by the arguments; `HeadNamed`, `ListsNamed` and `TailNamed` state the names each line starts with |
| Serialization.Serializer.EscapeString | src/main/java/com/github/dzieciou/testing/curl/CurlCommand.java:337-340 | the Windows escaper when the target platform is Windows, the POSIX one otherwise; `SerializeSucceeds` and `WindowsSerializeSucceeds` state when it throws |
| Serialization.Serializer.JoiningString | src/main/java/com/github/dzieciou/testing/curl/CurlCommand.java:330-335 | `" ^"` or `" \"` plus the line separator and two spaces for the multi-liner, `" "` otherwise; `JoiningStrings` states it per platform |
| Serialization.Serializer.Lines | src/main/java/com/github/dzieciou/testing/curl/CurlCommand.java:287-323 | the head lines, the four list groups, the optional `--user` line and the flags, or the first escaping failure; `LinesOrder` and the `Lines…Arguments` lemmas state each line |
| Serialization.Serializer.Serialized | src/main/java/com/github/dzieciou/testing/curl/CurlCommand.java:287-328 | the lines joined with spaces and the joining string; `Serialize` is proved equal to it and `RenderSingleLine` states the single-line form |
| SerializationFacts.ShortNames | src/main/java/com/github/dzieciou/testing/curl/CurlCommand.java:195-223 | long form keeps every name. Short form maps the eight table entries and leaves `curl`, `--compressed` and `--data-binary` long |
| SerializationFacts.UrlArgumentDollars | src/main/java/com/github/dzieciou/testing/curl/CurlCommand.java:290-291 | after escaping, every `{`, `}` and `\` of the URL becomes the two characters `$&`, none of the three is left, and a URL without them is kept |
| SerializationFacts.MethodLineUnescaped | src/main/java/com/github/dzieciou/testing/curl/CurlCommand.java:293 | the `--request` line holds the method exactly as stored, without escaping |
| SerializationFacts.JoiningStrings | src/main/java/com/github/dzieciou/testing/curl/CurlCommand.java:330-335 | single-line output joins lines with `" "`. Multi-line output joins them with `" ^\r\n  "` on Windows, `" \\\n  "` on Unix, and the host's continuation and separator when the platform is recognised automatically |
| SerializationFacts.AddLinesNamed | src/main/java/com/github/dzieciou/testing/curl/CurlCommand.java:298-309 | a group adds one line per item, each starting with the group's option name |
| SerializationFacts.HeadNamed | src/main/java/com/github/dzieciou/testing/curl/CurlCommand.java:290-296 | the first lines are `curl`, then `--request` only when a method is set, then `--cookie` only when a cookie is set |
| SerializationFacts.ListsNamed | src/main/java/com/github/dzieciou/testing/curl/CurlCommand.java:298-309 | next come one `--header` line per header, one `--form` per part, one `--data` per data item and one `--data-binary` per binary item, in that order |
| SerializationFacts.TailNamed | src/main/java/com/github/dzieciou/testing/curl/CurlCommand.java:311-323 | last come `--user` when credentials are set, then `--compressed`, `--insecure` and `--verbose` when their flags are true |
| SerializationFacts.LinesOrder | src/main/java/com/github/dzieciou/testing/curl/CurlCommand.java:287-323 | line k of the output starts with the spelling of the k-th name in the fixed group order |
| SerializationFacts.HeadArguments | src/main/java/com/github/dzieciou/testing/curl/CurlCommand.java:290-296 | the head lines are `curl` with the URL argument, `--request` with the method as stored, and `--cookie` with the escaped cookie |
| SerializationFacts.ListArguments | src/main/java/com/github/dzieciou/testing/curl/CurlCommand.java:298-309 | after the head, header `k` gives `--header` and the escaped `name: value`, part `k` gives `--form` and the escaped `name=content`, and each data and binary item gives `--data` or `--data-binary` and the escaped item, each group in insertion order |
| SerializationFacts.UserLine | src/main/java/com/github/dzieciou/testing/curl/CurlCommand.java:311-313 | the `--user` line carries the escaped `user:password` |
| SerializationFacts.LinesHeadArguments | src/main/java/com/github/dzieciou/testing/curl/CurlCommand.java:287-296 | in the full output, line 0 is `curl` and the escaped URL with `{`, `}`, `\` turned into `$&`; line 1 is the unescaped method when set; the cookie line holds the escaped cookie |
| SerializationFacts.LinesListArguments | src/main/java/com/github/dzieciou/testing/curl/CurlCommand.java:287-309 | in the full output, right after the head lines, come the header, form, data and binary data lines, each with its escaped argument, in insertion order |
| SerializationFacts.LinesTailArguments | src/main/java/com/github/dzieciou/testing/curl/CurlCommand.java:311-323 | in the full output, the `--user` line with the escaped `user:password` follows the binary data, and the remaining lines are the set flags without argument |
| SerializationFacts.SerializeSucceeds | src/main/java/com/github/dzieciou/testing/curl/CurlCommand.java:287-328 | serialising succeeds iff the url is set and every escaped text (url, cookie, headers, parts, data, user) can be escaped. A missing url fails with the null-pointer failure |
| SerializationFacts.WindowsSerializeSucceeds | src/main/java/com/github/dzieciou/testing/curl/CurlCommand.java:245-253 | on Windows, serialising succeeds iff the url is set and no escaped text contains CR or LF |
| SerializationFacts.RenderSingleLine | src/main/java/com/github/dzieciou/testing/curl/CurlCommand.java:325-335 | in single-line mode the output is every token of every line joined by one space |
| Configuration.Options.constructor | src/main/java/com/github/dzieciou/testing/curl/Options.java:9-17 | a new `Options` has every flag false, no updater, and `RECOGNIZE_AUTOMATICALLY` |
| Configuration.Options.CanLogStacktrace | src/main/java/com/github/dzieciou/testing/curl/Options.java:23-25 | reports the stored `logStacktrace` field |
| Configuration.Options.PrintMultiliner | src/main/java/com/github/dzieciou/testing/curl/Options.java:27-29 | reports the stored `printMultiliner` field |
| Configuration.Options.EscapeNonAscii | src/main/java/com/github/dzieciou/testing/curl/Options.java:31-33 | reports the stored `escapeNonAscii` field |
| Configuration.Options.UseShortForm | src/main/java/com/github/dzieciou/testing/curl/Options.java:35-37 | reports the stored `useShortForm` field |
| Configuration.Options.GetCurlUpdater | src/main/java/com/github/dzieciou/testing/curl/Options.java:39-41 | empty exactly when no updater, or `null`, was stored |
| Configuration.Options.GetTargetPlatform | src/main/java/com/github/dzieciou/testing/curl/Options.java:43-45 | reports the stored platform |
| Configuration.Builder.constructor | src/main/java/com/github/dzieciou/testing/curl/Options.java:47-49 | a builder owns one fresh `Options` holding the defaults |
| Configuration.Builder.LogStacktrace | src/main/java/com/github/dzieciou/testing/curl/Options.java:54-57 | sets only `logStacktrace` to true and returns the same builder |
| Configuration.Builder.DontLogStacktrace | src/main/java/com/github/dzieciou/testing/curl/Options.java:62-65 | sets only `logStacktrace` to false and returns the same builder |
| Configuration.Builder.PrintMultiliner | src/main/java/com/github/dzieciou/testing/curl/Options.java:70-73 | sets only `printMultiliner` to true and returns the same builder |
| Configuration.Builder.PrintSingleliner | src/main/java/com/github/dzieciou/testing/curl/Options.java:78-81 | sets only `printMultiliner` to false and returns the same builder |
| Configuration.Builder.UseShortForm | src/main/java/com/github/dzieciou/testing/curl/Options.java:86-89 | sets only `useShortForm` to true and returns the same builder |
| Configuration.Builder.UseLongForm | src/main/java/com/github/dzieciou/testing/curl/Options.java:94-97 | sets only `useShortForm` to false and returns the same builder |
| Configuration.Builder.UpdateCurl | src/main/java/com/github/dzieciou/testing/curl/Options.java:103-106 | stores the updater, or none for `null`; nothing else changes |
| Configuration.Builder.TargetPlatform | src/main/java/com/github/dzieciou/testing/curl/Options.java:112-115 | sets only the platform and returns the same builder |
| Configuration.Builder.EscapeNonAscii | src/main/java/com/github/dzieciou/testing/curl/Options.java:120-123 | sets only `escapeNonAscii` to true and returns the same builder |
| Configuration.Builder.DontEscapeNonAscii | src/main/java/com/github/dzieciou/testing/curl/Options.java:128-131 | sets only `escapeNonAscii` to false and returns the same builder |
| Configuration.Builder.Build | src/main/java/com/github/dzieciou/testing/curl/Options.java:133-135 | returns the builder's own object, not a copy |
| Configuration.NewBuilder | src/main/java/com/github/dzieciou/testing/curl/Options.java:19-21 | `builder()` gives a fresh builder whose options hold the defaults |
| Configuration.BuilderClient | src/main/java/com/github/dzieciou/testing/curl/Options.java:19-135 | a fresh build reports the defaults through the getters. Paired toggles overwrite each other, the last call winning. Two builds are the same object, and a toggle made after `build` shows through the options already built |
| Translation.TryGetHeaderValue | src/main/java/com/github/dzieciou/testing/curl/Http2Curl.java:126-132 | empty iff no header has exactly that name; otherwise the value of the first header with the name |
| Translation.RemoveQuotes | src/main/java/com/github/dzieciou/testing/curl/Http2Curl.java:88-90 | drops a `"` at position 0 and every `"` where `$` matches right after it; `RemoveQuotesPlain`, `RemoveQuotesTail` and `RemoveQuotesBeforeLineBreak` state the result |
| Translation.IsBasicAuthentication | src/main/java/com/github/dzieciou/testing/curl/Http2Curl.java:97-99 | the name is exactly `Authorization` and the value starts with `Basic`; `ForwardedExcludes` and `TranslateCredentials` state its use |
| Translation.OriginalRequestUri | src/main/java/com/github/dzieciou/testing/curl/Http2Curl.java:101-110 | the original URI of either request wrapper, or the unsupported-class failure; `GetHostCases` states the result |
| Translation.GetHost | src/main/java/com/github/dzieciou/testing/curl/Http2Curl.java:112-115 | the first `Host` header, else the host of the original URI, failing when there is none; `GetHostCases` states the result |
| Translation.InferredUri | src/main/java/com/github/dzieciou/testing/curl/Http2Curl.java:177-197 | a valid request-line URL as it is, else the guessed scheme, `://` and the host, plus the collapsed path unless the method is `CONNECT`; `InferredUriCases` and `InferUri` state the result |
| Translation.FormPartOf | src/main/java/com/github/dzieciou/testing/curl/Http2Curl.java:290-322 | the form part `handlePart` adds, or the exception it throws; `FormPartFails`, `FormPartSucceeds`, `FormPartValue` and `FormPartQuotes` state the result |
| Translation.Credentials | src/main/java/com/github/dzieciou/testing/curl/Http2Curl.java:337-340 | `Basic ` removed, Base64-decoded, split on `:`, with the first two fields as user and password; `CredentialsOfToken`, `CredentialsUserAndPassword` and `CredentialsWithoutPassword` state the result |
| Translation.ClassifyEntity | src/main/java/com/github/dzieciou/testing/curl/Http2Curl.java:201-239 | no entity, a missing content type, a multipart form, a `multipart/mixed` body, or a body read as text; `EntityHeaders` and `HandleEntity` state the result |
| Translation.Translate | src/main/java/com/github/dzieciou/testing/curl/Http2Curl.java:170-255 | the URL, entity, authentication, cookie and header stages in the Java order; `TranslateBody`, `TranslateCookie`, `TranslateCredentials`, `TranslateSucceeds` and `TranslatedHeaders` state the result |
| Translation.GeneratedCurl | src/main/java/com/github/dzieciou/testing/curl/Http2Curl.java:162-168 | the translated command, changed by the updater when one is set, then serialised with the chosen settings; `GeneratedCurlOutcome` and `GenerateCurl` state the result |
| Translation.HandlePart | src/main/java/com/github/dzieciou/testing/curl/Http2Curl.java:290-322 | appends `FormPartOf(part)` to the form parts, or throws its failure and leaves the command unchanged |
| Translation.HandleMultipartEntity | src/main/java/com/github/dzieciou/testing/curl/Http2Curl.java:277-288 | adds the converted parts in order, or fails with the error of the first part that throws |
| Translation.HandleNextPart | src/main/java/com/github/dzieciou/testing/curl/Http2Curl.java:287 | one turn of `forEach`: converts the next part, or shows that the whole entity throws that failure |
| Translation.HandleAuthenticationHeader | src/main/java/com/github/dzieciou/testing/curl/Http2Curl.java:332-345 | matches `AuthStage`: drops the basic-authentication headers, leaves the last header's credentials on the command, and fails at the first bad header |
| Translation.AuthFailsAt | src/main/java/com/github/dzieciou/testing/curl/Http2Curl.java:333-341 | a basic header whose credentials throw, when the earlier ones do not, makes the whole stage throw that failure |
| Translation.HandleCookieHeaders | src/main/java/com/github/dzieciou/testing/curl/Http2Curl.java:257-275 | matches `CookieStage`: moves the only `Cookie` value into the cookie slot and removes `Cookie` headers; two or more throw |
| Translation.HandleNotIgnoredHeaders | src/main/java/com/github/dzieciou/testing/curl/Http2Curl.java:324-330 | appends, in order, every header whose name is not ignored |
| Translation.InferUri | src/main/java/com/github/dzieciou/testing/curl/Http2Curl.java:177-197 | the step-by-step URL inference gives `InferredUri` |
| Translation.HandleEntity | src/main/java/com/github/dzieciou/testing/curl/Http2Curl.java:201-239 | the entity step fails as `ClassifyEntity` does. On success it returns that outcome's headers, ignored names and inferred method, and leaves the body on the command |
| Translation.Http2curl | src/main/java/com/github/dzieciou/testing/curl/Http2Curl.java:170-255 | builds a fresh command equal to `Translate(request)`, or throws its failure |
| Translation.Http2Curl.constructor | src/main/java/com/github/dzieciou/testing/curl/Http2Curl.java:75-79 | keeps the given options |
| Translation.Http2Curl.GenerateCurl | src/main/java/com/github/dzieciou/testing/curl/Http2Curl.java:162-168 | translates, applies the updater if one is set, and serialises with the options' platform and forms |
| Translation.StripBasicSucceeds | src/main/java/com/github/dzieciou/testing/curl/Http2Curl.java:337 | removing `Basic ` with an empty replacement never throws |
| TranslationFacts.DollarOnlyAtEnd | src/main/java/com/github/dzieciou/testing/curl/Http2Curl.java:89 | in text without line terminators, `$` matches only at the end |
| TranslationFacts.RemoveQuotesTail | src/main/java/com/github/dzieciou/testing/curl/Http2Curl.java:89 | past the first position, only a final quote is removed |
| TranslationFacts.RemoveQuotesPlain | src/main/java/com/github/dzieciou/testing/curl/Http2Curl.java:88-90 | without line terminators, `removeQuotes` strips exactly one leading and one trailing `"`, each when present |
| TranslationFacts.RemoveQuotesBeforeLineBreak | src/main/java/com/github/dzieciou/testing/curl/Http2Curl.java:89 | `$` also matches before a final line break, so `"a"\n` loses both quotes |
| TranslationFacts.CollapseKeeps | src/main/java/com/github/dzieciou/testing/curl/Http2Curl.java:195 | a stretch with no collapsible `//` is copied unchanged |
| TranslationFacts.CollapseNoDoubleSlash | src/main/java/com/github/dzieciou/testing/curl/Http2Curl.java:195 | text without `//` is left as it is |
| TranslationFacts.CollapseKeepsScheme | src/main/java/com/github/dzieciou/testing/curl/Http2Curl.java:193-195 | the `//` after `http:` or `https:` survives, so the rebuilt URL keeps its `scheme://` prefix |
| TranslationFacts.CollapseOnePass | src/main/java/com/github/dzieciou/testing/curl/Http2Curl.java:195 | one left-to-right pass without overlap: `h///x` becomes `h//x` |
| TranslationFacts.GetHostCases | src/main/java/com/github/dzieciou/testing/curl/Http2Curl.java:101-115 | the first `Host` header wins. Without one, the host of a wrapper's original URI is used. A plain request fails with `IllegalArgumentException`, and an original URI without a host fails |
| TranslationFacts.InferredUriCases | src/main/java/com/github/dzieciou/testing/curl/Http2Curl.java:177-199 | a valid URL is kept verbatim. Otherwise a `getHost` failure propagates; the scheme is `https` iff the host ends with `:443` or a `RequestWrapper`'s original URI starts with `https`; the URL starts with `scheme://`; `CONNECT` gives exactly `scheme://host` |
| TranslationFacts.DispositionEntryKeyOnly | src/main/java/com/github/dzieciou/testing/curl/Http2Curl.java:298-299 | a trimmed element without `=` is a key with an empty value |
| TranslationFacts.DispositionEntryKeyValue | src/main/java/com/github/dzieciou/testing/curl/Http2Curl.java:298-299 | an element `key=value` (trimmed, one `=`) gives that key and value, quotes kept |
| TranslationFacts.DispositionEntryEmpty | src/main/java/com/github/dzieciou/testing/curl/Http2Curl.java:298-299 | an element `=` splits into nothing, so reading its key throws |
| TranslationFacts.FormPartFails | src/main/java/com/github/dzieciou/testing/curl/Http2Curl.java:290-320 | a part without `Content-Disposition` fails, and so does a disposition without a `form-data` entry |
| TranslationFacts.FormPartSucceeds | src/main/java/com/github/dzieciou/testing/curl/Http2Curl.java:290-322 | a part converts iff its disposition parses with distinct keys and holds `form-data` and `name`, it has a `filename` or readable content, and it has a `Content-Type` field |
| TranslationFacts.FormPartValue | src/main/java/com/github/dzieciou/testing/curl/Http2Curl.java:303-315 | the part is named by `name` without quotes; its content is `@` and the unquoted file name, or the part's own text, then `;type=` and the part's content type |
| TranslationFacts.FormPartQuotes | src/main/java/com/github/dzieciou/testing/curl/Http2Curl.java:303-308 | without line terminators, the name and the file name lose exactly their outer quotes |
| Seqs.ToMapCases | src/main/java/com/github/dzieciou/testing/curl/Http2Curl.java:297-299 | `toMap` succeeds iff every entry parses and the keys are distinct; then each key maps to its element's value and every key comes from an element |
| TranslationFacts.NoBasicInToken | src/main/java/com/github/dzieciou/testing/curl/Http2Curl.java:337 | a token without a space is unchanged by removing `Basic ` |
| TranslationFacts.CredentialsOfToken | src/main/java/com/github/dzieciou/testing/curl/Http2Curl.java:337-340 | the credentials of `Basic token` are the first two `:`-fields of the decoded token. An undecodable token, or one with fewer than two fields, throws |
| TranslationFacts.CredentialsUserAndPassword | src/main/java/com/github/dzieciou/testing/curl/Http2Curl.java:337-340 | decoded `user:password` gives that user and password; text after a further `:` is dropped |
| TranslationFacts.CredentialsWithoutPassword | src/main/java/com/github/dzieciou/testing/curl/Http2Curl.java:339-340 | decoded `user:` or `user` has no second field after trailing empties are dropped, so it throws |
| TranslationFacts.EntityHeaders | src/main/java/com/github/dzieciou/testing/curl/Http2Curl.java:201-239 | without an entity nothing is ignored; with one, `Content-Length` is ignored; `Content-Type` is ignored iff the body is `multipart/form`. `multipart/mixed` removes every `Content-Type` and appends `Content-Type: multipart/mixed` |
| TranslationFacts.TranslatedHeaders | src/main/java/com/github/dzieciou/testing/curl/Http2Curl.java:245-249 | the command's headers are the entity stage's headers that are neither basic authentication, `Cookie`, nor ignored, in order |
| TranslationFacts.ForwardedHeaders | src/main/java/com/github/dzieciou/testing/curl/Http2Curl.java:209-249 | the same list spelled out on the request's own headers, with the appended `multipart/mixed` header last |
| TranslationFacts.ForwardedExcludes | src/main/java/com/github/dzieciou/testing/curl/Http2Curl.java:209-249 | the passed-on headers never hold basic credentials or `Cookie`; never `Content-Length` with an entity; never `Content-Type` for `multipart/form` |
| TranslationFacts.ForwardedMixedContentType | src/main/java/com/github/dzieciou/testing/curl/Http2Curl.java:213-218 | a `multipart/mixed` body leaves exactly one `Content-Type`, with the value `multipart/mixed` |
| TranslationFacts.ForwardedKeeps | src/main/java/com/github/dzieciou/testing/curl/Http2Curl.java:209-249 | every other header of the request is passed on |
| TranslationFacts.EntityKeepsSelection | src/main/java/com/github/dzieciou/testing/curl/Http2Curl.java:213-216 | selecting headers other than `Content-Type` sees the request's own headers, whatever the entity stage did |
| TranslationFacts.TranslateBody | src/main/java/com/github/dzieciou/testing/curl/Http2Curl.java:199-253 | the url is the inferred one; multipart bodies give the converted parts; a read body goes to `--data` iff the first `Content-Type` is one of the two non-binary types, else to `--data-binary`; `-X` is set iff the method differs from POST (read body) or GET (otherwise); compressed, insecure and verbose are true |
| TranslationFacts.TranslateCookie | src/main/java/com/github/dzieciou/testing/curl/Http2Curl.java:257-275 | a successful translation had at most one `Cookie` header, and the cookie slot holds its value or is empty |
| TranslationFacts.TranslateCredentials | src/main/java/com/github/dzieciou/testing/curl/Http2Curl.java:332-345 | every basic header's credentials decode, and the command carries those of the last one |
| TranslationFacts.TranslateSucceeds | src/main/java/com/github/dzieciou/testing/curl/Http2Curl.java:170-255 | URL and entity failures propagate. Once both succeed, translation succeeds iff every basic header decodes and there is at most one `Cookie`; two or more cookies throw `IllegalStateException` |
| TranslationFacts.GeneratedCurlOutcome | src/main/java/com/github/dzieciou/testing/curl/Http2Curl.java:162-168 | a translation failure propagates; without an updater, generation succeeds iff every text of the translated command can be escaped for the target platform |

## Left out

- Reflection (`getFieldValue`, `getField`, and the field reads in `handleMultipartEntity`): a multipart entity carries its parts directly, and `None` stands for an entity that is no multipart wrapper.
- Reading an entity (`EntityUtils.toString`) and a part (`getContent`) is I/O. Both are given as text or as an I/O failure. A part whose length is unknown is a separate failure, because the output buffer refuses a negative size.
- Three parsers are uninterpreted functions of an `Env` parameter: `java.net.URL` validity, `URI.create(...).getHost()`, and Base64 decoding with `new String` in the default charset.
- An updater given to `updateCurl` is modelled as the builder calls it makes on the command. Arbitrary Java code in it is out of scope.
- Logging (`log.error`) is left out, and so are the exception messages. In particular, the entry that the "Unsupported type" message takes from the `HashMap` at Http2Curl.java line 320 is not modelled; only the exception kind is.
- `CurlCommand.toString` and `OsChecker` are left out: they read the running JVM.
- The unused `getBoundary` is left out.
- `CurlLoggingInterceptor` and `CurlLoggingRestAssuredConfigFactory` are not part of this model.
- Null is not modelled: strings and header values are never null. Java throws on
  `setCookieHeader(null)` and `setMethod(null)` (`Optional.of`), on a null `Authorization` value in
  `isBasicAuthentication` and on a null value found by `tryGetHeaderValue`; the model has no such
  inputs.
- Strings are sequences of Unicode scalar values. A character above U+FFFF stands for the surrogate pair Java stores. An unpaired surrogate cannot be expressed.
- Serialization.Serializer: `escapeNonAscii` is kept in `Options` but never reaches the serializer, because `asString` takes only the platform and the two forms. So it changes no output.
- Translation.HandleMultipartEntity: on failure, the contract does not state which parts were already added. Java leaves the parts before the failing one on the command, but the exception discards that command.
- Translation.Http2curl: the single Java method is split into `InferUri`, `HandleEntity` and the header steps. The calls on the command are made in the same order.
- Some callers use API that this revision does not define: `CurlCommandTest` (lines 20-103) calls a four-argument `asString`, `AbstractTest` (lines 9-14) builds `new Http2Curl(OsChecker)`, and `CurlLoggingInterceptor.java:46` calls `Options.getConsumers`. None of these is modelled.
- Some `Http2CurlTest` expectations differ from what the code does, and the model follows the code:
  - line 54 expects `-u 'xx:'`, but `split` drops the empty password and `userAndPassword[1]` throws (Http2Curl.java:339-340);
  - line 64 expects the `Authorization` header to be kept, but the header is taken as basic authentication and `xxx` decodes to two bytes without a `:`, so `userAndPassword[1]` throws (Http2Curl.java:337-340);
  - lines 78, 120 and 141 expect `--data-binary`, but their content types are on the whitelist at Http2Curl.java:71-73, so lines 229-239 add `--data`;
  - line 109 expects two `-H 'Cookie: …'` lines, but two `Cookie` headers throw at Http2Curl.java:262-265.
