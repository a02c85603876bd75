/** The translator (`Http2Curl.java`): from an HTTP request to a curl command, and from there to
    text through the options' updater and the serializer. */
module Translation {
  import opened Wrappers
  import opened Exceptions
  import opened JavaStrings
  import opened Seqs
  import opened Command
  import opened Platforms
  import opened Serialization
  import opened Configuration

  // ---------------------------------------------------------------------------------------------
  // The request.

  /** The request class as far as the translator looks at it: a plain request, or one of the two
      HttpClient wrappers around an original request whose request-line URI it may consult. */
  datatype Wrapper =
    | NoWrapper
    | HttpRequestWrapper(originalUri: string)
    | RequestWrapper(originalUri: string)

  /** What reading a part's content body gives: its text, an I/O failure, or nothing because the
      body reports an unknown (negative) length, which the output buffer refuses. */
  datatype PartContent = PartText(text: string) | PartUnreadable | PartLengthUnknown

  /** A multipart body part: its header fields, in order, and its content. */
  datatype BodyPart = BodyPart(fields: seq<Header>, content: PartContent)

  /** An entity: the text `EntityUtils.toString` reads (`None` when reading fails), and the parts
      found behind the REST-assured multipart wrapper (`None` when the entity is no such wrapper). */
  datatype Entity = Entity(text: Option<string>, parts: Option<seq<BodyPart>>)

  /** An HTTP request: method and URI of the request line, all headers in order, the wrapper
      kind, and the entity when the request encloses a non-null one. */
  datatype Request = Request(httpMethod: string, uri: string, headers: seq<Header>, wrapper: Wrapper, entity: Option<Entity>)

  /** The library parsers the translator calls: `new URL(u)` succeeding, `URI.create(u).getHost()`
      (`None` when it throws or gives `null`), and Base64 decoding followed by `new String` in the
      default charset (`None` when the decoder throws). */
  datatype Env = Env(isValidUrl: string -> bool, uriHost: string -> Option<string>, decodeBase64: string -> Option<string>)

  /** The content types whose body goes to `--data`; every other one goes to `--data-binary`. */
  const NonBinaryContentTypes: seq<string> := ["application/x-www-form-urlencoded", "application/json"]

  // ---------------------------------------------------------------------------------------------
  // Small helpers of `Http2Curl`.

  /** `tryGetHeaderValue`: the value of the first header with exactly this name. */
  function TryGetHeaderValue(headers: seq<Header>, headerName: string): (r: Option<string>)
    ensures r.None? <==> forall h <- headers :: h.name != headerName
    ensures r.Some? ==> exists i | 0 <= i < |headers| :: headers[i] == Header(headerName, r.value)
                                                        && forall j | 0 <= j < i :: headers[j].name != headerName
  {
    if headers == [] then None
    else if headers[0].name == headerName then Some(headers[0].value)
    else
      var r := TryGetHeaderValue(headers[1..], headerName);
      assert forall h <- headers[1..] :: h in headers;
      if r.Some? then
        var i :| 0 <= i < |headers[1..]| && headers[1..][i] == Header(headerName, r.value)
                 && forall j | 0 <= j < i :: headers[1..][j].name != headerName;
        assert headers[i + 1] == Header(headerName, r.value);
        r
      else r
  }

  /** `isBasicAuthentication`: the exact name `Authorization` and a value starting with `Basic`. */
  predicate IsBasicAuthentication(h: Header)
  {
    h.name == "Authorization" && StartsWith(h.value, "Basic")
  }

  /** `removeQuotes`, that is `replaceAll("^\"|\"$", "")`: every match is a single `"`, either
      the first character or one where `$` matches right after it. */
  predicate QuoteRemovedAt(s: string, p: nat)
    requires p < |s|
  {
    s[p] == '"' && (p == 0 || DollarAt(s, p + 1))
  }

  function RemoveQuotes(s: string): string
  {
    RemoveQuotesFrom(s, 0)
  }

  function RemoveQuotesFrom(s: string, p: nat): string
    decreases |s| - p
  {
    if p >= |s| then []
    else (if QuoteRemovedAt(s, p) then [] else [s[p]]) + RemoveQuotesFrom(s, p + 1)
  }

  /** `getOriginalRequestUri`. */
  function OriginalRequestUri(r: Request): Result<string, Failure>
  {
    match r.wrapper
    case NoWrapper => Failure(UnsupportedRequestClass)
    case HttpRequestWrapper(uri) => Success(uri)
    case RequestWrapper(uri) => Success(uri)
  }

  /** `getHost`: the first `Host` header, else the host of the original request URI. */
  function GetHost(r: Request, env: Env): Result<string, Failure>
  {
    match TryGetHeaderValue(r.headers, "Host")
    case Some(host) => Success(host)
    case None =>
      var uri :- OriginalRequestUri(r);
      if env.uriHost(uri).None? then Failure(NoHost) else Success(env.uriHost(uri).value)
  }

  /** The scheme guessed for a request line without one. */
  function InferredScheme(r: Request, host: string): string
  {
    if EndsWith(host, ":443") then "https"
    else if r.wrapper.RequestWrapper? && StartsWith(r.wrapper.originalUri, "https") then "https"
    else "http"
  }

  /** Whether the text before position `i` ends with `http:` or `https:`, the look-behind of
      `(?<!http(s)?:)//`. */
  predicate AfterScheme(s: string, i: nat)
    requires i <= |s|
  {
    (i >= 5 && s[i - 5] == 'h' && s[i - 4] == 't' && s[i - 3] == 't' && s[i - 2] == 'p' && s[i - 1] == ':')
    || (i >= 6 && s[i - 6] == 'h' && s[i - 5] == 't' && s[i - 4] == 't' && s[i - 3] == 'p' && s[i - 2] == 's' && s[i - 1] == ':')
  }

  predicate CollapsesAt(s: string, i: nat)
  {
    i + 1 < |s| && s[i] == '/' && s[i + 1] == '/' && !AfterScheme(s, i)
  }

  /** `replaceAll("(?<!http(s)?:)//", "/")`: one left-to-right pass that replaces each `//` not
      preceded by a scheme by `/` and resumes after it. */
  function CollapseSlashes(s: string): string
  {
    CollapseFrom(s, 0)
  }

  function CollapseFrom(s: string, i: nat): string
    decreases |s| - i
  {
    if i >= |s| then []
    else if CollapsesAt(s, i) then "/" + CollapseFrom(s, i + 2)
    else [s[i]] + CollapseFrom(s, i + 1)
  }

  /** The command URL: the request-line URI when it is a valid URL, otherwise one rebuilt from
      the guessed scheme, the host and the URI. */
  function InferredUri(r: Request, env: Env): Result<string, Failure>
  {
    if env.isValidUrl(r.uri) then Success(r.uri)
    else
      var host :- GetHost(r, env);
      var scheme := InferredScheme(r, host);
      if r.httpMethod == "CONNECT" then Success(scheme + "://" + host)
      else Success(CollapseSlashes(scheme + "://" + host + "/" + r.uri))
  }

  // ---------------------------------------------------------------------------------------------
  // Multipart parts.

  /** One disposition element, trimmed and split on `=`: the first piece is the key, the second
      the value when there are exactly two pieces. */
  function DispositionEntry(element: string): Result<(string, string), Failure>
  {
    var a := Split(Trim(element), '=');
    if |a| == 0 then Failure(ArrayIndexOutOfBounds)
    else Success((a[0], if |a| == 2 then a[1] else ""))
  }

  function LowerAscii(c: char): char
  {
    if 'A' <= c <= 'Z' then (c as int + 32) as char else c
  }

  function LowerAsciiString(s: string): (r: string)
    ensures |r| == |s| && forall i | 0 <= i < |s| :: r[i] == LowerAscii(s[i])
  {
    if s == [] then [] else [LowerAscii(s[0])] + LowerAsciiString(s[1..])
  }

  /** The mime header's `getField`: the first field whose name equals `lowerName` ignoring case. */
  function FieldIgnoringCase(fields: seq<Header>, lowerName: string): (r: Option<string>)
    ensures r.None? <==> forall f <- fields :: LowerAsciiString(f.name) != lowerName
  {
    if fields == [] then None
    else if LowerAsciiString(fields[0].name) == lowerName then Some(fields[0].value)
    else
      assert forall f <- fields[1..] :: f in fields;
      FieldIgnoringCase(fields[1..], lowerName)
  }

  /** `getContent`. */
  function PartBody(content: PartContent): Result<string, Failure>
  {
    match content
    case PartText(text) => Success(text)
    case PartUnreadable => Failure(PartReadFailed)
    case PartLengthUnknown => Failure(UnknownPartLength)
  }

  /** The disposition's entries, or the exception reading them throws. */
  function DispositionOf(part: BodyPart): Result<map<string, string>, Failure>
  {
    var disposition := TryGetHeaderValue(part.fields, "Content-Disposition");
    if disposition.None? then Failure(MissingContentDisposition)
    else ToMap(Split(disposition.value, ';'), DispositionEntry, DuplicateDispositionKey)
  }

  /** The text after `name=` in the form part: `@` and the file name, or the part's content. */
  function PartContentOf(m: map<string, string>, part: BodyPart): Result<string, Failure>
  {
    if "filename" in m then Success("@" + RemoveQuotes(m["filename"])) else PartBody(part.content)
  }

  /** The form part `handlePart` adds for a body part, or the exception it throws. */
  function FormPartOf(part: BodyPart): Result<FormPart, Failure>
  {
    var m :- DispositionOf(part);
    if "form-data" !in m then Failure(if m == map[] then EmptyDisposition else UnsupportedDisposition)
    else if "name" !in m then Failure(MissingPartName)
    else
      var content :- PartContentOf(m, part);
      var contentType := FieldIgnoringCase(part.fields, "content-type");
      if contentType.None? then Failure(MissingPartContentType)
      else Success(FormPart(RemoveQuotes(m["name"]), content + ";type=" + contentType.value))
  }

  /** The form parts of a multipart entity, in order. */
  function MultipartParts(entity: Entity): Result<seq<FormPart>, Failure>
  {
    if entity.parts.None? then Failure(NotMultipartEntity) else MapResult(entity.parts.value, FormPartOf)
  }

  // ---------------------------------------------------------------------------------------------
  // Authentication and cookies.

  /** The credentials of one basic-authentication header: the token after `Basic ` decoded and
      split on `:`; the first two fields are user and password. */
  function Credentials(h: Header, env: Env): Result<ServerAuthentication, Failure>
  {
    var credentials :- ReplaceAllLiteral(h.value, "Basic ", "");
    var decoded := env.decodeBase64(credentials);
    if decoded.None? then Failure(InvalidBase64)
    else
      var userAndPassword := Split(decoded.value, ':');
      if |userAndPassword| < 2 then Failure(ArrayIndexOutOfBounds)
      else Success(ServerAuthentication(userAndPassword[0], userAndPassword[1]))
  }

  function CredentialsIn(env: Env): Header -> Result<ServerAuthentication, Failure>
  {
    h => Credentials(h, env)
  }

  predicate NotBasicAuthentication(h: Header)
  {
    !IsBasicAuthentication(h)
  }

  /** The command after `setServerAuthentication` with each of `all`, in order. */
  function WithLastCredentials(v: CommandView, all: seq<ServerAuthentication>): CommandView
  {
    if all == [] then v else v.(serverAuthentication := Some(all[|all| - 1]))
  }

  /** `handleAuthenticationHeader`: the headers without the basic-authentication ones, and the
      command with the credentials of the last of them, if any. */
  function AuthStage(headers: seq<Header>, v: CommandView, env: Env): Result<(seq<Header>, CommandView), Failure>
  {
    var all :- MapResult(Filter(headers, IsBasicAuthentication), CredentialsIn(env));
    Success((Filter(headers, NotBasicAuthentication), WithLastCredentials(v, all)))
  }

  predicate IsCookie(h: Header)
  {
    h.name == "Cookie"
  }

  /** `handleCookieHeaders`: the headers without `Cookie`, and the command with the value of the
      only `Cookie` header, if there is one. */
  function CookieStage(headers: seq<Header>, v: CommandView): Result<(seq<Header>, CommandView), Failure>
  {
    var cookies := Filter(headers, IsCookie);
    if |cookies| > 1 then Failure(MultipleCookieHeaders)
    else Success((WithoutName(headers, "Cookie"), if |cookies| == 1 then v.(cookieHeader := Some(cookies[0].value)) else v))
  }

  predicate NotIgnored(ignored: set<string>, h: Header)
  {
    h.name !in ignored
  }

  function KeepHeader(ignored: set<string>): Header -> bool
  {
    h => NotIgnored(ignored, h)
  }

  /** `handleNotIgnoredHeaders`. */
  function WithHeaders(v: CommandView, headers: seq<Header>, ignored: set<string>): CommandView
  {
    v.(headers := v.headers + Filter(headers, KeepHeader(ignored)))
  }

  // ---------------------------------------------------------------------------------------------
  // `http2curl`, stage by stage.

  /** The translator's locals after the entity has been looked at: the header list, the header
      names to leave out, the form parts added, and the body text read. */
  datatype EntityOutcome = EntityOutcome(headers: seq<Header>, ignored: set<string>, formParts: seq<FormPart>, formData: Option<string>)

  function ContentTypeOf(r: Request): Option<string>
  {
    TryGetHeaderValue(r.headers, "Content-Type")
  }

  function ClassifyEntity(r: Request): Result<EntityOutcome, Failure>
  {
    if r.entity.None? then Success(EntityOutcome(r.headers, {}, [], None))
    else if ContentTypeOf(r).None? then Failure(MissingContentType)
    else if StartsWith(ContentTypeOf(r).value, "multipart/form") then
      var parts :- MultipartParts(r.entity.value);
      Success(EntityOutcome(r.headers, {"Content-Type", "Content-Length"}, parts, None))
    else if StartsWith(ContentTypeOf(r).value, "multipart/mixed") then
      var parts :- MultipartParts(r.entity.value);
      Success(EntityOutcome(WithoutName(r.headers, "Content-Type") + [Header("Content-Type", "multipart/mixed")],
                            {"Content-Length"}, parts, None))
    else if r.entity.value.text.None? then Failure(EntityReadFailed)
    else Success(EntityOutcome(r.headers, {}, [], r.entity.value.text))
  }

  predicate IsNonBinary(contentType: Option<string>)
  {
    contentType.Some? && contentType.value in NonBinaryContentTypes
  }

  /** The command after the URL, the form parts and the body have been added. */
  function WithBody(uri: string, r: Request, e: EntityOutcome): CommandView
  {
    var v := EmptyCommand.(url := Some(uri), formParts := e.formParts);
    if e.formData.None? then v
    else if IsNonBinary(ContentTypeOf(r)) then v.(datas := [e.formData.value])
    else v.(datasBinary := [e.formData.value])
  }

  function InferredMethod(e: EntityOutcome): string
  {
    if e.formData.Some? then "POST" else "GET"
  }

  function Ignored(e: EntityOutcome): set<string>
  {
    e.ignored + (if e.formData.Some? then {"Content-Length"} else {})
  }

  function WithMethod(v: CommandView, r: Request, e: EntityOutcome): CommandView
  {
    if r.httpMethod != InferredMethod(e) then v.(httpMethod := Some(r.httpMethod)) else v
  }

  function WithFlags(v: CommandView): CommandView
  {
    v.(compressed := true, insecure := true, verbose := true)
  }

  /** The command `http2curl` builds, or the first exception it throws. */
  function Translate(r: Request, env: Env): Result<CommandView, Failure>
  {
    var uri :- InferredUri(r, env);
    var e :- ClassifyEntity(r);
    var auth :- AuthStage(e.headers, WithMethod(WithBody(uri, r, e), r, e), env);
    var cookie :- CookieStage(auth.0, auth.1);
    Success(WithFlags(WithHeaders(cookie.1, cookie.0, Ignored(e))))
  }

  // ---------------------------------------------------------------------------------------------
  // The translator's methods.

  /** `replaceAll("Basic ", "")` cannot throw: the empty replacement has no group reference. */
  lemma {:induction false} StripBasicSucceeds(s: string)
    ensures ReplaceAllLiteral(s, "Basic ", "").Success?
    decreases |s|
  {
    if s != [] {
      if StartsWith(s, "Basic ") {
        StripBasicSucceeds(s[|"Basic "|..]);
      } else {
        StripBasicSucceeds(s[1..]);
      }
    }
  }

  /** `handlePart`: works out the part's name and content from its fields, as `FormPartOf`
      states, and adds one form part; nothing is added when that throws. */
  method HandlePart(bodyPart: BodyPart, curl: CurlCommand) returns (res: Result<(), Failure>)
    modifies curl
    ensures res.Success? <==> FormPartOf(bodyPart).Success?
    ensures res.Success? ==> curl.View() == old(curl.View()).(formParts := old(curl.formParts) + [FormPartOf(bodyPart).value])
    ensures res.Failure? ==> res.error == FormPartOf(bodyPart).error && curl.View() == old(curl.View())
  {
    var formPart :- FormPartOf(bodyPart);
    var _ := curl.AddFormPart(formPart.name, formPart.content);
    res := Success(());
  }

  /** `handleMultipartEntity`: each part in order, stopping at the first that throws. */
  method HandleMultipartEntity(entity: Entity, curl: CurlCommand) returns (res: Result<(), Failure>)
    modifies curl
    ensures res.Success? <==> MultipartParts(entity).Success?
    ensures res.Success? ==> curl.View() == old(curl.View()).(formParts := old(curl.formParts) + MultipartParts(entity).value)
    ensures res.Failure? ==> res.error == MultipartParts(entity).error
  {
    if entity.parts.None? {
      return Failure(NotMultipartEntity);
    }
    var bodyParts := entity.parts.value;
    ghost var start := curl.View();
    ghost var added: seq<FormPart> := [];
    for i := 0 to |bodyParts|
      invariant PartsConverted(entity, i, added)
      invariant curl.View() == start.(formParts := start.formParts + added)
    {
      var done;
      done, added := HandleNextPart(entity, i, added, start, curl);
      if done.Failure? {
        return Failure(done.error);
      }
    }
    PartsDone(entity, added);
    res := Success(());
  }

  /** One turn of the loop in `handleMultipartEntity`: `handlePart` on the next part, which either
      adds its form part or throws what the whole entity throws. */
  method HandleNextPart(entity: Entity, i: nat, ghost added: seq<FormPart>, ghost start: CommandView, curl: CurlCommand)
    returns (res: Result<(), Failure>, ghost added': seq<FormPart>)
    requires entity.parts.Some? && i < |entity.parts.value|
    requires PartsConverted(entity, i, added)
    requires curl.View() == start.(formParts := start.formParts + added)
    modifies curl
    ensures res.Success? ==> PartsConverted(entity, i + 1, added') && curl.View() == start.(formParts := start.formParts + added')
    ensures res.Failure? ==> MultipartParts(entity) == Failure(res.error)
  {
    var part := entity.parts.value[i];
    PartsStep(entity, i, added);
    res := HandlePart(part, curl);
    added' := added;
    if res.Success? {
      var formPart := FormPartOf(part).value;
      added' := added + [formPart];
      assert start.formParts + added' == start.formParts + added + [formPart];
    }
  }

  ghost predicate PartsConverted(entity: Entity, i: nat, added: seq<FormPart>)
  {
    entity.parts.Some? && i <= |entity.parts.value| && MapResult(entity.parts.value[..i], FormPartOf) == Success(added)
  }

  lemma PartsDone(entity: Entity, added: seq<FormPart>)
    requires entity.parts.Some? && PartsConverted(entity, |entity.parts.value|, added)
    ensures MultipartParts(entity) == Success(added)
  {
    assert entity.parts.value[..|entity.parts.value|] == entity.parts.value;
  }

  /** One part further: the parts so far and this one convert, or the whole entity throws what
      this part throws. */
  lemma PartsStep(entity: Entity, i: nat, added: seq<FormPart>)
    requires entity.parts.Some? && i < |entity.parts.value|
    requires PartsConverted(entity, i, added)
    ensures FormPartOf(entity.parts.value[i]).Success? ==>
              PartsConverted(entity, i + 1, added + [FormPartOf(entity.parts.value[i]).value])
    ensures FormPartOf(entity.parts.value[i]).Failure? ==>
              MultipartParts(entity) == Failure(FormPartOf(entity.parts.value[i]).error)
  {
    var parts := entity.parts.value;
    MapResultStep(parts, i, FormPartOf);
    if FormPartOf(parts[i]).Failure? {
      MapResultPrefixFailure(parts, i + 1, FormPartOf);
    }
  }

  /** `handleAuthenticationHeader`: sets the credentials of each basic-authentication header in
      turn, then drops those headers. */
  method HandleAuthenticationHeader(headers: seq<Header>, curl: CurlCommand, env: Env) returns (res: Result<seq<Header>, Failure>)
    modifies curl
    ensures res.Success? <==> AuthStage(headers, old(curl.View()), env).Success?
    ensures res.Success? ==> res.value == AuthStage(headers, old(curl.View()), env).value.0
                             && curl.View() == AuthStage(headers, old(curl.View()), env).value.1
    ensures res.Failure? ==> res.error == AuthStage(headers, old(curl.View()), env).error
  {
    ghost var basics: seq<Header> := [];
    for i := 0 to |headers|
      invariant basics == Filter(headers[..i], IsBasicAuthentication)
      invariant MapResult(basics, CredentialsIn(env)).Success?
      invariant curl.View() == WithLastCredentials(old(curl.View()), MapResult(basics, CredentialsIn(env)).value)
    {
      assert headers[..i + 1][..i] == headers[..i];
      var h := headers[i];
      if IsBasicAuthentication(h) {
        basics := basics + [h];
        StripBasicSucceeds(h.value);
        var credentials := ReplaceAllLiteral(h.value, "Basic ", "").value;
        var decodedCredentials := env.decodeBase64(credentials);
        if decodedCredentials.None? {
          AuthFailsAt(headers, i, env);
          return Failure(InvalidBase64);
        }
        var userAndPassword := Split(decodedCredentials.value, ':');
        if |userAndPassword| < 2 {
          AuthFailsAt(headers, i, env);
          return Failure(ArrayIndexOutOfBounds);
        }
        var _ := curl.SetServerAuthentication(userAndPassword[0], userAndPassword[1]);
      }
    }
    assert headers[..|headers|] == headers;
    res := Success(Filter(headers, NotBasicAuthentication));
  }

  /** A basic-authentication header whose credentials throw makes the whole stage throw that,
      once the ones before it have succeeded. */
  lemma AuthFailsAt(headers: seq<Header>, i: nat, env: Env)
    requires i < |headers| && IsBasicAuthentication(headers[i]) && Credentials(headers[i], env).Failure?
    requires MapResult(Filter(headers[..i], IsBasicAuthentication), CredentialsIn(env)).Success?
    ensures MapResult(Filter(headers, IsBasicAuthentication), CredentialsIn(env)) == Failure(Credentials(headers[i], env).error)
  {
    MapResultFilterFailsAt(headers, i, IsBasicAuthentication, CredentialsIn(env));
  }

  /** `handleCookieHeaders`. */
  method HandleCookieHeaders(curl: CurlCommand, headers: seq<Header>) returns (res: Result<seq<Header>, Failure>)
    modifies curl
    ensures res.Success? <==> CookieStage(headers, old(curl.View())).Success?
    ensures res.Success? ==> res.value == CookieStage(headers, old(curl.View())).value.0
                             && curl.View() == CookieStage(headers, old(curl.View())).value.1
    ensures res.Failure? ==> res.error == CookieStage(headers, old(curl.View())).error
  {
    var cookiesHeaders := Filter(headers, IsCookie);
    if |cookiesHeaders| > 1 {
      return Failure(MultipleCookieHeaders);
    }
    if |cookiesHeaders| == 1 {
      var _ := curl.SetCookieHeader(cookiesHeaders[0].value);
    }
    res := Success(WithoutName(headers, "Cookie"));
  }

  /** `handleNotIgnoredHeaders`: adds, in order, each header whose name is not ignored. */
  method HandleNotIgnoredHeaders(headers: seq<Header>, ignoredHeaders: set<string>, curl: CurlCommand)
    modifies curl
    ensures curl.View() == WithHeaders(old(curl.View()), headers, ignoredHeaders)
  {
    for i := 0 to |headers|
      invariant curl.View() == WithHeaders(old(curl.View()), headers[..i], ignoredHeaders)
    {
      assert headers[..i + 1][..i] == headers[..i];
      if headers[i].name !in ignoredHeaders {
        var _ := curl.AddHeader(headers[i].name, headers[i].value);
      }
    }
    assert headers[..|headers|] == headers;
  }

  /** The first step of `http2curl`: the request-line URI, or one rebuilt from the scheme the
      request suggests and its host. */
  method InferUri(request: Request, env: Env) returns (res: Result<string, Failure>)
    ensures res == InferredUri(request, env)
  {
    var inferredUri := request.uri;
    if !env.isValidUrl(inferredUri) {
      var host :- GetHost(request, env);
      var inferredScheme := "http";
      if EndsWith(host, ":443") {
        inferredScheme := "https";
      } else if request.wrapper.RequestWrapper? {
        if StartsWith(request.wrapper.originalUri, "https") {
          inferredScheme := "https";
        }
      }
      if request.httpMethod == "CONNECT" {
        inferredUri := inferredScheme + "://" + host;
      } else {
        inferredUri := CollapseSlashes(inferredScheme + "://" + host + "/" + inferredUri);
      }
    }
    res := Success(inferredUri);
  }

  /** The entity step of `http2curl`: the form parts or the body added to a command that so far
      holds only its URL; gives the headers to go on with, the ignored header names and the
      method the body implies. */
  method HandleEntity(request: Request, uri: string, curl: CurlCommand) returns (res: Result<(seq<Header>, set<string>, string), Failure>)
    requires curl.View() == EmptyCommand.(url := Some(uri))
    modifies curl
    ensures res.Success? <==> ClassifyEntity(request).Success?
    ensures res.Failure? ==> res.error == ClassifyEntity(request).error
    ensures res.Success? ==>
              var e := ClassifyEntity(request).value;
              res.value == (e.headers, Ignored(e), InferredMethod(e)) && curl.View() == WithBody(uri, request, e)
  {
    var ignoredHeaders: set<string> := {};
    var headers := request.headers;
    var inferredMethod := "GET";
    var requestContentType := TryGetHeaderValue(headers, "Content-Type");
    var formData: Option<string> := None;
    if request.entity.Some? {
      var entity := request.entity.value;
      if requestContentType.None? {
        return Failure(MissingContentType);
      }
      if StartsWith(requestContentType.value, "multipart/form") {
        ignoredHeaders := ignoredHeaders + {"Content-Type"};
        ignoredHeaders := ignoredHeaders + {"Content-Length"};
        var done :- HandleMultipartEntity(entity, curl);
      } else if StartsWith(requestContentType.value, "multipart/mixed") {
        headers := WithoutName(headers, "Content-Type");
        headers := headers + [Header("Content-Type", "multipart/mixed")];
        ignoredHeaders := ignoredHeaders + {"Content-Length"};
        var done :- HandleMultipartEntity(entity, curl);
      } else {
        if entity.text.None? {
          return Failure(EntityReadFailed);
        }
        formData := Some(entity.text.value);
      }
    }
    ghost var e := ClassifyEntity(request).value;
    assert headers == e.headers && ignoredHeaders == e.ignored && formData == e.formData;
    assert curl.View() == EmptyCommand.(url := Some(uri), formParts := e.formParts);

    if requestContentType.Some? && requestContentType.value in NonBinaryContentTypes && formData.Some? {
      var _ := curl.AddData(formData.value);
      ignoredHeaders := ignoredHeaders + {"Content-Length"};
      inferredMethod := "POST";
    } else if formData.Some? {
      var _ := curl.AddDataBinary(formData.value);
      ignoredHeaders := ignoredHeaders + {"Content-Length"};
      inferredMethod := "POST";
    }
    assert curl.View() == WithBody(uri, request, e);
    assert ignoredHeaders == Ignored(e) && inferredMethod == InferredMethod(e);
    res := Success((headers, ignoredHeaders, inferredMethod));
  }

  /** `http2curl`: builds the command step by step on a fresh `CurlCommand`. */
  method Http2curl(request: Request, env: Env) returns (res: Result<CurlCommand, Failure>)
    ensures res.Success? <==> Translate(request, env).Success?
    ensures res.Success? ==> fresh(res.value) && res.value.View() == Translate(request, env).value
    ensures res.Failure? ==> res.error == Translate(request, env).error
  {
    var curl := new CurlCommand();
    var inferredUri :- InferUri(request, env);
    var _ := curl.SetUrl(inferredUri);
    var body :- HandleEntity(request, inferredUri, curl);
    var headers, ignoredHeaders, inferredMethod := body.0, body.1, body.2;
    ghost var e := ClassifyEntity(request).value;

    if request.httpMethod != inferredMethod {
      var _ := curl.SetMethod(request.httpMethod);
    }
    assert curl.View() == WithMethod(WithBody(inferredUri, request, e), request, e);

    headers :- HandleAuthenticationHeader(headers, curl, env);
    headers :- HandleCookieHeaders(curl, headers);
    HandleNotIgnoredHeaders(headers, ignoredHeaders, curl);

    var _ := curl.SetCompressed(true);
    var _ := curl.SetInsecure(true);
    var _ := curl.SetVerbose(true);
    return Success(curl);
  }

  /** What `generateCurl` returns for the given settings: the translated command, changed by the
      updater if one is set, then serialised for the target platform in the chosen forms. */
  function GeneratedCurl(settings: Settings, request: Request, env: Env, host: HostEnvironment): Result<string, Failure>
  {
    var v :- Translate(request, env);
    var updated := if settings.curlUpdater.Some? then AfterCalls(v, settings.curlUpdater.value) else v;
    Serializer(settings.targetPlatform, host, settings.useShortForm, settings.printMultiliner).Serialized(updated)
  }

  /** The translator, configured once with its options. */
  class Http2Curl {
    const options: Options

    constructor (options: Options)
      ensures this.options == options
    {
      this.options := options;
    }

    /** `generateCurl`. The host environment stands for what `RECOGNIZE_AUTOMATICALLY` reads. */
    method GenerateCurl(request: Request, env: Env, host: HostEnvironment) returns (res: Result<string, Failure>)
      ensures res == GeneratedCurl(options.View(), request, env, host)
    {
      var curl :- Http2curl(request, env);
      var updater := options.GetCurlUpdater();
      if updater.Some? {
        curl.PerformAll(updater.value);
      }
      var serializer := Serializer(options.GetTargetPlatform(), host, options.UseShortForm(), options.PrintMultiliner());
      res := serializer.Serialize(curl);
    }
  }
}
