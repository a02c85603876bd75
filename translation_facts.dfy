/** What the translator promises: quote removal, URL repair, the disposition map, credentials,
    and the shape of the command `http2curl` builds. */
module TranslationFacts {
  import opened Wrappers
  import opened Exceptions
  import opened JavaStrings
  import opened Seqs
  import opened Command
  import opened Platforms
  import opened Serialization
  import opened SerializationFacts
  import opened Configuration
  import opened Translation

  // ---------------------------------------------------------------------------------------------
  // `removeQuotes`.

  predicate NoLineTerminator(s: string)
  {
    forall c <- s :: !IsLineTerminator(c)
  }

  /** One leading and one trailing double quote taken off, each when present. */
  function StripQuotes(s: string): string
  {
    var t := if s != [] && s[0] == '"' then s[1..] else s;
    if t != [] && t[|t| - 1] == '"' then t[..|t| - 1] else t
  }

  /** In text without line terminators, `$` matches only at the very end. */
  lemma DollarOnlyAtEnd(s: string, i: nat)
    requires i <= |s| && NoLineTerminator(s)
    ensures DollarAt(s, i) <==> i == |s|
  {
    if i < |s| {
      assert s[i] in s;
    }
  }

  lemma {:induction false} RemoveQuotesTail(s: string, p: nat)
    requires 1 <= p <= |s| && NoLineTerminator(s)
    ensures RemoveQuotesFrom(s, p) == if p < |s| && s[|s| - 1] == '"' then s[p..|s| - 1] else s[p..]
    decreases |s| - p
  {
    if p < |s| {
      DollarOnlyAtEnd(s, p + 1);
      RemoveQuotesTail(s, p + 1);
    }
  }

  /** Without line terminators, `removeQuotes` strips exactly one leading and one trailing
      double quote, each when present, and keeps every quote inside. */
  lemma RemoveQuotesPlain(s: string)
    requires NoLineTerminator(s)
    ensures RemoveQuotes(s) == StripQuotes(s)
  {
    if s != [] {
      var n := |s|;
      var head: string := if s[0] == '"' then [] else [s[0]];
      assert QuoteRemovedAt(s, 0) <==> s[0] == '"';
      assert RemoveQuotes(s) == head + RemoveQuotesFrom(s, 1);
      if n == 1 {
        assert RemoveQuotesFrom(s, 1) == [];
        assert RemoveQuotes(s) == head;
      } else {
        RemoveQuotesTail(s, 1);
        var t := if s[0] == '"' then s[1..] else s;
        assert |t| > 0 && t[|t| - 1] == s[n - 1];
        if s[0] == '"' {
          assert StripQuotes(s) == if s[n - 1] == '"' then s[1..n - 1] else s[1..];
        } else if s[n - 1] == '"' {
          assert [s[0]] + s[1..n - 1] == s[..n - 1];
          assert StripQuotes(s) == s[..n - 1];
        } else {
          assert [s[0]] + s[1..] == s;
          assert StripQuotes(s) == s;
        }
      }
    }
  }

  /** `$` also matches before a final line break, so the quote ahead of it goes as well. */
  lemma RemoveQuotesBeforeLineBreak()
    ensures RemoveQuotes("\"a\"\n") == "a\n"
  {
    var s := "\"a\"\n";
    assert DollarAt(s, 3) && !DollarAt(s, 2);
    assert RemoveQuotesFrom(s, 4) == [];
    assert RemoveQuotesFrom(s, 3) == "\n";
    assert RemoveQuotesFrom(s, 2) == "\n";
  }

  // ---------------------------------------------------------------------------------------------
  // The URL.

  lemma {:induction false} CollapseKeeps(s: string, i: nat, n: nat)
    requires i <= n <= |s|
    requires forall j | i <= j < n :: !CollapsesAt(s, j)
    ensures CollapseFrom(s, i) == s[i..n] + CollapseFrom(s, n)
    decreases n - i
  {
    if i < n {
      CollapseKeeps(s, i + 1, n);
      assert CollapseFrom(s, i) == [s[i]] + CollapseFrom(s, i + 1);
      assert s[i..n] == [s[i]] + s[i + 1..n];
    } else {
      assert s[i..n] == [];
    }
  }

  /** A text without `//` is left as it is. */
  lemma CollapseNoDoubleSlash(s: string)
    requires forall j | 0 <= j < |s| - 1 :: !(s[j] == '/' && s[j + 1] == '/')
    ensures CollapseSlashes(s) == s
  {
    CollapseKeeps(s, 0, |s|);
  }

  /** The `//` right after `http:` or `https:` survives: the rebuilt URL still starts with its
      scheme and `://`, whatever follows. */
  lemma CollapseKeepsScheme(scheme: string, rest: string)
    requires scheme == "http" || scheme == "https"
    ensures |CollapseSlashes(scheme + "://" + rest)| >= |scheme| + 3
    ensures CollapseSlashes(scheme + "://" + rest)[..|scheme| + 3] == scheme + "://"
  {
    var s := scheme + "://" + rest;
    var k := |scheme|;
    assert s[..k + 1] == scheme + ":";
    assert AfterScheme(s, k + 1);
    forall j | 0 <= j < k + 2 ensures !CollapsesAt(s, j) {
      if j < k {
        assert s[j] == scheme[j];
      }
    }
    CollapseKeeps(s, 0, k + 2);
    assert s[0..k + 2] == scheme + ":/";
    if CollapsesAt(s, k + 2) {
      assert CollapseFrom(s, k + 2) == "/" + CollapseFrom(s, k + 4);
    } else {
      assert CollapseFrom(s, k + 2) == [s[k + 2]] + CollapseFrom(s, k + 3);
    }
  }

  /** One left-to-right pass: a run of three slashes is collapsed once, not to a single one. */
  lemma CollapseOnePass()
    ensures CollapseSlashes("h///x") == "h//x"
  {
    var s := "h///x";
    assert !CollapsesAt(s, 0) && CollapsesAt(s, 1) && !CollapsesAt(s, 3) && !CollapsesAt(s, 4);
    assert CollapseFrom(s, 3) == "/x";
  }

  /** `getHost`: the value of the first `Host` header; without one, the host of the original
      request URI, where a plain request fails and a URI without a host fails. */
  lemma GetHostCases(r: Request, env: Env)
    ensures forall i | 0 <= i < |r.headers| && r.headers[i].name == "Host" ::
              (forall j | 0 <= j < i :: r.headers[j].name != "Host") ==> GetHost(r, env) == Success(r.headers[i].value)
    ensures (forall h <- r.headers :: h.name != "Host") ==>
              GetHost(r, env) ==
                if r.wrapper.NoWrapper? then Failure(UnsupportedRequestClass)
                else if env.uriHost(r.wrapper.originalUri).None? then Failure(NoHost)
                else Success(env.uriHost(r.wrapper.originalUri).value)
  {
    forall i | 0 <= i < |r.headers| && r.headers[i].name == "Host" && forall j | 0 <= j < i :: r.headers[j].name != "Host"
      ensures GetHost(r, env) == Success(r.headers[i].value)
    {
      assert r.headers[i] in r.headers;
      var v := TryGetHeaderValue(r.headers, "Host");
      var k :| 0 <= k < |r.headers| && r.headers[k] == Header("Host", v.value)
               && forall j | 0 <= j < k :: r.headers[j].name != "Host";
      assert k == i;
    }
  }

  /** The command URL: the request-line URI when it is a valid URL; otherwise the URL starts with
      the guessed scheme and `://`, the scheme being `https` exactly when the host ends with
      `:443` or a `RequestWrapper`'s original URI starts with `https`; a `CONNECT` request gets
      no path at all. */
  lemma InferredUriCases(r: Request, env: Env)
    ensures env.isValidUrl(r.uri) ==> InferredUri(r, env) == Success(r.uri)
    ensures !env.isValidUrl(r.uri) && GetHost(r, env).Failure? ==> InferredUri(r, env) == Failure(GetHost(r, env).error)
    ensures !env.isValidUrl(r.uri) && GetHost(r, env).Success? ==>
              var host := GetHost(r, env).value;
              var scheme := InferredScheme(r, host);
              && (scheme == "https" <==> EndsWith(host, ":443") || (r.wrapper.RequestWrapper? && StartsWith(r.wrapper.originalUri, "https")))
              && (scheme == "http" || scheme == "https")
              && InferredUri(r, env).Success?
              && |InferredUri(r, env).value| >= |scheme| + 3
              && InferredUri(r, env).value[..|scheme| + 3] == scheme + "://"
              && (r.httpMethod == "CONNECT" ==> InferredUri(r, env).value == scheme + "://" + host)
  {
    if !env.isValidUrl(r.uri) && GetHost(r, env).Success? {
      var host := GetHost(r, env).value;
      var scheme := InferredScheme(r, host);
      if r.httpMethod != "CONNECT" {
        CollapseKeepsScheme(scheme, host + "/" + r.uri);
        assert scheme + "://" + host + "/" + r.uri == scheme + "://" + (host + "/" + r.uri);
      }
    }
  }

  // ---------------------------------------------------------------------------------------------
  // The disposition map.

  /** An element whose trimmed text has no `=` is a key with an empty value. */
  lemma DispositionEntryKeyOnly(element: string)
    requires '=' !in Trim(element)
    ensures DispositionEntry(element) == Success((Trim(element), ""))
  {
  }

  /** An element is trimmed and split at its one `=`: key before, value after, quotes kept. */
  lemma DispositionEntryKeyValue(element: string, key: string, value: string)
    requires '=' !in key && '=' !in value && value != []
    requires Trim(element) == key + "=" + value
    ensures DispositionEntry(element) == Success((key, value))
  {
    SplitFirstTwo(key, value, [], '=');
    assert key + "=" + value + [] == key + ['='] + value;
  }

  /** An element made of `=` alone splits into no piece at all, and reading its key fails. */
  lemma DispositionEntryEmpty()
    ensures DispositionEntry("=") == Failure(ArrayIndexOutOfBounds)
  {
    assert Trim("=") == "=";
    assert [] + ['='] == "=";
    SplitTrailing([], '=');
  }

  /** A part without a disposition, or whose disposition has no `form-data` entry, fails. */
  lemma FormPartFails(part: BodyPart)
    ensures TryGetHeaderValue(part.fields, "Content-Disposition").None? ==>
              FormPartOf(part) == Failure(MissingContentDisposition)
    ensures DispositionOf(part).Success? && "form-data" !in DispositionOf(part).value ==>
              FormPartOf(part).Failure? && FormPartOf(part).error in {EmptyDisposition, UnsupportedDisposition}
  {
  }

  /** A part converts iff it has a disposition whose entries parse with distinct keys, holding
      `form-data` and `name`, a `filename` or readable content, and a `Content-Type` field. */
  lemma FormPartSucceeds(part: BodyPart)
    ensures FormPartOf(part).Success? <==>
              && DispositionOf(part).Success?
              && "form-data" in DispositionOf(part).value
              && "name" in DispositionOf(part).value
              && ("filename" in DispositionOf(part).value || part.content.PartText?)
              && FieldIgnoringCase(part.fields, "content-type").Some?
  {
  }

  /** A part whose disposition holds `form-data` and `name`, with a `filename` or readable
      content and a `Content-Type` field, is named by the `name` entry without its quotes; its
      content is `@` and the file name without quotes, or the part's own text, followed by
      `;type=` and the part's content type. */
  lemma FormPartValue(part: BodyPart, m: map<string, string>, contentType: string)
    requires DispositionOf(part) == Success(m) && "form-data" in m && "name" in m
    requires "filename" in m || part.content.PartText?
    requires FieldIgnoringCase(part.fields, "content-type") == Some(contentType)
    ensures var body := if "filename" in m then "@" + RemoveQuotes(m["filename"]) else part.content.text;
            FormPartOf(part) == Success(FormPart(RemoveQuotes(m["name"]), body + ";type=" + contentType))
  {
    var body := if "filename" in m then "@" + RemoveQuotes(m["filename"]) else part.content.text;
    assert PartContentOf(m, part) == Success(body);
  }

  /** Without line terminators in the entries, the quotes removed are exactly the outer ones. */
  lemma FormPartQuotes(m: map<string, string>, text: string, contentType: string)
    requires "name" in m && NoLineTerminator(m["name"])
    requires "filename" in m ==> NoLineTerminator(m["filename"])
    ensures RemoveQuotes(m["name"]) == StripQuotes(m["name"])
    ensures "filename" in m ==>
              StartsWith("@" + RemoveQuotes(m["filename"]) + ";type=" + contentType, "@" + StripQuotes(m["filename"]))
  {
    RemoveQuotesPlain(m["name"]);
    if "filename" in m {
      RemoveQuotesPlain(m["filename"]);
      var head := "@" + StripQuotes(m["filename"]);
      assert (head + (";type=" + contentType))[..|head|] == head;
    }
  }

  // ---------------------------------------------------------------------------------------------
  // Credentials.

  lemma {:induction false} NoBasicInToken(token: string)
    requires ' ' !in token
    ensures ReplaceAllLiteral(token, "Basic ", "") == Success(token)
    decreases |token|
  {
    if token != [] {
      if |token| >= 6 {
        assert token[5] in token;
      }
      assert forall c <- token[1..] :: c in token;
      NoBasicInToken(token[1..]);
      assert [token[0]] + token[1..] == token;
    }
  }

  /** For a Base64 token (which has no space) after `Basic `, the decoded text is split on `:`:
      the first field is the user and the second the password; a text with a single field fails. */
  lemma CredentialsOfToken(token: string, env: Env)
    requires ' ' !in token
    ensures var fields := if env.decodeBase64(token).Some? then Split(env.decodeBase64(token).value, ':') else [];
            Credentials(Header("Authorization", "Basic " + token), env) ==
              if env.decodeBase64(token).None? then Failure(InvalidBase64)
              else if |fields| < 2 then Failure(ArrayIndexOutOfBounds)
              else Success(ServerAuthentication(fields[0], fields[1]))
  {
    var s := "Basic " + token;
    assert StartsWith(s, "Basic ");
    assert s[6..] == token;
    NoBasicInToken(token);
    assert ExpandReplacement("", "Basic ") == Success("");
    assert ReplaceAllLiteral(s, "Basic ", "") == Success([] + token);
    assert [] + token == token;
  }

  /** A decoded `user:password` gives that user and password; text after a further `:` is
      dropped, so a password that contains `:` is cut there. */
  lemma CredentialsUserAndPassword(token: string, env: Env, user: string, password: string, rest: string)
    requires ' ' !in token && ':' !in user && ':' !in password && password != [] && (rest == [] || rest[0] == ':')
    requires env.decodeBase64(token) == Some(user + ":" + password + rest)
    ensures Credentials(Header("Authorization", "Basic " + token), env) == Success(ServerAuthentication(user, password))
  {
    CredentialsOfToken(token, env);
    assert user + ":" + password + rest == user + [':'] + password + rest;
    SplitFirstTwo(user, password, rest, ':');
  }

  /** A decoded text ending in its only `:` has no second field once the split drops the trailing
      empty one, so reading the password fails; so does a text without `:`. */
  lemma CredentialsWithoutPassword(token: string, env: Env, user: string)
    requires ' ' !in token && ':' !in user
    requires env.decodeBase64(token) == Some(user + ":") || env.decodeBase64(token) == Some(user)
    ensures Credentials(Header("Authorization", "Basic " + token), env) == Failure(ArrayIndexOutOfBounds)
  {
    CredentialsOfToken(token, env);
    assert user + ":" == user + [':'];
    SplitTrailing(user, ':');
  }
  // ---------------------------------------------------------------------------------------------
  // The command `http2curl` builds.

  /** A header `http2curl` passes on with `-H`: no basic credentials, no cookie, and no name the
      body makes redundant. */
  predicate Forwarded(ignored: set<string>, h: Header)
  {
    !IsBasicAuthentication(h) && h.name != "Cookie" && h.name !in ignored
  }

  function Forward(ignored: set<string>): Header -> bool
  {
    h => Forwarded(ignored, h)
  }

  predicate NotCookie(h: Header)
  {
    h.name != "Cookie"
  }

  predicate Uncredentialed(h: Header)
  {
    !IsBasicAuthentication(h) && h.name != "Cookie"
  }

  predicate IsContentType(h: Header)
  {
    h.name == "Content-Type"
  }

  /** A body sent as `multipart/form…` form parts. */
  predicate FormMultipart(r: Request)
  {
    r.entity.Some? && ContentTypeOf(r).Some? && StartsWith(ContentTypeOf(r).value, "multipart/form")
  }

  /** A body sent as `multipart/mixed…` form parts. */
  predicate MixedMultipart(r: Request)
  {
    r.entity.Some? && ContentTypeOf(r).Some? && !StartsWith(ContentTypeOf(r).value, "multipart/form")
    && StartsWith(ContentTypeOf(r).value, "multipart/mixed")
  }

  /** Once there is a body, `Content-Length` is never passed on; `Content-Type` is dropped for a
      `multipart/form` body only; the header list is the request's own except that a
      `multipart/mixed` body replaces its `Content-Type` by a plain one at the end. */
  lemma EntityHeaders(r: Request)
    requires ClassifyEntity(r).Success?
    ensures var e := ClassifyEntity(r).value;
            && (r.entity.None? ==> Ignored(e) == {})
            && (r.entity.Some? ==> "Content-Length" in Ignored(e))
            && ("Content-Type" in Ignored(e) <==> FormMultipart(r))
            && (forall name <- Ignored(e) :: name == "Content-Length" || name == "Content-Type")
            && (!MixedMultipart(r) ==> e.headers == r.headers)
            && (MixedMultipart(r) ==> e.headers == WithoutName(r.headers, "Content-Type") + [Header("Content-Type", "multipart/mixed")])
  {
  }

  /** The header stages leave the headers the body stage hands on that are passed on. */
  lemma TranslatedHeaders(r: Request, env: Env)
    requires Translate(r, env).Success?
    ensures ClassifyEntity(r).Success?
    ensures Translate(r, env).value.headers == Filter(ClassifyEntity(r).value.headers, Forward(Ignored(ClassifyEntity(r).value)))
  {
    var uri := InferredUri(r, env).value;
    var e := ClassifyEntity(r).value;
    var auth := AuthStage(e.headers, WithMethod(WithBody(uri, r, e), r, e), env).value;
    var cookie := CookieStage(auth.0, auth.1).value;
    var ignored := Ignored(e);
    assert Translate(r, env).value.headers == Filter(cookie.0, KeepHeader(ignored));
    WithoutNameIsFilter(auth.0, "Cookie", NotCookie);
    FilterTwice(e.headers, NotBasicAuthentication, NotCookie, Uncredentialed);
    FilterTwice(e.headers, Uncredentialed, KeepHeader(ignored), Forward(ignored));
  }

  /** The passed-on headers spelled out on the request: its own, in order, except that a
      `multipart/mixed` body puts a plain `Content-Type` at the end instead of the original. */
  lemma ForwardedHeaders(r: Request)
    requires ClassifyEntity(r).Success?
    ensures var ignored := Ignored(ClassifyEntity(r).value);
            var hs := Filter(ClassifyEntity(r).value.headers, Forward(ignored));
            && (!MixedMultipart(r) ==> hs == Filter(r.headers, Forward(ignored)))
            && (MixedMultipart(r) ==>
                  hs == Filter(WithoutName(r.headers, "Content-Type"), Forward(ignored)) + [Header("Content-Type", "multipart/mixed")])
  {
    var ignored := Ignored(ClassifyEntity(r).value);
    EntityHeaders(r);
    if MixedMultipart(r) {
      var contentType := Header("Content-Type", "multipart/mixed");
      FilterConcat(WithoutName(r.headers, "Content-Type"), [contentType], Forward(ignored));
      assert Forwarded(ignored, contentType);
    }
  }

  /** What the passed-on headers never hold. */
  lemma ForwardedExcludes(r: Request, e: EntityOutcome)
    requires ClassifyEntity(r) == Success(e)
    ensures var hs := Filter(e.headers, Forward(Ignored(e)));
            && (forall h <- hs :: !IsBasicAuthentication(h) && h.name != "Cookie")
            && (r.entity.Some? ==> forall h <- hs :: h.name != "Content-Length")
            && (FormMultipart(r) ==> forall h <- hs :: h.name != "Content-Type")
  {
    EntityHeaders(r);
    FilterMembers(e.headers, Forward(Ignored(e)));
  }

  /** A `multipart/mixed` body leaves exactly one `Content-Type`, the plain one. */
  lemma ForwardedMixedContentType(r: Request, e: EntityOutcome)
    requires ClassifyEntity(r) == Success(e) && MixedMultipart(r)
    ensures Filter(Filter(e.headers, Forward(Ignored(e))), IsContentType) == [Header("Content-Type", "multipart/mixed")]
  {
    var ignored := Ignored(e);
    ForwardedHeaders(r);
    var without := WithoutName(r.headers, "Content-Type");
    var contentType := Header("Content-Type", "multipart/mixed");
    var kept := Filter(without, Forward(ignored));
    WithoutNameMembers(r.headers, "Content-Type");
    FilterMembers(without, Forward(ignored));
    FilterNone(kept, IsContentType);
    FilterConcat(kept, [contentType], IsContentType);
    assert Filter([contentType], IsContentType) == [contentType];
  }

  /** Every other header of the request is passed on. */
  lemma ForwardedKeeps(r: Request, e: EntityOutcome)
    requires ClassifyEntity(r) == Success(e)
    ensures var hs := Filter(e.headers, Forward(Ignored(e)));
            forall h <- r.headers ::
              (Uncredentialed(h) && (r.entity.Some? ==> h.name != "Content-Length")
               && !((FormMultipart(r) || MixedMultipart(r)) && h.name == "Content-Type")) ==> h in hs
  {
    var ignored := Ignored(e);
    ForwardedHeaders(r);
    EntityHeaders(r);
    if MixedMultipart(r) {
      var without := WithoutName(r.headers, "Content-Type");
      WithoutNameMembers(r.headers, "Content-Type");
      FilterMembers(without, Forward(ignored));
      FilterConcat(Filter(without, Forward(ignored)), [Header("Content-Type", "multipart/mixed")], Forward(ignored));
    } else {
      FilterMembers(r.headers, Forward(ignored));
    }
  }

  predicate NotContentType(h: Header)
  {
    h.name != "Content-Type"
  }

  /** An entity with a body read as text, sent with `--data` or `--data-binary`. */
  predicate PlainBody(r: Request)
  {
    r.entity.Some? && !FormMultipart(r) && !MixedMultipart(r)
  }

  /** Picking out headers other than `Content-Type` sees the request's own headers, whatever the
      body stage did. */
  lemma EntityKeepsSelection(r: Request, e: EntityOutcome, p: Header -> bool)
    requires ClassifyEntity(r) == Success(e)
    requires !p(Header("Content-Type", "multipart/mixed"))
    requires forall h <- r.headers :: p(h) ==> h.name != "Content-Type"
    ensures Filter(e.headers, p) == Filter(r.headers, p)
  {
    if MixedMultipart(r) {
      WithoutNameIsFilter(r.headers, "Content-Type", NotContentType);
      FilterTwice(r.headers, NotContentType, p, p);
      FilterConcat(WithoutName(r.headers, "Content-Type"), [Header("Content-Type", "multipart/mixed")], p);
    }
  }

  /** The URL, the body, the method and the three fixed flags of the command. */
  lemma TranslateBody(r: Request, env: Env)
    requires Translate(r, env).Success?
    ensures (FormMultipart(r) || MixedMultipart(r)) ==> MultipartParts(r.entity.value).Success?
    ensures PlainBody(r) ==> r.entity.value.text.Some?
    ensures var v := Translate(r, env).value;
            && v.url == Some(InferredUri(r, env).value)
            && v.compressed && v.insecure && v.verbose
            && (r.entity.None? ==> v.formParts == [])
            && ((FormMultipart(r) || MixedMultipart(r)) ==> v.formParts == MultipartParts(r.entity.value).value)
            && (!PlainBody(r) ==>
                  && v.datas == [] && v.datasBinary == []
                  && v.httpMethod == (if r.httpMethod == "GET" then None else Some(r.httpMethod)))
            && (PlainBody(r) ==>
                  && v.formParts == []
                  && v.httpMethod == (if r.httpMethod == "POST" then None else Some(r.httpMethod))
                  && (IsNonBinary(ContentTypeOf(r)) ==> v.datas == [r.entity.value.text.value] && v.datasBinary == [])
                  && (!IsNonBinary(ContentTypeOf(r)) ==> v.datas == [] && v.datasBinary == [r.entity.value.text.value]))
  {
    var uri := InferredUri(r, env).value;
    var e := ClassifyEntity(r).value;
    var v1 := WithMethod(WithBody(uri, r, e), r, e);
    var auth := AuthStage(e.headers, v1, env).value;
    var cookie := CookieStage(auth.0, auth.1).value;
    assert Translate(r, env).value == WithFlags(WithHeaders(cookie.1, cookie.0, Ignored(e)));
    assert cookie.1 == auth.1.(cookieHeader := cookie.1.cookieHeader);
    assert auth.1 == v1.(serverAuthentication := auth.1.serverAuthentication);
  }

  /** The cookie option carries the only `Cookie` header, if there is one. */
  lemma TranslateCookie(r: Request, env: Env)
    requires Translate(r, env).Success?
    ensures var cookies := Filter(r.headers, IsCookie);
            && |cookies| <= 1
            && Translate(r, env).value.cookieHeader == (if cookies == [] then None else Some(cookies[0].value))
  {
    var uri := InferredUri(r, env).value;
    var e := ClassifyEntity(r).value;
    var v1 := WithMethod(WithBody(uri, r, e), r, e);
    var auth := AuthStage(e.headers, v1, env).value;
    var cookie := CookieStage(auth.0, auth.1).value;
    assert Translate(r, env).value.cookieHeader == cookie.1.cookieHeader;
    assert v1.cookieHeader == None;
    var all := MapResult(Filter(e.headers, IsBasicAuthentication), CredentialsIn(env)).value;
    assert auth.1 == WithLastCredentials(v1, all);
    EntityKeepsSelection(r, e, IsCookie);
    FilterTwice(e.headers, NotBasicAuthentication, IsCookie, IsCookie);
  }

  /** The user option carries the credentials of the last basic-authentication header, and every
      such header had readable credentials. */
  lemma TranslateCredentials(r: Request, env: Env)
    requires Translate(r, env).Success?
    ensures var basics := Filter(r.headers, IsBasicAuthentication);
            && (forall h <- basics :: Credentials(h, env).Success?)
            && Translate(r, env).value.serverAuthentication ==
                 (if basics == [] then None else Some(Credentials(basics[|basics| - 1], env).value))
  {
    var uri := InferredUri(r, env).value;
    var e := ClassifyEntity(r).value;
    var v1 := WithMethod(WithBody(uri, r, e), r, e);
    var auth := AuthStage(e.headers, v1, env).value;
    var cookie := CookieStage(auth.0, auth.1).value;
    assert Translate(r, env).value.serverAuthentication == auth.1.serverAuthentication;
    EntityKeepsSelection(r, e, IsBasicAuthentication);
    var basics := Filter(r.headers, IsBasicAuthentication);
    MapResultFails(basics, CredentialsIn(env));
    if basics != [] {
      MapResultAt(basics, CredentialsIn(env), |basics| - 1);
    }
  }

  /** Once the URI and the body are understood, the command is built exactly when every basic
      credential reads and there is at most one cookie; the URI is looked at before the body, and
      the credentials before the cookies. */
  lemma TranslateSucceeds(r: Request, env: Env)
    ensures InferredUri(r, env).Failure? ==> Translate(r, env) == Failure(InferredUri(r, env).error)
    ensures InferredUri(r, env).Success? && ClassifyEntity(r).Failure? ==> Translate(r, env) == Failure(ClassifyEntity(r).error)
    ensures InferredUri(r, env).Success? && ClassifyEntity(r).Success? ==>
              (Translate(r, env).Success? <==>
                 (forall h <- Filter(r.headers, IsBasicAuthentication) :: Credentials(h, env).Success?)
                 && |Filter(r.headers, IsCookie)| <= 1)
    ensures InferredUri(r, env).Success? && ClassifyEntity(r).Success?
            && (forall h <- Filter(r.headers, IsBasicAuthentication) :: Credentials(h, env).Success?)
            && |Filter(r.headers, IsCookie)| > 1
            ==> Translate(r, env) == Failure(MultipleCookieHeaders)
  {
    if InferredUri(r, env).Success? && ClassifyEntity(r).Success? {
      var uri := InferredUri(r, env).value;
      var e := ClassifyEntity(r).value;
      var v1 := WithMethod(WithBody(uri, r, e), r, e);
      EntityKeepsSelection(r, e, IsBasicAuthentication);
      EntityKeepsSelection(r, e, IsCookie);
      FilterTwice(e.headers, NotBasicAuthentication, IsCookie, IsCookie);
      MapResultFails(Filter(r.headers, IsBasicAuthentication), CredentialsIn(env));
    }
  }

  /** `generateCurl` throws what the translation throws; without an updater it otherwise throws
      exactly when some text of the translated command cannot be escaped for the platform. */
  lemma GeneratedCurlOutcome(settings: Settings, r: Request, env: Env, host: HostEnvironment)
    ensures Translate(r, env).Failure? ==> GeneratedCurl(settings, r, env, host) == Failure(Translate(r, env).error)
    ensures settings.curlUpdater.None? && Translate(r, env).Success? ==>
              var ser := Serializer(settings.targetPlatform, host, settings.useShortForm, settings.printMultiliner);
              (GeneratedCurl(settings, r, env, host).Success? <==> AllEscapable(ser, Translate(r, env).value))
  {
    if Translate(r, env).Success? {
      SerializeSucceeds(Serializer(settings.targetPlatform, host, settings.useShortForm, settings.printMultiliner), Translate(r, env).value);
    }
  }
}
