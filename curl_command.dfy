/** The command model (`CurlCommand.java`): an ordered, mutable description of one curl
    invocation that the translator fills in and the serializer renders. */
module Command {
  import opened Wrappers
  import opened Seqs

  datatype Header = Header(name: string, value: string)

  datatype FormPart = FormPart(name: string, content: string)

  datatype ServerAuthentication = ServerAuthentication(user: string, password: string)

  /** All fields of a command at one moment. `url` is `None` until `setUrl` is called (Java
      leaves the field `null`); `httpMethod` is the field Java calls `method`. */
  datatype CommandView = CommandView(
    url: Option<string>,
    headers: seq<Header>,
    formParts: seq<FormPart>,
    datas: seq<string>,
    datasBinary: seq<string>,
    cookieHeader: Option<string>,
    compressed: bool,
    verbose: bool,
    insecure: bool,
    httpMethod: Option<string>,
    serverAuthentication: Option<ServerAuthentication>)

  /** A freshly constructed command. */
  const EmptyCommand := CommandView(None, [], [], [], [], None, false, false, false, None, None)

  /** The headers not named `name`, in their original order. */
  function WithoutName(headers: seq<Header>, name: string): seq<Header>
  {
    Filter(headers, (h: Header) => h.name != name)
  }

  /** One call of a public builder method. A `Consumer<CurlCommand>` given to `updateCurl` is
      modelled by the sequence of builder calls it makes on the command. */
  datatype BuilderCall =
    | SetUrlCall(url: string)
    | AddHeaderCall(name: string, value: string)
    | RemoveHeaderCall(name: string)
    | AddFormPartCall(name: string, content: string)
    | AddDataCall(data: string)
    | AddDataBinaryCall(dataBinary: string)
    | SetCookieHeaderCall(cookieHeader: string)
    | SetCompressedCall(compressed: bool)
    | SetVerboseCall(verbose: bool)
    | SetInsecureCall(insecure: bool)
    | SetMethodCall(httpMethod: string)
    | SetServerAuthenticationCall(user: string, password: string)

  /** The command after one builder call. */
  function AfterCall(v: CommandView, call: BuilderCall): CommandView
  {
    match call
    case SetUrlCall(url) => v.(url := Some(url))
    case AddHeaderCall(name, value) => v.(headers := v.headers + [Header(name, value)])
    case RemoveHeaderCall(name) => v.(headers := WithoutName(v.headers, name))
    case AddFormPartCall(name, content) => v.(formParts := v.formParts + [FormPart(name, content)])
    case AddDataCall(data) => v.(datas := v.datas + [data])
    case AddDataBinaryCall(data) => v.(datasBinary := v.datasBinary + [data])
    case SetCookieHeaderCall(cookie) => v.(cookieHeader := Some(cookie))
    case SetCompressedCall(b) => v.(compressed := b)
    case SetVerboseCall(b) => v.(verbose := b)
    case SetInsecureCall(b) => v.(insecure := b)
    case SetMethodCall(m) => v.(httpMethod := Some(m))
    case SetServerAuthenticationCall(user, password) => v.(serverAuthentication := Some(ServerAuthentication(user, password)))
  }

  /** The command after a sequence of builder calls, made in order. */
  function AfterCalls(v: CommandView, calls: seq<BuilderCall>): CommandView
  {
    if calls == [] then v else AfterCall(AfterCalls(v, calls[..|calls| - 1]), calls[|calls| - 1])
  }

  class CurlCommand {
    var url: Option<string>
    var headers: seq<Header>
    var formParts: seq<FormPart>
    var datas: seq<string>
    var datasBinary: seq<string>
    var cookieHeader: Option<string>
    var compressed: bool
    var verbose: bool
    var insecure: bool
    var httpMethod: Option<string>
    var serverAuthentication: Option<ServerAuthentication>

    function View(): CommandView
      reads this
    {
      CommandView(url, headers, formParts, datas, datasBinary, cookieHeader,
                  compressed, verbose, insecure, httpMethod, serverAuthentication)
    }

    constructor ()
      ensures View() == EmptyCommand
    {
      url, headers, formParts, datas, datasBinary := None, [], [], [], [];
      cookieHeader, compressed, verbose, insecure := None, false, false, false;
      httpMethod, serverAuthentication := None, None;
    }

    method SetUrl(url: string) returns (r: CurlCommand)
      modifies this
      ensures View() == old(View()).(url := Some(url))
      ensures r == this
    {
      this.url := Some(url);
      r := this;
    }

    method AddHeader(name: string, value: string) returns (r: CurlCommand)
      modifies this
      ensures View() == old(View()).(headers := old(headers) + [Header(name, value)])
      ensures r == this
    {
      headers := headers + [Header(name, value)];
      r := this;
    }

    /** Walks the header list with an iterator and removes, in place, each header whose name
        equals `name`. */
    method RemoveHeader(name: string) returns (r: CurlCommand)
      modifies this
      ensures View() == old(View()).(headers := WithoutName(old(headers), name))
      ensures r == this
    {
      ghost var k := 0;  // how many of the original headers the iterator has passed
      var i := 0;
      while i < |headers|
        invariant 0 <= i <= |headers| && 0 <= k <= |old(headers)|
        invariant headers[..i] == WithoutName(old(headers)[..k], name)
        invariant headers[i..] == old(headers)[k..]
        invariant View() == old(View()).(headers := headers)
        decreases |headers| - i
      {
        assert old(headers)[..k + 1][..k] == old(headers)[..k];
        assert headers[i] == old(headers)[k];
        if headers[i].name == name {
          headers := headers[..i] + headers[i + 1..];
        } else {
          i := i + 1;
        }
        k := k + 1;
      }
      assert old(headers)[..k] == old(headers);
      r := this;
    }

    method AddFormPart(name: string, content: string) returns (r: CurlCommand)
      modifies this
      ensures View() == old(View()).(formParts := old(formParts) + [FormPart(name, content)])
      ensures r == this
    {
      formParts := formParts + [FormPart(name, content)];
      r := this;
    }

    method AddData(data: string) returns (r: CurlCommand)
      modifies this
      ensures View() == old(View()).(datas := old(datas) + [data])
      ensures r == this
    {
      datas := datas + [data];
      r := this;
    }

    method AddDataBinary(dataBinary: string) returns (r: CurlCommand)
      modifies this
      ensures View() == old(View()).(datasBinary := old(datasBinary) + [dataBinary])
      ensures r == this
    {
      datasBinary := datasBinary + [dataBinary];
      r := this;
    }

    method SetCookieHeader(cookieHeader: string) returns (r: CurlCommand)
      modifies this
      ensures View() == old(View()).(cookieHeader := Some(cookieHeader))
      ensures r == this
    {
      this.cookieHeader := Some(cookieHeader);
      r := this;
    }

    method SetCompressed(compressed: bool) returns (r: CurlCommand)
      modifies this
      ensures View() == old(View()).(compressed := compressed)
      ensures r == this
    {
      this.compressed := compressed;
      r := this;
    }

    method SetVerbose(verbose: bool) returns (r: CurlCommand)
      modifies this
      ensures View() == old(View()).(verbose := verbose)
      ensures r == this
    {
      this.verbose := verbose;
      r := this;
    }

    method SetInsecure(insecure: bool) returns (r: CurlCommand)
      modifies this
      ensures View() == old(View()).(insecure := insecure)
      ensures r == this
    {
      this.insecure := insecure;
      r := this;
    }

    method SetMethod(m: string) returns (r: CurlCommand)
      modifies this
      ensures View() == old(View()).(httpMethod := Some(m))
      ensures r == this
    {
      httpMethod := Some(m);
      r := this;
    }

    method SetServerAuthentication(user: string, password: string) returns (r: CurlCommand)
      modifies this
      ensures View() == old(View()).(serverAuthentication := Some(ServerAuthentication(user, password)))
      ensures r == this
    {
      serverAuthentication := Some(ServerAuthentication(user, password));
      r := this;
    }

    /** Makes one builder call. */
    method Perform(call: BuilderCall)
      modifies this
      ensures View() == AfterCall(old(View()), call)
    {
      match call
      case SetUrlCall(url) => var _ := SetUrl(url);
      case AddHeaderCall(name, value) => var _ := AddHeader(name, value);
      case RemoveHeaderCall(name) => var _ := RemoveHeader(name);
      case AddFormPartCall(name, content) => var _ := AddFormPart(name, content);
      case AddDataCall(data) => var _ := AddData(data);
      case AddDataBinaryCall(data) => var _ := AddDataBinary(data);
      case SetCookieHeaderCall(cookie) => var _ := SetCookieHeader(cookie);
      case SetCompressedCall(b) => var _ := SetCompressed(b);
      case SetVerboseCall(b) => var _ := SetVerbose(b);
      case SetInsecureCall(b) => var _ := SetInsecure(b);
      case SetMethodCall(m) => var _ := SetMethod(m);
      case SetServerAuthenticationCall(user, password) => var _ := SetServerAuthentication(user, password);
    }

    /** Runs an updater: its builder calls, in order, on this command. */
    method PerformAll(calls: seq<BuilderCall>)
      modifies this
      ensures View() == AfterCalls(old(View()), calls)
    {
      for i := 0 to |calls|
        invariant View() == AfterCalls(old(View()), calls[..i])
      {
        assert calls[..i + 1][..i] == calls[..i];
        Perform(calls[i]);
      }
      assert calls[..|calls|] == calls;
    }
  }

  // ---------------------------------------------------------------------------------------------
  // What `removeHeader` does to the header list.

  /** After removal no header carries the name, and a header survives exactly when it was there
      and has another name. */
  lemma WithoutNameMembers(headers: seq<Header>, name: string)
    ensures forall h <- WithoutName(headers, name) :: h in headers && h.name != name
    ensures forall h <- headers :: h.name != name ==> h in WithoutName(headers, name)
  {
    FilterMembers(headers, (h: Header) => h.name != name);
  }

  /** Removal keeps the surviving headers in their original order: it works piecewise on any
      split of the list. */
  lemma WithoutNameOrder(a: seq<Header>, b: seq<Header>, name: string)
    ensures WithoutName(a + b, name) == WithoutName(a, name) + WithoutName(b, name)
  {
    FilterConcat(a, b, (h: Header) => h.name != name);
  }

  /** A list with no header of that name is left as it is, and removing twice is removing once. */
  lemma WithoutNameStable(headers: seq<Header>, name: string)
    ensures (forall h <- headers :: h.name != name) ==> WithoutName(headers, name) == headers
    ensures WithoutName(WithoutName(headers, name), name) == WithoutName(headers, name)
  {
    if forall h <- headers :: h.name != name {
      FilterKeepsAll(headers, (h: Header) => h.name != name);
    }
    FilterIdempotent(headers, (h: Header) => h.name != name);
  }

  /** Removal is filtering with any predicate that rejects exactly that name. */
  lemma WithoutNameIsFilter(headers: seq<Header>, name: string, keep: Header -> bool)
    requires forall h <- headers :: keep(h) == (h.name != name)
    ensures WithoutName(headers, name) == Filter(headers, keep)
  {
    FilterSame(headers, (h: Header) => h.name != name, keep);
  }

  /** Running two updaters one after the other is running their calls concatenated. */
  lemma {:induction false} AfterCallsConcat(v: CommandView, a: seq<BuilderCall>, b: seq<BuilderCall>)
    ensures AfterCalls(v, a + b) == AfterCalls(AfterCalls(v, a), b)
  {
    if b != [] {
      assert (a + b)[..|a + b| - 1] == a + b[..|b| - 1];
      AfterCallsConcat(v, a, b[..|b| - 1]);
    } else {
      assert a + b == a;
    }
  }

  /** Only `setUrl` and `removeHeader` touch the url and the header list in other ways than
      appending: calls that neither set the url nor add or remove headers leave both alone. */
  lemma {:induction false} AfterCallsKeepsHeaders(v: CommandView, calls: seq<BuilderCall>)
    requires forall i | 0 <= i < |calls| :: !calls[i].SetUrlCall? && !calls[i].AddHeaderCall? && !calls[i].RemoveHeaderCall?
    ensures AfterCalls(v, calls).url == v.url && AfterCalls(v, calls).headers == v.headers
  {
    if calls != [] {
      AfterCallsKeepsHeaders(v, calls[..|calls| - 1]);
    }
  }

  /** A client of the builder: list fields grow at the end, setters overwrite (the last write
      wins), and removing a header leaves the other fields alone. */
  method BuilderClient() returns (v: CommandView)
    ensures v.url == Some("http://b") && v.cookieHeader == Some("c=2")
    ensures v.headers == [Header("Accept", "*/*")]
    ensures v.datas == ["x", "y"] && v.datasBinary == [] && v.formParts == []
  {
    var curl := new CurlCommand();
    var chained := curl.SetUrl("http://a");
    var _ := chained.AddHeader("Host", "a");
    var _ := curl.AddHeader("Accept", "*/*");
    var _ := curl.SetCookieHeader("c=1");
    var _ := curl.AddData("x");
    var _ := curl.SetUrl("http://b");
    var _ := curl.AddHeader("Host", "b");
    var _ := curl.SetCookieHeader("c=2");
    var _ := curl.AddData("y");
    var ha, acc, hb := Header("Host", "a"), Header("Accept", "*/*"), Header("Host", "b");
    assert curl.headers == [ha] + [acc] + [hb];
    var _ := curl.RemoveHeader("Host");
    WithoutNameOrder([ha] + [acc], [hb], "Host");
    WithoutNameOrder([ha], [acc], "Host");
    assert WithoutName([ha], "Host") == [] by { assert [ha][..0] == []; }
    assert WithoutName([acc], "Host") == [acc] by { assert [acc][..0] == []; }
    assert WithoutName([hb], "Host") == [] by { assert [hb][..0] == []; }
    v := curl.View();
  }
}
