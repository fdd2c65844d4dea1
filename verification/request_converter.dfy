/** `RequestConverter::convert`: the native server request (loosely typed PHP
    arrays plus a raw-body accessor) mapped to an immutable standard server request. */
module RequestConverter {
  import opened Wrappers
  import opened PhpArrays
  import opened Psr7

  /** One native uploaded-file descriptor (`$_FILES` style). */
  datatype NativeFile = NativeFile(name: string, fileType: string, tmpName: string, error: int, size: int)

  /** The server variables of a native request. The native server always fills
      `request_method` with the method string of the request line. */
  type ServerVars = s: PhpArray<PhpScalar> | MethodIsString(s) witness []

  /** `request_method`, when set, is a string. */
  predicate MethodIsString(s: seq<(string, PhpScalar)>) {
    Lookup(s, "request_method").Some? ==> Lookup(s, "request_method").value.Str?
  }

  /** `$server[$key] ?? $default` where the result is used as a string: the
      variable converted to a string, or the default when it is not set. */
  function ServerString(server: PhpArray<PhpScalar>, key: string, default: string): (r: string)
    ensures Lookup(server, key).None? ==> r == default
    ensures Lookup(server, key).Some? ==> r == ToPhpString(Lookup(server, key).value)
  {
    match Lookup(server, key)
    case Some(v) => ToPhpString(v)
    case None => default
  }

  /** The fields of the native request the converter reads. The optional arrays are
      `null` when the server did not fill them; `rawContent == None` is the
      accessor returning `false`. */
  datatype NativeRequest = NativeRequest(
    server: ServerVars,
    header: Option<PhpArray<string>>,
    cookie: Option<PhpArray<string>>,
    get: Option<PhpArray<Param>>,
    post: Option<PhpArray<Param>>,
    files: Option<PhpArray<NativeFile>>,
    rawContent: Option<string>)

  /** The request target handed to the URI factory: request URI (default `/`),
      followed by `?` and the query string when one is set. */
  function RequestTarget(server: PhpArray<PhpScalar>): (t: string)
    ensures ServerString(server, "request_uri", "/") <= t
    ensures Lookup(server, "query_string").None? ==> t == ServerString(server, "request_uri", "/")
    ensures Lookup(server, "query_string").Some? ==>
              var p := ServerString(server, "request_uri", "/");
              var q := ToPhpString(Lookup(server, "query_string").value);
              && |t| == |p| + 1 + |q|
              && t[|p|] == '?'
              && t[|p| + 1..] == q
  {
    ServerString(server, "request_uri", "/")
      + (match Lookup(server, "query_string")
         case Some(q) => "?" + ToPhpString(q)
         case None => "")
  }

  /** The scheme heuristic: `https` exactly when the `https` server variable is
      the string `on`. The comparison is strict, so `true` or `1` gives `http`. */
  function Scheme(server: PhpArray<PhpScalar>): (s: string)
    ensures s == "https" <==> Lookup(server, "https") == Some(Str("on"))
    ensures s == "http" || s == "https"
  {
    if Lookup(server, "https") == Some(Str("on")) then "https" else "http"
  }

  /** The `foreach ($header as $name => $value) withHeader($name, $value)` loop. */
  function ApplyHeaders(hs: HeaderList, native: seq<(string, string)>): (r: HeaderList)
    ensures |r| <= |hs| + |native|
    ensures forall k :: 0 <= k < |r| ==>
              r[k] in hs || exists i :: 0 <= i < |native| && r[k] == (native[i].0, [native[i].1])
    decreases |native|
  {
    if native == [] then hs
    else
      var next := WithHeader(hs, native[0].0, [native[0].1]);
      var r := ApplyHeaders(next, native[1..]);
      assert forall i :: 0 <= i < |native[1..]| ==> native[1..][i] == native[i + 1];
      assert forall e :: e in next ==> e in hs || e == (native[0].0, [native[0].1]);
      r
  }

  /** Reference definition: the value of the last native header whose name equals
      `name` up to case, if any. */
  function LastValue(native: seq<(string, string)>, name: string): (r: Option<string>)
    ensures r.None? <==> forall i :: 0 <= i < |native| ==> !SameName(native[i].0, name)
  {
    if native == [] then None
    else
      var later := LastValue(native[1..], name);
      assert forall i :: 1 <= i < |native| ==> native[i] == native[1..][i - 1];
      if later.Some? then later
      else if SameName(native[0].0, name) then Some(native[0].1)
      else None
  }

  /** The URI: parsed from the request target, host replaced by the `host` header
      when one was sent, scheme from the heuristic. */
  function RequestUri(server: PhpArray<PhpScalar>, header: PhpArray<string>): (u: Uri)
    ensures u.path == CreateUri(RequestTarget(server)).path
    ensures u.query == CreateUri(RequestTarget(server)).query
    ensures u.fragment == CreateUri(RequestTarget(server)).fragment
    ensures Lookup(header, "host").Some? ==> u.host == Lookup(header, "host").value
    ensures Lookup(header, "host").None? ==> u.host == ""
    ensures u.scheme == Scheme(server)
  {
    var uri := CreateUri(RequestTarget(server));
    var uri := match Lookup(header, "host")
               case Some(h) => uri.(host := h)
               case None => uri;
    uri.(scheme := Scheme(server))
  }

  /** The native request as a standard server request. */
  function Convert(n: NativeRequest): (r: ServerRequest)
    ensures Lookup(n.server, "request_method") == None ==> r.httpMethod == "GET"
    ensures Lookup(n.server, "request_method").Some? ==> r.httpMethod == Lookup(n.server, "request_method").value.s
    ensures r.uri.scheme == "https" <==> Lookup(n.server, "https") == Some(Str("on"))
    ensures r.uri.scheme == "http" || r.uri.scheme == "https"
    ensures Lookup(n.header.GetOr([]), "host").Some? ==> r.uri.host == Lookup(n.header.GetOr([]), "host").value
    ensures Lookup(n.header.GetOr([]), "host").None? ==> r.uri.host == ""
    ensures r.serverParams == n.server
    ensures n.cookie.Some? ==> r.cookieParams == n.cookie.value
    ensures n.cookie.None? ==> r.cookieParams == []
    ensures n.get.Some? ==> r.queryParams == n.get.value
    ensures n.get.None? ==> r.queryParams == []
    ensures n.post.Some? ==> r.parsedBody == n.post.value
    ensures n.post.None? ==> r.parsedBody == []
    ensures r.uploadedFiles == []
    ensures r.body.Some? <==> n.rawContent.Some? && n.rawContent.value != ""
    ensures r.body.Some? ==> r.body == n.rawContent
  {
    var header := n.header.GetOr([]);
    var httpMethod := match Lookup(n.server, "request_method")
                      case Some(m) => m.s
                      case None => "GET";
    var uri := RequestUri(n.server, header);
    var headers := ApplyHeaders([], header);
    // The uploaded files are read by the source but never attached.
    var body := match n.rawContent
                case Some(c) => if c != "" then Some(c) else None
                case None => None;
    ServerRequest(httpMethod, uri, n.server, headers, n.cookie.GetOr([]), n.get.GetOr([]),
                  n.post.GetOr([]), [], body)
  }

  // ------------------------------------------------------------------ headers

  /** After the header loop, `getHeader(name)` is the one-element list holding the
      last native value for `name` (up to case), or what it was before the loop. */
  lemma {:induction false} ApplyHeadersGet(hs: HeaderList, native: seq<(string, string)>, name: string)
    ensures GetHeader(ApplyHeaders(hs, native), name)
         == match LastValue(native, name)
            case Some(v) => [v]
            case None => GetHeader(hs, name)
    decreases |native|
  {
    if native != [] {
      var hs' := WithHeader(hs, native[0].0, [native[0].1]);
      ApplyHeadersGet(hs', native[1..], name);
      GetHeaderWithHeader(hs, native[0].0, [native[0].1], name);
    }
  }

  /** The header loop keeps header names pairwise distinct. */
  lemma {:induction false} ApplyHeadersUnique(hs: HeaderList, native: seq<(string, string)>)
    requires UniqueNames(hs)
    ensures UniqueNames(ApplyHeaders(hs, native))
    decreases |native|
  {
    if native != [] {
      WithHeaderUnique(hs, native[0].0, [native[0].1]);
      ApplyHeadersUnique(WithHeader(hs, native[0].0, [native[0].1]), native[1..]);
    }
  }

  /** `LastValue` finds the entry at `i` when no later entry has the same name. */
  lemma {:induction false} LastValueAt(native: seq<(string, string)>, i: int)
    requires 0 <= i < |native|
    requires forall j :: i < j < |native| ==> !SameName(native[j].0, native[i].0)
    ensures LastValue(native, native[i].0) == Some(native[i].1)
  {
    if i == 0 {
      assert forall j :: 0 <= j < |native[1..]| ==> native[1..][j] == native[j + 1];
    } else {
      assert native[1..][i - 1] == native[i];
      LastValueAt(native[1..], i - 1);
    }
  }

  /** Every native header whose name is not repeated later (up to case) reads back
      as exactly its one value: replacement, never append. */
  lemma ConvertHeaderValue(n: NativeRequest, i: int)
    requires n.header.Some? && 0 <= i < |n.header.value|
    requires forall j :: i < j < |n.header.value| ==> !SameName(n.header.value[j].0, n.header.value[i].0)
    ensures GetHeader(Convert(n).headers, n.header.value[i].0) == [n.header.value[i].1]
  {
    ApplyHeadersGet([], n.header.value, n.header.value[i].0);
    LastValueAt(n.header.value, i);
  }

  /** With the lower-case names the native server supplies, every native header
      reads back as exactly its value. */
  lemma ConvertLowercaseHeaders(n: NativeRequest)
    requires n.header.Some?
    requires forall i :: 0 <= i < |n.header.value| ==> Lower(n.header.value[i].0) == n.header.value[i].0
    ensures forall i :: 0 <= i < |n.header.value| ==>
              GetHeader(Convert(n).headers, n.header.value[i].0) == [n.header.value[i].1]
  {
    var h := n.header.value;
    forall i | 0 <= i < |h|
      ensures GetHeader(Convert(n).headers, h[i].0) == [h[i].1]
    {
      forall j | i < j < |h|
        ensures !SameName(h[j].0, h[i].0)
      {
        assert h[j].0 != h[i].0;
      }
      ConvertHeaderValue(n, i);
    }
  }

  /** Every header of the converted request has at most one value, its names are
      distinct, and a name has a value only if the native request sent it. */
  lemma ConvertHeaderShape(n: NativeRequest, name: string)
    ensures UniqueNames(Convert(n).headers)
    ensures |GetHeader(Convert(n).headers, name)| <= 1
    ensures GetHeader(Convert(n).headers, name) != [] <==>
              exists i :: 0 <= i < |n.header.GetOr([])| && SameName(n.header.GetOr([])[i].0, name)
  {
    ApplyHeadersUnique([], n.header.GetOr([]));
    ApplyHeadersGet([], n.header.GetOr([]), name);
  }

  // ---------------------------------------------------------------------- URI

  /** When the request URI carries no `?` or `#` and the query string no `#`, the
      URI path is the request URI (default `/`) and the URI query is the literal
      query string (empty when absent). */
  lemma ConvertUriPathQuery(n: NativeRequest)
    requires '?' !in ServerString(n.server, "request_uri", "/")
    requires '#' !in ServerString(n.server, "request_uri", "/")
    requires '#' !in ServerString(n.server, "query_string", "")
    ensures Convert(n).uri.path == ServerString(n.server, "request_uri", "/")
    ensures Convert(n).uri.query == ServerString(n.server, "query_string", "")
    ensures Convert(n).uri.fragment == ""
  {
    var p := ServerString(n.server, "request_uri", "/");
    match Lookup(n.server, "query_string")
    case Some(v) =>
      var q := ToPhpString(v);
      assert RequestTarget(n.server) == p + "?" + q;
      CreateUriWithQuery(p, q);
    case None =>
      assert RequestTarget(n.server) == p;
      CreateUriPathOnly(p);
  }

  /** The native request of the source's own converter test: GET /test?param=value
      with a host header, a JSON content type and a JSON body. */
  function TestNativeRequest(): NativeRequest {
    NativeRequest(
      [("request_method", Str("GET")), ("request_uri", Str("/test")), ("query_string", Str("param=value")),
       ("protocol_version", Str("HTTP/1.1"))],
      Some([("host", "example.com"), ("content-type", "application/json")]),
      Some([]), Some([("param", Scalar("value"))]), Some([]), Some([]),
      Some("{\"foo\":\"bar\"}"))
  }

  /** What that test asserts of the converted request: method, scheme, host,
      query parameters and body. */
  lemma ConvertTestRequest()
    ensures Convert(TestNativeRequest()).httpMethod == "GET"
    ensures Convert(TestNativeRequest()).uri.scheme == "http"
    ensures Convert(TestNativeRequest()).uri.host == "example.com"
    ensures Convert(TestNativeRequest()).queryParams == [("param", Scalar("value"))]
    ensures Convert(TestNativeRequest()).body == Some("{\"foo\":\"bar\"}")
  {
    var n := TestNativeRequest();
    LookupEntry(n.server, 0);
    LookupEntry(n.header.value, 0);
    assert Lookup(n.server, "https") == None;
  }

  /** The same test's URI path and query. */
  lemma ConvertTestRequestUri()
    ensures Convert(TestNativeRequest()).uri.path == "/test"
    ensures Convert(TestNativeRequest()).uri.query == "param=value"
  {
    var n := TestNativeRequest();
    LookupEntry(n.server, 1);
    LookupEntry(n.server, 2);
    ConvertUriPathQuery(n);
  }

  /** The same test's content type header. */
  lemma ConvertTestRequestHeader()
    ensures GetHeader(Convert(TestNativeRequest()).headers, "content-type") == ["application/json"]
  {
    var n := TestNativeRequest();
    assert n.header.value[1].0 == "content-type";
    ConvertHeaderValue(n, 1);
  }

  /** A server array typed as the native server fills it: integer port and time,
      a float time, and an `https` variable that is `true` rather than `on`. */
  function TypedNativeRequest(): NativeRequest {
    NativeRequest(
      [("request_method", Str("POST")), ("request_uri", Str("/api")), ("server_port", Int(9501)),
       ("request_time", Int(1760000000)), ("request_time_float", Float("1760000000.25")),
       ("https", Bool(true))],
      None, None, None, None, None, None)
  }

  /** Such a request converts with its server variables intact; the strict
      comparison leaves the scheme `http`. */
  lemma ConvertTypedServer()
    ensures Convert(TypedNativeRequest()).serverParams == TypedNativeRequest().server
    ensures Convert(TypedNativeRequest()).httpMethod == "POST"
    ensures Convert(TypedNativeRequest()).uri.scheme == "http"
    ensures Convert(TypedNativeRequest()).uri.path == "/api"
  {
    var n := TypedNativeRequest();
    LookupEntry(n.server, 0);
    LookupEntry(n.server, 1);
    LookupEntry(n.server, 5);
    assert Lookup(n.server, "query_string") == None;
    ConvertUriPathQuery(n);
  }
}
