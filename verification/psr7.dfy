/** The immutable standard HTTP message values (PSR-7) the adapter produces and
    consumes. The message library's own internals are not part of this model; only
    the behaviour the adapter relies on is given here: case-insensitive header
    replacement, a URI split into path, query and fragment, and a stream with a
    cursor. */
module Psr7 {
  import opened Wrappers
  import opened PhpArrays

  // ---------------------------------------------------------------- header names

  /** ASCII lower-casing of one character, as PHP `strtolower` does it. */
  function LowerChar(c: char): char {
    if 'A' <= c <= 'Z' then (c as int + 32) as char else c
  }

  /** ASCII lower-casing of a header name. */
  function Lower(s: string): (r: string)
    ensures |r| == |s|
    ensures forall i :: 0 <= i < |s| ==> r[i] == LowerChar(s[i])
  {
    seq(|s|, i requires 0 <= i < |s| => LowerChar(s[i]))
  }

  /** Header names compare case-insensitively. */
  predicate SameName(a: string, b: string) {
    Lower(a) == Lower(b)
  }

  /** A header map: name -> ordered list of values, in insertion order. */
  type HeaderList = seq<(string, seq<string>)>

  /** No two entries carry the same name up to case. */
  predicate UniqueNames(hs: HeaderList) {
    forall i, j :: 0 <= i < j < |hs| ==> !SameName(hs[i].0, hs[j].0)
  }

  /** `getHeader($name)`: the values of the entry named `name` up to case, or `[]`. */
  function GetHeader(hs: HeaderList, name: string): (vs: seq<string>)
    ensures (forall i :: 0 <= i < |hs| ==> !SameName(hs[i].0, name)) ==> vs == []
    ensures vs != [] ==> exists i :: 0 <= i < |hs| && SameName(hs[i].0, name) && hs[i].1 == vs
  {
    if hs == [] then []
    else if SameName(hs[0].0, name) then hs[0].1
    else
      var vs := GetHeader(hs[1..], name);
      assert forall i :: 1 <= i < |hs| ==> hs[i] == hs[1..][i - 1];
      vs
  }

  /** The entries of `hs` whose name differs from `name` up to case, in order. */
  function WithoutHeader(hs: HeaderList, name: string): (r: HeaderList)
    ensures |r| <= |hs|
    ensures forall i :: 0 <= i < |r| ==> !SameName(r[i].0, name)
    ensures forall i :: 0 <= i < |r| ==> r[i] in hs
    ensures forall i :: 0 <= i < |hs| && !SameName(hs[i].0, name) ==> hs[i] in r
  {
    if hs == [] then []
    else
      var rest := WithoutHeader(hs[1..], name);
      assert forall i :: 1 <= i < |hs| ==> hs[i] == hs[1..][i - 1];
      if SameName(hs[0].0, name) then rest else [hs[0]] + rest
  }

  /** `withHeader($name, $values)`: every entry with the same name up to case is
      dropped and the new entry is appended, so the header ends up with exactly
      the given values. */
  function WithHeader(hs: HeaderList, name: string, values: seq<string>): HeaderList {
    WithoutHeader(hs, name) + [(name, values)]
  }

  lemma {:induction false} GetHeaderAppend(hs: HeaderList, e: (string, seq<string>), name: string)
    ensures GetHeader(hs + [e], name)
         == if exists i :: 0 <= i < |hs| && SameName(hs[i].0, name) then GetHeader(hs, name)
            else if SameName(e.0, name) then e.1 else []
  {
    if hs == [] {
      assert [e][1..] == [];
    } else {
      assert (hs + [e])[1..] == hs[1..] + [e];
      assert forall i :: 1 <= i < |hs| ==> hs[i] == hs[1..][i - 1];
      assert forall i :: 0 <= i < |hs[1..]| ==> hs[1..][i] == hs[i + 1];
      GetHeaderAppend(hs[1..], e, name);
    }
  }

  /** Removing entries whose name does not match `name` does not change `getHeader(name)`. */
  lemma {:induction false} GetHeaderWithout(hs: HeaderList, other: string, name: string)
    requires !SameName(other, name)
    ensures GetHeader(WithoutHeader(hs, other), name) == GetHeader(hs, name)
  {
    if hs != [] {
      GetHeaderWithout(hs[1..], other, name);
    }
  }

  /** After `withHeader(n, vs)`, `getHeader(m)` is `vs` when `m` names the same
      header and is unchanged otherwise. */
  lemma GetHeaderWithHeader(hs: HeaderList, n: string, vs: seq<string>, m: string)
    ensures GetHeader(WithHeader(hs, n, vs), m) == if SameName(n, m) then vs else GetHeader(hs, m)
  {
    var w := WithoutHeader(hs, n);
    GetHeaderAppend(w, (n, vs), m);
    if SameName(n, m) {
      assert forall i :: 0 <= i < |w| ==> !SameName(w[i].0, m);
    } else {
      GetHeaderWithout(hs, n, m);
      if !exists i :: 0 <= i < |w| && SameName(w[i].0, m) {
        assert GetHeader(w, m) == [];
      }
    }
  }

  /** `withHeader` keeps the names of a header map pairwise distinct. */
  lemma WithHeaderUnique(hs: HeaderList, n: string, vs: seq<string>)
    requires UniqueNames(hs)
    ensures UniqueNames(WithHeader(hs, n, vs))
  {
    var w := WithoutHeader(hs, n);
    WithoutHeaderUnique(hs, n);
    var r := w + [(n, vs)];
    forall i, j | 0 <= i < j < |r|
      ensures !SameName(r[i].0, r[j].0)
    {
      if j == |r| - 1 {
        assert r[i] == w[i];
      } else {
        assert r[i] == w[i] && r[j] == w[j];
      }
    }
  }

  lemma {:induction false} WithoutHeaderUnique(hs: HeaderList, n: string)
    requires UniqueNames(hs)
    ensures UniqueNames(WithoutHeader(hs, n))
  {
    if hs != [] {
      assert forall i :: 1 <= i < |hs| ==> hs[i] == hs[1..][i - 1];
      assert UniqueNames(hs[1..]);
      WithoutHeaderUnique(hs[1..], n);
      var rest := WithoutHeader(hs[1..], n);
      if !SameName(hs[0].0, n) {
        var r := [hs[0]] + rest;
        forall i, j | 0 <= i < j < |r|
          ensures !SameName(r[i].0, r[j].0)
        {
          if i == 0 {
            assert r[j] == rest[j - 1];
            assert rest[j - 1] in hs[1..];
          } else {
            assert r[i] == rest[i - 1] && r[j] == rest[j - 1];
          }
        }
      }
    }
  }

  // ----------------------------------------------------------------------- URIs

  /** The components of a URI the adapter reads or writes. */
  datatype Uri = Uri(scheme: string, host: string, path: string, query: string, fragment: string)

  /** Splits `s` at the first occurrence of `c`: the part before it and the part
      after it; when `c` does not occur, the whole string and `""`. */
  function SplitAt(s: string, c: char): (r: (string, string))
    ensures c !in r.0
    ensures c in s ==> r.0 + [c] + r.1 == s
    ensures c !in s ==> r == (s, "")
  {
    if s == [] then ([], [])
    else if s[0] == c then ([], s[1..])
    else
      var (before, after) := SplitAt(s[1..], c);
      assert s == [s[0]] + s[1..];
      ([s[0]] + before, after)
  }

  /** `createUri($target)` for a request target with no scheme or authority:
      the fragment starts at the first `#`, the query at the first `?` before it. */
  function CreateUri(target: string): (u: Uri)
    ensures u.scheme == "" && u.host == ""
    ensures '?' !in u.path && '#' !in u.path && '#' !in u.query
  {
    var (beforeFragment, fragment) := SplitAt(target, '#');
    var (path, query) := SplitAt(beforeFragment, '?');
    Uri("", "", path, query, fragment)
  }

  /** Splitting a joined string at a separator the first part does not contain
      gives back both parts. */
  lemma {:induction false} SplitAtJoin(a: string, c: char, b: string)
    requires c !in a
    ensures SplitAt(a + [c] + b, c) == (a, b)
  {
    var s := a + [c] + b;
    if a == [] {
      assert s == [c] + b;
    } else {
      assert s[0] == a[0] && a[0] != c;
      assert s[1..] == a[1..] + [c] + b;
      SplitAtJoin(a[1..], c, b);
      assert a == [a[0]] + a[1..];
    }
  }

  /** A path and query free of the separators survive `createUri(path . '?' . query)`. */
  lemma CreateUriWithQuery(path: string, query: string)
    requires '?' !in path && '#' !in path && '#' !in query
    ensures CreateUri(path + "?" + query) == Uri("", "", path, query, "")
  {
    var target := path + "?" + query;
    assert '#' !in target;
    SplitAtJoin(path, '?', query);
  }

  /** A path free of the separators survives `createUri(path)` with an empty query. */
  lemma CreateUriPathOnly(path: string)
    requires '?' !in path && '#' !in path
    ensures CreateUri(path) == Uri("", "", path, "", "")
  {
  }

  // -------------------------------------------------------------------- streams

  /** A body stream: its full content, the read cursor, and whether it can seek. */
  datatype Stream = Stream(content: string, position: nat, seekable: bool)

  /** `getContents()`: everything from the cursor to the end (nothing once past it). */
  function GetContents(s: Stream): (r: string)
    ensures s.position <= |s.content| ==> s.content == s.content[..s.position] + r
    ensures s.position >= |s.content| ==> r == ""
  {
    if s.position <= |s.content| then s.content[s.position..] else ""
  }

  /** `rewind()`: only a seekable stream can move its cursor back to the start. */
  function Rewind(s: Stream): (r: Stream)
    requires s.seekable
    ensures r.content == s.content && r.seekable
    ensures GetContents(r) == s.content
  {
    s.(position := 0)
  }

  // ------------------------------------------------------------------- messages

  /** An uploaded file in the standard representation. */
  datatype UploadedFile = UploadedFile(
    clientFilename: string, clientMediaType: string, size: int, error: int, tmpPath: string)

  /** An immutable server request. `body == None` is the library's default empty
      stream, i.e. no body was attached. */
  datatype ServerRequest = ServerRequest(
    httpMethod: string,
    uri: Uri,
    serverParams: PhpArray<PhpScalar>,
    headers: HeaderList,
    cookieParams: PhpArray<string>,
    queryParams: PhpArray<Param>,
    parsedBody: PhpArray<Param>,
    uploadedFiles: seq<UploadedFile>,
    body: Option<string>)

  /** An immutable response produced by the application or the error catcher. */
  datatype Response = Response(statusCode: int, reasonPhrase: string, headers: HeaderList, body: Stream)
}
