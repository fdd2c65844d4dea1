/** `ResponseEmitter::emit`: a standard response written onto the native response
    as a trace of native calls: one status call, one header call per header value,
    then a single `end` with the body. */
module ResponseEmitter {
  import opened Wrappers
  import opened Traces
  import opened Psr7

  /** A call on the native response object. */
  datatype NativeCall =
    | Status(code: int, reason: string)
    | Header(name: string, value: string)
    | End(payload: string)

  predicate IsStatus(c: NativeCall) { c.Status? }
  predicate IsHeader(c: NativeCall) { c.Header? }
  predicate IsEnd(c: NativeCall) { c.End? }

  /** Total number of header values of a header map. */
  function TotalValues(hs: HeaderList): nat {
    if hs == [] then 0 else |hs[0].1| + TotalValues(hs[1..])
  }

  /** The inner loop: one header call per value of one header, in value order. */
  function ValueCalls(name: string, values: seq<string>): (t: seq<NativeCall>)
    ensures |t| == |values|
    ensures forall j :: 0 <= j < |t| ==> t[j] == Header(name, values[j])
  {
    seq(|values|, j requires 0 <= j < |values| => Header(name, values[j]))
  }

  /** The outer loop: the header calls of every header, in map order. */
  function HeaderCalls(hs: HeaderList): (t: seq<NativeCall>)
    ensures |t| == TotalValues(hs)
    ensures forall i :: 0 <= i < |t| ==> t[i].Header?
  {
    if hs == [] then []
    else ValueCalls(hs[0].0, hs[0].1) + HeaderCalls(hs[1..])
  }

  /** The content handed to `end`: a seekable body is rewound first, an
      unseekable one is read from wherever its cursor stands. */
  function Payload(body: Stream): (p: string)
    ensures body.seekable ==> p == body.content
    ensures !body.seekable && body.position <= |body.content| ==> p == body.content[body.position..]
    ensures !body.seekable && body.position > |body.content| ==> p == ""
  {
    GetContents(if body.seekable then Rewind(body) else body)
  }

  /** The native calls `emit` makes for response `r`. */
  function Emit(r: Response): (t: seq<NativeCall>)
    ensures |t| == TotalValues(r.headers) + 2
    ensures t[0] == Status(r.statusCode, r.reasonPhrase)
    ensures t[|t| - 1] == End(Payload(r.body))
  {
    [Status(r.statusCode, r.reasonPhrase)] + HeaderCalls(r.headers) + [End(Payload(r.body))]
  }

  // ------------------------------------------------------------ trace shape

  /** Status comes first, `end` comes last and exactly once, and everything in
      between is a header call; the number of header calls is the number of
      header values (values are never joined). */
  lemma EmitShape(r: Response)
    ensures var t := Emit(r);
      && |t| == TotalValues(r.headers) + 2
      && t[0] == Status(r.statusCode, r.reasonPhrase)
      && t[|t| - 1].End?
      && (forall i :: 0 <= i < |t| ==> (t[i].Header? <==> 0 < i < |t| - 1))
      && Count(t, IsStatus) == 1
      && Count(t, IsEnd) == 1
      && Count(t, IsHeader) == TotalValues(r.headers)
  {
    var hc := HeaderCalls(r.headers);
    var a: seq<NativeCall> := [Status(r.statusCode, r.reasonPhrase)];
    var c: seq<NativeCall> := [End(Payload(r.body))];
    CountAppend3(a, hc, c, IsStatus);
    CountAppend3(a, hc, c, IsEnd);
    CountAppend3(a, hc, c, IsHeader);
    CountZero(hc, IsStatus);
    CountZero(hc, IsEnd);
    CountFull(hc, IsHeader);
  }

  /** Values before header `k` in map order. */
  lemma {:induction false} TotalValuesPrefix(hs: HeaderList, k: int)
    requires 0 <= k < |hs|
    ensures TotalValues(hs[..k]) + |hs[k].1| <= TotalValues(hs)
  {
    if k == 0 {
      assert hs[..0] == [];
    } else {
      assert hs[..k][1..] == hs[1..][..k - 1];
      assert hs[1..][k - 1] == hs[k];
      TotalValuesPrefix(hs[1..], k - 1);
    }
  }

  /** Value `j` of header `k` is written by header call number
      (values of the headers before `k`) + `j`. */
  lemma {:induction false} HeaderCallsAt(hs: HeaderList, k: int, j: int)
    requires 0 <= k < |hs| && 0 <= j < |hs[k].1|
    ensures TotalValues(hs[..k]) + j < |HeaderCalls(hs)|
    ensures HeaderCalls(hs)[TotalValues(hs[..k]) + j] == Header(hs[k].0, hs[k].1[j])
  {
    TotalValuesPrefix(hs, k);
    if k == 0 {
      assert hs[..0] == [];
    } else {
      var first := ValueCalls(hs[0].0, hs[0].1);
      assert hs[..k][1..] == hs[1..][..k - 1];
      assert hs[1..][k - 1] == hs[k];
      HeaderCallsAt(hs[1..], k - 1, j);
      TotalValuesPrefix(hs[1..], k - 1);
      assert HeaderCalls(hs)[TotalValues(hs[..k]) + j]
          == HeaderCalls(hs[1..])[TotalValues(hs[1..][..k - 1]) + j];
    }
  }

  /** In the emitted trace, value `j` of header `k` sits right after the status
      call and the values of all earlier headers: map order, then value order. */
  lemma EmitHeaderAt(r: Response, k: int, j: int)
    requires 0 <= k < |r.headers| && 0 <= j < |r.headers[k].1|
    ensures 1 + TotalValues(r.headers[..k]) + j < |Emit(r)| - 1
    ensures Emit(r)[1 + TotalValues(r.headers[..k]) + j] == Header(r.headers[k].0, r.headers[k].1[j])
  {
    TotalValuesPrefix(r.headers, k);
    HeaderCallsAt(r.headers, k, j);
  }

  /** The body handed to `end`: the whole content when the stream is seekable,
      whatever the cursor was; the rest after the cursor otherwise. */
  lemma EmitPayload(r: Response)
    ensures r.body.seekable ==> Emit(r)[|Emit(r)| - 1] == End(r.body.content)
    ensures !r.body.seekable && r.body.position <= |r.body.content| ==>
              Emit(r)[|Emit(r)| - 1] == End(r.body.content[r.body.position..])
    ensures !r.body.seekable && r.body.position > |r.body.content| ==>
              Emit(r)[|Emit(r)| - 1] == End("")
  {
  }

  // ------------------------------------------------- recording native response

  /** What a recording native response has received: the status (write-once),
      the header pairs in call order, and the body once `end` was called. */
  datatype NativeResponse = NativeResponse(
    status: Option<(int, string)>, headers: seq<(string, string)>, sent: Option<string>)

  /** A native response nothing has been written to. */
  function Fresh(): NativeResponse {
    NativeResponse(None, [], None)
  }

  /** One call on the recording native response; `None` when the call is illegal:
      anything after `end`, the status set twice or after a header, a header before
      the status. */
  function Apply(s: NativeResponse, c: NativeCall): Option<NativeResponse> {
    if s.sent.Some? then None
    else match c
      case Status(code, reason) =>
        if s.status.Some? || s.headers != [] then None
        else Some(s.(status := Some((code, reason))))
      case Header(name, value) =>
        if s.status.None? then None
        else Some(s.(headers := s.headers + [(name, value)]))
      case End(payload) =>
        Some(s.(sent := Some(payload)))
  }

  /** A sequence of calls on the recording native response, stopping at the first
      illegal one. */
  function Replay(s: NativeResponse, t: seq<NativeCall>): Option<NativeResponse>
    decreases |t|
  {
    if t == [] then Some(s)
    else match Apply(s, t[0])
      case None => None
      case Some(s') => Replay(s', t[1..])
  }

  /** One header's values paired with its name. */
  function NamePairs(name: string, values: seq<string>): seq<(string, string)> {
    seq(|values|, j requires 0 <= j < |values| => (name, values[j]))
  }

  /** The header pairs of a header map, in map order then value order. */
  function HeaderPairs(hs: HeaderList): seq<(string, string)> {
    if hs == [] then [] else NamePairs(hs[0].0, hs[0].1) + HeaderPairs(hs[1..])
  }

  lemma {:induction false} ReplayAppend(s: NativeResponse, a: seq<NativeCall>, b: seq<NativeCall>)
    ensures Replay(s, a + b) == match Replay(s, a) case None => None case Some(s') => Replay(s', b)
    decreases |a|
  {
    if a == [] {
      assert a + b == b;
    } else {
      assert (a + b)[0] == a[0];
      assert (a + b)[1..] == a[1..] + b;
      match Apply(s, a[0])
      case None =>
      case Some(s') => ReplayAppend(s', a[1..], b);
    }
  }

  lemma {:induction false} ReplayValues(s: NativeResponse, name: string, values: seq<string>)
    requires s.status.Some? && s.sent.None?
    ensures Replay(s, ValueCalls(name, values))
         == Some(s.(headers := s.headers + NamePairs(name, values)))
    decreases |values|
  {
    if values == [] {
      assert s.headers + [] == s.headers;
    } else {
      var t := ValueCalls(name, values);
      assert t[0] == Header(name, values[0]);
      assert t[1..] == ValueCalls(name, values[1..]);
      var s' := s.(headers := s.headers + [(name, values[0])]);
      ReplayValues(s', name, values[1..]);
      assert s'.headers + NamePairs(name, values[1..]) == s.headers + NamePairs(name, values);
    }
  }

  lemma {:induction false} ReplayHeaders(s: NativeResponse, hs: HeaderList)
    requires s.status.Some? && s.sent.None?
    ensures Replay(s, HeaderCalls(hs)) == Some(s.(headers := s.headers + HeaderPairs(hs)))
    decreases |hs|
  {
    if hs == [] {
      assert s.headers + [] == s.headers;
    } else {
      var first := ValueCalls(hs[0].0, hs[0].1);
      var firstPairs := NamePairs(hs[0].0, hs[0].1);
      ReplayAppend(s, first, HeaderCalls(hs[1..]));
      ReplayValues(s, hs[0].0, hs[0].1);
      var s' := s.(headers := s.headers + firstPairs);
      ReplayHeaders(s', hs[1..]);
      assert HeaderCalls(hs) == first + HeaderCalls(hs[1..]);
      assert HeaderPairs(hs) == firstPairs + HeaderPairs(hs[1..]);
      assert s'.headers + HeaderPairs(hs[1..]) == s.headers + HeaderPairs(hs);
    }
  }

  /** A fresh recording native response accepts the whole emission and ends up
      with the response's status, all its header values and the payload. */
  lemma EmitAccepted(r: Response)
    ensures Replay(Fresh(), Emit(r))
         == Some(NativeResponse(Some((r.statusCode, r.reasonPhrase)), HeaderPairs(r.headers), Some(Payload(r.body))))
  {
    var a: seq<NativeCall> := [Status(r.statusCode, r.reasonPhrase)];
    var hc := HeaderCalls(r.headers);
    var c: seq<NativeCall> := [End(Payload(r.body))];
    assert Emit(r) == a + (hc + c);
    ReplayAppend(Fresh(), a, hc + c);
    var s1 := NativeResponse(Some((r.statusCode, r.reasonPhrase)), [], None);
    assert Replay(Fresh(), a) == Some(s1);
    ReplayAppend(s1, hc, c);
    ReplayHeaders(s1, r.headers);
    assert [] + HeaderPairs(r.headers) == HeaderPairs(r.headers);
  }
}
