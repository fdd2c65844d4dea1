/** Failures, outcomes and counting over event traces, shared by the emitter,
    the worker bootstrap and the request dispatcher. */
module Traces {

  /** A PHP `Throwable` raised by a collaborator. Only its identity matters. */
  datatype Throwable = Throwable(message: string)

  /** How a modelled PHP call ends: it returns, or a failure propagates out of it. */
  datatype Outcome = Completed | Propagated(failure: Throwable)

  /** Number of elements of `s` satisfying `p`. */
  function Count<T>(s: seq<T>, p: T -> bool): (n: nat)
    ensures n <= |s|
  {
    if s == [] then 0 else (if p(s[0]) then 1 else 0) + Count(s[1..], p)
  }

  /** No element satisfies `p` exactly when the count is zero. */
  lemma {:induction false} CountZero<T>(s: seq<T>, p: T -> bool)
    ensures Count(s, p) == 0 <==> forall i :: 0 <= i < |s| ==> !p(s[i])
  {
    if s != [] {
      CountZero(s[1..], p);
      assert forall i :: 1 <= i < |s| ==> s[i] == s[1..][i - 1];
    }
  }

  /** Every element satisfies `p` exactly when the count is the length. */
  lemma {:induction false} CountFull<T>(s: seq<T>, p: T -> bool)
    ensures Count(s, p) == |s| <==> forall i :: 0 <= i < |s| ==> p(s[i])
  {
    if s != [] {
      CountFull(s[1..], p);
      assert forall i :: 1 <= i < |s| ==> s[i] == s[1..][i - 1];
    }
  }

  /** Counting distributes over concatenation. */
  lemma {:induction false} CountAppend<T>(a: seq<T>, b: seq<T>, p: T -> bool)
    ensures Count(a + b, p) == Count(a, p) + Count(b, p)
  {
    if a == [] {
      assert a + b == b;
    } else {
      assert (a + b)[1..] == a[1..] + b;
      CountAppend(a[1..], b, p);
    }
  }

  /** Counting over two given elements followed by a sequence. */
  lemma CountPrepend2<T>(x: T, y: T, e: seq<T>, p: T -> bool)
    ensures Count([x, y] + e, p) == (if p(x) then 1 else 0) + (if p(y) then 1 else 0) + Count(e, p)
  {
    CountAppend([x, y], e, p);
    assert [x, y][1..] == [y];
  }

  /** Counting over three concatenated pieces. */
  lemma CountAppend3<T>(a: seq<T>, b: seq<T>, c: seq<T>, p: T -> bool)
    ensures Count(a + b + c, p) == Count(a, p) + Count(b, p) + Count(c, p)
  {
    CountAppend(a + b, c, p);
    CountAppend(a, b, p);
  }
}
