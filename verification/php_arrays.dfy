/** PHP associative arrays with string keys, as the native server hands them over:
    ordered (foreach visits entries in insertion order) and with distinct keys. */
module PhpArrays {
  import opened Wrappers

  /** No key occurs twice. */
  predicate DistinctKeys<V>(a: seq<(string, V)>) {
    forall i, j :: 0 <= i < j < |a| ==> a[i].0 != a[j].0
  }

  /** An ordered PHP array `[key => value, ...]`. */
  type PhpArray<V> = a: seq<(string, V)> | DistinctKeys(a) witness []

  /** A request parameter value: a string, or a nested array (`a[b]=c` style). */
  datatype Param = Scalar(value: string) | Nested(entries: seq<(string, Param)>)

  /** A PHP scalar as the native server fills its arrays with. A float is carried
      as the text PHP prints for it; floating-point arithmetic is not modelled. */
  datatype PhpScalar = Str(s: string) | Int(i: int) | Float(text: string) | Bool(b: bool)

  /** Any PHP value a configuration array holds: a scalar or a nested array. */
  datatype PhpValue = Value(scalar: PhpScalar) | List(entries: seq<(string, PhpValue)>)

  /** The ASCII digit for `d`. */
  function DigitChar(d: nat): (c: char)
    requires d < 10
    ensures '0' <= c <= '9' && c as int - '0' as int == d
  {
    ('0' as int + d) as char
  }

  /** The decimal digits of `n`, most significant first, without leading zeros. */
  function Digits(n: nat): (s: string)
    ensures 1 <= |s|
    ensures forall k :: 0 <= k < |s| ==> '0' <= s[k] <= '9'
    ensures |s| > 1 ==> s[0] != '0'
  {
    if n < 10 then [DigitChar(n)] else Digits(n / 10) + [DigitChar(n % 10)]
  }

  /** The number a string of decimal digits denotes. */
  function DigitsValue(s: string): nat
    requires forall k :: 0 <= k < |s| ==> '0' <= s[k] <= '9'
  {
    if s == [] then 0
    else DigitsValue(s[..|s| - 1]) * 10 + (s[|s| - 1] as int - '0' as int)
  }

  /** Reading the digits of `n` back gives `n`. */
  lemma {:induction false} DigitsRoundTrip(n: nat)
    ensures DigitsValue(Digits(n)) == n
  {
    if n >= 10 {
      var s := Digits(n);
      assert s[..|s| - 1] == Digits(n / 10);
      DigitsRoundTrip(n / 10);
    }
  }

  /** PHP's conversion of a scalar to a string, as the `.` operator applies it:
      a string as is, an integer in decimal with a leading `-` when negative,
      `true` as `1` and `false` as the empty string. */
  function ToPhpString(v: PhpScalar): (r: string)
    ensures v.Str? ==> r == v.s
    ensures v.Int? ==> 1 <= |r| && (r[0] == '-' <==> v.i < 0)
    ensures v.Bool? ==> (r == "" <==> !v.b)
  {
    match v
    case Str(s) => s
    case Int(i) => if i < 0 then "-" + Digits(-i) else Digits(i)
    case Float(t) => t
    case Bool(b) => if b then "1" else ""
  }

  /** An integer converted to a string reads back as that integer. */
  lemma IntStringRoundTrip(i: int)
    ensures var r := ToPhpString(Int(i));
            && (i >= 0 ==> DigitsValue(r) == i)
            && (i < 0 ==> r[0] == '-' && DigitsValue(r[1..]) == -i)
  {
    if i >= 0 {
      DigitsRoundTrip(i);
    } else {
      DigitsRoundTrip(-i);
      assert ToPhpString(Int(i))[1..] == Digits(-i);
    }
  }

  /** `$a[$k] ?? null`: the value stored under key `k`, if any. */
  function Lookup<V>(a: seq<(string, V)>, k: string): (r: Option<V>)
    ensures r.None? <==> forall i :: 0 <= i < |a| ==> a[i].0 != k
    ensures r.Some? ==> exists i :: 0 <= i < |a| && a[i] == (k, r.value)
  {
    if a == [] then None
    else if a[0].0 == k then Some(a[0].1)
    else
      var r := Lookup(a[1..], k);
      assert forall i :: 1 <= i < |a| ==> a[i] == a[1..][i - 1];
      r
  }

  /** In an array with distinct keys, looking up an entry's key finds that entry's value. */
  lemma {:induction false} LookupEntry<V>(a: seq<(string, V)>, i: int)
    requires DistinctKeys(a)
    requires 0 <= i < |a|
    ensures Lookup(a, a[i].0) == Some(a[i].1)
  {
    if i > 0 {
      assert a[0].0 != a[i].0;
      assert a[1..][i - 1] == a[i];
      LookupEntry(a[1..], i - 1);
    }
  }
}
