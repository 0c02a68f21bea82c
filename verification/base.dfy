/** Shared vocabulary: optional values, results, the JSON values that the browser and the
    REST framework exchange, JavaScript's coercions of them, and order-preserving filtering. */
module Base {

  /** A value that may be missing (`null`/`undefined` in the sources). */
  datatype Option<+T> = None | Some(value: T)

  /** The outcome of an operation that can fail with a message (an exception in the sources). */
  datatype Result<+T> = Ok(value: T) | Err(error: string)

  /** JSON values. Booleans are not needed by any modelled code path and are left out. */
  datatype Json =
    | JNull
    | JNum(n: int)
    | JStr(s: string)
    | JArr(items: seq<Json>)
    | JObj(fields: map<string, Json>)

  /** JavaScript truthiness: null, 0 and "" are falsy; arrays and objects never are. */
  predicate Truthy(v: Json)
  {
    match v
    case JNull => false
    case JNum(n) => n != 0
    case JStr(s) => s != ""
    case _ => true
  }

  /** Property access `v.k`: undefined (None) unless `v` is an object holding `k`. */
  function Member(v: Json, k: string): (r: Option<Json>)
    ensures r.Some? <==> v.JObj? && k in v.fields
    ensures r.Some? ==> r.value == v.fields[k]
  {
    if v.JObj? && k in v.fields then Some(v.fields[k]) else None
  }

  function DigitChar(d: int): char
    requires 0 <= d < 10
  {
    "0123456789"[d]
  }

  /** Decimal rendering of a natural number, most significant digit first. */
  function NatText(n: nat): (r: string)
    ensures |r| >= 1
    ensures forall i :: 0 <= i < |r| ==> '0' <= r[i] <= '9'
    decreases n
  {
    if n < 10 then [DigitChar(n)] else NatText(n / 10) + [DigitChar(n % 10)]
  }

  function IntText(n: int): string
  {
    if n < 0 then "-" + NatText(-n) else NatText(n)
  }

  /** `String(v)` for a value read from a JSON body; `undefined` becomes the text "undefined". */
  function Text(v: Option<Json>): string
  {
    match v
    case None => "undefined"
    case Some(j) => JsonText(j)
  }

  /** `String(j)`: arrays are joined with commas, their null elements becoming empty. */
  function JsonText(j: Json): string
    decreases j
  {
    match j
    case JNull => "null"
    case JNum(n) => IntText(n)
    case JStr(s) => s
    case JObj(_) => "[object Object]"
    case JArr(items) =>
      JoinWithCommas(seq(|items|, i requires 0 <= i < |items| =>
                           if items[i].JNull? then "" else JsonText(items[i])))
  }

  function JoinWithCommas(parts: seq<string>): string
  {
    if |parts| == 0 then ""
    else if |parts| == 1 then parts[0]
    else parts[0] + "," + JoinWithCommas(parts[1..])
  }

  /** `Array.prototype.filter`: keeps the elements satisfying `p`, in their original order. */
  function Filter<T(!new)>(s: seq<T>, p: T -> bool): (r: seq<T>)
    ensures |r| <= |s|
    ensures forall x :: x in r <==> x in s && p(x)
    decreases s
  {
    if s == [] then []
    else if p(s[0]) then [s[0]] + Filter(s[1..], p)
    else Filter(s[1..], p)
  }

  /** `a` is obtained from `b` by deleting elements, keeping the order of the rest. */
  ghost predicate SubsequenceOf<T>(a: seq<T>, b: seq<T>)
    decreases |b|
  {
    if a == [] then true
    else if b == [] then false
    else if a[0] == b[0] then SubsequenceOf(a[1..], b[1..])
    else SubsequenceOf(a, b[1..])
  }

  lemma {:induction false} FilterIsSubsequence<T(!new)>(s: seq<T>, p: T -> bool)
    ensures SubsequenceOf(Filter(s, p), s)
    decreases s
  {
    if s != [] {
      FilterIsSubsequence(s[1..], p);
      var rest := Filter(s[1..], p);
      if p(s[0]) {
        assert Filter(s, p) == [s[0]] + rest;
        assert ([s[0]] + rest)[1..] == rest;
      } else {
        assert Filter(s, p) == rest;
        if rest != [] {
          assert rest[0] in rest;
          assert rest[0] != s[0];
        }
      }
    }
  }

  lemma {:induction false} FilterKeepsAll<T(!new)>(s: seq<T>, p: T -> bool)
    requires forall x :: x in s ==> p(x)
    ensures Filter(s, p) == s
    decreases s
  {
    if s != [] {
      assert s[0] in s;
      assert forall x :: x in s[1..] ==> x in s;
      FilterKeepsAll(s[1..], p);
      assert [s[0]] + s[1..] == s;
    }
  }

  lemma FilterIdempotent<T(!new)>(s: seq<T>, p: T -> bool)
    ensures Filter(Filter(s, p), p) == Filter(s, p)
  {
    FilterKeepsAll(Filter(s, p), p);
  }

  /** Every pair of distinct positions holds distinct values. */
  predicate Distinct<T(==)>(s: seq<T>)
  {
    forall i, j :: 0 <= i < j < |s| ==> s[i] != s[j]
  }

  /** No two positions of `s` share a key. */
  predicate DistinctBy<T, K(==)>(s: seq<T>, key: T -> K)
  {
    forall i, j :: 0 <= i < j < |s| ==> key(s[i]) != key(s[j])
  }

  lemma {:induction false} FilterKeepsDistinctBy<T(!new), K>(s: seq<T>, p: T -> bool, key: T -> K)
    requires DistinctBy(s, key)
    ensures DistinctBy(Filter(s, p), key)
    decreases s
  {
    if s != [] {
      var rest := Filter(s[1..], p);
      assert DistinctBy(s[1..], key) by {
        forall i, j | 0 <= i < j < |s[1..]| ensures key(s[1..][i]) != key(s[1..][j]) {
          assert s[1..][i] == s[i + 1] && s[1..][j] == s[j + 1];
        }
      }
      FilterKeepsDistinctBy(s[1..], p, key);
      if p(s[0]) {
        var r := [s[0]] + rest;
        forall i, j | 0 <= i < j < |r| ensures key(r[i]) != key(r[j]) {
          if i == 0 {
            assert r[j] == rest[j - 1] && rest[j - 1] in rest;
            assert r[j] in s[1..];
            var k :| 0 <= k < |s[1..]| && s[1..][k] == r[j];
            assert s[k + 1] == r[j];
          } else {
            assert r[i] == rest[i - 1] && r[j] == rest[j - 1];
          }
        }
        assert Filter(s, p) == r;
      }
    }
  }

  /** The first row whose key is `id` (a primary-key or natural-key lookup). */
  function Find<T, K(==)>(rows: seq<T>, key: T -> K, id: K): (r: Option<T>)
    ensures r.Some? ==> r.value in rows && key(r.value) == id
    ensures r.None? ==> forall i :: 0 <= i < |rows| ==> key(rows[i]) != id
    decreases rows
  {
    if rows == [] then None
    else if key(rows[0]) == id then Some(rows[0])
    else
      var r := Find(rows[1..], key, id);
      assert forall i :: 1 <= i < |rows| ==> rows[i] == rows[1..][i - 1];
      r
  }

  /** With distinct keys, the row found is the only one carrying that key. */
  lemma FindUnique<T, K>(rows: seq<T>, key: T -> K, i: nat)
    requires DistinctBy(rows, key) && i < |rows|
    ensures Find(rows, key, key(rows[i])) == Some(rows[i])
  {
    var r := Find(rows, key, key(rows[i]));
    var j :| 0 <= j < |rows| && rows[j] == r.value;
    assert key(rows[j]) == key(rows[i]);
  }

  /** `b` starts with `a`: the rows of `a` are kept in place. */
  predicate Extends<T(==)>(a: seq<T>, b: seq<T>)
  {
    |a| <= |b| && forall i :: 0 <= i < |a| ==> b[i] == a[i]
  }

  /** Appending rows does not change what a successful lookup finds. */
  lemma {:induction false} FindExtends<T, K>(a: seq<T>, b: seq<T>, key: T -> K, id: K)
    requires Extends(a, b) && Find(a, key, id).Some?
    ensures Find(b, key, id) == Find(a, key, id)
    decreases a
  {
    if key(a[0]) != id {
      assert Extends(a[1..], b[1..]);
      FindExtends(a[1..], b[1..], key, id);
    }
  }
}
