/** Values shared by every part of the model: optional and fallible results,
    the JSON values that travel through the policy file, the audit log and the
    tool results, insertion-ordered dictionaries, and Python's slicing rules. */
module Common {

  datatype Option<+T> = None | Some(value: T) {
    /** `x or default` for an optional argument. */
    function GetOr(default: T): T {
      match this
      case Some(v) => v
      case None => default
    }
  }

  /** What an operation raises, by kind. */
  datatype Error =
    | EscapesRoot                 // PermissionError("Path escapes sandbox root")
    | DeniedByPolicy              // PermissionError("Access denied by policy")
    | FileNotFound(what: string)  // FileNotFoundError, with its message
    | NotRelative                 // ValueError from Path.relative_to
    | WrongType(field: string)    // KeyError / TypeError on a policy field of the wrong shape
    | MalformedPolicy             // json.loads or dict.update failing on the policy file

  datatype Result<+T> = Ok(value: T) | Err(error: Error) {
    predicate IsFailure() { Err? }
    function PropagateFailure<U>(): Result<U> requires Err? { Err(error) }
    function Extract(): T requires Ok? { value }
  }

  /** One detected span: `{"entity", "start", "end", "match"}`. Offsets are
      whatever the producer gave; the redactor does not assume them valid. */
  datatype Finding = Finding(entity: string, start: int, end: int, matched: string)

  newtype byte = x: int | 0 <= x < 256

  /** A JSON value. Objects nested inside values are unordered maps; the
      dictionaries whose key order is observable are `Dict`s below. */
  datatype Value =
    | Null
    | Bool(b: bool)
    | Num(n: int)
    | Str(s: string)
    | Arr(items: seq<Value>)
    | Obj(fields: map<string, Value>)

  /** Python truthiness of a JSON value. */
  predicate Truthy(v: Value) {
    match v
    case Null => false
    case Bool(b) => b
    case Num(n) => n != 0
    case Str(s) => s != ""
    case Arr(items) => items != []
    case Obj(fields) => fields != map[]
  }

  /** `m.get(k, default)` */
  function Get(m: map<string, Value>, k: string, default: Value): Value {
    if k in m then m[k] else default
  }

  // ---------------------------------------------------------------------
  // Insertion-ordered dictionaries (a Python dict whose order is observable)
  // ---------------------------------------------------------------------

  type Dict = seq<(string, Value)>

  function Keys(d: Dict): (ks: seq<string>)
    ensures |ks| == |d|
    ensures forall i :: 0 <= i < |d| ==> ks[i] == d[i].0
  {
    if d == [] then [] else [d[0].0] + Keys(d[1..])
  }

  predicate UniqueKeys(d: Dict) {
    forall i, j :: 0 <= i < j < |d| ==> d[i].0 != d[j].0
  }

  /** `d.get(k)` */
  function Lookup(d: Dict, k: string): (r: Option<Value>)
    ensures r.None? <==> k !in Keys(d)
  {
    if d == [] then None
    else if d[0].0 == k then Some(d[0].1)
    else Lookup(d[1..], k)
  }

  /** `d[k] = v`: an existing key keeps its position, a new key goes last. */
  function Put(d: Dict, k: string, v: Value): (r: Dict)
    ensures Keys(r) == if k in Keys(d) then Keys(d) else Keys(d) + [k]
  {
    if d == [] then [(k, v)]
    else if d[0].0 == k then [(k, v)] + d[1..]
    else [d[0]] + Put(d[1..], k, v)
  }

  /** `d[k] = v` keeps the existing keys in order and adds at most `k`. */
  lemma PutKeys(d: Dict, k: string, v: Value)
    ensures IsPrefix(Keys(d), Keys(Put(d, k, v)))
    ensures forall x :: x in Keys(Put(d, k, v)) <==> x in Keys(d) || x == k
  {
    if k !in Keys(d) {
      assert (Keys(d) + [k])[..|Keys(d)|] == Keys(d);
    }
  }

  lemma {:induction false} LookupPut(d: Dict, k: string, v: Value, k': string)
    ensures Lookup(Put(d, k, v), k') == if k' == k then Some(v) else Lookup(d, k')
  {
    if d != [] && d[0].0 != k {
      LookupPut(d[1..], k, v, k');
    }
  }

  lemma {:induction false} PutKeepsUnique(d: Dict, k: string, v: Value)
    requires UniqueKeys(d)
    ensures UniqueKeys(Put(d, k, v))
  {
    var r := Put(d, k, v);
    assert Keys(r) == if k in Keys(d) then Keys(d) else Keys(d) + [k];
    forall i, j | 0 <= i < j < |r| ensures r[i].0 != r[j].0 {
      assert Keys(r)[i] == r[i].0 && Keys(r)[j] == r[j].0;
      if j < |d| {
        assert Keys(d)[i] == d[i].0 && Keys(d)[j] == d[j].0;
      } else {
        assert Keys(d)[i] == d[i].0;
      }
    }
  }

  /** `{k: v for k, v in d.items() if k != key}` */
  function Without(d: Dict, key: string): (r: Dict)
    ensures key !in Keys(r)
    ensures key !in Keys(d) ==> r == d
  {
    if d == [] then []
    else if d[0].0 == key then Without(d[1..], key)
    else [d[0]] + Without(d[1..], key)
  }

  lemma {:induction false} LookupWithout(d: Dict, key: string, k': string)
    ensures Lookup(Without(d, key), k') == if k' == key then None else Lookup(d, k')
  {
    if d != [] {
      LookupWithout(d[1..], key, k');
    }
  }

  lemma {:induction false} WithoutAfterPut(d: Dict, k: string, v: Value)
    ensures Without(Put(d, k, v), k) == Without(d, k)
  {
    if d != [] && d[0].0 != k {
      WithoutAfterPut(d[1..], k, v);
    }
  }

  lemma {:induction false} WithoutCommutesWithPut(d: Dict, k: string, key: string, v: Value)
    requires k != key
    ensures Without(Put(d, k, v), key) == Put(Without(d, key), k, v)
  {
    if d == [] {
    } else if d[0].0 == k {
      assert d[0].0 != key;
    } else if d[0].0 == key {
      WithoutCommutesWithPut(d[1..], k, key, v);
    } else {
      WithoutCommutesWithPut(d[1..], k, key, v);
    }
  }

  /** The map a dictionary denotes. */
  function ToMap(d: Dict): (m: map<string, Value>)
    ensures forall k :: k in m <==> k in Keys(d)
    ensures forall k :: k in m ==> Lookup(d, k) == Some(m[k])
  {
    if d == [] then map[]
    else ToMap(d[1..])[d[0].0 := d[0].1]
  }

  // ---------------------------------------------------------------------
  // Python sequence slicing
  // ---------------------------------------------------------------------

  /** Where a slice bound `k` lands in a sequence of length `n`: negative
      bounds count from the end, and every bound is clamped to `[0, n]`. */
  function SliceIndex(n: nat, k: int): (r: nat)
    ensures r <= n
    ensures 0 <= k <= n ==> r == k
    ensures k > n ==> r == n
    ensures k < 0 ==> r == if n + k < 0 then 0 else n + k
  {
    if k < 0 then (if n + k < 0 then 0 else n + k)
    else if k > n then n
    else k
  }

  /** `s[:k]` */
  function Take<T>(s: seq<T>, k: int): seq<T> {
    s[..SliceIndex(|s|, k)]
  }

  /** `s[k:]` */
  function Drop<T>(s: seq<T>, k: int): seq<T> {
    s[SliceIndex(|s|, k)..]
  }

  /** `s[i:j]` */
  function Slice<T>(s: seq<T>, i: int, j: int): (r: seq<T>)
    ensures 0 <= i <= j <= |s| ==> r == s[i..j]
  {
    var a, b := SliceIndex(|s|, i), SliceIndex(|s|, j);
    if a <= b then s[a..b] else []
  }

  /** `t * n`: `n` copies of `t`, empty when `n <= 0`. */
  function Repeat<T>(t: seq<T>, n: int): (r: seq<T>)
    ensures n >= 0 ==> |r| == |t| * n
    ensures n <= 0 ==> r == []
    decreases if n < 0 then 0 else n
  {
    if n <= 0 then [] else t + Repeat(t, n - 1)
  }

  lemma {:induction false} RepeatOneAt<T>(c: T, n: nat, k: nat)
    requires k < n
    ensures |Repeat([c], n)| == n && Repeat([c], n)[k] == c
  {
    if k > 0 {
      RepeatOneAt(c, n - 1, k - 1);
    }
  }

  predicate IsPrefix<T(==)>(p: seq<T>, s: seq<T>) {
    |p| <= |s| && s[..|p|] == p
  }

  lemma PrefixMember<T>(a: seq<T>, b: seq<T>, x: T)
    requires IsPrefix(a, b) && x in a
    ensures x in b
  {
    var i :| 0 <= i < |a| && a[i] == x;
    assert b[i] == b[..|a|][i];
  }

  lemma PrefixTrans<T>(a: seq<T>, b: seq<T>, c: seq<T>)
    requires IsPrefix(a, b) && IsPrefix(b, c)
    ensures IsPrefix(a, c)
  {
    assert c[..|a|] == c[..|b|][..|a|];
  }

  /** `p in s` for two strings. */
  predicate IsSubstring<T(==)>(p: seq<T>, s: seq<T>) {
    exists i :: 0 <= i <= |s| - |p| && OccursAt(p, s, i)
  }

  predicate OccursAt<T(==)>(p: seq<T>, s: seq<T>, i: int)
    requires 0 <= i <= |s| - |p|
  {
    s[i..i + |p|] == p
  }
}
