/**
 * The JavaScript values that `Str.attributes` and the `Transformer` receive and return, with
 * JavaScript truthiness and the object spread `{ ...v }`.
 */
module JsValue {

  /** A JavaScript value; numbers are taken to be integers. */
  datatype Value =
    | Undefined
    | Null
    | Bool(b: bool)
    | Num(n: int)
    | Str(s: string)
    | Arr(items: seq<Value>)
    | Obj(fields: map<string, Value>)

  /** `!v`: undefined, null, false, 0 and the empty string; every array and object is truthy */
  predicate Falsy(v: Value) {
    v.Undefined? || v.Null? || v == Bool(false) || v == Num(0) || v == Str("")
  }

  /** `v || null` */
  function OrNull(v: Value): (r: Value)
    ensures !Falsy(r) || r == Null
    ensures Falsy(v) <==> r == Null
    ensures !Falsy(v) ==> r == v
  {
    if Falsy(v) then Null else v
  }

  lemma OrNullIdempotent(v: Value)
    ensures OrNull(OrNull(v)) == OrNull(v)
  {
  }

  function DigitChar(d: nat): (c: char)
    requires d < 10
    ensures '0' <= c <= '9'
  {
    (48 + d) as char
  }

  /** `String(n)` for an array index: its decimal digits, without leading zeros */
  function IndexKey(n: nat): (r: string)
    ensures 1 <= |r|
    ensures n >= 10 ==> 2 <= |r|
    ensures r[|r| - 1] == DigitChar(n % 10)
    decreases n
  {
    if n < 10 then [DigitChar(n)] else IndexKey(n / 10) + [DigitChar(n % 10)]
  }

  /** Distinct indices have distinct keys. */
  lemma {:induction false} IndexKeyInjective(a: nat, b: nat)
    requires IndexKey(a) == IndexKey(b)
    ensures a == b
    decreases a
  {
    var ka, kb := IndexKey(a), IndexKey(b);
    assert DigitChar(a % 10) == DigitChar(b % 10);
    if a >= 10 && b >= 10 {
      assert IndexKey(a / 10) == ka[..|ka| - 1];
      assert IndexKey(b / 10) == kb[..|kb| - 1];
      IndexKeyInjective(a / 10, b / 10);
    }
  }

  /** `m` holds element `i` of `items` under `IndexKey(i)` and nothing else */
  predicate IndexedBy(m: map<string, Value>, items: seq<Value>) {
    && (forall i :: 0 <= i < |items| ==> IndexKey(i) in m && m[IndexKey(i)] == items[i])
    && (forall k :: k in m ==> exists i :: 0 <= i < |items| && IndexKey(i) == k)
  }

  /**
   * The properties of an array-like value: element `i` under the key `IndexKey(i)` and nothing
   * else, so exactly one property per element.
   */
  function IndexedCopy(items: seq<Value>): (m: map<string, Value>)
    ensures IndexedBy(m, items)
    ensures |m| == |items|
    decreases |items|
  {
    if items == [] then map[]
    else
      var n := |items| - 1;
      var first := IndexedCopy(items[..n]);
      ExtendIndexed(first, items);
      first[IndexKey(n) := items[n]]
  }

  /** Adding the last element under the next index key keeps the copy exact. */
  lemma ExtendIndexed(m: map<string, Value>, items: seq<Value>)
    requires |items| > 0 && IndexedBy(m, items[..|items| - 1])
    ensures IndexKey(|items| - 1) !in m
    ensures IndexedBy(m[IndexKey(|items| - 1) := items[|items| - 1]], items)
  {
    var n := |items| - 1;
    if IndexKey(n) in m {
      var i :| 0 <= i < n && IndexKey(i) == IndexKey(n);
      IndexKeyInjective(i, n);
    }
    var m' := m[IndexKey(n) := items[n]];
    forall i | 0 <= i < |items| ensures IndexKey(i) in m' && m'[IndexKey(i)] == items[i] {
      if i < n {
        assert items[..n][i] == items[i];
        if IndexKey(i) == IndexKey(n) {
          IndexKeyInjective(i, n);
        }
      }
    }
    forall k | k in m' ensures exists i :: 0 <= i < |items| && IndexKey(i) == k {
      if k != IndexKey(n) {
        var i :| 0 <= i < n && IndexKey(i) == k;
      }
    }
  }

  /** The index keys fix the properties of an array-like value: there is only one such map. */
  lemma IndexedByUnique(m1: map<string, Value>, m2: map<string, Value>, items: seq<Value>)
    requires IndexedBy(m1, items) && IndexedBy(m2, items)
    ensures m1 == m2
  {
    forall k | k in m1 ensures k in m2 && m1[k] == m2[k] {
      var i :| 0 <= i < |items| && IndexKey(i) == k;
    }
    forall k | k in m2 ensures k in m1 {
      var i :| 0 <= i < |items| && IndexKey(i) == k;
    }
  }

  /** The characters of a string, each as a one-character string */
  function Characters(s: string): (r: seq<Value>)
    ensures |r| == |s|
    ensures forall i :: 0 <= i < |s| ==> r[i] == Str([s[i]])
  {
    seq(|s|, i requires 0 <= i < |s| => Str([s[i]]))
  }

  /**
   * `{ ...v }` for a truthy `v`: an object's own properties, an array's elements or a string's
   * characters under their index keys, and nothing for a boolean or a number.
   */
  function Spread(v: Value): (m: map<string, Value>)
    ensures v.Obj? ==> m == v.fields
    ensures v.Arr? ==> IndexedBy(m, v.items) && |m| == |v.items|
    ensures v.Str? ==> IndexedBy(m, Characters(v.s)) && |m| == |v.s|
    ensures !v.Obj? && !v.Arr? && !v.Str? ==> m == map[]
  {
    match v
    case Obj(fields) => fields
    case Arr(items) => IndexedCopy(items)
    case Str(s) => IndexedCopy(Characters(s))
    case _ => map[]
  }
}
