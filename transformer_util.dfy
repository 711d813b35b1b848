/**
 * lib/utils/transformer.util.js: the memoising `Transformer`. One transformer owns one cache
 * from keys to formatted values; `generateHash` computes the key from the data alone and the
 * subclass's `_format` hook computes a value on a miss, or throws.
 *
 * The pure functions `Single`, `Many` and `TransformSpec` say what one call returns, which cache
 * it leaves and which hook calls it makes; the class's methods are proved to do exactly that.
 */
module TransformerUtil {
  import opened Wrappers
  import opened JsValue

  /** The optional `lang` argument; `None` is `undefined` */
  type Lang = Option<string>

  /** A cache key, the string `JSON.stringify(data)` returns */
  type Key = string

  /** One invocation of the `_format` hook */
  datatype Call = Call(data: Value, lang: Lang)

  /** A `_format` hook: the formatted value, or the message of the error it throws */
  type Formatter = (Value, Lang) -> Result<Value, string>

  const NotImplemented: string := "The _format method must be implemented in subclasses."

  /** The base class's `_format`, which always throws */
  function BaseFormat(data: Value, lang: Lang): Result<Value, string> {
    Failure(NotImplemented)
  }

  /** What a call returns (or throws), the cache it leaves behind and the hook calls it makes, in order */
  datatype Step<T> = Step(result: Result<T, string>, cache: map<Key, Value>, calls: seq<Call>)

  /** `transformSingle`: a hit replays the stored value with `|| null`; a miss formats and stores the result. */
  function Single(keyOf: Value -> Key, format: Formatter, cache: map<Key, Value>, data: Value, lang: Lang): Step<Value> {
    var hash := keyOf(data);
    if hash in cache then Step(Success(OrNull(cache[hash])), cache, [])
    else
      match format(data, lang)
      case Failure(e) => Step(Failure(e), cache, [Call(data, lang)])
      case Success(v) => Step(Success(v), cache[hash := v], [Call(data, lang)])
  }

  /** `data.map(item => this.transformSingle(item, lang))`: left to right, each item seeing the cache the previous one left; a throw ends the map. */
  function Many(keyOf: Value -> Key, format: Formatter, cache: map<Key, Value>, items: seq<Value>, lang: Lang): Step<seq<Value>>
    decreases |items|
  {
    if items == [] then Step(Success([]), cache, [])
    else
      var s := Single(keyOf, format, cache, items[0], lang);
      match s.result
      case Failure(e) => Step(Failure(e), s.cache, s.calls)
      case Success(v) => Prepend([v], s.calls, Many(keyOf, format, s.cache, items[1..], lang))
  }

  /** The results `acc` and the calls `log` of earlier items, put in front of a later step */
  function Prepend(acc: seq<Value>, log: seq<Call>, m: Step<seq<Value>>): Step<seq<Value>> {
    Step(if m.result.Success? then Success(acc + m.result.value) else m.result, m.cache, log + m.calls)
  }

  /** `transform`: `null` for falsy data, an array of results for an array, otherwise `transformSingle` */
  function TransformSpec(keyOf: Value -> Key, format: Formatter, cache: map<Key, Value>, data: Value, lang: Lang): Step<Value> {
    if Falsy(data) then Step(Success(Null), cache, [])
    else if data.Arr? then
      var m := Many(keyOf, format, cache, data.items, lang);
      Step(if m.result.Success? then Success(Arr(m.result.value)) else Failure(m.result.error), m.cache, m.calls)
    else Single(keyOf, format, cache, data, lang)
  }

  lemma PrependPrepend(a: seq<Value>, la: seq<Call>, b: seq<Value>, lb: seq<Call>, m: Step<seq<Value>>)
    ensures Prepend(a, la, Prepend(b, lb, m)) == Prepend(a + b, la + lb, m)
  {
    if m.result.Success? {
      assert a + (b + m.result.value) == (a + b) + m.result.value;
    }
    assert la + (lb + m.calls) == (la + lb) + m.calls;
  }

  /** `Many` on `items[i..]` is the call on `items[i]` followed by `Many` on the rest. */
  lemma ManyUnfold(keyOf: Value -> Key, format: Formatter, cache: map<Key, Value>, items: seq<Value>, i: nat, lang: Lang)
    requires i < |items|
    ensures var s := Single(keyOf, format, cache, items[i], lang);
      Many(keyOf, format, cache, items[i..], lang) ==
        if s.result.Failure? then Step(Failure(s.result.error), s.cache, s.calls)
        else Prepend([s.result.value], s.calls, Many(keyOf, format, s.cache, items[i + 1..], lang))
  {
    assert items[i..][0] == items[i] && items[i..][1..] == items[i + 1..];
  }

  /** One turn of the loop in `TransformEach`: the call on `items[i]` moves into the finished prefix. */
  lemma ManyStep(keyOf: Value -> Key, format: Formatter, goal: Step<seq<Value>>, cache: map<Key, Value>,
                 items: seq<Value>, i: nat, lang: Lang, results: seq<Value>, log: seq<Call>)
    requires i < |items|
    requires goal == Prepend(results, log, Many(keyOf, format, cache, items[i..], lang))
    ensures var s := Single(keyOf, format, cache, items[i], lang);
      goal ==
        if s.result.Failure? then Step(Failure(s.result.error), s.cache, log + s.calls)
        else Prepend(results + [s.result.value], log + s.calls, Many(keyOf, format, s.cache, items[i + 1..], lang))
  {
    var s := Single(keyOf, format, cache, items[i], lang);
    ManyUnfold(keyOf, format, cache, items, i, lang);
    if s.result.Success? {
      PrependPrepend(results, log, [s.result.value], s.calls, Many(keyOf, format, s.cache, items[i + 1..], lang));
    }
  }

  /** Before the loop in `TransformEach` nothing is finished. */
  lemma ManyStart(keyOf: Value -> Key, format: Formatter, cache: map<Key, Value>, items: seq<Value>, lang: Lang)
    ensures Many(keyOf, format, cache, items, lang) == Prepend([], [], Many(keyOf, format, cache, items[0..], lang))
  {
    var m := Many(keyOf, format, cache, items, lang);
    assert items[0..] == items;
    if m.result.Success? {
      assert [] + m.result.value == m.result.value;
    }
    assert [] + m.calls == m.calls;
  }

  /** After the loop in `TransformEach` everything is finished. */
  lemma ManyDone(keyOf: Value -> Key, format: Formatter, cache: map<Key, Value>, items: seq<Value>, i: nat, lang: Lang,
                 results: seq<Value>, log: seq<Call>)
    requires i == |items|
    ensures Prepend(results, log, Many(keyOf, format, cache, items[i..], lang)) == Step(Success(results), cache, log)
  {
    assert items[i..] == [];
    assert results + [] == results && log + [] == log;
  }

  lemma AppendAssoc<T>(a: seq<T>, b: seq<T>, c: seq<T>)
    ensures (a + b) + c == a + (b + c)
  {
  }

  class Transformer {
    /** `Transformer.cache`: the formatted values stored so far, by key */
    var cache: map<Key, Value>
    /** Every call of the `_format` hook so far, in order */
    ghost var calls: seq<Call>
    /** `JSON.stringify`, as `generateHash` uses it */
    const keyOf: Value -> Key
    /** The subclass's `_format` */
    const format: Formatter

    /** `static cache = new Map()` */
    constructor (keyOf: Value -> Key, format: Formatter)
      ensures this.keyOf == keyOf && this.format == format
      ensures cache == map[] && calls == []
    {
      this.keyOf := keyOf;
      this.format := format;
      cache := map[];
      calls := [];
    }

    /** `generateHash(data, lang)`: the key of `data`; `lang` plays no part */
    method GenerateHash(data: Value, lang: Lang) returns (hash: Key)
      ensures hash == keyOf(data)
    {
      hash := keyOf(data);
    }

    /** `transformSingle(data, lang)` */
    method TransformSingle(data: Value, lang: Lang) returns (r: Result<Value, string>)
      modifies this
      ensures var s := Single(keyOf, format, old(cache), data, lang);
        r == s.result && cache == s.cache && calls == old(calls) + s.calls
    {
      var hash := GenerateHash(data, lang);
      if hash in cache {
        return Success(OrNull(cache[hash]));
      }
      r := format(data, lang);
      calls := calls + [Call(data, lang)];
      if r.Success? {
        cache := cache[hash := r.value];
      }
    }

    /** `transform(data, lang)` */
    method Transform(data: Value, lang: Lang) returns (r: Result<Value, string>)
      modifies this
      ensures var s := TransformSpec(keyOf, format, old(cache), data, lang);
        r == s.result && cache == s.cache && calls == old(calls) + s.calls
    {
      if Falsy(data) {
        return Success(Null);
      }
      if !data.Arr? {
        r := TransformSingle(data, lang);
        return;
      }
      var results := TransformEach(data.items, lang);
      if results.Failure? {
        return Failure(results.error);
      }
      return Success(Arr(results.value));
    }

    /** `data.map(item => this.transformSingle(item, lang))` in `transform` */
    method TransformEach(items: seq<Value>, lang: Lang) returns (r: Result<seq<Value>, string>)
      modifies this
      ensures var m := Many(keyOf, format, old(cache), items, lang);
        r == m.result && cache == m.cache && calls == old(calls) + m.calls
    {
      ghost var goal := Many(keyOf, format, cache, items, lang);
      ghost var calls0 := calls;
      var results: seq<Value> := [];
      ghost var log: seq<Call> := [];
      var i := 0;
      ManyStart(keyOf, format, cache, items, lang);
      r := Success([]);
      while i < |items| && r.Success?
        invariant 0 <= i <= |items|
        invariant calls == calls0 + log
        invariant r.Success? ==> goal == Prepend(results, log, Many(keyOf, format, cache, items[i..], lang))
        invariant r.Failure? ==> goal == Step(r, cache, log)
        decreases |items| - i, r.Success?
      {
        ghost var s := Single(keyOf, format, cache, items[i], lang);
        ManyStep(keyOf, format, goal, cache, items, i, lang, results, log);
        AppendAssoc(calls0, log, s.calls);
        var v := TransformSingle(items[i], lang);
        if v.Success? {
          results, i := results + [v.value], i + 1;
        } else {
          r := Failure(v.error);
        }
        log := log + s.calls;
      }
      if r.Success? {
        ManyDone(keyOf, format, cache, items, i, lang, results, log);
        r := Success(results);
      }
    }
  }

  // ------------------------------------------------------------------ properties

  /** Every entry of `before` is still in `after`, with the same value. */
  predicate Extends(after: map<Key, Value>, before: map<Key, Value>) {
    forall k :: k in before ==> k in after && after[k] == before[k]
  }

  /** The keys of the data the hook was called on */
  function CalledKeys(keyOf: Value -> Key, calls: seq<Call>): set<Key> {
    set i | 0 <= i < |calls| :: keyOf(calls[i].data)
  }

  /** The hook was called only on keys missing from `before`, and at most once per key. */
  predicate OnlyMisses(keyOf: Value -> Key, before: map<Key, Value>, calls: seq<Call>) {
    && (forall i :: 0 <= i < |calls| ==> keyOf(calls[i].data) !in before)
    && (forall i, j :: 0 <= i < j < |calls| ==> keyOf(calls[i].data) != keyOf(calls[j].data))
  }

  /**
   * `transformSingle`: a hit returns the stored value or `null`, calls nothing and keeps the
   * cache; a miss calls the hook once and, unless it throws, adds exactly that one entry.
   */
  lemma SingleHitOrMiss(keyOf: Value -> Key, format: Formatter, cache: map<Key, Value>, data: Value, lang: Lang)
    ensures var s := Single(keyOf, format, cache, data, lang);
      && Extends(s.cache, cache)
      && (keyOf(data) in cache ==> s.result == Success(OrNull(cache[keyOf(data)])) && s.cache == cache && s.calls == [])
      && (keyOf(data) !in cache ==> s.result == format(data, lang) && s.calls == [Call(data, lang)])
      && (keyOf(data) !in cache && s.result.Success? ==>
            s.cache == cache[keyOf(data) := s.result.value] && |s.cache| == |cache| + 1)
      && (s.result.Failure? ==> s.cache == cache)
  {
  }

  lemma CalledKeysAppend(keyOf: Value -> Key, a: seq<Call>, b: seq<Call>)
    ensures CalledKeys(keyOf, a + b) == CalledKeys(keyOf, a) + CalledKeys(keyOf, b)
  {
    var ab := a + b;
    forall k ensures k in CalledKeys(keyOf, ab) <==> k in CalledKeys(keyOf, a) + CalledKeys(keyOf, b) {
      if k in CalledKeys(keyOf, ab) {
        var i :| 0 <= i < |ab| && keyOf(ab[i].data) == k;
        if i >= |a| {
          assert b[i - |a|] == ab[i];
        }
      }
      if k in CalledKeys(keyOf, a) {
        var i :| 0 <= i < |a| && keyOf(a[i].data) == k;
        assert ab[i] == a[i];
      }
      if k in CalledKeys(keyOf, b) {
        var i :| 0 <= i < |b| && keyOf(b[i].data) == k;
        assert ab[|a| + i] == b[i];
      }
    }
  }

  /** A call on a miss that stored its key, followed by calls on later misses, still calls only on misses. */
  lemma OnlyMissesCons(keyOf: Value -> Key, cache: map<Key, Value>, mid: map<Key, Value>, c: Call, rest: seq<Call>)
    requires keyOf(c.data) !in cache && keyOf(c.data) in mid && Extends(mid, cache)
    requires OnlyMisses(keyOf, mid, rest)
    ensures OnlyMisses(keyOf, cache, [c] + rest)
  {
    var all := [c] + rest;
    forall i | 0 <= i < |all| ensures keyOf(all[i].data) !in cache {
      if i > 0 {
        assert all[i] == rest[i - 1];
      }
    }
    forall i, j | 0 <= i < j < |all| ensures keyOf(all[i].data) != keyOf(all[j].data) {
      assert all[j] == rest[j - 1];
      if i > 0 {
        assert all[i] == rest[i - 1];
      }
    }
  }

  /**
   * One `transform` of an array: the cache only grows, every new key is the key of an item the
   * hook was called on, and the hook is called only on misses and at most once per key, even
   * when several items share a key.
   */
  lemma {:induction false} ManyGrows(keyOf: Value -> Key, format: Formatter, cache: map<Key, Value>, items: seq<Value>, lang: Lang)
    ensures var m := Many(keyOf, format, cache, items, lang);
      && Extends(m.cache, cache)
      && m.cache.Keys <= cache.Keys + CalledKeys(keyOf, m.calls)
      && OnlyMisses(keyOf, cache, m.calls)
      && |m.calls| <= |items|
    decreases |items|
  {
    if items != [] {
      var s := Single(keyOf, format, cache, items[0], lang);
      SingleHitOrMiss(keyOf, format, cache, items[0], lang);
      if s.result.Success? {
        var rest := Many(keyOf, format, s.cache, items[1..], lang);
        ManyGrows(keyOf, format, s.cache, items[1..], lang);
        CalledKeysAppend(keyOf, s.calls, rest.calls);
        if s.calls == [] {
          assert s.calls + rest.calls == rest.calls;
        } else {
          OnlyMissesCons(keyOf, cache, s.cache, s.calls[0], rest.calls);
          assert s.calls == [s.calls[0]];
        }
      }
    }
  }

  /** The same for `transform`, whatever its input. */
  lemma TransformGrows(keyOf: Value -> Key, format: Formatter, cache: map<Key, Value>, data: Value, lang: Lang)
    ensures var s := TransformSpec(keyOf, format, cache, data, lang);
      && Extends(s.cache, cache)
      && s.cache.Keys <= cache.Keys + CalledKeys(keyOf, s.calls)
      && OnlyMisses(keyOf, cache, s.calls)
      && (Falsy(data) ==> s == Step(Success(Null), cache, []))
  {
    if !Falsy(data) {
      if data.Arr? {
        ManyGrows(keyOf, format, cache, data.items, lang);
      } else {
        SingleHitOrMiss(keyOf, format, cache, data, lang);
        var s := Single(keyOf, format, cache, data, lang);
        if s.calls != [] {
          assert keyOf(s.calls[0].data) in CalledKeys(keyOf, s.calls);
        }
      }
    }
  }

  /**
   * After a successful `transform` of an array there is one result per item, null items
   * included, and each item's key is stored with a value that replays as that item's result.
   */
  lemma {:induction false} ManyResults(keyOf: Value -> Key, format: Formatter, cache: map<Key, Value>, items: seq<Value>, lang: Lang)
    ensures var m := Many(keyOf, format, cache, items, lang);
      m.result.Success? ==> StoredAs(keyOf, m.cache, items, m.result.value)
    decreases |items|
  {
    var m := Many(keyOf, format, cache, items, lang);
    if items != [] && m.result.Success? {
      var s := Single(keyOf, format, cache, items[0], lang);
      SingleHitOrMiss(keyOf, format, cache, items[0], lang);
      OrNullIdempotent(s.result.value);
      var rest := Many(keyOf, format, s.cache, items[1..], lang);
      ManyResults(keyOf, format, s.cache, items[1..], lang);
      ManyGrows(keyOf, format, s.cache, items[1..], lang);
      StoredCons(keyOf, m.cache, items, s.result.value, rest.result.value);
    }
  }

  /** Every item's key is stored in `cache` with a value that replays as the item's result. */
  predicate StoredAs(keyOf: Value -> Key, cache: map<Key, Value>, items: seq<Value>, results: seq<Value>) {
    && |results| == |items|
    && forall i :: 0 <= i < |items| ==> keyOf(items[i]) in cache && OrNull(cache[keyOf(items[i])]) == OrNull(results[i])
  }

  lemma StoredCons(keyOf: Value -> Key, cache: map<Key, Value>, items: seq<Value>, v: Value, rest: seq<Value>)
    requires |items| > 0
    requires keyOf(items[0]) in cache && OrNull(cache[keyOf(items[0])]) == OrNull(v)
    requires StoredAs(keyOf, cache, items[1..], rest)
    ensures StoredAs(keyOf, cache, items, [v] + rest)
  {
    var results := [v] + rest;
    forall i | 0 < i < |items|
      ensures keyOf(items[i]) in cache && OrNull(cache[keyOf(items[i])]) == OrNull(results[i])
    {
      assert items[i] == items[1..][i - 1] && results[i] == rest[i - 1];
    }
  }

  /** When every item is already cached, `transform` replays the stored values and changes nothing. */
  lemma {:induction false} ManyAllHits(keyOf: Value -> Key, format: Formatter, cache: map<Key, Value>, items: seq<Value>, lang: Lang)
    requires forall i :: 0 <= i < |items| ==> keyOf(items[i]) in cache
    ensures var m := Many(keyOf, format, cache, items, lang);
      && m.result.Success? && m.cache == cache && m.calls == []
      && |m.result.value| == |items|
      && forall i :: 0 <= i < |items| ==> m.result.value[i] == OrNull(cache[keyOf(items[i])])
    decreases |items|
  {
    if items != [] {
      var m := Many(keyOf, format, cache, items, lang);
      var rest := Many(keyOf, format, cache, items[1..], lang);
      assert forall i :: 0 <= i < |items[1..]| ==> items[1..][i] == items[i + 1];
      ManyAllHits(keyOf, format, cache, items[1..], lang);
      forall i | 0 < i < |items| ensures m.result.value[i] == OrNull(cache[keyOf(items[i])]) {
        assert m.result.value[i] == rest.result.value[i - 1];
      }
    }
  }

  /** What a repeated `transform` returns: each cached value replayed through `|| null` */
  function Replayed(data: Value, v: Value): Value {
    if data.Arr? && v.Arr? then Arr(seq(|v.items|, i requires 0 <= i < |v.items| => OrNull(v.items[i])))
    else OrNull(v)
  }

  /**
   * Transforming the same data again, in any language, calls no hook, changes no entry and
   * returns the first results with `|| null` applied: a falsy value formatted once comes back as `null`.
   */
  lemma TransformTwice(keyOf: Value -> Key, format: Formatter, cache: map<Key, Value>, data: Value, lang: Lang, lang': Lang)
    requires TransformSpec(keyOf, format, cache, data, lang).result.Success?
    ensures var s1 := TransformSpec(keyOf, format, cache, data, lang);
      var s2 := TransformSpec(keyOf, format, s1.cache, data, lang');
      s2.calls == [] && s2.cache == s1.cache && s2.result == Success(Replayed(data, s1.result.value))
  {
    var s1 := TransformSpec(keyOf, format, cache, data, lang);
    if !Falsy(data) {
      if data.Arr? {
        ManyResults(keyOf, format, cache, data.items, lang);
        ManyAllHits(keyOf, format, s1.cache, data.items, lang');
        var m := Many(keyOf, format, s1.cache, data.items, lang');
        assert m.result.value == Replayed(data, s1.result.value).items;
      } else {
        SingleHitOrMiss(keyOf, format, cache, data, lang);
        OrNullIdempotent(s1.result.value);
      }
    }
  }

  /**
   * The key ignores `lang`: once data is cached, any call whose data has the same key, in any
   * language, returns the first result (through `|| null`) without calling the hook.
   */
  lemma LangIgnored(keyOf: Value -> Key, format: Formatter, cache: map<Key, Value>, data: Value, lang: Lang, data': Value, lang': Lang)
    requires keyOf(data') == keyOf(data)
    requires Single(keyOf, format, cache, data, lang).result.Success?
    ensures var s1 := Single(keyOf, format, cache, data, lang);
      Single(keyOf, format, s1.cache, data', lang') == Step(Success(OrNull(s1.result.value)), s1.cache, [])
  {
    var s1 := Single(keyOf, format, cache, data, lang);
    OrNullIdempotent(s1.result.value);
  }

  /** With the base `_format`, nothing is ever stored, and a call succeeds only where every key is already cached. */
  lemma {:induction false} BaseMany(keyOf: Value -> Key, cache: map<Key, Value>, items: seq<Value>, lang: Lang)
    ensures var m := Many(keyOf, BaseFormat, cache, items, lang);
      && m.cache == cache
      && (m.result.Success? <==> forall i :: 0 <= i < |items| ==> keyOf(items[i]) in cache)
      && (m.result.Failure? ==> m.result.error == NotImplemented)
    decreases |items|
  {
    if items != [] {
      BaseMany(keyOf, cache, items[1..], lang);
      assert forall i :: 0 <= i < |items[1..]| ==> items[1..][i] == items[i + 1];
    }
  }

  /**
   * The base `Transformer`, whose cache starts empty and so stays empty, fails with the
   * not-implemented error on all input except falsy input and the empty array.
   */
  lemma BaseTransformerFails(keyOf: Value -> Key, data: Value, lang: Lang)
    ensures var s := TransformSpec(keyOf, BaseFormat, map[], data, lang);
      && s.cache == map[]
      && (s.result.Success? <==> Falsy(data) || data == Arr([]))
      && (s.result.Failure? ==> s.result.error == NotImplemented)
  {
    if !Falsy(data) && data.Arr? {
      BaseMany(keyOf, map[], data.items, lang);
      var empty: map<Key, Value> := map[];
      if data.items != [] {
        assert keyOf(data.items[0]) !in empty;
      }
    }
  }

  /** A hook that never throws makes `transform` succeed, with one result per array item. */
  lemma {:induction false} ManyTotal(keyOf: Value -> Key, format: Formatter, cache: map<Key, Value>, items: seq<Value>, lang: Lang)
    requires forall d, l :: format(d, l).Success?
    ensures var m := Many(keyOf, format, cache, items, lang);
      m.result.Success? && |m.result.value| == |items|
    decreases |items|
  {
    if items != [] {
      var s := Single(keyOf, format, cache, items[0], lang);
      ManyTotal(keyOf, format, s.cache, items[1..], lang);
    }
  }

  lemma TotalFormatter(keyOf: Value -> Key, format: Formatter, cache: map<Key, Value>, data: Value, lang: Lang)
    requires forall d, l :: format(d, l).Success?
    ensures var s := TransformSpec(keyOf, format, cache, data, lang);
      && s.result.Success?
      && (!Falsy(data) && data.Arr? ==> s.result.value.Arr? && |s.result.value.items| == |data.items|)
  {
    if !Falsy(data) && data.Arr? {
      ManyTotal(keyOf, format, cache, data.items, lang);
    }
  }

  /** A hook that formats every record as `0` */
  function ZeroFormat(data: Value, lang: Lang): Result<Value, string> {
    Success(Num(0))
  }

  /** `0` is stored, but `cache.get(hash) || null` hands it back as `null`. */
  lemma FalsyResultReplayedAsNull(keyOf: Value -> Key, data: Value)
    ensures var s1 := Single(keyOf, ZeroFormat, map[], data, None);
      var s2 := Single(keyOf, ZeroFormat, s1.cache, data, None);
      s1.result == Success(Num(0)) && s2.result == Success(Null) && s2.calls == []
  {
  }

  /** A hook that greets in English or German */
  function GreetingFormat(data: Value, lang: Lang): Result<Value, string> {
    Success(Str(if lang == Some("en") then "hello" else "hallo"))
  }

  /** A German request after an English one for the same data gets the English result. */
  lemma LangExample(keyOf: Value -> Key, data: Value)
    ensures GreetingFormat(data, Some("de")) == Success(Str("hallo"))
    ensures var s1 := Single(keyOf, GreetingFormat, map[], data, Some("en"));
      Single(keyOf, GreetingFormat, s1.cache, data, Some("de")).result == Success(Str("hello"))
  {
  }
}
