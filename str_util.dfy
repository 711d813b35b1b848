/**
 * src/utils/str.util.js: the `Str` helpers. `title` and `lower` take a string or `null`
 * (`None` stands for `null` and `undefined`); `attributes` takes any value.
 */
module StrUtil {
  import opened Ascii
  import opened Wrappers
  import opened JsValue

  /** `\b\w` matches at `i`: a word character that opens the text or follows a non-word character */
  predicate WordStartAt(s: string, i: nat)
    requires i < |s|
  {
    IsWordChar(s[i]) && (i == 0 || !IsWordChar(s[i - 1]))
  }

  /** `.replace(/\b\w/g, (char) => char.toUpperCase())` on `s[i..]`, the scan standing at `i` */
  function UpcaseWordStarts(s: string, i: nat): string
    requires i <= |s|
    decreases |s| - i
  {
    if i == |s| then []
    else [if WordStartAt(s, i) then ToUpper(s[i]) else s[i]] + UpcaseWordStarts(s, i + 1)
  }

  lemma {:induction false} UpcaseWordStartsAt(s: string, i: nat)
    requires i <= |s|
    ensures |UpcaseWordStarts(s, i)| == |s| - i
    ensures forall j :: i <= j < |s| ==>
      UpcaseWordStarts(s, i)[j - i] == if WordStartAt(s, j) then ToUpper(s[j]) else s[j]
    decreases |s| - i
  {
    if i < |s| {
      UpcaseWordStartsAt(s, i + 1);
    }
  }

  /** Lower-casing moves no word start. */
  lemma WordStartsOfLowerCase(s: string, i: nat)
    requires i < |s|
    ensures WordStartAt(LowerCase(s), i) == WordStartAt(s, i)
  {
    CaseKeepsClass(s[i]);
    if i > 0 {
      CaseKeepsClass(s[i - 1]);
    }
  }

  /**
   * `Str.title`: `null` for `null`, `undefined` or the empty string; otherwise the same text,
   * each character in the same letter as before, upper case at a word start and lower case elsewhere.
   */
  function Title(text: Option<string>): (r: Option<string>)
    ensures r.None? <==> text.None? || text == Some("")
    ensures r.Some? ==> |r.value| == |text.value|
    ensures r.Some? ==> forall i :: 0 <= i < |text.value| ==>
      && ToLower(r.value[i]) == ToLower(text.value[i])
      && (WordStartAt(text.value, i) ==> !IsLower(r.value[i]))
      && (!WordStartAt(text.value, i) ==> !IsUpper(r.value[i]))
  {
    match text
    case None => None
    case Some(t) =>
      if t == "" then None
      else
        var l := LowerCase(t);
        UpcaseWordStartsAt(l, 0);
        TitleCharacters(t, UpcaseWordStarts(l, 0));
        Some(UpcaseWordStarts(l, 0))
  }

  lemma TitleCharacters(t: string, r: string)
    requires |r| == |t|
    requires forall j :: 0 <= j < |t| ==>
      r[j] == if WordStartAt(LowerCase(t), j) then ToUpper(LowerCase(t)[j]) else LowerCase(t)[j]
    ensures forall i :: 0 <= i < |t| ==>
      && ToLower(r[i]) == ToLower(t[i])
      && (WordStartAt(t, i) ==> !IsLower(r[i]))
      && (!WordStartAt(t, i) ==> !IsUpper(r[i]))
  {
    forall i | 0 <= i < |t|
      ensures ToLower(r[i]) == ToLower(t[i])
      ensures WordStartAt(t, i) ==> !IsLower(r[i])
      ensures !WordStartAt(t, i) ==> !IsUpper(r[i])
    {
      WordStartsOfLowerCase(t, i);
      CaseKeepsClass(t[i]);
    }
  }

  /** A character is fixed by its lower-case form and by whether it is upper case or lower case. */
  lemma CaseDetermines(a: char, b: char)
    requires ToLower(a) == ToLower(b)
    requires IsUpper(a) == IsUpper(b) && IsLower(a) == IsLower(b)
    ensures a == b
  {
  }

  /** The contract of `Title` pins the result down: it is the only string with those properties. */
  lemma TitleUnique(t: string, r: string)
    requires t != ""
    requires |r| == |t|
    requires forall i :: 0 <= i < |t| ==>
      && ToLower(r[i]) == ToLower(t[i])
      && (WordStartAt(t, i) ==> !IsLower(r[i]))
      && (!WordStartAt(t, i) ==> !IsUpper(r[i]))
    ensures Title(Some(t)) == Some(r)
  {
    var u := Title(Some(t)).value;
    assert |u| == |t|;
    forall i | 0 <= i < |t| ensures u[i] == r[i] {
      CaseDetermines(u[i], r[i]);
    }
    assert u == r;
  }

  /** `title` turns text with the same lower-case form into the same result. */
  lemma TitleOfLowerCase(a: string, b: string)
    requires a != [] && LowerCase(a) == LowerCase(b)
    ensures Title(Some(a)) == Title(Some(b))
  {
    assert |b| == |a|;
  }

  /** `title(title(s)) == title(s)` */
  lemma TitleIdempotent(text: Option<string>)
    ensures Title(Title(text)) == Title(text)
  {
    if Title(text).Some? {
      var t, r := text.value, Title(text).value;
      assert LowerCase(r) == LowerCase(t);
      TitleOfLowerCase(r, t);
    }
  }

  /** A dash opens a word; an underscore, being a word character, does not. */
  lemma TitleExamples()
    ensures Title(Some("aB-c")) == Some("Ab-C")
    ensures Title(Some("a_B")) == Some("A_b")
  {
    assert WordStartAt("aB-c", 0) && !WordStartAt("aB-c", 1) && !WordStartAt("aB-c", 2) && WordStartAt("aB-c", 3);
    TitleUnique("aB-c", "Ab-C");
    assert WordStartAt("a_B", 0) && !WordStartAt("a_B", 1) && !WordStartAt("a_B", 2);
    TitleUnique("a_B", "A_b");
  }

  /** `Str.lower`: `null` for `null`, `undefined` or the empty string, otherwise the lower-case text */
  function Lower(text: Option<string>): (r: Option<string>)
    ensures r.None? <==> text.None? || text == Some("")
    ensures r.Some? ==> |r.value| == |text.value| && NoUpper(r.value)
    ensures r.Some? ==> forall i :: 0 <= i < |text.value| ==> ToLower(r.value[i]) == ToLower(text.value[i])
  {
    match text
    case None => None
    case Some(t) =>
      if t == "" then None
      else
        LowerCaseFacts(t);
        Some(LowerCase(t))
  }

  /** `lower(lower(s)) == lower(s)`, and lower-case text is its own `lower` */
  lemma LowerIdempotent(text: Option<string>)
    ensures Lower(Lower(text)) == Lower(text)
    ensures text.Some? && text.value != "" && NoUpper(text.value) ==> Lower(text) == text
  {
    if text.Some? && text.value != "" {
      LowerCaseFacts(text.value);
    }
  }

  /**
   * `title(s)` and `lower(s)` are both `null` or neither; they differ only at word starts, where
   * `title` has the upper-case form of `lower`'s character.
   */
  lemma TitleAgreesWithLower(text: Option<string>)
    ensures Title(text).None? <==> Lower(text).None?
    ensures Title(text).Some? ==> forall i :: 0 <= i < |text.value| ==>
      Title(text).value[i] == if WordStartAt(text.value, i) then ToUpper(Lower(text).value[i]) else Lower(text).value[i]
  {
    if Title(text).Some? {
      var t, r, l := text.value, Title(text).value, Lower(text).value;
      forall i | 0 <= i < |t|
        ensures r[i] == if WordStartAt(t, i) then ToUpper(l[i]) else l[i]
      {
        CaseKeepsClass(t[i]);
        CaseDetermines(r[i], if WordStartAt(t, i) then ToUpper(l[i]) else l[i]);
      }
    }
  }

  /**
   * `Str.attributes`: `null` for a missing or falsy argument; otherwise an object whose only
   * property `attributes` holds a shallow copy of the argument, which is truthy even when empty.
   */
  function Attributes(data: Value := Null): (r: Value)
    ensures Falsy(data) <==> r == Null
    ensures !Falsy(data) ==> r.Obj? && r.fields.Keys == {"attributes"} && r.fields["attributes"] == Obj(Spread(data))
  {
    if Falsy(data) then Null else Obj(map["attributes" := Obj(Spread(data))])
  }
}
