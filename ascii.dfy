/**
 * ASCII character classes and case mapping, as JavaScript regular expressions
 * (`[A-Z]`, `\w`, `\s`, `\b`) and `toUpperCase`/`toLowerCase` see them on ASCII text.
 */
module Ascii {

  predicate IsUpper(c: char) { 'A' <= c <= 'Z' }

  predicate IsLower(c: char) { 'a' <= c <= 'z' }

  predicate IsDigit(c: char) { '0' <= c <= '9' }

  /** `[a-zA-Z0-9]` */
  predicate IsAlnum(c: char) { IsUpper(c) || IsLower(c) || IsDigit(c) }

  /** `\w`: letters, digits and the underscore */
  predicate IsWordChar(c: char) { IsAlnum(c) || c == '_' }

  /** `\s` restricted to ASCII: space, tab, line feed, vertical tab, form feed, carriage return */
  predicate IsSpace(c: char) {
    c == ' ' || c == '\t' || c == '\n' || c == '\U{000B}' || c == '\U{000C}' || c == '\r'
  }

  function ToUpper(c: char): (r: char)
    ensures !IsLower(r)
    ensures IsLower(c) ==> IsUpper(r) && r as int == c as int - 32
    ensures !IsLower(c) ==> r == c
  {
    if IsLower(c) then (c as int - 32) as char else c
  }

  function ToLower(c: char): (r: char)
    ensures !IsUpper(r)
    ensures IsUpper(c) ==> IsLower(r) && r as int == c as int + 32
    ensures !IsUpper(c) ==> r == c
  {
    if IsUpper(c) then (c as int + 32) as char else c
  }

  /** Case mapping keeps a character's class under `\w`, `\s` and `[a-zA-Z0-9]`. */
  lemma CaseKeepsClass(c: char)
    ensures IsWordChar(ToUpper(c)) == IsWordChar(c) && IsWordChar(ToLower(c)) == IsWordChar(c)
    ensures IsAlnum(ToUpper(c)) == IsAlnum(c) && IsAlnum(ToLower(c)) == IsAlnum(c)
    ensures IsSpace(ToUpper(c)) == IsSpace(c) && IsSpace(ToLower(c)) == IsSpace(c)
    ensures ToLower(ToUpper(c)) == ToLower(c) && ToUpper(ToLower(c)) == ToUpper(c)
  {
  }

  /** `String.prototype.toLowerCase` on ASCII text */
  function LowerCase(s: string): (r: string)
    ensures |r| == |s|
    ensures forall i :: 0 <= i < |s| ==> r[i] == ToLower(s[i])
  {
    seq(|s|, i requires 0 <= i < |s| => ToLower(s[i]))
  }

  /** A string with no upper-case ASCII letter */
  predicate NoUpper(s: string) { forall i :: 0 <= i < |s| ==> !IsUpper(s[i]) }

  /** `toLowerCase` removes every upper-case letter and is the identity on text that has none. */
  lemma LowerCaseFacts(s: string)
    ensures NoUpper(LowerCase(s))
    ensures NoUpper(s) ==> LowerCase(s) == s
    ensures LowerCase(LowerCase(s)) == LowerCase(s)
  {
  }

  lemma LowerCaseAppend(a: string, b: string)
    ensures LowerCase(a + b) == LowerCase(a) + LowerCase(b)
  {
  }

  /** Every character of `s` that `drop` does not reject, in order: `s.replace(/[...]+/g, '')` */
  function Without(s: string, drop: char -> bool): (r: string)
    ensures |r| <= |s|
    ensures forall i :: 0 <= i < |r| ==> !drop(r[i])
    ensures (forall i :: 0 <= i < |s| ==> !drop(s[i])) ==> r == s
    decreases |s|
  {
    if s == [] then []
    else if drop(s[0]) then Without(s[1..], drop)
    else [s[0]] + Without(s[1..], drop)
  }

  lemma WithoutAppend(a: string, b: string, drop: char -> bool)
    ensures Without(a + b, drop) == Without(a, drop) + Without(b, drop)
    decreases |a|
  {
    if a != [] {
      assert (a + b)[0] == a[0] && (a + b)[1..] == a[1..] + b;
      WithoutAppend(a[1..], b, drop);
    } else {
      assert a + b == b;
    }
  }

  lemma SplitAt(s: string, n: nat)
    requires n <= |s|
    ensures s == s[..n] + s[n..]
  {
  }

  lemma SplitAround(s: string, n: nat)
    requires n < |s|
    ensures s == s[..n] + [s[n]] + s[n + 1..]
  {
  }

  /** Deleting from a text is deleting from a prefix of it and from the rest. */
  lemma WithoutSplit(s: string, n: nat, drop: char -> bool)
    requires n <= |s|
    ensures Without(s, drop) == Without(s[..n], drop) + Without(s[n..], drop)
  {
    SplitAt(s, n);
    WithoutAppend(s[..n], s[n..], drop);
  }

  /** A kept character after a prefix of which nothing is kept comes first. */
  lemma WithoutPrefixCons(a: string, x: char, c: string, drop: char -> bool)
    requires Without(a, drop) == [] && !drop(x)
    ensures Without(a + [x] + c, drop) == [x] + Without(c, drop)
  {
    var b := [x] + c;
    assert a + [x] + c == a + b;
    WithoutAppend(a, b, drop);
    assert b[0] == x && b[1..] == c;
  }

  /** When nothing of `s[..n]` is kept and `s[n]` is, `s[n]` comes first. */
  lemma WithoutAfterPrefix(s: string, n: nat, drop: char -> bool)
    requires n < |s| && Without(s[..n], drop) == [] && !drop(s[n])
    ensures Without(s, drop) == [s[n]] + Without(s[n + 1..], drop)
  {
    SplitAround(s, n);
    WithoutPrefixCons(s[..n], s[n], s[n + 1..], drop);
  }

  /** A text made only of dropped characters leaves nothing. */
  lemma {:induction false} WithoutAllDropped(s: string, drop: char -> bool)
    requires forall i :: 0 <= i < |s| ==> drop(s[i])
    ensures Without(s, drop) == []
    decreases |s|
  {
    if s != [] {
      assert drop(s[0]);
      WithoutAllDropped(s[1..], drop);
    }
  }

  /** The alphanumeric characters of `s`, folded to lower case, in order: what a case conversion must not lose. */
  function Letters(s: string): (r: string)
    decreases |s|
  {
    if s == [] then []
    else if IsAlnum(s[0]) then [ToLower(s[0])] + Letters(s[1..])
    else Letters(s[1..])
  }

  lemma LettersAppend(a: string, b: string)
    ensures Letters(a + b) == Letters(a) + Letters(b)
    decreases |a|
  {
    if a != [] {
      assert (a + b)[0] == a[0] && (a + b)[1..] == a[1..] + b;
      LettersAppend(a[1..], b);
    } else {
      assert a + b == b;
    }
  }

  /** Dropping characters that are not alphanumeric does not change `Letters`. */
  lemma {:induction false} LettersWithout(s: string, drop: char -> bool)
    requires forall c :: drop(c) ==> !IsAlnum(c)
    ensures Letters(Without(s, drop)) == Letters(s)
    decreases |s|
  {
    if s != [] {
      LettersWithout(s[1..], drop);
      if !drop(s[0]) {
        LettersAppend([s[0]], Without(s[1..], drop));
      }
    }
  }

  /** Changing the case of characters one by one does not change `Letters`. */
  lemma {:induction false} LettersCaseInsensitive(s: string, t: string)
    requires |s| == |t|
    requires forall i :: 0 <= i < |s| ==> ToLower(s[i]) == ToLower(t[i])
    ensures Letters(s) == Letters(t)
    decreases |s|
  {
    if s != [] {
      CaseKeepsClass(s[0]);
      CaseKeepsClass(t[0]);
      assert IsAlnum(s[0]) == IsAlnum(ToLower(s[0])) == IsAlnum(ToLower(t[0])) == IsAlnum(t[0]);
      LettersCaseInsensitive(s[1..], t[1..]);
    }
  }
}
