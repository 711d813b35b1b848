/**
 * The `Command` string helpers of lib/utils/command.util.js. Their case converters are written
 * differently from those of src/utils/command.util.js and behave differently.
 */
module LibCommand {
  import opened Ascii
  import SuffixPattern
  import Stubs
  import SrcCommand

  // ---------------------------------------------------------------- toKebabCase

  /** What the replace makes of one character: a capital becomes a dash and its lower case. */
  function DashImage(c: char): string
  {
    if IsUpper(c) then ['-', ToLower(c)] else [c]
  }

  /** `.replace(/[A-Z]/g, match => `-${match.toLowerCase()}`)` */
  function DashBeforeUpper(s: string): (r: string)
    ensures NoUpper(r)
    ensures NoUpper(s) ==> r == s
    decreases |s|
  {
    if s == [] then [] else DashImage(s[0]) + DashBeforeUpper(s[1..])
  }

  /** A one-character text is replaced by the image of its character. */
  lemma DashBeforeUpperOne(c: char)
    ensures DashBeforeUpper([c]) == DashImage(c)
  {
    assert [c][1..] == [];
  }

  /**
   * Every match is replaced independently: the replace of a concatenation is the concatenation of
   * the replaces, so with `DashBeforeUpperOne` the result is the images of the characters, in order.
   */
  lemma {:induction false} DashBeforeUpperAppend(a: string, b: string)
    ensures DashBeforeUpper(a + b) == DashBeforeUpper(a) + DashBeforeUpper(b)
    decreases |a|
  {
    if a == [] {
      assert a + b == b;
    } else {
      assert (a + b)[0] == a[0] && (a + b)[1..] == a[1..] + b;
      DashBeforeUpperAppend(a[1..], b);
      assert DashImage(a[0]) + (DashBeforeUpper(a[1..]) + DashBeforeUpper(b))
        == DashImage(a[0]) + DashBeforeUpper(a[1..]) + DashBeforeUpper(b);
    }
  }

  predicate StartsWithDash(s: string) { |s| > 0 && s[0] == '-' }

  /** `.replace(/^-/, '')`: putting back the one leading dash it removes, if any, gives the input again */
  function StripLeadingDash(s: string): (r: string)
    ensures s == (if StartsWithDash(s) then "-" else "") + r
  {
    if |s| > 0 && s[0] == '-' then s[1..] else s
  }

  /**
   * lib/utils/command.util.js `toKebabCase`: no upper-case letter survives, and text with none
   * that does not open with a dash is returned unchanged.
   */
  function ToKebabCase(s: string): (r: string)
    ensures NoUpper(r)
    ensures NoUpper(s) && !StartsWithDash(s) ==> r == s
  {
    StripLeadingDash(DashBeforeUpper(s))
  }

  /** Inverse of the dash insertion: a dash before a lower-case letter becomes that letter in upper case. */
  function Recamel(r: string): string
    decreases |r|
  {
    if r == [] then []
    else if |r| >= 2 && r[0] == '-' && IsLower(r[1]) then [ToUpper(r[1])] + Recamel(r[2..])
    else [r[0]] + Recamel(r[1..])
  }

  predicate NoDash(s: string) { '-' !in s }

  lemma RecamelUpperStep(c: char, rest: string)
    requires IsUpper(c)
    ensures Recamel(['-', ToLower(c)] + rest) == [c] + Recamel(rest)
  {
    var r := ['-', ToLower(c)] + rest;
    assert r[2..] == rest;
  }

  lemma RecamelOtherStep(c: char, rest: string)
    requires c != '-'
    ensures Recamel([c] + rest) == [c] + Recamel(rest)
  {
    var r := [c] + rest;
    assert r[1..] == rest;
  }

  lemma {:induction false} RecamelDashBeforeUpper(s: string)
    requires NoDash(s)
    ensures Recamel(DashBeforeUpper(s)) == s
    decreases |s|
  {
    if s != [] {
      assert s[0] in s;
      assert NoDash(s[1..]) by {
        assert forall c :: c in s[1..] ==> c in s;
      }
      RecamelDashBeforeUpper(s[1..]);
      if IsUpper(s[0]) {
        RecamelUpperStep(s[0], DashBeforeUpper(s[1..]));
      } else {
        RecamelOtherStep(s[0], DashBeforeUpper(s[1..]));
      }
      assert [s[0]] + s[1..] == s;
    }
  }

  /**
   * For a name without dashes that does not open with a capital, kebab-case loses nothing: every
   * `-x` turns back into `X`.
   */
  lemma KebabRoundTrip(s: string)
    requires NoDash(s)
    requires |s| > 0 ==> !IsUpper(s[0])
    ensures Recamel(ToKebabCase(s)) == s
  {
    RecamelDashBeforeUpper(s);
    if s != [] {
      assert s[0] in s;
    }
  }

  // ----------------------------------------------------- removeSuffixFromName

  /** lib/utils/command.util.js `removeSuffixFromName`: the same pattern, so the same strip rule as src. */
  function RemoveSuffixFromName(name: string, suffix: string): (r: string)
    ensures r == SrcCommand.RemoveSuffixFromName(name, suffix)
  {
    SuffixPattern.ReplaceSuffix(name, suffix)
  }

  // ------------------------------------------------------ toPascalCase, toCamelCase

  /** `\b` before position `i`: exactly one side of it is a word character */
  predicate AtWordBoundary(s: string, i: nat)
    requires i <= |s|
  {
    (i > 0 && IsWordChar(s[i - 1])) != (i < |s| && IsWordChar(s[i]))
  }

  /**
   * One of the one-character alternatives of `(?:^\w|[A-Z]|\b\w|\s+)` matches at `i`; with
   * `dashUnderscore` also those of `\_|\-` (the camelCase pattern).
   */
  predicate SingleMatchAt(s: string, i: nat, dashUnderscore: bool)
    requires i < |s|
  {
    || (i == 0 && IsWordChar(s[i]))
    || IsUpper(s[i])
    || (AtWordBoundary(s, i) && IsWordChar(s[i]))
    || (dashUnderscore && (s[i] == '_' || s[i] == '-'))
  }

  /** End of the longest run of whitespace starting at `i`: what `\s+` consumes */
  function SpaceRunEnd(s: string, i: nat): (j: nat)
    requires i <= |s|
    ensures i <= j <= |s|
    ensures forall k :: i <= k < j ==> IsSpace(s[k])
    ensures j < |s| ==> !IsSpace(s[j])
    decreases |s| - i
  {
    if i == |s| || !IsSpace(s[i]) then i else SpaceRunEnd(s, i + 1)
  }

  function MapChars(s: string, f: char -> char): (r: string)
    ensures |r| == |s|
    ensures forall k :: 0 <= k < |s| ==> r[k] == f(s[k])
  {
    seq(|s|, k requires 0 <= k < |s| => f(s[k]))
  }

  /**
   * The global replace with that alternation, scanning from `i`: each match is passed through
   * `atZero` when it starts at index 0 and through `elsewhere` otherwise; other characters are kept.
   */
  function CaseScan(s: string, i: nat, dashUnderscore: bool, atZero: char -> char, elsewhere: char -> char): string
    requires i <= |s|
    decreases |s| - i
  {
    if i == |s| then []
    else
      var f := if i == 0 then atZero else elsewhere;
      if IsSpace(s[i]) then
        var j := SpaceRunEnd(s, i);
        MapChars(s[i..j], f) + CaseScan(s, j, dashUnderscore, atZero, elsewhere)
      else if SingleMatchAt(s, i, dashUnderscore) then
        [f(s[i])] + CaseScan(s, i + 1, dashUnderscore, atZero, elsewhere)
      else
        [s[i]] + CaseScan(s, i + 1, dashUnderscore, atZero, elsewhere)
  }

  /** A whitespace run is mapped as a whole, then the scan goes on after it. */
  lemma CaseScanSpaceUnfold(s: string, i: nat, j: nat, dashUnderscore: bool, atZero: char -> char, elsewhere: char -> char)
    requires i < |s| && IsSpace(s[i]) && j == SpaceRunEnd(s, i)
    ensures CaseScan(s, i, dashUnderscore, atZero, elsewhere) ==
      MapChars(s[i..j], if i == 0 then atZero else elsewhere) + CaseScan(s, j, dashUnderscore, atZero, elsewhere)
  {
  }

  /** Reference definition: the first character upper-cased and every later one lower-cased */
  function CapitalizedLower(s: string): string
  {
    if s == [] then [] else [ToUpper(s[0])] + LowerCase(s[1..])
  }

  lemma MapCharsLower(s: string)
    ensures MapChars(s, ToLower) == LowerCase(s)
  {
  }

  /** One step of the proof below: a whitespace run is lower-cased as a whole. */
  lemma PascalSpaceStep(s: string, i: nat, j: nat)
    requires 1 <= i < |s| && IsSpace(s[i]) && j == SpaceRunEnd(s, i)
    requires CaseScan(s, j, false, ToUpper, ToLower) == LowerCase(s[j..])
    ensures CaseScan(s, i, false, ToUpper, ToLower) == LowerCase(s[i..])
  {
    var run := s[i..j];
    CaseScanSpaceUnfold(s, i, j, false, ToUpper, ToLower);
    MapCharsLower(run);
    assert s[i..] == run + s[j..];
    LowerCaseAppend(run, s[j..]);
  }

  /** One step of the proof below: any other character is lower-cased. */
  lemma PascalOtherStep(s: string, i: nat)
    requires 1 <= i < |s| && !IsSpace(s[i])
    requires CaseScan(s, i + 1, false, ToUpper, ToLower) == LowerCase(s[i + 1..])
    ensures CaseScan(s, i, false, ToUpper, ToLower) == LowerCase(s[i..])
  {
    assert s[i..] == [s[i]] + s[i + 1..];
    LowerCaseAppend([s[i]], s[i + 1..]);
  }

  /** Behind index 0 the Pascal scan lower-cases every character: each upper-case letter is a match. */
  lemma {:induction false} PascalScanTail(s: string, i: nat)
    requires 1 <= i <= |s|
    ensures CaseScan(s, i, false, ToUpper, ToLower) == LowerCase(s[i..])
    decreases |s| - i
  {
    if i < |s| {
      if IsSpace(s[i]) {
        var j := SpaceRunEnd(s, i);
        PascalScanTail(s, j);
        PascalSpaceStep(s, i, j);
      } else {
        PascalScanTail(s, i + 1);
        PascalOtherStep(s, i);
      }
    }
  }

  lemma PascalScan(s: string)
    ensures CaseScan(s, 0, false, ToUpper, ToLower) == CapitalizedLower(s)
  {
    if s != [] {
      if IsSpace(s[0]) {
        var j := SpaceRunEnd(s, 0);
        PascalScanTail(s, j);
        assert s[1..] == s[1..j] + s[j..];
        LowerCaseAppend(s[1..j], s[j..]);
        assert MapChars(s[0..j], ToUpper) == [ToUpper(s[0])] + LowerCase(s[1..j]);
      } else {
        PascalScanTail(s, 1);
      }
    }
  }

  /**
   * lib/utils/command.util.js `toPascalCase`: the first character upper-cased, every later one
   * lower-cased, all whitespace removed.
   */
  function ToPascalCase(s: string): (r: string)
    ensures r == Without(CapitalizedLower(s), IsSpace)
    ensures forall i :: 0 <= i < |r| ==> !IsSpace(r[i])
  {
    PascalScan(s);
    Without(CaseScan(s, 0, false, ToUpper, ToLower), IsSpace)
  }

  lemma {:induction false} WithoutKeepsNoUpper(s: string, drop: char -> bool)
    requires NoUpper(s)
    ensures NoUpper(Without(s, drop))
    decreases |s|
  {
    if s != [] {
      WithoutKeepsNoUpper(s[1..], drop);
    }
  }

  /** Only the first character of the Pascal result can be upper-case. */
  lemma PascalLowerAfterFirst(s: string)
    ensures forall i :: 0 < i < |ToPascalCase(s)| ==> !IsUpper(ToPascalCase(s)[i])
  {
    if s != [] {
      LowerCaseFacts(s[1..]);
      WithoutKeepsNoUpper(LowerCase(s[1..]), IsSpace);
      WithoutAppend([ToUpper(s[0])], LowerCase(s[1..]), IsSpace);
      var w := Without(LowerCase(s[1..]), IsSpace);
      if IsSpace(s[0]) {
        assert ToPascalCase(s) == w;
      } else {
        assert ToPascalCase(s) == [ToUpper(s[0])] + w;
      }
    }
  }

  /** Whitespace is dropped and only case changes otherwise: no letter or digit is lost. */
  lemma PascalKeepsLetters(s: string)
    ensures Letters(ToPascalCase(s)) == Letters(s)
  {
    LettersWithout(CapitalizedLower(s), IsSpace);
    if s != [] {
      LettersCaseInsensitive(CapitalizedLower(s), s);
    }
  }

  /**
   * Reference definition of the camelCase marks: index 0 lower-cased, a word character after a
   * non-word character upper-cased, everything else (existing capitals included) as it was
   */
  function CamelMarks(s: string): string
  {
    seq(|s|, i requires 0 <= i < |s| =>
      if i == 0 then ToLower(s[0])
      else if IsWordChar(s[i]) && !IsWordChar(s[i - 1]) then ToUpper(s[i])
      else s[i])
  }

  lemma SliceSplit(m: string, i: nat, j: nat)
    requires i <= j <= |m|
    ensures m[i..] == m[i..j] + m[j..]
  {
  }

  /** One step of the proof below: a whitespace run matches the marks as a whole. */
  lemma CamelSpaceStep(s: string, i: nat, j: nat)
    requires i < |s| && IsSpace(s[i]) && j == SpaceRunEnd(s, i)
    requires CaseScan(s, j, true, ToLower, ToUpper) == CamelMarks(s)[j..]
    ensures CaseScan(s, i, true, ToLower, ToUpper) == CamelMarks(s)[i..]
  {
    var m := CamelMarks(s);
    CaseScanSpaceUnfold(s, i, j, true, ToLower, ToUpper);
    CamelSpaceRun(s, i, j);
    SliceSplit(m, i, j);
  }

  /** One step of the proof below: any other character matches its mark. */
  lemma CamelOtherStep(s: string, i: nat)
    requires i < |s| && !IsSpace(s[i])
    requires CaseScan(s, i + 1, true, ToLower, ToUpper) == CamelMarks(s)[i + 1..]
    ensures CaseScan(s, i, true, ToLower, ToUpper) == CamelMarks(s)[i..]
  {
    var m := CamelMarks(s);
    CamelSingle(s, i);
    assert m[i..] == [m[i]] + m[i + 1..];
  }

  lemma {:induction false} CamelScanFrom(s: string, i: nat)
    requires i <= |s|
    ensures CaseScan(s, i, true, ToLower, ToUpper) == CamelMarks(s)[i..]
    decreases |s| - i
  {
    if i < |s| {
      if IsSpace(s[i]) {
        var j := SpaceRunEnd(s, i);
        CamelScanFrom(s, j);
        CamelSpaceStep(s, i, j);
      } else {
        CamelScanFrom(s, i + 1);
        CamelOtherStep(s, i);
      }
    }
  }

  /** `\s+` passes whitespace through either case mapping unchanged, as the marks do. */
  lemma CamelSpaceRun(s: string, i: nat, j: nat)
    requires i < j <= |s|
    requires forall k :: i <= k < j ==> IsSpace(s[k])
    ensures MapChars(s[i..j], if i == 0 then ToLower else ToUpper) == CamelMarks(s)[i..j]
  {
  }

  /** A one-character match or a kept character equals the mark at its position. */
  lemma CamelSingle(s: string, i: nat)
    requires i < |s| && !IsSpace(s[i])
    ensures CamelMarks(s)[i] ==
      if SingleMatchAt(s, i, true) then (if i == 0 then ToLower else ToUpper)(s[i]) else s[i]
  {
  }

  predicate IsDashOrUnderscore(c: char) { c == '_' || c == '-' }

  /**
   * lib/utils/command.util.js `toCamelCase`: the camelCase marks with all whitespace, underscores
   * and dashes removed.
   */
  function ToCamelCase(s: string): (r: string)
    ensures r == Without(Without(CamelMarks(s), IsSpace), IsDashOrUnderscore)
    ensures forall i :: 0 <= i < |r| ==> !IsSpace(r[i]) && !IsDashOrUnderscore(r[i])
  {
    CamelScanFrom(s, 0);
    WithoutKeepsNoSpace(Without(CaseScan(s, 0, true, ToLower, ToUpper), IsSpace), IsDashOrUnderscore);
    Without(Without(CaseScan(s, 0, true, ToLower, ToUpper), IsSpace), IsDashOrUnderscore)
  }

  lemma {:induction false} WithoutKeepsNoSpace(s: string, drop: char -> bool)
    requires forall i :: 0 <= i < |s| ==> !IsSpace(s[i])
    ensures forall i :: 0 <= i < |Without(s, drop)| ==> !IsSpace(Without(s, drop)[i])
    decreases |s|
  {
    if s != [] {
      WithoutKeepsNoSpace(s[1..], drop);
    }
  }

  /** No letter or digit is lost: only whitespace, `_` and `-` are removed, and only case changes. */
  lemma CamelKeepsLetters(s: string)
    ensures Letters(ToCamelCase(s)) == Letters(s)
  {
    var m := CamelMarks(s);
    LettersWithout(Without(m, IsSpace), IsDashOrUnderscore);
    LettersWithout(m, IsSpace);
    forall i | 0 <= i < |s| ensures ToLower(m[i]) == ToLower(s[i]) {
      CaseKeepsClass(s[i]);
    }
    LettersCaseInsensitive(m, s);
  }

  // ------------------------------------------------ generateFunctions, generateUtilFunctions

  /** lib/utils/command.util.js `generateFunctions`: its template literal is the one in src, character for character. */
  function GenerateFunctions(functions: seq<string>): (r: string)
    ensures r == SrcCommand.GenerateFunctions(functions)
  {
    Stubs.Emit(SrcCommand.ControllerStub, functions)
  }

  /** lib/utils/command.util.js `generateUtilFunctions`: its template literal is the one in src, character for character. */
  function GenerateUtilFunctions(functions: seq<string>): (r: string)
    ensures r == SrcCommand.GenerateUtilFunctions(functions)
  {
    Stubs.Emit(SrcCommand.UtilStub, functions)
  }
}
