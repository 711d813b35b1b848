/**
 * The `Command` string helpers of src/utils/command.util.js: the case converters and
 * method-stub emitters every generator uses to turn a raw name into file and class names.
 */
module SrcCommand {
  import opened Ascii
  import opened Wrappers
  import SuffixPattern
  import Stubs

  // ---------------------------------------------------------------- toKebabCase

  predicate IsDash(c: char) { c == '-' }

  /** A lower-case letter immediately followed by an upper-case one starts at `i` */
  predicate CamelBoundaryAt(s: string, i: nat)
    requires i < |s|
  {
    i + 1 < |s| && IsLower(s[i]) && IsUpper(s[i + 1])
  }

  /** `.replace(/([a-z])([A-Z])/g, '$1-$2')`: the left-to-right scan consumes both letters of a match */
  function DashCamelBoundaries(s: string): string
    decreases |s|
  {
    if |s| < 2 then s
    else if IsLower(s[0]) && IsUpper(s[1]) then [s[0], '-', s[1]] + DashCamelBoundaries(s[2..])
    else [s[0]] + DashCamelBoundaries(s[1..])
  }

  /** Reference definition: every character, with a dash after each one that starts a camel boundary */
  function DashAfterBoundaries(s: string): string
    decreases |s|
  {
    if s == [] then []
    else [s[0]] + (if CamelBoundaryAt(s, 0) then "-" else "") + DashAfterBoundaries(s[1..])
  }

  /** No boundary starts at an upper-case letter. */
  lemma DashAfterUpper(s: string)
    requires |s| >= 1 && IsUpper(s[0])
    ensures DashAfterBoundaries(s) == [s[0]] + DashAfterBoundaries(s[1..])
  {
    assert !CamelBoundaryAt(s, 0);
  }

  /** One step of the proof below: a lower-upper pair is consumed whole. */
  lemma DashPairStep(s: string)
    requires |s| >= 2 && IsLower(s[0]) && IsUpper(s[1])
    requires DashCamelBoundaries(s[2..]) == DashAfterBoundaries(s[2..])
    ensures DashCamelBoundaries(s) == DashAfterBoundaries(s)
  {
    var t := DashAfterBoundaries(s[2..]);
    DashAfterUpper(s[1..]);
    assert s[1..][1..] == s[2..];
    assert DashAfterBoundaries(s) == [s[0]] + "-" + ([s[1]] + t);
    assert [s[0]] + "-" + ([s[1]] + t) == [s[0], '-', s[1]] + t;
  }

  /** One step of the proof below: any other character is copied. */
  lemma DashOtherStep(s: string)
    requires |s| >= 2 && !(IsLower(s[0]) && IsUpper(s[1]))
    requires DashCamelBoundaries(s[1..]) == DashAfterBoundaries(s[1..])
    ensures DashCamelBoundaries(s) == DashAfterBoundaries(s)
  {
    assert !CamelBoundaryAt(s, 0);
    assert DashAfterBoundaries(s) == [s[0]] + DashAfterBoundaries(s[1..]);
  }

  /** The regex scan misses no boundary: a match never overlaps the next one. */
  lemma {:induction false} DashCamelBoundariesEverywhere(s: string)
    ensures DashCamelBoundaries(s) == DashAfterBoundaries(s)
    decreases |s|
  {
    if |s| == 1 {
      assert DashAfterBoundaries(s) == [s[0]] + "" + DashAfterBoundaries([]);
    } else if |s| >= 2 {
      if IsLower(s[0]) && IsUpper(s[1]) {
        DashCamelBoundariesEverywhere(s[2..]);
        DashPairStep(s);
      } else {
        DashCamelBoundariesEverywhere(s[1..]);
        DashOtherStep(s);
      }
    }
  }

  /** Inserting dashes leaves everything else in place. */
  lemma {:induction false} DashAfterBoundariesKeepsText(s: string)
    ensures Without(DashAfterBoundaries(s), IsDash) == Without(s, IsDash)
    ensures Letters(DashAfterBoundaries(s)) == Letters(s)
    decreases |s|
  {
    if s != [] {
      DashAfterBoundariesKeepsText(s[1..]);
      var mid := if CamelBoundaryAt(s, 0) then "-" else "";
      WithoutAppend([s[0]] + mid, DashAfterBoundaries(s[1..]), IsDash);
      WithoutAppend([s[0]], mid, IsDash);
      WithoutAppend([s[0]], s[1..], IsDash);
      LettersAppend([s[0]] + mid, DashAfterBoundaries(s[1..]));
      LettersAppend([s[0]], mid);
      LettersAppend([s[0]], s[1..]);
      assert [s[0]] + s[1..] == s;
    }
  }

  /** `[\s_]` */
  predicate IsSeparator(c: char) { IsSpace(c) || c == '_' }

  /** Length of the longest prefix of separators */
  function SeparatorRun(s: string): (n: nat)
    ensures n <= |s|
    ensures forall k :: 0 <= k < n ==> IsSeparator(s[k])
    ensures n < |s| ==> !IsSeparator(s[n])
    decreases |s|
  {
    if s == [] || !IsSeparator(s[0]) then 0 else 1 + SeparatorRun(s[1..])
  }

  /** `.replace(/[\s_]+/g, '-')`: each maximal run of separators becomes one dash */
  function CollapseSeparators(s: string): (r: string)
    ensures forall i :: 0 <= i < |r| ==> !IsSeparator(r[i])
    ensures (forall i :: 0 <= i < |s| ==> !IsSeparator(s[i])) ==> r == s
    decreases |s|
  {
    if s == [] then []
    else if IsSeparator(s[0]) then "-" + CollapseSeparators(s[SeparatorRun(s)..])
    else [s[0]] + CollapseSeparators(s[1..])
  }

  /** Reference definition: the first separator of each run marked by a dash, every other character as it was */
  function RunMarks(s: string): string
  {
    seq(|s|, i requires 0 <= i < |s| => if IsSeparator(s[i]) && (i == 0 || !IsSeparator(s[i - 1])) then '-' else s[i])
  }

  /** The marks of a suffix that does not start inside a run are the suffix of the marks. */
  lemma RunMarksSuffix(s: string, k: nat)
    requires k <= |s| && (k == 0 || k == |s| || !IsSeparator(s[k - 1]) || !IsSeparator(s[k]))
    ensures RunMarks(s)[k..] == RunMarks(s[k..])
  {
    var a, b := RunMarks(s)[k..], RunMarks(s[k..]);
    assert |a| == |b|;
    forall i | 0 <= i < |a| ensures a[i] == b[i] {
      assert s[k..][i] == s[k + i];
      if i > 0 {
        assert s[k..][i - 1] == s[k + i - 1];
      }
    }
  }

  /** A separator run at the start of the text leaves one dash of its marks. */
  lemma RunMarksOfRun(s: string, n: nat)
    requires 0 < n <= |s| && forall k :: 0 <= k < n ==> IsSeparator(s[k])
    ensures Without(RunMarks(s)[..n], IsSeparator) == "-"
  {
    var m := RunMarks(s)[..n];
    assert m[0] == '-';
    forall i | 0 <= i < |m| - 1 ensures IsSeparator(m[1..][i]) {
      assert IsSeparator(s[i + 1]) && IsSeparator(s[i]);
    }
    WithoutAllDropped(m[1..], IsSeparator);
  }

  /** One step of the proof below: a character that is not a separator is copied. */
  lemma CollapseOtherStep(s: string)
    requires s != [] && !IsSeparator(s[0])
    requires CollapseSeparators(s[1..]) == Without(RunMarks(s[1..]), IsSeparator)
    ensures CollapseSeparators(s) == Without(RunMarks(s), IsSeparator)
  {
    var m := RunMarks(s);
    RunMarksSuffix(s, 1);
    assert m[0] == s[0] && m[1..] == RunMarks(s[1..]);
  }

  lemma CollapseRunUnfold(s: string, n: nat)
    requires s != [] && IsSeparator(s[0]) && n == SeparatorRun(s)
    ensures CollapseSeparators(s) == "-" + CollapseSeparators(s[n..])
  {
  }

  /** One step of the proof below: a separator run becomes one dash. */
  lemma CollapseRunStep(s: string, n: nat)
    requires s != [] && IsSeparator(s[0]) && n == SeparatorRun(s)
    requires CollapseSeparators(s[n..]) == Without(RunMarks(s[n..]), IsSeparator)
    ensures CollapseSeparators(s) == Without(RunMarks(s), IsSeparator)
  {
    CollapseRunUnfold(s, n);
    RunMarksOfRun(s, n);
    RunMarksSuffix(s, n);
    WithoutSplit(RunMarks(s), n, IsSeparator);
  }

  /** The global replace turns each maximal run of separators into exactly one dash and changes nothing else. */
  lemma {:induction false} CollapseSeparatorsReference(s: string)
    ensures CollapseSeparators(s) == Without(RunMarks(s), IsSeparator)
    decreases |s|
  {
    if s != [] {
      if IsSeparator(s[0]) {
        var n := SeparatorRun(s);
        CollapseSeparatorsReference(s[n..]);
        CollapseRunStep(s, n);
      } else {
        CollapseSeparatorsReference(s[1..]);
        CollapseOtherStep(s);
      }
    }
  }

  lemma LettersOfSeparators(s: string)
    requires forall i :: 0 <= i < |s| ==> IsSeparator(s[i])
    ensures Letters(s) == []
  {
  }

  lemma LettersOfDash(t: string)
    ensures Letters("-" + t) == Letters(t)
  {
    LettersAppend("-", t);
  }

  lemma LettersAfterRun(s: string, n: nat)
    requires s != [] && IsSeparator(s[0]) && n == SeparatorRun(s)
    ensures Letters(s) == Letters(s[n..])
  {
    LettersOfSeparators(s[..n]);
    LettersAppend(s[..n], s[n..]);
    SplitAt(s, n);
  }

  /** One step of the proof below: a separator run and the dash it becomes hold no letter. */
  lemma CollapseRunKeepsLetters(s: string, n: nat)
    requires s != [] && IsSeparator(s[0]) && n == SeparatorRun(s)
    requires Letters(CollapseSeparators(s[n..])) == Letters(s[n..])
    ensures Letters(CollapseSeparators(s)) == Letters(s)
  {
    CollapseRunUnfold(s, n);
    LettersOfDash(CollapseSeparators(s[n..]));
    LettersAfterRun(s, n);
  }

  /** One step of the proof below: a character that is not a separator is copied. */
  lemma CollapseOtherKeepsLetters(s: string)
    requires s != [] && !IsSeparator(s[0])
    requires Letters(CollapseSeparators(s[1..])) == Letters(s[1..])
    ensures Letters(CollapseSeparators(s)) == Letters(s)
  {
    LettersAppend([s[0]], CollapseSeparators(s[1..]));
    LettersAppend([s[0]], s[1..]);
    assert [s[0]] + s[1..] == s;
  }

  /** Collapsing separators loses no letter or digit and reorders nothing. */
  lemma {:induction false} CollapseSeparatorsKeepsLetters(s: string)
    ensures Letters(CollapseSeparators(s)) == Letters(s)
    decreases |s|
  {
    if s != [] {
      if IsSeparator(s[0]) {
        var n := SeparatorRun(s);
        CollapseSeparatorsKeepsLetters(s[n..]);
        CollapseRunKeepsLetters(s, n);
      } else {
        CollapseSeparatorsKeepsLetters(s[1..]);
        CollapseOtherKeepsLetters(s);
      }
    }
  }

  /**
   * src/utils/command.util.js `toKebabCase`: a dash after every camel boundary, each separator run one dash,
   * all lower case; the output has no upper-case letter, whitespace or underscore.
   */
  function ToKebabCase(s: string): (r: string)
    ensures r == LowerCase(Without(RunMarks(DashAfterBoundaries(s)), IsSeparator))
    ensures forall i :: 0 <= i < |r| ==> !IsUpper(r[i]) && !IsSeparator(r[i])
  {
    DashCamelBoundariesEverywhere(s);
    CollapseSeparatorsReference(DashCamelBoundaries(s));
    LowerCase(CollapseSeparators(DashCamelBoundaries(s)))
  }

  /** Without upper-case letters there are no boundaries, so no dash is inserted. */
  lemma {:induction false} NoUpperNoDashes(s: string)
    requires NoUpper(s)
    ensures DashAfterBoundaries(s) == s
    decreases |s|
  {
    if s != [] {
      NoUpperNoDashes(s[1..]);
      assert [s[0]] + s[1..] == s;
    }
  }

  /** Text that is already kebab-shaped (e.g. lower-case letters, digits and dashes) comes back unchanged. */
  lemma KebabFixpoint(s: string)
    requires NoUpper(s)
    requires forall i :: 0 <= i < |s| ==> !IsSeparator(s[i])
    ensures ToKebabCase(s) == s
  {
    DashCamelBoundariesEverywhere(s);
    NoUpperNoDashes(s);
    LowerCaseFacts(s);
  }

  /** Converting twice is converting once. */
  lemma KebabIdempotent(s: string)
    ensures ToKebabCase(ToKebabCase(s)) == ToKebabCase(s)
  {
    KebabFixpoint(ToKebabCase(s));
  }

  /** No letter or digit is lost or reordered; only case changes. */
  lemma KebabKeepsLetters(s: string)
    ensures Letters(ToKebabCase(s)) == Letters(s)
  {
    var d := DashCamelBoundaries(s);
    DashCamelBoundariesEverywhere(s);
    DashAfterBoundariesKeepsText(s);
    CollapseSeparatorsKeepsLetters(d);
    var c := CollapseSeparators(d);
    LettersCaseInsensitive(LowerCase(c), c);
  }

  // ------------------------------------------------------- removeSuffixFromName

  /**
   * src/utils/command.util.js `removeSuffixFromName`: drops a trailing `type + "s"`, else a trailing
   * `type`, ignoring ASCII case; the rest of the name is kept as it is.
   */
  function RemoveSuffixFromName(name: string, suffix: string): (r: string)
    ensures r <= name
    ensures SuffixPattern.EndsWithIgnoringCase(name, suffix + "s") ==> |r| == |name| - |suffix| - 1
    ensures !SuffixPattern.EndsWithIgnoringCase(name, suffix + "s") && SuffixPattern.EndsWithIgnoringCase(name, suffix)
      ==> |r| == |name| - |suffix|
    ensures !SuffixPattern.EndsWithIgnoringCase(name, suffix + "s") && !SuffixPattern.EndsWithIgnoringCase(name, suffix)
      ==> r == name
  {
    SuffixPattern.ReplaceSuffixRule(name, suffix);
    SuffixPattern.ReplaceSuffix(name, suffix)
  }

  // ------------------------------------------------------ toPascalCase, toCamelCase

  /** Length of the longest prefix of characters outside `[a-zA-Z0-9]` */
  function DelimiterRun(s: string): (n: nat)
    ensures n <= |s|
    ensures forall k :: 0 <= k < n ==> !IsAlnum(s[k])
    ensures n < |s| ==> IsAlnum(s[n])
    decreases |s|
  {
    if s == [] || IsAlnum(s[0]) then 0 else 1 + DelimiterRun(s[1..])
  }

  /**
   * `.replace(/[^a-zA-Z0-9]+(.)/g, (_, chr) => chr.toUpperCase())`: a run of delimiters and the
   * character after it become that character in upper case. A run that reaches the end backtracks
   * so that `(.)` takes its last character; a single trailing delimiter does not match at all.
   */
  function UpcaseAfterDelimiters(s: string): (r: string)
    ensures |r| <= |s|
    ensures forall i :: 0 <= i < |r| - 1 ==> IsAlnum(r[i])
    decreases |s|
  {
    if s == [] then []
    else if IsAlnum(s[0]) then [s[0]] + UpcaseAfterDelimiters(s[1..])
    else
      var n := DelimiterRun(s);
      if n < |s| then [ToUpper(s[n])] + UpcaseAfterDelimiters(s[n + 1..])
      else if n >= 2 then [ToUpper(s[n - 1])]
      else s
  }

  lemma LettersOfDelimiters(s: string)
    requires forall i :: 0 <= i < |s| ==> !IsAlnum(s[i])
    ensures Letters(s) == []
  {
  }

  /** Leading delimiters contribute nothing to `Letters`. */
  lemma LettersSkipDelimiters(s: string, n: nat)
    requires n <= |s| && forall k :: 0 <= k < n ==> !IsAlnum(s[k])
    ensures Letters(s) == Letters(s[n..])
  {
    LettersOfDelimiters(s[..n]);
    LettersAppend(s[..n], s[n..]);
    assert s[..n] + s[n..] == s;
  }

  /** Upper-casing a first character and swapping a tail for one with the same letters keeps `Letters`. */
  lemma LettersCaseCons(c: char, t: string, u: string)
    requires Letters(t) == Letters(u)
    ensures Letters([ToUpper(c)] + t) == Letters([c] + u)
  {
    CaseKeepsClass(c);
    assert ([ToUpper(c)] + t)[1..] == t;
    assert ([c] + u)[1..] == u;
  }

  lemma UpcaseRunUnfold(s: string, n: nat)
    requires s != [] && !IsAlnum(s[0]) && n == DelimiterRun(s) && n < |s|
    ensures UpcaseAfterDelimiters(s) == [ToUpper(s[n])] + UpcaseAfterDelimiters(s[n + 1..])
  {
  }

  /** One step of the proof below: a delimiter run followed by a character. */
  lemma UpcaseRunKeepsLetters(s: string, n: nat)
    requires s != [] && !IsAlnum(s[0]) && n == DelimiterRun(s) && n < |s|
    requires Letters(UpcaseAfterDelimiters(s[n + 1..])) == Letters(s[n + 1..])
    ensures Letters(UpcaseAfterDelimiters(s)) == Letters(s)
  {
    var rest := s[n + 1..];
    UpcaseRunUnfold(s, n);
    LettersSkipDelimiters(s, n);
    assert s[n..] == [s[n]] + rest;
    LettersCaseCons(s[n], UpcaseAfterDelimiters(rest), rest);
  }

  /** One step of the proof below: a delimiter run reaching the end. */
  lemma UpcaseTailKeepsLetters(s: string, n: nat)
    requires s != [] && !IsAlnum(s[0]) && n == DelimiterRun(s) && n == |s|
    ensures Letters(UpcaseAfterDelimiters(s)) == Letters(s)
  {
    LettersOfDelimiters(s);
    if n >= 2 {
      CaseKeepsClass(s[n - 1]);
    }
  }

  /** Deleting delimiters and upper-casing loses no letter or digit and reorders nothing. */
  lemma {:induction false} UpcaseAfterDelimitersKeepsLetters(s: string)
    ensures Letters(UpcaseAfterDelimiters(s)) == Letters(s)
    decreases |s|
  {
    if s != [] {
      if IsAlnum(s[0]) {
        UpcaseAfterDelimitersKeepsLetters(s[1..]);
        LettersAppend([s[0]], UpcaseAfterDelimiters(s[1..]));
        LettersAppend([s[0]], s[1..]);
        assert [s[0]] + s[1..] == s;
      } else {
        var n := DelimiterRun(s);
        if n < |s| {
          UpcaseAfterDelimitersKeepsLetters(s[n + 1..]);
          UpcaseRunKeepsLetters(s, n);
        } else {
          UpcaseTailKeepsLetters(s, n);
        }
      }
    }
  }

  /** `[^a-zA-Z0-9]` */
  predicate IsDelimiter(c: char) { !IsAlnum(c) }

  /** Reference definition: every character right after a delimiter upper-cased, every other one as it was */
  function DelimiterMarks(s: string): string
  {
    seq(|s|, i requires 0 <= i < |s| => if i > 0 && IsDelimiter(s[i - 1]) then ToUpper(s[i]) else s[i])
  }

  /** The last character when it is a delimiter: a run at the very end is never followed by a character. */
  function TrailingDelimiter(s: string): string
  {
    if |s| > 0 && IsDelimiter(s[|s| - 1]) then [s[|s| - 1]] else []
  }

  /**
   * What `.replace(/[^a-zA-Z0-9]+(.)/g, (_, chr) => chr.toUpperCase())` should give: the marks with
   * every delimiter deleted, and the delimiter that ends the text, if any, kept.
   */
  function DelimiterReference(s: string): string
  {
    Without(DelimiterMarks(s), IsDelimiter) + TrailingDelimiter(s)
  }

  /** The marks of a suffix that starts after a letter or digit are the suffix of the marks. */
  lemma MarksSuffix(s: string, k: nat)
    requires k <= |s| && (k == 0 || !IsDelimiter(s[k - 1]))
    ensures DelimiterMarks(s)[k..] == DelimiterMarks(s[k..])
  {
    var a, b := DelimiterMarks(s)[k..], DelimiterMarks(s[k..]);
    assert |a| == |b|;
    forall i | 0 <= i < |a| ensures a[i] == b[i] {
      assert s[k..][i] == s[k + i];
      if i > 0 {
        assert s[k..][i - 1] == s[k + i - 1];
      }
    }
  }

  /** A delimiter run at the start of the text is made only of delimiters in the marks as well. */
  lemma MarksOfRun(s: string, n: nat)
    requires n <= |s| && forall k :: 0 <= k < n ==> IsDelimiter(s[k])
    ensures Without(DelimiterMarks(s)[..n], IsDelimiter) == []
  {
    var m := DelimiterMarks(s)[..n];
    forall i | 0 <= i < |m| ensures IsDelimiter(m[i]) {
      assert IsDelimiter(s[i]);
    }
    WithoutAllDropped(m, IsDelimiter);
  }

  /** Dropping a prefix that ends in a letter or digit keeps the trailing delimiter. */
  lemma TrailingOfSuffix(s: string, k: nat)
    requires 0 < k <= |s| && !IsDelimiter(s[k - 1])
    ensures TrailingDelimiter(s[k..]) == TrailingDelimiter(s)
  {
    if k < |s| {
      assert s[k..][|s| - k - 1] == s[|s| - 1];
    }
  }

  /** The reference text grows by `c` at the front when its deleted marks do and the trailing delimiter stays. */
  lemma ReferenceCons(s: string, t: string, c: char)
    requires Without(DelimiterMarks(s), IsDelimiter) == [c] + Without(DelimiterMarks(t), IsDelimiter)
    requires TrailingDelimiter(s) == TrailingDelimiter(t)
    ensures DelimiterReference(s) == [c] + DelimiterReference(t)
  {
    var w, e := Without(DelimiterMarks(t), IsDelimiter), TrailingDelimiter(t);
    assert [c] + w + e == [c] + (w + e);
  }

  lemma UpcaseAlnumUnfold(s: string)
    requires s != [] && IsAlnum(s[0])
    ensures UpcaseAfterDelimiters(s) == [s[0]] + UpcaseAfterDelimiters(s[1..])
  {
  }

  lemma MarksAfterAlnum(s: string)
    requires s != [] && IsAlnum(s[0])
    ensures Without(DelimiterMarks(s), IsDelimiter) == [s[0]] + Without(DelimiterMarks(s[1..]), IsDelimiter)
  {
    var m := DelimiterMarks(s);
    MarksSuffix(s, 1);
    assert m[0] == s[0] && m[..0] == [];
    WithoutAfterPrefix(m, 0, IsDelimiter);
  }

  lemma ReferenceAfterAlnum(s: string)
    requires s != [] && IsAlnum(s[0])
    ensures DelimiterReference(s) == [s[0]] + DelimiterReference(s[1..])
  {
    MarksAfterAlnum(s);
    TrailingOfSuffix(s, 1);
    ReferenceCons(s, s[1..], s[0]);
  }

  /** One step of the proof below: a letter or digit at the front is copied. */
  lemma ReferenceAlnumStep(s: string)
    requires s != [] && IsAlnum(s[0])
    requires UpcaseAfterDelimiters(s[1..]) == DelimiterReference(s[1..])
    ensures UpcaseAfterDelimiters(s) == DelimiterReference(s)
  {
    UpcaseAlnumUnfold(s);
    ReferenceAfterAlnum(s);
  }

  /** The character after a delimiter run is marked upper case. */
  lemma MarkAfterRun(s: string, n: nat)
    requires s != [] && !IsAlnum(s[0]) && n == DelimiterRun(s) && n < |s|
    ensures DelimiterMarks(s)[n] == ToUpper(s[n]) && !IsDelimiter(ToUpper(s[n]))
  {
    assert IsDelimiter(s[n - 1]);
    CaseKeepsClass(s[n]);
  }

  /** The marks of a delimiter run and the character after it, delimiters deleted. */
  lemma MarksAfterRun(s: string, n: nat)
    requires s != [] && !IsAlnum(s[0]) && n == DelimiterRun(s) && n < |s|
    ensures Without(DelimiterMarks(s), IsDelimiter) == [ToUpper(s[n])] + Without(DelimiterMarks(s[n + 1..]), IsDelimiter)
  {
    MarksOfRun(s, n);
    MarksSuffix(s, n + 1);
    MarkAfterRun(s, n);
    WithoutAfterPrefix(DelimiterMarks(s), n, IsDelimiter);
  }

  lemma ReferenceAfterRun(s: string, n: nat)
    requires s != [] && !IsAlnum(s[0]) && n == DelimiterRun(s) && n < |s|
    ensures DelimiterReference(s) == [ToUpper(s[n])] + DelimiterReference(s[n + 1..])
  {
    MarksAfterRun(s, n);
    TrailingOfSuffix(s, n + 1);
    ReferenceCons(s, s[n + 1..], ToUpper(s[n]));
  }

  /** One step of the proof below: a delimiter run and the character after it become that character in upper case. */
  lemma ReferenceRunStep(s: string, n: nat)
    requires s != [] && !IsAlnum(s[0]) && n == DelimiterRun(s) && n < |s|
    requires UpcaseAfterDelimiters(s[n + 1..]) == DelimiterReference(s[n + 1..])
    ensures UpcaseAfterDelimiters(s) == DelimiterReference(s)
  {
    UpcaseRunUnfold(s, n);
    ReferenceAfterRun(s, n);
  }

  lemma UpcaseTailUnfold(s: string, n: nat)
    requires s != [] && !IsAlnum(s[0]) && n == DelimiterRun(s) && n == |s|
    ensures UpcaseAfterDelimiters(s) == [s[|s| - 1]]
  {
    if n >= 2 {
      assert !IsAlnum(s[n - 1]);
    } else {
      assert s == [s[0]];
    }
  }

  lemma ReferenceOfTail(s: string, n: nat)
    requires s != [] && !IsAlnum(s[0]) && n == DelimiterRun(s) && n == |s|
    ensures DelimiterReference(s) == [s[|s| - 1]]
  {
    MarksOfRun(s, n);
    assert DelimiterMarks(s)[..n] == DelimiterMarks(s);
  }

  /** One step of the proof below: a delimiter run reaching the end leaves its last delimiter. */
  lemma ReferenceTailStep(s: string, n: nat)
    requires s != [] && !IsAlnum(s[0]) && n == DelimiterRun(s) && n == |s|
    ensures UpcaseAfterDelimiters(s) == DelimiterReference(s)
  {
    UpcaseTailUnfold(s, n);
    ReferenceOfTail(s, n);
  }

  /** The global replace deletes every delimiter run and upper-cases the character after it. */
  lemma {:induction false} UpcaseAfterDelimitersReference(s: string)
    ensures UpcaseAfterDelimiters(s) == DelimiterReference(s)
    decreases |s|
  {
    if s != [] {
      if IsAlnum(s[0]) {
        UpcaseAfterDelimitersReference(s[1..]);
        ReferenceAlnumStep(s);
      } else {
        var n := DelimiterRun(s);
        if n < |s| {
          UpcaseAfterDelimitersReference(s[n + 1..]);
          ReferenceRunStep(s, n);
        } else {
          ReferenceTailStep(s, n);
        }
      }
    }
  }

  /** Text made only of letters and digits is left as it is. */
  lemma {:induction false} AlnumUnchanged(s: string)
    requires forall i :: 0 <= i < |s| ==> IsAlnum(s[i])
    ensures UpcaseAfterDelimiters(s) == s
    decreases |s|
  {
    if s != [] {
      AlnumUnchanged(s[1..]);
      assert [s[0]] + s[1..] == s;
    }
  }

  /** `.replace(/^(.)/, (_, chr) => f(chr))`: maps the first character only */
  function MapFirst(s: string, f: char -> char): (r: string)
    ensures |r| == |s|
    ensures forall i :: 0 < i < |s| ==> r[i] == s[i]
  {
    if s == [] then [] else [f(s[0])] + s[1..]
  }

  /**
   * src/utils/command.util.js `toPascalCase`: the reference text with its first character upper-cased;
   * never longer than the input, never opening in lower case.
   */
  function ToPascalCase(s: string): (r: string)
    ensures r == MapFirst(DelimiterReference(s), ToUpper)
    ensures |r| <= |s|
    ensures |r| > 0 ==> !IsLower(r[0])
    ensures forall i :: 0 <= i < |r| - 1 ==> IsAlnum(r[i])
  {
    UpcaseAfterDelimitersReference(s);
    MapFirst(UpcaseAfterDelimiters(s), ToUpper)
  }

  /**
   * src/utils/command.util.js `toCamelCase`: the reference text with its first character lower-cased;
   * never longer than the input, never opening in upper case.
   */
  function ToCamelCase(s: string): (r: string)
    ensures r == MapFirst(DelimiterReference(s), ToLower)
    ensures |r| <= |s|
    ensures |r| > 0 ==> !IsUpper(r[0])
    ensures forall i :: 0 <= i < |r| - 1 ==> IsAlnum(r[i])
  {
    UpcaseAfterDelimitersReference(s);
    MapFirst(UpcaseAfterDelimiters(s), ToLower)
  }

  /** PascalCase and camelCase agree everywhere but the first character, which differs only in case. */
  lemma PascalCamelAgree(s: string)
    ensures |ToPascalCase(s)| == |ToCamelCase(s)|
    ensures forall i :: 0 < i < |ToPascalCase(s)| ==> ToPascalCase(s)[i] == ToCamelCase(s)[i]
    ensures |ToPascalCase(s)| > 0 ==>
      ToPascalCase(s)[0] == ToUpper(ToCamelCase(s)[0]) && ToCamelCase(s)[0] == ToLower(ToPascalCase(s)[0])
  {
    var u := UpcaseAfterDelimiters(s);
    if u != [] { CaseKeepsClass(u[0]); }
  }

  /** Both conversions keep every letter and digit, in order. */
  lemma PascalCamelKeepLetters(s: string)
    ensures Letters(ToPascalCase(s)) == Letters(s)
    ensures Letters(ToCamelCase(s)) == Letters(s)
  {
    var u := UpcaseAfterDelimiters(s);
    UpcaseAfterDelimitersKeepsLetters(s);
    if u != [] {
      CaseKeepsClass(u[0]);
      LettersCaseInsensitive(ToPascalCase(s), u);
      LettersCaseInsensitive(ToCamelCase(s), u);
    }
  }

  /** On letters and digits only, the conversions change the first character's case and nothing else. */
  lemma PascalCamelOfAlnum(s: string)
    requires |s| > 0
    requires forall i :: 0 <= i < |s| ==> IsAlnum(s[i])
    ensures ToPascalCase(s) == [ToUpper(s[0])] + s[1..]
    ensures ToCamelCase(s) == [ToLower(s[0])] + s[1..]
  {
    AlnumUnchanged(s);
  }

  // ------------------------------------------------ generateFunctions, generateUtilFunctions

  /** The controller method stub of `generateFunctions` */
  const ControllerStub := Stubs.Template(
    "static async ",
    "(" + "req: Request, res: Response, next: NextFunction) {\n    try {\n      //\n    } catch (error) {\n      next(error);\n    }\n  }")

  /** The bare method stub of `generateUtilFunctions` */
  const UtilStub := Stubs.Template("  static async ", "(" + ") {\n    //\n  }\n")

  /**
   * src/utils/command.util.js `generateFunctions`: empty exactly for no names; opens with the first
   * name's guarded handler stub; and reads back as the names, in order.
   */
  function GenerateFunctions(functions: seq<string>): (r: string)
    ensures r == "" <==> functions == []
    ensures |functions| > 0 ==> Stubs.Fill(ControllerStub, functions[0]) <= r
    ensures Stubs.PlainNames(functions) ==> Stubs.Parse(ControllerStub, r) == Some(functions)
  {
    Stubs.EmitMeaning(ControllerStub, functions);
    Stubs.Emit(ControllerStub, functions)
  }

  /**
   * src/utils/command.util.js `generateUtilFunctions`: empty exactly for no names; opens with the first
   * name's bare stub; and reads back as the names, in order.
   */
  function GenerateUtilFunctions(functions: seq<string>): (r: string)
    ensures r == "" <==> functions == []
    ensures |functions| > 0 ==> Stubs.Fill(UtilStub, functions[0]) <= r
    ensures Stubs.PlainNames(functions) ==> Stubs.Parse(UtilStub, r) == Some(functions)
  {
    Stubs.EmitMeaning(UtilStub, functions);
    Stubs.Emit(UtilStub, functions)
  }

  /** One block per name in input order: the stubs of a concatenation are joined by a line feed. */
  lemma GenerateFunctionsAppend(a: seq<string>, b: seq<string>)
    requires |a| > 0 && |b| > 0
    ensures GenerateFunctions(a + b) == GenerateFunctions(a) + "\n" + GenerateFunctions(b)
    ensures GenerateUtilFunctions(a + b) == GenerateUtilFunctions(a) + "\n" + GenerateUtilFunctions(b)
  {
    Stubs.EmitAppend(ControllerStub, a, b);
    Stubs.EmitAppend(UtilStub, a, b);
  }
}
