/**
 * How the three copies of the `Command` helpers compare: the inputs on which the src and lib
 * case converters agree, and small names on which they disagree.
 */
module CommandVariants {
  import opened Ascii
  import Stubs
  import SuffixPattern
  import SrcCommand
  import LibCommand
  import LibCommandUtils

  // ----------------------------------------------------------------- kebab-case

  /** Every capital after the first character directly follows a lower-case letter. */
  predicate CapitalsFollowLower(s: string) {
    forall i :: 0 < i < |s| && IsUpper(s[i]) ==> IsLower(s[i - 1])
  }

  predicate NoSeparator(s: string) {
    forall i :: 0 <= i < |s| ==> !SrcCommand.IsSeparator(s[i])
  }

  lemma {:induction false} DashesKeepNoSeparator(s: string)
    requires NoSeparator(s)
    ensures NoSeparator(SrcCommand.DashAfterBoundaries(s))
    decreases |s|
  {
    if s != [] {
      DashesKeepNoSeparator(s[1..]);
    }
  }

  lemma CapitalsFollowLowerTail(s: string)
    requires |s| > 0 && CapitalsFollowLower(s)
    ensures CapitalsFollowLower(s[1..])
  {
    forall i | 0 < i < |s[1..]| && IsUpper(s[1..][i]) ensures IsLower(s[1..][i - 1]) {
      assert s[1..][i] == s[i + 1] && s[1..][i - 1] == s[i];
    }
  }

  /** The src dashes, lower-cased as they are placed */
  function LowerDashes(s: string): string
    decreases |s|
  {
    if s == [] then []
    else [ToLower(s[0])] + (if SrcCommand.CamelBoundaryAt(s, 0) then "-" else "") + LowerDashes(s[1..])
  }

  /** The src scan places the first character, then a dash at a camel boundary, then goes on. */
  lemma DashesCons(s: string)
    requires |s| > 0
    ensures SrcCommand.DashAfterBoundaries(s) ==
      [s[0]] + ((if SrcCommand.CamelBoundaryAt(s, 0) then "-" else "") + SrcCommand.DashAfterBoundaries(s[1..]))
  {
  }

  lemma LowerCaseThree(a: string, b: string, c: string)
    ensures LowerCase(a + (b + c)) == LowerCase(a) + (LowerCase(b) + LowerCase(c))
  {
    LowerCaseAppend(a, b + c);
    LowerCaseAppend(b, c);
  }

  /** Lower-casing after placing the dashes is lower-casing while placing them. */
  lemma {:induction false} LowerDashesIsLowerCase(s: string)
    ensures LowerCase(SrcCommand.DashAfterBoundaries(s)) == LowerDashes(s)
    decreases |s|
  {
    if s != [] {
      LowerDashesIsLowerCase(s[1..]);
      DashesCons(s);
      LowerCaseThree([s[0]], if SrcCommand.CamelBoundaryAt(s, 0) then "-" else "", SrcCommand.DashAfterBoundaries(s[1..]));
    }
  }

  /** The lower-cased src dashes, with the dash the lib scan puts before a leading capital */
  function LeadDash(s: string): string {
    (if |s| > 0 && IsUpper(s[0]) then "-" else "") + LowerDashes(s)
  }

  /** One character of both scans. */
  lemma LeadDashStep(s: string)
    requires |s| > 0 && CapitalsFollowLower(s)
    requires CapitalsFollowLower(s[1..])
    ensures LeadDash(s) == (if IsUpper(s[0]) then ['-', ToLower(s[0])] else [s[0]]) + LeadDash(s[1..])
  {
    var t := s[1..];
    assert |t| > 0 ==> t[0] == s[1];
    var lead: string := if |t| > 0 && IsUpper(t[0]) then "-" else "";
    var mid: string := if SrcCommand.CamelBoundaryAt(s, 0) then "-" else "";
    assert mid == lead;
    assert LowerDashes(s) == [ToLower(s[0])] + mid + LowerDashes(t);
  }

  /** Where every capital follows a lower-case letter, the lib scan is the src one, lower-cased. */
  lemma {:induction false} DashesAgree(s: string)
    requires CapitalsFollowLower(s)
    ensures LibCommand.DashBeforeUpper(s) == LeadDash(s)
    decreases |s|
  {
    if s != [] {
      CapitalsFollowLowerTail(s);
      DashesAgree(s[1..]);
      LeadDashStep(s);
    }
  }

  /**
   * The two kebab-case rules name a file the same way when the name has no whitespace or underscore,
   * does not open with a dash, and never puts a capital after anything but a lower-case letter.
   * These conditions are enough, not necessary: see `KebabAgreeOnLeadingDash`.
   */
  lemma KebabVariantsAgree(s: string)
    requires NoSeparator(s)
    requires !LibCommand.StartsWithDash(s)
    requires CapitalsFollowLower(s)
    ensures SrcCommand.ToKebabCase(s) == LibCommand.ToKebabCase(s)
    ensures LibCommandUtils.ToKebabCase(s) == LibCommand.ToKebabCase(s)
  {
    SrcCommand.DashCamelBoundariesEverywhere(s);
    DashesKeepNoSeparator(s);
    LowerDashesIsLowerCase(s);
    DashesAgree(s);
  }

  /** Two capitals in a row are where the kebab-case rules part. */
  lemma KebabOfCapitals()
    ensures SrcCommand.ToKebabCase("ID") == "id"
    ensures LibCommand.ToKebabCase("ID") == "i-d"
  {
    assert SrcCommand.DashCamelBoundaries("ID") == "ID";
    assert LibCommand.DashBeforeUpper("D") == "-d";
    assert LibCommand.DashBeforeUpper("ID") == "-i-d";
  }

  /** So is an underscore, which only the src rule turns into a dash. */
  lemma KebabOfUnderscore()
    ensures SrcCommand.ToKebabCase("a_b") == "a-b"
    ensures LibCommand.ToKebabCase("a_b") == "a_b"
  {
    assert SrcCommand.DashCamelBoundaries("a_b") == "a_b";
    assert SrcCommand.SeparatorRun("_b") == 1;
    assert SrcCommand.CollapseSeparators("a_b") == "a-b";
  }

  /** The lib rule is not idempotent: a name opening with a dash loses a dash per application. */
  lemma LibKebabNotIdempotent()
    ensures LibCommand.ToKebabCase("-A") == "-a"
    ensures LibCommand.ToKebabCase(LibCommand.ToKebabCase("-A")) == "a"
  {
    assert LibCommand.DashBeforeUpper("A") == "-a";
    assert LibCommand.DashBeforeUpper("-A") == "--a";
    assert LibCommand.DashBeforeUpper("-a") == "-a";
  }

  /** A dash before a capital is kept beside the inserted one: a name such as "User-Profile" gets two dashes in lib kebab-case. */
  lemma KebabOfDashedName()
    ensures LibCommand.ToKebabCase("Ab-Cd") == "ab--cd"
  {
    assert LibCommand.DashBeforeUpper("d") == "d";
    assert LibCommand.DashBeforeUpper("Cd") == "-cd";
    assert LibCommand.DashBeforeUpper("-Cd") == "--cd";
    assert LibCommand.DashBeforeUpper("b-Cd") == "b--cd";
    assert LibCommand.DashBeforeUpper("Ab-Cd") == "-ab--cd";
  }

  // ---------------------------------------------------------- removeSuffixFromName

  /** The suffix goes together with a plural `s`. */
  lemma SuffixWithPlural()
    ensures SrcCommand.RemoveSuffixFromName("ADtos", "dto") == "A"
  {
    assert SuffixPattern.EndsWithIgnoringCase("ADtos", "dto" + "s");
  }

  /** The suffix matches whatever its case. */
  lemma SuffixIgnoresCase()
    ensures SrcCommand.RemoveSuffixFromName("ADTO", "dto") == "A"
  {
    assert !SuffixPattern.EndsWithIgnoringCase("ADTO", "dto" + "s") by {
      assert ToLower("ADTO"[0]) != ToLower(("dto" + "s")[0]);
    }
    assert SuffixPattern.EndsWithIgnoringCase("ADTO", "dto");
  }

  /** Other plurals are not recognised: `-ies` is left alone. */
  lemma SuffixOtherPlural()
    ensures SrcCommand.RemoveSuffixFromName("Cities", "city") == "Cities"
  {
    assert !SuffixPattern.EndsWithIgnoringCase("Cities", "city" + "s") by {
      assert "Cities"[1] == 'i';
    }
    assert !SuffixPattern.EndsWithIgnoringCase("Cities", "city") by {
      assert "Cities"[5] == 's';
    }
  }

  /** A name that is nothing but the suffix, plural or not, is removed entirely. */
  lemma SuffixWholeName()
    ensures SrcCommand.RemoveSuffixFromName("Users", "user") == ""
  {
    assert SuffixPattern.EndsWithIgnoringCase("Users", "user" + "s");
  }

  // --------------------------------------------------------- PascalCase, camelCase

  predicate AllAlnum(s: string) { forall i :: 0 <= i < |s| ==> IsAlnum(s[i]) }

  lemma CamelMarksOfAlnum(s: string)
    requires |s| > 0 && AllAlnum(s)
    ensures LibCommand.CamelMarks(s) == [ToLower(s[0])] + s[1..]
  {
    var m, e := LibCommand.CamelMarks(s), [ToLower(s[0])] + s[1..];
    assert |m| == |e|;
    forall i | 0 <= i < |s| ensures m[i] == e[i] {
      if i > 0 {
        assert IsAlnum(s[i - 1]);
      }
    }
  }

  lemma WithoutNothing(s: string, drop: char -> bool)
    requires forall i :: 0 <= i < |s| ==> !drop(s[i])
    ensures Without(s, drop) == s
  {
  }

  /** lib `toCamelCase` of a single word of letters and digits lower-cases its first character only. */
  lemma LibCamelOfWord(s: string)
    requires |s| > 0 && AllAlnum(s)
    ensures LibCommand.ToCamelCase(s) == [ToLower(s[0])] + s[1..]
  {
    CamelMarksOfAlnum(s);
    var m := [ToLower(s[0])] + s[1..];
    CaseKeepsClass(s[0]);
    WithoutNothing(m, IsSpace);
    WithoutNothing(m, LibCommand.IsDashOrUnderscore);
  }

  /** On a single word of letters and digits, the two camelCase rules agree. */
  lemma CamelVariantsAgree(s: string)
    requires |s| > 0 && AllAlnum(s)
    ensures SrcCommand.ToCamelCase(s) == LibCommand.ToCamelCase(s)
  {
    SrcCommand.PascalCamelOfAlnum(s);
    LibCamelOfWord(s);
  }

  /** lib `toPascalCase` of a single word with no capital after the first character upper-cases that character only. */
  lemma LibPascalOfWord(s: string)
    requires |s| > 0 && AllAlnum(s)
    requires NoUpper(s[1..])
    ensures LibCommand.ToPascalCase(s) == [ToUpper(s[0])] + s[1..]
    ensures LibCommandUtils.ToPascalCase(s) == LibCommand.ToPascalCase(s)
  {
    LowerCaseFacts(s[1..]);
    var c := [ToUpper(s[0])] + s[1..];
    CaseKeepsClass(s[0]);
    WithoutNothing(c, IsSpace);
  }

  /** On a single word of letters and digits with no capital after the first, the two PascalCase rules agree. */
  lemma PascalVariantsAgree(s: string)
    requires |s| > 0 && AllAlnum(s)
    requires NoUpper(s[1..])
    ensures SrcCommand.ToPascalCase(s) == LibCommand.ToPascalCase(s)
    ensures LibCommandUtils.ToPascalCase(s) == LibCommand.ToPascalCase(s)
  {
    SrcCommand.PascalCamelOfAlnum(s);
    LibPascalOfWord(s);
  }

  /** A capital inside a word and a dash are where the PascalCase rules part. */
  lemma PascalVariantsDiffer()
    ensures SrcCommand.ToPascalCase("aB") == "AB" && LibCommand.ToPascalCase("aB") == "Ab"
    ensures SrcCommand.ToPascalCase("a-b") == "AB" && LibCommand.ToPascalCase("a-b") == "A-b"
  {
    SrcCommand.AlnumUnchanged("aB");
    assert SrcCommand.DelimiterRun("-b") == 1;
    assert SrcCommand.UpcaseAfterDelimiters("a-b") == "aB";
    assert LibCommand.CapitalizedLower("aB") == "Ab";
    assert LibCommand.CapitalizedLower("a-b") == "A-b";
  }

  /** A name that opens with a dash before a capital falls outside `KebabVariantsAgree`, yet both rules give the same file name. */
  lemma KebabAgreeOnLeadingDash()
    ensures LibCommand.StartsWithDash("-A")
    ensures SrcCommand.ToKebabCase("-A") == "-a" && LibCommand.ToKebabCase("-A") == "-a"
  {
    assert "-A"[1..] == "A" && "A"[1..] == [];
    assert SrcCommand.DashCamelBoundaries("-A") == "-A";
    assert SrcCommand.CollapseSeparators("-A") == "-A";
    assert LibCommand.DashBeforeUpper("-A") == "--a";
    assert "--a"[1..] == "-a";
  }

  /** The src camelCase rule drops any single delimiter between two letters and capitalises the second. */
  lemma SrcCamelAcross(c: char)
    requires !IsAlnum(c)
    ensures SrcCommand.ToCamelCase(['a', c, 'b']) == "aB"
  {
    var s := ['a', c, 'b'];
    assert s[1..] == [c, 'b'] && [c, 'b'][1..] == "b";
    assert SrcCommand.DelimiterRun("b") == 0;
    assert SrcCommand.DelimiterRun([c, 'b']) == 1;
    assert SrcCommand.UpcaseAfterDelimiters([c, 'b']) == "B";
  }

  /** Removing the one `_` or `-` between two letters, the last step of the lib camelCase rule */
  lemma DropMiddle(x: char, c: char, y: char)
    requires LibCommand.IsDashOrUnderscore(c) && !IsSpace(c)
    requires IsAlnum(x) && IsAlnum(y)
    ensures Without(Without([x, c, y], IsSpace), LibCommand.IsDashOrUnderscore) == [x, y]
  {
    var s := [x, c, y];
    assert Without(s, IsSpace) == s;
    assert s[1..] == [c, y] && [c, y][1..] == [y];
    assert Without([y], LibCommand.IsDashOrUnderscore) == [y];
    assert Without([c, y], LibCommand.IsDashOrUnderscore) == [y];
  }

  /** An underscore is a word character to the lib camelCase rule: it is dropped, and the next letter stays small. */
  lemma CamelOfUnderscore()
    ensures SrcCommand.ToCamelCase("a_b") == "aB" && LibCommand.ToCamelCase("a_b") == "ab"
  {
    assert "a_b" == ['a', '_', 'b'];
    SrcCamelAcross('_');
    var m := LibCommand.CamelMarks("a_b");
    assert m[1] == '_' && m[2] == 'b';
    assert m == ['a', '_', 'b'];
    DropMiddle('a', '_', 'b');
  }

  /** A dash is a word boundary to both rules. */
  lemma CamelOfDash()
    ensures SrcCommand.ToCamelCase("a-b") == "aB" && LibCommand.ToCamelCase("a-b") == "aB"
  {
    assert "a-b" == ['a', '-', 'b'];
    SrcCamelAcross('-');
    var n := LibCommand.CamelMarks("a-b");
    assert n[1] == '-' && n[2] == 'B';
    assert n == ['a', '-', 'B'];
    DropMiddle('a', '-', 'B');
  }

  lemma SrcUpcaseOfLeadingDash()
    ensures SrcCommand.UpcaseAfterDelimiters("-abc") == "Abc"
  {
    assert "-abc"[1..] == "abc";
    SrcCommand.AlnumUnchanged("bc");
    assert SrcCommand.DelimiterRun("-abc") == 1;
  }

  lemma LibMarksOfLeadingDash()
    ensures LibCommand.CamelMarks("-abc") == "-Abc"
  {
    var m := LibCommand.CamelMarks("-abc");
    assert m[0] == '-' && m[1] == 'A' && m[2] == 'b' && m[3] == 'c';
  }

  lemma DropLeadingDash()
    ensures Without(Without("-Abc", IsSpace), LibCommand.IsDashOrUnderscore) == "Abc"
  {
    WithoutNothing("-Abc", IsSpace);
    assert "-Abc"[1..] == "Abc";
    WithoutNothing("Abc", LibCommand.IsDashOrUnderscore);
  }

  /** A leading underscore is a word character to lib camelCase: it is dropped and the letter after it stays small. */
  lemma CamelOfLeadingUnderscore()
    ensures LibCommand.ToCamelCase("_abc") == "abc"
  {
    var m := LibCommand.CamelMarks("_abc");
    assert m[0] == '_' && m[1] == 'a' && m[2] == 'b' && m[3] == 'c';
    assert m == "_abc";
    WithoutNothing("_abc", IsSpace);
    assert "_abc"[1..] == "abc";
    WithoutNothing("abc", LibCommand.IsDashOrUnderscore);
  }

  /** Any other leading delimiter is kept by lib camelCase, and the word start after it is upper-cased. */
  lemma CamelOfLeadingDot()
    ensures LibCommand.ToCamelCase(".abc") == ".Abc"
  {
    var m := LibCommand.CamelMarks(".abc");
    assert m[0] == '.' && m[1] == 'A' && m[2] == 'b' && m[3] == 'c';
    assert m == ".Abc";
    WithoutNothing(".Abc", IsSpace);
    WithoutNothing(".Abc", LibCommand.IsDashOrUnderscore);
  }

  /** A leading dash is a word boundary to lib camelCase: the letter after it is capitalised although the text had no capital. */
  lemma CamelOfLeadingDash()
    ensures SrcCommand.ToCamelCase("-abc") == "abc" && LibCommand.ToCamelCase("-abc") == "Abc"
  {
    SrcUpcaseOfLeadingDash();
    LibMarksOfLeadingDash();
    DropLeadingDash();
  }

  // ------------------------------------------------------------ generateFunctions

  /** The handler stub of lib/utils/command.utils.js is the src one without the semicolon after `next(error)`. */
  lemma HandlerStubsDifferBySemicolon(name: string)
    ensures Stubs.Fill(SrcCommand.ControllerStub, name) ==
      StubHead(name) + ";" + "\n    }\n  }"
    ensures Stubs.Fill(LibCommandUtils.ControllerStub, name) ==
      StubHead(name) + "\n    }\n  }"
  {
  }

  function StubHead(name: string): string {
    "static async " + name + "(" + "req: Request, res: Response, next: NextFunction) {\n    try {\n      //\n    } catch (error) {\n      next(error)"
  }
}
