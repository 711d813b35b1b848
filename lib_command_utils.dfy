/**
 * The Babel-compiled `Command` of lib/utils/command.utils.js. Its case helpers are the
 * regular expressions of lib/utils/command.util.js; its `generateFunctions` takes an extra
 * `className` argument and emits a catch body without the semicolon.
 */
module LibCommandUtils {
  import opened Ascii
  import opened Wrappers
  import SuffixPattern
  import Stubs
  import SrcCommand
  import LibCommand

  /** `toKebabCase`: the same two replaces, so the same function as in lib/utils/command.util.js */
  function ToKebabCase(s: string): (r: string)
    ensures r == LibCommand.ToKebabCase(s)
  {
    LibCommand.StripLeadingDash(LibCommand.DashBeforeUpper(s))
  }

  /** `removeSuffixFromName`: the same strip rule as every other copy */
  function RemoveSuffixFromName(name: string, suffix: string): (r: string)
    ensures r == SrcCommand.RemoveSuffixFromName(name, suffix)
  {
    SuffixPattern.ReplaceSuffix(name, suffix)
  }

  /** `toPascalCase`: the same alternation and callback, so the same function as in lib/utils/command.util.js */
  function ToPascalCase(s: string): (r: string)
    ensures r == LibCommand.ToPascalCase(s)
  {
    Without(LibCommand.CaseScan(s, 0, false, ToUpper, ToLower), IsSpace)
  }

  /** The handler stub of this file: `next(error)` carries no semicolon. */
  const ControllerStub := Stubs.Template(
    "static async ",
    "(" + "req: Request, res: Response, next: NextFunction) {\n    try {\n      //\n    } catch (error) {\n      next(error)\n    }\n  }")

  /**
   * `generateFunctions(functions, className)`: empty exactly for no names; opens with the first
   * name's stub; reads back as the names, in order. `className` is never used.
   */
  function GenerateFunctions(functions: seq<string>, className: string): (r: string)
    ensures r == "" <==> functions == []
    ensures |functions| > 0 ==> Stubs.Fill(ControllerStub, functions[0]) <= r
    ensures Stubs.PlainNames(functions) ==> Stubs.Parse(ControllerStub, r) == Some(functions)
  {
    Stubs.EmitMeaning(ControllerStub, functions);
    Stubs.Emit(ControllerStub, functions)
  }

  /** The output depends on the names alone. */
  lemma GenerateFunctionsIgnoresClassName(functions: seq<string>, a: string, b: string)
    ensures GenerateFunctions(functions, a) == GenerateFunctions(functions, b)
  {
  }
}
