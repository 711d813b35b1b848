# node-artisan string and transformer utilities in Dafny

node-artisan is a scaffolding command-line tool. It writes controllers, models, services and
similar boilerplate files into a web project. This project models the pure logic those
generators rely on, and proves properties of it:

- the `Command` name helpers in three copies:
  - src/utils/command.util.js;
  - lib/utils/command.util.js;
  - the Babel-compiled lib/utils/command.utils.js.

  They turn a name into kebab-case, PascalCase or camelCase, strip a type suffix from a name
  (`UserControllers` minus `controller` gives `User`), and emit method stubs for a list of
  function names.
- `Str` (src/utils/str.util.js): `title`, `lower` and `attributes`.
- the memoising `Transformer` (lib/utils/transformer.util.js). It keeps a cache from a key of
  the data to the formatted result, and calls the subclass's `_format` hook only on a miss.

## Structure

Each module is one file.

| Module | Contents |
|---|---|
| `Wrappers` | `Option` and `Result` |
| `Ascii` | the ASCII character classes: `[A-Z]`, `[a-z]`, `\w`, `\s`, `[a-zA-Z0-9]` |
| `Ascii` | `toUpperCase` and `toLowerCase` on ASCII |
| `Ascii` | `Without`, which deletes the characters a class matches |
| `Ascii` | `Letters`, the lower-cased letters and digits of a text, used to say that a conversion loses and reorders nothing |
| `SuffixPattern` | the pattern `${type}(s)?$` with the `i` flag and its leftmost match, as `String.prototype.replace` uses it |
| `Stubs` | `functions.map(template).join('\n')` over a template with one hole |
| `Stubs` | a parser that reads emitted stubs back into the list of names |
| `SrcCommand` | the `Command` helpers of src/utils/command.util.js |
| `LibCommand` | the `Command` helpers of lib/utils/command.util.js |
| `LibCommandUtils` | the `Command` helpers of lib/utils/command.utils.js |
| `CommandVariants` | where the three copies agree, with concrete inputs where they do not |
| `JsValue` | JavaScript values, truthiness, `v \|\| null` and the object spread `{ ...v }` |
| `StrUtil` | `Str.title`, `Str.lower`, `Str.attributes` |
| `TransformerUtil` | the functions `Single`, `Many` and `TransformSpec`, which say what a call returns, what cache it leaves and which hook calls it makes |
| `TransformerUtil` | the class `Transformer`, whose methods update the cache in place and are proved equal to those functions |
| `TransformerUtil` | the properties of the functions, proved as lemmas |

### How the regular expressions are modelled

Every global `replace` is a recursive scan that follows the JavaScript regex engine:

- matches never overlap;
- a `+` run is greedy;
- `[^a-zA-Z0-9]+(.)` backtracks at the end of the text, so that `(.)` takes the last delimiter.

Most scans are then proved equal to a reference definition stated position by position, for
example "a dash after every lower-case letter followed by an upper-case one". The lib
`/[A-Z]/g` replace is stated instead by what it does to one character and by
distributing over concatenation (`DashBeforeUpperOne`, `DashBeforeUpperAppend`), which
together fix its result on every input.

### Behaviour of the code worth knowing

- **`removeSuffixFromName("Users", "user")`:** the pattern `user(s)?$` matches the whole name, so the result is `""` (`SuffixWholeName`).
- **`removeSuffixFromName("UsersRepositories", "repository")`:**
  - the pattern only accepts a plain trailing `s`, so the name comes back unchanged;
  - `SuffixOtherPlural` shows the same with `Cities` and `city`.
- **The cache key:**
  - the comment on `generateHash` (lib/utils/transformer.util.js:50) says the hash is made from the data and the language;
  - the body (lib/utils/transformer.util.js:55-57) hashes the data alone;
  - so a second call in another language replays the first result (`LangIgnored`, `LangExample`). The model follows the body.
- **Replayed values:** a hit returns `cache.get(hash) || null`, so every falsy cached value comes back as `null`, `0` included (`FalsyResultReplayedAsNull`).
- **The base `Transformer`:** falsy input and the empty array succeed, because `_format` is never reached (`BaseTransformerFails`).
- **`toPascalCase` in src:**
  - it can begin with a digit;
  - it keeps a single trailing delimiter, because `/[^a-zA-Z0-9]+(.)/` needs a character after the run.
- **`toCamelCase` in lib:** it does not always begin in lower case.
  - Only index 0 is lower-cased.
  - When index 0 is a dash or whitespace, it is removed, and the word start after it has already been upper-cased: `"-abc"` gives `"Abc"` (`CamelOfLeadingDash`).
  - A leading underscore is a word character, so it starts the word; it is removed and the next letter stays small: `"_abc"` gives `"abc"` (`CamelOfLeadingUnderscore`).
  - Any other leading character that is not a letter or digit is kept, and the word start after it is upper-cased: `".abc"` gives `".Abc"` (`CamelOfLeadingDot`).
  - Capitals after index 0 are kept.

## Model

The functions that are the scans themselves have no row of their own, because the rows of the lemmas about them state their contracts:
- `SrcCommand.DashCamelBoundaries`: `DashCamelBoundariesEverywhere`;
- `SrcCommand.CollapseSeparators`: `CollapseSeparatorsReference`;
- `SrcCommand.UpcaseAfterDelimiters`: `UpcaseAfterDelimitersReference`;
- `SrcCommand.MapFirst`: its own ensures, used by `ToPascalCase` and `ToCamelCase`;
- `LibCommand.CaseScan`: `PascalScan` and `CamelScanFrom`;
- `StrUtil.UpcaseWordStarts`: `UpcaseWordStartsAt`;
- `SuffixPattern.ReplaceSuffix`: `ReplaceSuffixRule`;
- `Stubs.Emit`: `EmitMeaning`, `ParseEmit` and `EmitAppend`;
- `TransformerUtil.Single`, `Many`, `TransformSpec` and `BaseFormat`: the `TransformerUtil` lemma rows and the method rows.

| member | source | states |
|---|---|---|
| SrcCommand.ToKebabCase | src/utils/command.util.js:41-46 | the result is the input with a dash after every lower-case letter that is followed by an upper-case one, then each maximal run of whitespace and underscores replaced by exactly one dash, then lower-cased; it contains no upper-case letter, whitespace or underscore |
| SrcCommand.DashCamelBoundariesEverywhere | src/utils/command.util.js:43 | the global scan puts a dash between every lower-case letter and the upper-case letter after it, even across neighbouring boundaries |
| SrcCommand.DashAfterBoundariesKeepsText | src/utils/command.util.js:43 | inserting the dashes changes nothing else: dashes already present are kept, and the letters and digits stay the same |
| SrcCommand.CollapseSeparatorsKeepsLetters | src/utils/command.util.js:44 | replacing runs of whitespace and underscores with a dash loses no letter or digit |
| SrcCommand.CollapseSeparatorsReference | src/utils/command.util.js:44 | the global replace equals the reference that marks the first separator of each maximal run with a dash, keeps every other character, and deletes the remaining separators: each run becomes exactly one dash and nothing else changes |
| SrcCommand.KebabFixpoint | src/utils/command.util.js:41-46 | text without upper-case letters and without separators comes back unchanged |
| SrcCommand.KebabIdempotent | src/utils/command.util.js:41-46 | converting twice is the same as converting once |
| SrcCommand.KebabKeepsLetters | src/utils/command.util.js:41-46 | the letters and digits are those of the input, in order; only their case changes |
| SuffixPattern.FirstMatch | src/utils/command.util.js:56-57 | the search returns the leftmost position where the pattern matches, or none if it matches nowhere |
| SuffixPattern.MatchPositions | src/utils/command.util.js:56 | the pattern matches exactly before a trailing `type + "s"` or before a trailing `type`, ignoring case |
| SuffixPattern.ReplaceSuffixRule | src/utils/command.util.js:55-58 | a trailing `type + "s"` is removed first, otherwise a trailing `type`, otherwise nothing |
| SrcCommand.RemoveSuffixFromName | src/utils/command.util.js:55-58 | the result is a prefix of the name, of length `\|name\| - \|type\| - 1`, `\|name\| - \|type\|` or `\|name\|` according to the strip rule |
| SrcCommand.UpcaseAfterDelimitersKeepsLetters | src/utils/command.util.js:68 | deleting delimiter runs and upper-casing the next character loses no letter or digit |
| SrcCommand.UpcaseAfterDelimitersReference | src/utils/command.util.js:68 | the global replace equals the reference that upper-cases every character right after a delimiter, deletes every delimiter, and keeps the last character when the text ends in a delimiter |
| SrcCommand.AlnumUnchanged | src/utils/command.util.js:68 | text made only of `[a-zA-Z0-9]` passes the delimiter replace unchanged |
| SrcCommand.ToPascalCase | src/utils/command.util.js:66-70 | the result is that reference with its first character upper-cased: every delimiter run is deleted and the character after it upper-cased, and a trailing delimiter stays; it is never longer than the input, never begins in lower case, and every character but the last is a letter or digit |
| SrcCommand.ToCamelCase | src/utils/command.util.js:98-102 | the result is the same reference with its first character lower-cased; it is never longer than the input, never begins in upper case, and every character but the last is a letter or digit |
| SrcCommand.PascalCamelAgree | src/utils/command.util.js:98-102 | PascalCase and camelCase have the same length and agree everywhere except index 0, where one is the upper-case and the other the lower-case of the same character |
| SrcCommand.PascalCamelKeepLetters | src/utils/command.util.js:66-70 | both conversions keep the letters and digits of the input, in order |
| SrcCommand.PascalCamelOfAlnum | src/utils/command.util.js:98-102 | for alphanumeric input only index 0 changes |
| SrcCommand.GenerateFunctions | src/utils/command.util.js:78-90 | the result is empty exactly for no names and begins with the first name's guarded handler stub; it parses back to the names, in order |
| SrcCommand.GenerateUtilFunctions | src/utils/command.util.js:110-119 | the result is empty exactly for no names and begins with the first name's bare stub; it parses back to the names, in order |
| SrcCommand.GenerateFunctionsAppend | src/utils/command.util.js:78-119 | for both emitters, `generateFunctions` (lines 79-89) and `generateUtilFunctions` (lines 111-118), the stubs of a concatenation are the two stub texts joined by one line feed |
| Stubs.EmitMeaning | src/utils/command.util.js:79-89 | `map(...).join('\n')` is empty exactly for no names, is the one filled block for one name, begins with the first filled block, and parses back to the names |
| Stubs.ParseEmit | src/utils/command.util.js:79-89 | reading the emitted text back gives the list of names, in order, whenever no name contains `(` |
| Stubs.EmitAppend | src/utils/command.util.js:111-118 | emitting a concatenation joins the two emitted texts with a line feed |
| LibCommand.DashBeforeUpper | lib/utils/command.util.js:44 | no upper-case letter survives, and text without one is returned unchanged |
| LibCommand.DashBeforeUpperOne | lib/utils/command.util.js:44 | a single capital becomes a dash and its lower case; any other single character is kept |
| LibCommand.DashBeforeUpperAppend | lib/utils/command.util.js:44 | every match is replaced independently: the replace of `a + b` is the replace of `a` followed by the replace of `b`, so the result is the images of the characters in order, for every input |
| LibCommand.StripLeadingDash | lib/utils/command.util.js:44 | putting back one dash when the input begins with one gives the input: exactly one leading dash is removed, and nothing when there is none |
| LibCommand.ToKebabCase | lib/utils/command.util.js:43-45 | the result has no upper-case letter; text without upper-case letters that does not begin with a dash is returned unchanged |
| LibCommand.RecamelDashBeforeUpper | lib/utils/command.util.js:44 | for text without dashes, turning every `-x` back into `X` recovers the input |
| LibCommand.KebabRoundTrip | lib/utils/command.util.js:43-45 | for text without dashes that does not begin with a capital, kebab-case is undone by re-capitalising after each dash |
| LibCommand.RemoveSuffixFromName | lib/utils/command.util.js:54-57 | the same strip rule as the src copy |
| LibCommand.PascalScan | lib/utils/command.util.js:66 | the alternation replace upper-cases index 0 and lower-cases every later character |
| LibCommand.ToPascalCase | lib/utils/command.util.js:65-67 | the result is `upper(s[0]) + lower(s[1..])` with all whitespace removed, and contains no whitespace |
| LibCommand.PascalLowerAfterFirst | lib/utils/command.util.js:65-67 | no upper-case letter appears after index 0 |
| LibCommand.PascalKeepsLetters | lib/utils/command.util.js:65-67 | the letters and digits of the input are kept, in order |
| LibCommand.CamelScanFrom | lib/utils/command.util.js:92 | the alternation replace gives the reference marks: index 0 lower-cased, a word character after a non-word character upper-cased, everything else as it was |
| LibCommand.ToCamelCase | lib/utils/command.util.js:91-93 | the result is those marks with all whitespace, underscores and dashes removed, and contains none of them |
| LibCommand.CamelKeepsLetters | lib/utils/command.util.js:91-93 | the letters and digits of the input are kept, in order |
| LibCommand.GenerateFunctions | lib/utils/command.util.js:75-83 | the result is the same text as the src `generateFunctions` |
| LibCommand.GenerateUtilFunctions | lib/utils/command.util.js:101-106 | the result is the same text as the src `generateUtilFunctions` |
| LibCommandUtils.ToKebabCase | lib/utils/command.utils.js:38-43 | the same function as `toKebabCase` in lib/utils/command.util.js |
| LibCommandUtils.RemoveSuffixFromName | lib/utils/command.utils.js:45-49 | the same strip rule as the src copy |
| LibCommandUtils.ToPascalCase | lib/utils/command.utils.js:51-56 | the same function as `toPascalCase` in lib/utils/command.util.js |
| LibCommandUtils.GenerateFunctions | lib/utils/command.utils.js:58-63 | the result is empty exactly for no names and begins with the first name's stub; it parses back to the names, in order |
| LibCommandUtils.GenerateFunctionsIgnoresClassName | lib/utils/command.utils.js:59-63 | the output does not depend on `className` |
| CommandVariants.HandlerStubsDifferBySemicolon | lib/utils/command.utils.js:61 | this copy's handler stub is the src stub without the semicolon after `next(error)` |
| CommandVariants.DashesAgree | lib/utils/command.util.js:44 | when every capital follows a lower-case letter, the lib dash insertion equals a lower-cased src-style dash insertion |
| CommandVariants.KebabVariantsAgree | src/utils/command.util.js:41-46 | on names without separators or a leading dash, where every capital follows a lower-case letter, all three `toKebabCase` copies agree; these conditions are sufficient, not necessary |
| CommandVariants.KebabAgreeOnLeadingDash | lib/utils/command.util.js:44 | `"-A"` fails those conditions, yet both rules give `"-a"` |
| CommandVariants.KebabOfCapitals | lib/utils/command.util.js:44 | `"ID"` becomes `"id"` in src but `"i-d"` in lib |
| CommandVariants.KebabOfUnderscore | src/utils/command.util.js:44 | `"a_b"` becomes `"a-b"` in src and stays `"a_b"` in lib |
| CommandVariants.LibKebabNotIdempotent | lib/utils/command.util.js:44 | `"-A"` becomes `"-a"`, which becomes `"a"`: the lib kebab-case is not idempotent |
| CommandVariants.KebabOfDashedName | lib/utils/command.util.js:43-45 | `"Ab-Cd"` gives `"ab--cd"`: a dash before a capital stays beside the inserted one, as for a name like `User-Profile` |
| CommandVariants.SuffixWithPlural | src/utils/command.util.js:56-57 | `("ADtos", "dto")` gives `"A"` |
| CommandVariants.SuffixIgnoresCase | src/utils/command.util.js:56-57 | `("ADTO", "dto")` gives `"A"` |
| CommandVariants.SuffixOtherPlural | src/utils/command.util.js:56-57 | `("Cities", "city")` is unchanged: only a plain `s` plural is stripped |
| CommandVariants.SuffixWholeName | src/utils/command.util.js:56-57 | `("Users", "user")` gives `""` |
| CommandVariants.CamelVariantsAgree | lib/utils/command.util.js:91-93 | on non-empty alphanumeric text the src and lib `toCamelCase` agree |
| CommandVariants.LibCamelOfWord | lib/utils/command.util.js:91-93 | on non-empty alphanumeric text lib `toCamelCase` lower-cases index 0 and changes nothing else |
| CommandVariants.PascalVariantsAgree | lib/utils/command.util.js:65-67 | on non-empty alphanumeric text with no capital after index 0, all three `toPascalCase` copies agree |
| CommandVariants.LibPascalOfWord | lib/utils/command.util.js:65-67 | on non-empty alphanumeric text with no capital after index 0, lib `toPascalCase` upper-cases index 0 and changes nothing else |
| CommandVariants.PascalVariantsDiffer | src/utils/command.util.js:66-70 | `"aB"` gives `"AB"` in src and `"Ab"` in lib; `"a-b"` gives `"AB"` in src and `"A-b"` in lib |
| CommandVariants.CamelOfUnderscore | lib/utils/command.util.js:92 | `"a_b"` gives `"aB"` in src and `"ab"` in lib |
| CommandVariants.CamelOfDash | src/utils/command.util.js:100 | `"a-b"` gives `"aB"` in both copies |
| CommandVariants.CamelOfLeadingDash | lib/utils/command.util.js:92 | `"-abc"` gives `"abc"` in src and `"Abc"` in lib: lib camelCase can begin with a capital although the input has none |
| CommandVariants.CamelOfLeadingUnderscore | lib/utils/command.util.js:92 | `"_abc"` gives `"abc"`: `_` matches `^\w`, so no word start follows it and the `a` stays lower case |
| CommandVariants.CamelOfLeadingDot | lib/utils/command.util.js:92 | `".abc"` gives `".Abc"`: the dot matches no alternative and no removal, and the `a` after it is a word start |
| StrUtil.UpcaseWordStartsAt | src/utils/str.util.js:14 | `replace(/\b\w/g, upper)` upper-cases exactly the word characters that start a word and keeps every other character |
| StrUtil.Title | src/utils/str.util.js:10-15 | `null` exactly for `null` or `""`; otherwise the length is kept, every character equals the input's ignoring case, word starts are not lower-case and the other characters are not upper-case |
| StrUtil.TitleUnique | src/utils/str.util.js:10-15 | that description has only one solution, which `title` returns |
| StrUtil.TitleOfLowerCase | src/utils/str.util.js:14 | `title` depends only on the lower-cased input |
| StrUtil.TitleIdempotent | src/utils/str.util.js:10-15 | `title(title(s)) == title(s)` |
| StrUtil.TitleExamples | src/utils/str.util.js:14 | `"aB-c"` gives `"Ab-C"`; `"a_B"` gives `"A_b"`, because `_` is a word character |
| StrUtil.Lower | src/utils/str.util.js:22-27 | `null` exactly for `null` or `""`; otherwise the same length, no upper-case letter, and equal to the input ignoring case |
| StrUtil.LowerIdempotent | src/utils/str.util.js:22-27 | `lower` is idempotent and leaves non-empty text without capitals unchanged |
| StrUtil.TitleAgreesWithLower | src/utils/str.util.js:10-27 | `title` and `lower` are null together; `title` is `lower` with each word start upper-cased and no other change |
| StrUtil.Attributes | src/utils/str.util.js:34-40 | `null` exactly for falsy data; otherwise an object whose only key is `attributes`, holding the spread copy of the data |
| JsValue.Spread | src/utils/str.util.js:37 | `{ ...v }` copies an object's fields; for an array it has exactly one property per element, element `i` under the key `String(i)`; for a string the same with one-character strings; for every other value it is `{}` |
| JsValue.IndexedCopy | src/utils/str.util.js:37 | element `i` is stored under the key `String(i)`, with no other key, so there is exactly one property per element |
| JsValue.IndexKeyInjective | src/utils/str.util.js:37 | different indices give different property keys |
| JsValue.IndexedByUnique | src/utils/str.util.js:37 | only one map holds element `i` under `String(i)` and nothing else, so that description fixes the spread of an array or a string |
| JsValue.OrNull | lib/utils/transformer.util.js:40 | `v \|\| null` is `null` exactly for falsy `v`, and `v` otherwise |
| JsValue.OrNullIdempotent | lib/utils/transformer.util.js:40 | applying `\|\| null` twice is the same as once |
| TransformerUtil.Transformer.constructor | lib/utils/transformer.util.js:9 | a new transformer starts with an empty cache |
| TransformerUtil.Transformer.GenerateHash | lib/utils/transformer.util.js:55-57 | the key is computed from the data alone |
| TransformerUtil.Transformer.TransformSingle | lib/utils/transformer.util.js:35-47 | the result, the new cache and the hook calls are those `Single` prescribes for the old cache |
| TransformerUtil.Transformer.Transform | lib/utils/transformer.util.js:17-27 | the result, the new cache and the hook calls are those `TransformSpec` prescribes for the old cache |
| TransformerUtil.Transformer.TransformEach | lib/utils/transformer.util.js:21-23 | the loop over `data.map` gives the results, cache and hook calls `Many` prescribes |
| TransformerUtil.SingleHitOrMiss | lib/utils/transformer.util.js:35-47 | a hit returns the stored value or `null`, calls nothing and keeps the cache; a miss calls the hook once; on success a miss adds exactly one entry; a throw stores nothing |
| TransformerUtil.ManyGrows | lib/utils/transformer.util.js:21-23 | over an array the cache only grows and every new key is one the hook was called on; the hook is called only on keys missing before, at most once per key and at most once per element |
| TransformerUtil.TransformGrows | lib/utils/transformer.util.js:17-27 | the same for `transform`; falsy data returns `null`, keeps the cache and calls nothing |
| TransformerUtil.ManyResults | lib/utils/transformer.util.js:21-23 | after a successful map, every element's key is cached, holding its result up to `\|\| null` |
| TransformerUtil.ManyAllHits | lib/utils/transformer.util.js:21-23 | when every element is cached, the map succeeds with the stored values `\|\| null`, calls nothing and keeps the cache |
| TransformerUtil.TransformTwice | lib/utils/transformer.util.js:17-47 | transforming the same data again, in any language, calls no hook, keeps the cache and returns the first results with `\|\| null` applied |
| TransformerUtil.LangIgnored | lib/utils/transformer.util.js:36 | after one call, any data with the same key in any language is answered from the cache |
| TransformerUtil.BaseMany | lib/utils/transformer.util.js:67-69 | with the base hook, mapping an array keeps the cache, succeeds exactly when every element is already cached, and otherwise fails with the not-implemented message |
| TransformerUtil.BaseTransformerFails | lib/utils/transformer.util.js:67-69 | on a fresh transformer the base hook leaves the cache empty; `transform` succeeds exactly for falsy data and `[]`, and otherwise fails with the not-implemented message |
| TransformerUtil.ManyTotal | lib/utils/transformer.util.js:21-23 | with a hook that never throws, mapping succeeds with one result per element |
| TransformerUtil.TotalFormatter | lib/utils/transformer.util.js:17-27 | with a hook that never throws, `transform` succeeds, and an array yields an array of the same length |
| TransformerUtil.FalsyResultReplayedAsNull | lib/utils/transformer.util.js:39-41 | a stored `0` is returned once as `0` and afterwards as `null` |
| TransformerUtil.LangExample | lib/utils/transformer.util.js:36 | a German request after an English one for the same data gets the English result |

## Left out

- File writing is not part of this model: `createFile` in all three `Command` files, and every generator under src/commands and lib/commands.
- The rest of the tool is not part of this model either, because it is I/O or user interface:
  - the command-line wiring;
  - the `init` action;
  - the logger;
  - the process-spawning tests.
- The `.d.ts` declaration files carry no bodies. `isCollection`, declared there, has no implementation.
- Character classes and case mapping are ASCII only. Unicode case mapping and Unicode word boundaries are not modelled.
- A `(.)` capture is taken to match every character. The case where `.` does not match a line terminator is not modelled.
- `removeSuffixFromName` treats `type` as literal text. Regex metacharacters inside `type` are not modelled.
- `JSON.stringify` is replaced by an arbitrary function `keyOf` from data to key, fixed per transformer:
  - its exact output is not modelled;
  - that it throws on cyclic data is not modelled;
  - that it returns `undefined` for `undefined` is not modelled.
- Object property order is not modelled. An object is a map from keys to values, and `keyOf` takes a value. `JSON.stringify` depends on property order: `{a: 1, b: 2}` and `{b: 2, a: 1}` are two keys and two misses in the program, but one value and a cache hit in the model.
- The static `cache` is shared by `Transformer` and all its subclasses in one process. The model gives each transformer its own cache.
- The static `cache` is never cleared. Nothing in the model clears it either.
- The exception `_format` throws is modelled as a `Failure` carrying its message. Other exception types and stack traces are not modelled.
- Only the base class's message is fixed.
- JavaScript numbers are modelled as integers: no fractions, `NaN`, `-0` or `Infinity`.
- Objects other than plain maps from keys to values are not modelled: functions, symbols, prototypes and getters. The spread of such values is therefore not modelled either.
- `Str.title` and `Str.lower` receive a string or `null`. `undefined` is treated like `null`. Other non-string inputs, which would throw in JavaScript, are not modelled.
- The hook calls are recorded in a ghost field `calls`, so that the proofs can count them. The source has no such log.
