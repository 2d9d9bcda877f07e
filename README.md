# slugi: from command line to result

`slugi` is a command-line tool that turns a string into a URL slug. The slugification itself comes
from a library. The tool's own logic takes the command line to a tagged result, and that is what
this project models and proves:

- `strings.dfy`, module `Strings`: JavaScript's `String.prototype.trim`, which the schema applies
  to each positional string. It is characterised by the padding it removes and proved idempotent.
- `types.dfy`, module `Types`: the values that pass between the stages, and `ParsedArgumentsSchema`
  (`ParseParsedArguments`). The schema trims each positional string and rejects one that is then
  empty. It allows at most one string and turns the list into `null` or that string. It fills
  absent options with defaults and keeps `replacement` verbatim. `Result` is a datatype with two
  constructors, `Success(output)` and `Failure(error)`, so a result is exactly one of the two
  and has no other fields.
- `slugi.dfy`, module `Slugi`: the `Slugi` class as the datatype `Slugi(defaultOptions, slugMethod)`.
  Neither field changes after the constructor sets it, so the datatype's constructor plays the
  part of the class constructor. Its members are the help text (`HelpMessage`), the framed error
  text (`GenerateHelpMessage`), `parseArguments` (`ParseArguments`) and `getSlugFromArguments`
  (`GetSlugFromArguments`).

Exceptions are values. `Thrown` lists what a `throw` inside the `try` block can raise: an
`arg.ArgError`, a `v.ValiError`, another `Error`, or a value that is not an `Error`. `Outcome<T>`
is "returned a `T`" or "threw". `ErrorFromThrown` is the `catch` block.

What lies outside src/types.ts and src/slugi.ts becomes a parameter:
- the `arg` parser is a function from an option table and the arguments to an `ArgRecord` or a throw;
- the slug function is the `slugMethod` field. It may throw;
- the package version is a string;
- the validation library has one free choice that matters. When a blank positional string and a
  second positional string are both present, it decides which message it reports. That choice is
  the `IssuePriority` value.

The slug function is a field of `Slugi`; the other three are gathered in `Environment`. Every
lemma about the command holds for all of them.

The order of operations in src/slugi.ts (lines 92-122) has two consequences. First, the schema's
own defaults for `lower` and `replacement` (`DEFAULT_OPTIONS`) are never used on the command-line
path, because `parseArguments` always supplies the instance's defaults before the schema runs.
`SchemaDefaultsShadowed` and `Slugi.ParseArguments` prove this. Second, validation runs before the
help and version checks, so `-h` next to an empty string fails; help does not win there
(`ValidationErrorFramed`).

## Model

| member | source | states |
|---|---|---|
| `Strings.IsWhitespace` | src/types.ts:12 | the characters trim removes: exactly the ECMAScript WhiteSpace code points (with the Unicode "Zs" space separators as of Unicode 15) and LineTerminator code points; its consequences are stated by the trim lemmas below |
| `Strings.TrimStart` | src/types.ts:12 | the result is a suffix of the input that does not start with white space, and everything dropped is white space |
| `Strings.TrimEnd` | src/types.ts:12 | the result is a prefix of the input that does not end with white space, and everything dropped is white space |
| `Strings.Trim` | src/types.ts:12 | the result has no white space at either end and is no longer than the input |
| `Strings.TrimIsInfix` | src/types.ts:12 | what trim keeps is a contiguous part of the input with only white space before and after it |
| `Strings.TrimStartDropsPrefix` | src/types.ts:12 | leading white space in front of a non-white first character is exactly what is stripped at the start |
| `Strings.TrimEndDropsSuffix` | src/types.ts:12 | trailing white space behind a non-white last character is exactly what is stripped at the end |
| `Strings.TrimOfPadded` | src/types.ts:12 | white space, then a trimmed core, then white space trims to that core (an independent characterisation of trim) |
| `Strings.TrimOfTrimmed` | src/types.ts:12 | a string without white space at its ends is unchanged by trim |
| `Strings.TrimIdempotent` | src/types.ts:12 | trimming twice gives the same result as trimming once |
| `Strings.TrimEmptyIffBlank` | src/types.ts:12 | a string trims to "" exactly when it is all white space, so both "" and "   " are blank |
| `Types.PositionalIssue` | src/types.ts:11-16 | no rule is reported exactly when there is at most one positional string and none is blank; with at most one string the report is "the string to transform cannot be empty", with no blank string it is "only one string is allowed", and it is always one of the two |
| `Types.ParseParsedArguments` | src/types.ts:7-37 | succeeds exactly when there is at most one positional string and none is blank; each failure is a ValiError with one of the two rule messages, the message being the one rule that is broken when only one is; on success `_` is null for no string and otherwise the trimmed string, which is non-empty and trimmed; lower and replacement take the given value or the default, and replacement is never trimmed; help and version default to false |
| `Types.ValidationMessageNamesBrokenRule` | src/types.ts:11-16 | a failure's message names a rule that the input really breaks: "cannot be empty" only with a blank string, "only one string" only with two or more strings |
| `Types.BlankStringRejected` | src/types.ts:12 | a single empty or white-space-only string fails with "the string to transform cannot be empty" |
| `Types.NoPositionalIsNull` | src/types.ts:15 | an empty positional list is accepted and becomes null |
| `Types.SinglePositionalTrimmed` | src/types.ts:12-15 | a single string that is not blank is accepted, and `_` is that string trimmed |
| `Types.SchemaDefaultsShadowed` | src/types.ts:21-26 | when lower and replacement are given, the schema's own defaults have no effect on the outcome |
| `Slugi.ArgvTail` | src/slugi.ts:88 | the arguments handed to the parser are argv without its first two entries, and none when argv has two or fewer |
| `Slugi.Slugi.HelpMessage` | src/slugi.ts:28-41 | the help text shows both defaults of the instance: `ReadDefaults` recovers exactly the default replacement and lower-casing from it |
| `Slugi.Slugi.GenerateHelpMessage` | src/slugi.ts:60-64 | the framed text begins with the full help text and ends with the message |
| `Slugi.Slugi.ParseArguments` | src/slugi.ts:72-101 | a parser throw propagates unchanged; once the parser has returned, any throw is a ValiError; once the parser has returned, parsing succeeds exactly when the positionals are valid, and then `_` is null or the trimmed string, lower and replacement are the parsed values or else the instance's defaults (not the schema's), and help and version default to false |
| `Slugi.HelpMessageShowsDefaults` | src/slugi.ts:37-38 | for any defaults, the replacement (in double quotes) and the lower-casing (as true/false) can be read back from the help text template |
| `Slugi.HelpMessageDeterminesDefaults` | src/slugi.ts:37-38 | two instances with the same help text have the same defaults |
| `Slugi.FramedMessageRoundTrip` | src/slugi.ts:60-64 | the message placed after the help text and the ERROR badge can be read back unchanged |
| `Slugi.Resolve` | src/slugi.ts:73-86 | reading the option table, a flag resolves only to a non-alias entry of the table; a non-alias flag stands for itself, and an alias resolves exactly when it names a non-alias entry, and then to that target and its handler |
| `Slugi.ShortFlagsAreAliases` | src/slugi.ts:73-86 | -v, -h, -l and -r resolve to --version, --help, --lowercase and --replacement with those flags' handlers |
| `Slugi.OnlyReplacementTakesValue` | src/slugi.ts:75-85 | every flag of the table resolves; exactly --replacement and -r take a string value, and every other one is boolean |
| `Slugi.ParseArgumentsIgnoresLauncher` | src/slugi.ts:87-89 | the first two argv entries have no influence on the parsed arguments |
| `Slugi.Slugi.ErrorFromThrown` | src/slugi.ts:133-146 | an arg error or a validation error becomes an error whose message reads back, below the help text and badge, as the thrown message; another Error keeps its message; anything else becomes "Something went wrong!" |
| `Slugi.Slugi.GetSlugFromArguments` | src/slugi.ts:109-147 | the whole cascade: a success is the help text, the version, or the slug function's output for the parsed string; a parsing throw is reported through the catch mapping; once parsing succeeds, help wins, then version; on the transform path the slug function's output is returned unchanged and its throw goes through the catch mapping; with no string, help or version the result is the failure framed with "please provide the string to transform", and any other failure off the transform path is that one |
| `Slugi.ParserErrorFramed` | src/slugi.ts:133-136 | an arg error yields a failure whose message is the help text with the parser's message marked below it, and that message can be read back |
| `Slugi.ValidationErrorFramed` | src/slugi.ts:137-138 | positional strings that break the schema yield a failure framed by the help text, with "cannot be empty" when there is at most one string and "only one string is allowed" when none is blank, even when help or version is also requested |
| `Slugi.HelpTakesPrecedence` | src/slugi.ts:112-116 | with valid positionals and help requested, the result is the help text, whatever the version flag, the other options, the string or the slug function |
| `Slugi.VersionBeforeInput` | src/slugi.ts:117-121 | without help and with version requested, the result is the version, even beside a string and other options |
| `Slugi.MissingStringReported` | src/slugi.ts:122-123 | without a string, help or version, the result is a failure framed by the help text whose message reads back as "please provide the string to transform", passed through unchanged by the Error branch |
| `Slugi.ParsedForTransform` | src/slugi.ts:92-98 | one non-blank string without help or version parses to that string trimmed, with the command-line options or the instance defaults |
| `Slugi.SlugOutputReturned` | src/slugi.ts:125-132 | otherwise the slug function is applied to the trimmed string and the resolved {replacement, lower}, and what it returns is the output unchanged |
| `Slugi.SlugErrorReported` | src/slugi.ts:133-146 | an Error thrown by the slug function is reported with its own message, and a non-Error throw as "Something went wrong!" |
| `Slugi.SlugMethodOnlyForTransform` | src/slugi.ts:109-132 | when the parsed options do not ask for a slug, the slug function has no influence on the result |
| `Slugi.ParsedTextNeverEmpty` | src/slugi.ts:122 | a parsed `_` is null or a non-empty trimmed string, so the falsiness test on `_` means "no string" |
| `Slugi.TwoStringsScenario` | test/cli.test.ts:84-87 | `abc1 abc2` fails with "only one string is allowed", framed by the help text, whichever rule the validator reports first |
| `Slugi.DefaultsReachSlugScenario` | test/slugi.test.ts:231-243 | with no options, the slug function receives "HELLO world" and the instance's defaults |
| `Slugi.HelpBesideEverythingScenario` | test/slugi.test.ts:295-298 | `--lowercase "hello world" -r 0 -h -v` answers with the help text |

## Left out

- The `arg` library's tokenisation is not modelled: unknown-option and missing-value errors,
  chained short flags, `--replacement=0`, and the last occurrence winning. It is foreign code that
  is not shown, so it is the parameter `Environment.arg`. `Resolve` models only how the option
  table maps aliases, following one alias step. Nothing ties `Environment.arg` to the table, so
  `ShortFlagsAreAliases` and `OnlyReplacementTakesValue` are facts about the table, not about what
  the parser returns for `-h`.
- The validation library's internals are not modelled. When a blank string and a second string
  are both present, the reported message is the `IssuePriority` parameter rather than a fixed rule.
- `ValidationErrorFramed`: when both positional rules fail, it says only that the message is one
  of the two rule messages. Which one is the validation library's decision.
- Type checks that the schema would make on a JavaScript object (booleans, strings, an array) are
  guaranteed by the Dafny types and are not modelled as failures.
- The `slugify` transformation is not modelled. It is the `slugMethod` function, whatever it does.
- "Called exactly once" is stated as "the result is the slug function's outcome on that one input,
  and on every other path the slug function has no influence". A pure model has no call counter.
- picocolors styling is not modelled: `bgRed` and `red` are taken as the identity, which is how
  picocolors behaves when colours are off. With colours on, ANSI codes surround the badge and the
  message, and `red` rewrites colour-close codes inside it. So the read-back facts about the framed
  message (`GenerateHelpMessage` ending with the message, `FramedMessageRoundTrip`,
  `ErrorFromThrown`, `ParserErrorFramed`, `MissingStringReported`) hold for colour-free output only.
- An `Error` is reduced to its message. The `catch` block passes a thrown `Error` on as the same
  object, with its class, name and stack, but only `message` is read by the command-line entry
  point, so the model keeps only that.
- `IsWhitespace` lists the Unicode space separators as of Unicode 15. Strings are sequences of
  Unicode scalar values, not UTF-16 code units.
- The version string comes from package.json, which is not part of this model. It is the
  parameter `Environment.version`.
- src/constants.ts is not part of this model. `DefaultOptions` is an assumed value
  (replacement "-", no lower-casing), and `SchemaDefaultsShadowed` shows that the value does not
  matter on the command-line path.
- src/cli.ts is not modelled: process arguments, printing, the exit code and the async `main` are I/O.
- The `SuccessResultSchema` and `ErrorResultSchema` runtime checks are not modelled separately.
  The `Result` datatype enforces their shape by construction.
