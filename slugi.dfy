/** The `Slugi` command: its help text, the argument parsing that feeds the schema, and
    `getSlugFromArguments`, which turns a command line into a `Result`. */
module Slugi {
  import opened Strings
  import opened Types

  /** What the option table given to `arg` says about a flag: a boolean, a string-valued
      option, or an alias naming another entry. */
  datatype Handler = BooleanFlag | StringFlag | AliasOf(target: string)

  type ArgSpec = map<string, Handler>

  /** The option table of `parseArguments`. */
  const SlugiArgSpec: ArgSpec := map[
    "--version" := BooleanFlag,
    "-v" := AliasOf("--version"),
    "--help" := BooleanFlag,
    "-h" := AliasOf("--help"),
    "--lowercase" := BooleanFlag,
    "-l" := AliasOf("--lowercase"),
    "--replacement" := StringFlag,
    "-r" := AliasOf("--replacement")]

  /** The option a flag stands for and its handler, following an alias one step; `None`
      for a flag the table does not know. */
  function Resolve(spec: ArgSpec, flag: string): (r: Option<(string, Handler)>)
    ensures r.Some? ==> flag in spec && r.value.0 in spec && spec[r.value.0] == r.value.1 && !r.value.1.AliasOf?
    ensures flag in spec && !spec[flag].AliasOf? ==> r == Some((flag, spec[flag]))
    ensures flag in spec && spec[flag].AliasOf? ==> (r.Some? <==> spec[flag].target in spec && !spec[spec[flag].target].AliasOf?)
    ensures flag in spec && spec[flag].AliasOf? && r.Some? ==> r.value == (spec[flag].target, spec[spec[flag].target])
  {
    if flag !in spec then None
    else match spec[flag]
      case AliasOf(target) =>
        if target in spec && !spec[target].AliasOf? then Some((target, spec[target])) else None
      case h => Some((flag, h))
  }

  /** What `arg` returns for the table above: the positional strings in order and the value
      found for each option, `None` when the option does not occur. */
  datatype ArgRecord = ArgRecord(
    positionals: seq<string>,
    lowercase: Option<bool>,
    replacement: Option<string>,
    help: Option<bool>,
    version: Option<bool>)

  /** The `arg` library: an option table and the arguments to scan, to a record or a throw. */
  type ArgParser = (ArgSpec, seq<string>) -> Outcome<ArgRecord>

  /** The slug function (`SlugMethod`), which may throw. */
  type SlugMethod = (string, TransformOptions) -> Outcome<string>

  /** What `slugi.ts` takes from its imports: the `arg` parser, the validation library's
      choice between two failed rules, and the package version. */
  datatype Environment = Environment(arg: ArgParser, priority: IssuePriority, version: string)

  const MissingStringMessage := "please provide the string to transform"
  const GenericErrorMessage := "Something went wrong!"

  /** The badge in front of an error message (`pc.bgRed(' ERROR ')`, colours left out). */
  const ErrorBadge := " ERROR "

  /** What separates the help text from the message: a blank line, the badge and a space. */
  const FrameGap := "\n\n" + ErrorBadge + " "

  // The help text around the two defaults it shows.
  const HelpHead := "Usage: slugi <string> [options]\n\nTransform a string into a slug\n\nPositionals:\n    string              The string to transform  [string]  [required]\n\nOptions:\n    -r, --replacement   Replacement for spaces   [string]  [default: \""
  const HelpMiddle := "\"]" + "\n    -l, --lowercase     Output in lowercase      [boolean] [default: "
  const HelpTail := "]\n    -h, --help          Show help                [boolean]\n    -v, --version       Show version number      [boolean]"

  /** JavaScript's rendering of a boolean inside a template string. */
  function BoolText(b: bool): string {
    if b then "true" else "false"
  }

  /** The help text from the quote closing the default replacement to its end. */
  function HelpAfterReplacement(lower: bool): string {
    HelpMiddle + BoolText(lower) + HelpTail
  }

  /** `argv.slice(2)`: the arguments after the runtime and the script path. */
  function ArgvTail(argv: seq<string>): (r: seq<string>)
    ensures |argv| >= 2 ==> argv == argv[..2] + r
    ensures |argv| <= 2 ==> r == []
  {
    if |argv| <= 2 then [] else argv[2..]
  }

  /** A `Slugi` instance; neither field changes after construction. */
  datatype Slugi = Slugi(defaultOptions: TransformOptions, slugMethod: SlugMethod) {

    /** The help text, showing the default replacement in double quotes and the default
        lower-casing as `true` or `false`. */
    function HelpMessage(): (r: string)
      ensures ReadDefaults(r) == Some(defaultOptions)
    {
      HelpMessageShowsDefaults(defaultOptions);
      HelpHead + defaultOptions.replacement + HelpAfterReplacement(defaultOptions.lower)
    }

    /** The help text followed by a blank line and the marked message. */
    function GenerateHelpMessage(message: string): (r: string)
      ensures |r| >= |HelpMessage()| + |message|
      ensures r[..|HelpMessage()|] == HelpMessage()
      ensures r[|r| - |message|..] == message
    {
      var h := HelpMessage();
      assert h + FrameGap + message == h + (FrameGap + message);
      h + FrameGap + message
    }

    /** `parseArguments`: the parser scans `argv` without its first two entries; absent
        `lower` and `replacement` take this instance's defaults before the schema sees them. */
    function ParseArguments(env: Environment, argv: seq<string>): (r: Outcome<ParsedArguments>)
      ensures env.arg(SlugiArgSpec, ArgvTail(argv)).Threw? ==> r == Threw(env.arg(SlugiArgSpec, ArgvTail(argv)).thrown)
      ensures r.Threw? && env.arg(SlugiArgSpec, ArgvTail(argv)).Returned? ==> r.thrown.ValiError?
      ensures r.Returned? ==>
                var a := env.arg(SlugiArgSpec, ArgvTail(argv)).value;
                && r.value.lower == a.lowercase.GetOr(defaultOptions.lower)
                && r.value.replacement == a.replacement.GetOr(defaultOptions.replacement)
      ensures env.arg(SlugiArgSpec, ArgvTail(argv)).Returned? ==>
                var a := env.arg(SlugiArgSpec, ArgvTail(argv)).value;
                && (r.Returned? <==> ValidPositionals(a.positionals))
                && (r.Returned? ==>
                      && r.value.text == (if a.positionals == [] then None else Some(Trim(a.positionals[0])))
                      && r.value.help == a.help.GetOr(false)
                      && r.value.version == a.version.GetOr(false))
    {
      match env.arg(SlugiArgSpec, ArgvTail(argv))
      case Threw(t) => Threw(t)
      case Returned(args) =>
        ParseParsedArguments(DefaultOptions, env.priority, RawArguments(
          args.positionals,
          Some(args.lowercase.GetOr(defaultOptions.lower)),
          Some(args.replacement.GetOr(defaultOptions.replacement)),
          args.help,
          args.version))
    }

    /** The `catch` block: parser and schema errors are framed by the help text, any other
        `Error` passes through, anything else becomes a generic error. */
    function ErrorFromThrown(thrown: Thrown): (r: Error)
      ensures thrown.ArgError? || thrown.ValiError? ==>
                FramedMessage(this, r.message) == Some(thrown.message)
      ensures thrown.PlainError? ==> r.message == thrown.message
      ensures thrown.NonError? ==> r.message == GenericErrorMessage
    {
      match thrown
      case ArgError(m) => FramedMessageRoundTrip(this, m); Error(GenerateHelpMessage(m))
      case ValiError(m) => FramedMessageRoundTrip(this, m); Error(GenerateHelpMessage(m))
      case PlainError(m) => Error(m)
      case NonError => Error(GenericErrorMessage)
    }

    /** `getSlugFromArguments`: a success is the help text, the version or the slug function's
        output for the parsed string; once parsing succeeds, help wins, and a failure that was
        not the slug function's is the framed request for a string. */
    function GetSlugFromArguments(env: Environment, argv: seq<string>): (r: Result)
      ensures var p := ParseArguments(env, argv);
              r.Success? ==>
                || r.output == HelpMessage()
                || r.output == env.version
                || (RequestsSlug(p) && slugMethod(p.value.text.value, TransformOptions(p.value.replacement, p.value.lower)) == Returned(r.output))
      ensures var p := ParseArguments(env, argv);
              p.Threw? ==> r == Failure(ErrorFromThrown(p.thrown))
      ensures var p := ParseArguments(env, argv);
              p.Returned? && p.value.help ==> r == Success(HelpMessage())
      ensures var p := ParseArguments(env, argv);
              p.Returned? && !p.value.help && p.value.version ==> r == Success(env.version)
      ensures var p := ParseArguments(env, argv);
              RequestsSlug(p) ==>
                r == match slugMethod(p.value.text.value, TransformOptions(p.value.replacement, p.value.lower))
                     case Returned(output) => Success(output)
                     case Threw(t) => Failure(ErrorFromThrown(t))
      ensures var p := ParseArguments(env, argv);
              p.Returned? && !p.value.help && !p.value.version && p.value.text.None? ==>
                r == Failure(Error(GenerateHelpMessage(MissingStringMessage)))
      ensures var p := ParseArguments(env, argv);
              p.Returned? && !RequestsSlug(p) && r.Failure? ==> FramedMessage(this, r.error.message) == Some(MissingStringMessage)
    {
      FramedMessageRoundTrip(this, MissingStringMessage);
      match ParseArguments(env, argv)
      case Threw(t) => Failure(ErrorFromThrown(t))
      case Returned(options) =>
        if options.help then
          Success(HelpMessage())
        else if options.version then
          Success(env.version)
        else if options.text.None? || options.text.value == [] then
          Failure(ErrorFromThrown(PlainError(GenerateHelpMessage(MissingStringMessage))))
        else
          match slugMethod(options.text.value, TransformOptions(options.replacement, options.lower))
          case Returned(slug) => Success(slug)
          case Threw(t) => Failure(ErrorFromThrown(t))
    }
  }

  /** The part of `text` between `head` and `tail`, when it starts and ends with them. */
  function Between(text: string, head: string, tail: string): Option<string> {
    if |text| >= |head| + |tail| && text[..|head|] == head && text[|text| - |tail|..] == tail
    then Some(text[|head|..|text| - |tail|])
    else None
  }

  /** Reads the two defaults back out of a help text; `None` when the text does not have
      the help text's shape. */
  function ReadDefaults(help: string): Option<TransformOptions> {
    match Between(help, HelpHead, HelpAfterReplacement(true))
    case Some(replacement) => Some(TransformOptions(replacement, true))
    case None =>
      match Between(help, HelpHead, HelpAfterReplacement(false))
      case Some(replacement) => Some(TransformOptions(replacement, false))
      case None => None
  }

  /** Reads the message back out of a text built by `GenerateHelpMessage`. */
  function FramedMessage(s: Slugi, text: string): Option<string> {
    var prefix := s.HelpMessage() + FrameGap;
    if |text| >= |prefix| && text[..|prefix|] == prefix then Some(text[|prefix|..]) else None
  }

  /** What lies between a head and a tail is read back unchanged. */
  lemma BetweenOfConcat(head: string, middle: string, tail: string)
    ensures Between(head + middle + tail, head, tail) == Some(middle)
  {
    var t := head + middle + tail;
    assert t[..|head|] == head;
    assert t[|t| - |tail|..] == tail;
    assert t[|head|..|t| - |tail|] == middle;
  }

  /** A text ending in `m + "false" + t` does not end in `m + "true" + t` when `m` starts with two different characters. */
  lemma BetweenMissesOtherBool(head: string, middle: string, m: string, t: string)
    requires |m| >= 2 && m[0] != m[1]
    ensures Between(head + middle + (m + "false" + t), head, m + "true" + t) == None
  {
    var text := head + middle + (m + "false" + t);
    var tailTrue := m + "true" + t;
    var tailFalse := m + "false" + t;
    if |text| >= |tailTrue| {
      assert text[|text| - |tailTrue|..] == tailFalse[1..];
      assert tailFalse[1..][0] == m[1];
      assert tailTrue[0] == m[0];
    }
  }

  /** The help text template shows both defaults, so that they can be read back from it. */
  lemma HelpMessageShowsDefaults(d: TransformOptions)
    ensures ReadDefaults(HelpHead + d.replacement + HelpAfterReplacement(d.lower)) == Some(d)
  {
    BetweenOfConcat(HelpHead, d.replacement, HelpAfterReplacement(d.lower));
    if !d.lower {
      assert HelpMiddle[0] != HelpMiddle[1];
      BetweenMissesOtherBool(HelpHead, d.replacement, HelpMiddle, HelpTail);
    }
  }

  /** Instances with different defaults print different help texts. */
  lemma HelpMessageDeterminesDefaults(s1: Slugi, s2: Slugi)
    requires s1.HelpMessage() == s2.HelpMessage()
    ensures s1.defaultOptions == s2.defaultOptions
  {
  }

  /** The message framed by `GenerateHelpMessage` can be read back unchanged. */
  lemma FramedMessageRoundTrip(s: Slugi, message: string)
    ensures FramedMessage(s, s.GenerateHelpMessage(message)) == Some(message)
  {
    var prefix := s.HelpMessage() + FrameGap;
    var text := s.GenerateHelpMessage(message);
    assert text == prefix + message;
    assert text[..|prefix|] == prefix;
    assert text[|prefix|..] == message;
  }

  /** Each short flag stands for its long form, with that form's handler. This is a fact about
      the option table as `Resolve` reads it; what the `arg` parser returns for a short flag
      is up to `Environment.arg`, which nothing here ties to the table. */
  lemma ShortFlagsAreAliases()
    ensures Resolve(SlugiArgSpec, "-v") == Resolve(SlugiArgSpec, "--version") == Some(("--version", BooleanFlag))
    ensures Resolve(SlugiArgSpec, "-h") == Resolve(SlugiArgSpec, "--help") == Some(("--help", BooleanFlag))
    ensures Resolve(SlugiArgSpec, "-l") == Resolve(SlugiArgSpec, "--lowercase") == Some(("--lowercase", BooleanFlag))
    ensures Resolve(SlugiArgSpec, "-r") == Resolve(SlugiArgSpec, "--replacement") == Some(("--replacement", StringFlag))
  {
  }

  /** Every flag of the table resolves; `--replacement` and `-r` are the only ones that take a
      value, and every other one is a boolean. Like the lemma above, this speaks about the
      table, not about what `Environment.arg` makes of it. */
  lemma OnlyReplacementTakesValue(flag: string)
    requires flag in SlugiArgSpec
    ensures Resolve(SlugiArgSpec, flag).Some?
    ensures Resolve(SlugiArgSpec, flag).value.1 == StringFlag <==> flag == "--replacement" || flag == "-r"
    ensures Resolve(SlugiArgSpec, flag).value.1 != StringFlag ==> Resolve(SlugiArgSpec, flag).value.1 == BooleanFlag
  {
  }

  /** The runtime and script entries of `argv` never reach the parser. */
  lemma ParseArgumentsIgnoresLauncher(s: Slugi, env: Environment, x: string, y: string, x': string, y': string, rest: seq<string>)
    ensures s.ParseArguments(env, [x, y] + rest) == s.ParseArguments(env, [x', y'] + rest)
  {
    assert ArgvTail([x, y] + rest) == rest;
    assert ArgvTail([x', y'] + rest) == rest;
  }

  /** An `arg` error becomes a failure whose message is the help text with the parser's message marked below it. */
  lemma ParserErrorFramed(s: Slugi, env: Environment, argv: seq<string>, message: string)
    requires env.arg(SlugiArgSpec, ArgvTail(argv)) == Threw(ArgError(message))
    ensures s.GetSlugFromArguments(env, argv) == Failure(Error(s.GenerateHelpMessage(message)))
    ensures FramedMessage(s, s.GetSlugFromArguments(env, argv).error.message) == Some(message)
  {
    FramedMessageRoundTrip(s, message);
  }

  /** Positional strings that break the schema's rules make the command fail with the framed
      rule message, even when help or version is requested. */
  lemma ValidationErrorFramed(s: Slugi, env: Environment, argv: seq<string>, a: ArgRecord)
    requires env.arg(SlugiArgSpec, ArgvTail(argv)) == Returned(a)
    requires !ValidPositionals(a.positionals)
    ensures var r := s.GetSlugFromArguments(env, argv);
            r == Failure(Error(s.GenerateHelpMessage(EmptyStringMessage)))
            || r == Failure(Error(s.GenerateHelpMessage(TooManyStringsMessage)))
    ensures |a.positionals| <= 1 ==>
              s.GetSlugFromArguments(env, argv) == Failure(Error(s.GenerateHelpMessage(EmptyStringMessage)))
    ensures !HasBlankString(a.positionals) ==>
              s.GetSlugFromArguments(env, argv) == Failure(Error(s.GenerateHelpMessage(TooManyStringsMessage)))
  {
  }

  /** A help request answers with the help text, whatever else is on the command line. */
  lemma HelpTakesPrecedence(s: Slugi, env: Environment, argv: seq<string>, a: ArgRecord)
    requires env.arg(SlugiArgSpec, ArgvTail(argv)) == Returned(a)
    requires ValidPositionals(a.positionals)
    requires a.help == Some(true)
    ensures s.GetSlugFromArguments(env, argv) == Success(s.HelpMessage())
  {
  }

  /** Without help, a version request answers with the version, even beside a string and other options. */
  lemma VersionBeforeInput(s: Slugi, env: Environment, argv: seq<string>, a: ArgRecord)
    requires env.arg(SlugiArgSpec, ArgvTail(argv)) == Returned(a)
    requires ValidPositionals(a.positionals)
    requires a.help != Some(true) && a.version == Some(true)
    ensures s.GetSlugFromArguments(env, argv) == Success(env.version)
  {
  }

  /** With no string and neither help nor version, the command fails with the framed request for a string. */
  lemma MissingStringReported(s: Slugi, env: Environment, argv: seq<string>, a: ArgRecord)
    requires env.arg(SlugiArgSpec, ArgvTail(argv)) == Returned(a)
    requires a.positionals == []
    requires a.help != Some(true) && a.version != Some(true)
    ensures s.GetSlugFromArguments(env, argv) == Failure(Error(s.GenerateHelpMessage(MissingStringMessage)))
    ensures FramedMessage(s, s.GetSlugFromArguments(env, argv).error.message) == Some(MissingStringMessage)
  {
    FramedMessageRoundTrip(s, MissingStringMessage);
  }

  /** The options the slug function receives: those from the command line, and the
      instance's defaults for the ones left out. */
  function ResolvedOptions(s: Slugi, a: ArgRecord): TransformOptions {
    TransformOptions(a.replacement.GetOr(s.defaultOptions.replacement), a.lowercase.GetOr(s.defaultOptions.lower))
  }

  /** A single non-blank string without help or version parses to that string, trimmed,
      with the resolved options. */
  lemma ParsedForTransform(s: Slugi, env: Environment, argv: seq<string>, a: ArgRecord, text: string)
    requires env.arg(SlugiArgSpec, ArgvTail(argv)) == Returned(a)
    requires a.positionals == [text] && !AllWhitespace(text)
    requires a.help != Some(true) && a.version != Some(true)
    ensures var o := ResolvedOptions(s, a);
            s.ParseArguments(env, argv) == Returned(ParsedArguments(Some(Trim(text)), o.lower, o.replacement, false, false))
  {
    TrimEmptyIffBlank(text);
    assert ValidPositionals(a.positionals);
    var raw := RawArguments(a.positionals, Some(a.lowercase.GetOr(s.defaultOptions.lower)),
                            Some(a.replacement.GetOr(s.defaultOptions.replacement)), a.help, a.version);
    var o := ParseParsedArguments(DefaultOptions, env.priority, raw);
    assert s.ParseArguments(env, argv) == o;
    assert o.Returned?;
    assert o.value.text == Some(Trim(text));
    assert !o.value.help && !o.value.version;
  }

  /** Otherwise the slug function is applied once, to the trimmed string and the resolved
      options, and what it returns is the output, unchanged. */
  lemma SlugOutputReturned(s: Slugi, env: Environment, argv: seq<string>, a: ArgRecord, text: string, output: string)
    requires env.arg(SlugiArgSpec, ArgvTail(argv)) == Returned(a)
    requires a.positionals == [text] && !AllWhitespace(text)
    requires a.help != Some(true) && a.version != Some(true)
    requires s.slugMethod(Trim(text), ResolvedOptions(s, a)) == Returned(output)
    ensures s.GetSlugFromArguments(env, argv) == Success(output)
  {
    ParsedForTransform(s, env, argv, a, text);
  }

  /** What the slug function throws is reported the way the `catch` block reports any throw:
      an `Error` with its own message, anything else with the generic message. */
  lemma SlugErrorReported(s: Slugi, env: Environment, argv: seq<string>, a: ArgRecord, text: string, thrown: Thrown)
    requires env.arg(SlugiArgSpec, ArgvTail(argv)) == Returned(a)
    requires a.positionals == [text] && !AllWhitespace(text)
    requires a.help != Some(true) && a.version != Some(true)
    requires s.slugMethod(Trim(text), ResolvedOptions(s, a)) == Threw(thrown)
    ensures thrown.PlainError? ==> s.GetSlugFromArguments(env, argv) == Failure(Error(thrown.message))
    ensures thrown.NonError? ==> s.GetSlugFromArguments(env, argv) == Failure(Error(GenericErrorMessage))
    ensures thrown.ArgError? || thrown.ValiError? ==>
              s.GetSlugFromArguments(env, argv) == Failure(Error(s.GenerateHelpMessage(thrown.message)))
  {
    ParsedForTransform(s, env, argv, a, text);
    assert s.GetSlugFromArguments(env, argv) == Failure(s.ErrorFromThrown(thrown));
    match thrown
    case ArgError(m) => assert s.ErrorFromThrown(thrown) == Error(s.GenerateHelpMessage(m));
    case ValiError(m) => assert s.ErrorFromThrown(thrown) == Error(s.GenerateHelpMessage(m));
    case PlainError(m) => assert s.ErrorFromThrown(thrown) == Error(m);
    case NonError => assert s.ErrorFromThrown(thrown) == Error(GenericErrorMessage);
  }

  /** The parsed options ask for a slug: no help, no version, and a string. */
  predicate RequestsSlug(options: Outcome<ParsedArguments>) {
    options.Returned? && !options.value.help && !options.value.version && options.value.text.Some?
  }

  /** Off the transformation path the slug function is never consulted: two instances
      with the same defaults answer alike. */
  lemma SlugMethodOnlyForTransform(s1: Slugi, s2: Slugi, env: Environment, argv: seq<string>)
    requires s1.defaultOptions == s2.defaultOptions
    requires !RequestsSlug(s1.ParseArguments(env, argv))
    ensures s1.GetSlugFromArguments(env, argv) == s2.GetSlugFromArguments(env, argv)
  {
  }

  /** `_` is never the empty string after parsing, so `!options._` holds exactly when no string was given. */
  lemma ParsedTextNeverEmpty(s: Slugi, env: Environment, argv: seq<string>)
    requires s.ParseArguments(env, argv).Returned?
    ensures var o := s.ParseArguments(env, argv).value;
            o.text.None? || (o.text.value != [] && IsTrimmed(o.text.value))
  {
  }

  /** A string that starts with a character other than white space is not blank. */
  lemma NotBlank(t: string)
    requires t != [] && !IsWhitespace(t[0])
    ensures Trim(t) != []
  {
    TrimEmptyIffBlank(t);
  }

  /** Two strings on the command line: "only one string is allowed", framed by the help text. */
  lemma TwoStringsScenario(s: Slugi, env: Environment)
    requires env.arg(SlugiArgSpec, ["abc1", "abc2"]) == Returned(ArgRecord(["abc1", "abc2"], None, None, None, None))
    ensures s.GetSlugFromArguments(env, ["node", "index.js", "abc1", "abc2"])
            == Failure(Error(s.GenerateHelpMessage(TooManyStringsMessage)))
  {
    var argv := ["node", "index.js", "abc1", "abc2"];
    var a := ArgRecord(["abc1", "abc2"], None, None, None, None);
    assert ArgvTail(argv) == a.positionals;
    NotBlank("abc1");
    NotBlank("abc2");
    assert !HasBlankString(a.positionals);
    ValidationErrorFramed(s, env, argv, a);
  }

  /** With no options given, the slug function receives the string and the instance's defaults. */
  lemma DefaultsReachSlugScenario(s: Slugi, env: Environment, output: string)
    requires env.arg(SlugiArgSpec, ["HELLO world"]) == Returned(ArgRecord(["HELLO world"], None, None, None, None))
    requires s.slugMethod("HELLO world", s.defaultOptions) == Returned(output)
    ensures s.GetSlugFromArguments(env, ["node", "index.js", "HELLO world"]) == Success(output)
  {
    var argv := ["node", "index.js", "HELLO world"];
    var text := "HELLO world";
    var a := ArgRecord([text], None, None, None, None);
    assert ArgvTail(argv) == [text];
    Strings.TrimOfTrimmed(text);
    assert ResolvedOptions(s, a) == s.defaultOptions;
    SlugOutputReturned(s, env, argv, a, text, output);
  }

  /** Help wins over version, a string and every other option. */
  lemma HelpBesideEverythingScenario(s: Slugi, env: Environment)
    requires env.arg(SlugiArgSpec, ["--lowercase", "hello world", "-r", "0", "-h", "-v"])
             == Returned(ArgRecord(["hello world"], Some(true), Some("0"), Some(true), Some(true)))
    ensures s.GetSlugFromArguments(env, ["node", "index.js", "--lowercase", "hello world", "-r", "0", "-h", "-v"])
            == Success(s.HelpMessage())
  {
    var argv := ["node", "index.js", "--lowercase", "hello world", "-r", "0", "-h", "-v"];
    var a := ArgRecord(["hello world"], Some(true), Some("0"), Some(true), Some(true));
    assert ArgvTail(argv) == ["--lowercase", "hello world", "-r", "0", "-h", "-v"];
    NotBlank("hello world");
    assert ValidPositionals(a.positionals);
    HelpTakesPrecedence(s, env, argv, a);
  }
}
