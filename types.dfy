/** The values that flow between the argument parser, the schema and the dispatcher,
    and the schema `ParsedArgumentsSchema` that validates and normalises parsed arguments. */
module Types {
  import opened Strings

  /** A JavaScript value that may be `undefined`. */
  datatype Option<T> = None | Some(value: T) {
    /** The `??` operator: the value, or `default` when it is undefined. */
    function GetOr(default: T): T {
      match this
      case Some(v) => v
      case None => default
    }
  }

  /** The options handed to the slug function (`TransformOptions`). */
  datatype TransformOptions = TransformOptions(replacement: string, lower: bool)

  /** The object given to the schema: the positional strings and each option as found,
      `None` where it is undefined. */
  datatype RawArguments = RawArguments(
    positionals: seq<string>,
    lower: Option<bool>,
    replacement: Option<string>,
    help: Option<bool>,
    version: Option<bool>)

  /** What the schema produces (`ParsedArguments`); `text` is the `_` field, `None` for `null`. */
  datatype ParsedArguments = ParsedArguments(
    text: Option<string>,
    lower: bool,
    replacement: string,
    help: bool,
    version: bool)

  /** Everything a `throw` can raise inside the dispatcher's `try` block: an `arg.ArgError`,
      a `v.ValiError`, any other `Error`, or a value that is not an `Error` at all. */
  datatype Thrown =
    | ArgError(message: string)
    | ValiError(message: string)
    | PlainError(message: string)
    | NonError

  /** A call that either returns a value or throws. */
  datatype Outcome<T> = Returned(value: T) | Threw(thrown: Thrown)

  /** An `Error` object, of which only the message is observed. */
  datatype Error = Error(message: string)

  /** `Result`: a `SuccessResult` carrying the output or an `ErrorResult` carrying the error,
      with no further fields. */
  datatype Result = Success(output: string) | Failure(error: Error)

  const EmptyStringMessage := "the string to transform cannot be empty"
  const TooManyStringsMessage := "only one string is allowed"

  /** Which message the validation library reports when a blank positional string and
      a second positional string are both present; that choice belongs to the library. */
  datatype IssuePriority = EmptyStringFirst | TooManyStringsFirst

  /** The defaults built into the schema (`DEFAULT_OPTIONS`), whose file is not part of this
      model: an assumed value, replacement "-" and no lower-casing. */
  const DefaultOptions := TransformOptions("-", false)

  /** Some positional string is empty once trimmed. */
  predicate HasBlankString(positionals: seq<string>) {
    exists i :: 0 <= i < |positionals| && Trim(positionals[i]) == []
  }

  /** The positional rules of the schema: at most one string, and none empty once trimmed. */
  predicate ValidPositionals(positionals: seq<string>) {
    |positionals| <= 1 && forall i :: 0 <= i < |positionals| ==> Trim(positionals[i]) != []
  }

  /** The positional part of the schema: the message of the rule it reports, or `None`
      when every positional string passes. Each string is trimmed and must not then be
      empty; the list may hold at most one string. */
  function PositionalIssue(priority: IssuePriority, positionals: seq<string>): (r: Option<string>)
    ensures r.None? <==> ValidPositionals(positionals)
    ensures r.Some? && |positionals| <= 1 ==> r.value == EmptyStringMessage
    ensures r.Some? && !HasBlankString(positionals) ==> r.value == TooManyStringsMessage
    ensures r.Some? ==> r.value == EmptyStringMessage || r.value == TooManyStringsMessage
  {
    var blank := HasBlankString(positionals);
    var tooMany := |positionals| > 1;
    if blank && (!tooMany || priority == EmptyStringFirst) then Some(EmptyStringMessage)
    else if tooMany then Some(TooManyStringsMessage)
    else None
  }

  /** `v.parse(ParsedArgumentsSchema, input)`, with the schema's own defaults given as `defaults`.
      The positional list must pass the rules above and becomes `null` or its single string,
      trimmed. Absent options take their defaults; the replacement is kept verbatim. A
      violated rule throws a `ValiError` with the rule's message. */
  function ParseParsedArguments(defaults: TransformOptions, priority: IssuePriority, input: RawArguments)
    : (r: Outcome<ParsedArguments>)
    ensures r.Returned? <==> ValidPositionals(input.positionals)
    ensures r.Threw? ==> r.thrown.ValiError?
    ensures r.Threw? && |input.positionals| <= 1 ==> r.thrown.message == EmptyStringMessage
    ensures r.Threw? && !HasBlankString(input.positionals) ==> r.thrown.message == TooManyStringsMessage
    ensures r.Threw? ==> r.thrown.message == EmptyStringMessage || r.thrown.message == TooManyStringsMessage
    ensures r.Returned? ==>
              r.value.text == (if input.positionals == [] then None else Some(Trim(input.positionals[0])))
    ensures r.Returned? && r.value.text.Some? ==>
              r.value.text.value != [] && IsTrimmed(r.value.text.value)
    ensures r.Returned? ==>
              && r.value.lower == input.lower.GetOr(defaults.lower)
              && r.value.replacement == input.replacement.GetOr(defaults.replacement)
              && r.value.help == input.help.GetOr(false)
              && r.value.version == input.version.GetOr(false)
  {
    match PositionalIssue(priority, input.positionals)
    case Some(message) => Threw(ValiError(message))
    case None =>
      Returned(ParsedArguments(
        if |input.positionals| > 0 then Some(Trim(input.positionals[0])) else None,
        input.lower.GetOr(defaults.lower),
        input.replacement.GetOr(defaults.replacement),
        input.help.GetOr(false),
        input.version.GetOr(false)))
  }

  /** When the schema fails, both rules were checked: the message names a rule that the
      input really breaks, and when the input breaks only one rule it is that rule's message. */
  lemma ValidationMessageNamesBrokenRule(defaults: TransformOptions, priority: IssuePriority, input: RawArguments)
    requires ParseParsedArguments(defaults, priority, input).Threw?
    ensures var m := ParseParsedArguments(defaults, priority, input).thrown.message;
            (m == EmptyStringMessage ==> HasBlankString(input.positionals))
            && (m == TooManyStringsMessage ==> |input.positionals| > 1)
  {
  }

  /** Empty and whitespace-only positional strings are both rejected, whatever else is given. */
  lemma BlankStringRejected(defaults: TransformOptions, priority: IssuePriority, input: RawArguments, s: string)
    requires input.positionals == [s]
    requires AllWhitespace(s)
    ensures ParseParsedArguments(defaults, priority, input) == Threw(ValiError(EmptyStringMessage))
  {
    TrimEmptyIffBlank(s);
  }

  /** An empty positional list is not an error: it becomes `null`. */
  lemma NoPositionalIsNull(defaults: TransformOptions, priority: IssuePriority, input: RawArguments)
    requires input.positionals == []
    ensures ParseParsedArguments(defaults, priority, input).Returned?
    ensures ParseParsedArguments(defaults, priority, input).value.text == None
  {
  }

  /** A single positional string that is not all white space is accepted, and `_` is it, trimmed. */
  lemma SinglePositionalTrimmed(defaults: TransformOptions, priority: IssuePriority, input: RawArguments, s: string)
    requires input.positionals == [s]
    requires !AllWhitespace(s)
    ensures ParseParsedArguments(defaults, priority, input).Returned?
    ensures ParseParsedArguments(defaults, priority, input).value.text == Some(Trim(s))
  {
    TrimEmptyIffBlank(s);
  }

  /** The schema's own defaults only matter for options that are absent: with `lower`
      and `replacement` both given, the outcome is the same whatever defaults the schema has. */
  lemma SchemaDefaultsShadowed(d1: TransformOptions, d2: TransformOptions, priority: IssuePriority, input: RawArguments)
    requires input.lower.Some? && input.replacement.Some?
    ensures ParseParsedArguments(d1, priority, input) == ParseParsedArguments(d2, priority, input)
  {
  }
}
