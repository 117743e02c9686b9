/** The per-field configuration a form control accepts, mirroring the
    unions of the authoring surface: validation modes, `required`, bounds
    given bare or paired with a message, patterns and custom validators. */
module Config {
  import opened Outcomes
  import opened Values

  /** `ValidateMode`. */
  datatype Mode = OnChange | OnBlur | OnValidate | OnTouched | All

  /** `ReValidateMode`: the modes allowed after a field has validated once. */
  type ReValidateMode = m: Mode | m.OnChange? || m.OnBlur? || m.OnValidate? witness OnBlur

  /** `required: true | string`. */
  datatype Required = RequiredTrue | RequiredMessage(message: string)

  /** A bound given bare (`8`) or with its own message (`[8, "Too short"]`). */
  datatype Bound<T> = Bare(bound: T) | WithMessage(bound: T, message: string)

  /** The source text of a regular expression; what it matches is given by
      `Env.regexTest`. */
  type RegexSource = string

  /** `PatternType`: one of the three named patterns or a regular expression. */
  datatype Pattern = Email | Url | MinimallySecurePassword | Regex(source: RegexSource)

  /** What a custom validator may return:
      `null | undefined | false | "" | string | string[]`. */
  datatype Verdict = Nullish | False | Message(text: string) | Messages(texts: seq<string>)

  /** A custom validator, named; what it returns is given by `Env.validator`. */
  type ValidatorName = string

  /** `validate?: Validator | Validator[]`. */
  datatype Validators = Single(validator: ValidatorName) | List(validators: seq<ValidatorName>)

  /** The behaviour the engine calls but does not define: the three named
      regular expressions, arbitrary regular expressions and the custom
      validator closures. */
  datatype Env = Env(
    emailRegex: Value -> bool,
    linkRegex: Value -> bool,
    minimalPassword: Value -> bool,
    regexTest: (RegexSource, Value) -> bool,
    validator: (ValidatorName, Value) -> Verdict)

  /** The props of one form control that the engine reads. `defaultValue`
      is `Undefined` when absent; `extra` holds every other prop the
      caller passed, by name. */
  datatype FieldProps = FieldProps(
    defaultValue: Value,
    mode: Option<Mode>,
    reValidateMode: Option<ReValidateMode>,
    validate: Option<Validators>,
    required: Option<Required>,
    minLength: Option<Bound<int>>,
    maxLength: Option<Bound<int>>,
    pattern: Option<Bound<Pattern>>,
    min: Option<Bound<int>>,
    max: Option<Bound<int>>,
    extra: map<string, Value>)

  /** A control with no props beyond its accessor. */
  const NoProps := FieldProps(Undefined, None, None, None, None, None, None, None, None, None, map[])

  /** A bound is switched on unless it is a bare falsy number: a pair is
      an array and so always truthy. */
  predicate Active(b: Bound<int>) {
    b.WithMessage? || b.bound != 0
  }

  /** The message a failed bounded check reports. */
  function BoundMessage<T>(b: Bound<T>, fallback: string): string {
    if b.WithMessage? then b.message else fallback
  }
}
