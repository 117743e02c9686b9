/** The validator pipeline: from a field's current value and its props to
    the ordered list of error messages. Custom validators run first, then
    `required`, `minLength`, `maxLength`, `pattern`, `min` and `max`; every
    check runs and every failure is reported. */
module Pipeline {
  import opened Outcomes
  import opened Values
  import opened Config
  import Decimal

  /** The messages one custom validator's result contributes: an array
      element-wise, any other truthy result once, a falsy one nothing. */
  function VerdictErrors(v: Verdict): seq<string> {
    match v
    case Messages(texts) => texts
    case Message(text) => if text == "" then [] else [text]
    case _ => []
  }

  /** A single validator is handled as a one-element list. */
  function Listed(vs: Validators): seq<ValidatorName> {
    match vs
    case Single(v) => [v]
    case List(l) => l
  }

  /** A validator result that reports nothing. */
  predicate Harmless(v: Verdict) {
    v.Nullish? || v.False? || v == Message("") || v == Messages([])
  }

  /** Runs the named validators in declaration order and collects what
      they report. */
  function RunValidators(env: Env, value: Value, names: seq<ValidatorName>): (r: seq<string>)
    ensures r == [] <==> forall i :: 0 <= i < |names| ==> Harmless(env.validator(names[i], value))
    decreases |names|
  {
    if names == [] then []
    else VerdictErrors(env.validator(names[0], value)) + RunValidators(env, value, names[1..])
  }

  function CustomErrors(env: Env, value: Value, validate: Option<Validators>): seq<string> {
    if validate.None? then [] else RunValidators(env, value, Listed(validate.value))
  }

  /** `required` is switched on unless absent or the empty string. */
  predicate RequiredOn(required: Option<Required>) {
    required.Some? && required.value != RequiredMessage("")
  }

  function RequiredErrors(value: Value, required: Option<Required>): seq<string> {
    if !RequiredOn(required) || !Falsy(value) then []
    else
      var r := required.value;
      [if r.RequiredMessage? && r.message != "" then r.message else "Required"]
  }

  function MinLengthErrors(value: Value, minLength: Option<Bound<int>>): seq<string> {
    if minLength.None? || !Active(minLength.value) || value.Undefined? then []
    else if !value.Str? then []
    else
      var b := minLength.value;
      if |value.s| < b.bound
      then [BoundMessage(b, "Must have at least " + Decimal.IntToString(b.bound) + " characters")]
      else []
  }

  function MaxLengthErrors(value: Value, maxLength: Option<Bound<int>>): seq<string> {
    if maxLength.None? || !Active(maxLength.value) || value.Undefined? then []
    else if !value.Str? then []
    else
      var b := maxLength.value;
      if |value.s| > b.bound
      then [BoundMessage(b, "Must be less than " + Decimal.IntToString(b.bound) + " characters")]
      else []
  }

  /** `.test(value)` of the regular expression a pattern stands for. */
  predicate PatternMatches(env: Env, p: Pattern, value: Value) {
    match p
    case Email => env.emailRegex(value)
    case Url => env.linkRegex(value)
    case MinimallySecurePassword => env.minimalPassword(value)
    case Regex(source) => env.regexTest(source, value)
  }

  function PatternDefaultMessage(p: Pattern): string {
    match p
    case Email => "Must be email"
    case Url => "Must be a valid url"
    case MinimallySecurePassword =>
      "Minimum of 8 characters with at least one number, lowercase, uppercase, and special character"
    case Regex(_) => "Invalid pattern"
  }

  function PatternErrors(env: Env, value: Value, pattern: Option<Bound<Pattern>>): seq<string> {
    if pattern.None? || value.Undefined? then []
    else
      var b := pattern.value;
      if !PatternMatches(env, b.bound, value) then [BoundMessage(b, PatternDefaultMessage(b.bound))] else []
  }

  function MinErrors(value: Value, min: Option<Bound<int>>): seq<string> {
    if min.None? || !Active(min.value) || value.Undefined? then []
    else
      var b := min.value;
      if value.Num? && value.n < b.bound
      then [BoundMessage(b, "Must be more than " + Decimal.IntToString(b.bound))]
      else []
  }

  function MaxErrors(value: Value, max: Option<Bound<int>>): seq<string> {
    if max.None? || !Active(max.value) || value.Undefined? then []
    else
      var b := max.value;
      if value.Num? && value.n > b.bound
      then [BoundMessage(b, "Must be less than " + Decimal.IntToString(b.bound))]
      else []
  }

  /** The pass's error list: the custom validators' messages, then each
      built-in check's, in source order. */
  function Errors(env: Env, value: Value, props: FieldProps): seq<string> {
    CustomErrors(env, value, props.validate)
    + (RequiredErrors(value, props.required)
    + (MinLengthErrors(value, props.minLength)
    + (MaxLengthErrors(value, props.maxLength)
    + (PatternErrors(env, value, props.pattern)
    + (MinErrors(value, props.min)
    + MaxErrors(value, props.max))))))
  }

  // ---------------------------------------------------------------------
  // A declarative reference: which built-in checks fail, and what each
  // failure reports.

  datatype Check = RequiredCheck | MinLengthCheck | MaxLengthCheck | PatternCheck | MinCheck | MaxCheck

  /** The fixed order the built-in checks run in. */
  const CheckOrder: seq<Check> := [RequiredCheck, MinLengthCheck, MaxLengthCheck, PatternCheck, MinCheck, MaxCheck]

  predicate Fails(env: Env, c: Check, value: Value, props: FieldProps) {
    match c
    case RequiredCheck => RequiredOn(props.required) && Falsy(value)
    case MinLengthCheck =>
      props.minLength.Some? && Active(props.minLength.value)
      && value.Str? && |value.s| < props.minLength.value.bound
    case MaxLengthCheck =>
      props.maxLength.Some? && Active(props.maxLength.value)
      && value.Str? && |value.s| > props.maxLength.value.bound
    case PatternCheck =>
      props.pattern.Some? && value != Undefined
      && !PatternMatches(env, props.pattern.value.bound, value)
    case MinCheck =>
      props.min.Some? && Active(props.min.value)
      && value.Num? && value.n < props.min.value.bound
    case MaxCheck =>
      props.max.Some? && Active(props.max.value)
      && value.Num? && value.n > props.max.value.bound
  }

  /** The message a failing check reports: its configured message, or
      the default text. */
  function FailureMessage(env: Env, c: Check, value: Value, props: FieldProps): string
    requires Fails(env, c, value, props)
  {
    match c
    case RequiredCheck =>
      (match props.required.value
       case RequiredMessage(m) => m
       case RequiredTrue => "Required")
    case MinLengthCheck =>
      var b := props.minLength.value;
      BoundMessage(b, "Must have at least " + Decimal.IntToString(b.bound) + " characters")
    case MaxLengthCheck =>
      var b := props.maxLength.value;
      BoundMessage(b, "Must be less than " + Decimal.IntToString(b.bound) + " characters")
    case PatternCheck =>
      var b := props.pattern.value;
      BoundMessage(b, PatternDefaultMessage(b.bound))
    case MinCheck =>
      var b := props.min.value;
      BoundMessage(b, "Must be more than " + Decimal.IntToString(b.bound))
    case MaxCheck =>
      var b := props.max.value;
      BoundMessage(b, "Must be less than " + Decimal.IntToString(b.bound))
  }

  /** What one built-in check contributes: its message when it fails. */
  function Reported(env: Env, c: Check, value: Value, props: FieldProps): seq<string> {
    if Fails(env, c, value, props) then [FailureMessage(env, c, value, props)] else []
  }

  /** The messages of the failing checks among `cs`, in the order of `cs`. */
  function FailureMessages(env: Env, value: Value, props: FieldProps, cs: seq<Check>): seq<string>
    decreases |cs|
  {
    if cs == [] then [] else Reported(env, cs[0], value, props) + FailureMessages(env, value, props, cs[1..])
  }

  lemma {:induction false} FailureMessagesEmpty(env: Env, value: Value, props: FieldProps, cs: seq<Check>)
    ensures FailureMessages(env, value, props, cs) == [] <==>
      forall i :: 0 <= i < |cs| ==> !Fails(env, cs[i], value, props)
    decreases |cs|
  {
    if cs != [] {
      FailureMessagesEmpty(env, value, props, cs[1..]);
      assert forall i :: 1 <= i < |cs| ==> cs[i] == cs[1..][i - 1];
    }
  }

  lemma BuiltinChecksAgree(env: Env, value: Value, props: FieldProps)
    ensures RequiredErrors(value, props.required) == Reported(env, RequiredCheck, value, props)
    ensures MinLengthErrors(value, props.minLength) == Reported(env, MinLengthCheck, value, props)
    ensures MaxLengthErrors(value, props.maxLength) == Reported(env, MaxLengthCheck, value, props)
    ensures PatternErrors(env, value, props.pattern) == Reported(env, PatternCheck, value, props)
    ensures MinErrors(value, props.min) == Reported(env, MinCheck, value, props)
    ensures MaxErrors(value, props.max) == Reported(env, MaxCheck, value, props)
  {
  }

  lemma {:induction false} FailureMessagesCons(env: Env, value: Value, props: FieldProps, c: Check, cs: seq<Check>)
    ensures FailureMessages(env, value, props, [c] + cs)
      == Reported(env, c, value, props) + FailureMessages(env, value, props, cs)
  {
    assert ([c] + cs)[0] == c && ([c] + cs)[1..] == cs;
  }

  /** The fixed check order, unrolled. */
  lemma {:induction false} CheckOrderUnrolled(env: Env, value: Value, props: FieldProps)
    ensures FailureMessages(env, value, props, CheckOrder)
      == Reported(env, RequiredCheck, value, props) + (Reported(env, MinLengthCheck, value, props)
      + (Reported(env, MaxLengthCheck, value, props) + (Reported(env, PatternCheck, value, props)
      + (Reported(env, MinCheck, value, props) + Reported(env, MaxCheck, value, props)))))
  {
    var t6: seq<Check> := [];
    var t5 := [MaxCheck] + t6;
    var t4 := [MinCheck] + t5;
    var t3 := [PatternCheck] + t4;
    var t2 := [MaxLengthCheck] + t3;
    var t1 := [MinLengthCheck] + t2;
    assert CheckOrder == [RequiredCheck] + t1;
    FailureMessagesCons(env, value, props, MaxCheck, t6);
    FailureMessagesCons(env, value, props, MinCheck, t5);
    FailureMessagesCons(env, value, props, PatternCheck, t4);
    FailureMessagesCons(env, value, props, MaxLengthCheck, t3);
    FailureMessagesCons(env, value, props, MinLengthCheck, t2);
    FailureMessagesCons(env, value, props, RequiredCheck, t1);
    var r6 := Reported(env, MaxCheck, value, props);
    assert FailureMessages(env, value, props, t6) == [];
    assert r6 + [] == r6;
  }

  /** Shape of the pipeline: the custom validators' messages, then one
      message for each failing built-in check, in the fixed order
      required, minLength, maxLength, pattern, min, max. Nothing stops
      early: every failing check is reported. */
  lemma PipelineShape(env: Env, value: Value, props: FieldProps)
    ensures Errors(env, value, props)
      == CustomErrors(env, value, props.validate) + FailureMessages(env, value, props, CheckOrder)
  {
    BuiltinChecksAgree(env, value, props);
    CheckOrderUnrolled(env, value, props);
  }

  /** A pass reports valid exactly when every custom validator's result
      is harmless and no built-in check fails. */
  lemma PipelineValidIff(env: Env, value: Value, props: FieldProps)
    ensures Errors(env, value, props) == [] <==>
      (props.validate.Some? ==>
         forall i :: 0 <= i < |Listed(props.validate.value)| ==>
           Harmless(env.validator(Listed(props.validate.value)[i], value)))
      && forall c :: c in CheckOrder ==> !Fails(env, c, value, props)
  {
    PipelineShape(env, value, props);
    FailureMessagesEmpty(env, value, props, CheckOrder);
  }

  /** Custom validators report in declaration order. */
  lemma {:induction false} ValidatorsInDeclarationOrder(env: Env, value: Value, a: seq<ValidatorName>, b: seq<ValidatorName>)
    ensures RunValidators(env, value, a + b) == RunValidators(env, value, a) + RunValidators(env, value, b)
    decreases |a|
  {
    if a != [] {
      assert (a + b)[0] == a[0] && (a + b)[1..] == a[1..] + b;
      ValidatorsInDeclarationOrder(env, value, a[1..], b);
      var head := VerdictErrors(env.validator(a[0], value));
      calc {
        RunValidators(env, value, a + b);
        head + RunValidators(env, value, a[1..] + b);
        head + (RunValidators(env, value, a[1..]) + RunValidators(env, value, b));
        (head + RunValidators(env, value, a[1..])) + RunValidators(env, value, b);
      }
    } else {
      assert a + b == b;
    }
  }

  /** A lone validator behaves as the one-element list holding it. */
  lemma SingleValidatorIsList(env: Env, value: Value, name: ValidatorName)
    ensures CustomErrors(env, value, Some(Single(name))) == CustomErrors(env, value, Some(List([name])))
    ensures CustomErrors(env, value, Some(Single(name))) == VerdictErrors(env.validator(name, value))
  {
  }

  /** `required` reports exactly the falsy values, with the configured
      message when it is a non-empty string and "Required" otherwise; an
      empty-string configuration switches the check off. */
  lemma RequiredReportsFalsy(value: Value, required: Option<Required>)
    ensures RequiredErrors(value, required) != [] <==> RequiredOn(required) && Falsy(value)
    ensures RequiredErrors(value, required) != [] ==>
      RequiredErrors(value, required) == [if required.value.RequiredTrue? then "Required" else required.value.message]
    ensures required == Some(RequiredMessage("")) ==> RequiredErrors(value, required) == []
  {
  }

  /** `"0"` is truthy and passes `required`; `0`, `false`, `""`, `null` and
      `undefined` all fail it. */
  lemma RequiredOnSamples()
    ensures RequiredErrors(Str("0"), Some(RequiredTrue)) == []
    ensures RequiredErrors(Num(0), Some(RequiredTrue)) == ["Required"]
    ensures RequiredErrors(Bool(false), Some(RequiredTrue)) == ["Required"]
    ensures RequiredErrors(Str(""), Some(RequiredMessage("Fill me"))) == ["Fill me"]
    ensures RequiredErrors(Null, Some(RequiredTrue)) == ["Required"]
    ensures RequiredErrors(Undefined, Some(RequiredTrue)) == ["Required"]
  {
  }

  /** Every bounded check skips an undefined value and a bare zero bound;
      the length checks also skip anything that is not a string. */
  lemma BoundedChecksSkip(env: Env, value: Value, props: FieldProps)
    ensures value == Undefined ==>
      MinLengthErrors(value, props.minLength) == [] && MaxLengthErrors(value, props.maxLength) == []
      && PatternErrors(env, value, props.pattern) == []
      && MinErrors(value, props.min) == [] && MaxErrors(value, props.max) == []
    ensures !value.Str? ==>
      MinLengthErrors(value, props.minLength) == [] && MaxLengthErrors(value, props.maxLength) == []
    ensures props.minLength == Some(Bare(0)) ==> MinLengthErrors(value, props.minLength) == []
    ensures props.maxLength == Some(Bare(0)) ==> MaxLengthErrors(value, props.maxLength) == []
    ensures props.min == Some(Bare(0)) ==> MinErrors(value, props.min) == []
    ensures props.max == Some(Bare(0)) ==> MaxErrors(value, props.max) == []
  {
  }

  /** A too-short value that is also no email address is reported twice,
      length first. */
  lemma TooShortAndNotEmail(env: Env)
    requires !env.emailRegex(Str("ab"))
    ensures Errors(env, Str("ab"), NoProps.(minLength := Some(Bare(3)), pattern := Some(Bare(Email))))
      == ["Must have at least 3 characters", "Must be email"]
  {
    var props := NoProps.(minLength := Some(Bare(3)), pattern := Some(Bare(Email)));
    assert Decimal.NatToString(3) == ['3'];
    assert "Must have at least " + "3" + " characters" == "Must have at least 3 characters";
    assert CustomErrors(env, Str("ab"), props.validate) == [];
    assert RequiredErrors(Str("ab"), props.required) == [];
    assert MinLengthErrors(Str("ab"), props.minLength) == ["Must have at least 3 characters"];
    assert MaxLengthErrors(Str("ab"), props.maxLength) == [];
    assert PatternErrors(env, Str("ab"), props.pattern) == ["Must be email"];
    assert MinErrors(Str("ab"), props.min) == [] && MaxErrors(Str("ab"), props.max) == [];
  }

  /** A `[pattern, message]` pair replaces the named pattern's default text. */
  lemma PatternPairMessage(env: Env, value: Value, p: Pattern, message: string)
    requires value != Undefined && !PatternMatches(env, p, value)
    ensures PatternErrors(env, value, Some(WithMessage(p, message))) == [message]
    ensures PatternErrors(env, value, Some(Bare(p))) == [PatternDefaultMessage(p)]
  {
  }
}
