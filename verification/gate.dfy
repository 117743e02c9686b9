/** The per-field interaction record and the decision whether a
    validation pass runs now (`maybeValidateFormControl`'s gate). */
module Gate {
  import opened Outcomes
  import opened Config

  /** The identifier minted once per mounted form control. */
  type FieldId = string

  /** One field's entry in the UI store. The source keeps every member
      optional and reads the flags with `!!` and the errors with `?? []`,
      so an absent flag is `false` and absent errors are `[]` here. */
  datatype UiRecord = UiRecord(
    errors: seq<string>,
    isDirty: bool,
    hasFocused: bool,
    hasBlurred: bool,
    hasValidated: bool)

  /** The `{}` a missing record is replaced by when first written. */
  const Blank := UiRecord([], false, false, false, false)

  type UiStore = map<FieldId, UiRecord>

  function RecordOf(ui: UiStore, id: FieldId): UiRecord {
    if id in ui then ui[id] else Blank
  }

  /** The field's modes as the control sees them: the form-level setting,
      if any, wins over the field's own. */
  function EffectiveMode(formLevel: Option<Mode>, fieldLevel: Option<Mode>): Option<Mode> {
    Coalesce(formLevel, fieldLevel)
  }

  /** The mode that governs this pass: `reValidateMode` once the field has
      validated, `mode` before; either defaults to `onBlur`. */
  function SelectMode(mode: Option<Mode>, reValidateMode: Option<ReValidateMode>, rec: UiRecord): (r: Mode)
    ensures !rec.hasValidated ==> r == (if mode.Some? then mode.value else OnBlur)
    ensures rec.hasValidated ==> r == (if reValidateMode.Some? then reValidateMode.value else OnBlur)
  {
    var thisMode := if mode.Some? then mode.value else OnBlur;
    var thisReValidateMode: Mode := if reValidateMode.Some? then reValidateMode.value else OnBlur;
    if rec.hasValidated then thisReValidateMode else thisMode
  }

  /** The interaction flags a mode can wait for. */
  datatype Flag = Blurred | Focused | Dirty

  /** The flag each mode waits for: `onBlur` a blur, `onTouched` a focus,
      `onChange` an edit; `onValidate` and `all` wait for none. */
  function AwaitedFlag(m: Mode): Option<Flag> {
    match m
    case OnBlur => Some(Blurred)
    case OnTouched => Some(Focused)
    case OnChange => Some(Dirty)
    case OnValidate => None
    case All => None
  }

  predicate Raised(rec: UiRecord, f: Flag) {
    match f
    case Blurred => rec.hasBlurred
    case Focused => rec.hasFocused
    case Dirty => rec.isDirty
  }

  /** Whether a pass runs. */
  predicate ShouldValidate(selected: Mode, rec: UiRecord, force: bool) {
    if selected == All || force then true
    else if selected == OnBlur then rec.hasBlurred
    else if selected == OnTouched then rec.hasFocused
    else if selected == OnChange then rec.isDirty
    else false
  }

  /** The gate, mode by mode. */
  lemma GateByMode(selected: Mode, rec: UiRecord, force: bool)
    ensures force ==> ShouldValidate(selected, rec, force)
    ensures selected == All ==> ShouldValidate(selected, rec, force)
    ensures !force && selected == OnBlur ==> (ShouldValidate(selected, rec, force) <==> rec.hasBlurred)
    ensures !force && selected == OnTouched ==> (ShouldValidate(selected, rec, force) <==> rec.hasFocused)
    ensures !force && selected == OnChange ==> (ShouldValidate(selected, rec, force) <==> rec.isDirty)
    ensures !force && selected == OnValidate ==> !ShouldValidate(selected, rec, force)
  {
  }

  /** A pass runs always when forced or in `all` mode, and otherwise
      exactly when the flag its mode waits for is raised. */
  lemma GateWaitsForFlag(selected: Mode, rec: UiRecord, force: bool)
    ensures ShouldValidate(selected, rec, force) <==>
      force || selected == All || (AwaitedFlag(selected).Some? && Raised(rec, AwaitedFlag(selected).value))
  {
  }

  /** Two records agree on every flag; their errors may differ. */
  predicate SameFlags(a: UiRecord, b: UiRecord) {
    a.isDirty == b.isDirty && a.hasFocused == b.hasFocused
    && a.hasBlurred == b.hasBlurred && a.hasValidated == b.hasValidated
  }

  /** Flags only ever switch a pass on: a record with more flags set lets
      through every pass a record with fewer lets through. */
  lemma GateMonotone(selected: Mode, rec: UiRecord, more: UiRecord, force: bool)
    requires rec.isDirty ==> more.isDirty
    requires rec.hasFocused ==> more.hasFocused
    requires rec.hasBlurred ==> more.hasBlurred
    requires ShouldValidate(selected, rec, force)
    ensures ShouldValidate(selected, more, force)
  {
  }

  /** The form-level setting overrides the field-level one; the field's
      own applies only when the form sets none. */
  lemma FormLevelModeWins(formMode: Option<Mode>, fieldMode: Option<Mode>)
    ensures formMode.Some? ==> EffectiveMode(formMode, fieldMode) == formMode
    ensures formMode.None? ==> EffectiveMode(formMode, fieldMode) == fieldMode
  {
  }
}
