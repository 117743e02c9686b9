/** The form controller: the data tree, the UI store of interaction
    records, the registry of mounted fields' validators, and the
    operations on them: the field event handlers, validate-all, reset,
    default application and mounting with the reserved-prop guard. */
module Controller {
  import opened Outcomes
  import opened Values
  import opened Config
  import opened Pipeline
  import opened Gate
  import opened Accessors

  /** `{force?, silent?}`. */
  datatype ValidateOptions = ValidateOptions(force: bool, silent: bool)

  /** A handler's call without options. */
  const Unforced := ValidateOptions(false, false)

  /** What a mounted control's validator closure captures: where its value
      lives and its props. */
  datatype Field = Field(path: Path, props: FieldProps)

  predicate Distinct(s: seq<FieldId>) {
    forall i, j :: 0 <= i < j < |s| ==> s[i] != s[j]
  }

  /** The validator registry, a JavaScript `Map`: entries by id, iterated
      in insertion order. */
  datatype Registry = Registry(order: seq<FieldId>, entries: map<FieldId, Field>) {
    ghost predicate Valid() {
      && Distinct(order)
      && (forall id :: id in order <==> id in entries)
    }
  }

  /** The form-level options fixed at creation. `emptyPath` says what the
      store's `setPath` does with the empty path. */
  datatype FormOptions = FormOptions(
    initState: Value,
    mode: Option<Mode>,
    reValidateMode: Option<ReValidateMode>,
    emptyPath: EmptyPathPolicy)

  datatype Form = Form(options: FormOptions, data: Value, ui: UiStore, registry: Registry)

  function CreateForm(options: FormOptions): (f: Form)
    ensures f.data == options.initState && f.ui == map[] && f.registry.entries == map[]
    ensures f.registry.Valid()
  {
    Form(options, options.initState, map[], Registry([], map[]))
  }

  // ---------------------------------------------------------------------
  // Registry

  /** `currentValidatorsByComponentId.set(id, …)`: a new id goes last, an
      existing one keeps its place. */
  function Register(form: Form, id: FieldId, field: Field): (r: Form)
    requires form.registry.Valid()
    ensures r.registry.Valid()
    ensures r.options == form.options && r.data == form.data && r.ui == form.ui
    ensures id in r.registry.entries && r.registry.entries[id] == field
    ensures forall other :: other != id ==>
      (other in r.registry.entries <==> other in form.registry.entries)
      && (other in form.registry.entries ==> r.registry.entries[other] == form.registry.entries[other])
    ensures id in form.registry.entries ==> r.registry.order == form.registry.order
    ensures id !in form.registry.entries ==> r.registry.order == form.registry.order + [id]
  {
    var reg := form.registry;
    var order := if id in reg.entries then reg.order else reg.order + [id];
    form.(registry := Registry(order, reg.entries[id := field]))
  }

  /** `s` with every occurrence of `id` dropped. */
  function Without(s: seq<FieldId>, id: FieldId): (r: seq<FieldId>)
    ensures forall x :: x in r <==> x in s && x != id
    ensures Distinct(s) ==> Distinct(r)
    decreases |s|
  {
    if s == [] then []
    else if s[0] == id then Without(s[1..], id)
    else
      var rest := Without(s[1..], id);
      assert Distinct(s) ==> Distinct(s[1..]) && s[0] !in s[1..];
      [s[0]] + rest
  }

  /** `currentValidatorsByComponentId.delete(id)`. */
  function Unregister(form: Form, id: FieldId): (r: Form)
    requires form.registry.Valid()
    ensures r.registry.Valid()
    ensures r.options == form.options && r.data == form.data && r.ui == form.ui
    ensures r.registry.entries.Keys == form.registry.entries.Keys - {id}
    ensures forall other :: other in r.registry.entries ==> r.registry.entries[other] == form.registry.entries[other]
    ensures r.registry.order == Without(form.registry.order, id)
  {
    var reg := form.registry;
    form.(registry := Registry(Without(reg.order, id), reg.entries - {id}))
  }

  /** Dropping an id works piecewise, so the remaining ids keep their
      relative order: `Map.delete` leaves insertion order intact. */
  lemma {:induction false} WithoutKeepsOrder(s: seq<FieldId>, t: seq<FieldId>, id: FieldId)
    ensures Without(s + t, id) == Without(s, id) + Without(t, id)
    ensures forall x :: x != id ==> Without([x], id) == [x]
    decreases |s|
  {
    if s == [] {
      assert s + t == t;
    } else {
      assert (s + t)[0] == s[0] && (s + t)[1..] == s[1..] + t;
      WithoutKeepsOrder(s[1..], t, id);
      if s[0] != id {
        assert [s[0]] + Without(s[1..], id) + Without(t, id) == [s[0]] + (Without(s[1..], id) + Without(t, id));
      }
    }
    forall x | x != id
      ensures Without([x], id) == [x]
    {
      assert [x][1..] == [];
    }
  }

  lemma {:induction false} WithoutAppended(s: seq<FieldId>, id: FieldId)
    requires id !in s
    ensures Without(s + [id], id) == s
    decreases |s|
  {
    if s == [] {
      assert [] + [id] == [id];
    } else {
      assert (s + [id])[1..] == s[1..] + [id];
      WithoutAppended(s[1..], id);
      assert [s[0]] + s[1..] == s;
    }
  }

  /** Deleting an id that was just set restores the form exactly. */
  lemma UnregisterUndoesRegister(form: Form, id: FieldId, field: Field)
    requires form.registry.Valid() && id !in form.registry.entries
    ensures Unregister(Register(form, id, field), id) == form
  {
    WithoutAppended(form.registry.order, id);
    assert form.registry.entries[id := field] - {id} == form.registry.entries;
  }

  // ---------------------------------------------------------------------
  // One field's validation pass

  /** The mode governing a pass over this field now. */
  function SelectedMode(form: Form, id: FieldId, field: Field): Mode {
    SelectMode(EffectiveMode(form.options.mode, field.props.mode),
               Coalesce(form.options.reValidateMode, field.props.reValidateMode),
               RecordOf(form.ui, id))
  }

  /** `_.get(data, fieldPath)`. */
  function FieldValue(form: Form, field: Field): Value {
    Lookup(form.data, field.path)
  }

  function FieldErrors(env: Env, form: Form, field: Field): seq<string> {
    Errors(env, FieldValue(form, field), field.props)
  }

  /** Whether the gate lets a pass through, and what the pass found. */
  datatype Pass = Skipped | Ran(errors: seq<string>)

  function PassOf(env: Env, form: Form, id: FieldId, field: Field, opts: ValidateOptions): Pass {
    if ShouldValidate(SelectedMode(form, id, field), RecordOf(form.ui, id), opts.force)
    then Ran(FieldErrors(env, form, field))
    else Skipped
  }

  /** The outcome a pass reports: valid unless it ran and found errors. */
  predicate PassValid(p: Pass) {
    p.Skipped? || p.errors == []
  }

  /** `ui'` is `ui` with `id`'s errors replaced by `errors` (its record
      created if needed) and nothing else changed. */
  ghost predicate ErrorsWritten(ui: UiStore, ui': UiStore, id: FieldId, errors: seq<string>) {
    && ui'.Keys == ui.Keys + {id}
    && ui'[id] == RecordOf(ui, id).(errors := errors)
    && forall other :: other in ui && other != id ==> ui'[other] == ui[other]
  }

  datatype Step = Step(valid: bool, ui: UiStore)

  /** `maybeValidateFormControl`: a gated-out call reports valid and
      writes nothing; otherwise the pass reports valid iff it found no
      errors and, unless silent, replaces this field's errors and touches
      nothing else. */
  function MaybeValidate(env: Env, form: Form, id: FieldId, field: Field, opts: ValidateOptions): (r: Step)
    ensures PassOf(env, form, id, field, opts).Skipped? ==> r.valid && r.ui == form.ui
    ensures PassOf(env, form, id, field, opts).Ran? ==> (r.valid <==> FieldErrors(env, form, field) == [])
    ensures opts.silent ==> r.ui == form.ui
    ensures PassOf(env, form, id, field, opts).Ran? && !opts.silent ==>
      ErrorsWritten(form.ui, r.ui, id, FieldErrors(env, form, field))
  {
    match PassOf(env, form, id, field, opts)
    case Skipped => Step(true, form.ui)
    case Ran(errors) =>
      if opts.silent then Step(errors == [], form.ui)
      else Step(errors == [], form.ui[id := RecordOf(form.ui, id).(errors := errors)])
  }

  /** A pass depends on the data and on the field's flags, never on the
      errors already shown. */
  lemma PassIgnoresErrors(env: Env, form: Form, ui: UiStore, id: FieldId, field: Field, opts: ValidateOptions)
    requires SameFlags(RecordOf(ui, id), RecordOf(form.ui, id))
    ensures PassOf(env, form.(ui := ui), id, field, opts) == PassOf(env, form, id, field, opts)
  {
  }

  // ---------------------------------------------------------------------
  // Event handlers

  /** `onFocus`: marks the field focused; no validation. */
  function OnFocus(form: Form, id: FieldId): (r: Form)
    ensures r.options == form.options && r.data == form.data && r.registry == form.registry
    ensures id in r.ui && r.ui[id] == RecordOf(form.ui, id).(hasFocused := true)
    ensures forall other :: other != id ==>
      (other in r.ui <==> other in form.ui) && (other in form.ui ==> r.ui[other] == form.ui[other])
  {
    var rec := RecordOf(form.ui, id);
    if !rec.hasFocused then form.(ui := form.ui[id := rec.(hasFocused := true)]) else form
  }

  /** `onBlur`: marks the field blurred, then runs an unforced pass. The
      pass runs when the now-blurred record lets it through, and then
      shows the field's current errors; otherwise the errors stay. */
  function OnBlur(env: Env, form: Form, id: FieldId, field: Field): (r: Form)
    ensures r.options == form.options && r.data == form.data && r.registry == form.registry
    ensures id in r.ui && r.ui[id].hasBlurred
    ensures SameFlags(r.ui[id], RecordOf(form.ui, id).(hasBlurred := true))
    ensures r.ui[id].errors ==
      if ShouldValidate(SelectedMode(form, id, field), RecordOf(form.ui, id).(hasBlurred := true), false)
      then FieldErrors(env, form, field) else RecordOf(form.ui, id).errors
    ensures forall other :: other != id ==>
      (other in r.ui <==> other in form.ui) && (other in form.ui ==> r.ui[other] == form.ui[other])
  {
    var rec := RecordOf(form.ui, id);
    var blurred := if !rec.hasBlurred then form.(ui := form.ui[id := rec.(hasBlurred := true)]) else form;
    blurred.(ui := MaybeValidate(env, blurred, id, field, Unforced).ui)
  }

  /** `onChangeValue`: writes the new value at the field's path, then runs
      an unforced pass over the written data. `isDirty` is not set, so the
      gate decides as it would have before the change. */
  function OnChangeValue(env: Env, form: Form, id: FieldId, field: Field, newValue: Value): (r: Form)
    ensures r.options == form.options && r.registry == form.registry
    ensures r.data == SetPath(form.data, field.path, newValue, form.options.emptyPath)
    ensures PassOf(env, form, id, field, Unforced).Skipped? ==> r.ui == form.ui
    ensures PassOf(env, form, id, field, Unforced).Ran? ==>
      id in r.ui && r.ui[id] == RecordOf(form.ui, id).(errors := Errors(env, Lookup(r.data, field.path), field.props))
    ensures forall x :: SameFlags(RecordOf(r.ui, x), RecordOf(form.ui, x))
    ensures forall other :: other != id ==>
      (other in r.ui <==> other in form.ui) && (other in form.ui ==> r.ui[other] == form.ui[other])
  {
    var written := form.(data := SetPath(form.data, field.path, newValue, form.options.emptyPath));
    assert PassOf(env, written, id, field, Unforced).Ran? <==> PassOf(env, form, id, field, Unforced).Ran?;
    written.(ui := MaybeValidate(env, written, id, field, Unforced).ui)
  }

  /** The pass a change runs sees the value just written: its errors are
      those of the new value. A control on the empty path is the
      exception, since the engine reads that path as `undefined`. */
  lemma ChangeIsVisibleToValidation(env: Env, form: Form, id: FieldId, field: Field, newValue: Value)
    ensures var r := OnChangeValue(env, form, id, field, newValue);
      && (field.path != [] ==> FieldValue(r, field) == newValue)
      && (field.path == [] ==> FieldValue(r, field) == Undefined)
      && (PassOf(env, form, id, field, Unforced).Ran? && field.path != [] ==>
            r.ui[id].errors == Errors(env, newValue, field.props))
      && (PassOf(env, form, id, field, Unforced).Ran? && field.path == [] ==>
            r.ui[id].errors == Errors(env, Undefined, field.props))
  {
    if field.path != [] {
      SetPathThenLookup(form.data, field.path, newValue, form.options.emptyPath);
    }
  }

  // ---------------------------------------------------------------------
  // Form-level operations

  /** `reset(x)`: the data becomes `x ?? initState`; the UI store and the
      registry are left as they are. */
  function Reset(form: Form, replacement: Value): (r: Form)
    ensures r.options == form.options && r.ui == form.ui && r.registry == form.registry
    ensures replacement == Undefined || replacement == Null ==> r.data == form.options.initState
    ensures replacement != Undefined && replacement != Null ==> r.data == replacement
  {
    form.(data := if replacement == Undefined || replacement == Null then form.options.initState else replacement)
  }

  /** Resetting twice is resetting once, and a bare reset brings every path
      back to its initial value. */
  lemma ResetIdempotent(form: Form, replacement: Value, p: Path)
    ensures Reset(Reset(form, replacement), replacement) == Reset(form, replacement)
    ensures Lookup(Reset(form, Undefined).data, p) == Lookup(CreateForm(form.options).data, p)
  {
  }

  /** The errors a pass over the whole registry writes, by field: a
      field is written when its pass runs and is not silent. */
  ghost function Writes(env: Env, form: Form, opts: ValidateOptions): map<FieldId, seq<string>> {
    map x | x in form.registry.entries && !opts.silent
              && PassOf(env, form, x, form.registry.entries[x], opts).Ran?
      :: PassOf(env, form, x, form.registry.entries[x], opts).errors
  }

  /** `ui` is `base` with the writes `w` applied to the fields in `done`. */
  ghost predicate RefreshedUpTo(base: UiStore, ui: UiStore, w: map<FieldId, seq<string>>, done: seq<FieldId>) {
    && (forall x :: SameFlags(RecordOf(ui, x), RecordOf(base, x)))
    && (forall x :: x in ui <==> x in base || (x in done && x in w))
    && (forall x :: x in ui ==>
          ui[x] == (if x in done && x in w then RecordOf(base, x).(errors := w[x]) else base[x]))
  }

  /** `ui` is the UI store after every registered field's pass has run:
      refreshed fields carry their new errors, everything else is as
      before. */
  ghost predicate AllRefreshed(env: Env, form: Form, opts: ValidateOptions, ui: UiStore) {
    var w := Writes(env, form, opts);
    && (forall x :: x in ui <==> x in form.ui || x in w)
    && (forall x :: x in ui ==>
          ui[x] == (if x in w then RecordOf(form.ui, x).(errors := w[x]) else form.ui[x]))
  }

  predicate FieldAccepts(env: Env, form: Form, id: FieldId, opts: ValidateOptions) {
    id in form.registry.entries ==> PassValid(PassOf(env, form, id, form.registry.entries[id], opts))
  }

  /** One registered field's pass, run on a store whose flags agree with
      the form's, writes exactly that field's entry of `Writes`. */
  lemma StepWrites(env: Env, form: Form, opts: ValidateOptions, ui: UiStore, id: FieldId)
    requires id in form.registry.entries
    requires SameFlags(RecordOf(ui, id), RecordOf(form.ui, id))
    ensures var w := Writes(env, form, opts);
      var step := MaybeValidate(env, form.(ui := ui), id, form.registry.entries[id], opts);
      && step.ui == (if id in w then ui[id := RecordOf(ui, id).(errors := w[id])] else ui)
      && step.valid == FieldAccepts(env, form, id, opts)
  {
    PassIgnoresErrors(env, form, ui, id, form.registry.entries[id], opts);
  }

  /** Applying one more field's write extends the refreshed prefix. */
  lemma RefreshStep(base: UiStore, ui: UiStore, w: map<FieldId, seq<string>>, done: seq<FieldId>, id: FieldId)
    requires RefreshedUpTo(base, ui, w, done)
    ensures SameFlags(RecordOf(ui, id), RecordOf(base, id))
    ensures RefreshedUpTo(base, if id in w then ui[id := RecordOf(ui, id).(errors := w[id])] else ui, w, done + [id])
  {
    var done' := done + [id];
    assert forall x :: x in done' <==> x in done || x == id;
    assert SameFlags(RecordOf(ui, id), RecordOf(base, id));
  }

  /** One field's pass inside validate-all: it extends the refreshed
      prefix by that field and reports what the field accepts. */
  method ValidateOne(env: Env, form: Form, opts: ValidateOptions, ui: UiStore,
                     ghost w: map<FieldId, seq<string>>, ghost done: seq<FieldId>, id: FieldId)
    returns (valid: bool, ui': UiStore)
    requires id in form.registry.entries && w == Writes(env, form, opts)
    requires RefreshedUpTo(form.ui, ui, w, done)
    ensures RefreshedUpTo(form.ui, ui', w, done + [id])
    ensures valid == FieldAccepts(env, form, id, opts)
    ensures AllAccept(env, form, opts, done + [id]) == (AllAccept(env, form, opts, done) && valid)
  {
    assert (done + [id])[..|done|] == done;
    var step := MaybeValidate(env, form.(ui := ui), id, form.registry.entries[id], opts);
    RefreshStep(form.ui, ui, w, done, id);
    StepWrites(env, form, opts, ui, id);
    valid, ui' := step.valid, step.ui;
  }

  /** Once every registered id is done, the store is fully refreshed. */
  lemma RefreshedAll(env: Env, form: Form, opts: ValidateOptions, ui: UiStore)
    requires form.registry.Valid()
    requires RefreshedUpTo(form.ui, ui, Writes(env, form, opts), form.registry.order)
    ensures AllRefreshed(env, form, opts, ui)
    ensures opts.silent ==> ui == form.ui
  {
    var w := Writes(env, form, opts);
    assert forall x :: x in w ==> x in form.registry.order;
    if opts.silent {
      assert w == map[];
      assert ui.Keys == form.ui.Keys;
    }
  }

  /** Every pass over the fields `ids` reports valid. */
  ghost predicate AllAccept(env: Env, form: Form, opts: ValidateOptions, ids: seq<FieldId>)
    decreases |ids|
  {
    ids == [] || (AllAccept(env, form, opts, ids[..|ids| - 1]) && FieldAccepts(env, form, ids[|ids| - 1], opts))
  }

  lemma {:induction false} AllAcceptIff(env: Env, form: Form, opts: ValidateOptions, ids: seq<FieldId>)
    ensures AllAccept(env, form, opts, ids) <==> forall j :: 0 <= j < |ids| ==> FieldAccepts(env, form, ids[j], opts)
    decreases |ids|
  {
    if ids != [] {
      var front := ids[..|ids| - 1];
      var last := ids[|ids| - 1];
      AllAcceptIff(env, form, opts, front);
      assert AllAccept(env, form, opts, ids)
        == (AllAccept(env, form, opts, front) && FieldAccepts(env, form, last, opts));
      if AllAccept(env, form, opts, ids) {
        forall j | 0 <= j < |ids| ensures FieldAccepts(env, form, ids[j], opts) {
          if j < |front| {
            assert front[j] == ids[j];
          }
        }
      } else if !FieldAccepts(env, form, last, opts) {
        assert !FieldAccepts(env, form, ids[|ids| - 1], opts);
      } else {
        var k :| 0 <= k < |front| && !FieldAccepts(env, form, front[k], opts);
        assert front[k] == ids[k];
      }
    }
  }

  /** The loop of `executeCurrentValidators`: every registered field's
      pass, once each, in registry order, with no early exit. */
  method RunPasses(env: Env, form: Form, opts: ValidateOptions) returns (isValid: bool, ui: UiStore)
    requires form.registry.Valid()
    ensures isValid == AllAccept(env, form, opts, form.registry.order)
    ensures RefreshedUpTo(form.ui, ui, Writes(env, form, opts), form.registry.order)
  {
    var order := form.registry.order;
    ghost var w := Writes(env, form, opts);
    ui := form.ui;
    isValid := true;
    var i := 0;
    while i < |order|
      invariant 0 <= i <= |order|
      invariant isValid == AllAccept(env, form, opts, order[..i])
      invariant RefreshedUpTo(form.ui, ui, w, order[..i])
    {
      var id := order[i];
      var valid;
      valid, ui := ValidateOne(env, form, opts, ui, w, order[..i], id);
      assert order[..i + 1] == order[..i] + [id];
      if isValid {
        isValid := valid;
      }
      i := i + 1;
    }
    assert order[..i] == order;
  }

  /** `executeCurrentValidators`: runs every registered field's pass once,
      in registry order, without stopping at the first failure, and
      reports whether all of them reported valid. */
  method ExecuteCurrentValidators(env: Env, form: Form, opts: ValidateOptions) returns (isValid: bool, r: Form)
    requires form.registry.Valid()
    ensures r.options == form.options && r.data == form.data && r.registry == form.registry
    ensures isValid <==> forall i :: 0 <= i < |form.registry.order| ==> FieldAccepts(env, form, form.registry.order[i], opts)
    ensures AllRefreshed(env, form, opts, r.ui)
    ensures opts.silent ==> r.ui == form.ui
  {
    var ui;
    isValid, ui := RunPasses(env, form, opts);
    AllAcceptIff(env, form, opts, form.registry.order);
    RefreshedAll(env, form, opts, ui);
    r := form.(ui := ui);
  }

  /** `validate()`: a forced pass over every registered field; afterwards
      every registered field shows exactly its current errors, and the
      result is true iff none has any. */
  method Validate(env: Env, form: Form) returns (isValid: bool, r: Form)
    requires form.registry.Valid()
    ensures r.options == form.options && r.data == form.data && r.registry == form.registry
    ensures isValid <==> forall id :: id in form.registry.entries ==>
      FieldErrors(env, form, form.registry.entries[id]) == []
    ensures forall id :: id in form.registry.entries ==>
      id in r.ui && r.ui[id] == RecordOf(form.ui, id).(errors := FieldErrors(env, form, form.registry.entries[id]))
    ensures forall id :: id !in form.registry.entries ==>
      (id in r.ui <==> id in form.ui) && (id in form.ui ==> r.ui[id] == form.ui[id])
  {
    var opts := ValidateOptions(true, false);
    isValid, r := ExecuteCurrentValidators(env, form, opts);
    ForcedAcceptance(env, form, opts);
  }

  /** `silentlyValidate()`: a forced, silent pass; it writes nothing and is
      true iff no registered field has errors. */
  method SilentlyValidate(env: Env, form: Form) returns (isValid: bool, r: Form)
    requires form.registry.Valid()
    ensures r == form
    ensures isValid <==> forall id :: id in form.registry.entries ==>
      FieldErrors(env, form, form.registry.entries[id]) == []
  {
    var opts := ValidateOptions(true, true);
    isValid, r := ExecuteCurrentValidators(env, form, opts);
    ForcedAcceptance(env, form, opts);
  }

  /** Under `force` every registered field's pass runs, so the registry
      accepts exactly when no field has errors. */
  lemma ForcedAcceptance(env: Env, form: Form, opts: ValidateOptions)
    requires form.registry.Valid() && opts.force
    ensures (forall i :: 0 <= i < |form.registry.order| ==> FieldAccepts(env, form, form.registry.order[i], opts))
      <==> (forall id :: id in form.registry.entries ==> FieldErrors(env, form, form.registry.entries[id]) == [])
  {
    var reg := form.registry;
    if forall i :: 0 <= i < |reg.order| ==> FieldAccepts(env, form, reg.order[i], opts) {
      forall id | id in reg.entries
        ensures FieldErrors(env, form, reg.entries[id]) == []
      {
        var i :| 0 <= i < |reg.order| && reg.order[i] == id;
        assert FieldAccepts(env, form, reg.order[i], opts);
      }
    }
  }

  // ---------------------------------------------------------------------
  // Mounting a control

  /** The outcome of reading a field's value on first render. */
  datatype Defaulted = Defaulted(value: Value, form: Form)

  /** Lazy default: when the field's value is undefined and a default is
      given, the default is written at the field's path (silently) and
      becomes the value; a defined value is left alone. */
  function ApplyDefault(form: Form, field: Field): (r: Defaulted)
    ensures r.form.options == form.options && r.form.ui == form.ui && r.form.registry == form.registry
    ensures FieldValue(form, field) != Undefined ==> r.value == FieldValue(form, field) && r.form == form
    ensures field.props.defaultValue == Undefined ==> r.value == FieldValue(form, field) && r.form == form
    ensures FieldValue(form, field) == Undefined && field.props.defaultValue != Undefined ==>
      r.value == field.props.defaultValue
      && r.form.data == SetPath(form.data, field.path, field.props.defaultValue, form.options.emptyPath)
  {
    var value := FieldValue(form, field);
    if value == Undefined && field.props.defaultValue != Undefined then
      var d := field.props.defaultValue;
      Defaulted(d, form.(data := SetPath(form.data, field.path, d, form.options.emptyPath)))
    else Defaulted(value, form)
  }

  /** After defaulting, the store holds the value the control shows, and
      no disjoint part of the data changed. On the empty path the store
      still reads `undefined` while the control shows the default: the
      write is ignored or replaces the whole tree, by the store's policy. */
  lemma DefaultIsStored(form: Form, field: Field, q: Path)
    ensures field.path != [] ==> FieldValue(ApplyDefault(form, field).form, field) == ApplyDefault(form, field).value
    ensures field.path == [] ==>
      && FieldValue(ApplyDefault(form, field).form, field) == Undefined
      && ApplyDefault(form, field).value == field.props.defaultValue
    ensures field.path == [] && form.options.emptyPath == EmptyPathIsRoot && field.props.defaultValue != Undefined ==>
      Lookup(ApplyDefault(form, field).form.data, q) == Lookup(field.props.defaultValue, q)
    ensures field.path == [] && form.options.emptyPath == EmptyPathIgnored ==>
      ApplyDefault(form, field).form == form
    ensures Disjoint(field.path, q) ==>
      Lookup(ApplyDefault(form, field).form.data, q) == Lookup(form.data, q)
  {
    var d := field.props.defaultValue;
    if field.path != [] {
      SetPathThenLookup(form.data, field.path, d, form.options.emptyPath);
    } else {
      EmptyPathWrite(form.data, d, form.options.emptyPath, q);
    }
    if Disjoint(field.path, q) {
      SetPathLeavesDisjointPaths(form.data, field.path, q, d, form.options.emptyPath);
    }
  }

  /** The props a control may not receive, in the order they are checked. */
  const ReservedProps: seq<string> := ["onChangeValue", "errors", "value"]

  predicate Defined(extra: map<string, Value>, k: string) {
    k in extra && extra[k] != Undefined
  }

  function ReservedMessage(k: string): string {
    "Unable to use reserved field `" + k + "` as a prop for white label components"
  }

  /** The reserved-prop guard: the message of the first reserved prop
      that is defined, or `None` when there is none. */
  function CheckReserved(extra: map<string, Value>): (r: Option<string>)
    ensures r.None? <==> forall i :: 0 <= i < |ReservedProps| ==> !Defined(extra, ReservedProps[i])
    ensures r.Some? ==>
      exists i :: (0 <= i < |ReservedProps| && Defined(extra, ReservedProps[i])
                   && (forall j :: 0 <= j < i ==> !Defined(extra, ReservedProps[j]))
                   && r.value == ReservedMessage(ReservedProps[i]))
  {
    assert ReservedProps[0] == "onChangeValue" && ReservedProps[1] == "errors" && ReservedProps[2] == "value";
    if Defined(extra, "onChangeValue") then Some(ReservedMessage("onChangeValue"))
    else if Defined(extra, "errors") then Some(ReservedMessage("errors"))
    else if Defined(extra, "value") then Some(ReservedMessage("value"))
    else None
  }

  datatype MountError = AccessorThrew | ReservedProp(message: string)

  datatype Mounting =
    | Mounted(form: Form, field: Field, value: Value)
    | Rejected(form: Form, reason: MountError)

  /** Rendering a control for the first time and running its effect:
      resolve the path, apply the default, apply the reserved-prop guard,
      register the validator. A control the guard rejects is never
      registered, but its default has already been written. */
  function Mount(form: Form, id: FieldId, accessor: Accessor, props: FieldProps): (r: Mounting)
    requires form.registry.Valid()
    ensures r.form.options == form.options && r.form.ui == form.ui && r.form.registry.Valid()
    ensures DetectAccessedPath(accessor).None? ==> r == Rejected(form, AccessorThrew)
    ensures DetectAccessedPath(accessor).Some? ==>
      r.form.data == ApplyDefault(form, Field(DetectAccessedPath(accessor).value, props)).form.data
    ensures r.Mounted? ==> r.value == ApplyDefault(form, r.field).value
    ensures r.Mounted? <==> DetectAccessedPath(accessor).Some? && CheckReserved(props.extra).None?
    ensures DetectAccessedPath(accessor).Some? && CheckReserved(props.extra).Some? ==>
      r.Rejected? && r.reason == ReservedProp(CheckReserved(props.extra).value)
    ensures r.Rejected? ==> r.form.registry == form.registry
    ensures r.Mounted? ==>
      && r.field == Field(DetectAccessedPath(accessor).value, props)
      && id in r.form.registry.entries && r.form.registry.entries[id] == r.field
      && r.form.registry.entries.Keys == form.registry.entries.Keys + {id}
  {
    match DetectAccessedPath(accessor)
    case None => Rejected(form, AccessorThrew)
    case Some(path) =>
      var field := Field(path, props);
      var d := ApplyDefault(form, field);
      match CheckReserved(props.extra)
      case Some(message) => Rejected(d.form, ReservedProp(message))
      case None => Mounted(Register(d.form, id, field), field, d.value)
  }

  /** Unmounting a freshly mounted control restores the registry but not
      the data: the default written on first render stays. So does the
      default of a control the guard rejected. */
  lemma MountThenUnmount(form: Form, id: FieldId, accessor: Accessor, props: FieldProps)
    requires form.registry.Valid() && id !in form.registry.entries
    ensures var r := Mount(form, id, accessor, props);
      && (r.Mounted? ==> Unregister(r.form, id).registry == form.registry)
      && (r.Mounted? ==> Unregister(r.form, id).data == ApplyDefault(form, r.field).form.data)
    ensures var r := Mount(form, id, accessor, props);
      DetectAccessedPath(accessor).Some? && DetectAccessedPath(accessor).value != []
      && FieldValue(form, Field(DetectAccessedPath(accessor).value, props)) == Undefined
      && props.defaultValue != Undefined
      ==> Lookup(r.form.data, DetectAccessedPath(accessor).value) == props.defaultValue
  {
    var r := Mount(form, id, accessor, props);
    match DetectAccessedPath(accessor)
    case None =>
    case Some(path) =>
      var d := ApplyDefault(form, Field(path, props));
      if r.Mounted? {
        UnregisterUndoesRegister(d.form, id, r.field);
      }
      if path != [] {
        SetPathThenLookup(form.data, path, props.defaultValue, form.options.emptyPath);
      }
  }

  // ---------------------------------------------------------------------
  // What the engine never writes

  /** No record has `hasValidated` or `isDirty` set: nothing in the engine
      ever sets them. */
  ghost predicate NeverValidatedOrDirty(ui: UiStore) {
    forall id :: id in ui ==> !ui[id].hasValidated && !ui[id].isDirty
  }

  lemma ChangeKeepsFlagsUnset(env: Env, form: Form, id: FieldId, field: Field, newValue: Value)
    requires NeverValidatedOrDirty(form.ui)
    ensures NeverValidatedOrDirty(OnChangeValue(env, form, id, field, newValue).ui)
  {
    var r := OnChangeValue(env, form, id, field, newValue);
    forall x | x in r.ui
      ensures !r.ui[x].hasValidated && !r.ui[x].isDirty
    {
      assert SameFlags(RecordOf(r.ui, x), RecordOf(form.ui, x));
    }
  }

  lemma BlurKeepsFlagsUnset(env: Env, form: Form, id: FieldId, field: Field)
    requires NeverValidatedOrDirty(form.ui)
    ensures NeverValidatedOrDirty(OnBlur(env, form, id, field).ui)
  {
  }

  lemma PassKeepsFlagsUnset(env: Env, form: Form, id: FieldId, field: Field, opts: ValidateOptions)
    requires NeverValidatedOrDirty(form.ui)
    ensures NeverValidatedOrDirty(MaybeValidate(env, form, id, field, opts).ui)
  {
  }

  /** Every operation keeps `hasValidated` and `isDirty` unset. */
  lemma OperationsKeepFlagsUnset(env: Env, form: Form, id: FieldId, field: Field, newValue: Value,
                                 replacement: Value, opts: ValidateOptions)
    requires NeverValidatedOrDirty(form.ui)
    ensures NeverValidatedOrDirty(OnFocus(form, id).ui)
    ensures NeverValidatedOrDirty(OnBlur(env, form, id, field).ui)
    ensures NeverValidatedOrDirty(OnChangeValue(env, form, id, field, newValue).ui)
    ensures NeverValidatedOrDirty(MaybeValidate(env, form, id, field, opts).ui)
    ensures NeverValidatedOrDirty(Reset(form, replacement).ui)
    ensures NeverValidatedOrDirty(ApplyDefault(form, field).form.ui)
  {
    BlurKeepsFlagsUnset(env, form, id, field);
    ChangeKeepsFlagsUnset(env, form, id, field, newValue);
    PassKeepsFlagsUnset(env, form, id, field, opts);
  }

  /** A pass over the whole registry keeps them unset too. */
  lemma RefreshKeepsFlagsUnset(env: Env, form: Form, opts: ValidateOptions, ui: UiStore)
    requires NeverValidatedOrDirty(form.ui) && AllRefreshed(env, form, opts, ui)
    ensures NeverValidatedOrDirty(ui)
  {
  }

  /** Hence `reValidateMode` is never the governing mode, and an
      `onChange` field validates only when forced. */
  lemma ReValidateModeUnused(env: Env, form: Form, id: FieldId, field: Field, opts: ValidateOptions)
    requires NeverValidatedOrDirty(form.ui)
    ensures SelectedMode(form, id, field)
      == (var m := EffectiveMode(form.options.mode, field.props.mode); if m.Some? then m.value else Mode.OnBlur)
    ensures SelectedMode(form, id, field) == Mode.OnChange && !opts.force ==> PassOf(env, form, id, field, opts) == Skipped
  {
  }

  /** In `onBlur` mode a change alone shows no errors before the first
      blur; the first blur shows the current errors. */
  lemma OnBlurModeWaitsForBlur(env: Env, form: Form, id: FieldId, field: Field, newValue: Value)
    requires SelectedMode(form, id, field) == Mode.OnBlur && !RecordOf(form.ui, id).hasBlurred
    ensures OnChangeValue(env, form, id, field, newValue).ui == form.ui
    ensures OnBlur(env, form, id, field).ui[id].errors == FieldErrors(env, form, field)
  {
  }
}
