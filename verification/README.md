# Form-state engine of react-whitelabel-form, modelled in Dafny

The engine keeps a form's data in a JSON-like value tree. It tracks a small
interaction record per mounted form control, and it decides from that record
and a validation mode whether a validation pass runs. A pass runs the field's
validators and stores the resulting error list. This project models that
engine with React removed. Each part is a pure function over immutable
datatypes, and the properties the code promises are proved about them.

- `values.dfy`
  - `Values`: the value tree; JavaScript falsiness; lodash-style lookup along a path; the store's path update.
  - `Outcomes`: optional values and `??`.
  - `Decimal`: integer-to-text, used in the default messages.
- `accessors.dfy`, module `Accessors`: a field accessor `s => s.a.b`, written as an expression over its parameter.
  - It is run once against the recording stand-in (`createWildcardObject`) to obtain its path (`detectAccessedPath`).
- `config.dfy`, module `Config`: the props a control accepts, mirroring the unions of `src/types/Form.tsx`.
  - The modes, `required: true | string`, bounds given bare or as `[bound, message]`, `PatternType`, and the custom validators' result type.
  - `Env` carries the behaviour the engine calls but does not define: the three named regular expressions, arbitrary regular expressions, and the custom validator closures.
- `pipeline.dfy`, module `Pipeline`: the validator pipeline of `maybeValidateFormControl`.
  - It runs custom validators, then `required`, `minLength`, `maxLength`, `pattern`, `min` and `max`, and collects every failure.
  - It also holds a declarative reference definition (`Fails`, `FailureMessage`), against which the pipeline is proved.
- `gate.dfy`, module `Gate`: the interaction record, mode selection and the decision whether a pass runs.
- `controller.dfy`, module `Controller`: the form's state, which is the data tree, the UI store and the validator registry (insertion-ordered like a JavaScript `Map`).
  - The registry operations; `onFocus`, `onBlur` and `onChangeValue`; `maybeValidateFormControl`.
  - `executeCurrentValidators` with `validate`/`silentlyValidate`; `reset`.
  - Lazy default values, the reserved-prop guard, and mounting a control.

Where the code and a plain reading of its intent part ways, the model follows the code:

- The form-level `mode`/`reValidateMode` wins over the field's own (`requiredProps.mode ?? compProps.mode`).
- Nothing in the engine ever sets `hasValidated` or `isDirty`.
  - So `reValidateMode` is never consulted at run time, and an `onChange` field validates only when forced (`Controller.ReValidateModeUnused`).
  - A pass writes the field's `errors` and nothing else.
- `required: ""` switches the check off, because the empty string is falsy.
- A bare bound of `0` switches `minLength`, `maxLength`, `min` and `max` off. For `min` and `max` that means, for example, that `min: 0` does not reject `-5`. A `[0, message]` pair is an array, so it is always active.
- `reset(null)` resets to the initial state like `reset()` does, because `??` treats `null` as absent.
- When a control is first rendered, its default value is written before the reserved-prop guard throws.
  - A control the guard rejects therefore leaves its default in the data store, but it is never registered.
- Reading the empty path is lodash's `_.get`, which always reads `undefined` there (`Values.Lookup`).
  - Writing it belongs to the store's `setPath`, whose treatment is a parameter (`Values.EmptyPathPolicy`): ignore it, as lodash `_.set` does, or replace the whole tree.
  - So an accessor `s => s` resolves to `[]`. Its control always reads `undefined`, and a change or a default written there never reads back.

## Model

| member | source | states |
|---|---|---|
| Values.SetPathThenLookup | src/implementations/Form.tsx:135-140 | Reading a non-empty path right after writing it yields the written value. |
| Values.EmptyPathWrite | src/implementations/Form.tsx:135-138 | On the empty path a write never reads back: the lookup gives `undefined`. The store either leaves the data as it was or replaces the whole tree with the written value, by its policy. |
| Values.LookupEmptyPath | src/implementations/Form.tsx:257 | `Values.Lookup`, the `_.get` of a field's value, reads `undefined` on the empty path, whatever the state. |
| Values.LookupStopsAtNullish | src/implementations/Form.tsx:257 | `Values.Lookup` reads `undefined` on every path that meets `undefined` or `null` before its last key. |
| Values.SetPathLeavesDisjointPaths | src/implementations/Form.tsx:213-216 | Writing one path leaves every path that is neither a prefix nor an extension of it unchanged. |
| Accessors.DetectChainPath | src/implementations/Form.tsx:358-381 | For an accessor `s.k1…kn`, the resolved path is exactly `[k1,…,kn]`, in access order. For n ≥ 1, looking that path up with `_.get` agrees with running the accessor, and gives `undefined` where the accessor would throw. For n = 0 (`s => s`) the path is `[]`, which reads `undefined` although the accessor yields the whole state. |
| Accessors.Record | src/implementations/Form.tsx:358-371 | Running an accessor against the stand-in only ever appends to the recorded key list. |
| Accessors.DetectAccessedPath | src/implementations/Form.tsx:374-381 | A chain `s.k1…kn` resolves to `[k1,…,kn]`. An accessor that never reads its parameter resolves to `[]` unless it throws. |
| Accessors.SequencedReadsRecordBoth | src/implementations/Form.tsx:358-381 | For `s => (s.a…, s.b…)` the resolved path is the first chain's keys followed by the second's, while the accessor yields only the second chain's value, or throws when the first chain throws. So the resolved path names a value the accessor never returns. |
| Accessors.ConstantAccessorEmptyPath | src/implementations/Form.tsx:374-381 | An accessor that never reads its parameter resolves to the empty path. It throws exactly when it throws on a real state. |
| Pipeline.RunValidators | src/implementations/Form.tsx:261-271 | The custom validators add nothing exactly when every one of them returns a harmless result (null, undefined, false, `""` or `[]`). |
| Pipeline.ValidatorsInDeclarationOrder | src/implementations/Form.tsx:262-270 | The messages of a list of validators are those of its first part followed by those of the rest, so they appear in declaration order. |
| Pipeline.SingleValidatorIsList | src/implementations/Form.tsx:262-270 | A lone validator behaves as the one-element list holding it. It contributes an array result element-wise, another truthy result once, and a falsy one not at all. |
| Pipeline.RequiredReportsFalsy | src/implementations/Form.tsx:273-277 | `required` reports an error iff it is switched on (set and not `""`) and the value is falsy. The message is the configured string, or `"Required"` for `true`. `required: ""` never reports. |
| Pipeline.RequiredOnSamples | src/implementations/Form.tsx:273-277 | `"0"` passes `required`. `0`, `false`, `""`, `null` and `undefined` all fail it. |
| Pipeline.BuiltinChecksAgree | src/implementations/Form.tsx:273-343 | Each built-in check as written (the source's nested guards) reports exactly the reference failure condition, with the reference message. |
| Pipeline.BoundedChecksSkip | src/implementations/Form.tsx:279-343 | No bounded check reports on `undefined`. The length checks ignore non-strings. A bare `0` bound switches `minLength`, `maxLength`, `min` and `max` off. |
| Pipeline.PatternPairMessage | src/implementations/Form.tsx:305-329 | A failed pattern reports the message of a `[pattern, message]` pair, or otherwise the pattern's default text. |
| Pipeline.PipelineShape | src/implementations/Form.tsx:259-343 | `Pipeline.Errors`, the pass's error list, is the custom validators' messages, then one message per failing built-in check. The checks run in the fixed order required, minLength, maxLength, pattern, min, max, and none stops the others. |
| Pipeline.PipelineValidIff | src/implementations/Form.tsx:259-355 | The pass reports valid iff every custom result is harmless and no built-in check fails. |
| Pipeline.TooShortAndNotEmail | src/implementations/Form.tsx:279-329 | A too-short non-email gets both messages, length first: the checks are cumulative. |
| Gate.GateWaitsForFlag | src/implementations/Form.tsx:242-251 | `Gate.ShouldValidate`: a pass runs when forced or in mode `all`, and otherwise exactly when the flag its mode waits for is raised. `onBlur` waits for a blur, `onTouched` for a focus and `onChange` for an edit. `onValidate` waits for nothing. |
| Gate.GateByMode | src/implementations/Form.tsx:241-255 | A forced pass, or one in mode `all`, always runs. Otherwise `onBlur` runs iff the field has blurred, `onTouched` iff it has been focused, and `onChange` iff it is dirty. `onValidate` never runs. |
| Gate.GateMonotone | src/implementations/Form.tsx:242-251 | Setting more interaction flags never stops a pass that would have run. |
| Gate.FormLevelModeWins | src/implementations/Form.tsx:128-129 | The form-level mode overrides the field-level mode. The field's own applies only when the form sets none. |
| Gate.SelectMode | src/implementations/Form.tsx:234-239 | Unset modes default to `onBlur`. `reValidateMode` governs exactly when the field has validated, and `mode` governs otherwise. |
| Controller.CreateForm | src/implementations/Form.tsx:58-61 | A new form holds the initial state, an empty UI store and an empty, well-formed registry. |
| Controller.Register | src/implementations/Form.tsx:143-148 | Map set. The id maps to the field, a new id goes last, an existing id keeps its place, and every other entry, the data and the UI store are unchanged. |
| Controller.Unregister | src/implementations/Form.tsx:145-147 | Map delete. Exactly that id leaves the registry, the other entries keep their fields, and the registry stays well-formed. The remaining ids keep their relative order, so later validate-all passes visit them in insertion order. |
| Controller.WithoutKeepsOrder | src/implementations/Form.tsx:145-147 | Removing an id from the order distributes over concatenation and keeps every other id in place, so a `Map` delete preserves the order in which `forEach` (line 66) visits the remaining entries. |
| Controller.UnregisterUndoesRegister | src/implementations/Form.tsx:143-148 | Deleting an id that was just set restores the form exactly. |
| Controller.MaybeValidate | src/implementations/Form.tsx:225-356 | A gated-out call reports valid and writes nothing. A pass reports valid iff it found no errors. A silent pass writes nothing. A non-silent pass replaces this field's errors, even with `[]`, creating the record if needed, and changes no flag and no other field. |
| Controller.PassIgnoresErrors | src/implementations/Form.tsx:237-257 | Whether a pass runs, and what it finds, depends on the data and the field's flags, never on the errors already shown. |
| Controller.OnFocus | src/implementations/Form.tsx:205-212 | The field's record ends up focused with its other members unchanged, and no other record, the data or the registry changes. |
| Controller.OnBlur | src/implementations/Form.tsx:196-204 | The field ends up blurred, its other flags unchanged, and every other field's record is untouched. If the blurred record lets the pass through, the field then shows its current errors; otherwise its errors stay. |
| Controller.OnChangeValue | src/implementations/Form.tsx:213-216 | The new value is written at the field's path. No flag of any field changes, so `isDirty` is never set, and no other field's record changes. A pass the gate skips writes nothing. A pass that runs replaces the field's errors with those of the value read back from the written data. |
| Controller.ChangeIsVisibleToValidation | src/implementations/Form.tsx:213-216 | The pass a change runs sees the value just written: the field then shows the new value's errors. On the empty path it sees `undefined` instead. |
| Controller.ExecuteCurrentValidators | src/implementations/Form.tsx:63-74 | Every registered field's pass runs once with the same options, with no early exit. The result is the conjunction of the passes. Afterwards every refreshed field carries its new errors and everything else is as before. A silent run leaves the UI store unchanged. |
| Controller.Validate | src/implementations/Form.tsx:94 | A forced pass. Every registered field then shows exactly its current errors, unregistered records are untouched, and the result is true iff no field has errors. |
| Controller.SilentlyValidate | src/implementations/Form.tsx:93 | A forced, silent pass. The form is unchanged, and the result is true iff no registered field has errors. |
| Controller.ForcedAcceptance | src/implementations/Form.tsx:93-94 | Under `force`, the registry accepts iff no registered field's pipeline reports an error. |
| Controller.Reset | src/implementations/Form.tsx:95-98 | The data becomes the replacement, or the initial state when the replacement is `undefined` or `null`. The UI store and the registry are untouched. |
| Controller.ResetIdempotent | src/implementations/Form.tsx:95-98 | Resetting twice equals resetting once, and a bare reset restores the initial value at every path. |
| Controller.ApplyDefault | src/implementations/Form.tsx:134-140 | A defined value is left alone. An undefined value with a default is replaced by that default, written at the field's path. The UI store is not touched. |
| Controller.DefaultIsStored | src/implementations/Form.tsx:137-140 | On a non-empty path, after defaulting the store holds the value the control shows. On the empty path the control shows the default while the store reads `undefined`: the data is unchanged, or replaced by the default, by the store's policy. Every disjoint path is unchanged. |
| Controller.CheckReserved | src/implementations/Form.tsx:150-160 | The guard rejects iff one of `onChangeValue`, `errors` or `value` is defined. It reports the first of them, in that order, with its message. |
| Controller.Mount | src/implementations/Form.tsx:116-160 | A control is registered iff its accessor resolves and no reserved prop is set. A rejected control leaves the registry unchanged and reports the message of the first reserved prop that is set. The UI store is never touched. Once the path resolves, the data is that of default application, for a rejected control too, and a mounted control shows the defaulted value. |
| Controller.MountThenUnmount | src/implementations/Form.tsx:137-148 | Unmounting a freshly mounted control restores the registry but keeps the default written on first render. A control with a default on an undefined non-empty path leaves that default in the store, even when the guard rejects it. |
| Controller.OperationsKeepFlagsUnset | src/implementations/Form.tsx:196-216 | No handler, pass, reset or default application ever sets `hasValidated` or `isDirty`. |
| Controller.RefreshKeepsFlagsUnset | src/implementations/Form.tsx:345-353 | Writing errors over the whole registry leaves `hasValidated` and `isDirty` unset. |
| Controller.ReValidateModeUnused | src/implementations/Form.tsx:234-251 | While those flags are unset, the governing mode is always the effective `mode` (default `onBlur`), and an `onChange` field validates only when forced. |
| Controller.OnBlurModeWaitsForBlur | src/implementations/Form.tsx:196-216 | In `onBlur` mode a change before the first blur writes no errors, and the first blur shows the value's current errors. |

## Left out

- React plumbing is not modelled: `useRef` caching, `useEffect` timing, `useStoreValue` subscriptions, re-rendering and JSX prop splitting. A control is registered once, when it mounts. The source re-registers only when its path changes, which is render timing.
- `Store.js` is not part of this model. `set` is whole-tree replacement and `setPath` is `Values.SetPath`, with its treatment of the empty path left as a parameter. Notification, subscriber order and the `silent` flag are not modelled, because their semantics are not visible.
- `Values.SetPath` creates an object wherever the path runs through a non-object. The real store's behaviour there is not visible.
- The three named regular expressions, arbitrary `RegExp`s and custom validator closures are uninterpreted parameters (`Config.Env`). `useId` ids are parameters.
- A custom validator that throws is not modelled.
- `Controller.ResetIdempotent`: the source hands the same `initState` object to the store (`src/implementations/Form.tsx:58`) and to `reset`'s fallback (`src/implementations/Form.tsx:96`). A bare reset restores the initial values only if the store never edits that tree in place. The model's values are immutable, so this aliasing question does not arise.
- `Controller.Mount`: models the first render only. On the empty path `_.get` always reads `undefined`, so the source writes the default again on every render.
- `Pipeline.PipelineValidIff`: `min`/`max` compare only numbers. The model never reports them for other values, while JavaScript's `<` and `>` coerce `null`, booleans, numeric strings and `Date`s. NaN is not modelled either.
- `Pipeline.BoundedChecksSkip`: string length counts characters, while JavaScript counts UTF-16 code units.
- `Values.PropertyOf`: only own properties are modelled. A primitive has no properties here, so the `length` and index properties of strings and the `length` of arrays read as `undefined`. Inherited properties such as `constructor`, `toString` or `__proto__` also read as `undefined` in the model, while `_.get` and a real accessor see the prototype's value.
- `Config.Env`: `regexTest` is a pure function of the pattern and the value. A `RegExp` with the `g` or `y` flag keeps `lastIndex` between calls, so the same test can answer differently on the next pass; that state is not modelled.
- `Accessors.DetectChainPath`: accessors are read-only expressions (parameter, literal, property read, sequencing). The stand-in's rejected writes, computed keys and `Symbol` keys are not modelled.
- Default messages interpolate integers in decimal. JavaScript's formatting of other numbers is not modelled.
- `createWhitelabelComponent` (an identity cast) and the type-level mappings of `src/types/Form.tsx` have no behaviour to model.
