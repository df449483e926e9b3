# heimdall-contract, modelled in Dafny

heimdall-contract is a schema-driven value holder with a validator, called a
*contract*. A contract class declares a schema: an ordered object whose
entries are either fields (they carry a `dType`) or groups of further
entries. An instance keeps one value per field, nested as the groups are.
Its main operations are:

- it fills those values from loose input (`assign`), with read aliases;
- it serialises them back (`toObject`), with write aliases;
- it validates them (`isValid`) against per-field rules, collecting
  messages in an error tree that mirrors the schema;
- it pushes part of its configuration down to nested contracts
  (`_parseParent`).

The model covers the three files that hold this logic:

| file | Dafny | form |
|---|---|---|
| validations.js: the rule library | `Validations` (validations.dfy) | Functions and truth-table lemmas. The breakers are `allowBlank` and `on`. The normal rules are `dType`, `presence`, `absence`, `isEmail`, `match`, `only`, `strictOnly`, `min` and `max`. The `on` check's loop is a method. |
| index.js: class `Index` | `Heimdall.Index` (heimdall.dfy), a class with fields and loops. Its specification functions are in `Contract` (contract.dfy). Their properties are in `ContractProperties` (contract_properties.dfy). | mixed |
| validation-base.js: the engine | The specification functions are in `ValidationBase` (validation_base.dfy); the class methods that run them are in `Heimdall.Index`. The properties are in `ValidationProperties` (validation_properties.dfy). Where `_validateArray` puts each element's result is in `ArrayProperties` (array_properties.dfy). | imperative |

Supporting modules:

- `JsValues` holds the JavaScript values a contract handles. These are
  undefined, null, booleans, integers, strings, arrays, plain objects,
  ordered object literals (schemas and field configurations), functions,
  regular expressions, contract classes and contract instances. It also
  holds the JavaScript semantics the library relies on: truthiness, `typeof`,
  `===`, `includes`, property access and template-literal text.
- `Paths` holds reading and writing along property paths.
- `Numerals` holds the decimal keys of array positions.
- `Wrappers` holds `Option`.

Each method of the class `Heimdall.Index` changes the instance's fields in
place, and its `ensures` states the new state as a specification function of
the old state (`Snapshot()`). `getValueAtPath` and `toObject` only read the
instance, so they are functions. Nested contracts are values of type
`Instance` held in the parent's fields. The same specification functions
handle them, so the recursion from a parent into a nested contract
terminates by the size of the schema.

Everything outside the library is an `Env` parameter:

- user functions: computed rule configurations, `validate`, `validateIf`,
  error-message functions;
- the hooks `setConfig`, `init`, `initNested` and `initAll`;
- the regular-expression engine and the e-mail pattern.

## Model

| member | source | states |
|---|---|---|
| Validations.OnCheck | validations.js:58-76 | The loop over the validation contexts reports an outbreak exactly when `OnOutbreak` holds. |
| Validations.WithAdditional | validations.js:32-456 | The rules an instance runs are the library's registry plus the class's additions. A class entry wins over a library entry of the same name, and no other name appears. |
| Validations.AllowBlankTruth | validations.js:42-48 | A falsy or undefined (possibly computed) config never triggers. A truthy one always triggers on undefined and null. On a string it triggers iff the string is "", and on an array iff it is []. It never triggers on a number or a boolean. On a contract without a `length` field it triggers iff the contract was assigned empty. |
| Validations.AllowBlankBlanks | validations.js:47 | "" and [] and an empty-assigned contract are blank. "a" and 0 are not. |
| Validations.OnProceeds | validations.js:58-76 | A single context proceeds iff it equals the configured context, is listed in it, or is "matchAnyContext". A list of contexts proceeds iff at least one of them does. An empty list never proceeds. |
| Validations.DTypeTruth | validations.js:88-103 | String, Number and Boolean accept exactly their own kind. Generic accepts everything. Array accepts arrays and rejects primitives and nullish values. An unknown tag rejects everything. |
| Validations.PresenceTruth | validations.js:129-148 | A falsy requirement passes. Otherwise a String must be non-empty, a Number or Boolean must be of its kind, a Generic value must be neither undefined nor null, an Array must be non-empty, and an unknown tag fails. |
| Validations.AbsenceTruth | validations.js:173-179 | Passes iff not required, or the value is undefined, null or of zero length. |
| Validations.PatternRules | validations.js:204-256 | isEmail follows the e-mail pattern when required and its negation otherwise. match fails for a non-regex config and otherwise follows the regex. Their message texts. |
| Validations.ChoicesAcceptEmpty | validations.js:268-333 | only and strictOnly accept every empty value. |
| Validations.OnlyList | validations.js:268-279 | With a list: a scalar passes iff listed, and an array passes iff every element is listed. |
| Validations.StrictOnlyList | validations.js:320-333 | With a list on an Array or Generic field the value must equal the whole list. On other fields it must be listed. |
| Validations.BoundsTruth | validations.js:375-429 | min and max are inclusive bounds: on length for String and Array, on value for Number. Every other pairing of tag and value passes. |
| Validations.DTypeMessageText | validations.js:110-120 | The dType text for the value 5 and the type String is `"5" is not a valid String`. |
| Validations.FixedMessages | validations.js:154-195 | The texts "not present" and "must be absent". |
| Validations.OnlySingleMessage | validations.js:305-310 | A one-element list reads `must be "a"`, as does a scalar. |
| Validations.OnlyListMessage | validations.js:305-310 | A longer list reads `must be "a,b" or "c"`. |
| Validations.MinMessages | validations.js:392-410 | The min texts for String, Array and Number. A Boolean tag has no text (undefined). |
| Validations.MaxMessages | validations.js:435-453 | The max texts for String, Array and Number. A Boolean tag has no text (undefined). |
| ValidationBase.GetGenericErrorMessage | validation-base.js:194-201 | The generic message is "Field invalid!". |
| ValidationBase.ValidationNames | validation-base.js:80 | A name is a validation name of a field iff it is one of its configuration keys and not in the non-validation list. |
| ValidationBase.ValidationNamesAppend | validation-base.js:80 | Filtering the keys `a + b` gives the filtered `a` followed by the filtered `b`, so the names keep the configuration keys' order. |
| ValidationBase.AfterAppend | validation-base.js:154-172 | Running the breakers over two lists one after the other is running them over the joined list. |
| ValidationBase.CheckBreakers | validation-base.js:154-172 | The loop returns exactly `Breakers(...)`: the first triggering breaker or false `validateIf` ends the field, and otherwise the used breaker names are returned. |
| ValidationBase.BreakersFind | validation-base.js:154-172 | The field is skipped iff some name triggers. When none does, the used names are exactly its registered breakers and `validateIf`. |
| ValidationBase.ErrorMessageForOtherRule | validation-base.js:174-191 | Without an `errorMessage`, or with an `errorMessage` object that has neither an entry for the rule nor a `default`, the message is the rule's own message for the configured value. |
| ValidationBase.NormalStep | validation-base.js:115-140 | One name changes only `isValidState`. It changes nothing if no message results, and it clears validity if one does. |
| ValidationBase.RunNormalFromIsRunNormal | validation-base.js:115-142 | Running the names from position i, with the messages so far carried along, ends in the same state as running the rest of the names from there. The messages are the ones carried plus the ones the rest produce, in loop order. |
| ValidationBase.RunNormalValidity | validation-base.js:115-142 | A field's normal rules change only validity. They change it exactly when some message was produced, and then to false. |
| ValidationBase.UnknownNameIgnored | validation-base.js:115-150 | A name that is neither a registered rule nor `validate` adds nothing and changes nothing. |
| ValidationBase.ValidateCallback | validation-base.js:127-140 | `validate` returning true adds nothing. False adds "Field invalid!". Any other result is appended as the message. |
| ValidationBase.IsValidSpec | index.js:76-80 | `isValid(context)` stores the context. Its answer is a boolean, and when it is true the error tree is empty. Only data, errors, validity and context change. |
| ValidationBase.ValidateScope | validation-base.js:8-22 | The walk changes only data, errors and validity. Validity only ever becomes false, and while it stays true no error is written. |
| ValidationBase.ValidateEntry | validation-base.js:10-20 | Same guarantee for one key of the walk. |
| ValidationBase.ValidateProperty | validation-base.js:78-151 | Same guarantee for one field. |
| ValidationBase.ValidateNested | validation-base.js:103-113 | Same guarantee for a Contract field. |
| ValidationBase.ValidateArray | validation-base.js:24-70 | The frame for an array's elements: only data, errors and validity change, and validity only becomes false. Where each element's outcome lands is stated by `ArrayProperties.ArrayScalarMessages` and `ArrayProperties.ArrayContractElement`. |
| ValidationBase.ValidateScalarElements | validation-base.js:30-40 | The frame for the scalar loop. The outcome of each element is stated by `ArrayProperties.ScalarElementMessages`. |
| ValidationBase.ValidateContractElements | validation-base.js:42-68 | The frame for the contract loop. The outcome of each element is stated by `ArrayProperties.ContractElementResult`. |
| ValidationBase.ValidateElement | validation-base.js:43-67 | The frame for one contract element. Whether it is skipped or checked is stated by `ArrayProperties.ElementOutcome`. |
| ValidationBase.CheckElement | validation-base.js:53-67 | The frame for an element past its inner breakers. What it stores and writes is stated by `ArrayProperties.CheckElementOutcome`. |
| ValidationBase.ElementContract | validation-base.js:56-61 | The contract an element is checked as has the declared schema. A contract element is used as it is. |
| ValidationProperties.BreakerSkipsField | validation-base.js:94-95 | A field one of whose breakers fires is left exactly as it was. |
| ValidationProperties.RuleStep | validation-base.js:115-124 | A registered rule that passes adds nothing. One that fails adds exactly its one message, as chosen by `getErrorMessageFor`, and clears validity. |
| ValidationProperties.MessagesInOrder | validation-base.js:115-141 | The messages for `a + b` are the messages for `a` followed by those for `b`, so messages follow configuration-key order. |
| ValidationProperties.KeyOrderMessages | validation-base.js:80-141 | For configuration keys `a + b`, the messages are those of the keys `a` followed by those of the keys `b`. |
| ValidationProperties.ErrorMessageOnlyText | validation-base.js:115-141 | Changing only `errorMessage` changes neither a field's validity nor the number of its messages, only their text. |
| ValidationProperties.MessagesWritten | validation-base.js:145-146 | A scalar field with messages is invalid and has exactly those messages at `errors.<path>.messages`. A field without messages leaves the contract unchanged. |
| ValidationProperties.NestedDelegation | validation-base.js:103-113 | A Contract field holds the validated nested contract afterwards. The parent is unaffected iff the nested contract passes. Otherwise the parent is invalid and holds the nested error tree at the field's path. |
| ValidationProperties.ScalarElementConfig | validation-base.js:33-35 | Scalar elements are checked against `innerValidate` with `dType` set to `arrayOf` and every other key unchanged. |
| ValidationProperties.SetUnderNonEmpty | validation-base.js:146 | Writing an error below a field leaves a non-empty error object. |
| ValidationProperties.PropertyKeepsErrorsMatch | validation-base.js:78-151 | Validating a field preserves: errors is an object that is non-empty once validity is false. |
| ValidationProperties.EntryKeepsErrorsMatch | validation-base.js:10-20 | The same invariant for one key of the walk. |
| ValidationProperties.CheckKeepsErrorsMatch | validation-base.js:53-67 | The same invariant for an element past its inner breakers. |
| ValidationProperties.ScalarElementsKeepErrorsMatch | validation-base.js:38-40 | The same invariant across scalar elements. |
| ValidationProperties.ElementKeepsErrorsMatch | validation-base.js:43-67 | The same invariant for one contract element. |
| ValidationProperties.ContractElementsKeepErrorsMatch | validation-base.js:42-68 | The same invariant across contract elements. |
| ValidationProperties.ArrayKeepsErrorsMatch | validation-base.js:24-70 | The same invariant for an array. |
| ValidationProperties.ScopeKeepsErrorsMatch | validation-base.js:8-22 | The same invariant for the whole walk. |
| ValidationProperties.IsValidIffNoErrors | index.js:76-80 | `isValid` answers true iff the error tree it leaves is empty. |
| Contract.Prelude | index.js:24-44 | Before `_define`: the schema comes from the options if given, else from the class. Data is empty and errors are undefined. The rules are the registry plus the class's. `initNested` and `initAll` come from the options if given, else from the class. |
| Contract.NewInstance | index.js:16-49 | A new contract has the chosen schema, undefined validity and `isAssignedEmpty` false. |
| Contract.Construct | index.js:265-273 | A nested contract built from a class or a bare schema has that schema. |
| Contract.DefineScope | index.js:212-221 | `_define` changes only data and errors. |
| Contract.DefineEntry | index.js:214-219 | One key of `_define` changes only data and errors. |
| Contract.DefineProperty | index.js:229-244 | One field of `_define` changes only data and errors. What it writes is stated by `ContractProperties.DefinePropertyEffect`. |
| Contract.FieldDefault | index.js:229-241 | A Contract field gets a fresh contract of its declared schema. |
| Contract.DefaultEmptyValueFor | index.js:253-277 | Contract gives a fresh contract of the given schema. Every other tag gives the scalar default. |
| Contract.NewNested | index.js:265-273 | A nested contract has the schema of its definition. |
| Contract.RecFields | index.js:293-296 | Spreading an object literal gives exactly its keys. |
| Contract.ParseParent | index.js:287-298 | `_parseParent` copies `localizationMethod` and `i18next` and keeps schema, data and errors. |
| Contract.ParseParentMerges | index.js:292-297 | After `_parseParent` the child sees every parent `params.all` key and keeps its own keys' values. Nothing else appears, and other parameters are unchanged. |
| Contract.ParseParentIdempotent | index.js:287-298 | Pushing the same parent configuration twice is pushing it once. |
| Contract.AssignInstance | index.js:89-129 | `assign` changes only data and `isAssignedEmpty`. |
| Contract.AssignScope | index.js:96-128 | The loop over a schema level changes only data. |
| Contract.AssignEntry | index.js:97-127 | One key changes only data. |
| Contract.AssignArray | index.js:105-115 | The array loop changes only data. |
| Contract.AssignNested | index.js:117-121 | Assigning into a Contract field changes only data. |
| Contract.ToObject | index.js:160-197 | `toObject` builds a plain object. |
| Contract.RenderElements | index.js:168-185 | The rendered array has one entry per element, and scalar elements are rendered as they are. |
| Contract.RenderElement | index.js:172-174 | A scalar element is rendered as it is. |
| ContractProperties.EmptyValues | index.js:254-264 | The empty values are "" for String, null for Number, undefined for Boolean, null for Generic and [] for Array. |
| ContractProperties.ConstructIsNewInstance | index.js:265-271 | A nested contract is constructed exactly as `new` would construct it. |
| ContractProperties.DefineScopeFrame | index.js:212-221 | `_define` below a top-level key leaves the other keys alone. |
| ContractProperties.DefineEntryEffect | index.js:213-220 | One key of `_define` gives a field its default and leaves every other top-level key alone. |
| ContractProperties.DefinePropertyEffect | index.js:229-244 | A field reads its default at its path. Every path that branches off it keeps its value. Where the error tree reaches the path, `errors.<path>` reads undefined. |
| ContractProperties.DefineCreatesErrors | index.js:243 | On a contract with no error tree yet, `_define` creates one in which the field's entry reads undefined. |
| ContractProperties.DefineTopLevel | index.js:212-244 | Every top-level field holds its default: a fresh contract, the configured `default`, or its type's empty value, an unknown tag counting as Generic. Other keys are kept. |
| ContractProperties.NewInstanceDefaults | index.js:16-49 | After `new`, every top-level field holds its default. |
| ContractProperties.AssignEmpty | index.js:90-94 | `assign("")` and `assign(undefined)` only set `isAssignedEmpty`. |
| ContractProperties.AssignArrayFrame | index.js:104-116 | The array loop leaves other top-level keys alone. |
| ContractProperties.AssignEntryFrame | index.js:97-127 | One key of `assign` leaves other top-level keys alone. |
| ContractProperties.AssignNestedFrame | index.js:117-121 | Assigning a Contract field leaves other top-level keys alone. |
| ContractProperties.AssignEntryStep | index.js:97-127 | One key of `assign` gives that key its assigned value and leaves every other top-level key alone. |
| ContractProperties.AssignScopeFrame | index.js:96-128 | A nested level of `assign` leaves other top-level keys alone. |
| ContractProperties.ArrayAssigned | index.js:104-108 | A filled array is as long as the longer of the old array and the input. |
| ContractProperties.AssignArrayPositions | index.js:104-108 | From index j on, input positions get the input element, or the type's empty value when falsy. Later positions keep theirs. |
| ContractProperties.AssignArrayField | index.js:104-108 | A scalar array field after `assign` is exactly `ArrayAssigned(old, input)`. |
| ContractProperties.AssignEntryEffect | index.js:97-124 | An input without the field's read key keeps the old value. A scalar field takes the input value. A scalar array is filled by position. |
| ContractProperties.AssignTopLevel | index.js:96-128 | Every top-level field is assigned that way, and keys outside the schema keep their values. |
| ContractProperties.AssignFields | index.js:89-129 | Every top-level field of the schema is assigned from its read key. |
| ContractProperties.RenderFlat | index.js:160-197 | On a level of scalar fields, `toObject` puts each field's value under its write key and adds no other key. |
| ContractProperties.RenderScalarStep | index.js:189-190 | One scalar field is rendered under its write key. |
| ContractProperties.GetOne | index.js:149-151 | Reading a one-key path reads that property. |
| ContractProperties.AssignThenRender | index.js:89-197 | After `assign`, `toObject` puts each input value, read under the read key, under the write key. |
| ContractProperties.UnaliasedKeys | index.js:98 | Without `as`, `parseAs` or `renderAs`, a field is read and written under its own name. |
| ContractProperties.AssignToObjectRoundTrip | index.js:89-197 | For a flat unaliased schema and an input with exactly its keys, none undefined, `toObject(assign(input))` returns the input. |
| Heimdall.Index.constructor | index.js:16-49 | The constructor's fields equal `NewInstance`. |
| Heimdall.Index.Define | index.js:212-221 | The loop leaves the state `DefineScope` describes. |
| Heimdall.Index.DefineProperty | index.js:229-244 | The state `Contract.DefineProperty` describes. |
| Heimdall.Index.SetValueAtPath | index.js:139-141 | An "errors" path writes into the error tree and any other path into the fields. A written field reads back as written, intermediate objects are created, and values at paths that branch off are unchanged. |
| Heimdall.Index.ParseParent | index.js:287-298 | The state `Contract.ParseParent` describes. |
| Heimdall.Index.Assign | index.js:89-129 | The state `AssignInstance` describes. |
| Heimdall.Index.AssignLevel | index.js:96-128 | The loop over a schema level leaves the state `AssignScope` describes. |
| Heimdall.Index.AssignArrayField | index.js:104-116 | The element loop leaves the state `AssignArray` describes. |
| Heimdall.Index.IsValid | index.js:76-80 | The state `IsValidSpec` describes. The answer is true iff `isValidState` is true, and then the error tree is empty. |
| Heimdall.Index.Validate | validation-base.js:8-22 | The loop leaves the state `ValidateScope` describes. |
| Heimdall.Index.ValidateEntry | validation-base.js:10-20 | The state `ValidationBase.ValidateEntry` describes. |
| Heimdall.Index.ValidateProperty | validation-base.js:78-151 | The state `ValidationBase.ValidateProperty` describes. |
| Heimdall.Index.ValidateNested | validation-base.js:103-113 | The state `ValidationBase.ValidateNested` describes. |
| Heimdall.Index.RunRules | validation-base.js:115-142 | The loop returns the messages, and leaves the state, that `RunNormal` describes. |
| Heimdall.Index.RunRule | validation-base.js:116-140 | One configuration key changes only `isValidState`, and returns the messages, as `NormalStep` describes. |
| Heimdall.Index.ValidateArray | validation-base.js:24-70 | The loops leave the state `ValidationBase.ValidateArray` describes. So each element's outcome is as `ArrayProperties.ArrayScalarMessages` and `ArrayProperties.ArrayContractElement` state. |
| Heimdall.Index.ValidateElement | validation-base.js:43-67 | The state `ValidationBase.ValidateElement` describes, so the element is skipped or checked as `ArrayProperties.ElementOutcome` states. |
| Heimdall.Index.CheckElement | validation-base.js:53-67 | The state `ValidationBase.CheckElement` describes, so the element is stored and its errors written as `ArrayProperties.CheckElementOutcome` states. |
| Heimdall.Index.StoreChecked | validation-base.js:63-67 | The validated element is stored at its index. When it fails, validity is cleared and its errors are written under the index. |
| ArrayProperties.PropertyErrorsFrame | validation-base.js:78-151 | Validating a field leaves every error path that branches off the field as it was, and writable. |
| ArrayProperties.ScalarStepKeepsWritable | validation-base.js:38-40 | Checking a scalar element keeps the error paths of the later elements writable. |
| ArrayProperties.ScalarElementsKeep | validation-base.js:38-40 | Later scalar elements leave alone what an earlier element wrote in the error tree. |
| ArrayProperties.ScalarElementMessages | validation-base.js:33-40 | A scalar element with messages leaves the contract invalid and exactly its messages at `errors.<path>.i.messages`, after all later elements are checked. |
| ArrayProperties.ArrayScalarMessages | validation-base.js:24-40 | The same for element i of the whole `_validateArray`, reached after the elements before it. |
| ArrayProperties.ElementOutcome | validation-base.js:45-53 | A contract element is skipped iff one of the `innerValidate` keys is a breaker that fires (or it is a contract of another schema). Otherwise it is checked as a contract, and no other `innerValidate` rule runs. |
| ArrayProperties.CheckElementOutcome | validation-base.js:53-67 | The checked element is stored at its index as the validated contract. It has the declared schema and the parent's validation context. A passing element leaves validity and errors as they were. A failing one clears validity and leaves its error tree at `errors.<path>.i`. |
| ArrayProperties.CheckElementFrame | validation-base.js:53-67 | Checking element i leaves every other element, and every error path below another element, as it was. |
| ArrayProperties.ElementFrame | validation-base.js:43-67 | The same frame for one element of the loop, whether skipped or checked. |
| ArrayProperties.ElementStepKeepsWritable | validation-base.js:42-68 | One element keeps the array in place and the later elements' error paths writable. |
| ArrayProperties.ContractElementsKeep | validation-base.js:42-68 | Later contract elements leave an earlier element, and its error tree, as it was. |
| ArrayProperties.ContractElementResult | validation-base.js:42-68 | A contract element that is not skipped is, after all later elements, stored at its index as the validated contract of the declared schema. If it failed, the contract is invalid and holds its error tree at `errors.<path>.i`. |
| ArrayProperties.ArrayContractElement | validation-base.js:24-68 | The same for element i of the whole `_validateArray`, reached after the elements before it. |
| Paths.RecPut | index.js:140 | Writing a key of an object literal makes it read as written. |
| Paths.RecPutKeepsOthers | index.js:140 | Writing a key of an object literal leaves the other keys alone. |
| Paths.PutKeepsOthers | index.js:140 | Writing a non-index key leaves the other keys alone. |
| Paths.EmptyObjectWritable | index.js:139-141 | Every path into an empty object is writable. |
| Paths.GetSet | index.js:139-151 | `getValueAtPath` after `setValueAtPath` on the same non-empty path returns the written value, creating missing intermediates. |
| Paths.SetKeepsObject | index.js:139-141 | Writing keeps a plain object a plain object. |
| Paths.SetKeepsSiblings | index.js:139-151 | A write leaves every value at a path that branches off the written one unchanged. |
| Paths.WritableParent | index.js:139-141 | A path that is writable down to a key is writable down to its parent. |
| Paths.SetKeepsPathWritable | index.js:139-141 | After a write, the written path is still writable. |
| Paths.SetKeepsSiblingWritable | index.js:139-141 | A write keeps every path that branches off it writable. |
| Paths.GetAppend | index.js:149-151 | Reading one key further reads that property of the value found so far. |
| Paths.SetAppend | index.js:139-141 | Writing one key below an existing object is writing that object with the key put. |
| Paths.ArrayElementSet | validation-base.js:60 | Writing element i of an array keeps the array in place, and the element reads back as written. |
| Paths.ArrayElementKeep | validation-base.js:60 | Writing element i of an array leaves every other defined element as it was. |
| Paths.PutIndex | index.js:108 | Writing array element i puts the value at i and keeps the other positions. A gap before i reads as undefined. |
| Numerals.NatStrCanonical | index.js:108 | The text of an array index is a canonical decimal and denotes that index. |
| Numerals.ParseNatStr | index.js:108 | The text of an index parses back to the index. |
| Numerals.NatStrParse | validation-base.js:66 | A canonical decimal key is the text of the index it denotes. |
| Numerals.NatStrInjective | validation-base.js:66 | Different indices have different keys. |
| JsValues.IncludesSingleton | validations.js:62 | `[x].includes(y)` iff `x === y`. |

## Left out

- Source drift: the shown `isValid` (index.js:76-80) takes no context and keeps earlier errors. Yet validations.js:66-72 and validation-base.js:64,107 read `_validationContext`. The model's `isValid(context)` stores the context, starts from an empty error tree, sets `isValidState` to true and then walks. This follows the code that reads the context, not the shown `isValid`.
- Source drift: `_validations` is read (validation-base.js:116,157,188) but never assigned in index.js. The model takes it as the library registry merged with the class's additional rules, the class winning (`WithAdditional`).
- The `check` calling convention differs between validation-base.js:117 (positional) and validations.js (one destructured object). The model uses one signature: value, configuration, dType, path, contract.
- Regular expressions: the e-mail pattern of `isEmail` and the `RegExp` of `match` are the `Env` predicates `emailTest` and `regexTest`. A `match` configuration that is not a regular expression, which throws in JavaScript, fails the rule.
- Localisation: only the Internal method is modelled. The `i18next` branches and every `customLocalization` branch are not part of this model.
- Console diagnostics (`console.error`, `console.warn`) have no effect on the contract and are not modelled.
- User callbacks and hooks are opaque functions of `Env`. A hook only transforms the contract configuration; `this` binding, `defineSchema` and class-inheritance schema spreads are not modelled.
- Numbers are integers and strings are sequences of characters. Template-literal text follows `String(v)` for undefined, null, booleans, integers, strings and arrays; objects read "[object Object]", and functions, classes and regular expressions read as fixed placeholders.
- strictOnly's `JSON.stringify` comparison is structural equality of values.
- Runtime throws: reading through undefined or null gives `None`, and the walks then read undefined. A write into a primitive or into a contract changes nothing. An array validation on a field whose value is not an array checks no elements. A nested Contract field that holds something other than a contract of its declared schema is not descended into. An element of a contract array that is a contract of another schema is skipped; any other non-contract element is materialised as a contract of the declared schema.
- `validateArray` writes `dType` into the schema's `innerValidate` (validation-base.js:34-35). The model builds the same configuration afresh and leaves the schema unchanged.
- Object spreads (`...`) are modelled for plain objects and object literals; spreading anything else gives no keys.
- Features absent from the shown source are not modelled: `toHash`, list-valued aliases, and `arrayOf`-less arrays.
- Schema keys that collide with contract members (`errors`, `schema`, method names) are not modelled; fields live in their own `data` tree and the error tree in `errors`.
- `getValueAtPath` and `toObject` are functions of the class; their properties are stated through `SetValueAtPath`, `Paths.GetSet` and the rendering lemmas rather than through contracts of their own.
- ContractProperties.NewInstanceDefaults: states the defaults of top-level fields only, not of fields inside groups.
- ContractProperties.AssignFields: states the effect on top-level fields only; groups and Contract fields are covered only by the frame and state-shape contracts.
- ContractProperties.AssignToObjectRoundTrip: proved for a single level of scalar fields without aliases; arrays, groups and nested contracts are not covered.
- ValidationProperties.MessagesWritten: requires the error tree to be writable along the field's path, which holds for the trees validation itself builds but is not proved for arbitrary prior state.
- ValidationProperties.NestedDelegation: requires the field's data and error paths to be writable plain-object paths.
- Key order: `toObject`'s output and the error tree are plain maps (`Obj`), so the model does not keep the schema's key order in them (index.js:160-197, validation-base.js:146). Schemas and field configurations keep their order, so rules still run in configuration-key order.
- Shared `default` objects: index.js:236-238 stores the configured `default` itself, so a later `assign` that writes array positions (index.js:108) mutates the schema's default shared by every instance. The model's values are immutable: each instance gets its own copy, and that sharing is not modelled.
- Non-function callbacks: a `validate` or `validateIf` that is not a function throws in JavaScript (validation-base.js:128, 166). The model's `CallConfigured` reads undefined for it instead, so `validateIf: true` skips the field and `validate: true` appends undefined as a message.
- ArrayProperties.ArrayScalarMessages: requires the elements' `messages` error paths to be writable and `innerValidate` to be an object literal. It states the outcome only for an element whose breakers do not fire.
- ArrayProperties.ArrayContractElement: requires the array's data path and its elements' error paths to be writable. The outcome of a passing element's error tree is stated only by `CheckElementOutcome` (errors unchanged).
