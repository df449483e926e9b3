// The validation engine of validation-base.js, as functions on a contract's
// state: the walk over the schema (`validate`), one field (`validateProperty`),
// the breakers (`checkBreakers`), array elements (`validateArray`) and the
// choice of message (`getErrorMessageFor`, `getGenericErrorMessage`).
// Validation only ever clears `isValidState`, writes the error tree and, for
// nested contracts, updates them where they are stored in the parent's data.
module ValidationBase {
  import opened Wrappers
  import opened Numerals
  import opened JsValues
  import opened Paths
  import opened Validations
  import opened Contract

  /** validation-base.js:199. */
  const GenericErrorMessage: Value := Str("Field invalid!")

  /** `getGenericErrorMessage()` (validation-base.js:194-201). */
  function GetGenericErrorMessage(): (r: Value)
    ensures r == Str("Field invalid!")
  {
    GenericErrorMessage
  }

  /** A user function stored in a field's configuration (`validate`,
    * `validateIf`), called as `f(value, contract, dType, depth)`. A value that
    * is not a function reads undefined. */
  function CallConfigured(env: Env, f: Value, s: Subject): Value
  {
    if f.Fn? then CallUser(env, f.fid, s) else Undefined
  }

  /** The configuration keys of a field that name validations
    * (validation-base.js:80), in order. */
  function ValidationNames(keys: seq<string>): (r: seq<string>)
    ensures forall n :: n in r <==> n in keys && n !in NonValidationConfigs
    ensures |r| <= |keys|
  {
    if |keys| == 0 then []
    else (if keys[0] in NonValidationConfigs then [] else [keys[0]]) + ValidationNames(keys[1..])
  }

  /** The names keep the order of the configuration keys: the names of two
    * runs of keys are the names of the first followed by those of the second. */
  lemma {:induction false} ValidationNamesAppend(a: seq<string>, b: seq<string>)
    ensures ValidationNames(a + b) == ValidationNames(a) + ValidationNames(b)
    decreases |a|
  {
    if |a| == 0 {
      assert a + b == b;
    } else {
      assert (a + b)[0] == a[0] && (a + b)[1..] == a[1..] + b;
      ValidationNamesAppend(a[1..], b);
    }
  }

  /** A single key is a name unless it is a non-validation key. */
  lemma ValidationNamesOne(k: string)
    ensures ValidationNames([k]) == if k in NonValidationConfigs then [] else [k]
  {
    assert [k][1..] == [];
  }

  // ---------------------------------------------------------------------------
  //  checkBreakers (validation-base.js:154-172)
  // ---------------------------------------------------------------------------

  datatype BreakerResult = Outbreak | Proceed(used: seq<string>)

  /** Breaker `name` ends the field's validation: a registered breaker whose
    * check holds, or a `validateIf` whose function answers falsy. */
  predicate Triggers(env: Env, name: string, cfg: Value, s: Subject)
  {
    var breaker := s.contract.rules.breaker;
    (name in breaker && Check(env, name, breaker[name], Prop(cfg, name), s)) ||
    (name == "validateIf" && !Truthy(CallConfigured(env, Prop(cfg, name), s)))
  }

  /** What a name that did not trigger adds to `usedBreakers`. */
  function UsedBy(name: string, s: Subject): seq<string>
  {
    (if name in s.contract.rules.breaker then [name] else []) + (if name == "validateIf" then [name] else [])
  }

  /** `used` followed by what the remaining names do. */
  function After(used: seq<string>, rest: BreakerResult): BreakerResult
  {
    match rest
    case Outbreak => Outbreak
    case Proceed(u) => Proceed(used + u)
  }

  lemma AfterAppend(a: seq<string>, b: seq<string>, rest: BreakerResult)
    ensures After(a, After(b, rest)) == After(a + b, rest)
  {
    if rest.Proceed? {
      assert a + (b + rest.used) == (a + b) + rest.used;
    }
  }

  /** `checkBreakers` over `names`. */
  function Breakers(env: Env, names: seq<string>, cfg: Value, s: Subject): BreakerResult
    decreases |names|
  {
    if |names| == 0 then Proceed([])
    else if Triggers(env, names[0], cfg, s) then Outbreak
    else After(UsedBy(names[0], s), Breakers(env, names[1..], cfg, s))
  }

  /** The loop of validation-base.js:155-171; `on` is checked by its own
    * search loop. */
  method CheckBreakers(env: Env, names: seq<string>, cfg: Value, s: Subject) returns (r: BreakerResult)
    ensures r == Breakers(env, names, cfg, s)
  {
    var used: seq<string> := [];
    var i := 0;
    while i < |names|
      invariant 0 <= i <= |names|
      invariant Breakers(env, names, cfg, s) == After(used, Breakers(env, names[i..], cfg, s))
    {
      var name := names[i];
      var before := used;
      assert names[i..][0] == name && names[i..][1..] == names[i + 1..];
      var breaker := s.contract.rules.breaker;
      if name in breaker {
        var hit: bool;
        if breaker[name] == On {
          hit := OnCheck(Prop(cfg, name), s.contract.validationContext);
        } else {
          hit := Check(env, name, breaker[name], Prop(cfg, name), s);
        }
        if hit {
          return Outbreak;
        }
        used := used + [name];
      }
      if name == "validateIf" {
        if !Truthy(CallConfigured(env, Prop(cfg, name), s)) {
          return Outbreak;
        }
        used := used + [name];
      }
      assert used == before + UsedBy(name, s);
      AfterAppend(before, UsedBy(name, s), Breakers(env, names[i + 1..], cfg, s));
      i := i + 1;
    }
    assert names[i..] == [];
    return Proceed(used);
  }

  /** The breakers end a field exactly when one of its names triggers; when
    * none does, `usedBreakers` holds exactly the breaker names among them. */
  lemma {:induction false} BreakersFind(env: Env, names: seq<string>, cfg: Value, s: Subject)
    ensures Breakers(env, names, cfg, s).Outbreak? <==>
      exists j :: 0 <= j < |names| && Triggers(env, names[j], cfg, s)
    ensures Breakers(env, names, cfg, s).Proceed? ==>
      forall n :: n in Breakers(env, names, cfg, s).used <==>
        n in names && (n in s.contract.rules.breaker || n == "validateIf")
    decreases |names|
  {
    if |names| > 0 {
      BreakersFind(env, names[1..], cfg, s);
      if exists j :: 0 <= j < |names| && Triggers(env, names[j], cfg, s) {
        var j :| 0 <= j < |names| && Triggers(env, names[j], cfg, s);
        if j > 0 {
          assert names[1..][j - 1] == names[j];
        }
      }
      if !Triggers(env, names[0], cfg, s) && Breakers(env, names[1..], cfg, s).Outbreak? {
        var j :| 0 <= j < |names| - 1 && Triggers(env, names[1..][j], cfg, s);
        assert names[j + 1] == names[1..][j];
      }
      forall n | n in names ensures n == names[0] || n in names[1..] {
        var j :| 0 <= j < |names| && names[j] == n;
        if j > 0 {
          assert names[1..][j - 1] == n;
        }
      }
    }
  }

  // ---------------------------------------------------------------------------
  //  getErrorMessageFor (validation-base.js:174-192)
  // ---------------------------------------------------------------------------

  /** An error-message function, called as `f(value, contract, name, dType, depth, scope)`. */
  function CallMessage(env: Env, f: nat, name: string, s: Subject): Value
  {
    env.call(f, Call(s.value, Undefined, s.contract, s.dType, s.depth, name))
  }

  /** The message for a failing normal rule: the field's `errorMessage` text
    * or function, else its entry for the rule, else its `default` entry,
    * else the rule's own message. */
  function GetErrorMessageFor(env: Env, cfg: Value, name: string, rule: Rule, s: Subject): Value
  {
    var em := Prop(cfg, "errorMessage");
    var forRule := Prop(em, name);
    var fallback := Prop(em, "default");
    if em.Str? then em
    else if em.Fn? then CallMessage(env, em.fid, name, s)
    else if forRule.Str? then forRule
    else if forRule.Fn? then CallMessage(env, forRule.fid, name, s)
    else if fallback.Str? then fallback
    else if fallback.Fn? then CallMessage(env, fallback.fid, name, s)
    else Message(env, name, rule, Prop(cfg, name), s)
  }

  /** An `errorMessage` object that names neither the rule nor `default`
    * leaves the rule its own message; so does a field without `errorMessage`. */
  lemma ErrorMessageForOtherRule(env: Env, cfg: Value, name: string, rule: Rule, s: Subject)
    requires var em := Prop(cfg, "errorMessage");
      em == Undefined || (em.Rec? && name !in Keys(em.entries) && "default" !in Keys(em.entries))
    ensures GetErrorMessageFor(env, cfg, name, rule, s) == Message(env, name, rule, Prop(cfg, name), s)
  {
    var em := Prop(cfg, "errorMessage");
    if em.Rec? {
      LookupInMissing(em.entries, name);
      LookupInMissing(em.entries, "default");
    }
  }

  /** A key missing from an object literal reads undefined. */
  lemma LookupInMissing(entries: seq<(string, Value)>, k: string)
    requires k !in Keys(entries)
    ensures LookupIn(entries, k) == Undefined
  {
    LookupInFound(entries, k);
  }

  // ---------------------------------------------------------------------------
  //  Normal validations (validation-base.js:114-141)
  // ---------------------------------------------------------------------------

  /** One configuration key of a field: its registered normal rule, if any,
    * then the `validate` callback if the key is "validate". Returns the
    * contract and the messages the key adds. */
  function NormalStep(env: Env, inst: Instance, name: string, cfg: Value, depth: Path, value: Value, dType: Value): (r: (Instance, seq<Value>))
    ensures r.0 == inst.(isValidState := r.0.isValidState)
    ensures |r.1| == 0 ==> r.0 == inst
    ensures |r.1| > 0 ==> r.0.isValidState == Bool(false)
  {
    var s := Subject(value, dType, depth, inst);
    var normal := inst.rules.normal;
    var ruled :=
      if name in normal && !Check(env, name, normal[name], Prop(cfg, name), s) then
        (inst.(isValidState := Bool(false)), [GetErrorMessageFor(env, cfg, name, normal[name], s)])
      else (inst, []);
    if name == "validate" then
      var mid := ruled.0;
      var res := CallConfigured(env, Prop(cfg, name), Subject(value, dType, depth, mid));
      if res == Bool(true) then ruled
      else (mid.(isValidState := Bool(false)), ruled.1 + [if res == Bool(false) then GetGenericErrorMessage() else res])
    else ruled
  }

  /** The loop over a field's validation names. */
  function RunNormal(env: Env, inst: Instance, names: seq<string>, cfg: Value, depth: Path, value: Value, dType: Value): (r: (Instance, seq<Value>))
    decreases |names|
  {
    if |names| == 0 then (inst, [])
    else
      var (mid, first) := NormalStep(env, inst, names[0], cfg, depth, value, dType);
      var (last, rest) := RunNormal(env, mid, names[1..], cfg, depth, value, dType);
      (last, first + rest)
  }

  /** The loop over a field's validation names, one name further on. */
  lemma RunNormalStep(env: Env, inst: Instance, names: seq<string>, i: nat, cfg: Value, depth: Path, value: Value, dType: Value)
    requires i < |names|
    ensures var step := NormalStep(env, inst, names[i], cfg, depth, value, dType);
      var rest := RunNormal(env, step.0, names[i + 1..], cfg, depth, value, dType);
      RunNormal(env, inst, names[i..], cfg, depth, value, dType) == (rest.0, step.1 + rest.1)
  {
    assert names[i..][0] == names[i] && names[i..][1..] == names[i + 1..];
  }

  /** The same loop with the messages collected so far, in the order the
    * loop visits the names. */
  function RunNormalFrom(env: Env, inst: Instance, names: seq<string>, i: nat, cfg: Value, depth: Path, value: Value, dType: Value, acc: seq<Value>): (Instance, seq<Value>)
    requires i <= |names|
    decreases |names| - i
  {
    if i == |names| then (inst, acc)
    else
      var step := NormalStep(env, inst, names[i], cfg, depth, value, dType);
      RunNormalFrom(env, step.0, names, i + 1, cfg, depth, value, dType, acc + step.1)
  }

  lemma {:induction false} RunNormalFromIsRunNormal(env: Env, inst: Instance, names: seq<string>, i: nat, cfg: Value, depth: Path, value: Value, dType: Value, acc: seq<Value>)
    requires i <= |names|
    ensures var r := RunNormal(env, inst, names[i..], cfg, depth, value, dType);
      RunNormalFrom(env, inst, names, i, cfg, depth, value, dType, acc) == (r.0, acc + r.1)
    decreases |names| - i
  {
    if i == |names| {
      assert names[i..] == [];
      assert acc + [] == acc;
    } else {
      RunNormalStep(env, inst, names, i, cfg, depth, value, dType);
      var step := NormalStep(env, inst, names[i], cfg, depth, value, dType);
      RunNormalFromIsRunNormal(env, step.0, names, i + 1, cfg, depth, value, dType, acc + step.1);
      var rest := RunNormal(env, step.0, names[i + 1..], cfg, depth, value, dType);
      assert (acc + step.1) + rest.1 == acc + (step.1 + rest.1);
    }
  }

  /** Running a field's normal rules only ever clears `isValidState`, and
    * clears it exactly when some message was produced. */
  lemma {:induction false} RunNormalValidity(env: Env, inst: Instance, names: seq<string>, cfg: Value, depth: Path, value: Value, dType: Value)
    ensures var r := RunNormal(env, inst, names, cfg, depth, value, dType);
      r.0 == inst.(isValidState := r.0.isValidState) &&
      (|r.1| == 0 ==> r.0 == inst) &&
      (|r.1| > 0 ==> r.0.isValidState == Bool(false))
    decreases |names|
  {
    if |names| > 0 {
      var (mid, first) := NormalStep(env, inst, names[0], cfg, depth, value, dType);
      RunNormalValidity(env, mid, names[1..], cfg, depth, value, dType);
    }
  }

  /** A name that is neither a registered normal rule nor "validate" adds
    * nothing and changes nothing. */
  lemma UnknownNameIgnored(env: Env, inst: Instance, name: string, cfg: Value, depth: Path, value: Value, dType: Value)
    requires name !in inst.rules.normal && name != "validate"
    ensures NormalStep(env, inst, name, cfg, depth, value, dType) == (inst, [])
  {
  }

  /** The `validate` callback: `true` adds nothing, `false` adds the generic
    * message, and any other result is itself the message. */
  lemma ValidateCallback(env: Env, inst: Instance, f: nat, cfg: Value, depth: Path, value: Value, dType: Value)
    requires "validate" !in inst.rules.normal && Prop(cfg, "validate") == Fn(f)
    ensures var res := CallUser(env, f, Subject(value, dType, depth, inst));
      var r := NormalStep(env, inst, "validate", cfg, depth, value, dType);
      (res == Bool(true) ==> r == (inst, [])) &&
      (res == Bool(false) ==> r == (inst.(isValidState := Bool(false)), [Str("Field invalid!")])) &&
      (!res.Bool? ==> r == (inst.(isValidState := Bool(false)), [res]))
  {
    var res := CallUser(env, f, Subject(value, dType, depth, inst));
    var none: seq<Value> := [];
    assert none + [GetGenericErrorMessage()] == [GetGenericErrorMessage()];
    assert none + [res] == [res];
  }

  // ---------------------------------------------------------------------------
  //  isValid, validate, validateProperty, validateArray
  // ---------------------------------------------------------------------------

  /** What `isValid` answers once validation has run. */
  predicate Passed(inst: Instance)
  {
    inst.isValidState == Bool(true)
  }

  /** The nested-contract definition of a field. */
  function NestedDef(cfg: Value): Value
  {
    Prop(cfg, "contract")
  }

  /** `isValid(context)` (index.js:76-80). The shown `isValid` takes no
    * context and keeps earlier errors; here it stores the context, starts
    * from an empty error tree and then validates, as the library's callers
    * and nested contracts expect. */
  function IsValidSpec(env: Env, inst: Instance, context: Value): (r: Instance)
    ensures r == inst.(data := r.data, errors := r.errors, isValidState := r.isValidState, validationContext := context)
    ensures r.isValidState == Bool(true) || r.isValidState == Bool(false)
    ensures Passed(r) ==> r.errors == Obj(map[])
    decreases Rank(inst.schema), inst.schema, 3, 0
  {
    var start := inst.(validationContext := context, errors := Obj(map[]), isValidState := Bool(true));
    ValidateScope(env, start, start.schema, [], 0)
  }

  /** The state changes validation makes: `isValidState` only ever becomes
    * false, and while it stays true no error is written. */
  predicate Validated(inst: Instance, r: Instance)
  {
    r == inst.(data := r.data, errors := r.errors, isValidState := r.isValidState) &&
    (r.isValidState == inst.isValidState || r.isValidState == Bool(false)) &&
    (r.isValidState == Bool(true) ==> r.errors == inst.errors)
  }

  /** `_validate(scope, depth)` from the `i`-th key on (validation-base.js:8-22). */
  function ValidateScope(env: Env, inst: Instance, scope: Value, depth: Path, i: nat): (r: Instance)
    requires i <= |Entries(scope)|
    ensures Validated(inst, r)
    decreases Rank(scope), scope, 2, |Entries(scope)| - i
  {
    if i == |Entries(scope)| then inst
    else ValidateScope(env, ValidateEntry(env, inst, scope, depth, i), scope, depth, i + 1)
  }

  /** One pass of `_validate`'s loop: a key whose configuration has a
    * `dType` is a property (an array one also gets its elements checked),
    * any other key is a nested scope (validation-base.js:10-20). */
  function ValidateEntry(env: Env, inst: Instance, scope: Value, depth: Path, i: nat): (r: Instance)
    requires i < |Entries(scope)|
    ensures Validated(inst, r)
    decreases Rank(scope), scope, 1, 0
  {
    var (key, cfg) := scope.entries[i];
    if Prop(cfg, "dType") != Undefined then
      SchemaBelow(cfg, "contract");
      var checked := ValidateProperty(env, inst, depth + [key], cfg);
      if Prop(cfg, "dType") == Str("Array") then ValidateArray(env, checked, depth, cfg, key) else checked
    else ValidateScope(env, inst, cfg, depth + [key], 0)
  }

  /** `_validateProperty(depth, cfg)` (validation-base.js:78-151). */
  function ValidateProperty(env: Env, inst: Instance, depth: Path, cfg: Value): (r: Instance)
    ensures Validated(inst, r)
    decreases Rank(SchemaOf(NestedDef(cfg))), SchemaOf(NestedDef(cfg)), 5, 0
  {
    var names := ValidationNames(Keys(Entries(cfg)));
    var value := GetOr(inst.data, depth);
    var dType := Prop(cfg, "dType");
    if |names| == 0 then inst
    else if Breakers(env, names, cfg, Subject(value, dType, depth, inst)).Outbreak? then inst
    else if dType == Str("Contract") then ValidateNested(env, inst, depth, cfg, value)
    else
      var (checked, messages) := RunNormal(env, inst, names, cfg, depth, value, dType);
      RunNormalValidity(env, inst, names, cfg, depth, value, dType);
      if |messages| > 0 then checked.(errors := SetUnder(checked.errors, depth + ["messages"], Arr(messages)))
      else checked
  }

  /** A Contract field is validated by its nested contract, in the parent's
    * validation context; a failure clears the parent's validity and copies
    * the nested error tree to the field's path (validation-base.js:103-113). */
  function ValidateNested(env: Env, inst: Instance, depth: Path, cfg: Value, value: Value): (r: Instance)
    ensures Validated(inst, r)
    decreases Rank(SchemaOf(NestedDef(cfg))), SchemaOf(NestedDef(cfg)), 4, 0
  {
    if value.Contract? && value.inst.schema == SchemaOf(NestedDef(cfg)) then
      var checked := IsValidSpec(env, ParseParent(value.inst, inst.config), inst.validationContext);
      var stored := inst.(data := Set(inst.data, depth, Contract(checked)));
      if Passed(checked) then stored
      else stored.(isValidState := Bool(false), errors := SetUnder(stored.errors, depth, checked.errors))
    else inst
  }

  /** `_validateArray(depth, cfg, key)` (validation-base.js:24-70). */
  function ValidateArray(env: Env, inst: Instance, depth: Path, cfg: Value, key: string): (r: Instance)
    ensures Validated(inst, r)
    decreases 1, cfg, 3, 0
  {
    var path := depth + [key];
    var elements := GetOr(inst.data, path);
    var arrayOf := Prop(cfg, "arrayOf");
    var inner := Prop(cfg, "innerValidate");
    if elements == Undefined || Prop(elements, "length") == Num(0) || !elements.Arr? then inst
    else if arrayOf.Str? then
      if inner == Undefined then inst
      else ValidateScalarElements(env, inst, path, cfg, Put(inner, "dType", arrayOf), |elements.elems|, 0)
    else ValidateContractElements(env, inst, path, cfg, elements.elems, 0)
  }

  /** Each element of a scalar array checked against `innerValidate` with the
    * array's element type as its `dType` (validation-base.js:33-40). */
  function ValidateScalarElements(env: Env, inst: Instance, path: Path, cfg: Value, stub: Value, n: nat, i: nat): (r: Instance)
    requires i <= n
    requires stub == Put(Prop(cfg, "innerValidate"), "dType", Prop(cfg, "arrayOf"))
    ensures Validated(inst, r)
    decreases 1, cfg, 2, n - i
  {
    if i == n then inst
    else
      PutKeepsOthers(Prop(cfg, "innerValidate"), "dType", Prop(cfg, "arrayOf"), "contract");
      PropBelow(Prop(cfg, "innerValidate"), "contract");
      PropBelow(cfg, "innerValidate");
      var checked := ValidateProperty(env, inst, path + [NatStr(i)], stub);
      ValidateScalarElements(env, checked, path, cfg, stub, n, i + 1)
  }

  /** Each element of a contract array, from the `i`-th on: the breakers of
    * `innerValidate`, then the element as a nested contract, made from a
    * plain value and stored back first if need be (validation-base.js:42-68). */
  function ValidateContractElements(env: Env, inst: Instance, path: Path, cfg: Value, elements: seq<Value>, i: nat): (r: Instance)
    requires i <= |elements|
    ensures Validated(inst, r)
    decreases 1, cfg, 2, |elements| - i
  {
    if i == |elements| then inst
    else ValidateContractElements(env, ValidateElement(env, inst, path, cfg, elements[i], i), path, cfg, elements, i + 1)
  }

  /** One element of a contract array: its inner breakers may skip it; an
    * element that is not yet a contract is made one from its value; the
    * contract is validated, stored back, and its errors copied on failure
    * (validation-base.js:43-67). */
  function ValidateElement(env: Env, inst: Instance, path: Path, cfg: Value, element: Value, i: nat): (r: Instance)
    ensures Validated(inst, r)
    decreases 1, cfg, 1, 0
  {
    var elementPath := path + [NatStr(i)];
    var inner := Prop(cfg, "innerValidate");
    var arrayOf := Prop(cfg, "arrayOf");
    SchemaBelow(cfg, "arrayOf");
    if inner != Undefined &&
       Breakers(env, Keys(Entries(inner)), inner, Subject(element, Str("Contract"), elementPath, inst)).Outbreak?
    then inst
    else if element.Contract? && element.inst.schema != SchemaOf(arrayOf) then inst
    else CheckElement(env, inst, elementPath, arrayOf, element)
  }

  /** An element that passed its inner breakers: made a contract of class
    * `arrayOf` from its value and stored back if it is not one yet, then
    * validated, stored back, and its errors copied on failure
    * (validation-base.js:53-67). */
  function CheckElement(env: Env, inst: Instance, elementPath: Path, arrayOf: Value, element: Value): (r: Instance)
    requires element.Contract? ==> element.inst.schema == SchemaOf(arrayOf)
    ensures Validated(inst, r)
    decreases Rank(SchemaOf(arrayOf)), SchemaOf(arrayOf), 4, 0
  {
    var nested := ElementContract(env, inst, arrayOf, element);
    var stored := if element.Contract? then inst else inst.(data := Set(inst.data, elementPath, Contract(nested)));
    var checked := IsValidSpec(env, ParseParent(nested, inst.config), inst.validationContext);
    var written := stored.(data := Set(stored.data, elementPath, Contract(checked)));
    if Passed(checked) then written
    else written.(isValidState := Bool(false), errors := SetUnder(written.errors, elementPath, checked.errors))
  }

  /** The contract an element is validated as: the element itself when it
    * is a contract already, else a new contract of class `arrayOf`, given
    * the parent's configuration and assigned the element's value
    * (validation-base.js:56-61). Either way it has the declared schema. */
  function ElementContract(env: Env, inst: Instance, arrayOf: Value, element: Value): (r: Instance)
    requires element.Contract? ==> element.inst.schema == SchemaOf(arrayOf)
    ensures r.schema == SchemaOf(arrayOf)
    ensures element.Contract? ==> r == element.inst
  {
    if element.Contract? then element.inst
    else AssignInstance(env, ParseParent(NewNested(env, inst, arrayOf), inst.config), element)
  }
}
