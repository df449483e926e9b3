// What validation promises: a field whose breaker fires is left alone; a
// failing rule adds one message and clears validity; messages are written at
// the field's path only when there are some; a Contract field is valid
// exactly when its nested contract is, and carries the nested error tree; and
// `isValid` answers true exactly when the error tree stayed empty.
module ValidationProperties {
  import opened Wrappers
  import opened Numerals
  import opened JsValues
  import opened Paths
  import opened Validations
  import opened Contract
  import opened ValidationBase

  // ---------------------------------------------------------------------------
  //  One field
  // ---------------------------------------------------------------------------

  /** A field one of whose breakers fires is left exactly as it was: no
    * message, no change to validity (validation-base.js:94-95). */
  lemma BreakerSkipsField(env: Env, inst: Instance, depth: Path, cfg: Value, j: nat)
    requires var names := ValidationNames(Keys(Entries(cfg)));
      j < |names| &&
      Triggers(env, names[j], cfg, Subject(GetOr(inst.data, depth), Prop(cfg, "dType"), depth, inst))
    ensures ValidationBase.ValidateProperty(env, inst, depth, cfg) == inst
  {
    var names := ValidationNames(Keys(Entries(cfg)));
    BreakersFind(env, names, cfg, Subject(GetOr(inst.data, depth), Prop(cfg, "dType"), depth, inst));
  }

  /** A registered normal rule other than `validate`: passing adds nothing,
    * failing adds exactly its one message and clears validity
    * (validation-base.js:115-124). */
  lemma RuleStep(env: Env, inst: Instance, name: string, cfg: Value, depth: Path, value: Value, dType: Value)
    requires name in inst.rules.normal && name != "validate"
    ensures var s := Subject(value, dType, depth, inst);
      var rule := inst.rules.normal[name];
      var r := NormalStep(env, inst, name, cfg, depth, value, dType);
      (Check(env, name, rule, Prop(cfg, name), s) ==> r == (inst, [])) &&
      (!Check(env, name, rule, Prop(cfg, name), s) ==>
         r == (inst.(isValidState := Bool(false)), [GetErrorMessageFor(env, cfg, name, rule, s)]))
  {
  }

  lemma HeadOfConcat(a: seq<string>, b: seq<string>)
    requires |a| > 0
    ensures (a + b)[0] == a[0] && (a + b)[1..] == a[1..] + b
  {
  }

  /** The messages of a field come one name after the other, in the order of
    * its configuration keys. */
  lemma {:induction false} MessagesInOrder(env: Env, inst: Instance, a: seq<string>, b: seq<string>, cfg: Value, depth: Path, value: Value, dType: Value)
    ensures var first := RunNormal(env, inst, a, cfg, depth, value, dType);
      var second := RunNormal(env, first.0, b, cfg, depth, value, dType);
      RunNormal(env, inst, a + b, cfg, depth, value, dType) == (second.0, first.1 + second.1)
    decreases |a|
  {
    if |a| == 0 {
      assert a + b == b;
      var second := RunNormal(env, inst, b, cfg, depth, value, dType);
      assert [] + second.1 == second.1;
    } else {
      var mid := NormalStep(env, inst, a[0], cfg, depth, value, dType);
      HeadOfConcat(a, b);
      MessagesInOrder(env, mid.0, a[1..], b, cfg, depth, value, dType);
      var rest := RunNormal(env, mid.0, a[1..], cfg, depth, value, dType);
      var tail := RunNormal(env, rest.0, b, cfg, depth, value, dType);
      assert mid.1 + (rest.1 + tail.1) == (mid.1 + rest.1) + tail.1;
    }
  }

  /** The messages of a field follow its configuration keys: the keys `a`
    * then `b` give the messages of `a`'s validation names followed by those
    * of `b`'s (validation-base.js:80, 115-141). */
  lemma KeyOrderMessages(env: Env, inst: Instance, a: seq<string>, b: seq<string>, cfg: Value, depth: Path, value: Value, dType: Value)
    ensures var first := RunNormal(env, inst, ValidationNames(a), cfg, depth, value, dType);
      var second := RunNormal(env, first.0, ValidationNames(b), cfg, depth, value, dType);
      RunNormal(env, inst, ValidationNames(a + b), cfg, depth, value, dType) == (second.0, first.1 + second.1)
  {
    ValidationNamesAppend(a, b);
    MessagesInOrder(env, inst, ValidationNames(a), ValidationNames(b), cfg, depth, value, dType);
  }

  /** Two field configurations that agree on every key but `errorMessage`. */
  ghost predicate SameButErrorMessage(cfg: Value, cfg': Value)
  {
    forall k :: k != "errorMessage" ==> Prop(cfg, k) == Prop(cfg', k)
  }

  /** One name of a field under two configurations that agree on that name
    * and on `validate`: the same state and as many messages. */
  lemma ErrorMessageStep(env: Env, inst: Instance, name: string, cfg: Value, cfg': Value, depth: Path, value: Value, dType: Value)
    requires Prop(cfg, name) == Prop(cfg', name) && Prop(cfg, "validate") == Prop(cfg', "validate")
    ensures var a := NormalStep(env, inst, name, cfg, depth, value, dType);
      var b := NormalStep(env, inst, name, cfg', depth, value, dType);
      a.0 == b.0 && |a.1| == |b.1|
  {
  }

  /** `errorMessage` only chooses the text of messages: two configurations
    * that differ at most in `errorMessage` give the same contract state and
    * the same number of messages (validation-base.js:117-121, 174-191). */
  lemma {:induction false} ErrorMessageOnlyText(env: Env, inst: Instance, names: seq<string>, cfg: Value, cfg': Value, depth: Path, value: Value, dType: Value)
    requires "errorMessage" !in names && SameButErrorMessage(cfg, cfg')
    ensures var a := RunNormal(env, inst, names, cfg, depth, value, dType);
      var b := RunNormal(env, inst, names, cfg', depth, value, dType);
      a.0 == b.0 && |a.1| == |b.1|
    decreases |names|
  {
    if |names| > 0 {
      var name := names[0];
      assert Prop(cfg, name) == Prop(cfg', name);
      assert Prop(cfg, "validate") == Prop(cfg', "validate");
      ErrorMessageStep(env, inst, name, cfg, cfg', depth, value, dType);
      var step := NormalStep(env, inst, name, cfg, depth, value, dType);
      assert "errorMessage" !in names[1..];
      ErrorMessageOnlyText(env, step.0, names[1..], cfg, cfg', depth, value, dType);
    }
  }

  /** A field's validation names never include `errorMessage`. */
  lemma NamesWithoutErrorMessage(keys: seq<string>)
    ensures "errorMessage" !in ValidationNames(keys)
  {
    assert "errorMessage" in NonValidationConfigs;
  }

  /** A field of a scalar type (no breaker fired) ends up with its messages
    * at `depth + ["messages"]` when there are any, and with the error tree
    * untouched and validity unchanged when there are none
    * (validation-base.js:146-150). */
  lemma MessagesWritten(env: Env, inst: Instance, depth: Path, cfg: Value)
    requires var names := ValidationNames(Keys(Entries(cfg)));
      |names| > 0 && Prop(cfg, "dType") != Str("Contract") &&
      Breakers(env, names, cfg, Subject(GetOr(inst.data, depth), Prop(cfg, "dType"), depth, inst)).Proceed?
    requires inst.errors.Obj? && Writable(inst.errors, depth + ["messages"])
    ensures var names := ValidationNames(Keys(Entries(cfg)));
      var run := RunNormal(env, inst, names, cfg, depth, GetOr(inst.data, depth), Prop(cfg, "dType"));
      var r := ValidationBase.ValidateProperty(env, inst, depth, cfg);
      (|run.1| > 0 ==> r.isValidState == Bool(false) && Get(r.errors, depth + ["messages"]) == Some(Arr(run.1))) &&
      (|run.1| == 0 ==> r == inst)
  {
    var names := ValidationNames(Keys(Entries(cfg)));
    var run := RunNormal(env, inst, names, cfg, depth, GetOr(inst.data, depth), Prop(cfg, "dType"));
    RunNormalValidity(env, inst, names, cfg, depth, GetOr(inst.data, depth), Prop(cfg, "dType"));
    if |run.1| > 0 {
      GetSet(inst.errors, depth + ["messages"], Arr(run.1));
    }
  }

  /** A Contract field is decided by its nested contract: when the nested
    * contract passes, the parent's validity and errors are unchanged; when
    * it fails, the parent is invalid and the nested error tree sits at the
    * field's path. Either way the validated nested contract is stored back
    * (validation-base.js:103-113). */
  lemma NestedDelegation(env: Env, inst: Instance, depth: Path, cfg: Value, value: Value)
    requires value.Contract? && value.inst.schema == SchemaOf(NestedDef(cfg))
    requires |depth| > 0 && Writable(inst.data, depth) && inst.errors.Obj? && Writable(inst.errors, depth)
    ensures var checked := IsValidSpec(env, ParseParent(value.inst, inst.config), inst.validationContext);
      var r := ValidationBase.ValidateNested(env, inst, depth, cfg, value);
      Get(r.data, depth) == Some(Contract(checked)) &&
      (Passed(checked) ==> r.isValidState == inst.isValidState && r.errors == inst.errors) &&
      (!Passed(checked) ==> r.isValidState == Bool(false) && Get(r.errors, depth) == Some(checked.errors))
  {
    var checked := IsValidSpec(env, ParseParent(value.inst, inst.config), inst.validationContext);
    GetSet(inst.data, depth, Contract(checked));
    GetSet(inst.errors, depth, checked.errors);
  }

  /** The element check of a scalar array is the array's `innerValidate`
    * with its `dType` set to the element type, all other keys as
    * configured (validation-base.js:33-35). */
  lemma ScalarElementConfig(cfg: Value, k: string)
    requires Prop(cfg, "innerValidate").Obj? || Prop(cfg, "innerValidate").Rec?
    ensures var stub := Put(Prop(cfg, "innerValidate"), "dType", Prop(cfg, "arrayOf"));
      Prop(stub, "dType") == Prop(cfg, "arrayOf") &&
      (k != "dType" ==> Prop(stub, k) == Prop(Prop(cfg, "innerValidate"), k))
  {
    var inner := Prop(cfg, "innerValidate");
    assert ParseIndex("dType").None? by {
      assert !IsDigit('d');
    }
    if k != "dType" {
      PutKeepsOthers(inner, "dType", Prop(cfg, "arrayOf"), k);
    }
  }

  // ---------------------------------------------------------------------------
  //  isValid answers whether the error tree is empty
  // ---------------------------------------------------------------------------

  /** The error tree is an object, and it is not empty once validity has been
    * cleared. */
  predicate ErrorsMatch(inst: Instance)
  {
    inst.errors.Obj? && (inst.isValidState == Bool(false) ==> inst.errors != Obj(map[]))
  }

  /** Writing an error below a non-empty path leaves a non-empty object. */
  lemma SetUnderNonEmpty(root: Value, path: Path, x: Value)
    requires root.Obj? && |path| > 0
    ensures SetUnder(root, path, x).Obj? && SetUnder(root, path, x) != Obj(map[])
  {
    assert path[0] in SetUnder(root, path, x).fields;
  }

  lemma PropertyKeepsErrorsMatch(env: Env, inst: Instance, depth: Path, cfg: Value)
    requires ErrorsMatch(inst) && |depth| > 0
    ensures ErrorsMatch(ValidationBase.ValidateProperty(env, inst, depth, cfg))
  {
    var names := ValidationNames(Keys(Entries(cfg)));
    var value := GetOr(inst.data, depth);
    var dType := Prop(cfg, "dType");
    if dType == Str("Contract") {
      if value.Contract? && value.inst.schema == SchemaOf(NestedDef(cfg)) {
        var checked := IsValidSpec(env, ParseParent(value.inst, inst.config), inst.validationContext);
        SetUnderNonEmpty(inst.errors, depth, checked.errors);
      }
    } else {
      var run := RunNormal(env, inst, names, cfg, depth, value, dType);
      RunNormalValidity(env, inst, names, cfg, depth, value, dType);
      assert |depth + ["messages"]| > 0;
      SetUnderNonEmpty(run.0.errors, depth + ["messages"], Arr(run.1));
    }
  }

  lemma {:induction false} ScalarElementsKeepErrorsMatch(env: Env, inst: Instance, path: Path, cfg: Value, stub: Value, n: nat, i: nat)
    requires i <= n && stub == Put(Prop(cfg, "innerValidate"), "dType", Prop(cfg, "arrayOf"))
    requires ErrorsMatch(inst)
    ensures ErrorsMatch(ValidateScalarElements(env, inst, path, cfg, stub, n, i))
    decreases n - i
  {
    if i < n {
      var checked := ValidationBase.ValidateProperty(env, inst, path + [NatStr(i)], stub);
      PropertyKeepsErrorsMatch(env, inst, path + [NatStr(i)], stub);
      ScalarElementsKeepErrorsMatch(env, checked, path, cfg, stub, n, i + 1);
    }
  }

  lemma ElementKeepsErrorsMatch(env: Env, inst: Instance, path: Path, cfg: Value, element: Value, i: nat)
    requires ErrorsMatch(inst)
    ensures ErrorsMatch(ValidationBase.ValidateElement(env, inst, path, cfg, element, i))
  {
    var arrayOf := Prop(cfg, "arrayOf");
    if !element.Contract? || element.inst.schema == SchemaOf(arrayOf) {
      CheckKeepsErrorsMatch(env, inst, path + [NatStr(i)], arrayOf, element);
    }
  }

  lemma CheckKeepsErrorsMatch(env: Env, inst: Instance, elementPath: Path, arrayOf: Value, element: Value)
    requires element.Contract? ==> element.inst.schema == SchemaOf(arrayOf)
    requires |elementPath| > 0 && ErrorsMatch(inst)
    ensures ErrorsMatch(ValidationBase.CheckElement(env, inst, elementPath, arrayOf, element))
  {
    var r := ValidationBase.CheckElement(env, inst, elementPath, arrayOf, element);
    if r.isValidState == Bool(false) {
      var nested :=
        if element.Contract? then element.inst
        else AssignInstance(env, ParseParent(NewNested(env, inst, arrayOf), inst.config), element);
      var checked := IsValidSpec(env, ParseParent(nested, inst.config), inst.validationContext);
      SetUnderNonEmpty(inst.errors, elementPath, checked.errors);
    }
  }

  lemma {:induction false} ContractElementsKeepErrorsMatch(env: Env, inst: Instance, path: Path, cfg: Value, elements: seq<Value>, i: nat)
    requires i <= |elements| && ErrorsMatch(inst)
    ensures ErrorsMatch(ValidateContractElements(env, inst, path, cfg, elements, i))
    decreases |elements| - i
  {
    if i < |elements| {
      ElementKeepsErrorsMatch(env, inst, path, cfg, elements[i], i);
      ContractElementsKeepErrorsMatch(env, ValidationBase.ValidateElement(env, inst, path, cfg, elements[i], i), path, cfg, elements, i + 1);
    }
  }

  lemma ArrayKeepsErrorsMatch(env: Env, inst: Instance, depth: Path, cfg: Value, key: string)
    requires ErrorsMatch(inst)
    ensures ErrorsMatch(ValidationBase.ValidateArray(env, inst, depth, cfg, key))
  {
    var path := depth + [key];
    var elements := GetOr(inst.data, path);
    var arrayOf := Prop(cfg, "arrayOf");
    var inner := Prop(cfg, "innerValidate");
    if elements.Arr? {
      if arrayOf.Str? {
        if inner != Undefined {
          ScalarElementsKeepErrorsMatch(env, inst, path, cfg, Put(inner, "dType", arrayOf), |elements.elems|, 0);
        }
      } else {
        ContractElementsKeepErrorsMatch(env, inst, path, cfg, elements.elems, 0);
      }
    }
  }

  lemma {:induction false} ScopeKeepsErrorsMatch(env: Env, inst: Instance, scope: Value, depth: Path, i: nat)
    requires i <= |Entries(scope)| && ErrorsMatch(inst)
    ensures ErrorsMatch(ValidateScope(env, inst, scope, depth, i))
    decreases scope, 2, |Entries(scope)| - i
  {
    if i < |Entries(scope)| {
      EntryKeepsErrorsMatch(env, inst, scope, depth, i);
      ScopeKeepsErrorsMatch(env, ValidationBase.ValidateEntry(env, inst, scope, depth, i), scope, depth, i + 1);
    }
  }

  lemma {:induction false} EntryKeepsErrorsMatch(env: Env, inst: Instance, scope: Value, depth: Path, i: nat)
    requires i < |Entries(scope)| && ErrorsMatch(inst)
    ensures ErrorsMatch(ValidationBase.ValidateEntry(env, inst, scope, depth, i))
    decreases scope, 1, 0
  {
    var (key, cfg) := scope.entries[i];
    assert scope.entries[i] in scope.entries;
    if Prop(cfg, "dType") != Undefined {
      var checked := ValidationBase.ValidateProperty(env, inst, depth + [key], cfg);
      PropertyKeepsErrorsMatch(env, inst, depth + [key], cfg);
      if Prop(cfg, "dType") == Str("Array") {
        ArrayKeepsErrorsMatch(env, checked, depth, cfg, key);
      }
    } else {
      ScopeKeepsErrorsMatch(env, inst, cfg, depth + [key], 0);
    }
  }

  /** `isValid(context)` answers true exactly when validation recorded no
    * error (index.js:76-80, validation-base.js:146-150). */
  lemma IsValidIffNoErrors(env: Env, inst: Instance, context: Value)
    ensures var r := IsValidSpec(env, inst, context);
      Passed(r) <==> r.errors == Obj(map[])
  {
    var start := inst.(validationContext := context, errors := Obj(map[]), isValidState := Bool(true));
    ScopeKeepsErrorsMatch(env, start, start.schema, [], 0);
  }
}
