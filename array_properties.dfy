// Where `_validateArray` (validation-base.js:24-70) puts its results. Element
// `i` of an array at `path` is validated at `path + [i]`: a scalar element's
// messages land at `errors.<path>.i.messages`; a contract element is stored
// back at its index as the validated contract, and when it fails the parent
// becomes invalid and holds the element's error tree at `errors.<path>.i`.
// Later elements never disturb what an earlier one left.
module ArrayProperties {
  import opened Wrappers
  import opened Numerals
  import opened JsValues
  import opened Paths
  import opened Validations
  import opened Contract
  import opened ValidationBase
  import opened ValidationProperties

  /** Every element from `lo` up to `hi` has a writable error path, followed
    * by `below`. */
  predicate ElementsWritable(errors: Value, path: Path, lo: nat, hi: nat, below: Path)
  {
    forall j :: lo <= j < hi ==> Writable(errors, path + [NatStr(j)] + below)
  }

  /** Paths below two different elements of the same array branch off each
    * other at the index. */
  lemma Branches(path: Path, i: nat, k: nat, below: Path, below': Path)
    requires i != k
    ensures DivergeAt(path + [NatStr(i)] + below', path + [NatStr(k)] + below, |path|)
  {
    var p := path + [NatStr(i)] + below';
    var q := path + [NatStr(k)] + below;
    assert p[..|path|] == path && q[..|path|] == path;
    assert p[|path|] == NatStr(i) && q[|path|] == NatStr(k);
    if NatStr(i) == NatStr(k) {
      NatStrInjective(i, k);
    }
  }

  // ---------------------------------------------------------------------------
  //  Scalar elements (validation-base.js:30-40)
  // ---------------------------------------------------------------------------

  /** Validating one field writes its error tree at most once, at the
    * field's path (a Contract field) or at its `messages` entry. */
  lemma PropertyErrorsShape(env: Env, inst: Instance, d: Path, cfg: Value) returns (wrote: bool, p: Path, x: Value)
    requires |d| > 0 && inst.errors.Obj?
    ensures p == d || p == d + ["messages"]
    ensures ValidationBase.ValidateProperty(env, inst, d, cfg).errors ==
            if wrote then Set(inst.errors, p, x) else inst.errors
  {
    var names := ValidationNames(Keys(Entries(cfg)));
    var value := GetOr(inst.data, d);
    var dType := Prop(cfg, "dType");
    wrote, p, x := false, d, Undefined;
    if |names| > 0 && Breakers(env, names, cfg, Subject(value, dType, d, inst)).Proceed? {
      if dType == Str("Contract") {
        if value.Contract? && value.inst.schema == SchemaOf(NestedDef(cfg)) {
          var checked := IsValidSpec(env, ParseParent(value.inst, inst.config), inst.validationContext);
          if !Passed(checked) {
            wrote, x := true, checked.errors;
          }
        }
      } else {
        var run := RunNormal(env, inst, names, cfg, d, value, dType);
        RunNormalValidity(env, inst, names, cfg, d, value, dType);
        if |run.1| > 0 {
          wrote, p, x := true, d + ["messages"], Arr(run.1);
        }
      }
    }
  }

  /** Validating one field writes its error tree only at or below the field:
    * every path branching off it keeps its value and its writability. */
  lemma PropertyErrorsFrame(env: Env, inst: Instance, d: Path, cfg: Value, q: Path, j: nat)
    requires |d| > 0 && Writable(inst.errors, d + ["messages"]) && DivergeAt(d, q, j)
    ensures var r := ValidationBase.ValidateProperty(env, inst, d, cfg);
      (Writable(inst.errors, q) ==> Writable(r.errors, q)) &&
      (Get(inst.errors, q).Some? ==> Get(r.errors, q) == Get(inst.errors, q))
  {
    WritableParent(inst.errors, d, "messages");
    var wrote, p, x := PropertyErrorsShape(env, inst, d, cfg);
    if wrote {
      assert (d + ["messages"])[..j] == d[..j] && (d + ["messages"])[j] == d[j];
      assert DivergeAt(p, q, j);
      if Writable(inst.errors, q) {
        SetKeepsSiblingWritable(inst.errors, p, q, j, x);
      }
      if Get(inst.errors, q).Some? {
        SetKeepsSiblings(inst.errors, p, q, j, x);
      }
    }
  }

  /** Checking element `i` keeps the error paths of the elements after it
    * writable. */
  lemma ScalarStepKeepsWritable(env: Env, inst: Instance, path: Path, stub: Value, n: nat, i: nat)
    requires i < n && ElementsWritable(inst.errors, path, i, n, ["messages"])
    ensures var r := ValidationBase.ValidateProperty(env, inst, path + [NatStr(i)], stub);
      ElementsWritable(r.errors, path, i + 1, n, ["messages"])
  {
    var d := path + [NatStr(i)];
    assert d + ["messages"] == path + [NatStr(i)] + ["messages"];
    forall j | i + 1 <= j < n
      ensures Writable(ValidationBase.ValidateProperty(env, inst, d, stub).errors, path + [NatStr(j)] + ["messages"])
    {
      Branches(path, i, j, ["messages"], []);
      assert path + [NatStr(i)] + [] == d;
      PropertyErrorsFrame(env, inst, d, stub, path + [NatStr(j)] + ["messages"], |path|);
    }
  }

  /** The elements from `i` on leave alone whatever sits below an earlier
    * element `k` in the error tree. */
  lemma {:induction false} ScalarElementsKeep(env: Env, inst: Instance, path: Path, cfg: Value, stub: Value, n: nat, i: nat, k: nat, below: Path)
    requires i <= n && k < i && stub == Put(Prop(cfg, "innerValidate"), "dType", Prop(cfg, "arrayOf"))
    requires ElementsWritable(inst.errors, path, i, n, ["messages"])
    requires Get(inst.errors, path + [NatStr(k)] + below).Some?
    ensures Get(ValidateScalarElements(env, inst, path, cfg, stub, n, i).errors, path + [NatStr(k)] + below) ==
            Get(inst.errors, path + [NatStr(k)] + below)
    decreases n - i
  {
    if i < n {
      var d := path + [NatStr(i)];
      var step := ValidationBase.ValidateProperty(env, inst, d, stub);
      assert d + ["messages"] == path + [NatStr(i)] + ["messages"];
      Branches(path, i, k, below, []);
      assert path + [NatStr(i)] + [] == d;
      PropertyErrorsFrame(env, inst, d, stub, path + [NatStr(k)] + below, |path|);
      ScalarStepKeepsWritable(env, inst, path, stub, n, i);
      ScalarElementsKeep(env, step, path, cfg, stub, n, i + 1, k, below);
    }
  }

  /** The check of a scalar element is a `dType` check plus the array's
    * inner rules: it always has validation names. */
  lemma StubHasNames(cfg: Value)
    requires Prop(cfg, "innerValidate").Rec?
    ensures var stub := Put(Prop(cfg, "innerValidate"), "dType", Prop(cfg, "arrayOf"));
      "dType" in ValidationNames(Keys(Entries(stub)))
  {
    var inner := Prop(cfg, "innerValidate");
    RecPutHasKey(inner.entries, "dType", Prop(cfg, "arrayOf"));
    assert "dType" !in NonValidationConfigs;
  }

  lemma {:induction false} RecPutHasKey(entries: seq<(string, Value)>, k: string, x: Value)
    ensures k in Keys(RecPut(entries, k, x))
    decreases |entries|
  {
    if |entries| > 0 && entries[0].0 != k {
      RecPutHasKey(entries[1..], k, x);
      var rest := RecPut(entries[1..], k, x);
      assert Keys([entries[0]] + rest) == [entries[0].0] + Keys(rest);
    } else {
      assert Keys(RecPut(entries, k, x))[0] == k;
    }
  }

  /** Element `i` of a scalar array, reached with the contract in state
    * `inst`: when its inner breakers let it through and its rules produce
    * messages, the contract ends invalid and those messages sit at
    * `errors.<path>.i.messages` once all later elements have been checked
    * (validation-base.js:38-40, 146). */
  lemma ScalarElementMessages(env: Env, inst: Instance, path: Path, cfg: Value, stub: Value, n: nat, i: nat)
    requires i < n && stub == Put(Prop(cfg, "innerValidate"), "dType", Prop(cfg, "arrayOf"))
    requires Prop(cfg, "innerValidate").Rec? && Prop(cfg, "arrayOf") != Str("Contract")
    requires ElementsWritable(inst.errors, path, i, n, ["messages"])
    requires var d := path + [NatStr(i)];
      Breakers(env, ValidationNames(Keys(Entries(stub))), stub,
               Subject(GetOr(inst.data, d), Prop(cfg, "arrayOf"), d, inst)).Proceed?
    ensures var d := path + [NatStr(i)];
      var run := RunNormal(env, inst, ValidationNames(Keys(Entries(stub))), stub, d, GetOr(inst.data, d), Prop(cfg, "arrayOf"));
      var r := ValidateScalarElements(env, inst, path, cfg, stub, n, i);
      |run.1| > 0 ==> r.isValidState == Bool(false) && Get(r.errors, d + ["messages"]) == Some(Arr(run.1))
  {
    var d := path + [NatStr(i)];
    ScalarElementConfig(cfg, "dType");
    StubHasNames(cfg);
    assert d + ["messages"] == path + [NatStr(i)] + ["messages"];
    assert Writable(inst.errors, d + ["messages"]);
    MessagesWritten(env, inst, d, stub);
    var step := ValidationBase.ValidateProperty(env, inst, d, stub);
    var run := RunNormal(env, inst, ValidationNames(Keys(Entries(stub))), stub, d, GetOr(inst.data, d), Prop(cfg, "arrayOf"));
    if |run.1| > 0 {
      ScalarStepKeepsWritable(env, inst, path, stub, n, i);
      ScalarElementsKeep(env, step, path, cfg, stub, n, i + 1, i, ["messages"]);
    }
  }

  /** The configuration a scalar element is checked against. */
  function ElementStub(cfg: Value): Value
  {
    Put(Prop(cfg, "innerValidate"), "dType", Prop(cfg, "arrayOf"))
  }

  /** The contract after the first `i` elements of a scalar array. */
  function ScalarUpTo(env: Env, inst: Instance, path: Path, stub: Value, i: nat): Instance
    decreases i
  {
    if i == 0 then inst
    else ValidationBase.ValidateProperty(env, ScalarUpTo(env, inst, path, stub, i - 1), path + [NatStr(i - 1)], stub)
  }

  lemma {:induction false} ScalarUpToSplit(env: Env, inst: Instance, path: Path, cfg: Value, stub: Value, n: nat, i: nat)
    requires i <= n && stub == ElementStub(cfg)
    ensures ValidateScalarElements(env, inst, path, cfg, stub, n, 0) ==
            ValidateScalarElements(env, ScalarUpTo(env, inst, path, stub, i), path, cfg, stub, n, i)
    decreases i
  {
    if i > 0 {
      ScalarUpToSplit(env, inst, path, cfg, stub, n, i - 1);
    }
  }

  lemma {:induction false} ScalarUpToWritable(env: Env, inst: Instance, path: Path, stub: Value, n: nat, i: nat)
    requires i <= n && ElementsWritable(inst.errors, path, 0, n, ["messages"])
    ensures ElementsWritable(ScalarUpTo(env, inst, path, stub, i).errors, path, i, n, ["messages"])
    decreases i
  {
    if i > 0 {
      ScalarUpToWritable(env, inst, path, stub, n, i - 1);
      ScalarStepKeepsWritable(env, ScalarUpTo(env, inst, path, stub, i - 1), path, stub, n, i - 1);
    }
  }

  /** `_validateArray` on a non-empty array of a scalar type runs the
    * scalar loop from the first element. */
  lemma ArrayScalarUnfold(env: Env, inst: Instance, depth: Path, cfg: Value, key: string)
    requires var elements := GetOr(inst.data, depth + [key]);
      elements.Arr? && |elements.elems| > 0 && Prop(cfg, "arrayOf").Str? && Prop(cfg, "innerValidate") != Undefined
    ensures ValidationBase.ValidateArray(env, inst, depth, cfg, key) ==
      ValidateScalarElements(env, inst, depth + [key], cfg, ElementStub(cfg), |GetOr(inst.data, depth + [key]).elems|, 0)
  {
  }

  /** `_validateArray` on a non-empty array of a contract class runs the
    * contract loop from the first element. */
  lemma ArrayContractUnfold(env: Env, inst: Instance, depth: Path, cfg: Value, key: string)
    requires var elements := GetOr(inst.data, depth + [key]);
      elements.Arr? && |elements.elems| > 0 && !Prop(cfg, "arrayOf").Str?
    ensures ValidationBase.ValidateArray(env, inst, depth, cfg, key) ==
      ValidateContractElements(env, inst, depth + [key], cfg, GetOr(inst.data, depth + [key]).elems, 0)
  {
  }

  /** `_validateArray` on a scalar array: element `i`, reached after the
    * elements before it, leaves its messages at `errors.<path>.i.messages`
    * and the contract invalid, whatever the other elements do
    * (validation-base.js:30-40). */
  lemma ArrayScalarMessages(env: Env, inst: Instance, depth: Path, cfg: Value, key: string, i: nat)
    requires var elements := GetOr(inst.data, depth + [key]);
      elements.Arr? && i < |elements.elems| &&
      Prop(cfg, "arrayOf").Str? && Prop(cfg, "arrayOf") != Str("Contract") && Prop(cfg, "innerValidate").Rec? &&
      ElementsWritable(inst.errors, depth + [key], 0, |elements.elems|, ["messages"])
    requires var path := depth + [key]; var d := path + [NatStr(i)];
      var before := ScalarUpTo(env, inst, path, ElementStub(cfg), i);
      Breakers(env, ValidationNames(Keys(Entries(ElementStub(cfg)))), ElementStub(cfg),
               Subject(GetOr(before.data, d), Prop(cfg, "arrayOf"), d, before)).Proceed?
    ensures var path := depth + [key]; var d := path + [NatStr(i)];
      var before := ScalarUpTo(env, inst, path, ElementStub(cfg), i);
      var run := RunNormal(env, before, ValidationNames(Keys(Entries(ElementStub(cfg)))), ElementStub(cfg), d,
                           GetOr(before.data, d), Prop(cfg, "arrayOf"));
      var r := ValidationBase.ValidateArray(env, inst, depth, cfg, key);
      |run.1| > 0 ==> r.isValidState == Bool(false) && Get(r.errors, d + ["messages"]) == Some(Arr(run.1))
  {
    var path := depth + [key];
    var n := |GetOr(inst.data, path).elems|;
    var stub := ElementStub(cfg);
    ArrayScalarUnfold(env, inst, depth, cfg, key);
    ScalarUpToSplit(env, inst, path, cfg, stub, n, i);
    ScalarUpToWritable(env, inst, path, stub, n, i);
    ScalarElementMessages(env, ScalarUpTo(env, inst, path, stub, i), path, cfg, stub, n, i);
  }

  // ---------------------------------------------------------------------------
  //  Contract elements (validation-base.js:42-68)
  // ---------------------------------------------------------------------------

  /** The validated contract an element past its inner breakers becomes:
    * `ElementContract` (the element, or a new contract of class `arrayOf`
    * assigned the element's value) given the parent's configuration and
    * validated in the parent's validation context. */
  function ElementChecked(env: Env, inst: Instance, arrayOf: Value, element: Value): Instance
    requires element.Contract? ==> element.inst.schema == SchemaOf(arrayOf)
  {
    IsValidSpec(env, ParseParent(ElementContract(env, inst, arrayOf, element), inst.config), inst.validationContext)
  }

  /** An element is skipped when one of the keys of `innerValidate` is a
    * breaker that triggers (only the breakers of `innerValidate` are run for
    * contract elements), or when it is a contract of another schema. */
  predicate ElementSkipped(env: Env, inst: Instance, path: Path, cfg: Value, element: Value, i: nat)
  {
    var inner := Prop(cfg, "innerValidate");
    var keys := Keys(Entries(inner));
    (inner != Undefined &&
     exists j :: 0 <= j < |keys| && Triggers(env, keys[j], inner, Subject(element, Str("Contract"), path + [NatStr(i)], inst))) ||
    (element.Contract? && element.inst.schema != SchemaOf(Prop(cfg, "arrayOf")))
  }

  /** A skipped element leaves the contract as it was; any other element is
    * checked as a contract, whatever rules other than breakers
    * `innerValidate` names (validation-base.js:45-53). */
  lemma ElementOutcome(env: Env, inst: Instance, path: Path, cfg: Value, element: Value, i: nat)
    ensures ElementSkipped(env, inst, path, cfg, element, i) ==>
      ValidationBase.ValidateElement(env, inst, path, cfg, element, i) == inst
    ensures !ElementSkipped(env, inst, path, cfg, element, i) ==>
      ValidationBase.ValidateElement(env, inst, path, cfg, element, i) ==
      ValidationBase.CheckElement(env, inst, path + [NatStr(i)], Prop(cfg, "arrayOf"), element)
  {
    var inner := Prop(cfg, "innerValidate");
    BreakersFind(env, Keys(Entries(inner)), inner, Subject(element, Str("Contract"), path + [NatStr(i)], inst));
  }

  /** What checking one element writes: the element's contract at its index
    * (after the freshly assigned one, for a plain element), and on failure
    * the invalid flag and the element's error tree at the same index. */
  lemma CheckElementShape(env: Env, inst: Instance, d: Path, arrayOf: Value, element: Value)
    requires element.Contract? ==> element.inst.schema == SchemaOf(arrayOf)
    requires |d| > 0 && inst.errors.Obj?
    ensures var checked := ElementChecked(env, inst, arrayOf, element);
      var stored := if element.Contract? then inst.data
                    else Set(inst.data, d, Contract(ElementContract(env, inst, arrayOf, element)));
      var r := ValidationBase.CheckElement(env, inst, d, arrayOf, element);
      r.data == Set(stored, d, Contract(checked)) &&
      r.errors == (if Passed(checked) then inst.errors else Set(inst.errors, d, checked.errors)) &&
      r.isValidState == (if Passed(checked) then inst.isValidState else Bool(false))
  {
  }

  /** An element past its inner breakers ends up at its index as the
    * validated contract, of the declared schema and in the parent's context;
    * when it passes, validity and errors are as before, and when it fails
    * the contract is invalid and holds the element's error tree at
    * `errors.<path>.i` (validation-base.js:53-67). */
  lemma CheckElementOutcome(env: Env, inst: Instance, path: Path, i: nat, arrayOf: Value, element: Value)
    requires element.Contract? ==> element.inst.schema == SchemaOf(arrayOf)
    requires |path| > 0 && ArrayAt(inst.data, path) && Writable(inst.errors, path + [NatStr(i)])
    ensures var d := path + [NatStr(i)];
      var checked := ElementChecked(env, inst, arrayOf, element);
      var r := ValidationBase.CheckElement(env, inst, d, arrayOf, element);
      checked.schema == SchemaOf(arrayOf) && checked.validationContext == inst.validationContext &&
      ArrayAt(r.data, path) && Get(r.data, d) == Some(Contract(checked)) &&
      (Passed(checked) ==> r.isValidState == inst.isValidState && r.errors == inst.errors) &&
      (!Passed(checked) ==> r.isValidState == Bool(false) && Get(r.errors, d) == Some(checked.errors))
  {
    var d := path + [NatStr(i)];
    var nested := ElementContract(env, inst, arrayOf, element);
    var checked := ElementChecked(env, inst, arrayOf, element);
    var stored := if element.Contract? then inst.data else Set(inst.data, d, Contract(nested));
    CheckElementShape(env, inst, d, arrayOf, element);
    if !element.Contract? {
      ArrayElementSet(inst.data, path, i, Contract(nested));
    }
    ArrayElementSet(stored, path, i, Contract(checked));
    GetSet(inst.errors, d, checked.errors);
  }

  /** Checking element `i` leaves alone what sits below any other element
    * `k`, in the data and in the error tree, and keeps `k`'s error paths
    * writable. */
  lemma CheckElementFrame(env: Env, inst: Instance, path: Path, i: nat, arrayOf: Value, element: Value, k: nat, below: Path)
    requires element.Contract? ==> element.inst.schema == SchemaOf(arrayOf)
    requires |path| > 0 && ArrayAt(inst.data, path) && Writable(inst.errors, path + [NatStr(i)]) && i != k
    ensures var q := path + [NatStr(k)] + below;
      var r := ValidationBase.CheckElement(env, inst, path + [NatStr(i)], arrayOf, element);
      (Writable(inst.errors, q) ==> Writable(r.errors, q)) &&
      (Get(inst.errors, q).Some? ==> Get(r.errors, q) == Get(inst.errors, q)) &&
      (Get(inst.data, path + [NatStr(k)]) != Some(Undefined) ==>
         Get(r.data, path + [NatStr(k)]) == Get(inst.data, path + [NatStr(k)]))
  {
    var d := path + [NatStr(i)];
    var q := path + [NatStr(k)] + below;
    var nested := ElementContract(env, inst, arrayOf, element);
    var checked := ElementChecked(env, inst, arrayOf, element);
    var stored := if element.Contract? then inst.data else Set(inst.data, d, Contract(nested));
    Branches(path, i, k, below, []);
    assert path + [NatStr(i)] + [] == d;
    CheckElementShape(env, inst, d, arrayOf, element);
    if Writable(inst.errors, q) {
      SetKeepsSiblingWritable(inst.errors, d, q, |path|, checked.errors);
    }
    if Get(inst.errors, q).Some? {
      SetKeepsSiblings(inst.errors, d, q, |path|, checked.errors);
    }
    if Get(inst.data, path + [NatStr(k)]) != Some(Undefined) {
      if !element.Contract? {
        ArrayElementSet(inst.data, path, i, Contract(nested));
        ArrayElementKeep(inst.data, path, i, k, Contract(nested));
      }
      ArrayElementKeep(stored, path, i, k, Contract(checked));
    }
  }

  /** The same frame for one element of the loop, skipped or not. */
  lemma ElementFrame(env: Env, inst: Instance, path: Path, cfg: Value, element: Value, i: nat, k: nat, below: Path)
    requires |path| > 0 && ArrayAt(inst.data, path) && Writable(inst.errors, path + [NatStr(i)]) && i != k
    ensures var q := path + [NatStr(k)] + below;
      var r := ValidationBase.ValidateElement(env, inst, path, cfg, element, i);
      ArrayAt(r.data, path) &&
      (Writable(inst.errors, q) ==> Writable(r.errors, q)) &&
      (Get(inst.errors, q).Some? ==> Get(r.errors, q) == Get(inst.errors, q)) &&
      (Get(inst.data, path + [NatStr(k)]) != Some(Undefined) ==>
         Get(r.data, path + [NatStr(k)]) == Get(inst.data, path + [NatStr(k)]))
  {
    ElementOutcome(env, inst, path, cfg, element, i);
    if !ElementSkipped(env, inst, path, cfg, element, i) {
      CheckElementOutcome(env, inst, path, i, Prop(cfg, "arrayOf"), element);
      CheckElementFrame(env, inst, path, i, Prop(cfg, "arrayOf"), element, k, below);
    }
  }

  /** One element of the loop keeps the array in place and the error paths
    * of the elements after it writable. */
  lemma ElementStepKeepsWritable(env: Env, inst: Instance, path: Path, cfg: Value, element: Value, n: nat, i: nat)
    requires |path| > 0 && ArrayAt(inst.data, path) && i < n && ElementsWritable(inst.errors, path, i, n, [])
    ensures var r := ValidationBase.ValidateElement(env, inst, path, cfg, element, i);
      ArrayAt(r.data, path) && ElementsWritable(r.errors, path, i + 1, n, [])
  {
    assert path + [NatStr(i)] + [] == path + [NatStr(i)];
    ElementFrame(env, inst, path, cfg, element, i, i + 1, []);
    forall j | i + 1 <= j < n
      ensures Writable(ValidationBase.ValidateElement(env, inst, path, cfg, element, i).errors, path + [NatStr(j)] + [])
    {
      ElementFrame(env, inst, path, cfg, element, i, j, []);
    }
  }

  /** The elements from `i` on leave alone what sits below an earlier
    * element `k`, in the data and in the error tree. */
  lemma {:induction false} ContractElementsKeep(env: Env, inst: Instance, path: Path, cfg: Value, elements: seq<Value>, i: nat, k: nat, below: Path)
    requires k < i <= |elements| && |path| > 0 && ArrayAt(inst.data, path)
    requires ElementsWritable(inst.errors, path, i, |elements|, [])
    ensures var q := path + [NatStr(k)] + below;
      var r := ValidateContractElements(env, inst, path, cfg, elements, i);
      (Get(inst.errors, q).Some? ==> Get(r.errors, q) == Get(inst.errors, q)) &&
      (Get(inst.data, path + [NatStr(k)]) != Some(Undefined) ==>
         Get(r.data, path + [NatStr(k)]) == Get(inst.data, path + [NatStr(k)]))
    decreases |elements| - i
  {
    if i < |elements| {
      var step := ValidationBase.ValidateElement(env, inst, path, cfg, elements[i], i);
      assert path + [NatStr(i)] + [] == path + [NatStr(i)];
      ElementFrame(env, inst, path, cfg, elements[i], i, k, below);
      ElementStepKeepsWritable(env, inst, path, cfg, elements[i], |elements|, i);
      ContractElementsKeep(env, step, path, cfg, elements, i + 1, k, below);
    }
  }

  /** Element `i` of a contract array, reached with the contract in state
    * `inst` and not skipped, is at its index as the validated contract once
    * all later elements have been checked; if it failed, the contract is
    * invalid and the element's error tree is at `errors.<path>.i`. */
  lemma ContractElementResult(env: Env, inst: Instance, path: Path, cfg: Value, elements: seq<Value>, i: nat)
    requires i < |elements| && |path| > 0 && ArrayAt(inst.data, path)
    requires ElementsWritable(inst.errors, path, i, |elements|, [])
    requires !ElementSkipped(env, inst, path, cfg, elements[i], i)
    ensures var d := path + [NatStr(i)];
      var checked := ElementChecked(env, inst, Prop(cfg, "arrayOf"), elements[i]);
      var r := ValidateContractElements(env, inst, path, cfg, elements, i);
      checked.schema == SchemaOf(Prop(cfg, "arrayOf")) && Get(r.data, d) == Some(Contract(checked)) &&
      (!Passed(checked) ==> r.isValidState == Bool(false) && Get(r.errors, d) == Some(checked.errors))
  {
    var d := path + [NatStr(i)];
    var arrayOf := Prop(cfg, "arrayOf");
    var step := ValidationBase.ValidateElement(env, inst, path, cfg, elements[i], i);
    assert path + [NatStr(i)] + [] == d;
    ElementOutcome(env, inst, path, cfg, elements[i], i);
    CheckElementOutcome(env, inst, path, i, arrayOf, elements[i]);
    ElementStepKeepsWritable(env, inst, path, cfg, elements[i], |elements|, i);
    ContractElementsKeep(env, step, path, cfg, elements, i + 1, i, []);
  }

  /** The contract after the first `i` elements of a contract array. */
  function ContractUpTo(env: Env, inst: Instance, path: Path, cfg: Value, elements: seq<Value>, i: nat): Instance
    requires i <= |elements|
    decreases i
  {
    if i == 0 then inst
    else ValidationBase.ValidateElement(env, ContractUpTo(env, inst, path, cfg, elements, i - 1), path, cfg, elements[i - 1], i - 1)
  }

  lemma {:induction false} ContractUpToSplit(env: Env, inst: Instance, path: Path, cfg: Value, elements: seq<Value>, i: nat)
    requires i <= |elements|
    ensures ValidateContractElements(env, inst, path, cfg, elements, 0) ==
            ValidateContractElements(env, ContractUpTo(env, inst, path, cfg, elements, i), path, cfg, elements, i)
    decreases i
  {
    if i > 0 {
      ContractUpToSplit(env, inst, path, cfg, elements, i - 1);
    }
  }

  lemma {:induction false} ContractUpToWritable(env: Env, inst: Instance, path: Path, cfg: Value, elements: seq<Value>, i: nat)
    requires i <= |elements| && |path| > 0 && ArrayAt(inst.data, path)
    requires ElementsWritable(inst.errors, path, 0, |elements|, [])
    ensures var before := ContractUpTo(env, inst, path, cfg, elements, i);
      ArrayAt(before.data, path) && ElementsWritable(before.errors, path, i, |elements|, [])
    decreases i
  {
    if i > 0 {
      ContractUpToWritable(env, inst, path, cfg, elements, i - 1);
      ElementStepKeepsWritable(env, ContractUpTo(env, inst, path, cfg, elements, i - 1), path, cfg, elements[i - 1], |elements|, i - 1);
    }
  }

  /** `_validateArray` on a contract array: element `i`, reached after the
    * elements before it and not skipped, ends up at its index as the
    * validated contract of the declared schema, and when it fails the
    * contract is invalid and holds its error tree at `errors.<path>.i`
    * (validation-base.js:42-68). */
  lemma ArrayContractElement(env: Env, inst: Instance, depth: Path, cfg: Value, key: string, i: nat)
    requires var elements := GetOr(inst.data, depth + [key]);
      elements.Arr? && i < |elements.elems| && !Prop(cfg, "arrayOf").Str? &&
      Writable(inst.data, depth + [key]) && ElementsWritable(inst.errors, depth + [key], 0, |elements.elems|, [])
    requires var path := depth + [key]; var elements := GetOr(inst.data, path).elems;
      !ElementSkipped(env, ContractUpTo(env, inst, path, cfg, elements, i), path, cfg, elements[i], i)
    ensures var path := depth + [key]; var elements := GetOr(inst.data, path).elems; var d := path + [NatStr(i)];
      var before := ContractUpTo(env, inst, path, cfg, elements, i);
      var checked := ElementChecked(env, before, Prop(cfg, "arrayOf"), elements[i]);
      var r := ValidationBase.ValidateArray(env, inst, depth, cfg, key);
      checked.schema == SchemaOf(Prop(cfg, "arrayOf")) && Get(r.data, d) == Some(Contract(checked)) &&
      (!Passed(checked) ==> r.isValidState == Bool(false) && Get(r.errors, d) == Some(checked.errors))
  {
    var path := depth + [key];
    var elements := GetOr(inst.data, path).elems;
    ArrayContractUnfold(env, inst, depth, cfg, key);
    ContractUpToSplit(env, inst, path, cfg, elements, i);
    ContractUpToWritable(env, inst, path, cfg, elements, i);
    ContractElementResult(env, ContractUpTo(env, inst, path, cfg, elements, i), path, cfg, elements, i);
  }
}
