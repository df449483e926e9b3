// The contract class of index.js, working in place on its own fields. Each
// method is proved to leave the contract in the state the corresponding
// function of contract.dfy or validation_base.dfy describes; nested contracts
// are values held in `data` and are handled by those functions.
module Heimdall {
  import opened Wrappers
  import opened Numerals
  import opened JsValues
  import opened Paths
  import opened Validations
  import opened Contract
  import opened ValidationBase

  class Index {
    /** The user code the contract calls: rule functions, hooks, patterns. */
    const env: Env

    var schema: Value
    /** The contract's own fields, one per schema field. */
    var data: Value
    var errors: Value
    var isValidState: Value
    var isAssignedEmpty: bool
    var config: ContractConfig
    var rules: RuleSet
    var validationContext: Value
    var initNested: Option<nat>
    var initAll: Option<nat>

    /** The contract's state as a value. */
    function Snapshot(): Instance
      reads this
    {
      Instance(schema, data, errors, isValidState, isAssignedEmpty, config, rules, validationContext, initNested, initAll)
    }

    /** `new cls(opts)` (index.js:16-49). */
    constructor(env: Env, cls: ContractClass, opts: Options)
      ensures this.env == env
      ensures Snapshot() == NewInstance(env, cls, opts)
    {
      this.env := env;
      var configured := Hook(env, cls.setConfig, InitialConfig);
      schema := if Truthy(opts.schema) then opts.schema else cls.schema;
      configured := Hook(env, cls.init, configured);
      initNested := if opts.initNested.Some? then opts.initNested else cls.initNested;
      configured := Hook(env, opts.initNested, configured);
      var all := if opts.initAll.Some? then opts.initAll else cls.initAll;
      initAll := all;
      configured := Hook(env, all, configured);
      config := configured;
      rules := WithAdditional(cls.rules);
      data := Obj(map[]);
      errors := Undefined;
      isValidState := Undefined;
      isAssignedEmpty := false;
      validationContext := Undefined;
      new;
      Define(schema, []);
      isValidState := Undefined;
      isAssignedEmpty := false;
    }

    /** `_define(scope, depth)` (index.js:212-221). */
    method Define(scope: Value, depth: Path)
      modifies this
      ensures Snapshot() == DefineScope(env, old(Snapshot()), scope, depth, 0)
      decreases scope
    {
      var entries := Entries(scope);
      var i := 0;
      while i < |entries|
        invariant 0 <= i <= |entries|
        invariant DefineScope(env, Snapshot(), scope, depth, i) == DefineScope(env, old(Snapshot()), scope, depth, 0)
      {
        var (key, cfg) := entries[i];
        assert entries[i] in scope.entries;
        if Prop(cfg, "dType") != Undefined {
          DefineProperty(depth + [key], cfg);
        } else {
          Define(cfg, depth + [key]);
        }
        i := i + 1;
      }
    }

    /** `_defineProperty(depth, cfg)` (index.js:229-244). */
    method DefineProperty(depth: Path, cfg: Value)
      modifies this
      ensures Snapshot() == Contract.DefineProperty(env, old(Snapshot()), depth, cfg)
    {
      var target := FieldDefault(env, Snapshot(), cfg);
      data := Set(data, depth, target);
      errors := SetUnder(errors, depth, Undefined);
    }

    /** `getValueAtPath(path)` on the contract: its error tree under
      * "errors", its fields otherwise. */
    function GetValueAtPath(path: Path): Option<Value>
      reads this
    {
      if |path| == 0 then Some(Contract(Snapshot()))
      else if path[0] == "errors" then Get(errors, path[1..])
      else Get(data, path)
    }

    /** `setValueAtPath(path, x)` on the contract (index.js:139-141): a
      * field written here reads back as written, and no other field
      * changes. */
    method SetValueAtPath(path: Path, x: Value)
      modifies this
      ensures |path| == 0 ==> Snapshot() == old(Snapshot())
      ensures |path| > 0 && path[0] == "errors" ==>
        Snapshot() == old(Snapshot()).(errors := SetUnder(old(errors), path[1..], x))
      ensures |path| > 0 && path[0] != "errors" ==>
        Snapshot() == old(Snapshot()).(data := Set(old(data), path, x))
      ensures |path| > 0 && path[0] != "errors" && Writable(old(data), path) ==> GetValueAtPath(path) == Some(x)
      ensures forall q: Path, j: nat ::
        (|path| > 0 && path[0] != "errors" && Writable(old(data), path) && DivergeAt(path, q, j) &&
         Get(old(data), q).Some?) ==> Get(data, q) == Get(old(data), q)
    {
      if |path| == 0 {
        return;
      }
      if path[0] == "errors" {
        errors := SetUnder(errors, path[1..], x);
      } else {
        ghost var before := data;
        data := Set(data, path, x);
        if Writable(before, path) {
          GetSet(before, path, x);
          forall q: Path, j: nat | DivergeAt(path, q, j) && Get(before, q).Some?
            ensures Get(data, q) == Get(before, q)
          {
            SetKeepsSiblings(before, path, q, j, x);
          }
        }
      }
    }

    /** `_parseParent(parent)` (index.js:287-298). */
    method ParseParent(parent: ContractConfig)
      modifies this
      ensures Snapshot() == Contract.ParseParent(old(Snapshot()), parent)
    {
      var params := config.params;
      if "all" in parent.params && parent.params["all"] != Undefined {
        var own := if "all" in params then params["all"] else Undefined;
        params := params["all" := Obj(Spread(parent.params["all"]) + Spread(own))];
      }
      config := ContractConfig(parent.i18next, parent.localizationMethod, params);
    }

    /** `toObject()` (index.js:160-197); it only reads the contract. */
    function ToObject(): Value
      reads this
    {
      Contract.ToObject(env, Snapshot())
    }

    // -------------------------------------------------------------------------
    //  assign (index.js:89-129)
    // -------------------------------------------------------------------------

    method Assign(input: Value)
      modifies this
      ensures Snapshot() == AssignInstance(env, old(Snapshot()), input)
    {
      if input == Str("") || input == Undefined {
        isAssignedEmpty := true;
        return;
      }
      AssignLevel(input, [], [], schema);
    }

    /** The loop over the keys of one schema level. */
    method AssignLevel(input: Value, depth: Path, parsed: Path, scope: Value)
      modifies this
      ensures Snapshot() == AssignScope(env, old(Snapshot()), input, depth, parsed, scope, 0)
      decreases scope
    {
      var entries := Entries(scope);
      var i := 0;
      while i < |entries|
        invariant 0 <= i <= |entries|
        invariant AssignScope(env, Snapshot(), input, depth, parsed, scope, i) ==
                  AssignScope(env, old(Snapshot()), input, depth, parsed, scope, 0)
      {
        var (key, cfg) := entries[i];
        assert entries[i] in scope.entries;
        ghost var before := Snapshot();
        var inputValue := GetOr(input, parsed + [ReadKey(key, cfg)]);
        if inputValue == Undefined {
        } else if Prop(cfg, "dType") != Undefined {
          var dType := Prop(cfg, "dType");
          var path := depth + [key];
          if dType == Str("Array") {
            AssignArrayField(path, cfg, inputValue);
          } else if dType == Str("Contract") {
            var current := GetOr(data, path);
            if current.Contract? && current.inst.schema == SchemaOf(Prop(cfg, "contract")) {
              var nested := Contract.ParseParent(AssignInstance(env, current.inst, inputValue), config);
              data := Set(data, path, Contract(nested));
            }
          } else {
            data := Set(data, path, inputValue);
          }
        } else {
          AssignLevel(input, depth + [key], parsed + [key], cfg);
        }
        assert Snapshot() == AssignEntry(env, before, input, depth, parsed, key, cfg);
        i := i + 1;
      }
    }

    /** The loop over the input array of an array field (index.js:105-115). */
    method AssignArrayField(path: Path, cfg: Value, inputValue: Value)
      modifies this
      ensures Snapshot() == AssignArray(env, old(Snapshot()), path, cfg, inputValue, 0)
    {
      var n := Length(inputValue);
      var j := 0;
      while j < n
        invariant 0 <= j <= n
        invariant AssignArray(env, Snapshot(), path, cfg, inputValue, j) ==
                  AssignArray(env, old(Snapshot()), path, cfg, inputValue, 0)
      {
        var x := AssignElement(env, Snapshot(), cfg, Prop(inputValue, NatStr(j)));
        data := Set(data, path + [NatStr(j)], x);
        j := j + 1;
      }
    }

    // -------------------------------------------------------------------------
    //  isValid and the validation walk (index.js:76-80, validation-base.js)
    // -------------------------------------------------------------------------

    /** `isValid(context)`. The shown `isValid` takes no context and keeps
      * earlier errors; this one stores the context and starts from an empty
      * error tree, as the library's callers and nested contracts expect. */
    method IsValid(context: Value) returns (valid: bool)
      modifies this
      ensures Snapshot() == IsValidSpec(env, old(Snapshot()), context)
      ensures valid <==> isValidState == Bool(true)
      ensures valid ==> errors == Obj(map[])
    {
      validationContext := context;
      errors := Obj(map[]);
      isValidState := Bool(true);
      Validate(schema, []);
      valid := isValidState == Bool(true);
    }

    /** `_validate(scope, depth)` (validation-base.js:8-22). */
    method Validate(scope: Value, depth: Path)
      modifies this
      ensures Snapshot() == ValidateScope(env, old(Snapshot()), scope, depth, 0)
      decreases scope, 2
    {
      var i := 0;
      while i < |Entries(scope)|
        invariant 0 <= i <= |Entries(scope)|
        invariant ValidateScope(env, Snapshot(), scope, depth, i) == ValidateScope(env, old(Snapshot()), scope, depth, 0)
      {
        ValidateEntry(scope, depth, i);
        i := i + 1;
      }
    }

    /** One pass of `_validate`'s loop (validation-base.js:10-20). */
    method ValidateEntry(scope: Value, depth: Path, i: nat)
      requires i < |Entries(scope)|
      modifies this
      ensures Snapshot() == ValidationBase.ValidateEntry(env, old(Snapshot()), scope, depth, i)
      decreases scope, 1
    {
      var (key, cfg) := scope.entries[i];
      assert scope.entries[i] in scope.entries;
      if Prop(cfg, "dType") != Undefined {
        ValidateProperty(depth + [key], cfg);
        if Prop(cfg, "dType") == Str("Array") {
          ValidateArray(depth, cfg, key);
        }
      } else {
        Validate(cfg, depth + [key]);
      }
    }

    /** `_validateProperty(depth, cfg)` (validation-base.js:78-151). */
    method ValidateProperty(depth: Path, cfg: Value)
      modifies this
      ensures Snapshot() == ValidationBase.ValidateProperty(env, old(Snapshot()), depth, cfg)
    {
      var names := ValidationNames(Keys(Entries(cfg)));
      if |names| == 0 {
        return;
      }
      var value := GetOr(data, depth);
      var dType := Prop(cfg, "dType");
      var breakers := CheckBreakers(env, names, cfg, Subject(value, dType, depth, Snapshot()));
      if breakers.Outbreak? {
        return;
      }
      if dType == Str("Contract") {
        ValidateNested(depth, cfg, value);
        return;
      }
      var messages := RunRules(names, cfg, depth, value, dType);
      if |messages| > 0 {
        errors := SetUnder(errors, depth + ["messages"], Arr(messages));
      }
    }

    /** A Contract field delegates to its nested contract
      * (validation-base.js:103-113). */
    method ValidateNested(depth: Path, cfg: Value, value: Value)
      modifies this
      ensures Snapshot() == ValidationBase.ValidateNested(env, old(Snapshot()), depth, cfg, value)
    {
      if value.Contract? && value.inst.schema == SchemaOf(NestedDef(cfg)) {
        StoreChecked(depth, value.inst);
      }
    }

    /** The loop over a field's normal rules and its `validate` callback
      * (validation-base.js:114-148), returning the messages collected. */
    method RunRules(names: seq<string>, cfg: Value, depth: Path, value: Value, dType: Value) returns (messages: seq<Value>)
      modifies this
      ensures (Snapshot(), messages) == RunNormal(env, old(Snapshot()), names, cfg, depth, value, dType)
    {
      messages := [];
      var i := 0;
      RunNormalFromIsRunNormal(env, Snapshot(), names, 0, cfg, depth, value, dType, []);
      assert names[0..] == names;
      ghost var whole := RunNormal(env, Snapshot(), names, cfg, depth, value, dType);
      assert [] + whole.1 == whole.1;
      while i < |names|
        invariant 0 <= i <= |names|
        invariant RunNormalFrom(env, Snapshot(), names, i, cfg, depth, value, dType, messages) == whole
      {
        var added := RunRule(names[i], cfg, depth, value, dType);
        messages := messages + added;
        i := i + 1;
      }
    }

    /** One configuration key of a field (validation-base.js:116-140),
      * returning the messages it adds. */
    method RunRule(name: string, cfg: Value, depth: Path, value: Value, dType: Value) returns (added: seq<Value>)
      modifies this
      ensures (Snapshot(), added) == NormalStep(env, old(Snapshot()), name, cfg, depth, value, dType)
    {
      var step := NormalStep(env, Snapshot(), name, cfg, depth, value, dType);
      isValidState := step.0.isValidState;
      added := step.1;
    }

    /** `_validateArray(depth, cfg, key)` (validation-base.js:24-70). */
    method ValidateArray(depth: Path, cfg: Value, key: string)
      modifies this
      ensures Snapshot() == ValidationBase.ValidateArray(env, old(Snapshot()), depth, cfg, key)
    {
      var path := depth + [key];
      var elements := GetOr(data, path);
      var arrayOf := Prop(cfg, "arrayOf");
      var inner := Prop(cfg, "innerValidate");
      if elements == Undefined || Prop(elements, "length") == Num(0) || !elements.Arr? {
        return;
      }
      if arrayOf.Str? {
        if inner == Undefined {
          return;
        }
        var stub := Put(inner, "dType", arrayOf);
        var n := |elements.elems|;
        var i := 0;
        while i < n
          invariant 0 <= i <= n
          invariant ValidateScalarElements(env, Snapshot(), path, cfg, stub, n, i) ==
                    ValidateScalarElements(env, old(Snapshot()), path, cfg, stub, n, 0)
        {
          ValidateProperty(path + [NatStr(i)], stub);
          i := i + 1;
        }
      } else {
        var elems := elements.elems;
        var i := 0;
        while i < |elems|
          invariant 0 <= i <= |elems|
          invariant ValidateContractElements(env, Snapshot(), path, cfg, elems, i) ==
                    ValidateContractElements(env, old(Snapshot()), path, cfg, elems, 0)
        {
          ValidateElement(path, cfg, elems[i], i);
          i := i + 1;
        }
      }
    }

    /** One element of a contract array (validation-base.js:43-67). */
    method ValidateElement(path: Path, cfg: Value, element: Value, i: nat)
      modifies this
      ensures Snapshot() == ValidationBase.ValidateElement(env, old(Snapshot()), path, cfg, element, i)
    {
      var elementPath := path + [NatStr(i)];
      var inner := Prop(cfg, "innerValidate");
      var arrayOf := Prop(cfg, "arrayOf");
      if inner != Undefined {
        var breakers := CheckBreakers(env, Keys(Entries(inner)), inner, Subject(element, Str("Contract"), elementPath, Snapshot()));
        if breakers.Outbreak? {
          return;
        }
      }
      if element.Contract? && element.inst.schema != SchemaOf(arrayOf) {
        return;
      }
      CheckElement(elementPath, arrayOf, element);
    }

    /** An element past its inner breakers, made a contract if need be,
      * then validated and stored back (validation-base.js:53-67). */
    method CheckElement(elementPath: Path, arrayOf: Value, element: Value)
      requires element.Contract? ==> element.inst.schema == SchemaOf(arrayOf)
      modifies this
      ensures Snapshot() == ValidationBase.CheckElement(env, old(Snapshot()), elementPath, arrayOf, element)
    {
      if element.Contract? {
        StoreChecked(elementPath, element.inst);
      } else {
        var nested := AssignInstance(env, Contract.ParseParent(NewNested(env, Snapshot(), arrayOf), config), element);
        data := Set(data, elementPath, Contract(nested));
        StoreChecked(elementPath, nested);
      }
    }

    /** Validates a nested contract in this contract's context, stores it at
      * `path` and copies its errors there when it fails. */
    method StoreChecked(path: Path, nested: Instance)
      modifies this
      ensures var checked := IsValidSpec(env, Contract.ParseParent(nested, old(config)), old(validationContext));
        var written := old(Snapshot()).(data := Set(old(data), path, Contract(checked)));
        Snapshot() == if Passed(checked) then written
                      else written.(isValidState := Bool(false), errors := SetUnder(old(errors), path, checked.errors))
    {
      var checked := IsValidSpec(env, Contract.ParseParent(nested, config), validationContext);
      data := Set(data, path, Contract(checked));
      if !Passed(checked) {
        isValidState := Bool(false);
        errors := SetUnder(errors, path, checked.errors);
      }
    }
  }
}
