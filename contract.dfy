// The value-holder half of index.js, as functions on a contract's state: the
// constructor and its schema walk (`_define`, `_defineProperty`), the default
// values (`_defaultEmptyValueFor`), the configuration pushed from a parent
// into a nested contract (`_parseParent`), `assign` and `toObject`. Nested
// contracts are values inside their parent's data. The class in heimdall.dfy
// performs the same steps in place on the top-level contract.
//
// Recursion into a nested contract is measured by its schema: a nested
// contract's schema is part of the configuration of the field that declares
// it, so it is smaller than the parent's schema. A nested contract is only
// descended into when its schema is the one its field declares.
module Contract {
  import opened Wrappers
  import opened Numerals
  import opened JsValues
  import opened Paths
  import opened Validations

  /** `contractConfig._nonValidationConfigs` (index.js:28-30). */
  const NonValidationConfigs: seq<string> :=
    ["default", "errorMessage", "arrayOf", "innerValidate", "contract", "as", "parseAs", "renderAs"]

  /** The type tags `_defineProperty` accepts (index.js:233). */
  const KnownTypes: seq<Value> :=
    [Str("String"), Str("Number"), Str("Boolean"), Str("Generic"), Str("Array"), Str("Contract")]

  /** The constructor's `options` argument. */
  datatype Options = Options(schema: Value, initNested: Option<nat>, initAll: Option<nat>)

  /** The base class itself: an empty `defineSchema`, no extra rules, no hooks. */
  const BaseClass: ContractClass := ContractClass(Rec([]), RuleSet(map[], map[]), None, None, None, None)

  /** The contract configuration before any hook runs (index.js:24-31). */
  const InitialConfig: ContractConfig := ContractConfig(Undefined, "Internal", map[])

  predicate HasEntries(schema: Value)
  {
    schema.Rec? && |schema.entries| > 0
  }

  /** The first component of every measure below. */
  function Rank(schema: Value): nat
  {
    if HasEntries(schema) then 1 else 0
  }

  /** The class a nested-contract definition instantiates: the class itself,
    * or the base class for a bare schema. */
  function ClassOf(def: Value): ContractClass
  {
    if def.Class? then def.cls else BaseClass
  }

  /** The schema of a contract built from a nested-contract definition
    * (index.js:33-37, 267-271). */
  function SchemaOf(def: Value): (r: Value)
    ensures HasEntries(r) ==> r == def || (def decreases to r)
  {
    if def.Class? then def.cls.schema else if Truthy(def) then def else Rec([])
  }

  /** A value that is not a primitive. */
  predicate Composite(v: Value)
  {
    v.Arr? || v.Obj? || v.Rec? || v.Fn? || v.Regex? || v.Class? || v.Contract?
  }

  /** A non-primitive property value is part of the value that holds it, and
    * only non-primitive values hold one. */
  lemma PropBelow(v: Value, k: string)
    ensures Composite(Prop(v, k)) ==> Composite(v) && (v decreases to Prop(v, k))
  {
    if v.Rec? {
      LookupBelow(v, k);
    }
  }

  /** A schema read out of a value is part of that value. */
  lemma SchemaBelow(v: Value, k: string)
    ensures HasEntries(SchemaOf(Prop(v, k))) ==> (v decreases to Prop(v, k))
  {
    PropBelow(v, k);
  }

  /** A hook, when the class or the options define one. Hooks only change the
    * configuration. */
  function Hook(env: Env, h: Option<nat>, c: ContractConfig): ContractConfig
  {
    if h.Some? then env.hook(h.value, c) else c
  }

  /** The constructor up to `_define` (index.js:24-44). */
  function Prelude(env: Env, cls: ContractClass, opts: Options): (r: Instance)
    ensures r.schema == (if Truthy(opts.schema) then opts.schema else cls.schema)
    ensures r.data == Obj(map[]) && r.errors == Undefined
    ensures r.rules == WithAdditional(cls.rules)
    ensures r.initNested == (if opts.initNested.Some? then opts.initNested else cls.initNested)
    ensures r.initAll == (if opts.initAll.Some? then opts.initAll else cls.initAll)
  {
    var configured := Hook(env, cls.setConfig, InitialConfig);
    var schema := if Truthy(opts.schema) then opts.schema else cls.schema;
    var initialised := Hook(env, cls.init, configured);
    var initNested := if opts.initNested.Some? then opts.initNested else cls.initNested;
    var nested := Hook(env, opts.initNested, initialised);
    var initAll := if opts.initAll.Some? then opts.initAll else cls.initAll;
    var all := Hook(env, initAll, nested);
    Instance(schema, Obj(map[]), Undefined, Undefined, false, all, WithAdditional(cls.rules),
             Undefined, initNested, initAll)
  }

  /** `new cls(opts)` (index.js:16-49). */
  function NewInstance(env: Env, cls: ContractClass, opts: Options): (r: Instance)
    ensures r.schema == (if Truthy(opts.schema) then opts.schema else cls.schema)
    ensures r.isValidState == Undefined && !r.isAssignedEmpty
  {
    var pre := Prelude(env, cls, opts);
    DefineScope(env, pre, pre.schema, [], 0).(isValidState := Undefined, isAssignedEmpty := false)
  }

  /** The nested contract a definition creates: a class, or a bare schema
    * given to the base class (index.js:266-271). */
  function Construct(env: Env, def: Value, initNested: Option<nat>, initAll: Option<nat>): (r: Instance)
    ensures r.schema == SchemaOf(def)
    decreases Rank(SchemaOf(def)), def, 2, 0
  {
    var opts := if def.Class? then Options(Undefined, initNested, initAll) else Options(def, initNested, initAll);
    var pre := Prelude(env, ClassOf(def), opts);
    var defined := if HasEntries(pre.schema) then DefineScope(env, pre, pre.schema, [], 0) else pre;
    defined.(isValidState := Undefined, isAssignedEmpty := false)
  }

  /** `_define(scope, depth)` from the `i`-th key on (index.js:212-221). */
  function DefineScope(env: Env, inst: Instance, scope: Value, depth: Path, i: nat): (r: Instance)
    requires i <= |Entries(scope)|
    ensures r == inst.(data := r.data, errors := r.errors)
    decreases Rank(scope), scope, 1, |Entries(scope)| - i
  {
    if i == |Entries(scope)| then inst
    else
      var (key, cfg) := scope.entries[i];
      DefineScope(env, DefineEntry(env, inst, depth, key, cfg), scope, depth, i + 1)
  }

  /** One key of a schema level: a key whose configuration has a `dType` is
    * a field, any other key a group defined recursively (index.js:214-219). */
  function DefineEntry(env: Env, inst: Instance, depth: Path, key: string, cfg: Value): (r: Instance)
    ensures r == inst.(data := r.data, errors := r.errors)
    decreases 1, cfg, 4, 0
  {
    if Prop(cfg, "dType") != Undefined then DefineProperty(env, inst, depth + [key], cfg)
    else DefineScope(env, inst, cfg, depth + [key], 0)
  }

  /** `_defineProperty(depth, cfg)` (index.js:229-244): the field gets a fresh
    * nested contract, its `default`, or the empty value of its type, and its
    * error entry is cleared. */
  function DefineProperty(env: Env, inst: Instance, depth: Path, cfg: Value): (r: Instance)
    ensures r == inst.(data := r.data, errors := r.errors)
    decreases 1, cfg, 3, 0
  {
    var target := FieldDefault(env, inst, cfg);
    inst.(data := Set(inst.data, depth, target), errors := SetUnder(inst.errors, depth, Undefined))
  }

  /** The value `_defineProperty` gives a field. */
  function FieldDefault(env: Env, inst: Instance, cfg: Value): (r: Value)
    ensures Prop(cfg, "dType") == Str("Contract") ==> r.Contract? && r.inst.schema == SchemaOf(Prop(cfg, "contract"))
    decreases 1, cfg, 2, 0
  {
    var dType := Prop(cfg, "dType");
    if dType == Str("Contract") then
      var def := Prop(cfg, "contract");
      SchemaBelow(cfg, "contract");
      Contract(NewNested(env, inst, def))
    else if Prop(cfg, "default") != Undefined then Prop(cfg, "default")
    else ScalarDefault(if dType in KnownTypes then dType else Str("Generic"))
  }

  /** The scalar arms of `_defaultEmptyValueFor` (index.js:254-264, 274-275). */
  function ScalarDefault(dType: Value): Value
  {
    if dType == Str("String") then Str("")
    else if dType == Str("Number") then Null
    else if dType == Str("Boolean") then Undefined
    else if dType == Str("Array") then Arr([])
    else Null
  }

  /** `_defaultEmptyValueFor(dType, def)` (index.js:253-277). */
  function DefaultEmptyValueFor(env: Env, inst: Instance, dType: Value, def: Value): (r: Value)
    ensures dType == Str("Contract") ==> r.Contract? && r.inst.schema == SchemaOf(def)
    ensures dType != Str("Contract") ==> r == ScalarDefault(dType)
  {
    if dType == Str("Contract") then Contract(NewNested(env, inst, def)) else ScalarDefault(dType)
  }

  /** A new nested contract built by `parent`: the parent's `initNested` and
    * `initAll` are passed in and the parent's configuration pushed down
    * (index.js:266-273). */
  function NewNested(env: Env, parent: Instance, def: Value): (r: Instance)
    ensures r.schema == SchemaOf(def)
    decreases Rank(SchemaOf(def)), def, 4, 0
  {
    ParseParent(Construct(env, def, parent.initNested, parent.initAll), parent.config)
  }

  /** The own properties of a value spread into an object literal; only plain
    * objects and object literals contribute. */
  function Spread(v: Value): map<string, Value>
  {
    match v
    case Obj(fields) => fields
    case Rec(entries) => RecFields(entries)
    case _ => map[]
  }

  function RecFields(entries: seq<(string, Value)>): (m: map<string, Value>)
    ensures m.Keys == set e | e in entries :: e.0
    decreases |entries|
  {
    if |entries| == 0 then map[]
    else RecFields(entries[..|entries| - 1])[entries[|entries| - 1].0 := entries[|entries| - 1].1]
  }

  /** `_parseParent(parent)` (index.js:287-298). */
  function ParseParent(child: Instance, parent: ContractConfig): (r: Instance)
    ensures r.schema == child.schema && r.data == child.data && r.errors == child.errors
    ensures r.config.localizationMethod == parent.localizationMethod && r.config.i18next == parent.i18next
  {
    var params :=
      if "all" in parent.params && parent.params["all"] != Undefined then
        var own := if "all" in child.config.params then child.config.params["all"] else Undefined;
        child.config.params["all" := Obj(Spread(parent.params["all"]) + Spread(own))]
      else child.config.params;
    child.(config := ContractConfig(parent.i18next, parent.localizationMethod, params))
  }

  /** The `params.all` a contract holds, as a map. */
  function AllParams(c: ContractConfig): map<string, Value>
  {
    if "all" in c.params then Spread(c.params["all"]) else map[]
  }

  /** After `_parseParent` a nested contract sees every `params.all` key of
    * its parent, and its own keys keep their values; its other parameters
    * are unchanged. */
  lemma ParseParentMerges(child: Instance, parent: ContractConfig, k: string)
    requires "all" in parent.params && parent.params["all"] != Undefined
    ensures var all := AllParams(ParseParent(child, parent).config);
      (k in AllParams(child.config) ==> k in all && all[k] == AllParams(child.config)[k]) &&
      (k !in AllParams(child.config) && k in AllParams(parent) ==> k in all && all[k] == AllParams(parent)[k]) &&
      (k in all ==> k in AllParams(child.config) || k in AllParams(parent))
    ensures forall p :: p in child.config.params && p != "all" ==>
      p in ParseParent(child, parent).config.params && ParseParent(child, parent).config.params[p] == child.config.params[p]
  {
  }

  /** Pushing the same parent configuration twice is pushing it once. */
  lemma ParseParentIdempotent(child: Instance, parent: ContractConfig)
    ensures ParseParent(ParseParent(child, parent), parent) == ParseParent(child, parent)
  {
    var once := ParseParent(child, parent);
    if "all" in parent.params && parent.params["all"] != Undefined {
      var p := Spread(parent.params["all"]);
      var own := if "all" in child.config.params then child.config.params["all"] else Undefined;
      assert once.config.params["all"] == Obj(p + Spread(own));
      assert p + (p + Spread(own)) == p + Spread(own);
    }
  }

  // ---------------------------------------------------------------------------
  //  assign (index.js:89-129)
  // ---------------------------------------------------------------------------

  /** A property name given by a configuration value. */
  function KeyText(v: Value): string
  {
    if v.Str? then v.s else ToStr(v)
  }

  /** The key a field is read from: `parseAs || as || key` (index.js:98). */
  function ReadKey(key: string, cfg: Value): string
  {
    KeyText(Or(Or(Prop(cfg, "parseAs"), Prop(cfg, "as")), Str(key)))
  }

  /** The key a field is written to: `renderAs || as || key` (index.js:164). */
  function WriteKey(key: string, cfg: Value): string
  {
    KeyText(Or(Or(Prop(cfg, "renderAs"), Prop(cfg, "as")), Str(key)))
  }

  /** `v.length` as a loop bound. */
  function Length(v: Value): nat
  {
    match Prop(v, "length")
    case Num(n) => if n > 0 then n else 0
    case _ => 0
  }

  /** `assign(input)` on a contract. */
  function AssignInstance(env: Env, inst: Instance, input: Value): (r: Instance)
    ensures r == inst.(data := r.data, isAssignedEmpty := r.isAssignedEmpty)
    decreases Rank(inst.schema), inst.schema, 3, 0
  {
    if input == Str("") || input == Undefined then inst.(isAssignedEmpty := true)
    else AssignScope(env, inst, input, [], [], inst.schema, 0)
  }

  /** The loop over the keys of one schema level, from the `i`-th key on. */
  function AssignScope(env: Env, inst: Instance, input: Value, depth: Path, parsed: Path, scope: Value, i: nat): (r: Instance)
    requires i <= |Entries(scope)|
    ensures r == inst.(data := r.data)
    decreases Rank(scope), scope, 2, |Entries(scope)| - i
  {
    if i == |Entries(scope)| then inst
    else
      var (key, cfg) := scope.entries[i];
      AssignScope(env, AssignEntry(env, inst, input, depth, parsed, key, cfg), input, depth, parsed, scope, i + 1)
  }

  /** One key of a schema level (index.js:97-127). */
  function AssignEntry(env: Env, inst: Instance, input: Value, depth: Path, parsed: Path, key: string, cfg: Value): (r: Instance)
    ensures r == inst.(data := r.data)
    decreases 1, cfg, 5, 0
  {
    var inputValue := GetOr(input, parsed + [ReadKey(key, cfg)]);
    if inputValue == Undefined then inst
    else if Prop(cfg, "dType") != Undefined then
      var dType := Prop(cfg, "dType");
      if dType == Str("Array") then AssignArray(env, inst, depth + [key], cfg, inputValue, 0)
      else if dType == Str("Contract") then AssignNested(env, inst, depth + [key], cfg, inputValue)
      else inst.(data := Set(inst.data, depth + [key], inputValue))
    else AssignScope(env, inst, input, depth + [key], parsed + [key], cfg, 0)
  }

  /** The element `assign` stores at index `j` of an array field (index.js:106-114). */
  function AssignElement(env: Env, inst: Instance, cfg: Value, element: Value): (r: Value)
    decreases 1, cfg, 0, 0
  {
    var arrayOf := Prop(cfg, "arrayOf");
    if arrayOf.Str? then Or(element, DefaultEmptyValueFor(env, inst, arrayOf, Undefined))
    else
      SchemaBelow(cfg, "arrayOf");
      var made := ParseParent(NewNested(env, inst, arrayOf), inst.config);
      Contract(AssignInstance(env, made, element))
  }

  /** The loop over the input array of an array field, from index `j` on
    * (index.js:105-115). */
  function AssignArray(env: Env, inst: Instance, path: Path, cfg: Value, inputValue: Value, j: nat): (r: Instance)
    ensures r == inst.(data := r.data)
    decreases 1, cfg, 1, Length(inputValue) - j
  {
    if j >= Length(inputValue) then inst
    else
      var x := AssignElement(env, inst, cfg, Prop(inputValue, NatStr(j)));
      AssignArray(env, inst.(data := Set(inst.data, path + [NatStr(j)], x)), path, cfg, inputValue, j + 1)
  }

  /** A Contract field: the nested contract is assigned in place and the
    * parent's configuration pushed down (index.js:117-121). */
  function AssignNested(env: Env, inst: Instance, path: Path, cfg: Value, inputValue: Value): (r: Instance)
    ensures r == inst.(data := r.data)
    decreases 1, cfg, 4, 0
  {
    var current := GetOr(inst.data, path);
    var def := Prop(cfg, "contract");
    if current.Contract? && current.inst.schema == SchemaOf(def) then
      SchemaBelow(cfg, "contract");
      var nested := ParseParent(AssignInstance(env, current.inst, inputValue), inst.config);
      inst.(data := Set(inst.data, path, Contract(nested)))
    else inst
  }

  // ---------------------------------------------------------------------------
  //  toObject (index.js:160-197)
  // ---------------------------------------------------------------------------

  /** `toObject()` on a contract. */
  function ToObject(env: Env, inst: Instance): (r: Value)
    ensures r.Obj?
    decreases Rank(inst.schema), inst.schema, 3, 0
  {
    Obj(RenderScope(env, inst, [], inst.schema, 0, map[]))
  }

  /** The loop over the keys of one schema level, from the `i`-th key on,
    * adding to `out`. */
  function RenderScope(env: Env, inst: Instance, depth: Path, scope: Value, i: nat, out: map<string, Value>): (r: map<string, Value>)
    requires i <= |Entries(scope)|
    decreases Rank(scope), scope, 2, |Entries(scope)| - i
  {
    if i == |Entries(scope)| then out
    else
      var (key, cfg) := scope.entries[i];
      var renderKey := WriteKey(key, cfg);
      var current := GetOr(inst.data, depth + [key]);
      var dType := Prop(cfg, "dType");
      var out' :=
        if dType == Undefined then out[renderKey := Obj(RenderScope(env, inst, depth + [key], cfg, 0, map[]))]
        else if dType == Str("Array") then
          if current.Arr? then out[renderKey := Arr(RenderElements(env, inst, cfg, current.elems))] else out
        else if dType == Str("Contract") then out[renderKey := RenderNested(env, cfg, current)]
        else out[renderKey := current];
      RenderScope(env, inst, depth, scope, i + 1, out')
  }

  /** `elements.map(...)` of an array field (index.js:171-184). */
  function RenderElements(env: Env, inst: Instance, cfg: Value, elems: seq<Value>): (r: seq<Value>)
    ensures |r| == |elems|
    ensures Prop(cfg, "arrayOf").Str? ==> r == elems
    decreases 1, cfg, 1, |elems|
  {
    if |elems| == 0 then []
    else [RenderElement(env, inst, cfg, elems[0])] + RenderElements(env, inst, cfg, elems[1..])
  }

  /** One element: kept as it is in a scalar array, rendered if it is a
    * nested contract, otherwise first made into one (index.js:172-183). */
  function RenderElement(env: Env, inst: Instance, cfg: Value, element: Value): (r: Value)
    ensures Prop(cfg, "arrayOf").Str? ==> r == element
    decreases 1, cfg, 0, 0
  {
    var arrayOf := Prop(cfg, "arrayOf");
    SchemaBelow(cfg, "arrayOf");
    if arrayOf.Str? then element
    else if element.Contract? then
      if element.inst.schema == SchemaOf(arrayOf) then ToObject(env, element.inst) else Undefined
    else
      var made := ParseParent(NewNested(env, inst, arrayOf), inst.config);
      ToObject(env, AssignInstance(env, made, element))
  }

  /** A Contract field renders its nested contract (index.js:186-188). */
  function RenderNested(env: Env, cfg: Value, current: Value): (r: Value)
    decreases 1, cfg, 0, 0
  {
    var def := Prop(cfg, "contract");
    SchemaBelow(cfg, "contract");
    if current.Contract? && current.inst.schema == SchemaOf(def) then ToObject(env, current.inst) else Undefined
  }
}
