// The JavaScript values a contract holds, configures itself with and reports,
// together with the few pieces of JavaScript semantics the library leans on:
// truthiness, `typeof`, strict equality, `includes`, property access and the
// conversion of a value to text in a template literal.
module JsValues {
  import opened Wrappers
  import opened Numerals

  /** A property path; array indices appear as their decimal keys. */
  type Path = seq<string>

  datatype Value =
    | Undefined
    | Null
    | Bool(b: bool)
    | Num(n: int)
    | Str(s: string)
    | Arr(elems: seq<Value>)
    /** A plain data object: input, output, error trees, contract fields. */
    | Obj(fields: map<string, Value>)
    /** An object literal whose key order matters: a schema, a field's
      * configuration, an `innerValidate` or `errorMessage` object. */
    | Rec(entries: seq<(string, Value)>)
    /** A user function (computed rule configuration, `validate`,
      * `validateIf`, error-message function, hook), known by an identity. */
    | Fn(fid: nat)
    /** A RegExp object, known by an identity. */
    | Regex(rid: nat)
    /** A contract class (a subclass of the base contract). */
    | Class(cls: ContractClass)
    /** A contract instance. */
    | Contract(inst: Instance)

  /** What a subclass of the base contract overrides: `defineSchema`,
    * `addAdditionalValidations` and the hooks. */
  datatype ContractClass = ContractClass(
    schema: Value,
    rules: RuleSet,
    setConfig: Option<nat>,
    init: Option<nat>,
    initNested: Option<nat>,
    initAll: Option<nat>)

  /** A validation: one of the library's own, or a class-supplied pair of
    * check and message functions. */
  datatype Rule =
    | AllowBlank | On
    | DType | Presence | Absence | IsEmail | Match | Only | StrictOnly | Min | Max
    | Custom(check: nat, message: nat)

  /** Validations by name, in the two groups the engine distinguishes. */
  datatype RuleSet = RuleSet(breaker: map<string, Rule>, normal: map<string, Rule>)

  /** `contractConfig` without its constant `_nonValidationConfigs` list. */
  datatype ContractConfig = ContractConfig(
    i18next: Value,
    localizationMethod: string,
    params: map<string, Value>)

  /** The state of one contract instance. */
  datatype Instance = Instance(
    schema: Value,
    /** The instance's own fields, one per schema field, nested as the schema's groups. */
    data: Value,
    errors: Value,
    isValidState: Value,
    isAssignedEmpty: bool,
    config: ContractConfig,
    /** The validations this instance's class runs (`_validations`). */
    rules: RuleSet,
    validationContext: Value,
    initNested: Option<nat>,
    initAll: Option<nat>)

  /** The arguments a user function receives. */
  datatype Call = Call(value: Value, config: Value, contract: Instance, dType: Value, depth: Path, rule: string)

  /** Everything outside the library: user functions, regular expressions and hooks. */
  datatype Env = Env(
    call: (nat, Call) -> Value,
    regexTest: (nat, string) -> bool,
    emailTest: string -> bool,
    hook: (nat, ContractConfig) -> ContractConfig)

  predicate Truthy(v: Value)
  {
    match v
    case Undefined => false
    case Null => false
    case Bool(b) => b
    case Num(n) => n != 0
    case Str(s) => s != ""
    case _ => true
  }

  predicate IsNullish(v: Value) { v == Undefined || v == Null }

  function TypeOf(v: Value): string
  {
    match v
    case Undefined => "undefined"
    case Bool(_) => "boolean"
    case Num(_) => "number"
    case Str(_) => "string"
    case Fn(_) => "function"
    case Class(_) => "function"
    case _ => "object"
  }

  /** `a === b`: primitives compare by value; two objects are never taken to
    * be the same object. */
  predicate StrictEq(a: Value, b: Value)
  {
    match (a, b)
    case (Undefined, Undefined) => true
    case (Null, Null) => true
    case (Bool(x), Bool(y)) => x == y
    case (Num(x), Num(y)) => x == y
    case (Str(x), Str(y)) => x == y
    case _ => false
  }

  /** `list.includes(x)`. */
  predicate Includes(list: seq<Value>, x: Value)
  {
    exists i :: 0 <= i < |list| && StrictEq(list[i], x)
  }

  /** The first value stored under `k` in an object literal. */
  function LookupIn(entries: seq<(string, Value)>, k: string): (r: Value)
    decreases |entries|
  {
    if |entries| == 0 then Undefined
    else if entries[0].0 == k then entries[0].1
    else LookupIn(entries[1..], k)
  }

  /** The keys of an object literal, in order. */
  function Keys(entries: seq<(string, Value)>): (ks: seq<string>)
    ensures |ks| == |entries| && forall i :: 0 <= i < |entries| ==> ks[i] == entries[i].0
  {
    if |entries| == 0 then [] else [entries[0].0] + Keys(entries[1..])
  }

  /** The entries of an object used as a schema or a configuration. */
  function Entries(v: Value): seq<(string, Value)>
  {
    if v.Rec? then v.entries else []
  }

  /** `v[k]` for a value that is neither undefined nor null. */
  function Prop(v: Value, k: string): Value
  {
    match v
    case Str(s) =>
      if k == "length" then Num(|s|)
      else (match ParseIndex(k)
            case Some(i) => if i < |s| then Str([s[i]]) else Undefined
            case None => Undefined)
    case Arr(elems) =>
      if k == "length" then Num(|elems|)
      else (match ParseIndex(k)
            case Some(i) => if i < |elems| then elems[i] else Undefined
            case None => Undefined)
    case Obj(fields) => if k in fields then fields[k] else Undefined
    case Rec(entries) => LookupIn(entries, k)
    case Contract(inst) =>
      if k == "isAssignedEmpty" then Bool(inst.isAssignedEmpty)
      else if k == "errors" then inst.errors
      else if k == "isValidState" then inst.isValidState
      else if inst.data.Obj? && k in inst.data.fields then inst.data.fields[k]
      else Undefined
    case _ => Undefined
  }

  /** `a || b`. */
  function Or(a: Value, b: Value): Value
  {
    if Truthy(a) then a else b
  }

  /** `Number(v)` for the values the library compares; `None` is NaN. Only
    * plain decimal strings are read as numbers. */
  function ToNumber(v: Value): Option<int>
  {
    match v
    case Num(n) => Some(n as int)
    case Bool(b) => Some(if b then 1 else 0)
    case Null => Some(0)
    case Str(s) =>
      if s == "" then Some(0)
      else if AllDigits(s) then Some(DigitsValue(s))
      else if |s| > 1 && s[0] == '-' && AllDigits(s[1..]) then Some(0 - DigitsValue(s[1..]) as int)
      else None
    case _ => None
  }

  /** `String(v)`, as a template literal interpolates it. */
  function ToStr(v: Value): string
  {
    match v
    case Undefined => "undefined"
    case Null => "null"
    case Bool(b) => if b then "true" else "false"
    case Num(n) => IntStr(n)
    case Str(s) => s
    case Arr(elems) => Join(elems, ",")
    case Fn(_) => "function"
    case Class(_) => "class"
    case Regex(_) => "/regex/"
    case _ => "[object Object]"
  }

  /** `elems.join(sep)`: undefined and null elements contribute nothing. */
  function Join(elems: seq<Value>, sep: string): string
    decreases elems
  {
    if |elems| == 0 then ""
    else
      var first := if IsNullish(elems[0]) then "" else ToStr(elems[0]);
      if |elems| == 1 then first else first + sep + Join(elems[1..], sep)
  }

  lemma {:induction false} LookupInFound(entries: seq<(string, Value)>, k: string)
    ensures LookupIn(entries, k) == Undefined
         || exists j :: 0 <= j < |entries| && entries[j].0 == k && LookupIn(entries, k) == entries[j].1
    decreases |entries|
  {
    if |entries| > 0 && entries[0].0 != k {
      LookupInFound(entries[1..], k);
      if LookupIn(entries, k) != Undefined {
        var j :| 0 <= j < |entries| - 1 && entries[1..][j].0 == k && LookupIn(entries[1..], k) == entries[1..][j].1;
        assert entries[j + 1] == entries[1..][j];
      }
    }
  }

  /** A configuration value is part of the configuration object that holds it. */
  lemma LookupBelow(v: Value, k: string)
    ensures Prop(v, k) == Undefined || !v.Rec? || (v decreases to Prop(v, k))
  {
    if v.Rec? {
      LookupInFound(v.entries, k);
      if Prop(v, k) != Undefined {
        var j :| 0 <= j < |v.entries| && v.entries[j].0 == k && LookupIn(v.entries, k) == v.entries[j].1;
        assert v.entries[j] in v.entries;
      }
    }
  }

  /** `x` is `list.includes`d exactly when it is strictly equal to one of its elements. */
  lemma IncludesSingleton(x: Value, y: Value)
    ensures Includes([x], y) <==> StrictEq(x, y)
  {
    if StrictEq(x, y) { assert StrictEq([x][0], y); }
  }
}
