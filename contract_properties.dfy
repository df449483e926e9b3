// What the contract functions promise about a contract's top-level fields:
// after construction every field holds its default; `assign` writes each
// field from its read key, keeps the fields the input leaves out, and fills
// array fields position by position; and for a schema of plain fields,
// `toObject` after `assign` returns the input under the write keys.
module ContractProperties {
  import opened Wrappers
  import opened Numerals
  import opened JsValues
  import opened Paths
  import opened Validations
  import opened Contract

  /** The keys of a schema level are pairwise different, as the keys of a
    * JavaScript object literal are. */
  predicate DistinctKeys(scope: Value)
  {
    forall a, b :: 0 <= a < b < |Entries(scope)| ==> Entries(scope)[a].0 != Entries(scope)[b].0
  }

  /** No two keys of a schema level render under the same name. */
  predicate DistinctWriteKeys(scope: Value)
  {
    forall a, b :: 0 <= a < b < |Entries(scope)| ==>
      WriteKey(Entries(scope)[a].0, Entries(scope)[a].1) != WriteKey(Entries(scope)[b].0, Entries(scope)[b].1)
  }

  /** A field whose value is stored as given: neither a group, an array nor a
    * nested contract. */
  predicate ScalarField(cfg: Value)
  {
    var dType := Prop(cfg, "dType");
    dType != Undefined && dType != Str("Array") && dType != Str("Contract")
  }

  /** An array field whose elements are of a scalar type. */
  predicate ScalarArray(cfg: Value)
  {
    var arrayOf := Prop(cfg, "arrayOf");
    Prop(cfg, "dType") == Str("Array") && arrayOf.Str? && arrayOf != Str("Contract")
  }

  /** A schema level made only of scalar fields. */
  predicate FlatScalar(scope: Value)
  {
    forall j :: 0 <= j < |Entries(scope)| ==> ScalarField(Entries(scope)[j].1)
  }

  // ---------------------------------------------------------------------------
  //  Construction
  // ---------------------------------------------------------------------------

  /** The value a freshly defined field holds: a new contract of the declared
    * schema, the configured `default`, or the empty value of its type, an
    * unknown type counting as Generic (index.js:229-244, 253-277). */
  predicate HoldsDefault(cfg: Value, v: Value)
  {
    var dType := Prop(cfg, "dType");
    if dType == Str("Contract") then v.Contract? && v.inst.schema == SchemaOf(Prop(cfg, "contract"))
    else if Prop(cfg, "default") != Undefined then v == Prop(cfg, "default")
    else v == ScalarDefault(if dType in KnownTypes then dType else Str("Generic"))
  }

  /** The empty values of the known types (index.js:254-264). */
  lemma EmptyValues()
    ensures ScalarDefault(Str("String")) == Str("")
    ensures ScalarDefault(Str("Number")) == Null
    ensures ScalarDefault(Str("Boolean")) == Undefined
    ensures ScalarDefault(Str("Array")) == Arr([])
    ensures ScalarDefault(Str("Generic")) == Null
  {
  }

  /** A nested contract built from a definition is the contract `new` builds
    * from the same class and options. */
  lemma ConstructIsNewInstance(env: Env, def: Value, initNested: Option<nat>, initAll: Option<nat>)
    ensures Construct(env, def, initNested, initAll) ==
      NewInstance(env, ClassOf(def), if def.Class? then Options(Undefined, initNested, initAll) else Options(def, initNested, initAll))
  {
    var opts := if def.Class? then Options(Undefined, initNested, initAll) else Options(def, initNested, initAll);
    var pre := Prelude(env, ClassOf(def), opts);
    if !HasEntries(pre.schema) {
      assert Entries(pre.schema) == [];
    }
  }

  /** `_define` below a top-level key changes nothing outside that key. */
  lemma {:induction false} DefineScopeFrame(env: Env, inst: Instance, scope: Value, depth: Path, i: nat, k: string)
    requires i <= |Entries(scope)| && |depth| >= 1 && k != depth[0] && inst.data.Obj?
    ensures var r := DefineScope(env, inst, scope, depth, i);
      r.data.Obj? && Prop(r.data, k) == Prop(inst.data, k)
    decreases Rank(scope), scope, |Entries(scope)| - i
  {
    if i < |Entries(scope)| {
      var (key, cfg) := scope.entries[i];
      assert scope.entries[i] in scope.entries;
      var next := DefineEntry(env, inst, depth, key, cfg);
      if Prop(cfg, "dType") == Undefined {
        DefineScopeFrame(env, inst, cfg, depth + [key], 0, k);
      } else {
        assert next == DefineProperty(env, inst, depth + [key], cfg);
        assert next.data == Set(inst.data, depth + [key], FieldDefault(env, inst, cfg));
        SetOtherKey(inst.data, depth + [key], FieldDefault(env, inst, cfg), k);
      }
      DefineScopeFrame(env, next, scope, depth, i + 1, k);
    }
  }

  /** `_defineProperty` at any depth: the field reads back its default, the
    * error entry at its path reads undefined, and every value at a path that
    * branches off the field's is unchanged (index.js:229-244). */
  lemma DefinePropertyEffect(env: Env, inst: Instance, depth: Path, cfg: Value, q: Path, j: nat)
    requires |depth| > 0 && Writable(inst.data, depth)
    ensures var r := DefineProperty(env, inst, depth, cfg);
      Get(r.data, depth) == Some(FieldDefault(env, inst, cfg)) &&
      (DivergeAt(depth, q, j) && Get(inst.data, q).Some? ==> Get(r.data, q) == Get(inst.data, q)) &&
      (Writable(Fill(inst.errors), depth) ==> Get(r.errors, depth) == Some(Undefined))
  {
    var target := FieldDefault(env, inst, cfg);
    GetSet(inst.data, depth, target);
    if DivergeAt(depth, q, j) && Get(inst.data, q).Some? {
      SetKeepsSiblings(inst.data, depth, q, j, target);
    }
    if Writable(Fill(inst.errors), depth) {
      GetSet(Fill(inst.errors), depth, Undefined);
    }
  }

  /** A contract under construction has no error tree yet; `_defineProperty`
    * creates one holding undefined at the field's path. */
  lemma DefineCreatesErrors(env: Env, inst: Instance, depth: Path, cfg: Value)
    requires |depth| > 0 && inst.errors == Undefined
    ensures Get(DefineProperty(env, inst, depth, cfg).errors, depth) == Some(Undefined)
  {
    EmptyObjectWritable(depth);
    GetSet(Obj(map[]), depth, Undefined);
  }

  /** One top-level key of `_define`: a field gets its default, a group
    * changes only its own key. */
  lemma DefineEntryEffect(env: Env, inst: Instance, key: string, cfg: Value)
    requires inst.data.Obj?
    ensures var next := DefineEntry(env, inst, [], key, cfg);
      next.data.Obj? &&
      (Prop(cfg, "dType") != Undefined ==> HoldsDefault(cfg, Prop(next.data, key))) &&
      (forall k :: k != key ==> Prop(next.data, k) == Prop(inst.data, k))
  {
    assert [] + [key] == [key];
    if Prop(cfg, "dType") != Undefined {
      var next := DefineProperty(env, inst, [key], cfg);
      assert next.data == Put(inst.data, key, FieldDefault(env, inst, cfg));
    } else {
      var next := DefineScope(env, inst, cfg, [key], 0);
      forall k | k != key
        ensures Prop(next.data, k) == Prop(inst.data, k)
      {
        DefineScopeFrame(env, inst, cfg, [key], 0, k);
      }
      DefineScopeFrame(env, inst, cfg, [key], 0, key + "_");
    }
  }

  /** `_define` on the top level of a schema with distinct keys gives every
    * field from the `i`-th on its default and leaves other keys alone. */
  lemma {:induction false} DefineTopLevel(env: Env, inst: Instance, scope: Value, i: nat)
    requires i <= |Entries(scope)| && inst.data.Obj? && DistinctKeys(scope)
    ensures var r := DefineScope(env, inst, scope, [], i);
      r.data.Obj? &&
      (forall j :: i <= j < |Entries(scope)| && Prop(Entries(scope)[j].1, "dType") != Undefined ==>
         HoldsDefault(Entries(scope)[j].1, Prop(r.data, Entries(scope)[j].0))) &&
      (forall k :: (forall j :: i <= j < |Entries(scope)| ==> Entries(scope)[j].0 != k) ==>
         Prop(r.data, k) == Prop(inst.data, k))
    decreases |Entries(scope)| - i
  {
    if i < |Entries(scope)| {
      var (key, cfg) := scope.entries[i];
      var next := DefineEntry(env, inst, [], key, cfg);
      DefineEntryEffect(env, inst, key, cfg);
      DefineTopLevel(env, next, scope, i + 1);
      var r := DefineScope(env, next, scope, [], i + 1);
      assert r == DefineScope(env, inst, scope, [], i);
      assert r.data.Obj?;
      CombineDefaults(scope, i, inst.data, next.data, r.data);
    } else {
      assert DefineScope(env, inst, scope, [], i) == inst;
    }
  }

  /** The defaults of the first key and of the keys after it, put together:
    * with distinct keys, the later keys do not touch the first one. */
  lemma CombineDefaults(scope: Value, i: nat, before: Value, next: Value, r: Value)
    requires i < |Entries(scope)| && DistinctKeys(scope)
    requires Prop(Entries(scope)[i].1, "dType") != Undefined ==> HoldsDefault(Entries(scope)[i].1, Prop(next, Entries(scope)[i].0))
    requires forall k :: k != Entries(scope)[i].0 ==> Prop(next, k) == Prop(before, k)
    requires forall j :: i + 1 <= j < |Entries(scope)| && Prop(Entries(scope)[j].1, "dType") != Undefined ==>
      HoldsDefault(Entries(scope)[j].1, Prop(r, Entries(scope)[j].0))
    requires forall k :: (forall j :: i + 1 <= j < |Entries(scope)| ==> Entries(scope)[j].0 != k) ==> Prop(r, k) == Prop(next, k)
    ensures forall j :: i <= j < |Entries(scope)| && Prop(Entries(scope)[j].1, "dType") != Undefined ==>
      HoldsDefault(Entries(scope)[j].1, Prop(r, Entries(scope)[j].0))
    ensures forall k :: (forall j :: i <= j < |Entries(scope)| ==> Entries(scope)[j].0 != k) ==> Prop(r, k) == Prop(before, k)
  {
    var key := Entries(scope)[i].0;
    assert forall t :: i + 1 <= t < |Entries(scope)| ==> Entries(scope)[t].0 != key;
    assert Prop(r, key) == Prop(next, key);
  }

  /** After `new`, every top-level field of a schema with distinct keys holds
    * its default. */
  lemma NewInstanceDefaults(env: Env, cls: ContractClass, opts: Options)
    requires DistinctKeys(NewInstance(env, cls, opts).schema)
    ensures var r := NewInstance(env, cls, opts); var scope := r.schema;
      forall j :: 0 <= j < |Entries(scope)| && Prop(Entries(scope)[j].1, "dType") != Undefined ==>
        HoldsDefault(Entries(scope)[j].1, Prop(r.data, Entries(scope)[j].0))
  {
    var pre := Prelude(env, cls, opts);
    DefineTopLevel(env, pre, pre.schema, 0);
  }

  // ---------------------------------------------------------------------------
  //  assign
  // ---------------------------------------------------------------------------

  /** An empty input only marks the contract as assigned empty
    * (index.js:90-93). */
  lemma AssignEmpty(env: Env, inst: Instance, input: Value)
    requires input == Str("") || input == Undefined
    ensures AssignInstance(env, inst, input) == inst.(isAssignedEmpty := true)
  {
  }

  /** The filling of an array field below the top-level key `path[0]`
    * changes nothing outside that key. */
  lemma {:induction false} AssignArrayFrame(env: Env, inst: Instance, path: Path, cfg: Value, inputValue: Value, j: nat, k: string)
    requires inst.data.Obj? && |path| >= 1 && k != path[0]
    ensures var r := AssignArray(env, inst, path, cfg, inputValue, j);
      r.data.Obj? && Prop(r.data, k) == Prop(inst.data, k)
    decreases Length(inputValue) - j
  {
    if j < Length(inputValue) {
      var x := AssignElement(env, inst, cfg, Prop(inputValue, NatStr(j)));
      assert (path + [NatStr(j)])[0] == path[0];
      SetOtherKey(inst.data, path + [NatStr(j)], x, k);
      AssignArrayFrame(env, inst.(data := Set(inst.data, path + [NatStr(j)], x)), path, cfg, inputValue, j + 1, k);
    }
  }

  /** Assigning one key changes nothing outside the top-level key it sits
    * under. */
  lemma {:induction false} AssignEntryFrame(env: Env, inst: Instance, input: Value, depth: Path, parsed: Path, key: string, cfg: Value, k: string)
    requires inst.data.Obj? && k != (depth + [key])[0]
    ensures var r := AssignEntry(env, inst, input, depth, parsed, key, cfg);
      r.data.Obj? && Prop(r.data, k) == Prop(inst.data, k)
    decreases 1, cfg, 5, 0
  {
    var inputValue := GetOr(input, parsed + [ReadKey(key, cfg)]);
    if inputValue != Undefined {
      if Prop(cfg, "dType") == Str("Array") {
        AssignArrayFrame(env, inst, depth + [key], cfg, inputValue, 0, k);
      } else if Prop(cfg, "dType") == Undefined {
        AssignScopeFrame(env, inst, input, depth + [key], parsed + [key], cfg, 0, k);
      } else if Prop(cfg, "dType") == Str("Contract") {
        AssignNestedFrame(env, inst, depth + [key], cfg, inputValue, k);
      } else {
        SetOtherKey(inst.data, depth + [key], inputValue, k);
      }
    }
  }

  /** Assigning a Contract field changes nothing outside its top-level key. */
  lemma AssignNestedFrame(env: Env, inst: Instance, path: Path, cfg: Value, inputValue: Value, k: string)
    requires inst.data.Obj? && |path| >= 1 && k != path[0]
    ensures var r := AssignNested(env, inst, path, cfg, inputValue);
      r.data.Obj? && Prop(r.data, k) == Prop(inst.data, k)
  {
    var current := GetOr(inst.data, path);
    if current.Contract? && current.inst.schema == SchemaOf(Prop(cfg, "contract")) {
      var nested := ParseParent(AssignInstance(env, current.inst, inputValue), inst.config);
      SetOtherKey(inst.data, path, Contract(nested), k);
    }
  }

  /** Assigning a schema level below the top-level key `depth[0]` changes
    * nothing outside that key. */
  lemma {:induction false} AssignScopeFrame(env: Env, inst: Instance, input: Value, depth: Path, parsed: Path, scope: Value, i: nat, k: string)
    requires i <= |Entries(scope)| && inst.data.Obj? && |depth| >= 1 && k != depth[0]
    ensures var r := AssignScope(env, inst, input, depth, parsed, scope, i);
      r.data.Obj? && Prop(r.data, k) == Prop(inst.data, k)
    decreases Rank(scope), scope, 2, |Entries(scope)| - i
  {
    if i < |Entries(scope)| {
      var (key, cfg) := scope.entries[i];
      assert scope.entries[i] in scope.entries;
      AssignEntryFrame(env, inst, input, depth, parsed, key, cfg, k);
      AssignScopeFrame(env, AssignEntry(env, inst, input, depth, parsed, key, cfg), input, depth, parsed, scope, i + 1, k);
    }
  }

  /** The array a scalar array field holds after `assign` wrote the input
    * array over `current`: each input position, or the empty value of the
    * element type where the input element is falsy; positions past the
    * input keep their elements. */
  function ArrayAssigned(current: seq<Value>, inputValue: Value, arrayOf: Value): (r: seq<Value>)
    ensures |r| == if |current| < Length(inputValue) then Length(inputValue) else |current|
  {
    var n := Length(inputValue);
    seq(if |current| < n then n else |current|,
        t requires 0 <= t < (if |current| < n then n else |current|) =>
          if t < n then Or(Prop(inputValue, NatStr(t)), ScalarDefault(arrayOf)) else current[t])
  }

  /** The array loop of a top-level scalar array field, from index `j` on. */
  lemma {:induction false} AssignArrayPositions(env: Env, inst: Instance, key: string, cfg: Value, inputValue: Value, j: nat, current: seq<Value>)
    requires inst.data.Obj? && Prop(inst.data, key) == Arr(current) && j <= |current|
    requires ScalarArray(cfg)
    ensures var r := AssignArray(env, inst, [key], cfg, inputValue, j); var n := Length(inputValue);
      r.data.Obj? && Prop(r.data, key).Arr? &&
      |Prop(r.data, key).elems| == (if |current| < n then n else |current|) &&
      (forall t :: j <= t < n ==>
         Prop(r.data, key).elems[t] == Or(Prop(inputValue, NatStr(t)), ScalarDefault(Prop(cfg, "arrayOf")))) &&
      (forall t :: 0 <= t < |current| && !(j <= t < n) ==> Prop(r.data, key).elems[t] == current[t])
    decreases Length(inputValue) - j
  {
    if j < Length(inputValue) {
      var x := AssignElement(env, inst, cfg, Prop(inputValue, NatStr(j)));
      assert x == Or(Prop(inputValue, NatStr(j)), ScalarDefault(Prop(cfg, "arrayOf")));
      PutIndex(current, j, x);
      var written := Put(Arr(current), NatStr(j), x);
      assert [key] + [NatStr(j)] == [key, NatStr(j)];
      assert Set(inst.data, [key, NatStr(j)], x) == Put(inst.data, key, written);
      var next := inst.(data := Set(inst.data, [key] + [NatStr(j)], x));
      AssignArrayPositions(env, next, key, cfg, inputValue, j + 1, written.elems);
    }
  }

  /** A top-level scalar array field after `assign`. */
  lemma AssignArrayField(env: Env, inst: Instance, key: string, cfg: Value, inputValue: Value)
    requires inst.data.Obj? && Prop(inst.data, key).Arr? && ScalarArray(cfg)
    ensures var r := AssignArray(env, inst, [key], cfg, inputValue, 0);
      Prop(r.data, key) == Arr(ArrayAssigned(Prop(inst.data, key).elems, inputValue, Prop(cfg, "arrayOf")))
  {
    var current := Prop(inst.data, key).elems;
    AssignArrayPositions(env, inst, key, cfg, inputValue, 0, current);
    var r := AssignArray(env, inst, [key], cfg, inputValue, 0);
    var filled := ArrayAssigned(current, inputValue, Prop(cfg, "arrayOf"));
    var elems := Prop(r.data, key).elems;
    assert |elems| == |filled|;
    forall t | 0 <= t < |elems|
      ensures elems[t] == filled[t]
    {
    }
    assert elems == filled;
  }

  /** What `assign` leaves in a top-level field, given what it held before:
    * an input without the field's read key keeps the old value; a scalar
    * field takes the input's value; a scalar array field is filled by
    * position (index.js:97-127). */
  predicate Assigned(input: Value, key: string, cfg: Value, before: Value, after: Value)
  {
    var inputValue := GetOr(input, [ReadKey(key, cfg)]);
    (inputValue == Undefined ==> after == before) &&
    (inputValue != Undefined && ScalarField(cfg) ==> after == inputValue) &&
    (inputValue != Undefined && ScalarArray(cfg) && before.Arr? ==>
       after == Arr(ArrayAssigned(before.elems, inputValue, Prop(cfg, "arrayOf"))))
  }

  /** One top-level key of `assign`. */
  lemma AssignEntryEffect(env: Env, inst: Instance, input: Value, key: string, cfg: Value)
    requires inst.data.Obj?
    ensures var r := AssignEntry(env, inst, input, [], [], key, cfg);
      Assigned(input, key, cfg, Prop(inst.data, key), Prop(r.data, key))
  {
    var inputValue := GetOr(input, [ReadKey(key, cfg)]);
    var r := AssignEntry(env, inst, input, [], [], key, cfg);
    assert [] + [ReadKey(key, cfg)] == [ReadKey(key, cfg)];
    assert [] + [key] == [key];
    if inputValue == Undefined {
      assert r == inst;
    } else if ScalarField(cfg) {
      assert r.data == Put(inst.data, key, inputValue);
    } else if ScalarArray(cfg) && Prop(inst.data, key).Arr? {
      assert r == AssignArray(env, inst, [key], cfg, inputValue, 0);
      AssignArrayField(env, inst, key, cfg, inputValue);
    }
  }

  /** One top-level key of `assign`: the field is assigned as `Assigned`
    * says and every other key keeps its value. */
  lemma AssignEntryStep(env: Env, inst: Instance, input: Value, key: string, cfg: Value)
    requires inst.data.Obj?
    ensures var next := AssignEntry(env, inst, input, [], [], key, cfg);
      next.data.Obj? &&
      Assigned(input, key, cfg, Prop(inst.data, key), Prop(next.data, key)) &&
      (forall k :: k != key ==> Prop(next.data, k) == Prop(inst.data, k))
  {
    var next := AssignEntry(env, inst, input, [], [], key, cfg);
    AssignEntryEffect(env, inst, input, key, cfg);
    forall k | k != key
      ensures Prop(next.data, k) == Prop(inst.data, k)
    {
      AssignEntryFrame(env, inst, input, [], [], key, cfg, k);
    }
    AssignEntryFrame(env, inst, input, [], [], key, cfg, key + "_");
  }

  /** `assign` on the top level of a schema with distinct keys, from the
    * `i`-th key on: every field is assigned as `Assigned` says, and keys
    * outside the schema keep their values. */
  lemma {:induction false} AssignTopLevel(env: Env, inst: Instance, input: Value, scope: Value, i: nat)
    requires i <= |Entries(scope)| && inst.data.Obj? && DistinctKeys(scope)
    ensures var r := AssignScope(env, inst, input, [], [], scope, i);
      r.data.Obj? &&
      (forall j :: i <= j < |Entries(scope)| ==>
         Assigned(input, Entries(scope)[j].0, Entries(scope)[j].1,
                  Prop(inst.data, Entries(scope)[j].0), Prop(r.data, Entries(scope)[j].0))) &&
      (forall k :: (forall j :: i <= j < |Entries(scope)| ==> Entries(scope)[j].0 != k) ==>
         Prop(r.data, k) == Prop(inst.data, k))
    decreases |Entries(scope)| - i
  {
    if i < |Entries(scope)| {
      var (key, cfg) := scope.entries[i];
      var next := AssignEntry(env, inst, input, [], [], key, cfg);
      AssignEntryStep(env, inst, input, key, cfg);
      AssignTopLevel(env, next, input, scope, i + 1);
      var r := AssignScope(env, next, input, [], [], scope, i + 1);
      assert r == AssignScope(env, inst, input, [], [], scope, i);
      assert r.data.Obj?;
      CombineAssigned(input, scope, i, inst.data, next.data, r.data);
    } else {
      assert AssignScope(env, inst, input, [], [], scope, i) == inst;
    }
  }

  /** The first key's assignment and those of the keys after it, put
    * together: with distinct keys, the later keys do not touch the first. */
  lemma CombineAssigned(input: Value, scope: Value, i: nat, before: Value, next: Value, r: Value)
    requires i < |Entries(scope)| && DistinctKeys(scope)
    requires Assigned(input, Entries(scope)[i].0, Entries(scope)[i].1, Prop(before, Entries(scope)[i].0), Prop(next, Entries(scope)[i].0))
    requires forall k :: k != Entries(scope)[i].0 ==> Prop(next, k) == Prop(before, k)
    requires forall j :: i + 1 <= j < |Entries(scope)| ==>
      Assigned(input, Entries(scope)[j].0, Entries(scope)[j].1, Prop(next, Entries(scope)[j].0), Prop(r, Entries(scope)[j].0))
    requires forall k :: (forall j :: i + 1 <= j < |Entries(scope)| ==> Entries(scope)[j].0 != k) ==> Prop(r, k) == Prop(next, k)
    ensures forall j :: i <= j < |Entries(scope)| ==>
      Assigned(input, Entries(scope)[j].0, Entries(scope)[j].1, Prop(before, Entries(scope)[j].0), Prop(r, Entries(scope)[j].0))
    ensures forall k :: (forall j :: i <= j < |Entries(scope)| ==> Entries(scope)[j].0 != k) ==> Prop(r, k) == Prop(before, k)
  {
    var key := Entries(scope)[i].0;
    assert forall t :: i + 1 <= t < |Entries(scope)| ==> Entries(scope)[t].0 != key;
    assert Prop(r, key) == Prop(next, key);
  }

  /** `assign` of an input object on a contract whose schema has distinct
    * keys: each top-level field is assigned as `Assigned` says. */
  lemma AssignFields(env: Env, inst: Instance, input: Value)
    requires inst.data.Obj? && DistinctKeys(inst.schema)
    requires input != Str("") && input != Undefined
    ensures var r := AssignInstance(env, inst, input); var scope := inst.schema;
      r.data.Obj? &&
      forall j :: 0 <= j < |Entries(scope)| ==>
        Assigned(input, Entries(scope)[j].0, Entries(scope)[j].1,
                 Prop(inst.data, Entries(scope)[j].0), Prop(r.data, Entries(scope)[j].0))
  {
    AssignTopLevel(env, inst, input, inst.schema, 0);
  }

  // ---------------------------------------------------------------------------
  //  toObject after assign
  // ---------------------------------------------------------------------------

  /** The name the `j`-th key of a schema level renders under. */
  function WriteKeyAt(scope: Value, j: nat): string
    requires j < |Entries(scope)|
  {
    WriteKey(Entries(scope)[j].0, Entries(scope)[j].1)
  }

  /** The name the `j`-th key of a schema level is read from. */
  function ReadKeyAt(scope: Value, j: nat): string
    requires j < |Entries(scope)|
  {
    ReadKey(Entries(scope)[j].0, Entries(scope)[j].1)
  }

  /** `toObject` of a level of scalar fields, from the `i`-th key on, adds to
    * `out` each field's value under its write key, and nothing else. */
  lemma {:induction false} RenderFlat(env: Env, inst: Instance, scope: Value, i: nat, out: map<string, Value>)
    requires i <= |Entries(scope)| && FlatScalar(scope) && DistinctWriteKeys(scope)
    ensures var r := RenderScope(env, inst, [], scope, i, out);
      (forall j :: i <= j < |Entries(scope)| ==>
         WriteKeyAt(scope, j) in r && r[WriteKeyAt(scope, j)] == GetOr(inst.data, [Entries(scope)[j].0])) &&
      (forall k :: k in out && (forall j :: i <= j < |Entries(scope)| ==> WriteKeyAt(scope, j) != k) ==>
         k in r && r[k] == out[k]) &&
      (forall k :: k in r ==> k in out || exists j :: i <= j < |Entries(scope)| && WriteKeyAt(scope, j) == k)
    decreases |Entries(scope)| - i
  {
    if i < |Entries(scope)| {
      var key := Entries(scope)[i].0;
      var here := WriteKeyAt(scope, i);
      var out' := out[here := GetOr(inst.data, [key])];
      RenderScalarStep(env, inst, scope, i, out);
      RenderFlat(env, inst, scope, i + 1, out');
      var r := RenderScope(env, inst, [], scope, i + 1, out');
      CombineRendered(inst.data, scope, i, out, r);
    } else {
      assert RenderScope(env, inst, [], scope, i, out) == out;
    }
  }

  /** The first field written and the fields after it, put together: with
    * distinct write keys, the later fields do not overwrite the first. */
  lemma CombineRendered(data: Value, scope: Value, i: nat, out: map<string, Value>, r: map<string, Value>)
    requires i < |Entries(scope)| && DistinctWriteKeys(scope)
    requires var out' := out[WriteKeyAt(scope, i) := GetOr(data, [Entries(scope)[i].0])];
      (forall j :: i + 1 <= j < |Entries(scope)| ==>
         WriteKeyAt(scope, j) in r && r[WriteKeyAt(scope, j)] == GetOr(data, [Entries(scope)[j].0])) &&
      (forall k :: k in out' && (forall j :: i + 1 <= j < |Entries(scope)| ==> WriteKeyAt(scope, j) != k) ==>
         k in r && r[k] == out'[k]) &&
      (forall k :: k in r ==> k in out' || exists j :: i + 1 <= j < |Entries(scope)| && WriteKeyAt(scope, j) == k)
    ensures forall j :: i <= j < |Entries(scope)| ==>
      WriteKeyAt(scope, j) in r && r[WriteKeyAt(scope, j)] == GetOr(data, [Entries(scope)[j].0])
    ensures forall k :: k in out && (forall j :: i <= j < |Entries(scope)| ==> WriteKeyAt(scope, j) != k) ==>
      k in r && r[k] == out[k]
    ensures forall k :: k in r ==> k in out || exists j :: i <= j < |Entries(scope)| && WriteKeyAt(scope, j) == k
  {
    var here := WriteKeyAt(scope, i);
    var out' := out[here := GetOr(data, [Entries(scope)[i].0])];
    assert forall j :: i + 1 <= j < |Entries(scope)| ==> WriteKeyAt(scope, j) != here;
    assert here in r && r[here] == GetOr(data, [Entries(scope)[i].0]);
    forall k | k in out && (forall j :: i <= j < |Entries(scope)| ==> WriteKeyAt(scope, j) != k)
      ensures k in r && r[k] == out[k]
    {
      assert k != here;
    }
    forall k | k in r
      ensures k in out || exists j :: i <= j < |Entries(scope)| && WriteKeyAt(scope, j) == k
    {
      if k == here {
        assert WriteKeyAt(scope, i) == k;
      }
    }
  }

  /** One scalar field of `toObject`. */
  lemma RenderScalarStep(env: Env, inst: Instance, scope: Value, i: nat, out: map<string, Value>)
    requires i < |Entries(scope)| && ScalarField(Entries(scope)[i].1)
    ensures RenderScope(env, inst, [], scope, i, out) ==
      RenderScope(env, inst, [], scope, i + 1, out[WriteKeyAt(scope, i) := GetOr(inst.data, [Entries(scope)[i].0])])
  {
    assert [] + [Entries(scope)[i].0] == [Entries(scope)[i].0];
  }

  /** Reading a one-key path out of a value that is not undefined or null. */
  lemma GetOne(v: Value, k: string)
    requires !IsNullish(v)
    ensures GetOr(v, [k]) == Prop(v, k)
  {
    assert [k][1..] == [];
    assert Get(v, [k]) == Get(Prop(v, k), []);
  }

  /** `out` holds the input value read for each field under its write key. */
  predicate WritesInput(scope: Value, input: Value, out: map<string, Value>)
  {
    forall j :: 0 <= j < |Entries(scope)| ==>
      WriteKeyAt(scope, j) in out && out[WriteKeyAt(scope, j)] == Prop(input, ReadKeyAt(scope, j))
  }

  /** Every key of `out` is the write key of some field. */
  predicate OnlyWriteKeys(scope: Value, out: map<string, Value>)
  {
    forall k :: k in out ==> exists j :: 0 <= j < |Entries(scope)| && WriteKeyAt(scope, j) == k
  }

  /** `assign` of an object holding every read key, then `toObject`, on a
    * contract whose schema is one level of scalar fields: the result holds
    * each input value under the field's write key, and nothing else. */
  lemma AssignThenRender(env: Env, inst: Instance, input: Value)
    requires inst.data.Obj? && input.Obj?
    requires FlatScalar(inst.schema) && DistinctKeys(inst.schema) && DistinctWriteKeys(inst.schema)
    requires forall j :: 0 <= j < |Entries(inst.schema)| ==> Prop(input, ReadKeyAt(inst.schema, j)) != Undefined
    ensures var out := ToObject(env, AssignInstance(env, inst, input)).fields; var scope := inst.schema;
      WritesInput(scope, input, out) && OnlyWriteKeys(scope, out)
  {
    var scope := inst.schema;
    var r := AssignInstance(env, inst, input);
    assert r.schema == scope;
    AssignFields(env, inst, input);
    RenderFlat(env, r, scope, 0, map[]);
    assert ToObject(env, r).fields == RenderScope(env, r, [], scope, 0, map[]);
    forall j | 0 <= j < |Entries(scope)|
      ensures GetOr(r.data, [Entries(scope)[j].0]) == Prop(input, ReadKeyAt(scope, j))
    {
      var key := Entries(scope)[j].0;
      var cfg := Entries(scope)[j].1;
      assert ScalarField(cfg) && ReadKeyAt(scope, j) == ReadKey(key, cfg);
      assert Assigned(input, key, cfg, Prop(inst.data, key), Prop(r.data, key));
      ScalarRead(input, key, cfg, Prop(inst.data, key), r.data);
    }
  }

  /** A scalar field assigned from an input that holds its read key reads
    * back as that input value. */
  lemma ScalarRead(input: Value, key: string, cfg: Value, before: Value, data: Value)
    requires ScalarField(cfg) && input.Obj? && data.Obj? && Prop(input, ReadKey(key, cfg)) != Undefined
    requires Assigned(input, key, cfg, before, Prop(data, key))
    ensures GetOr(data, [key]) == Prop(input, ReadKey(key, cfg))
  {
    GetOne(input, ReadKey(key, cfg));
    GetOne(data, key);
  }

  /** A field with no `as`, `parseAs` or `renderAs`: read and written under
    * its own key. */
  predicate Unaliased(cfg: Value)
  {
    Prop(cfg, "as") == Undefined && Prop(cfg, "parseAs") == Undefined && Prop(cfg, "renderAs") == Undefined
  }

  /** An unaliased field is read and written under its own key. */
  lemma UnaliasedKeys(key: string, cfg: Value)
    requires Unaliased(cfg)
    ensures ReadKey(key, cfg) == key && WriteKey(key, cfg) == key
  {
  }

  /** The round trip: on a contract whose schema is one level of scalar
    * fields without aliases, assigning an object that holds exactly those
    * keys, none of them undefined, and then calling `toObject` gives the
    * object back. */
  lemma AssignToObjectRoundTrip(env: Env, inst: Instance, input: Value)
    requires inst.data.Obj? && input.Obj?
    requires FlatScalar(inst.schema) && DistinctKeys(inst.schema)
    requires forall j :: 0 <= j < |Entries(inst.schema)| ==> Unaliased(Entries(inst.schema)[j].1)
    requires input.fields.Keys == set j | 0 <= j < |Entries(inst.schema)| :: Entries(inst.schema)[j].0
    requires forall k :: k in input.fields ==> input.fields[k] != Undefined
    ensures ToObject(env, AssignInstance(env, inst, input)) == input
  {
    var scope := inst.schema;
    UnaliasedLevel(scope, input);
    AssignThenRender(env, inst, input);
    var out := ToObject(env, AssignInstance(env, inst, input)).fields;
    SameFields(scope, input, out);
  }

  /** On a level of unaliased fields every key is read and written under its
    * own name. */
  lemma UnaliasedLevel(scope: Value, input: Value)
    requires input.Obj? && DistinctKeys(scope)
    requires forall j :: 0 <= j < |Entries(scope)| ==> Unaliased(Entries(scope)[j].1)
    requires input.fields.Keys == set j | 0 <= j < |Entries(scope)| :: Entries(scope)[j].0
    ensures DistinctWriteKeys(scope)
    ensures forall j :: 0 <= j < |Entries(scope)| ==>
      ReadKeyAt(scope, j) == Entries(scope)[j].0 && WriteKeyAt(scope, j) == Entries(scope)[j].0 &&
      Prop(input, ReadKeyAt(scope, j)) == input.fields[Entries(scope)[j].0]
  {
    forall j | 0 <= j < |Entries(scope)|
      ensures ReadKeyAt(scope, j) == Entries(scope)[j].0 && WriteKeyAt(scope, j) == Entries(scope)[j].0
      ensures Prop(input, ReadKeyAt(scope, j)) == input.fields[Entries(scope)[j].0]
    {
      UnaliasedKeys(Entries(scope)[j].0, Entries(scope)[j].1);
      assert Entries(scope)[j].0 in input.fields;
    }
  }

  /** An output holding each input field under its own key, and no other
    * key, is the input. */
  lemma SameFields(scope: Value, input: Value, out: map<string, Value>)
    requires input.Obj?
    requires input.fields.Keys == set j | 0 <= j < |Entries(scope)| :: Entries(scope)[j].0
    requires forall j :: 0 <= j < |Entries(scope)| ==>
      ReadKeyAt(scope, j) == Entries(scope)[j].0 && WriteKeyAt(scope, j) == Entries(scope)[j].0 &&
      Prop(input, ReadKeyAt(scope, j)) == input.fields[Entries(scope)[j].0]
    requires WritesInput(scope, input, out) && OnlyWriteKeys(scope, out)
    ensures Obj(out) == input
  {
    forall k | k in input.fields
      ensures k in out && out[k] == input.fields[k]
    {
      var j :| 0 <= j < |Entries(scope)| && Entries(scope)[j].0 == k;
      assert WriteKeyAt(scope, j) == k;
    }
    forall k | k in out
      ensures k in input.fields
    {
      var j :| 0 <= j < |Entries(scope)| && WriteKeyAt(scope, j) == k;
      assert Entries(scope)[j].0 == k;
    }
    assert out == input.fields;
  }
}
