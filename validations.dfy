// The rule library of validations.js: the two breaker rules, which end a
// field's validation when they trigger, and the nine normal rules, each a
// check and an English message. Every check and message takes the field's
// value, the rule's configuration, the field's declared type tag, the field's
// path and the contract being validated. A configuration given as a function
// is called first and its result used instead.
module Validations {
  import opened Wrappers
  import opened Numerals
  import opened JsValues

  /** What a rule is asked about: a field's value, its type tag (`dType`), its
    * path and the contract holding it. */
  datatype Subject = Subject(value: Value, dType: Value, depth: Path, contract: Instance)

  /** A user function called as `f(value, contract, dType, depth)`. */
  function CallUser(env: Env, f: nat, s: Subject): Value
  {
    env.call(f, Call(s.value, Undefined, s.contract, s.dType, s.depth, ""))
  }

  /** A computed configuration is replaced by what its function returns. */
  function Resolve(env: Env, cfg: Value, s: Subject): Value
  {
    if cfg.Fn? then CallUser(env, cfg.fid, s) else cfg
  }

  /** `undefined === v || null === v || 0 === v.length`. */
  predicate IsEmpty(v: Value)
  {
    IsNullish(v) || Prop(v, "length") == Num(0)
  }

  /** `n >= bound` and `n <= bound` after JavaScript's numeric conversion of
    * the bound; a bound that is not a number compares false. */
  predicate AtLeast(n: int, bound: Value)
  {
    match ToNumber(bound)
    case Some(b) => n >= b
    case None => false
  }

  predicate AtMost(n: int, bound: Value)
  {
    match ToNumber(bound)
    case Some(b) => n <= b
    case None => false
  }

  /** `0 < x`. */
  predicate Positive(x: Value)
  {
    match ToNumber(x)
    case Some(n) => 0 < n
    case None => false
  }

  // ---------------------------------------------------------------------------
  //  Breakers (validations.js:34-78)
  // ---------------------------------------------------------------------------

  /** `allowBlank` (validations.js:42-48): ends validation of a blank value
    * when the (possibly computed) configuration is truthy. */
  predicate AllowBlankCheck(env: Env, cfg: Value, s: Subject)
  {
    var allowed := Resolve(env, cfg, s);
    allowed != Undefined && Truthy(allowed) &&
    (IsEmpty(s.value) || Prop(s.value, "isAssignedEmpty") == Bool(true))
  }

  /** One validation context lets a field with `on: cfg` be validated. */
  predicate ContextMatches(cfg: Value, context: Value)
  {
    StrictEq(context, cfg) || context == Str("matchAnyContext") ||
    (cfg.Arr? && Includes(cfg.elems, context))
  }

  /** `on` (validations.js:58-76): ends validation unless the contract's
    * validation context, or one of a list of contexts, matches. */
  predicate OnOutbreak(cfg: Value, validationContext: Value)
  {
    if validationContext.Arr? then
      forall i :: 0 <= i < |validationContext.elems| ==> !ContextMatches(cfg, validationContext.elems[i])
    else !ContextMatches(cfg, validationContext)
  }

  /** The early-return search of validations.js:66-75. */
  method OnCheck(cfg: Value, validationContext: Value) returns (outbreak: bool)
    ensures outbreak <==> OnOutbreak(cfg, validationContext)
  {
    if validationContext.Arr? {
      var contexts := validationContext.elems;
      var i := 0;
      while i < |contexts|
        invariant 0 <= i <= |contexts|
        invariant forall j :: 0 <= j < i ==> !ContextMatches(cfg, contexts[j])
      {
        if ContextMatches(cfg, contexts[i]) {
          return false;
        }
        i := i + 1;
      }
      return true;
    }
    outbreak := !ContextMatches(cfg, validationContext);
  }

  // ---------------------------------------------------------------------------
  //  Normal rules (validations.js:80-455)
  // ---------------------------------------------------------------------------

  /** `dType` (validations.js:88-103). A null value for "Array" throws in
    * JavaScript; here it fails. */
  predicate DTypeCheck(cfg: Value, v: Value)
  {
    if cfg == Str("String") then v.Str?
    else if cfg == Str("Number") then v.Num?
    else if cfg == Str("Boolean") then v.Bool?
    else if cfg == Str("Generic") then true
    else if cfg == Str("Array") then
      TypeOf(v) == "object" && !v.Null? && TypeOf(Prop(v, "length")) == "number"
    else false
  }

  /** `presence` (validations.js:129-148). */
  predicate PresenceCheck(env: Env, cfg: Value, s: Subject)
  {
    var required := Resolve(env, cfg, s);
    var v := s.value;
    if !Truthy(required) then true
    else if s.dType == Str("String") then v.Str? && 0 < |v.s|
    else if s.dType == Str("Number") then v.Num?
    else if s.dType == Str("Boolean") then v.Bool?
    else if s.dType == Str("Generic") then !IsNullish(v)
    else if s.dType == Str("Array") then TypeOf(v) == "object" && !v.Null? && Positive(Prop(v, "length"))
    else false
  }

  /** `absence` (validations.js:173-179). */
  predicate AbsenceCheck(env: Env, cfg: Value, s: Subject)
  {
    !Truthy(Resolve(env, cfg, s)) || IsEmpty(s.value)
  }

  /** `isEmail` (validations.js:204-209); the e-mail pattern is `env.emailTest`. */
  predicate IsEmailCheck(env: Env, cfg: Value, s: Subject)
  {
    var isEmail := env.emailTest(ToStr(s.value));
    if Truthy(Resolve(env, cfg, s)) then isEmail else !isEmail
  }

  /** `match` (validations.js:237-241). A configuration that is not a regular
    * expression throws in JavaScript; here the check fails. */
  predicate MatchCheck(env: Env, cfg: Value, s: Subject)
  {
    var regex := Resolve(env, cfg, s);
    regex.Regex? && env.regexTest(regex.rid, ToStr(s.value))
  }

  /** `only` (validations.js:268-279). */
  predicate OnlyCheck(env: Env, cfg: Value, s: Subject)
  {
    var allowed := Resolve(env, cfg, s);
    var v := s.value;
    if IsEmpty(v) then true
    else if allowed.Arr? then
      if v.Arr? then forall i :: 0 <= i < |v.elems| ==> Includes(allowed.elems, v.elems[i])
      else Includes(allowed.elems, v)
    else StrictEq(allowed, v)
  }

  /** The type tags for which strictOnly compares a list as a whole. */
  predicate WholeListType(dType: Value)
  {
    dType == Str("Array") || dType == Str("Generic")
  }

  /** `strictOnly` (validations.js:320-333); the comparison of the JSON texts
    * is structural equality. */
  predicate StrictOnlyCheck(env: Env, cfg: Value, s: Subject)
  {
    var allowed := Resolve(env, cfg, s);
    var v := s.value;
    if IsEmpty(v) then true
    else if allowed.Arr? then
      if WholeListType(s.dType) then v == allowed else Includes(allowed.elems, v)
    else StrictEq(allowed, v)
  }

  /** `min` (validations.js:375-386). */
  predicate MinCheck(env: Env, cfg: Value, s: Subject)
  {
    var bound := Resolve(env, cfg, s);
    var v := s.value;
    if s.dType == Str("String") && v.Str? then AtLeast(|v.s|, bound)
    else if s.dType == Str("Array") && v.Arr? then AtLeast(|v.elems|, bound)
    else if s.dType == Str("Number") && v.Num? then AtLeast(v.n, bound)
    else true
  }

  /** `max` (validations.js:419-429). */
  predicate MaxCheck(env: Env, cfg: Value, s: Subject)
  {
    var bound := Resolve(env, cfg, s);
    var v := s.value;
    if s.dType == Str("String") && v.Str? then AtMost(|v.s|, bound)
    else if s.dType == Str("Array") && v.Arr? then AtMost(|v.elems|, bound)
    else if s.dType == Str("Number") && v.Num? then AtMost(v.n, bound)
    else true
  }

  // ---------------------------------------------------------------------------
  //  Messages (the built-in English texts)
  // ---------------------------------------------------------------------------

  function First(elems: seq<Value>): Value
  {
    if |elems| > 0 then elems[0] else Undefined
  }

  /** `elems[elems.length - 1]`. */
  function Last(elems: seq<Value>): Value
  {
    if |elems| > 0 then elems[|elems| - 1] else Undefined
  }

  /** `elems.slice(0, -1)`. */
  function AllButLast(elems: seq<Value>): seq<Value>
  {
    if |elems| > 0 then elems[..|elems| - 1] else []
  }

  /** `must be "a,b" or "c"` for a list, `must be "x"` otherwise. */
  function ChoiceMessage(allowed: Value, listed: bool): string
  {
    if listed && allowed.Arr? then
      "must be \"" + Join(AllButLast(allowed.elems), ",") + "\" or \"" + ToStr(Last(allowed.elems)) + "\""
    else "must be \"" + ToStr(allowed) + "\""
  }

  /** validations.js:119. */
  function DTypeMessage(cfg: Value, s: Subject): Value
  {
    Str("\"" + ToStr(s.value) + "\" is not a valid " + ToStr(cfg))
  }

  /** validations.js:215-228. */
  function IsEmailMessage(env: Env, cfg: Value, s: Subject): Value
  {
    if Truthy(Resolve(env, cfg, s)) then Str("must be a valid E-Mail") else Str("must not be an E-Mail")
  }

  /** validations.js:305-310: a list of fewer than two values is replaced by
    * its first element. */
  function OnlyMessage(env: Env, cfg: Value, s: Subject): Value
  {
    var allowed := Resolve(env, cfg, s);
    var shown := if allowed.Arr? && |allowed.elems| < 2 then First(allowed.elems) else allowed;
    Str(ChoiceMessage(shown, true))
  }

  /** validations.js:359-364: on Array and Generic fields a list is shown whole. */
  function StrictOnlyMessage(env: Env, cfg: Value, s: Subject): Value
  {
    var allowed := Resolve(env, cfg, s);
    var listed := !WholeListType(s.dType);
    var shown := if allowed.Arr? && |allowed.elems| < 2 && listed then First(allowed.elems) else allowed;
    Str(ChoiceMessage(shown, listed))
  }

  /** validations.js:407-409; other type tags have no message (undefined). */
  function MinMessage(env: Env, cfg: Value, s: Subject): Value
  {
    var bound := ToStr(Resolve(env, cfg, s));
    if s.dType == Str("String") then Str("must have at least " + bound + " characters")
    else if s.dType == Str("Array") then Str("must have at least " + bound + " elements")
    else if s.dType == Str("Number") then Str("must be greater than or equal to " + bound)
    else Undefined
  }

  /** validations.js:450-452. */
  function MaxMessage(env: Env, cfg: Value, s: Subject): Value
  {
    var bound := ToStr(Resolve(env, cfg, s));
    if s.dType == Str("String") then Str("must have less than " + bound + " characters")
    else if s.dType == Str("Array") then Str("must have less than " + bound + " elements")
    else if s.dType == Str("Number") then Str("must be lower or equal than " + bound)
    else Undefined
  }

  // ---------------------------------------------------------------------------
  //  Dispatch and the rule registry
  // ---------------------------------------------------------------------------

  /** A class-supplied function called as `f(value, config, dType, depth, contract)`. */
  function CallRule(env: Env, f: nat, name: string, cfg: Value, s: Subject): Value
  {
    env.call(f, Call(s.value, cfg, s.contract, s.dType, s.depth, name))
  }

  /** `rule.check(value, config, dType, depth, contract)`, read as a truth value. */
  predicate Check(env: Env, name: string, rule: Rule, cfg: Value, s: Subject)
  {
    match rule
    case AllowBlank => AllowBlankCheck(env, cfg, s)
    case On => OnOutbreak(cfg, s.contract.validationContext)
    case DType => DTypeCheck(cfg, s.value)
    case Presence => PresenceCheck(env, cfg, s)
    case Absence => AbsenceCheck(env, cfg, s)
    case IsEmail => IsEmailCheck(env, cfg, s)
    case Match => MatchCheck(env, cfg, s)
    case Only => OnlyCheck(env, cfg, s)
    case StrictOnly => StrictOnlyCheck(env, cfg, s)
    case Min => MinCheck(env, cfg, s)
    case Max => MaxCheck(env, cfg, s)
    case Custom(check, _) => Truthy(CallRule(env, check, name, cfg, s))
  }

  /** `rule.message(value, config, dType, depth, contract)`. Breakers have none. */
  function Message(env: Env, name: string, rule: Rule, cfg: Value, s: Subject): Value
  {
    match rule
    case AllowBlank => Undefined
    case On => Undefined
    case DType => DTypeMessage(cfg, s)
    case Presence => Str("not present")
    case Absence => Str("must be absent")
    case IsEmail => IsEmailMessage(env, cfg, s)
    case Match => Str("invalid")
    case Only => OnlyMessage(env, cfg, s)
    case StrictOnly => StrictOnlyMessage(env, cfg, s)
    case Min => MinMessage(env, cfg, s)
    case Max => MaxMessage(env, cfg, s)
    case Custom(_, message) => CallRule(env, message, name, cfg, s)
  }

  /** `validationDefinitions` (validations.js:32-456). */
  const Builtin: RuleSet := RuleSet(
    map["allowBlank" := AllowBlank, "on" := On],
    map["dType" := DType, "presence" := Presence, "absence" := Absence, "isEmail" := IsEmail,
        "match" := Match, "only" := Only, "strictOnly" := StrictOnly, "min" := Min, "max" := Max])

  /** The library's rules extended by a class's own; a class rule replaces a
    * library rule of the same name. */
  function WithAdditional(extra: RuleSet): (r: RuleSet)
    ensures r.breaker.Keys == Builtin.breaker.Keys + extra.breaker.Keys
    ensures r.normal.Keys == Builtin.normal.Keys + extra.normal.Keys
    ensures forall n :: n in extra.normal ==> r.normal[n] == extra.normal[n]
    ensures forall n :: n in extra.breaker ==> r.breaker[n] == extra.breaker[n]
    ensures forall n :: n in Builtin.normal && n !in extra.normal ==> r.normal[n] == Builtin.normal[n]
    ensures forall n :: n in Builtin.breaker && n !in extra.breaker ==> r.breaker[n] == Builtin.breaker[n]
  {
    RuleSet(Builtin.breaker + extra.breaker, Builtin.normal + extra.normal)
  }

  // ---------------------------------------------------------------------------
  //  Properties of the rules
  // ---------------------------------------------------------------------------

  /** allowBlank never triggers when its configuration is falsy or undefined.
    * With a truthy configuration it triggers on undefined and null, on a
    * string or list exactly when it is empty, never on a number or boolean,
    * and on a contract exactly when it was assigned nothing (unless its
    * schema has a field named `length`). */
  lemma AllowBlankTruth(env: Env, cfg: Value, s: Subject)
    ensures !Truthy(Resolve(env, cfg, s)) ==> !AllowBlankCheck(env, cfg, s)
    ensures Truthy(Resolve(env, cfg, s)) ==>
      (IsNullish(s.value) ==> AllowBlankCheck(env, cfg, s)) &&
      (s.value.Str? ==> (AllowBlankCheck(env, cfg, s) <==> s.value.s == "")) &&
      (s.value.Arr? ==> (AllowBlankCheck(env, cfg, s) <==> s.value.elems == [])) &&
      (s.value.Num? || s.value.Bool? ==> !AllowBlankCheck(env, cfg, s)) &&
      (s.value.Contract? && !(s.value.inst.data.Obj? && "length" in s.value.inst.data.fields) ==>
         (AllowBlankCheck(env, cfg, s) <==> s.value.inst.isAssignedEmpty))
  {
    assert ParseIndex("isAssignedEmpty").None? by {
      assert !IsDigit('i');
    }
  }

  /** The blank values allowBlank recognises: the empty string, the empty
    * list, and a contract that was assigned nothing. */
  lemma AllowBlankBlanks(env: Env, s: Subject)
    ensures AllowBlankCheck(env, Bool(true), s.(value := Str("")))
    ensures AllowBlankCheck(env, Bool(true), s.(value := Arr([])))
    ensures !AllowBlankCheck(env, Bool(true), s.(value := Str("a")))
    ensures !AllowBlankCheck(env, Bool(true), s.(value := Num(0)))
    ensures s.contract.isAssignedEmpty ==>
      AllowBlankCheck(env, Bool(true), s.(value := Contract(s.contract)))
  {
  }

  /** A field is validated in context `c` when `on` names `c`, lists it, or
    * the context is "matchAnyContext"; with several contexts, when at least
    * one of them does. */
  lemma OnProceeds(cfg: Value, contexts: seq<Value>, c: Value)
    ensures !c.Arr? ==> (!OnOutbreak(cfg, c) <==> ContextMatches(cfg, c))
    ensures !OnOutbreak(cfg, Arr(contexts)) <==> exists i :: 0 <= i < |contexts| && ContextMatches(cfg, contexts[i])
    ensures !OnOutbreak(cfg, Str("matchAnyContext"))
    ensures OnOutbreak(cfg, Arr([]))
  {
  }

  /** dType: each named tag accepts exactly its own kind of value, Generic
    * accepts everything and an unknown tag nothing. */
  lemma DTypeTruth(cfg: Value, v: Value)
    ensures DTypeCheck(Str("String"), v) <==> v.Str?
    ensures DTypeCheck(Str("Number"), v) <==> v.Num?
    ensures DTypeCheck(Str("Boolean"), v) <==> v.Bool?
    ensures DTypeCheck(Str("Generic"), v)
    ensures v.Arr? ==> DTypeCheck(Str("Array"), v)
    ensures v.Str? || v.Num? || v.Bool? || IsNullish(v) ==> !DTypeCheck(Str("Array"), v)
    ensures cfg !in [Str("String"), Str("Number"), Str("Boolean"), Str("Generic"), Str("Array")] ==> !DTypeCheck(cfg, v)
  {
  }

  /** presence: a falsy requirement always passes; otherwise strings and
    * lists must be non-empty, numbers and booleans of their kind, Generic
    * values defined, and an unknown tag fails. */
  lemma PresenceTruth(env: Env, cfg: Value, s: Subject)
    ensures !Truthy(Resolve(env, cfg, s)) ==> PresenceCheck(env, cfg, s)
    ensures Truthy(Resolve(env, cfg, s)) ==>
      (s.dType == Str("String") ==> (PresenceCheck(env, cfg, s) <==> s.value.Str? && s.value.s != "")) &&
      (s.dType == Str("Number") ==> (PresenceCheck(env, cfg, s) <==> s.value.Num?)) &&
      (s.dType == Str("Boolean") ==> (PresenceCheck(env, cfg, s) <==> s.value.Bool?)) &&
      (s.dType == Str("Generic") ==> (PresenceCheck(env, cfg, s) <==> !IsNullish(s.value))) &&
      (s.dType == Str("Array") && s.value.Arr? ==> (PresenceCheck(env, cfg, s) <==> |s.value.elems| > 0)) &&
      (s.dType !in [Str("String"), Str("Number"), Str("Boolean"), Str("Generic"), Str("Array")] ==>
         !PresenceCheck(env, cfg, s))
  {
  }

  /** absence passes exactly when it is not required or the value is empty. */
  lemma AbsenceTruth(env: Env, cfg: Value, s: Subject)
    ensures AbsenceCheck(env, cfg, s) <==>
      !Truthy(Resolve(env, cfg, s)) || s.value == Undefined || s.value == Null || Prop(s.value, "length") == Num(0)
    ensures Truthy(Resolve(env, cfg, s)) && s.value.Str? ==> (AbsenceCheck(env, cfg, s) <==> s.value.s == "")
  {
  }

  /** only and strictOnly accept every empty value. */
  lemma ChoicesAcceptEmpty(env: Env, cfg: Value, s: Subject)
    requires IsEmpty(s.value)
    ensures OnlyCheck(env, cfg, s) && StrictOnlyCheck(env, cfg, s)
  {
  }

  /** only with a list: a scalar must be listed, and a list value must have
    * every element listed. */
  lemma {:induction false} OnlyList(env: Env, allowed: seq<Value>, s: Subject)
    requires !IsEmpty(s.value)
    ensures !s.value.Arr? ==> (OnlyCheck(env, Arr(allowed), s) <==> Includes(allowed, s.value))
    ensures s.value.Arr? ==>
      (OnlyCheck(env, Arr(allowed), s) <==> forall x :: x in s.value.elems ==> Includes(allowed, x))
  {
    if s.value.Arr? {
      var e := s.value.elems;
      if forall i :: 0 <= i < |e| ==> Includes(allowed, e[i]) {
        forall x | x in e ensures Includes(allowed, x) {
          var i :| 0 <= i < |e| && e[i] == x;
        }
      }
    }
  }

  /** strictOnly with a list on an Array or Generic field wants that very
    * list; on other fields it wants one of the listed values. */
  lemma StrictOnlyList(env: Env, allowed: seq<Value>, s: Subject)
    requires !IsEmpty(s.value)
    ensures WholeListType(s.dType) ==> (StrictOnlyCheck(env, Arr(allowed), s) <==> s.value == Arr(allowed))
    ensures !WholeListType(s.dType) ==> (StrictOnlyCheck(env, Arr(allowed), s) <==> Includes(allowed, s.value))
  {
  }

  /** min and max are inclusive bounds on the length of strings and lists and
    * on the value of numbers; every other pairing of tag and value passes. */
  lemma BoundsTruth(env: Env, b: int, s: Subject)
    ensures s.dType == Str("String") && s.value.Str? ==>
      (MinCheck(env, Num(b), s) <==> |s.value.s| >= b) && (MaxCheck(env, Num(b), s) <==> |s.value.s| <= b)
    ensures s.dType == Str("Array") && s.value.Arr? ==>
      (MinCheck(env, Num(b), s) <==> |s.value.elems| >= b) && (MaxCheck(env, Num(b), s) <==> |s.value.elems| <= b)
    ensures s.dType == Str("Number") && s.value.Num? ==>
      (MinCheck(env, Num(b), s) <==> s.value.n >= b) && (MaxCheck(env, Num(b), s) <==> s.value.n <= b)
    ensures (!(s.dType == Str("String") && s.value.Str?) && !(s.dType == Str("Array") && s.value.Arr?) &&
             !(s.dType == Str("Number") && s.value.Num?)) ==> MinCheck(env, Num(b), s) && MaxCheck(env, Num(b), s)
  {
  }

  /** dType names the value and the expected type. */
  lemma DTypeMessageText(env: Env, s: Subject)
    ensures Message(env, "dType", DType, Str("String"), s.(value := Num(5))) == Str("\"5\" is not a valid String")
  {
    var five := s.(value := Num(5));
    assert ToStr(five.value) == [DigitChar(5)] == "5";
    var head := "\"" + "5" + "\" is not a valid ";
    assert head == "\"5\" is not a valid ";
    assert head + "String" == "\"5\" is not a valid String";
  }

  /** presence and absence have fixed texts. */
  lemma FixedMessages(env: Env, cfg: Value, s: Subject)
    ensures Message(env, "presence", Presence, cfg, s) == Str("not present")
    ensures Message(env, "absence", Absence, cfg, s) == Str("must be absent")
  {
  }

  /** only renders a list of one value as that value, and a scalar as itself. */
  lemma OnlySingleMessage(env: Env, s: Subject)
    ensures OnlyMessage(env, Arr([Str("a")]), s) == Str("must be \"a\"")
    ensures OnlyMessage(env, Str("a"), s) == Str("must be \"a\"")
  {
    assert First([Str("a")]) == Str("a");
    assert "must be \"" + "a" + "\"" == "must be \"a\"";
  }

  /** only renders a longer list as all but the last joined by commas, then
    * the last. */
  lemma OnlyListMessage(env: Env, s: Subject)
    ensures OnlyMessage(env, Arr([Str("a"), Str("b"), Str("c")]), s) == Str("must be \"a,b\" or \"c\"")
  {
    var abc := [Str("a"), Str("b"), Str("c")];
    assert AllButLast(abc) == [Str("a"), Str("b")];
    assert Last(abc) == Str("c");
    assert Join([Str("b")], ",") == "b";
    assert [Str("a"), Str("b")][1..] == [Str("b")];
    assert Join([Str("a"), Str("b")], ",") == "a" + "," + "b" == "a,b";
    var head := "must be \"" + "a,b" + "\" or \"";
    assert head == "must be \"a,b\" or \"";
    assert head + "c" + "\"" == "must be \"a,b\" or \"c\"";
  }

  /** isEmail wants the e-mail pattern to accept the value when required and
    * to reject it otherwise; match wants a regular expression that accepts
    * the value, and anything else fails. */
  lemma PatternRules(env: Env, cfg: Value, s: Subject)
    ensures Truthy(Resolve(env, cfg, s)) ==> (IsEmailCheck(env, cfg, s) <==> env.emailTest(ToStr(s.value)))
    ensures !Truthy(Resolve(env, cfg, s)) ==> (IsEmailCheck(env, cfg, s) <==> !env.emailTest(ToStr(s.value)))
    ensures !Resolve(env, cfg, s).Regex? ==> !MatchCheck(env, cfg, s)
    ensures Resolve(env, cfg, s).Regex? ==>
      (MatchCheck(env, cfg, s) <==> env.regexTest(Resolve(env, cfg, s).rid, ToStr(s.value)))
    ensures Message(env, "match", Match, cfg, s) == Str("invalid")
    ensures Message(env, "isEmail", IsEmail, Bool(true), s) == Str("must be a valid E-Mail")
    ensures Message(env, "isEmail", IsEmail, Bool(false), s) == Str("must not be an E-Mail")
  {
  }

  /** The texts of min for each type tag, and none for other tags. */
  lemma MinMessages(env: Env, s: Subject)
    ensures s.dType == Str("String") ==> MinMessage(env, Num(3), s) == Str("must have at least 3 characters")
    ensures s.dType == Str("Array") ==> MinMessage(env, Num(3), s) == Str("must have at least 3 elements")
    ensures s.dType == Str("Number") ==> MinMessage(env, Num(3), s) == Str("must be greater than or equal to 3")
    ensures s.dType == Str("Boolean") ==> MinMessage(env, Num(3), s) == Undefined
  {
    assert DigitChar(3) == '3';
    assert ToStr(Resolve(env, Num(3), s)) == "3";
  }

  /** The texts of max for each type tag, and none for other tags. */
  lemma MaxMessages(env: Env, s: Subject)
    ensures s.dType == Str("String") ==> MaxMessage(env, Num(3), s) == Str("must have less than 3 characters")
    ensures s.dType == Str("Array") ==> MaxMessage(env, Num(3), s) == Str("must have less than 3 elements")
    ensures s.dType == Str("Number") ==> MaxMessage(env, Num(3), s) == Str("must be lower or equal than 3")
    ensures s.dType == Str("Boolean") ==> MaxMessage(env, Num(3), s) == Undefined
  {
    assert DigitChar(3) == '3';
    assert ToStr(Resolve(env, Num(3), s)) == "3";
  }
}
