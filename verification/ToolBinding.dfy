/** Binding the arguments of a tool call to a function, against the schema sent out for the function. */
module ToolBinding {
  import opened Wrappers
  import opened ToolTypes

  /** A parameter that takes one argument, positional or keyword-only. */
  datatype Param = Param(name: string, hint: Option<Type>, default: Option<Value>)

  datatype BindError = UnexpectedKeyword | MissingRequired | InvalidValue(name: string)

  predicate DistinctParams(params: seq<Param>) {
    forall i, j :: 0 <= i < j < |params| ==> params[i].name != params[j].name
  }

  function ParamNames(params: seq<Param>): set<string> {
    set i | 0 <= i < |params| :: params[i].name
  }

  // --- The schema of a function -------------------------------------------------------------------

  /** A parameter without a hint is advertised as a string. */
  function HintOf(p: Param): Type { if p.hint.Some? then p.hint.value else TStr }

  datatype FunctionSchema = FunctionSchema(properties: map<string, Schema>, required: set<string>)

  function SchemaOfFunction(policy: EnumPolicy, params: seq<Param>): Option<FunctionSchema> {
    if params == [] then Some(FunctionSchema(map[], {}))
    else
      var last := params[|params| - 1];
      match (SchemaOfFunction(policy, params[..|params| - 1]), SchemaOf(policy, HintOf(last)))
      case (Some(f), Some(s)) =>
        Some(FunctionSchema(f.properties[last.name := s],
                            if last.default.None? then f.required + {last.name} else f.required))
      case (None, _) => None
      case (Some(_), None) => None
  }

  /** An argument object valid against a function schema, with no property the schema does not know. */
  ghost predicate ArgumentsMatch(args: map<string, Value>, f: FunctionSchema) {
    && args.Keys <= f.properties.Keys
    && f.required <= args.Keys
    && forall name <- args :: name in f.properties && ValidFor(args[name], f.properties[name])
  }

  lemma {:induction false} FunctionSchemaAt(policy: EnumPolicy, params: seq<Param>, i: nat)
    requires DistinctParams(params) && SchemaOfFunction(policy, params).Some? && i < |params|
    ensures var f := SchemaOfFunction(policy, params).value;
            && params[i].name in f.properties
            && Some(f.properties[params[i].name]) == SchemaOf(policy, HintOf(params[i]))
            && (params[i].name in f.required <==> params[i].default.None?)
  {
    var n := |params| - 1;
    FunctionSchemaNames(policy, params[..n]);
    if i < n {
      assert params[..n][i] == params[i] && params[n].name != params[i].name;
      FunctionSchemaAt(policy, params[..n], i);
    } else {
      forall j | 0 <= j < n ensures params[..n][j].name != params[n].name {}
      assert params[n].name !in ParamNames(params[..n]);
    }
  }

  lemma {:induction false} FunctionSchemaNames(policy: EnumPolicy, params: seq<Param>)
    requires SchemaOfFunction(policy, params).Some?
    ensures var f := SchemaOfFunction(policy, params).value;
            f.properties.Keys == ParamNames(params) && f.required <= ParamNames(params)
  {
    if params != [] {
      var n := |params| - 1;
      FunctionSchemaNames(policy, params[..n]);
      NamesOfLast(params);
    }
  }

  lemma NamesOfLast(params: seq<Param>)
    requires params != []
    ensures ParamNames(params) == ParamNames(params[..|params| - 1]) + {params[|params| - 1].name}
  {
  }

  // --- Binding --------------------------------------------------------------------------------------

  /** Some parameter has neither an argument nor a default. */
  predicate Missing(params: seq<Param>, args: map<string, Value>) {
    exists i :: 0 <= i < |params| && params[i].default.None? && params[i].name !in args
  }

  /** apply_defaults: the arguments, and the defaults of the omitted parameters. */
  function WithDefaults(params: seq<Param>, args: map<string, Value>): map<string, Value> {
    if params == [] then args
    else
      var p := params[|params| - 1];
      var bound := WithDefaults(params[..|params| - 1], args);
      if p.name in args || p.default.None? then bound else bound[p.name := p.default.value]
  }

  lemma {:induction false} WithDefaultsKeys(params: seq<Param>, args: map<string, Value>)
    requires forall i :: 0 <= i < |params| ==> params[i].default.Some? || params[i].name in args
    ensures WithDefaults(params, args).Keys == args.Keys + ParamNames(params)
  {
    if params != [] {
      var n := |params| - 1;
      WithDefaultsKeys(params[..n], args);
      NamesOfLast(params);
    }
  }

  lemma {:induction false} WithDefaultsAt(params: seq<Param>, args: map<string, Value>, i: nat)
    requires DistinctParams(params) && i < |params| && (params[i].default.Some? || params[i].name in args)
    ensures params[i].name in WithDefaults(params, args)
    ensures WithDefaults(params, args)[params[i].name] == Supplied(params[i], args)
  {
    var n := |params| - 1;
    if i < n {
      assert params[..n][i] == params[i] && params[n].name != params[i].name;
      WithDefaultsAt(params[..n], args, i);
    } else if params[n].name in args {
      WithDefaultsKeep(params[..n], args, params[n].name);
    }
  }

  lemma {:induction false} WithDefaultsKeep(params: seq<Param>, args: map<string, Value>, name: string)
    requires name in args
    ensures name in WithDefaults(params, args) && WithDefaults(params, args)[name] == args[name]
  {
    if params != [] {
      WithDefaultsKeep(params[..|params| - 1], args, name);
    }
  }

  lemma WithDefaultsBinds(params: seq<Param>, args: map<string, Value>)
    requires DistinctParams(params) && !Missing(params, args)
    ensures WithDefaults(params, args).Keys == args.Keys + ParamNames(params)
    ensures forall i :: 0 <= i < |params| ==>
              && params[i].name in WithDefaults(params, args)
              && WithDefaults(params, args)[params[i].name] == Supplied(params[i], args)
  {
    WithDefaultsKeys(params, args);
    forall i | 0 <= i < |params|
      ensures params[i].name in WithDefaults(params, args)
      ensures WithDefaults(params, args)[params[i].name] == Supplied(params[i], args)
    {
      WithDefaultsAt(params, args, i);
    }
  }

  /** What a parameter starts out with. */
  function Supplied(p: Param, args: map<string, Value>): Value
    requires p.name in args || p.default.Some?
  {
    if p.name in args then args[p.name] else p.default.value
  }

  /** Coerces the hinted parameters in order, in place, and stops at the first that fails. */
  function CoerceArguments(py: Python, params: seq<Param>, bound: map<string, Value>)
    : Result<map<string, Value>, BindError>
    requires ParamNames(params) <= bound.Keys
    decreases |params|
  {
    if params == [] then Ok(bound)
    else
      var p := params[0];
      assert p.name in ParamNames(params);
      assert ParamNames(params[1..]) <= ParamNames(params) by {
        assert forall i :: 0 <= i < |params[1..]| ==> params[1..][i] == params[i + 1];
      }
      if p.hint.None? then CoerceArguments(py, params[1..], bound)
      else
        match Coerce(py, bound[p.name], p.hint.value)
        case Some(v) => CoerceArguments(py, params[1..], bound[p.name := v])
        case None => Err(InvalidValue(p.name))
  }

  function Bind(py: Python, params: seq<Param>, args: map<string, Value>): Result<map<string, Value>, BindError>
    requires DistinctParams(params)
  {
    if !(args.Keys <= ParamNames(params)) then Err(UnexpectedKeyword)
    else if Missing(params, args) then Err(MissingRequired)
    else WithDefaultsBinds(params, args); CoerceArguments(py, params, WithDefaults(params, args))
  }

  method BindParamsToFunc(py: Python, params: seq<Param>, args: map<string, Value>)
    returns (r: Result<map<string, Value>, BindError>)
    requires DistinctParams(params)
    ensures r == Bind(py, params, args)
  {
    if !(args.Keys <= ParamNames(params)) {
      return Err(UnexpectedKeyword);
    }
    for i := 0 to |params|
      invariant forall j :: 0 <= j < i ==> params[j].default.Some? || params[j].name in args
    {
      if params[i].default.None? && params[i].name !in args {
        return Err(MissingRequired);
      }
    }
    WithDefaultsBinds(params, args);
    r := CoerceBound(py, params, WithDefaults(params, args));
  }

  /** The loop that overwrites the bound arguments with their coerced values. */
  method CoerceBound(py: Python, params: seq<Param>, bound: map<string, Value>)
    returns (r: Result<map<string, Value>, BindError>)
    requires ParamNames(params) <= bound.Keys
    ensures r == CoerceArguments(py, params, bound)
  {
    var arguments := bound;
    var i := 0;
    while i < |params|
      invariant 0 <= i <= |params| && arguments.Keys == bound.Keys
      invariant ParamNames(params[i..]) <= arguments.Keys
      invariant CoerceArguments(py, params[i..], arguments) == CoerceArguments(py, params, bound)
    {
      var p := params[i];
      assert params[i..][0] == p && params[i..][1..] == params[i + 1..];
      assert p.name in ParamNames(params);
      TailNames(params, i + 1);
      if p.hint.Some? {
        var coerced := Coerce(py, arguments[p.name], p.hint.value);
        if coerced.None? {
          return Err(InvalidValue(p.name));
        }
        arguments := arguments[p.name := coerced.value];
      }
      i := i + 1;
    }
    r := Ok(arguments);
  }

  lemma TailNames(params: seq<Param>, i: nat)
    requires i <= |params|
    ensures ParamNames(params[i..]) <= ParamNames(params)
  {
  }

  // --- What binding gives ---------------------------------------------------------------------------

  /** Coercing the arguments succeeds exactly when each hinted one coerces, and then holds each result. */
  lemma {:induction false} CoerceArgumentsAt(py: Python, params: seq<Param>, bound: map<string, Value>)
    requires DistinctParams(params) && ParamNames(params) <= bound.Keys
    ensures var r := CoerceArguments(py, params, bound);
            && (r.Ok? <==> forall i :: 0 <= i < |params| && params[i].hint.Some? ==>
                             Coerce(py, bound[params[i].name], params[i].hint.value).Some?)
            && (r.Ok? ==>
                  && r.value.Keys == bound.Keys
                  && (forall name <- bound :: name !in ParamNames(params) ==> r.value[name] == bound[name])
                  && forall i :: 0 <= i < |params| ==>
                       if params[i].hint.Some?
                       then Some(r.value[params[i].name]) == Coerce(py, bound[params[i].name], params[i].hint.value)
                       else r.value[params[i].name] == bound[params[i].name])
    decreases |params|
  {
    if params != [] {
      var p, rest := params[0], params[1..];
      TailNames(params, 1);
      assert p.name in ParamNames(params);
      forall i | 0 <= i < |rest| ensures rest[i] == params[i + 1] && rest[i].name != p.name && rest[i].name in ParamNames(rest) {}
      assert p.name !in ParamNames(rest);
      if p.hint.None? {
        CoerceArgumentsAt(py, rest, bound);
      } else if Coerce(py, bound[p.name], p.hint.value).Some? {
        CoerceArgumentsAt(py, rest, bound[p.name := Coerce(py, bound[p.name], p.hint.value).value]);
      }
    }
  }

  /** Every bound argument inhabits its hint, and one without a hint is passed on as it came. */
  lemma BindIsSound(py: Python, params: seq<Param>, args: map<string, Value>)
    requires DistinctParams(params) && Bind(py, params, args).Ok?
    requires forall i :: 0 <= i < |params| && params[i].hint.Some? && (params[i].name in args || params[i].default.Some?) ==>
               NonesFit(Supplied(params[i], args), params[i].hint.value)
    ensures var bound := Bind(py, params, args).value;
            && bound.Keys == ParamNames(params)
            && forall i :: 0 <= i < |params| ==>
                 && params[i].name in bound
                 && if params[i].hint.Some? then HasType(bound[params[i].name], params[i].hint.value)
                    else bound[params[i].name] == Supplied(params[i], args)
  {
    var start := WithDefaults(params, args);
    WithDefaultsBinds(params, args);
    CoerceArgumentsAt(py, params, start);
    forall i | 0 <= i < |params| && params[i].hint.Some?
      ensures HasType(Bind(py, params, args).value[params[i].name], params[i].hint.value)
    {
      assert params[i].name in ParamNames(params);
      CoerceIsSound(py, start[params[i].name], params[i].hint.value);
    }
    assert forall i :: 0 <= i < |params| ==> params[i].name in ParamNames(params);
  }

  /** The default of an omitted parameter is coerced like an argument: it must fit the hint too. */
  predicate DefaultFits(py: Python, p: Param, args: map<string, Value>) {
    p.name !in args && p.hint.Some? && p.default.Some? ==> Coerce(py, p.default.value, p.hint.value).Some?
  }

  /** An argument object that matches the schema of a function binds to it if and only if the default of
      every parameter it leaves out fits the hint of that parameter, its own integers fitting the floats
      they stand for. */
  lemma MatchingArgumentsBindIff(py: Python, policy: EnumPolicy, params: seq<Param>, args: map<string, Value>)
    requires DistinctParams(params) && SchemaOfFunction(policy, params).Some?
    requires forall i :: 0 <= i < |params| ==> SmallEnums(policy, HintOf(params[i]))
    requires ArgumentsMatch(args, SchemaOfFunction(policy, params).value)
    requires forall i :: 0 <= i < |params| && params[i].name in args ==> FloatsFit(py, args[params[i].name], HintOf(params[i]))
    ensures Bind(py, params, args).Ok? <==> forall i :: 0 <= i < |params| ==> DefaultFits(py, params[i], args)
  {
    var f := SchemaOfFunction(policy, params).value;
    FunctionSchemaNames(policy, params);
    forall i | 0 <= i < |params| ensures params[i].default.Some? || params[i].name in args {
      FunctionSchemaAt(policy, params, i);
    }
    var start := WithDefaults(params, args);
    WithDefaultsBinds(params, args);
    CoerceArgumentsAt(py, params, start);
    forall i | 0 <= i < |params|
      ensures params[i].hint.Some? ==>
        (Coerce(py, start[params[i].name], params[i].hint.value).Some? <==> DefaultFits(py, params[i], args))
    {
      FunctionSchemaAt(policy, params, i);
      if params[i].name in args && params[i].hint.Some? {
        SchemaIsAccepted(py, policy, args[params[i].name], params[i].hint.value);
      }
    }
  }

  /** So a function whose schema does not require x cannot be called without it if the default is refused. */
  lemma DefaultMustFit(py: Python, policy: EnumPolicy, hint: Type, default: Value)
    requires SchemaOf(policy, hint).Some?
    ensures var params := [Param("x", Some(hint), Some(default))];
            && SchemaOfFunction(policy, params).Some?
            && ArgumentsMatch(map[], SchemaOfFunction(policy, params).value)
            && Bind(py, params, map[]) ==
               match Coerce(py, default, hint) case Some(v) => Ok(map["x" := v]) case None => Err(InvalidValue("x"))
  {
    var params := [Param("x", Some(hint), Some(default))];
    assert params[..0] == [] && params[1..] == [];
    var bound := map["x" := default];
    assert WithDefaults(params, map[]) == bound;
    if Coerce(py, default, hint).Some? {
      var coerced := bound["x" := Coerce(py, default, hint).value];
      assert coerced == map["x" := Coerce(py, default, hint).value];
      assert CoerceArguments(py, [], coerced) == Ok(coerced);
    }
    assert CoerceArguments(py, params, bound) ==
           match Coerce(py, default, hint) case Some(v) => Ok(map["x" := v]) case None => Err(InvalidValue("x"));
  }

  /** Such as `def f(x: int = None)`, where the hint is taken as it is written. */
  lemma NoneDefaultNeedsOptional(py: Python, policy: EnumPolicy)
    ensures Bind(py, [Param("x", Some(TInt), Some(VNone))], map[]) == Err(InvalidValue("x"))
  {
    DefaultMustFit(py, policy, TInt, VNone);
  }
}
