/**
 * The evaluation context: IEvaluationContext and its default implementation
 * EvaluationContext (ILMath/EvaluationContext.cs).
 *
 * The interface is seen by the back ends as a value, `Env`: a variable table
 * and a function table, with `GetVariable` and `CallFunction`. The class
 * `EvaluationContext` holds the two tables as fields that `RegisterVariable`
 * and `RegisterFunction` update in place.
 */
module Evaluation {
  import opened Wrappers
  import opened Numbers

  /** The exceptions the core raises or lets through. */
  datatype Exception =
    | CompilerException(message: string)
    | EvaluationException(message: string)
    | ArgumentException(message: string)    // Dictionary.Add with a key already present
    | IndexOutOfRangeException              // a built-in reading a parameter the span does not hold
    | AssertionFailure(message: string)     // a failed Debug.Assert

  /** `MathFunction`: a host function over the span of parameters; it may throw. */
  type MathFunction = seq<Num> -> Result<Num, Exception>

  /** `IEvaluationContext`, as the back ends see it. */
  datatype Env = Env(variables: map<string, Num>, functions: map<string, MathFunction>) {

    /** `GetVariable`: the registered value, or "Unknown variable: id". */
    function GetVariable(identifier: string): (r: Result<Num, Exception>)
      ensures r.Success? <==> identifier in variables
      ensures r.Success? ==> r.value == variables[identifier]
      ensures r.Failure? ==> r.error == EvaluationException("Unknown variable: " + identifier)
    {
      if identifier in variables then Success(variables[identifier])
      else Failure(EvaluationException("Unknown variable: " + identifier))
    }

    /** `CallFunction`: the registered function applied to the parameters, or "Unknown function: id". */
    function CallFunction(identifier: string, parameters: seq<Num>): (r: Result<Num, Exception>)
      ensures identifier in functions ==> r == functions[identifier](parameters)
      ensures identifier !in functions ==> r == Failure(EvaluationException("Unknown function: " + identifier))
    {
      if identifier in functions then functions[identifier](parameters)
      else Failure(EvaluationException("Unknown function: " + identifier))
    }
  }

  // ---------------------------------------------------------------------------
  // Dictionary.Add, on values.

  /** The message of the ArgumentException `Dictionary.Add` throws for a present key. */
  function DuplicateKeyMessage(key: string): string {
    "An item with the same key has already been added. Key: " + key
  }

  /** `Dictionary.Add(key, value)`: the extended table, or an ArgumentException when the key is present. */
  function Add<V>(table: map<string, V>, key: string, value: V): Result<map<string, V>, Exception> {
    if key in table then Failure(ArgumentException(DuplicateKeyMessage(key)))
    else Success(table[key := value])
  }

  /** A run of `Add` calls in order, stopping at the first that throws. */
  function AddAll<V>(table: map<string, V>, entries: seq<(string, V)>): Result<map<string, V>, Exception>
    decreases |entries|
  {
    if entries == [] then Success(table)
    else
      var next := Add(table, entries[0].0, entries[0].1);
      if next.Failure? then Failure(next.error) else AddAll(next.value, entries[1..])
  }

  /** The keys a run of adds uses. */
  function KeySet<V>(entries: seq<(string, V)>): set<string> {
    if entries == [] then {} else {entries[0].0} + KeySet(entries[1..])
  }

  /** No key occurs twice in the run. */
  predicate DistinctKeys<V>(entries: seq<(string, V)>) {
    forall i, j :: 0 <= i < j < |entries| ==> entries[i].0 != entries[j].0
  }

  lemma {:induction false} KeySetMembers<V>(entries: seq<(string, V)>)
    ensures forall k :: k in KeySet(entries) <==> exists i :: 0 <= i < |entries| && entries[i].0 == k
    decreases |entries|
  {
    if entries != [] {
      var rest := entries[1..];
      KeySetMembers(rest);
      assert KeySet(entries) == {entries[0].0} + KeySet(rest);
      forall k | k in KeySet(entries) ensures exists i :: 0 <= i < |entries| && entries[i].0 == k {
        if k != entries[0].0 {
          var i :| 0 <= i < |rest| && rest[i].0 == k;
          assert entries[i + 1].0 == k;
        }
      }
      forall k | exists i :: 0 <= i < |entries| && entries[i].0 == k ensures k in KeySet(entries) {
        var i :| 0 <= i < |entries| && entries[i].0 == k;
        if i > 0 { assert rest[i - 1].0 == k; }
      }
    }
  }

  /** The distinctness of a run, one add at a time. */
  lemma DistinctKeysStep<V>(entries: seq<(string, V)>)
    requires entries != []
    ensures DistinctKeys(entries) <==> entries[0].0 !in KeySet(entries[1..]) && DistinctKeys(entries[1..])
  {
    var rest := entries[1..];
    KeySetMembers(rest);
    if DistinctKeys(entries) {
      forall i, j | 0 <= i < j < |rest| ensures rest[i].0 != rest[j].0 {
        assert entries[i + 1] == rest[i] && entries[j + 1] == rest[j];
      }
      forall i | 0 <= i < |rest| ensures rest[i].0 != entries[0].0 {
        assert entries[i + 1] == rest[i];
      }
    }
    if entries[0].0 !in KeySet(rest) && DistinctKeys(rest) {
      forall i, j | 0 <= i < j < |entries| ensures entries[i].0 != entries[j].0 {
        assert entries[j] == rest[j - 1];
        if i > 0 { assert entries[i] == rest[i - 1]; }
      }
    }
  }

  /** Adding to a table never touches the other keys, and the added key then maps to its value. */
  lemma AddThenLookup<V>(table: map<string, V>, key: string, value: V)
    ensures Add(table, key, value).Success? <==> key !in table
    ensures Add(table, key, value).Success? ==>
      && Add(table, key, value).value[key] == value
      && Add(table, key, value).value.Keys == table.Keys + {key}
      && forall k :: k in table ==> Add(table, key, value).value[k] == table[k]
  {
  }

  /**
   * A run of adds succeeds exactly when its keys are distinct and none is in
   * the table already; it then maps every key to its value and keeps the rest.
   */
  lemma {:induction false} AddAllSucceeds<V>(table: map<string, V>, entries: seq<(string, V)>)
    ensures AddAll(table, entries).Success? <==> DistinctKeys(entries) && KeySet(entries) !! table.Keys
    ensures AddAll(table, entries).Success? ==>
      && AddAll(table, entries).value.Keys == table.Keys + KeySet(entries)
      && (forall k :: k in table ==> AddAll(table, entries).value[k] == table[k])
      && (forall i :: 0 <= i < |entries| ==>
            entries[i].0 in AddAll(table, entries).value && AddAll(table, entries).value[entries[i].0] == entries[i].1)
    decreases |entries|
  {
    if entries != [] {
      var key := entries[0].0;
      var rest := entries[1..];
      var next := Add(table, key, entries[0].1);
      DistinctKeysStep(entries);
      if next.Success? {
        AddAllSucceeds(next.value, rest);
        if AddAll(table, entries).Success? {
          var r := AddAll(next.value, rest).value;
          forall i | 0 <= i < |entries|
            ensures entries[i].0 in r && r[entries[i].0] == entries[i].1
          {
            if i > 0 { assert entries[i] == rest[i - 1]; }
          }
        }
      }
    }
  }

  /** Distinct keys: as many keys as adds. */
  lemma {:induction false} DistinctKeysCount<V>(entries: seq<(string, V)>)
    requires DistinctKeys(entries)
    ensures |KeySet(entries)| == |entries|
    decreases |entries|
  {
    if entries != [] {
      DistinctKeysStep(entries);
      DistinctKeysCount(entries[1..]);
    }
  }

  // ---------------------------------------------------------------------------
  // The built-ins. Their values and bodies are host arithmetic: a value is
  // the term that names it, a function reads its first `arity` parameters.

  const Pi: Num := Host("Math.PI", [])

  /** A built-in function of the given arity; fewer parameters make `parameters[k]` throw. */
  function BuiltInFunction(name: string, arity: nat): MathFunction {
    parameters =>
      if |parameters| < arity then Failure(IndexOutOfRangeException)
      else Success(Host(name, parameters[..arity]))
  }

  const BuiltInVariables: seq<(string, Num)> := [
    ("pi", Pi),
    ("e", Host("Math.E", [])),
    ("tau", Product(Pi, Literal(2.0))),
    ("phi", Quotient(Sum(Literal(1.0), Host("Math.Sqrt", [Literal(5.0)])), Literal(2.0))),
    ("inf", Host("double.PositiveInfinity", [])),
    ("nan", Host("double.NaN", [])),
    ("degToRad", Quotient(Pi, Literal(180.0))),
    ("radToDeg", Quotient(Literal(180.0), Pi))
  ]

  /** The thirty built-in functions and their arities, in registration order, in three groups of ten. */
  const TrigonometricArities: seq<(string, nat)> := [
    ("sin", 1), ("cos", 1), ("tan", 1), ("asin", 1), ("acos", 1), ("atan", 1),
    ("atan2", 2), ("sinh", 1), ("cosh", 1), ("tanh", 1)
  ]

  const PowerArities: seq<(string, nat)> := [
    ("sqrt", 1), ("cbrt", 1), ("root", 2), ("exp", 1), ("abs", 1), ("log", 1),
    ("log10", 1), ("log2", 1), ("logn", 2), ("pow", 2)
  ]

  const RoundingArities: seq<(string, nat)> := [
    ("mod", 2), ("min", 2), ("max", 2), ("floor", 1), ("ceil", 1), ("round", 1),
    ("sign", 1), ("clamp", 3), ("lerp", 3), ("inverseLerp", 3)
  ]

  const BuiltInFunctionArities: seq<(string, nat)> := TrigonometricArities + PowerArities + RoundingArities

  function BuiltInFunctionTable(arities: seq<(string, nat)>): (r: seq<(string, MathFunction)>)
    ensures |r| == |arities|
    ensures forall i :: 0 <= i < |arities| ==> r[i].0 == arities[i].0
  {
    if arities == [] then []
    else [(arities[0].0, BuiltInFunction(arities[0].0, arities[0].1))] + BuiltInFunctionTable(arities[1..])
  }

  const BuiltInFunctions: seq<(string, MathFunction)> := BuiltInFunctionTable(BuiltInFunctionArities)

  /** The built-in names are distinct: 8 variables and 30 functions. */
  lemma BuiltInVariableNamesAreDistinct()
    ensures |BuiltInVariables| == 8 && DistinctKeys(BuiltInVariables)
  {
  }

  lemma BuiltInArityNamesAreDistinct()
    ensures |BuiltInFunctionArities| == 30 && DistinctKeys(BuiltInFunctionArities)
  {
    TrigonometricNamesAreDistinct();
    PowerNamesAreDistinct();
    RoundingNamesAreDistinct();
    TrigonometricAndPowerNamesDiffer();
    TrigonometricAndRoundingNamesDiffer();
    PowerAndRoundingNamesDiffer();
    DisjointAppend(TrigonometricArities, PowerArities, RoundingArities);
    DistinctAppend(TrigonometricArities, PowerArities);
    DistinctAppend(TrigonometricArities + PowerArities, RoundingArities);
  }

  predicate DisjointKeys<V>(a: seq<(string, V)>, b: seq<(string, V)>) {
    forall i, j :: 0 <= i < |a| && 0 <= j < |b| ==> a[i].0 != b[j].0
  }

  lemma DistinctAppend<V>(a: seq<(string, V)>, b: seq<(string, V)>)
    requires DistinctKeys(a) && DistinctKeys(b) && DisjointKeys(a, b)
    ensures DistinctKeys(a + b)
  {
    forall i, j | 0 <= i < j < |a + b|
      ensures (a + b)[i].0 != (a + b)[j].0
    {
      if j < |a| {
      } else if i < |a| {
        assert (a + b)[j] == b[j - |a|];
      } else {
        assert (a + b)[i] == b[i - |a|] && (a + b)[j] == b[j - |a|];
      }
    }
  }

  lemma DisjointAppend<V>(a: seq<(string, V)>, b: seq<(string, V)>, c: seq<(string, V)>)
    requires DisjointKeys(a, c) && DisjointKeys(b, c)
    ensures DisjointKeys(a + b, c)
  {
    forall i, j | 0 <= i < |a + b| && 0 <= j < |c|
      ensures (a + b)[i].0 != c[j].0
    {
      if |a| <= i {
        assert (a + b)[i] == b[i - |a|];
      }
    }
  }

  lemma TrigonometricNamesAreDistinct()
    ensures DistinctKeys(TrigonometricArities)
  {
  }

  lemma PowerNamesAreDistinct()
    ensures DistinctKeys(PowerArities)
  {
  }

  lemma RoundingNamesAreDistinct()
    ensures DistinctKeys(RoundingArities)
  {
  }

  lemma TrigonometricAndPowerNamesDiffer()
    ensures DisjointKeys(TrigonometricArities, PowerArities)
  {
  }

  lemma TrigonometricAndRoundingNamesDiffer()
    ensures DisjointKeys(TrigonometricArities, RoundingArities)
  {
  }

  lemma PowerAndRoundingNamesDiffer()
    ensures DisjointKeys(PowerArities, RoundingArities)
  {
  }

  lemma BuiltInFunctionNamesAreDistinct()
    ensures |BuiltInFunctions| == 30 && DistinctKeys(BuiltInFunctions)
  {
    BuiltInArityNamesAreDistinct();
  }

  // ---------------------------------------------------------------------------

  class EvaluationContext {
    var variables: map<string, Num>
    var functions: map<string, MathFunction>

    constructor()
      ensures variables == map[] && functions == map[]
    {
      variables := map[];
      functions := map[];
    }

    /** The context as the compiled evaluators see it. */
    function View(): Env
      reads this
    {
      Env(variables, functions)
    }

    /** `RegisterVariable`: `variables.Add(identifier, value)`. */
    method RegisterVariable(identifier: string, value: Num) returns (r: Outcome<Exception>)
      modifies this
      ensures Add(old(variables), identifier, value) == if r.Pass? then Success(variables) else Failure(r.error)
      ensures r.Fail? ==> variables == old(variables)
      ensures functions == old(functions)
    {
      if identifier in variables {
        return Fail(ArgumentException(DuplicateKeyMessage(identifier)));
      }
      variables := variables[identifier := value];
      return Pass;
    }

    /** `RegisterFunction`: `functions.Add(identifier, function)`. */
    method RegisterFunction(identifier: string, body: MathFunction) returns (r: Outcome<Exception>)
      modifies this
      ensures Add(old(functions), identifier, body) == if r.Pass? then Success(functions) else Failure(r.error)
      ensures r.Fail? ==> functions == old(functions)
      ensures variables == old(variables)
    {
      if identifier in functions {
        return Fail(ArgumentException(DuplicateKeyMessage(identifier)));
      }
      functions := functions[identifier := body];
      return Pass;
    }

    /** A run of `RegisterVariable` calls, stopping at the first that throws. */
    method RegisterVariables(entries: seq<(string, Num)>) returns (r: Outcome<Exception>)
      modifies this
      ensures r.Pass? <==> AddAll(old(variables), entries).Success?
      ensures r.Pass? ==> Success(variables) == AddAll(old(variables), entries)
      ensures functions == old(functions)
    {
      var i := 0;
      while i < |entries|
        invariant i <= |entries|
        invariant functions == old(functions)
        invariant AddAll(old(variables), entries) == AddAll(variables, entries[i..])
      {
        assert entries[i..][1..] == entries[i + 1..];
        r := RegisterVariable(entries[i].0, entries[i].1);
        if r.Fail? {
          return;
        }
        i := i + 1;
      }
      return Pass;
    }

    /** A run of `RegisterFunction` calls, stopping at the first that throws. */
    method RegisterFunctions(entries: seq<(string, MathFunction)>) returns (r: Outcome<Exception>)
      modifies this
      ensures r.Pass? <==> AddAll(old(functions), entries).Success?
      ensures r.Pass? ==> Success(functions) == AddAll(old(functions), entries)
      ensures variables == old(variables)
    {
      var i := 0;
      while i < |entries|
        invariant i <= |entries|
        invariant variables == old(variables)
        invariant AddAll(old(functions), entries) == AddAll(functions, entries[i..])
      {
        assert entries[i..][1..] == entries[i + 1..];
        r := RegisterFunction(entries[i].0, entries[i].1);
        if r.Fail? {
          return;
        }
        i := i + 1;
      }
      return Pass;
    }

    /** `RegisterBuiltIns`: the eight variables, then the thirty functions, in the source's order. */
    method RegisterBuiltIns() returns (r: Outcome<Exception>)
      modifies this
      ensures r.Pass? <==>
        AddAll(old(variables), BuiltInVariables).Success? && AddAll(old(functions), BuiltInFunctions).Success?
      ensures r.Pass? ==>
        Success(variables) == AddAll(old(variables), BuiltInVariables)
        && Success(functions) == AddAll(old(functions), BuiltInFunctions)
    {
      r := RegisterVariables(BuiltInVariables);
      if r.Fail? {
        return;
      }
      r := RegisterFunctions(BuiltInFunctions);
    }

    /** `CreateDefault`: a fresh context with the built-ins, which never throws. */
    static method CreateDefault() returns (c: EvaluationContext)
      ensures fresh(c)
      ensures c.View() == DefaultEnv()
    {
      c := new EvaluationContext();
      var r := c.RegisterBuiltIns();
      DefaultVariablesAreComplete();
      DefaultFunctionsAreComplete();
      if r.Fail? {
        assert false;
      }
    }
  }

  function DefaultVariables(): map<string, Num> {
    var variables := AddAll(map[], BuiltInVariables);
    if variables.Success? then variables.value else map[]
  }

  function DefaultFunctions(): map<string, MathFunction> {
    var functions := AddAll(map[], BuiltInFunctions);
    if functions.Success? then functions.value else map[]
  }

  /** The tables a default context holds. */
  function DefaultEnv(): Env {
    Env(DefaultVariables(), DefaultFunctions())
  }

  /** Adding a run of distinct keys to an empty table never throws, and gives one entry per add. */
  lemma AddAllToEmpty<V>(entries: seq<(string, V)>)
    requires DistinctKeys(entries)
    ensures AddAll(map[], entries).Success?
    ensures AddAll(map[], entries).value.Keys == KeySet(entries)
    ensures |AddAll(map[], entries).value| == |entries|
    ensures forall i :: 0 <= i < |entries| ==>
      entries[i].0 in AddAll(map[], entries).value && AddAll(map[], entries).value[entries[i].0] == entries[i].1
  {
    AddAllSucceeds(map[], entries);
    DistinctKeysCount(entries);
    assert |AddAll(map[], entries).value| == |AddAll(map[], entries).value.Keys|;
  }

  /** A default context holds exactly the eight built-in variables, each with its value. */
  lemma DefaultVariablesAreComplete()
    ensures AddAll(map[], BuiltInVariables).Success?
    ensures DefaultVariables().Keys == KeySet(BuiltInVariables) && |DefaultVariables()| == 8
    ensures forall i :: 0 <= i < |BuiltInVariables| ==>
      DefaultEnv().GetVariable(BuiltInVariables[i].0) == Success(BuiltInVariables[i].1)
  {
    BuiltInVariableNamesAreDistinct();
    AddAllToEmpty(BuiltInVariables);
  }

  /** A default context holds exactly the thirty built-in functions. */
  lemma DefaultFunctionsAreComplete()
    ensures AddAll(map[], BuiltInFunctions).Success?
    ensures DefaultFunctions().Keys == KeySet(BuiltInFunctions) && |DefaultFunctions()| == 30
  {
    BuiltInFunctionNamesAreDistinct();
    AddAllToEmpty(BuiltInFunctions);
  }

  /** A context with one more variable: that name now resolves to the value, the rest unchanged. */
  lemma RegisteredVariableResolves(env: Env, identifier: string, value: Num, other: string)
    requires identifier !in env.variables
    ensures Env(Add(env.variables, identifier, value).value, env.functions).GetVariable(identifier) == Success(value)
    ensures other != identifier ==>
      Env(Add(env.variables, identifier, value).value, env.functions).GetVariable(other) == env.GetVariable(other)
    ensures env.GetVariable(identifier) == Failure(EvaluationException("Unknown variable: " + identifier))
  {
  }

  /** A context with one more function: that name now calls it, the rest unchanged. */
  lemma RegisteredFunctionIsCalled(env: Env, identifier: string, body: MathFunction, other: string, parameters: seq<Num>)
    requires identifier !in env.functions
    ensures Env(env.variables, Add(env.functions, identifier, body).value).CallFunction(identifier, parameters) == body(parameters)
    ensures other != identifier ==>
      Env(env.variables, Add(env.functions, identifier, body).value).CallFunction(other, parameters) == env.CallFunction(other, parameters)
    ensures env.CallFunction(identifier, parameters) == Failure(EvaluationException("Unknown function: " + identifier))
  {
  }

  /** A built-in called with too few parameters throws; with enough, it ignores the extra ones. */
  lemma BuiltInArity(name: string, arity: nat, parameters: seq<Num>)
    ensures BuiltInFunction(name, arity)(parameters).Failure? <==> |parameters| < arity
    ensures |parameters| >= arity ==>
      BuiltInFunction(name, arity)(parameters) == BuiltInFunction(name, arity)(parameters[..arity])
  {
    if |parameters| >= arity {
      assert parameters[..arity][..arity] == parameters[..arity];
    }
  }
}
