/**
 * The closure back end, ILMath/Compiler/FunctionalCompiler.cs.
 *
 * `CompileNode` turns each node into an `Evaluator`, a function of the
 * context, and raises a CompilerException for a node it does not know while
 * compiling, before any evaluation. The closures capture only immutable
 * data (values, identifiers and the child evaluators).
 */
module FunctionalCompilation {
  import opened Wrappers
  import opened Numbers
  import opened SyntaxTree
  import opened Evaluation
  import opened Semantics

  /** `Evaluator`: the compiled expression, a function of the context. */
  type Evaluator = Env -> Result<Num, Exception>

  /** `CompileNode`: the evaluator of a node, or the CompilerException raised while compiling it. */
  function CompileNode(n: Node): (r: Result<Evaluator, Exception>)
    ensures r.Success? <==> WellFormed(n)
    ensures r.Failure? ==> r.error.CompilerException?
    decreases n
  {
    match n
    case BinaryNode(op, left, right) =>
      var compiledLeft :- CompileNode(left);
      var compiledRight :- CompileNode(right);
      CompileOperator(op, compiledLeft, compiledRight)
    case NumberNode(value) => Success(_ => Success(Literal(value)))
    case UnaryNode(op, child) =>
      var compiledChild :- CompileNode(child);
      if op == Plus then Success(context => compiledChild(context))
      else if op == Minus then Success(context => Negate(compiledChild(context)))
      else Failure(CompilerException("Unknown unary operator: " + OperatorName(op)))
    case VariableNode(identifier) => Success((context: Env) => context.GetVariable(identifier))
    case FunctionNode(identifier, parameters) =>
      var compiledParameters :- CompileAll(parameters);
      Success(context => Call(identifier, compiledParameters, context))
    case _ => Failure(CompilerException("Unknown node type: " + NodeTypeName(n)))
  }

  /** `parameters.Select(CompileNode).ToArray()`: compiled in order, stopping at the first exception. */
  function CompileAll(ns: seq<Node>): (r: Result<seq<Evaluator>, Exception>)
    ensures r.Success? <==> forall p :: p in ns ==> WellFormed(p)
    ensures r.Success? ==> |r.value| == |ns|
    ensures r.Failure? ==> r.error.CompilerException?
    decreases ns
  {
    if ns == [] then Success([])
    else
      assert ns[0] in ns;
      assert forall p :: p in ns[1..] ==> p in ns;
      assert forall p :: p in ns ==> p == ns[0] || p in ns[1..];
      var first :- CompileNode(ns[0]);
      var rest :- CompileAll(ns[1..]);
      Success([first] + rest)
  }

  /** `CompileOperatorNode`'s switch over the operator, after both operands are compiled. */
  function CompileOperator(op: OperatorType, compiledLeft: Evaluator, compiledRight: Evaluator): (r: Result<Evaluator, Exception>)
    ensures r.Success? <==> !op.Undefined?
  {
    if op.Undefined? then Failure(CompilerException("Unknown operator: " + OperatorName(op)))
    else Success(context => Combine(op, compiledLeft(context), compiledRight(context)))
  }

  /** Left before right: the left operand's exception wins. */
  function Combine(op: OperatorType, left: Result<Num, Exception>, right: Result<Num, Exception>): Result<Num, Exception>
    requires !op.Undefined?
  {
    var l :- left;
    var r :- right;
    Success(Apply(op, l, r))
  }

  function Negate(operand: Result<Num, Exception>): Result<Num, Exception> {
    var v :- operand;
    Success(Negation(v))
  }

  /** The body of a call evaluator: the parameters in order, then `CallFunction`. */
  function Call(identifier: string, compiledParameters: seq<Evaluator>, context: Env): Result<Num, Exception> {
    var values :- EvaluateAll(compiledParameters, context);
    context.CallFunction(identifier, values)
  }

  /** The values of the compiled parameters, left to right, stopping at the first exception. */
  function EvaluateAll(compiled: seq<Evaluator>, context: Env): (r: Result<seq<Num>, Exception>)
    ensures r.Success? ==> |r.value| == |compiled|
  {
    if compiled == [] then Success([])
    else
      var first :- compiled[0](context);
      var rest :- EvaluateAll(compiled[1..], context);
      Success([first] + rest)
  }

  /**
   * The call evaluator itself: a `stackalloc` buffer of exactly
   * `compiledParameters.Length` slots filled left to right, then
   * `CallFunction` on it.
   */
  method InvokeCall(identifier: string, compiledParameters: seq<Evaluator>, context: Env) returns (r: Result<Num, Exception>)
    ensures r == Call(identifier, compiledParameters, context)
  {
    var values := new Num[|compiledParameters|](_ => Zero);
    PrependNothing(EvaluateAll(compiledParameters, context));
    for i := 0 to |compiledParameters|
      invariant EvaluateAll(compiledParameters, context) == Prepend(values[..i], EvaluateAll(compiledParameters[i..], context))
    {
      var v := compiledParameters[i](context);
      EvaluateAllStep(compiledParameters[i..], context);
      assert compiledParameters[i..][0] == compiledParameters[i];
      assert compiledParameters[i..][1..] == compiledParameters[i + 1..];
      if v.Failure? {
        assert EvaluateAll(compiledParameters, context) == Failure(v.error);
        return Failure(v.error);
      }
      PrependTwice(values[..i], [v.value], EvaluateAll(compiledParameters[i + 1..], context));
      values[i] := v.value;
      assert values[..i + 1] == values[..i] + [v.value];
    }
    assert compiledParameters[|compiledParameters|..] == [];
    assert values[..|compiledParameters|] == values[..];
    assert values[..] + [] == values[..];
    assert EvaluateAll(compiledParameters, context) == Success(values[..]);
    r := context.CallFunction(identifier, values[..]);
  }

  /** The values already stored, followed by the values of the rest. */
  function Prepend(done: seq<Num>, rest: Result<seq<Num>, Exception>): Result<seq<Num>, Exception> {
    var values :- rest;
    Success(done + values)
  }

  lemma PrependNothing(rest: Result<seq<Num>, Exception>)
    ensures Prepend([], rest) == rest
  {
    if rest.Success? {
      assert [] + rest.value == rest.value;
    }
  }

  lemma PrependTwice(first: seq<Num>, second: seq<Num>, rest: Result<seq<Num>, Exception>)
    ensures Prepend(first, Prepend(second, rest)) == Prepend(first + second, rest)
  {
    if rest.Success? {
      assert first + (second + rest.value) == (first + second) + rest.value;
    }
  }

  lemma EvaluateAllStep(compiled: seq<Evaluator>, context: Env)
    requires compiled != []
    ensures EvaluateAll(compiled, context) ==
      if compiled[0](context).Failure? then Failure(compiled[0](context).error)
      else Prepend([compiled[0](context).value], EvaluateAll(compiled[1..], context))
  {
  }

  /** `Compile(name, tree)`: the name is not used. */
  function Compile(name: string, tree: Node): (r: Result<Evaluator, Exception>)
    ensures r.Success? <==> WellFormed(tree)
  {
    var compiledRoot :- CompileNode(tree);
    Success(context => compiledRoot(context))
  }

  // ---------------------------------------------------------------------------
  // Agreement with the reference evaluation.

  /** A compiled tree evaluates, in every context, to what `Eval` says. */
  lemma {:induction false} CompileNodeAgrees(n: Node, context: Env)
    requires WellFormed(n)
    ensures Compilable(n) && CompileNode(n).Success? && CompileNode(n).value(context) == Eval(n, context)
    decreases n
  {
    WellFormedIsCompilable(n);
    match n
    case BinaryNode(op, left, right) =>
      CompileNodeAgrees(left, context);
      CompileNodeAgrees(right, context);
    case UnaryNode(op, child) =>
      CompileNodeAgrees(child, context);
    case FunctionNode(identifier, parameters) =>
      CompileAllAgrees(parameters, context);
    case _ =>
  }

  lemma {:induction false} CompileAllAgrees(ns: seq<Node>, context: Env)
    requires forall p :: p in ns ==> WellFormed(p)
    ensures (forall p :: p in ns ==> Compilable(p)) && CompileAll(ns).Success?
    ensures EvaluateAll(CompileAll(ns).value, context) == EvalAll(ns, context)
    decreases ns
  {
    forall p | p in ns ensures Compilable(p) {
      WellFormedIsCompilable(p);
    }
    if ns != [] {
      CompileNodeAgrees(ns[0], context);
      CompileAllAgrees(ns[1..], context);
    }
  }

  /** The evaluator `Compile` returns agrees with `Eval` in every context. */
  lemma CompileAgrees(name: string, tree: Node, context: Env)
    requires WellFormed(tree)
    ensures Compilable(tree) && Compile(name, tree).Success? && Compile(name, tree).value(context) == Eval(tree, context)
  {
    CompileNodeAgrees(tree, context);
  }
}
