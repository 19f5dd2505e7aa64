/**
 * The expression-tree back end, ILMath/Compiler/ExpressionTreeCompiler.cs.
 *
 * `CompileNode` translates a syntax tree into an `Expr`, the part of the
 * System.Linq.Expressions tree language the back end builds; `Interpret`
 * gives such a tree the meaning the compiled lambda has (operands left to
 * right, array elements in order).
 */
module ExpressionTreeCompilation {
  import opened Wrappers
  import opened Numbers
  import opened SyntaxTree
  import opened Evaluation
  import opened Semantics

  /** The expression nodes the back end builds; the context is the lambda's single parameter. */
  datatype Expr =
    | Constant(value: real)
    | Add(left: Expr, right: Expr)
    | Subtract(left: Expr, right: Expr)
    | Multiply(left: Expr, right: Expr)
    | Divide(left: Expr, right: Expr)
    | Modulo(left: Expr, right: Expr)
    | Power(left: Expr, right: Expr)
    | Negate(operand: Expr)
      /** `parameter.GetVariable(identifier)`. */
    | GetVariableCall(identifier: string)
      /** `CallMethod(parameter, identifier, new double[] { arguments })`. */
    | CallMethodCall(identifier: string, arguments: seq<Expr>)

  /** `CompileNode`: the expression for a node, or the CompilerException raised while building it. */
  function CompileNode(n: Node): (r: Result<Expr, Exception>)
    ensures r.Success? <==> WellFormed(n)
    ensures r.Failure? ==> r.error.CompilerException?
    decreases n
  {
    match n
    case BinaryNode(op, left, right) =>
      var compiledLeft :- CompileNode(left);
      var compiledRight :- CompileNode(right);
      CompileOperator(op, compiledLeft, compiledRight)
    case NumberNode(value) => Success(Constant(value))
    case UnaryNode(op, child) =>
      var compiledChild :- CompileNode(child);
      if op == Plus then Success(compiledChild)
      else if op == Minus then Success(Negate(compiledChild))
      else Failure(CompilerException("Unknown unary operator: " + OperatorName(op)))
    case VariableNode(identifier) => Success(GetVariableCall(identifier))
    case FunctionNode(identifier, parameters) =>
      var compiledParameters :- CompileAll(parameters);
      Success(CallMethodCall(identifier, compiledParameters))
    case _ => Failure(CompilerException("Unknown node type: " + NodeTypeName(n)))
  }

  /** `parameters.Select(x => CompileNode(x, parameter))`, enumerated in order by `NewArrayInit`. */
  function CompileAll(ns: seq<Node>): (r: Result<seq<Expr>, Exception>)
    ensures r.Success? <==> forall p :: p in ns ==> WellFormed(p)
    ensures r.Success? ==> |r.value| == |ns|
    ensures r.Failure? ==> r.error.CompilerException?
    decreases ns
  {
    if ns == [] then Success([])
    else
      assert ns[0] in ns;
      assert forall p :: p in ns[1..] ==> p in ns;
      assert forall p :: p in ns ==> p == ns[0] || p in ns[1..];
      var first :- CompileNode(ns[0]);
      var rest :- CompileAll(ns[1..]);
      Success([first] + rest)
  }

  /** `CompileOperatorNode`'s switch, after both operands are built. */
  function CompileOperator(op: OperatorType, compiledLeft: Expr, compiledRight: Expr): (r: Result<Expr, Exception>)
    ensures r.Success? <==> !op.Undefined?
  {
    match op
    case Plus => Success(Add(compiledLeft, compiledRight))
    case Minus => Success(Subtract(compiledLeft, compiledRight))
    case Multiplication => Success(Multiply(compiledLeft, compiledRight))
    case Division => Success(Divide(compiledLeft, compiledRight))
    case Modulo => Success(Expr.Modulo(compiledLeft, compiledRight))
    case Exponent => Success(Expr.Power(compiledLeft, compiledRight))
    case Undefined(_) => Failure(CompilerException("Unknown operator: " + OperatorName(op)))
  }

  /** `CallMethod`: forwards the context, the identifier and the values to `CallFunction`. */
  function CallMethod(context: Env, identifier: string, parameters: seq<Num>): (r: Result<Num, Exception>)
    ensures identifier in context.functions ==> r == context.functions[identifier](parameters)
    ensures identifier !in context.functions ==> r == Failure(EvaluationException("Unknown function: " + identifier))
  {
    context.CallFunction(identifier, parameters)
  }

  /** What the compiled lambda returns for a context: operands left to right, stopping at the first exception. */
  function Interpret(e: Expr, context: Env): Result<Num, Exception>
    decreases e
  {
    match e
    case Constant(value) => Success(Literal(value))
    case Add(left, right) => Both((l, r) => Sum(l, r), Interpret(left, context), Interpret(right, context))
    case Subtract(left, right) => Both((l, r) => Difference(l, r), Interpret(left, context), Interpret(right, context))
    case Multiply(left, right) => Both((l, r) => Product(l, r), Interpret(left, context), Interpret(right, context))
    case Divide(left, right) => Both((l, r) => Quotient(l, r), Interpret(left, context), Interpret(right, context))
    case Modulo(left, right) => Both((l, r) => Remainder(l, r), Interpret(left, context), Interpret(right, context))
    case Power(left, right) => Both((l, r) => Numbers.Power(l, r), Interpret(left, context), Interpret(right, context))
    case Negate(operand) =>
      var v :- Interpret(operand, context);
      Success(Negation(v))
    case GetVariableCall(identifier) => context.GetVariable(identifier)
    case CallMethodCall(identifier, arguments) =>
      var values :- InterpretAll(arguments, context);
      CallMethod(context, identifier, values)
  }

  /** A binary node's value from its operands' results: the left operand's exception wins. */
  function Both(combine: (Num, Num) -> Num, left: Result<Num, Exception>, right: Result<Num, Exception>): Result<Num, Exception> {
    var l :- left;
    var r :- right;
    Success(combine(l, r))
  }

  /** `NewArrayInit`: the elements in order, stopping at the first exception. */
  function InterpretAll(es: seq<Expr>, context: Env): (r: Result<seq<Num>, Exception>)
    ensures r.Success? ==> |r.value| == |es|
    decreases es
  {
    if es == [] then Success([])
    else
      var first :- Interpret(es[0], context);
      var rest :- InterpretAll(es[1..], context);
      Success([first] + rest)
  }

  /** `Compile(name, tree)`: the lambda over the context parameter; the name is not used. */
  function Compile(name: string, tree: Node): (r: Result<Env -> Result<Num, Exception>, Exception>)
    ensures r.Success? <==> WellFormed(tree)
    ensures r.Failure? ==> r == Failure(CompileNode(tree).error)
  {
    var compiledExpressionTree :- CompileNode(tree);
    Success(context => Interpret(compiledExpressionTree, context))
  }

  // ---------------------------------------------------------------------------
  // Properties of the translation.

  /** Unary Plus adds no expression node: its expression is the operand's own. */
  lemma UnaryPlusIsTheChild(child: Node)
    ensures CompileNode(UnaryNode(Plus, child)) == CompileNode(child)
  {
  }

  /** Unary Minus wraps the operand's expression in `Negate`. */
  lemma UnaryMinusNegates(child: Node)
    requires WellFormed(child)
    ensures CompileNode(UnaryNode(Minus, child)) == Success(Negate(CompileNode(child).value))
  {
  }

  /** The six operators map one-to-one to the six binary expression kinds: different operators give different expressions. */
  lemma OperatorsAreDistinguished(op1: OperatorType, op2: OperatorType, left: Expr, right: Expr)
    requires !op1.Undefined? && !op2.Undefined?
    ensures CompileOperator(op1, left, right) == CompileOperator(op2, left, right) <==> op1 == op2
  {
  }

  /** The lambda built for a tree evaluates, in every context, to what `Eval` says. */
  lemma {:induction false} CompileNodeAgrees(n: Node, context: Env)
    requires WellFormed(n)
    ensures Compilable(n) && CompileNode(n).Success? && Interpret(CompileNode(n).value, context) == Eval(n, context)
    decreases n
  {
    WellFormedIsCompilable(n);
    match n
    case BinaryNode(op, left, right) =>
      CompileNodeAgrees(left, context);
      CompileNodeAgrees(right, context);
    case UnaryNode(op, child) =>
      CompileNodeAgrees(child, context);
    case FunctionNode(identifier, parameters) =>
      CompileAllAgrees(parameters, context);
    case _ =>
  }

  lemma {:induction false} CompileAllAgrees(ns: seq<Node>, context: Env)
    requires forall p :: p in ns ==> WellFormed(p)
    ensures (forall p :: p in ns ==> Compilable(p)) && CompileAll(ns).Success?
    ensures InterpretAll(CompileAll(ns).value, context) == EvalAll(ns, context)
    decreases ns
  {
    forall p | p in ns ensures Compilable(p) {
      WellFormedIsCompilable(p);
    }
    if ns != [] {
      CompileNodeAgrees(ns[0], context);
      CompileAllAgrees(ns[1..], context);
    }
  }

  /** The evaluator `Compile` returns agrees with `Eval` in every context. */
  lemma CompileAgrees(name: string, tree: Node, context: Env)
    requires WellFormed(tree)
    ensures Compilable(tree) && Compile(name, tree).Success? && Compile(name, tree).value(context) == Eval(tree, context)
  {
    CompileNodeAgrees(tree, context);
  }
}
