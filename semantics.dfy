/**
 * The meaning every back end gives a tree: the value, or the exception, an
 * evaluator compiled from it returns for a context.
 *
 * The three back ends compile a tree node by node. They accept numbers,
 * variables, binary operator nodes with a named operator, unary nodes and
 * calls, and reject every other node with a CompilerException before any
 * evaluation. Evaluation works left to right (left operand before right,
 * parameters in order) and stops at the first exception the context raises.
 */
module Semantics {
  import opened Wrappers
  import opened Numbers
  import opened SyntaxTree
  import opened Evaluation

  /**
   * The trees the IL back end compiles. The closure and expression-tree back
   * ends accept fewer: their unary nodes must be Plus or Minus (`WellFormed`).
   */
  predicate Compilable(n: Node) {
    match n
    case NumberNode(_) => true
    case VariableNode(_) => true
    case BinaryNode(op, left, right) => !op.Undefined? && Compilable(left) && Compilable(right)
    case UnaryNode(_, child) => Compilable(child)
    case FunctionNode(_, parameters) => forall p :: p in parameters ==> Compilable(p)
    case _ => false
  }

  /** What a binary operator computes; `^` is `Math.Pow`. */
  function Apply(op: OperatorType, left: Num, right: Num): Num
    requires !op.Undefined?
  {
    match op
    case Plus => Sum(left, right)
    case Minus => Difference(left, right)
    case Multiplication => Product(left, right)
    case Division => Quotient(left, right)
    case Modulo => Remainder(left, right)
    case Exponent => Power(left, right)
  }

  /**
   * The reference evaluation. A unary node negates for Minus and passes its
   * operand through otherwise (the back ends that accept other unary kinds
   * only accept Plus, where the two agree).
   */
  function Eval(n: Node, env: Env): Result<Num, Exception>
    requires Compilable(n)
    decreases n
  {
    match n
    case NumberNode(v) => Success(Literal(v))
    case VariableNode(id) => env.GetVariable(id)
    case BinaryNode(op, left, right) =>
      var l :- Eval(left, env);
      var r :- Eval(right, env);
      Success(Apply(op, l, r))
    case UnaryNode(op, child) =>
      var v :- Eval(child, env);
      Success(if op == Minus then Negation(v) else v)
    case FunctionNode(id, parameters) =>
      var values :- EvalAll(parameters, env);
      env.CallFunction(id, values)
  }

  /** The parameters, in order, stopping at the first exception. */
  function EvalAll(ns: seq<Node>, env: Env): (r: Result<seq<Num>, Exception>)
    requires forall p :: p in ns ==> Compilable(p)
    ensures r.Success? ==> |r.value| == |ns|
    decreases ns
  {
    if ns == [] then Success([])
    else
      var first :- Eval(ns[0], env);
      var rest :- EvalAll(ns[1..], env);
      Success([first] + rest)
  }

  /** The back ends' trees are compilable. */
  lemma {:induction false} WellFormedIsCompilable(n: Node)
    requires WellFormed(n)
    ensures Compilable(n)
    decreases n
  {
    match n
    case BinaryNode(_, left, right) =>
      WellFormedIsCompilable(left);
      WellFormedIsCompilable(right);
    case UnaryNode(_, child) =>
      WellFormedIsCompilable(child);
    case FunctionNode(_, parameters) =>
      forall p | p in parameters ensures Compilable(p) {
        WellFormedIsCompilable(p);
      }
    case _ =>
  }

  /**
   * The parameters are evaluated one after the other: the values of all of
   * them, or the exception of the first that throws.
   */
  lemma {:induction false} EvalAllIsPointwise(ns: seq<Node>, env: Env)
    requires forall p :: p in ns ==> Compilable(p)
    ensures EvalAll(ns, env).Success? <==> forall i :: 0 <= i < |ns| ==> Eval(ns[i], env).Success?
    ensures EvalAll(ns, env).Success? ==> forall i :: 0 <= i < |ns| ==> EvalAll(ns, env).value[i] == Eval(ns[i], env).value
    ensures EvalAll(ns, env).Failure? ==> exists k :: 0 <= k < |ns| && FirstFailure(ns, env, k)
    decreases ns
  {
    if ns != [] {
      EvalAllIsPointwise(ns[1..], env);
      if Eval(ns[0], env).Success? && EvalAll(ns[1..], env).Failure? {
        var k :| 0 <= k < |ns[1..]| && FirstFailure(ns[1..], env, k);
        assert FirstFailure(ns, env, k + 1) by {
          forall i | 0 <= i < k + 1 ensures Eval(ns[i], env).Success? {
            if i > 0 { assert ns[i] == ns[1..][i - 1]; }
          }
        }
      }
      if Eval(ns[0], env).Failure? {
        assert FirstFailure(ns, env, 0);
      }
      forall i | 0 <= i < |ns| && i > 0 ensures ns[i] == ns[1..][i - 1] {
      }
    }
  }

  /** Parameter k is the first whose evaluation throws, and its exception is the one reported. */
  predicate FirstFailure(ns: seq<Node>, env: Env, k: nat)
    requires forall p :: p in ns ==> Compilable(p)
    requires k < |ns|
  {
    && Eval(ns[k], env).Failure?
    && (forall i :: 0 <= i < k ==> Eval(ns[i], env).Success?)
    && EvalAll(ns, env) == Failure(Eval(ns[k], env).error)
  }
}
