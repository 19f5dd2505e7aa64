/**
 * The three back ends side by side: on the trees all of them accept they
 * compute the same thing, `Eval`; the IL back end also accepts unary nodes
 * with an operator other than Plus or Minus, which the closure and
 * expression-tree back ends reject; and none of them accepts the root the
 * parser returns, which is always an `ExpressionNode`.
 */
module Agreement {
  import opened Wrappers
  import opened Numbers
  import opened SyntaxTree
  import opened Evaluation
  import opened Semantics
  import opened ILMachine
  import opened ILCompilation
  import opened ILCorrectness
  import FunctionalCompilation
  import ExpressionTreeCompilation
  import Parsing

  /** The IL method body for `tree`, with the block the pre-pass sizes. */
  function ILProgram(tree: Node): Result<seq<Instr>, Exception> {
    Program(tree, StackSize(tree, -1))
  }

  /**
   * On a tree every back end accepts, the IL method, the closure and the
   * expression-tree lambda all return `Eval`'s value, or raise its
   * exception, in every context.
   */
  lemma BackEndsAgree(name: string, tree: Node, env: Env)
    requires WellFormed(tree)
    ensures ILProgram(tree).Success? && Run(ILProgram(tree).value, env) == Lift(Eval(tree, env))
    ensures FunctionalCompilation.Compile(name, tree).Success?
    ensures FunctionalCompilation.Compile(name, tree).value(env) == Eval(tree, env)
    ensures ExpressionTreeCompilation.Compile(name, tree).Success?
    ensures ExpressionTreeCompilation.Compile(name, tree).value(env) == Eval(tree, env)
  {
    WellFormedIsCompilable(tree);
    ProgramComputes(tree, env);
    FunctionalCompilation.CompileAgrees(name, tree, context := env);
    ExpressionTreeCompilation.CompileAgrees(name, tree, env);
  }

  /** The unary node `*1`, which only the IL back end accepts. */
  function UnaryTimesOne(): Node {
    UnaryNode(Multiplication, NumberNode(1.0))
  }

  /**
   * A unary node whose operator is neither Plus nor Minus: the IL back end
   * emits the operand's code alone, while the other two raise
   * "Unknown unary operator".
   */
  lemma UnaryTimesDiverges(name: string, env: Env)
    ensures ILProgram(UnaryTimesOne()).Success?
    ensures Run(ILProgram(UnaryTimesOne()).value, env) == Success(Literal(1.0))
    ensures FunctionalCompilation.Compile(name, UnaryTimesOne()) == Failure(CompilerException("Unknown unary operator: Multiplication"))
    ensures ExpressionTreeCompilation.Compile(name, UnaryTimesOne()) == Failure(CompilerException("Unknown unary operator: Multiplication"))
  {
    UnaryTimesCompilesToOperand(env);
    UnknownUnaryMessage();
    ClosuresRejectUnaryTimes();
  }

  lemma UnknownUnaryMessage()
    ensures "Unknown unary operator: " + OperatorName(Multiplication) == "Unknown unary operator: Multiplication"
  {
  }

  lemma UnaryTimesCompilesToOperand(env: Env)
    ensures ILProgram(UnaryTimesOne()).Success?
    ensures Run(ILProgram(UnaryTimesOne()).value, env) == Success(Literal(1.0))
  {
    var tree := UnaryTimesOne();
    assert Compilable(tree);
    ProgramComputes(tree, env);
    assert Eval(tree, env) == Success(Literal(1.0));
  }

  lemma ClosuresRejectUnaryTimes()
    ensures FunctionalCompilation.CompileNode(UnaryTimesOne()) == Failure(CompilerException("Unknown unary operator: " + OperatorName(Multiplication)))
    ensures ExpressionTreeCompilation.CompileNode(UnaryTimesOne()) == Failure(CompilerException("Unknown unary operator: " + OperatorName(Multiplication)))
  {
    assert FunctionalCompilation.CompileNode(NumberNode(1.0)).Success?;
    assert ExpressionTreeCompilation.CompileNode(NumberNode(1.0)).Success?;
  }

  /** Whatever `Parse` returns, every back end rejects it with a CompilerException. */
  lemma ParsedTreesAreRejected(name: string, input: string)
    requires Parsing.Parse(input).Success?
    ensures var tree := Parsing.Parse(input).value;
      && ILProgram(tree).Failure? && ILProgram(tree).error.CompilerException?
      && FunctionalCompilation.Compile(name, tree).Failure?
      && FunctionalCompilation.Compile(name, tree).error.CompilerException?
      && ExpressionTreeCompilation.Compile(name, tree).Failure?
      && ExpressionTreeCompilation.Compile(name, tree).error.CompilerException?
  {
    var tree := Parsing.Parse(input).value;
    Parsing.ParseShape(input);
    assert tree.ExpressionNode?;
    ProgramRejects(tree);
  }
}
