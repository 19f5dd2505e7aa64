/**
 * The older closure back end, ILMath/FunctionCompiler.cs: an object that
 * holds the tree it was built for and compiles that tree on request.
 *
 * Its per-node compilers are the same as those of the closure back end in
 * ILMath/Compiler/FunctionalCompiler.cs (same cases, same messages, same
 * evaluation order), so the node-level translation is
 * `FunctionalCompilation.CompileNode`; what is particular to this class is
 * that the root is fixed when the object is built.
 */
module FunctionCompilation {
  import opened Wrappers
  import opened SyntaxTree
  import opened Evaluation
  import opened Semantics
  import FunctionalCompilation

  class FunctionCompiler {
    /** `root`: the tree given to the constructor, never replaced. */
    const root: Node

    constructor (root: Node)
      ensures this.root == root
    {
      this.root := root;
    }

    /**
     * `Compile(name)`: compiles the stored root; the name is not used. The
     * result is an evaluator exactly when the root is a tree the closure
     * back ends accept, it then evaluates every context as `Eval` does, and
     * it behaves like the evaluator the newer closure back end produces for
     * the same tree.
     */
    method Compile(name: string) returns (r: Result<FunctionalCompilation.Evaluator, Exception>)
      ensures r.Success? <==> WellFormed(root)
      ensures r.Failure? ==> r == FunctionalCompilation.Compile(name, root)
      ensures r.Success? ==> Compilable(root) && forall context :: r.value(context) == Eval(root, context)
      ensures r.Success? ==> forall context :: r.value(context) == FunctionalCompilation.Compile(name, root).value(context)
    {
      r := CompileSyntaxTree(name, root);
    }

    /** `CompileSyntaxTree(_, rootNode)`: compiles the node and wraps it as `context => compiledRoot(context)`. */
    method CompileSyntaxTree(name: string, rootNode: Node) returns (r: Result<FunctionalCompilation.Evaluator, Exception>)
      ensures r.Success? <==> WellFormed(rootNode)
      ensures r.Failure? ==> r == FunctionalCompilation.Compile(name, rootNode) && r.error.CompilerException?
      ensures r.Success? ==> Compilable(rootNode) && forall context :: r.value(context) == Eval(rootNode, context)
      ensures r.Success? ==> forall context :: r.value(context) == FunctionalCompilation.Compile(name, rootNode).value(context)
    {
      var compiled := FunctionalCompilation.CompileNode(rootNode);
      if compiled.Failure? {
        return Failure(compiled.error);
      }
      var compiledRoot := compiled.value;
      r := Success(context => compiledRoot(context));
      WellFormedIsCompilable(rootNode);
      forall context ensures r.value(context) == Eval(rootNode, context) {
        FunctionalCompilation.CompileNodeAgrees(rootNode, context);
      }
    }
  }
}
