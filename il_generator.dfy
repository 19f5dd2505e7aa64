/**
 * The IL back end as the compiler carries it out (ILMath/Compiler.cs): a
 * `Compiler` object built from a root, whose constructor runs the pre-pass,
 * and whose compile methods append instructions to an `ILGenerator` one
 * `Emit` at a time. Each method is proved to append exactly the code the
 * function `Emit` describes, or to raise the exception `Emit` returns; the
 * finished method body is then the one `Program` describes, and what it
 * computes follows from the lemmas in `ILCorrectness`.
 */
module ILGeneration {
  import opened Wrappers
  import opened SyntaxTree
  import opened Evaluation
  import opened Semantics
  import opened ILMachine
  import opened ILCompilation
  import opened ILCorrectness

  /** The instruction stream of a dynamic method under construction. */
  class ILGenerator {
    var code: seq<Instr>

    constructor()
      ensures code == []
    {
      code := [];
    }

    /** `ILGenerator.Emit`: appends one instruction. */
    method Emit(instr: Instr)
      modifies this
      ensures code == old(code) + [instr]
    {
      code := code + [instr];
    }
  }

  lemma AppendAssociates(a: seq<Instr>, b: seq<Instr>, c: seq<Instr>)
    ensures a + b + c == a + (b + c)
  {
  }

  /** A call whose first `i` arguments compile, and whose argument `i` does not, does not compile either. */
  lemma {:induction false} EmitArgumentsStopsAt(n: Node, i: nat, j: nat, state: CompilationState, e: Exception)
    requires n.FunctionNode? && i < j <= |n.parameters|
    requires EmitArguments(n, i, state).Success?
    requires Emit(n.parameters[i], state.(stackLocation := state.stackLocation + i)) == Failure(e)
    ensures EmitArguments(n, j, state) == Failure(e)
    decreases j
  {
    if j > i + 1 {
      EmitArgumentsStopsAt(n, i, j - 1, state, e);
      EmitArgumentsKeepsFailing(n, j, state);
    } else {
      EmitArgumentsFailsAt(n, i, state);
    }
  }

  /** The arguments so far compile and the next one does not: its exception. */
  lemma EmitArgumentsFailsAt(n: Node, i: nat, state: CompilationState)
    requires n.FunctionNode? && i < |n.parameters|
    requires EmitArguments(n, i, state).Success?
    requires Emit(n.parameters[i], state.(stackLocation := state.stackLocation + i)).Failure?
    ensures EmitArguments(n, i + 1, state) == Failure(Emit(n.parameters[i], state.(stackLocation := state.stackLocation + i)).error)
  {
  }

  /** Once the arguments so far fail to compile, so do all of them. */
  lemma EmitArgumentsKeepsFailing(n: Node, j: nat, state: CompilationState)
    requires n.FunctionNode? && 0 < j <= |n.parameters|
    requires EmitArguments(n, j - 1, state).Failure?
    ensures EmitArguments(n, j, state) == Failure(EmitArguments(n, j - 1, state).error)
  {
  }

  /** One more argument compiled and stored. */
  lemma EmitArgumentsNext(n: Node, i: nat, state: CompilationState)
    requires n.FunctionNode? && i < |n.parameters|
    requires EmitArguments(n, i, state).Success?
    requires Emit(n.parameters[i], state.(stackLocation := state.stackLocation + i)).Success?
    ensures EmitArguments(n, i + 1, state) == Success(EmitArguments(n, i, state).value +
      StoreArgument(state.stackLocation + i, Emit(n.parameters[i], state.(stackLocation := state.stackLocation + i)).value))
  {
  }

  /** A call with parameters and no block raises the debug assertion's failure. */
  lemma EmitCallUnavailable(n: Node, state: CompilationState)
    requires n.FunctionNode? && |n.parameters| > 0 && !state.parameters
    ensures Emit(n, state) == Failure(AssertionFailure("state.Parameters != null"))
  {
  }

  /** A call whose arguments do not compile raises their exception. */
  lemma EmitCallFails(n: Node, state: CompilationState)
    requires n.FunctionNode? && |n.parameters| > 0 && state.parameters
    requires EmitArguments(n, |n.parameters|, state).Failure?
    ensures Emit(n, state) == Failure(EmitArguments(n, |n.parameters|, state).error)
  {
  }

  /** A call whose arguments compile: the context, the name, the arguments, the span, the call. */
  lemma EmitCallShape(n: Node, state: CompilationState)
    requires n.FunctionNode? && |n.parameters| > 0 && state.parameters
    requires EmitArguments(n, |n.parameters|, state).Success?
    ensures Emit(n, state) == Success([Ldarg0, Ldstr(n.identifier)] + EmitArguments(n, |n.parameters|, state).value +
      (SlotAddress(state.stackLocation) + [LdcI4(|n.parameters|), NewobjSpan, CallvirtCallFunction]))
  {
    AppendAssociates([Ldarg0, Ldstr(n.identifier)] + EmitArguments(n, |n.parameters|, state).value,
      SlotAddress(state.stackLocation), [LdcI4(|n.parameters|), NewobjSpan, CallvirtCallFunction]);
  }

  class Compiler {
    const root: Node
    const maximumParameterStackSize: int

    /** The pre-pass has sized the block for `root`. */
    predicate Valid() {
      maximumParameterStackSize == StackSize(root, -1)
    }

    /** `Compiler(root)`: runs the pre-pass from location -1 with a running maximum of 0. */
    constructor(root: Node)
      ensures this.root == root && Valid()
    {
      this.root := root;
      var maximumStackSize := CalculateMaximumParameterStackSize(root, -1, 0);
      maximumParameterStackSize := maximumStackSize;
    }

    /**
     * `Compile`: the method body for the root. It compiles exactly when
     * the tree is compilable, never trips the debug assertion on the
     * block's local, and the body returns `Eval`'s value, or raises its
     * exception, in every context.
     */
    method Compile(name: string) returns (r: Result<seq<Instr>, Exception>)
      requires Valid()
      ensures r == Program(root, StackSize(root, -1))
      ensures r.Success? <==> Compilable(root)
      ensures r.Failure? ==> r.error.CompilerException?
      ensures r.Success? ==> forall env :: Run(r.value, env) == Lift(Eval(root, env))
    {
      r := CompileSyntaxTree(name, root);
      StackSizePositive(root, -1);
      if Compilable(root) {
        forall env
          ensures Run(r.value, env) == Lift(Eval(root, env))
        {
          ProgramComputes(root, env);
        }
      } else {
        ProgramRejects(root);
      }
    }

    /** `CompileSyntaxTree`: the `localloc` prologue when the block is needed, the root's code, `ret`. */
    method CompileSyntaxTree(name: string, rootNode: Node) returns (r: Result<seq<Instr>, Exception>)
      ensures r == Program(rootNode, maximumParameterStackSize)
    {
      var il := new ILGenerator();
      var parameters := false;
      if maximumParameterStackSize > 0 {
        il.Emit(LdcI4(maximumParameterStackSize * SizeOfDouble));
        il.Emit(ConvU);
        il.Emit(Localloc);
        parameters := true;
        il.Emit(Stloc);
      }
      var prologue := il.code;
      assert prologue == if maximumParameterStackSize > 0 then [LdcI4(maximumParameterStackSize * SizeOfDouble), ConvU, Localloc, Stloc] else [];
      var outcome := CompileNode(rootNode, il, CompilationState(parameters, 0));
      if outcome.Fail? {
        return Failure(outcome.error);
      }
      il.Emit(Ret);
      r := Success(il.code);
    }

    /** `CompileNode`: dispatches on the node's kind; any other kind is a `CompilerException`. */
    method CompileNode(node: Node, il: ILGenerator, state: CompilationState) returns (outcome: Outcome<Exception>)
      modifies il
      ensures outcome.Pass? <==> Emit(node, state).Success?
      ensures outcome.Pass? ==> il.code == old(il.code) + Emit(node, state).value
      ensures outcome.Fail? ==> outcome.error == Emit(node, state).error
      decreases node, 3
    {
      match node
      case BinaryNode(_, _, _) =>
        outcome := CompileOperatorNode(node, il, state);
      case NumberNode(_) =>
        CompileNumberNode(node, il);
        outcome := Pass;
      case UnaryNode(_, _) =>
        outcome := CompileUnaryNode(node, il, state);
      case VariableNode(_) =>
        CompileVariableNode(node, il);
        outcome := Pass;
      case FunctionNode(_, _) =>
        outcome := CompileFunctionNode(node, il, state);
      case _ =>
        outcome := Fail(CompilerException("Unknown node type: " + NodeTypeName(node)));
    }

    /** `CompileOperatorNode`: the left operand, the right operand, then the operator's instruction. */
    method CompileOperatorNode(node: Node, il: ILGenerator, state: CompilationState) returns (outcome: Outcome<Exception>)
      requires node.BinaryNode?
      modifies il
      ensures outcome.Pass? <==> Emit(node, state).Success?
      ensures outcome.Pass? ==> il.code == old(il.code) + Emit(node, state).value
      ensures outcome.Fail? ==> outcome.error == Emit(node, state).error
      decreases node, 0
    {
      assert node.left in Children(node) && node.right in Children(node);
      outcome := CompileNode(node.left, il, state);
      if outcome.Fail? {
        return;
      }
      ghost var left := il.code;
      outcome := CompileNode(node.right, il, state);
      if outcome.Fail? {
        return;
      }
      ghost var right := il.code;
      outcome := GenerateOperatorInstruction(node.op, il);
      if outcome.Pass? {
        AppendAssociates(old(il.code), Emit(node.left, state).value, Emit(node.right, state).value);
        AppendAssociates(old(il.code), Emit(node.left, state).value + Emit(node.right, state).value, [OperatorInstruction(node.op).value]);
      }
    }

    /** `CompileNumberNode`: `ldc.r8 value`. */
    static method CompileNumberNode(node: Node, il: ILGenerator)
      requires node.NumberNode?
      modifies il
      ensures il.code == old(il.code) + Emit(node, CompilationState(false, 0)).value
    {
      il.Emit(LdcR8(node.value));
    }

    /** `CompileUnaryNode`: the operand, then `neg` when the operator is Minus; any other operator adds nothing. */
    method CompileUnaryNode(node: Node, il: ILGenerator, state: CompilationState) returns (outcome: Outcome<Exception>)
      requires node.UnaryNode?
      modifies il
      ensures outcome.Pass? <==> Emit(node, state).Success?
      ensures outcome.Pass? ==> il.code == old(il.code) + Emit(node, state).value
      ensures outcome.Fail? ==> outcome.error == Emit(node, state).error
      decreases node, 0
    {
      assert node.child in Children(node);
      outcome := CompileNode(node.child, il, state);
      if outcome.Pass? && node.op == Minus {
        il.Emit(Neg);
      }
    }

    /** `CompileVariableNode`: the context, the name, `callvirt GetVariable`. */
    static method CompileVariableNode(node: Node, il: ILGenerator)
      requires node.VariableNode?
      modifies il
      ensures il.code == old(il.code) + Emit(node, CompilationState(false, 0)).value
    {
      il.Emit(Ldarg0);
      il.Emit(Ldstr(node.identifier));
      il.Emit(CallvirtGetVariable);
    }

    /**
     * `CompileFunctionNode`: the context and the name; then either the
     * empty span, or each argument stored in its slot followed by the span
     * over those slots; then `callvirt CallFunction`.
     */
    method CompileFunctionNode(node: Node, il: ILGenerator, state: CompilationState) returns (outcome: Outcome<Exception>)
      requires node.FunctionNode?
      modifies il
      ensures outcome.Pass? <==> Emit(node, state).Success?
      ensures outcome.Pass? ==> il.code == old(il.code) + Emit(node, state).value
      ensures outcome.Fail? ==> outcome.error == Emit(node, state).error
      decreases node, 2
    {
      il.Emit(Ldarg0);
      il.Emit(Ldstr(node.identifier));
      ghost var called := il.code;
      assert called == old(il.code) + [Ldarg0, Ldstr(node.identifier)];
      var parametersCount := |node.parameters|;
      if parametersCount > 0 {
        if !state.parameters {
          EmitCallUnavailable(node, state);
          return Fail(AssertionFailure("state.Parameters != null"));
        }
        outcome := CompileArguments(node, il, state);
        if outcome.Fail? {
          EmitCallFails(node, state);
          return;
        }
        ghost var stored := il.code;
        EmitSlotAddress(il, state.stackLocation);
        il.Emit(LdcI4(parametersCount));
        il.Emit(NewobjSpan);
        il.Emit(CallvirtCallFunction);
        ghost var tail := SlotAddress(state.stackLocation) + [LdcI4(parametersCount), NewobjSpan, CallvirtCallFunction];
        assert il.code == stored + tail;
        EmitCallShape(node, state);
        AppendAssociates(old(il.code), [Ldarg0, Ldstr(node.identifier)], EmitArguments(node, parametersCount, state).value);
        AppendAssociates(old(il.code), [Ldarg0, Ldstr(node.identifier)] + EmitArguments(node, parametersCount, state).value, tail);
      } else {
        il.Emit(CallSpanEmpty);
        il.Emit(CallvirtCallFunction);
        assert il.code == old(il.code) + [Ldarg0, Ldstr(node.identifier), CallSpanEmpty, CallvirtCallFunction];
      }
      outcome := Pass;
    }

    /** The loop of `CompileFunctionNode` that stores each argument in its slot, in order. */
    method CompileArguments(node: Node, il: ILGenerator, state: CompilationState) returns (outcome: Outcome<Exception>)
      requires node.FunctionNode?
      modifies il
      ensures outcome.Pass? <==> EmitArguments(node, |node.parameters|, state).Success?
      ensures outcome.Pass? ==> il.code == old(il.code) + EmitArguments(node, |node.parameters|, state).value
      ensures outcome.Fail? ==> outcome.error == EmitArguments(node, |node.parameters|, state).error
      decreases node, 1
    {
      ghost var stored: seq<Instr> := [];
      for i := 0 to |node.parameters|
        invariant EmitArguments(node, i, state) == Success(stored)
        invariant il.code == old(il.code) + stored
      {
        var before := il.code;
        outcome := CompileArgument(node, i, il, state);
        if outcome.Fail? {
          EmitArgumentsStopsAt(node, i, |node.parameters|, state, outcome.error);
          return;
        }
        ghost var argument := Emit(node.parameters[i], state.(stackLocation := state.stackLocation + i)).value;
        EmitArgumentsNext(node, i, state);
        AppendAssociates(old(il.code), stored, StoreArgument(state.stackLocation + i, argument));
        stored := stored + StoreArgument(state.stackLocation + i, argument);
      }
      outcome := Pass;
    }

    /** One turn of that loop: the slot's address, the argument compiled at that slot's location, `stind.r8`. */
    method CompileArgument(node: Node, i: nat, il: ILGenerator, state: CompilationState) returns (outcome: Outcome<Exception>)
      requires node.FunctionNode? && i < |node.parameters|
      modifies il
      ensures var argument := Emit(node.parameters[i], state.(stackLocation := state.stackLocation + i));
        && (outcome.Pass? <==> argument.Success?)
        && (outcome.Pass? ==> il.code == old(il.code) + StoreArgument(state.stackLocation + i, argument.value))
        && (outcome.Fail? ==> outcome.error == argument.error)
      decreases node, 0
    {
      var offset := state.stackLocation + i;
      EmitSlotAddress(il, offset);
      assert node.parameters[i] in Children(node);
      outcome := CompileNode(node.parameters[i], il, state.(stackLocation := offset));
      if outcome.Pass? {
        il.Emit(StindR8);
      }
    }

    /** `ldloc`, then the byte offset added when the slot is not the first. */
    static method EmitSlotAddress(il: ILGenerator, offset: int)
      modifies il
      ensures il.code == old(il.code) + SlotAddress(offset)
    {
      il.Emit(Ldloc);
      if offset > 0 {
        il.Emit(LdcI4(offset * SizeOfDouble));
        il.Emit(Add);
      }
    }

    /** `GenerateOperatorInstruction`: the operator's instruction, or a `CompilerException` before anything is emitted. */
    static method GenerateOperatorInstruction(op: OperatorType, il: ILGenerator) returns (outcome: Outcome<Exception>)
      modifies il
      ensures outcome.Pass? <==> !op.Undefined?
      ensures outcome.Pass? ==> il.code == old(il.code) + [OperatorInstruction(op).value]
      ensures outcome.Fail? ==> il.code == old(il.code) && outcome.error == OperatorInstruction(op).error
    {
      var instruction := OperatorInstruction(op);
      if instruction.Failure? {
        return Fail(instruction.error);
      }
      il.Emit(instruction.value);
      outcome := Pass;
    }
  }
}
