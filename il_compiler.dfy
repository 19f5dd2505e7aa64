/**
 * The IL back end, ILMath/Compiler.cs.
 *
 * Building a `Compiler` runs a pre-pass over the whole tree that sizes a
 * scratch block of float64 slots; compiling emits one straight-line method
 * body. A call with k parameters compiled at stack location s stores its
 * arguments in slots s, ..., s+k-1 (argument i is compiled at location s+i,
 * so the calls nested in it use slots from s+i on) and passes the span of
 * those k slots to `CallFunction`.
 *
 * The main results: the pre-pass size is positive exactly when some call has
 * a parameter and covers every call's slots; and the emitted body, run on a
 * block of that size, returns what `Eval` says, or raises the exception
 * `Eval` raises, with no access fault and no invalid program.
 */
module ILCompilation {
  import opened Wrappers
  import opened Numbers
  import opened SyntaxTree
  import opened Evaluation
  import opened Semantics
  import opened ILMachine

  function Max(a: int, b: int): int {
    if a >= b then a else b
  }

  // ---------------------------------------------------------------------------
  // The pre-pass.

  /**
   * The block size the pre-pass arrives at for `n` when it enters the node
   * with `stackLocation`: the largest `location + 1` over the calls' slot
   * locations. The i-th parameter of a call is visited at location
   * `stackLocation + i + 1`, any other child at the node's own location.
   */
  function StackSize(n: Node, stackLocation: int): (r: int)
    ensures r >= 0
    decreases n, 1
  {
    StackSizeOf(n, |Children(n)|, stackLocation)
  }

  /** The size the first `j` children of `n` reach. */
  function StackSizeOf(n: Node, j: nat, stackLocation: int): (r: int)
    requires j <= |Children(n)|
    ensures r >= 0
    decreases n, 0, j
  {
    if j == 0 then 0
    else
      var child := Children(n)[j - 1];
      assert child in Children(n);
      var reached :=
        if n.FunctionNode? then Max(stackLocation + j + 1, StackSize(child, stackLocation + j))
        else StackSize(child, stackLocation);
      Max(StackSizeOf(n, j - 1, stackLocation), reached)
  }

  /**
   * `CalculateMaximumParameterStackSize`: walks the tree with the location
   * and the running maximum (the `ref` parameter), one child at a time.
   */
  method CalculateMaximumParameterStackSize(node: Node, stackLocation: int, maximumStackSize: int) returns (newMaximum: int)
    requires maximumStackSize >= 0
    ensures newMaximum == Max(maximumStackSize, StackSize(node, stackLocation))
    decreases node
  {
    newMaximum := maximumStackSize;
    if node.FunctionNode? {
      var location := stackLocation;
      for i := 0 to |node.parameters|
        invariant location == stackLocation + i
        invariant newMaximum == Max(maximumStackSize, StackSizeOf(node, i, stackLocation))
      {
        location := location + 1;
        newMaximum := CalculateMaximumParameterStackSize(node.parameters[i], location, newMaximum);
        newMaximum := Max(newMaximum, location + 1);
      }
    } else {
      var children := Children(node);
      for i := 0 to |children|
        invariant newMaximum == Max(maximumStackSize, StackSizeOf(node, i, stackLocation))
      {
        assert children[i] in Children(node);
        newMaximum := CalculateMaximumParameterStackSize(children[i], stackLocation, newMaximum);
      }
    }
  }

  /** A later start never needs less room. */
  lemma {:induction false} StackSizeMonotone(n: Node, a: int, b: int)
    requires a <= b
    ensures StackSize(n, a) <= StackSize(n, b)
    decreases n, 1
  {
    StackSizeOfMonotone(n, |Children(n)|, a, b);
  }

  lemma {:induction false} StackSizeOfMonotone(n: Node, j: nat, a: int, b: int)
    requires a <= b && j <= |Children(n)|
    ensures StackSizeOf(n, j, a) <= StackSizeOf(n, j, b)
    decreases n, 0, j
  {
    if j > 0 {
      var child := Children(n)[j - 1];
      assert child in Children(n);
      StackSizeOfMonotone(n, j - 1, a, b);
      if n.FunctionNode? {
        StackSizeMonotone(child, a + j, b + j);
      } else {
        StackSizeMonotone(child, a, b);
      }
    }
  }

  /** Taking more children into account never lowers the size. */
  lemma {:induction false} StackSizeOfGrows(n: Node, i: nat, j: nat, stackLocation: int)
    requires i <= j <= |Children(n)|
    ensures StackSizeOf(n, i, stackLocation) <= StackSizeOf(n, j, stackLocation)
    decreases j
  {
    if i < j {
      StackSizeOfGrows(n, i, j - 1, stackLocation);
    }
  }

  /**
   * What one child contributes: the i-th parameter of a call sits in slot
   * `stackLocation + i + 1` and is visited from there; any other child is
   * visited from the node's own location.
   */
  lemma ChildStackSize(n: Node, i: nat, stackLocation: int)
    requires i < |Children(n)|
    ensures n.FunctionNode? ==> stackLocation + i + 2 <= StackSize(n, stackLocation)
    ensures n.FunctionNode? ==> StackSize(Children(n)[i], stackLocation + i + 1) <= StackSize(n, stackLocation)
    ensures !n.FunctionNode? ==> StackSize(Children(n)[i], stackLocation) <= StackSize(n, stackLocation)
  {
    StackSizeOfGrows(n, i + 1, |Children(n)|, stackLocation);
  }

  /**
   * The pre-pass finds a positive size exactly when some call in the tree has
   * a parameter (from any start location the compiler uses).
   */
  lemma {:induction false} StackSizePositive(n: Node, stackLocation: int)
    requires stackLocation >= -1
    ensures StackSize(n, stackLocation) > 0 <==> HasParameterizedCall(n)
    decreases n, 1
  {
    StackSizeOfPositive(n, |Children(n)|, stackLocation);
  }

  lemma {:induction false} StackSizeOfPositive(n: Node, j: nat, stackLocation: int)
    requires stackLocation >= -1 && j <= |Children(n)|
    ensures StackSizeOf(n, j, stackLocation) > 0 <==>
      (n.FunctionNode? && j > 0) || exists i :: 0 <= i < j && HasParameterizedCall(Children(n)[i])
    decreases n, 0, j
  {
    if j > 0 {
      var child := Children(n)[j - 1];
      assert child in Children(n);
      StackSizeOfPositive(n, j - 1, stackLocation);
      if n.FunctionNode? {
        StackSizePositive(child, stackLocation + j);
      } else {
        StackSizePositive(child, stackLocation);
        if HasParameterizedCall(child) {
          assert exists i :: 0 <= i < j && HasParameterizedCall(Children(n)[i]) by {
            assert HasParameterizedCall(Children(n)[j - 1]);
          }
        }
        if exists i :: 0 <= i < j && HasParameterizedCall(Children(n)[i]) {
          var i :| 0 <= i < j && HasParameterizedCall(Children(n)[i]);
          if i < j - 1 {
            assert exists i' :: 0 <= i' < j - 1 && HasParameterizedCall(Children(n)[i']);
          }
        }
      }
    }
    if j == |Children(n)| {
      assert HasParameterizedCall(n) <==> (n.FunctionNode? && j > 0) || exists i :: 0 <= i < j && HasParameterizedCall(Children(n)[i]) by {
        if exists c :: c in Children(n) && HasParameterizedCall(c) {
          var c :| c in Children(n) && HasParameterizedCall(c);
          var i :| 0 <= i < j && Children(n)[i] == c;
        }
      }
    }
  }

  /** `sub` occurs in `n` (possibly as `n` itself). */
  predicate Contains(n: Node, sub: Node)
    decreases n
  {
    n == sub || exists c :: c in Children(n) && Contains(c, sub)
  }

  /** Every call in the tree finds room for all its parameters in the block the pre-pass sizes. */
  lemma {:induction false} EveryCallFits(n: Node, call: Node, stackLocation: int)
    requires stackLocation >= -1
    requires Contains(n, call) && call.FunctionNode?
    ensures |call.parameters| <= StackSize(n, stackLocation)
    decreases n
  {
    if n == call {
      if |call.parameters| > 0 {
        ChildStackSize(n, |call.parameters| - 1, stackLocation);
      }
    } else {
      var c :| c in Children(n) && Contains(c, call);
      var i :| 0 <= i < |Children(n)| && Children(n)[i] == c;
      ChildStackSize(n, i, stackLocation);
      if n.FunctionNode? {
        EveryCallFits(c, call, stackLocation + i + 1);
      } else {
        EveryCallFits(c, call, stackLocation);
      }
    }
  }

  // ---------------------------------------------------------------------------
  // Emission.

  /**
   * `CompilationState`: whether the block's local exists, and the first slot
   * the code being compiled may use.
   */
  datatype CompilationState = CompilationState(parameters: bool, stackLocation: int)

  /** `GenerateOperatorInstruction`: the instruction for a named operator; `^` calls `Math.Pow`. */
  function OperatorInstruction(op: OperatorType): (r: Result<Instr, Exception>)
    ensures r.Success? <==> !op.Undefined?
    ensures r.Success? ==> r.value != Ret
  {
    match op
    case Plus => Success(Add)
    case Minus => Success(Sub)
    case Multiplication => Success(Mul)
    case Division => Success(Div)
    case Modulo => Success(Rem)
    case Exponent => Success(CallPow)
    case Undefined(_) => Failure(CompilerException("Unknown operator type '" + OperatorName(op) + "'"))
  }

  /** The block pointer, advanced to slot `offset` when that is not slot 0. */
  function SlotAddress(offset: int): seq<Instr> {
    [Ldloc] + (if offset > 0 then [LdcI4(offset * SizeOfDouble), Add] else [])
  }

  /** One argument's code in the call loop: its slot's address, its value, `stind.r8`. */
  function StoreArgument(offset: int, argument: seq<Instr>): seq<Instr> {
    SlotAddress(offset) + argument + [StindR8]
  }

  /**
   * `CompileNode`: the code for a node, or the exception raised while
   * compiling it. A call with parameters needs the block's local; the
   * source asserts it is there (`Debug.Assert`), and that assertion failing
   * is an outcome of its own here.
   */
  function Emit(n: Node, state: CompilationState): (r: Result<seq<Instr>, Exception>)
    ensures r.Success? <==> Compilable(n) && (HasParameterizedCall(n) ==> state.parameters)
    ensures r.Success? ==> Ret !in r.value
    ensures r.Failure? ==> r.error.CompilerException? || (r.error.AssertionFailure? && !state.parameters && HasParameterizedCall(n))
    decreases n, 1
  {
    match n
    case BinaryNode(op, left, right) =>
      assert left in Children(n) && right in Children(n);
      var compiledLeft :- Emit(left, state);
      var compiledRight :- Emit(right, state);
      var instruction :- OperatorInstruction(op);
      Success(compiledLeft + compiledRight + [instruction])
    case NumberNode(value) => Success([LdcR8(value)])
    case UnaryNode(op, child) =>
      assert child in Children(n);
      var compiledChild :- Emit(child, state);
      Success(if op == Minus then compiledChild + [Neg] else compiledChild)
    case VariableNode(identifier) => Success([Ldarg0, Ldstr(identifier), CallvirtGetVariable])
    case FunctionNode(identifier, parameters) =>
      if |parameters| == 0 then Success([Ldarg0, Ldstr(identifier), CallSpanEmpty, CallvirtCallFunction])
      else if !state.parameters then Failure(AssertionFailure("state.Parameters != null"))
      else
        var arguments :- EmitArguments(n, |parameters|, state);
        assert forall p :: p in parameters <==> exists i :: 0 <= i < |parameters| && parameters[i] == p;
        Success([Ldarg0, Ldstr(identifier)] + arguments + SlotAddress(state.stackLocation) + [LdcI4(|parameters|), NewobjSpan, CallvirtCallFunction])
    case _ => Failure(CompilerException("Unknown node type: " + NodeTypeName(n)))
  }

  /**
   * The code that stores the first `j` arguments of a call: for argument i,
   * the address of slot `stackLocation + i`, the argument's code compiled at
   * that location, and `stind.r8`.
   */
  function EmitArguments(n: Node, j: nat, state: CompilationState): (r: Result<seq<Instr>, Exception>)
    requires n.FunctionNode? && j <= |n.parameters|
    ensures r.Success? <==> forall i :: 0 <= i < j ==> Compilable(n.parameters[i]) && (HasParameterizedCall(n.parameters[i]) ==> state.parameters)
    ensures r.Success? ==> Ret !in r.value
    ensures r.Failure? ==> r.error.CompilerException? || (r.error.AssertionFailure? && !state.parameters)
    ensures j > 0 ==> HasParameterizedCall(n)
    decreases n, 0, j
  {
    if j == 0 then Success([])
    else
      var previous :- EmitArguments(n, j - 1, state);
      var offset := state.stackLocation + (j - 1);
      var argument :- Emit(n.parameters[j - 1], state.(stackLocation := offset));
      Success(previous + StoreArgument(offset, argument))
  }

  /**
   * `CompileSyntaxTree`: the `localloc` prologue when the block is needed,
   * the root's code compiled at location 0, and `ret`.
   */
  function Program(rootNode: Node, maximumParameterStackSize: int): (r: Result<seq<Instr>, Exception>)
  {
    var prologue := if maximumParameterStackSize > 0 then [LdcI4(maximumParameterStackSize * SizeOfDouble), ConvU, Localloc, Stloc] else [];
    var body :- Emit(rootNode, CompilationState(maximumParameterStackSize > 0, 0));
    Success(prologue + body + [Ret])
  }
}
