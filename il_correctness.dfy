/**
 * What the code emitted by the IL back end (ILMath/Compiler.cs) does when
 * it runs: it computes `Eval`. Along the way, every slot it writes or reads
 * lies inside the block the pre-pass sized, the code for a node touches no
 * slot below its stack location (so arguments already stored survive), and
 * each node leaves exactly one float64 on the stack.
 */
module ILCorrectness {
  import opened Wrappers
  import opened Numbers
  import opened SyntaxTree
  import opened Evaluation
  import opened Semantics
  import opened ILMachine
  import opened ILCompilation
  import opened ILPieces

  // ---------------------------------------------------------------------------
  // Small pieces of code.

  /** The address of slot `offset`, when the local holds the block's start. */
  lemma SlotAddressRuns(offset: int, m: Machine, env: Env)
    requires m.local == Some(Pointer(0)) && offset >= 0
    ensures Ret !in SlotAddress(offset)
    ensures Exec(SlotAddress(offset), m, env) == Success(m.(stack := m.stack + [Pointer(offset * SizeOfDouble)]))
  {
    var pushed := m.(stack := m.stack + [Pointer(0)]);
    if offset > 0 {
      assert SlotAddress(offset) == [Ldloc] + [LdcI4(offset * SizeOfDouble), Add];
      ExecAppend([Ldloc], [LdcI4(offset * SizeOfDouble), Add], m, env);
      ExecOne(Ldloc, m, env);
      ExecTwo(LdcI4(offset * SizeOfDouble), Add, pushed, env);
      var loaded := pushed.(stack := pushed.stack + [Int(offset * SizeOfDouble)]);
      assert loaded.stack[..|loaded.stack| - 2] == m.stack;
    } else {
      assert SlotAddress(offset) == [Ldloc];
      ExecOne(Ldloc, m, env);
    }
  }

  /** The binary operator's instruction on two float64 values computes `Apply`. */
  lemma OperatorRuns(op: OperatorType, below: seq<Value>, left: Num, right: Num, m: Machine, env: Env)
    requires !op.Undefined? && m.stack == below + [Float(left), Float(right)]
    ensures Step(OperatorInstruction(op).value, m, env) == Success(m.(stack := below + [Float(Apply(op, left, right))]))
  {
    assert m.stack[..|m.stack| - 2] == below;
  }

  // ---------------------------------------------------------------------------
  // Evaluation of a prefix of the parameters.

  lemma {:induction false} EvalAllAppend(a: seq<Node>, b: seq<Node>, env: Env)
    requires forall p :: p in a + b ==> Compilable(p)
    ensures (forall p :: p in a ==> Compilable(p)) && (forall p :: p in b ==> Compilable(p))
    ensures EvalAll(a + b, env) == (var x :- EvalAll(a, env); var y :- EvalAll(b, env); Success(x + y))
    decreases |a|
  {
    assert forall p :: p in a ==> p in a + b;
    assert forall p :: p in b ==> p in a + b;
    if a == [] {
      assert a + b == b;
      if EvalAll(b, env).Success? {
        assert [] + EvalAll(b, env).value == EvalAll(b, env).value;
      }
    } else {
      assert (a + b)[0] == a[0];
      assert (a + b)[1..] == a[1..] + b;
      EvalAllAppend(a[1..], b, env);
      var first := Eval(a[0], env);
      if first.Success? && EvalAll(a[1..], env).Success? && EvalAll(b, env).Success? {
        assert [first.value] + (EvalAll(a[1..], env).value + EvalAll(b, env).value) == ([first.value] + EvalAll(a[1..], env).value) + EvalAll(b, env).value;
      }
    }
  }

  /** The first `j` parameters evaluate to those of the first `j - 1`, then the last one's value. */

  lemma EvalAllSnoc(ps: seq<Node>, j: nat, env: Env)
    requires forall p :: p in ps ==> Compilable(p)
    requires 0 < j <= |ps|
    ensures (forall p :: p in ps[..j] ==> Compilable(p)) && (forall p :: p in ps[..j - 1] ==> Compilable(p))
    ensures EvalAll(ps[..j], env) == Extend(EvalAll(ps[..j - 1], env), Eval(ps[j - 1], env))
  {
    assert ps[..j] == ps[..j - 1] + [ps[j - 1]];
    assert forall p :: p in ps[..j] ==> p in ps;
    EvalAllAppend(ps[..j - 1], [ps[j - 1]], env);
    assert [ps[j - 1]][1..] == [];
    var last := Eval(ps[j - 1], env);
    if last.Success? {
      assert [last.value] + [] == [last.value];
      assert EvalAll([ps[j - 1]], env) == Success([last.value]);
    } else {
      assert EvalAll([ps[j - 1]], env) == Failure(last.error);
    }
  }

  // ---------------------------------------------------------------------------
  // The emitted code computes `Eval`.

  /**
   * The code for a compilable node, run with the block in place (when the
   * node holds a call with parameters) and big enough for the node's stack
   * size from its location, computes `Eval`: it pushes the value, or it
   * raises the exception `Eval` raises, and it leaves every slot below its
   * location alone.
   */
  lemma {:induction false} EmitComputes(n: Node, state: CompilationState, m: Machine, env: Env)
    requires Compilable(n)
    requires HasParameterizedCall(n) ==> state.parameters && m.local == Some(Pointer(0))
    requires 0 <= state.stackLocation <= |m.buffer|
    requires StackSize(n, state.stackLocation - 1) <= |m.buffer|
    ensures Emit(n, state).Success?
    ensures Computes(Emit(n, state).value, m, env, state.stackLocation, Eval(n, env))
    decreases n, 1
  {
    match n
    case NumberNode(value) =>
      ExecOne(LdcR8(value), m, env);
    case VariableNode(identifier) =>
      VariableComputes(identifier, state.stackLocation, m, env);
    case BinaryNode(op, left, right) =>
      BinaryComputes(n, state, m, env);
    case UnaryNode(op, child) =>
      UnaryComputes(n, state, m, env);
    case FunctionNode(identifier, parameters) =>
      if |parameters| == 0 {
        EmptyCallRuns(identifier, m, env);
      } else {
        FunctionComputes(n, state, m, env);
      }
  }

  lemma VariableComputes(identifier: string, from: int, m: Machine, env: Env)
    requires 0 <= from <= |m.buffer|
    ensures Computes([Ldarg0, Ldstr(identifier), CallvirtGetVariable], m, env, from, env.GetVariable(identifier))
  {
    assert [Ldarg0, Ldstr(identifier), CallvirtGetVariable] == [Ldarg0, Ldstr(identifier)] + [CallvirtGetVariable];
    ExecSnoc([Ldarg0, Ldstr(identifier)], CallvirtGetVariable, m, env);
    ContextAndName(identifier, m, env);
    assert (m.stack + [Context, Text(identifier)])[..|m.stack|] == m.stack;
  }

  /** A binary node: the left operand's code, the right operand's, then the operator's instruction. */
  lemma {:induction false} BinaryComputes(n: Node, state: CompilationState, m: Machine, env: Env)
    requires n.BinaryNode? && Compilable(n)
    requires HasParameterizedCall(n) ==> state.parameters && m.local == Some(Pointer(0))
    requires 0 <= state.stackLocation <= |m.buffer|
    requires StackSize(n, state.stackLocation - 1) <= |m.buffer|
    ensures Emit(n, state).Success?
    ensures Computes(Emit(n, state).value, m, env, state.stackLocation, Eval(n, env))
    decreases n, 0
  {
    var s := state.stackLocation;
    var left, right := n.left, n.right;
    ChildStackSize(n, 0, s - 1);
    ChildStackSize(n, 1, s - 1);
    assert Children(n)[0] == left && Children(n)[1] == right;
    assert HasParameterizedCall(left) ==> HasParameterizedCall(n);
    assert HasParameterizedCall(right) ==> HasParameterizedCall(n);
    EmitComputes(left, state, m, env);
    var compiledLeft := Emit(left, state).value;
    var compiledRight := Emit(right, state).value;
    var instruction := OperatorInstruction(n.op).value;
    assert Emit(n, state).value == compiledLeft + compiledRight + [instruction];
    ExecSnoc(compiledLeft + compiledRight, instruction, m, env);
    ExecAppend(compiledLeft, compiledRight, m, env);
    var l := Eval(left, env);
    if l.Success? {
      var afterLeft := Exec(compiledLeft, m, env).value;
      EmitComputes(right, state, afterLeft, env);
      var r := Eval(right, env);
      if r.Success? {
        var afterRight := Exec(compiledRight, afterLeft, env).value;
        assert afterRight.stack == m.stack + [Float(l.value), Float(r.value)];
        OperatorRuns(n.op, m.stack, l.value, r.value, afterRight, env);
        assert Eval(n, env) == Success(Apply(n.op, l.value, r.value));
      } else {
        assert Eval(n, env) == Failure(r.error);
      }
    } else {
      assert Eval(n, env) == Failure(l.error);
    }
  }

  /** A unary node: the operand's code, then `neg` for Minus only. */
  lemma {:induction false} UnaryComputes(n: Node, state: CompilationState, m: Machine, env: Env)
    requires n.UnaryNode? && Compilable(n)
    requires HasParameterizedCall(n) ==> state.parameters && m.local == Some(Pointer(0))
    requires 0 <= state.stackLocation <= |m.buffer|
    requires StackSize(n, state.stackLocation - 1) <= |m.buffer|
    ensures Emit(n, state).Success?
    ensures Computes(Emit(n, state).value, m, env, state.stackLocation, Eval(n, env))
    decreases n, 0
  {
    var child := n.child;
    ChildStackSize(n, 0, state.stackLocation - 1);
    assert Children(n)[0] == child;
    assert HasParameterizedCall(child) ==> HasParameterizedCall(n);
    EmitComputes(child, state, m, env);
    var compiledChild := Emit(child, state).value;
    var c := Eval(child, env);
    if n.op == Minus {
      assert Emit(n, state).value == compiledChild + [Neg];
      ExecSnoc(compiledChild, Neg, m, env);
      if c.Success? {
        var after := Exec(compiledChild, m, env).value;
        assert after.stack[..|after.stack| - 1] == m.stack;
        assert Eval(n, env) == Success(Negation(c.value));
      } else {
        assert Eval(n, env) == Failure(c.error);
      }
    } else {
      assert Emit(n, state).value == compiledChild;
      assert Eval(n, env) == c;
    }
  }

  /** A call with parameters: the arguments are stored in order, then `CallFunction` gets their slots. */
  lemma {:induction false} FunctionComputes(n: Node, state: CompilationState, m: Machine, env: Env)
    requires n.FunctionNode? && |n.parameters| > 0 && Compilable(n)
    requires state.parameters && m.local == Some(Pointer(0))
    requires 0 <= state.stackLocation <= |m.buffer|
    requires StackSize(n, state.stackLocation - 1) <= |m.buffer|
    ensures Emit(n, state).Success?
    ensures Computes(Emit(n, state).value, m, env, state.stackLocation, Eval(n, env))
    decreases n, 0
  {
    var s := state.stackLocation;
    var k := |n.parameters|;
    ChildStackSize(n, k - 1, s - 1);
    var named := m.(stack := m.stack + [Context, Text(n.identifier)]);
    EmitArgumentsComputes(n, k, state, named, env);
    EvalPrefixIsEvalAll(n, k, env);
    assert n.parameters[..k] == n.parameters;
    var arguments := EmitArguments(n, k, state).value;
    var call := SlotAddress(s) + [LdcI4(k), NewobjSpan, CallvirtCallFunction];
    assert Emit(n, state).value == [Ldarg0, Ldstr(n.identifier)] + arguments + call;
    CallComputes(Emit(n, state).value, arguments, call, n.identifier, k, s, m, env, EvalAll(n.parameters, env));
  }

  /**
   * `ldarg.0; ldstr id`, code that stores the argument values from slot
   * `from` on, then the call on those slots: the call's outcome, or the
   * first argument's exception.
   */
  lemma CallComputes(code: seq<Instr>, arguments: seq<Instr>, call: seq<Instr>, identifier: string, count: nat, from: nat,
                     m: Machine, env: Env, values: Result<seq<Num>, Exception>)
    requires call == SlotAddress(from) + [LdcI4(count), NewobjSpan, CallvirtCallFunction]
    requires code == [Ldarg0, Ldstr(identifier)] + arguments + call
    requires Ret !in arguments && m.local == Some(Pointer(0))
    requires Stores(arguments, m.(stack := m.stack + [Context, Text(identifier)]), env, from, values)
    requires values.Success? ==> |values.value| == count
    ensures Ret !in code
    ensures Computes(code, m, env, from, var vs :- values; env.CallFunction(identifier, vs))
  {
    var prefix := [Ldarg0, Ldstr(identifier)];
    var named := m.(stack := m.stack + [Context, Text(identifier)]);
    assert Ret !in SlotAddress(from);
    ExecAppend(prefix + arguments, call, m, env);
    ExecAppend(prefix, arguments, m, env);
    ContextAndName(identifier, m, env);
    if values.Success? {
      var stored := Exec(arguments, named, env).value;
      CallTailRuns(identifier, count, from, m.stack, stored, env);
      var result := env.CallFunction(identifier, values.value);
      assert Exec(code, m, env) == Exec(call, stored, env);
      if result.Success? {
        assert Exec(code, m, env) == Success(stored.(stack := m.stack + [Float(result.value)]));
      }
    }
  }

  /** The address of slot `from`, then the call on the `count` slots from there. */
  lemma CallTailRuns(identifier: string, count: nat, from: nat, below: seq<Value>, m: Machine, env: Env)
    requires m.stack == below + [Context, Text(identifier)]
    requires m.local == Some(Pointer(0)) && from + count <= |m.buffer|
    ensures Ret !in SlotAddress(from) + [LdcI4(count), NewobjSpan, CallvirtCallFunction]
    ensures Exec(SlotAddress(from) + [LdcI4(count), NewobjSpan, CallvirtCallFunction], m, env) ==
      (var v :- Lift(env.CallFunction(identifier, m.buffer[from..from + count]));
       Success(m.(stack := below + [Float(v)])))
  {
    SlotAddressRuns(from, m, env);
    ExecAppend(SlotAddress(from), [LdcI4(count), NewobjSpan, CallvirtCallFunction], m, env);
    var addressed := m.(stack := m.stack + [Pointer(from * SizeOfDouble)]);
    assert addressed.stack == below + [Context, Text(identifier), Pointer(from * SizeOfDouble)];
    CallRuns(identifier, count, from, below, addressed, env);
  }

  /** The first `j` parameters of a call evaluated left to right, as `EvalAll` does. */
  function EvalPrefix(n: Node, j: nat, env: Env): (r: Result<seq<Num>, Exception>)
    requires n.FunctionNode? && Compilable(n) && j <= |n.parameters|
    ensures r.Success? ==> |r.value| == j
  {
    if j == 0 then Success([])
    else
      assert n.parameters[j - 1] in n.parameters;
      Extend(EvalPrefix(n, j - 1, env), Eval(n.parameters[j - 1], env))
  }

  /** All of a call's parameters evaluated one by one give `EvalAll`. */
  lemma {:induction false} EvalPrefixIsEvalAll(n: Node, j: nat, env: Env)
    requires n.FunctionNode? && Compilable(n) && j <= |n.parameters|
    ensures forall p :: p in n.parameters[..j] ==> Compilable(p)
    ensures EvalPrefix(n, j, env) == EvalAll(n.parameters[..j], env)
  {
    var ps := n.parameters;
    assert forall p :: p in ps[..j] ==> p in ps;
    if j == 0 {
      assert ps[..0] == [];
    } else {
      EvalPrefixIsEvalAll(n, j - 1, env);
      EvalAllSnoc(ps, j, env);
    }
  }

  /**
   * The code that stores the first `j` arguments: run from a state whose
   * block is big enough, it fills slots `s .. s + j` with the arguments'
   * values in order, touching no slot below `s`, or it raises the exception
   * of the first argument that throws.
   */
  lemma {:induction false} EmitArgumentsComputes(n: Node, j: nat, state: CompilationState, m: Machine, env: Env)
    requires n.FunctionNode? && Compilable(n) && j <= |n.parameters|
    requires state.parameters && m.local == Some(Pointer(0))
    requires 0 <= state.stackLocation <= |m.buffer|
    requires StackSize(n, state.stackLocation - 1) <= |m.buffer|
    ensures EmitArguments(n, j, state).Success?
    ensures Stores(EmitArguments(n, j, state).value, m, env, state.stackLocation, EvalPrefix(n, j, env))
    decreases n, 0, j, 3
  {
    if j > 0 {
      EmitArgumentsComputes(n, j - 1, state, m, env);
      ArgumentsExtend(n, j, state, m, env);
    }
  }

  /** Argument `j - 1` stored after the first `j - 1`: the block holds the first `j` values. */
  lemma {:induction false} ArgumentsExtend(n: Node, j: nat, state: CompilationState, m: Machine, env: Env)
    requires n.FunctionNode? && Compilable(n) && 0 < j <= |n.parameters|
    requires state.parameters && m.local == Some(Pointer(0))
    requires 0 <= state.stackLocation <= |m.buffer|
    requires StackSize(n, state.stackLocation - 1) <= |m.buffer|
    requires EmitArguments(n, j - 1, state).Success?
    requires Stores(EmitArguments(n, j - 1, state).value, m, env, state.stackLocation, EvalPrefix(n, j - 1, env))
    ensures EmitArguments(n, j, state).Success?
    ensures Stores(EmitArguments(n, j, state).value, m, env, state.stackLocation, EvalPrefix(n, j, env))
    decreases n, 0, j, 2
  {
    var s := state.stackLocation;
    var offset := s + (j - 1);
    ArgumentsUnfold(n, j, state);
    var previous := EmitArguments(n, j - 1, state).value;
    var piece := StoreArgument(offset, Emit(n.parameters[j - 1], state.(stackLocation := offset)).value);
    ArgumentAfter(n, j, state, previous, m, env);
    ArgumentsStep(EmitArguments(n, j, state).value, previous, piece, m, env, s, offset,
      EvalPrefix(n, j, env), EvalPrefix(n, j - 1, env), Eval(n.parameters[j - 1], env));
  }

  /** The call loop's code for `j` arguments is that for `j - 1` followed by argument `j - 1`'s. */
  lemma ArgumentsUnfold(n: Node, j: nat, state: CompilationState)
    requires n.FunctionNode? && Compilable(n) && 0 < j <= |n.parameters| && state.parameters
    ensures EmitArguments(n, j - 1, state).Success?
    ensures Emit(n.parameters[j - 1], state.(stackLocation := state.stackLocation + (j - 1))).Success?
    ensures EmitArguments(n, j, state) == Success(EmitArguments(n, j - 1, state).value +
      StoreArgument(state.stackLocation + (j - 1), Emit(n.parameters[j - 1], state.(stackLocation := state.stackLocation + (j - 1))).value))
  {
    var parameter := n.parameters[j - 1];
    assert parameter in n.parameters;
    assert HasParameterizedCall(parameter) ==> HasParameterizedCall(n);
  }

  /** Argument `j - 1`'s code, run after `previous` has stored the earlier arguments. */
  lemma {:induction false} ArgumentAfter(n: Node, j: nat, state: CompilationState, previous: seq<Instr>, m: Machine, env: Env)
    requires n.FunctionNode? && Compilable(n) && 0 < j <= |n.parameters|
    requires state.parameters && m.local == Some(Pointer(0))
    requires 0 <= state.stackLocation <= |m.buffer|
    requires StackSize(n, state.stackLocation - 1) <= |m.buffer|
    requires Ret !in previous
    requires Stores(previous, m, env, state.stackLocation, EvalPrefix(n, j - 1, env))
    ensures Emit(n.parameters[j - 1], state.(stackLocation := state.stackLocation + (j - 1))).Success?
    ensures var offset := state.stackLocation + (j - 1);
      var piece := StoreArgument(offset, Emit(n.parameters[j - 1], state.(stackLocation := offset)).value);
      var prefix := EvalPrefix(n, j - 1, env);
      && Ret !in piece
      && (prefix.Success? ==>
            (&& state.stackLocation + |prefix.value| == offset
             && Stored(piece, Exec(previous, m, env).value, env, offset, Eval(n.parameters[j - 1], env))))
    decreases n, 0, j, 1
  {
    var prefix := EvalPrefix(n, j - 1, env);
    if prefix.Success? {
      ArgumentComputes(n, j, state, Exec(previous, m, env).value, env);
    } else {
      ArgumentComputes(n, j, state, m, env);
    }
  }

  /**
   * Argument `j - 1`'s own code, run once the earlier arguments are stored:
   * its slot ends up holding the argument's value.
   */
  lemma {:induction false} ArgumentComputes(n: Node, j: nat, state: CompilationState, before: Machine, env: Env)
    requires n.FunctionNode? && Compilable(n) && 0 < j <= |n.parameters|
    requires state.parameters && before.local == Some(Pointer(0))
    requires 0 <= state.stackLocation <= |before.buffer|
    requires StackSize(n, state.stackLocation - 1) <= |before.buffer|
    ensures Compilable(n.parameters[j - 1])
    ensures Emit(n.parameters[j - 1], state.(stackLocation := state.stackLocation + (j - 1))).Success?
    ensures var offset := state.stackLocation + (j - 1);
      var argument := Emit(n.parameters[j - 1], state.(stackLocation := offset)).value;
      && Ret !in StoreArgument(offset, argument)
      && offset < |before.buffer|
      && Stored(StoreArgument(offset, argument), before, env, offset, Eval(n.parameters[j - 1], env))
    decreases n, 0, j, 0
  {
    var s := state.stackLocation;
    var ps := n.parameters;
    var offset := s + (j - 1);
    var parameter := ps[j - 1];
    ChildStackSize(n, j - 1, s - 1);
    ChildStackSize(n, |ps| - 1, s - 1);
    assert Children(n)[j - 1] == parameter;
    StackSizeMonotone(parameter, offset - 1, offset);
    var argumentState := state.(stackLocation := offset);
    var addressed := before.(stack := before.stack + [Pointer(offset * SizeOfDouble)]);
    EmitComputes(parameter, argumentState, addressed, env);
    StoreComputes(Emit(parameter, argumentState).value, offset, before, env, Eval(parameter, env));
  }

  /**
   * The code that stores one argument: the slot address, the argument, and
   * `stind.r8`.
   */
  lemma StoreComputes(argument: seq<Instr>, offset: int, before: Machine, env: Env, expected: Result<Num, Exception>)
    requires before.local == Some(Pointer(0)) && 0 <= offset < |before.buffer|
    requires Ret !in argument
    requires Computes(argument, before.(stack := before.stack + [Pointer(offset * SizeOfDouble)]), env, offset, expected)
    ensures Ret !in StoreArgument(offset, argument)
    ensures Stored(StoreArgument(offset, argument), before, env, offset, expected)
  {
    var addressed := before.(stack := before.stack + [Pointer(offset * SizeOfDouble)]);
    SlotAddressRuns(offset, before, env);
    ExecSnoc(SlotAddress(offset) + argument, StindR8, before, env);
    ExecAppend(SlotAddress(offset), argument, before, env);
    if expected.Success? {
      var computed := Exec(argument, addressed, env).value;
      StoreRuns(before.stack, offset, expected.value, computed, env);
    }
  }

  // ---------------------------------------------------------------------------
  // The whole program.

  /**
   * The back end's theorem: for a tree it compiles, the emitted method,
   * with the block the pre-pass sized, returns the value `Eval` gives or
   * raises the exception `Eval` raises, in every context; it never faults
   * on the block and never runs into an invalid program.
   */
  lemma ProgramComputes(root: Node, env: Env)
    requires Compilable(root)
    ensures Program(root, StackSize(root, -1)).Success?
    ensures Run(Program(root, StackSize(root, -1)).value, env) == Lift(Eval(root, env))
  {
    var size := StackSize(root, -1);
    var state := CompilationState(size > 0, 0);
    var start := if size > 0 then Machine([], Some(Pointer(0)), Zeros(size)) else Initial();
    assert Emit(root, state).Success? && Computes(Emit(root, state).value, start, env, 0, Eval(root, env)) by {
      StackSizePositive(root, -1);
      EmitComputes(root, state, start, env);
    }
    var prologue: seq<Instr> := if size > 0 then [LdcI4(size * SizeOfDouble), ConvU, Localloc, Stloc] else [];
    assert Exec(prologue, Initial(), env) == Success(start) by {
      if size > 0 {
        PrologueRuns(size, env);
      }
    }
    assert Program(root, size) == Success(prologue + Emit(root, state).value + [Ret]);
    RunsToRet(prologue, Emit(root, state).value, start, env, Eval(root, env));
  }

  /** A tree it does not compile is rejected with a CompilerException, never with the `Debug.Assert`. */
  lemma ProgramRejects(root: Node)
    requires !Compilable(root)
    ensures Program(root, StackSize(root, -1)).Failure?
    ensures Program(root, StackSize(root, -1)).error.CompilerException?
  {
    StackSizePositive(root, -1);
  }
}
