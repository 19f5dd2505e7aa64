/**
 * The part of the CLR the IL back end (ILMath/Compiler.cs) relies on: an
 * evaluation stack, the one local that holds the scratch-buffer pointer,
 * and the `localloc` block itself, seen as a sequence of 8-byte slots.
 *
 * Only the instructions the back end emits are modelled. A call through the
 * context is the `Env` view of the context; an exception it raises ends the
 * run as `Thrown`. A store or a span outside the block is an access fault,
 * and an instruction applied to operands of the wrong kind is an invalid
 * program: the correctness theorem for the back end shows that neither
 * happens.
 */
module ILMachine {
  import opened Wrappers
  import opened Numbers
  import opened Evaluation

  /** The values on the evaluation stack. */
  datatype Value =
    | Float(number: Num)                  // a float64
    | Int(int32: int)                     // an int32 or a native unsigned int
    | Pointer(byteOffset: int)            // a pointer into the localloc block
    | Context                              // the IEvaluationContext argument
    | Text(text: string)                  // a string reference
    | Span(byteStart: int, count: int)    // a Span<double> over the block

  /** The instructions the back end emits. */
  datatype Instr =
    | LdcR8(value: real)
    | LdcI4(constant: int)
    | ConvU
    | Localloc
    | Stloc
    | Ldloc
    | Ldarg0
    | Ldstr(text: string)
    | Add
    | Sub
    | Mul
    | Div
    | Rem
    | Neg
    | CallPow                 // call Math.Pow
    | CallvirtGetVariable     // callvirt IEvaluationContext.GetVariable
    | CallSpanEmpty           // call Span<double>.Empty's getter
    | NewobjSpan              // newobj Span<double>(void*, int)
    | CallvirtCallFunction    // callvirt IEvaluationContext.CallFunction
    | StindR8
    | Ret

  /** How a run ends when it does not return a value. */
  datatype Trap =
    | Thrown(exception: Exception)   // an exception raised by the context or a callee
    | InvalidProgram                 // operands of the wrong kind, or no `ret`
    | AccessViolation                // a slot outside the localloc block

  datatype Machine = Machine(stack: seq<Value>, local: Option<Value>, buffer: seq<Num>)

  const SizeOfDouble: int := 8

  /** The state a run starts in: empty stack, no local yet, no block. */
  function Initial(): Machine {
    Machine([], None, [])
  }

  /** A context call's result as the emitted method sees it: an exception becomes a trap. */
  function Lift(r: Result<Num, Exception>): (t: Result<Num, Trap>)
    ensures r.Success? ==> t == Success(r.value)
    ensures r.Failure? ==> t == Failure(Thrown(r.error))
  {
    match r
    case Success(v) => Success(v)
    case Failure(e) => Failure(Thrown(e))
  }

  function Top(m: Machine, depth: nat): Value
    requires depth < |m.stack|
  {
    m.stack[|m.stack| - 1 - depth]
  }

  function Replace(m: Machine, popped: nat, pushed: Value): Machine
    requires popped <= |m.stack|
  {
    m.(stack := m.stack[..|m.stack| - popped] + [pushed])
  }

  /** Slots [byteStart/8, byteStart/8 + count) are an aligned range inside the block. */
  predicate InBlock(m: Machine, byteStart: int, count: int) {
    0 <= byteStart && byteStart % SizeOfDouble == 0 && 0 <= count && byteStart / SizeOfDouble + count <= |m.buffer|
  }

  predicate IsArithmetic(instr: Instr) {
    instr.Add? || instr.Sub? || instr.Mul? || instr.Div? || instr.Rem? || instr.CallPow?
  }

  /** The float64 operation an arithmetic instruction performs. */
  function Combine(instr: Instr, left: Num, right: Num): Num
    requires IsArithmetic(instr)
  {
    if instr.Add? then Sum(left, right)
    else if instr.Sub? then Difference(left, right)
    else if instr.Mul? then Product(left, right)
    else if instr.Div? then Quotient(left, right)
    else if instr.Rem? then Remainder(left, right)
    else Power(left, right)
  }

  /** An arithmetic instruction on the two topmost values, both float64. */
  function Arithmetic(m: Machine, instr: Instr): Result<Machine, Trap>
    requires IsArithmetic(instr)
  {
    if |m.stack| >= 2 && Top(m, 1).Float? && Top(m, 0).Float? then
      Success(Replace(m, 2, Float(Combine(instr, Top(m, 1).number, Top(m, 0).number))))
    else Failure(InvalidProgram)
  }

  /** A freshly allocated block of `count` slots: `localloc` zeroes it. */
  function Zeros(count: nat): (r: seq<Num>)
    ensures |r| == count && forall i :: 0 <= i < count ==> r[i] == Zero
  {
    if count == 0 then [] else Zeros(count - 1) + [Zero]
  }

  /**
   * One instruction. Only `Localloc` and `StindR8` change the block, and
   * only `Stloc` changes the local.
   */
  function Step(instr: Instr, m: Machine, env: Env): (r: Result<Machine, Trap>)
    requires instr != Ret
    ensures r.Success? && !instr.Localloc? && !instr.StindR8? ==> r.value.buffer == m.buffer
    ensures r.Success? && !instr.Stloc? ==> r.value.local == m.local
  {
    match instr
    case LdcR8(value) => Success(m.(stack := m.stack + [Float(Literal(value))]))
    case LdcI4(constant) => Success(m.(stack := m.stack + [Int(constant)]))
    case ConvU =>
      if |m.stack| >= 1 && Top(m, 0).Int? then Success(m) else Failure(InvalidProgram)
    case Localloc =>
      if |m.stack| >= 1 && Top(m, 0).Int? && Top(m, 0).int32 >= 0 then
        var slots := Top(m, 0).int32 / SizeOfDouble;
        Success(Replace(m, 1, Pointer(0)).(buffer := Zeros(slots)))
      else Failure(InvalidProgram)
    case Stloc =>
      if |m.stack| >= 1 then Success(m.(stack := m.stack[..|m.stack| - 1], local := Some(Top(m, 0))))
      else Failure(InvalidProgram)
    case Ldloc =>
      if m.local.Some? then Success(m.(stack := m.stack + [m.local.value])) else Failure(InvalidProgram)
    case Ldarg0 => Success(m.(stack := m.stack + [Context]))
    case Ldstr(text) => Success(m.(stack := m.stack + [Text(text)]))
    case Add =>
      if |m.stack| >= 2 && Top(m, 1).Pointer? && Top(m, 0).Int? then
        Success(Replace(m, 2, Pointer(Top(m, 1).byteOffset + Top(m, 0).int32)))
      else Arithmetic(m, Add)
    case Sub => Arithmetic(m, Sub)
    case Mul => Arithmetic(m, Mul)
    case Div => Arithmetic(m, Div)
    case Rem => Arithmetic(m, Rem)
    case CallPow => Arithmetic(m, CallPow)
    case Neg =>
      if |m.stack| >= 1 && Top(m, 0).Float? then Success(Replace(m, 1, Float(Negation(Top(m, 0).number))))
      else Failure(InvalidProgram)
    case CallvirtGetVariable =>
      if |m.stack| >= 2 && Top(m, 1).Context? && Top(m, 0).Text? then
        var v :- Lift(env.GetVariable(Top(m, 0).text));
        Success(Replace(m, 2, Float(v)))
      else Failure(InvalidProgram)
    case CallSpanEmpty => Success(m.(stack := m.stack + [Span(0, 0)]))
    case NewobjSpan =>
      if |m.stack| >= 2 && Top(m, 1).Pointer? && Top(m, 0).Int? then
        if Top(m, 0).int32 < 0 then Failure(Thrown(ArgumentException("length")))
        else Success(Replace(m, 2, Span(Top(m, 1).byteOffset, Top(m, 0).int32)))
      else Failure(InvalidProgram)
    case CallvirtCallFunction =>
      if |m.stack| >= 3 && Top(m, 2).Context? && Top(m, 1).Text? && Top(m, 0).Span? then
        var span := Top(m, 0);
        if !InBlock(m, span.byteStart, span.count) then Failure(AccessViolation)
        else
          var first := span.byteStart / SizeOfDouble;
          var v :- Lift(env.CallFunction(Top(m, 1).text, m.buffer[first..first + span.count]));
          Success(Replace(m, 3, Float(v)))
      else Failure(InvalidProgram)
    case StindR8 =>
      if |m.stack| >= 2 && Top(m, 1).Pointer? && Top(m, 0).Float? then
        var address := Top(m, 1).byteOffset;
        if !InBlock(m, address, 1) then Failure(AccessViolation)
        else Success(m.(stack := m.stack[..|m.stack| - 2], buffer := m.buffer[address / SizeOfDouble := Top(m, 0).number]))
      else Failure(InvalidProgram)
  }

  /** Straight-line code, first instruction first, stopping at the first trap. */
  function Exec(code: seq<Instr>, m: Machine, env: Env): Result<Machine, Trap>
    requires Ret !in code
  {
    if code == [] then Success(m)
    else
      var next :- Step(code[0], m, env);
      Exec(code[1..], next, env)
  }

  /** The index of the first `ret`. */
  function FirstRet(code: seq<Instr>): (k: nat)
    requires Ret in code
    ensures k < |code| && code[k] == Ret && Ret !in code[..k]
  {
    if code[0] == Ret then 0
    else
      var k := FirstRet(code[1..]);
      assert code[1..][..k] == code[1..k + 1];
      assert code[..k + 1] == [code[0]] + code[1..k + 1];
      k + 1
  }

  /**
   * Invoking the compiled delegate: the method body runs up to its first
   * `ret`, which must find exactly one float64 on the stack. A body without
   * `ret` is rejected before it runs.
   */
  function Run(code: seq<Instr>, env: Env): Result<Num, Trap> {
    if Ret !in code then Failure(InvalidProgram)
    else
      var final :- Exec(code[..FirstRet(code)], Initial(), env);
      if |final.stack| == 1 && final.stack[0].Float? then Success(final.stack[0].number)
      else Failure(InvalidProgram)
  }

  /** Running two pieces of code one after the other is running their concatenation. */
  lemma {:induction false} ExecAppend(a: seq<Instr>, b: seq<Instr>, m: Machine, env: Env)
    requires Ret !in a && Ret !in b
    ensures Ret !in a + b
    ensures Exec(a + b, m, env) == (var middle :- Exec(a, m, env); Exec(b, middle, env))
    decreases |a|
  {
    if a != [] {
      assert (a + b)[0] == a[0];
      assert (a + b)[1..] == a[1..] + b;
      var next := Step(a[0], m, env);
      if next.Success? {
        ExecAppend(a[1..], b, next.value, env);
        assert Exec(a + b, m, env) == Exec(a[1..] + b, next.value, env);
        assert Exec(a, m, env) == Exec(a[1..], next.value, env);
      } else {
        assert Exec(a + b, m, env) == Failure(next.error);
        assert Exec(a, m, env) == Failure(next.error);
      }
    } else {
      assert a + b == b;
    }
  }

  /** One instruction more at the end. */
  lemma ExecSnoc(a: seq<Instr>, instr: Instr, m: Machine, env: Env)
    requires Ret !in a && instr != Ret
    ensures Ret !in a + [instr]
    ensures Exec(a + [instr], m, env) == (var middle :- Exec(a, m, env); Step(instr, middle, env))
  {
    ExecAppend(a, [instr], m, env);
    forall middle: Machine ensures Exec([instr], middle, env) == Step(instr, middle, env) {
      assert [instr][1..] == [];
    }
  }

  /** One more instruction before the first `ret`. */
  lemma PrefixStep(code: seq<Instr>, pc: nat, env: Env)
    requires Ret in code && pc < FirstRet(code)
    ensures Ret !in code[..pc] && code[pc] != Ret
    ensures Exec(code[..pc + 1], Initial(), env) == (var middle :- Exec(code[..pc], Initial(), env); Step(code[pc], middle, env))
  {
    assert code[..pc + 1] == code[..pc] + [code[pc]];
    assert code[..pc] == code[..FirstRet(code)][..pc];
    ExecSnoc(code[..pc], code[pc], Initial(), env);
  }

  /** A trap before the first `ret` is the outcome of the whole run. */
  lemma RunStops(code: seq<Instr>, pc: nat, env: Env)
    requires Ret in code && pc < FirstRet(code)
    requires Ret !in code[..pc + 1] && Exec(code[..pc + 1], Initial(), env).Failure?
    ensures Run(code, env) == Failure(Exec(code[..pc + 1], Initial(), env).error)
  {
    var k := FirstRet(code);
    assert code[..pc + 1] + code[pc + 1..k] == code[..k];
    ExecAppend(code[..pc + 1], code[pc + 1..k], Initial(), env);
  }

  /** What a successful instruction does to the block and the local. */
  lemma BlockStep(instr: Instr, m: Machine, env: Env)
    requires instr != Ret && Step(instr, m, env).Success?
    ensures var next := Step(instr, m, env).value;
      && (instr.Localloc? ==>
            && |m.stack| >= 1 && Top(m, 0).Int? && Top(m, 0).int32 >= 0
            && next == Machine(next.stack, m.local, Zeros(Top(m, 0).int32 / SizeOfDouble)))
      && (instr.StindR8? ==>
            && |m.stack| >= 2 && Top(m, 1).Pointer? && Top(m, 0).Float?
            && 0 <= Top(m, 1).byteOffset / SizeOfDouble < |m.buffer|
            && next == Machine(next.stack, m.local, m.buffer[Top(m, 1).byteOffset / SizeOfDouble := Top(m, 0).number]))
      && (!instr.Localloc? && !instr.StindR8? ==> next == Machine(next.stack, next.local, m.buffer))
  {
  }

  /**
   * One instruction that does not trap, carried out on the real block:
   * `localloc` allocates a new one, `stind.r8` writes a slot in place.
   */
  method Perform(instr: Instr, stack: seq<Value>, local: Option<Value>, buffer: array<Num>, env: Env)
    returns (stack': seq<Value>, local': Option<Value>, buffer': array<Num>)
    requires instr != Ret && Step(instr, Machine(stack, local, buffer[..]), env).Success?
    modifies buffer
    ensures buffer' == buffer || fresh(buffer')
    ensures Machine(stack', local', buffer'[..]) == Step(instr, Machine(stack, local, old(buffer[..])), env).value
  {
    var m := Machine(stack, local, buffer[..]);
    var next := Step(instr, m, env).value;
    BlockStep(instr, m, env);
    buffer', local' := buffer, local;
    if instr.Localloc? {
      buffer' := new Num[Top(m, 0).int32 / SizeOfDouble](_ => Zero);
      assert buffer'[..] == Zeros(buffer'.Length);
    } else if instr.StindR8? {
      buffer[Top(m, 1).byteOffset / SizeOfDouble] := Top(m, 0).number;
    } else {
      local' := next.local;
    }
    stack' := next.stack;
  }

  /**
   * `Run` carried out on a real block: an `array` that `localloc` allocates
   * and `stind.r8` writes in place, the other instructions executed as `Step`
   * describes them.
   */
  method Execute(code: seq<Instr>, env: Env) returns (r: Result<Num, Trap>)
    ensures r == Run(code, env)
  {
    if Ret !in code {
      return Failure(InvalidProgram);
    }
    var stack: seq<Value> := [];
    var local: Option<Value> := None;
    var buffer: array<Num> := new Num[0];
    var pc := 0;
    assert code[..0] == [];
    assert buffer[..] == [];
    while code[pc] != Ret
      invariant 0 <= pc <= FirstRet(code)
      invariant Ret !in code[..pc]
      invariant fresh(buffer)
      invariant Exec(code[..pc], Initial(), env) == Success(Machine(stack, local, buffer[..]))
      decreases FirstRet(code) - pc
    {
      var instr := code[pc];
      var m := Machine(stack, local, buffer[..]);
      PrefixStep(code, pc, env);
      var next := Step(instr, m, env);
      if next.Failure? {
        RunStops(code, pc, env);
        return Failure(next.error);
      }
      stack, local, buffer := Perform(instr, stack, local, buffer, env);
      pc := pc + 1;
    }
    assert pc == FirstRet(code);
    if |stack| == 1 && stack[0].Float? {
      r := Success(stack[0].number);
    } else {
      r := Failure(InvalidProgram);
    }
  }
}
