/**
 * What pieces of IL code do on the machine, independently of which node
 * they were emitted for: the outcome predicates the back end's proof is
 * stated with, and the runs of the fixed instruction sequences it emits.
 */
module ILPieces {
  import opened Wrappers
  import opened Numbers
  import opened Evaluation
  import opened ILMachine

  /** The block's local is unchanged, the block keeps its size, and slots below `from` keep their values. */
  predicate Keeps(before: Machine, after: Machine, from: int) {
    && after.local == before.local
    && |after.buffer| == |before.buffer|
    && 0 <= from <= |before.buffer|
    && after.buffer[..from] == before.buffer[..from]
  }

  /**
   * Running `code` from `m` has the outcome `expected` describes: on a value
   * it is pushed and nothing below `from` changes; on an exception the run
   * ends with exactly that exception.
   */
  predicate Computes(code: seq<Instr>, m: Machine, env: Env, from: int, expected: Result<Num, Exception>)
    requires Ret !in code
  {
    match expected
    case Success(v) =>
      var r := Exec(code, m, env);
      r.Success? && r.value.stack == m.stack + [Float(v)] && Keeps(m, r.value, from)
    case Failure(e) => Exec(code, m, env) == Failure(Thrown(e))
  }

  /** The values stored so far followed by one more, or the first exception. */
  function Extend(stored: Result<seq<Num>, Exception>, next: Result<Num, Exception>): (r: Result<seq<Num>, Exception>)
    ensures r.Success? <==> stored.Success? && next.Success?
    ensures r.Success? ==> r.value == stored.value + [next.value]
    ensures stored.Failure? ==> r == Failure(stored.error)
    ensures stored.Success? && next.Failure? ==> r == Failure(next.error)
  {
    var vs :- stored;
    var v :- next;
    Success(vs + [v])
  }

  /**
   * Running `code` from `m` stores the values `expected` describes in the
   * slots from `from` on, leaving the stack as it was and nothing below
   * `from` changed; or it ends with exactly the exception `expected` holds.
   */
  predicate Stores(code: seq<Instr>, m: Machine, env: Env, from: int, expected: Result<seq<Num>, Exception>)
    requires Ret !in code
  {
    match expected
    case Success(vs) =>
      var r := Exec(code, m, env);
      && r.Success?
      && r.value.stack == m.stack
      && Keeps(m, r.value, from)
      && from + |vs| <= |m.buffer|
      && r.value.buffer[from..from + |vs|] == vs
    case Failure(e) => Exec(code, m, env) == Failure(Thrown(e))
  }

  /**
   * Running `code` from `before` leaves the stack as it was and slot
   * `offset` holding the value `expected` describes, with nothing below it
   * changed; or it ends with exactly the exception `expected` holds.
   */
  predicate Stored(code: seq<Instr>, before: Machine, env: Env, offset: int, expected: Result<Num, Exception>)
    requires Ret !in code
  {
    match expected
    case Success(v) =>
      var q := Exec(code, before, env);
      && q.Success?
      && q.value.stack == before.stack
      && Keeps(before, q.value, offset)
      && offset < |before.buffer|
      && q.value.buffer[offset] == v
    case Failure(e) => Exec(code, before, env) == Failure(Thrown(e))
  }

  lemma ExecOne(instr: Instr, m: Machine, env: Env)
    requires instr != Ret
    ensures Exec([instr], m, env) == Step(instr, m, env)
  {
    assert [instr][1..] == [];
  }

  lemma ExecTwo(a: Instr, b: Instr, m: Machine, env: Env)
    requires a != Ret && b != Ret
    ensures Exec([a, b], m, env) == (var middle :- Step(a, m, env); Step(b, middle, env))
  {
    assert [a, b] == [a] + [b];
    ExecSnoc([a], b, m, env);
    ExecOne(a, m, env);
  }

  /** `ldarg.0; ldstr id`: the context and the identifier are pushed. */
  lemma ContextAndName(identifier: string, m: Machine, env: Env)
    ensures Exec([Ldarg0, Ldstr(identifier)], m, env) == Success(m.(stack := m.stack + [Context, Text(identifier)]))
  {
    ExecTwo(Ldarg0, Ldstr(identifier), m, env);
    assert m.stack + [Context] + [Text(identifier)] == m.stack + [Context, Text(identifier)];
  }

  /**
   * `ldc.i4 k; newobj Span; callvirt CallFunction` with the context, the
   * name and the address of slot `from` below: `CallFunction` receives the
   * k slots from `from` on.
   */
  lemma CallRuns(identifier: string, count: nat, from: nat, below: seq<Value>, m: Machine, env: Env)
    requires m.stack == below + [Context, Text(identifier), Pointer(from * SizeOfDouble)]
    requires from + count <= |m.buffer|
    ensures Exec([LdcI4(count), NewobjSpan, CallvirtCallFunction], m, env) ==
      (var v :- Lift(env.CallFunction(identifier, m.buffer[from..from + count]));
       Success(m.(stack := below + [Float(v)])))
  {
    var withCount := m.(stack := m.stack + [Int(count)]);
    var withSpan := m.(stack := below + [Context, Text(identifier), Span(from * SizeOfDouble, count)]);
    assert withCount.stack[..|withCount.stack| - 2] == below + [Context, Text(identifier)];
    assert [LdcI4(count), NewobjSpan, CallvirtCallFunction] == [LdcI4(count), NewobjSpan] + [CallvirtCallFunction];
    ExecSnoc([LdcI4(count), NewobjSpan], CallvirtCallFunction, m, env);
    ExecTwo(LdcI4(count), NewobjSpan, m, env);
    assert withCount.stack[..|withCount.stack| - 2] + [Span(from * SizeOfDouble, count)] == withSpan.stack;
    assert Step(NewobjSpan, withCount, env) == Success(withSpan);
    assert (from * SizeOfDouble) / SizeOfDouble == from;
    CallOnSpan(identifier, from * SizeOfDouble, count, below, withSpan, env);
  }

  /** `callvirt CallFunction` on a span inside the block: the context's function gets the span's slots. */
  lemma CallOnSpan(identifier: string, byteStart: int, count: int, below: seq<Value>, m: Machine, env: Env)
    requires m.stack == below + [Context, Text(identifier), Span(byteStart, count)]
    requires InBlock(m, byteStart, count)
    ensures Step(CallvirtCallFunction, m, env) ==
      (var v :- Lift(env.CallFunction(identifier, m.buffer[byteStart / SizeOfDouble..byteStart / SizeOfDouble + count]));
       Success(m.(stack := below + [Float(v)])))
  {
    assert m.stack[..|m.stack| - 3] == below;
  }

  /** `call Span.Empty; callvirt CallFunction` above the context and the name: the call gets no parameters. */
  lemma EmptySpanCallRuns(identifier: string, below: seq<Value>, m: Machine, env: Env)
    requires m.stack == below + [Context, Text(identifier)]
    ensures Exec([CallSpanEmpty, CallvirtCallFunction], m, env) ==
      (var v :- Lift(env.CallFunction(identifier, []));
       Success(m.(stack := below + [Float(v)])))
  {
    var withSpan := m.(stack := below + [Context, Text(identifier), Span(0, 0)]);
    ExecTwo(CallSpanEmpty, CallvirtCallFunction, m, env);
    assert m.stack + [Span(0, 0)] == withSpan.stack;
    CallOnSpan(identifier, 0, 0, below, withSpan, env);
    assert m.buffer[0..0] == [];
  }

  /** `ldarg.0; ldstr id; call Span.Empty; callvirt CallFunction`: the call gets no parameters. */
  lemma EmptyCallRuns(identifier: string, m: Machine, env: Env)
    ensures Exec([Ldarg0, Ldstr(identifier), CallSpanEmpty, CallvirtCallFunction], m, env) ==
      (var v :- Lift(env.CallFunction(identifier, []));
       Success(m.(stack := m.stack + [Float(v)])))
  {
    var named := m.(stack := m.stack + [Context, Text(identifier)]);
    assert [Ldarg0, Ldstr(identifier), CallSpanEmpty, CallvirtCallFunction] == [Ldarg0, Ldstr(identifier)] + [CallSpanEmpty, CallvirtCallFunction];
    ExecAppend([Ldarg0, Ldstr(identifier)], [CallSpanEmpty, CallvirtCallFunction], m, env);
    ContextAndName(identifier, m, env);
    EmptySpanCallRuns(identifier, m.stack, named, env);
  }

  /**
   * One more argument stored after the first ones: the prefix's outcome
   * and the piece's outcome combine as `EvalAll` combines them.
   */
  lemma ArgumentsStep(code: seq<Instr>, previous: seq<Instr>, piece: seq<Instr>, m: Machine, env: Env, s: int, offset: int,
                      all: Result<seq<Num>, Exception>, prefix: Result<seq<Num>, Exception>, expected: Result<Num, Exception>)
    requires code == previous + piece && all == Extend(prefix, expected)
    requires Ret !in previous && Ret !in piece && 0 <= s
    requires Stores(previous, m, env, s, prefix)
    requires prefix.Success? ==> s + |prefix.value| == offset
    requires prefix.Success? ==> Stored(piece, Exec(previous, m, env).value, env, offset, expected)
    ensures Ret !in code
    ensures Stores(code, m, env, s, all)
  {
    ExecAppend(previous, piece, m, env);
    if prefix.Success? {
      var before := Exec(previous, m, env).value;
      if expected.Success? {
        var after := Exec(piece, before, env).value;
        StoreExtends(m.buffer, before.buffer, after.buffer, s, s + |prefix.value|, expected.value, prefix.value);
      }
    }
  }

  /** `stind.r8` through the address of slot `offset`, inside the block, stores the value there. */
  lemma StoreRuns(below: seq<Value>, offset: int, v: Num, m: Machine, env: Env)
    requires m.stack == below + [Pointer(offset * SizeOfDouble), Float(v)]
    requires 0 <= offset < |m.buffer|
    ensures Step(StindR8, m, env) == Success(m.(stack := below, buffer := m.buffer[offset := v]))
  {
    assert (offset * SizeOfDouble) % SizeOfDouble == 0;
    assert (offset * SizeOfDouble) / SizeOfDouble == offset;
    assert m.stack[..|m.stack| - 2] == below;
  }

  /**
   * Storing argument j - 1's value in slot `offset` extends the stored
   * values by one and keeps the slots below `from`, given that the
   * argument's code kept the slots below `offset`.
   */
  lemma StoreExtends(original: seq<Num>, before: seq<Num>, after: seq<Num>, from: int, offset: int, v: Num, stored: seq<Num>)
    requires 0 <= from <= offset < |after| == |before| == |original|
    requires before[..from] == original[..from]
    requires after[..offset] == before[..offset] && after[offset] == v
    requires before[from..offset] == stored
    ensures after[..from] == original[..from]
    ensures after[from..offset + 1] == stored + [v]
  {
    assert after[..from] == after[..offset][..from];
    assert before[..offset][..from] == before[..from];
    assert after[from..offset + 1] == after[from..offset] + [v];
    assert after[from..offset] == after[..offset][from..];
    assert before[from..offset] == before[..offset][from..];
  }

  /** A body without `ret` followed by `ret`: the first `ret` is the appended one. */
  lemma {:induction false} FirstRetAfter(body: seq<Instr>)
    requires Ret !in body
    ensures Ret in body + [Ret] && FirstRet(body + [Ret]) == |body|
    ensures (body + [Ret])[..|body|] == body
    decreases |body|
  {
    var code := body + [Ret];
    assert code[|body|] == Ret;
    if body != [] {
      assert code[0] == body[0];
      assert code[1..] == body[1..] + [Ret];
      FirstRetAfter(body[1..]);
    }
    assert code[..|body|] == body;
  }

  /**
   * The prologue: `localloc` of `size` slots, all zero, stored in the
   * local; the stack is left empty.
   */
  lemma PrologueRuns(size: int, env: Env)
    requires size > 0
    ensures Exec([LdcI4(size * SizeOfDouble), ConvU, Localloc, Stloc], Initial(), env) ==
      Success(Machine([], Some(Pointer(0)), Zeros(size)))
  {
    var code := [LdcI4(size * SizeOfDouble), ConvU, Localloc, Stloc];
    assert code == [LdcI4(size * SizeOfDouble), ConvU] + [Localloc, Stloc];
    ExecAppend([LdcI4(size * SizeOfDouble), ConvU], [Localloc, Stloc], Initial(), env);
    ExecTwo(LdcI4(size * SizeOfDouble), ConvU, Initial(), env);
    AllocateRuns(size, env);
  }

  /** `localloc; stloc` with the block's byte size on the stack. */
  lemma AllocateRuns(size: int, env: Env)
    requires size > 0
    ensures Exec([Localloc, Stloc], Machine([Int(size * SizeOfDouble)], None, []), env) ==
      Success(Machine([], Some(Pointer(0)), Zeros(size)))
  {
    ExecTwo(Localloc, Stloc, Machine([Int(size * SizeOfDouble)], None, []), env);
    assert (size * SizeOfDouble) / SizeOfDouble == size;
  }

  /**
   * A prologue that reaches `start` with an empty stack, then a body that
   * computes `expected`, then `ret`: the method returns `expected`.
   */
  lemma RunsToRet(prologue: seq<Instr>, body: seq<Instr>, start: Machine, env: Env, expected: Result<Num, Exception>)
    requires Ret !in prologue && Ret !in body
    requires Exec(prologue, Initial(), env) == Success(start) && start.stack == []
    requires Computes(body, start, env, 0, expected)
    ensures Run(prologue + body + [Ret], env) == Lift(expected)
  {
    ExecAppend(prologue, body, Initial(), env);
    FirstRetAfter(prologue + body);
  }
}
