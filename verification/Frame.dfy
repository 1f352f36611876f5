/**
 The interpreter's frame: program counter, locals and operand stack changed in place,
 and the inline cache of resolved calls.
 */
module Frames {
  import opened Wrappers
  import opened Words
  import opened Bytecode
  import opened Program
  import opened Decoder
  import opened Fetch
  import opened Machine

  /** What a frame-local action did: reached the frame the machine reaches, or stopped as it stops. */
  ghost predicate Did(r: Result<(), Stop>, was: FrameV, now: FrameV, spec: FrameResult) {
    match spec
    case Ok(g) => r.Ok? && now == g
    case Err(stop) => r == Err(stop) && (stop.Raise? ==> now.(stack := []) == was.(stack := []))
  }

  /** What a typed pop did. */
  ghost predicate Popped<T>(r: Result<T, Stop>, now: FrameV, spec: Result<(T, FrameV), Stop>) {
    match spec
    case Ok((v, g)) => r == Ok(v) && now == g
    case Err(stop) => r == Err(stop)
  }

  /** What reading and executing an instruction did, its opcode byte already read. */
  ghost predicate Ran(r: Result<(), Stop>, was: FrameV, now: FrameV, ops: FloatOps, op: Opcode, at: nat)
    requires WellKinded(op)
  {
    match FetchOperands(was.m.code, was.pc, op)
    case Err(e) => r == Fail(e)
    case Ok(x) => Did(r, was.(pc := x.next), now, ExecFrame(ops, was.(pc := x.next), at, x))
  }

  /** Which action an operand leads to. */
  lemma {:induction false} ImmediateAction(ops: FloatOps, f: FrameV, at: nat, x: Fetched)
    requires Fits(x) && x.arg.Immediate?
    ensures ExecFrame(ops, f, at, x) == Machine.Push(f, IntValue(x.arg.v))
  {
    hide Machine.Push;
  }

  lemma {:induction false} SwitchAction(ops: FloatOps, f: FrameV, at: nat, x: Fetched)
    requires Fits(x) && (x.arg.Table? || x.arg.Lookup?)
    ensures ExecFrame(ops, f, at, x) == ExecSwitch(f, at, x)
  {
    hide ExecSwitch;
  }

  lemma {:induction false} BranchAction(ops: FloatOps, f: FrameV, at: nat, x: Fetched)
    requires Fits(x) && x.arg.Offset?
    ensures ExecFrame(ops, f, at, x) == ExecBranch(f, at, x)
  {
    hide ExecBranch;
  }

  lemma {:induction false} IncrementAction(ops: FloatOps, f: FrameV, at: nat, x: Fetched)
    requires Fits(x) && x.arg.IndexDelta?
    ensures ExecFrame(ops, f, at, x) == ExecIinc(f, x.arg.i, x.arg.d)
  {
    hide ExecIinc;
  }

  /** Which reader an opcode's operands call for. */
  lemma {:induction false} ByteReader(code: seq<byte>, pc: nat, op: Opcode)
    requires WellKinded(op) && ShapeOf(op).Byte?
    ensures FetchOperands(code, pc, op) ==
            if pc >= |code| then Err(UnexpectedEof) else Ok(Fetched(op, Immediate(Signed8(code[pc])), pc + 1))
  {
    hide ShapeOf, Signed8;
  }

  lemma {:induction false} ShortReader(code: seq<byte>, pc: nat, op: Opcode)
    requires WellKinded(op) && ShapeOf(op).Short?
    ensures FetchOperands(code, pc, op) ==
            if I16(code, pc).None? then Err(UnexpectedEof) else Ok(Fetched(op, Immediate(I16(code, pc).value), pc + 2))
  {
    hide ShapeOf, I16;
  }

  lemma {:induction false} OffsetReader(code: seq<byte>, pc: nat, op: Opcode)
    requires WellKinded(op)
    ensures ShapeOf(op).ShortOffset? ==> FetchOperands(code, pc, op) == FetchShortOffset(code, pc, op)
    ensures ShapeOf(op).LongOffset? ==> FetchOperands(code, pc, op) == FetchLongOffset(code, pc, op)
  {
    hide ShapeOf, FetchShortOffset, FetchLongOffset;
  }

  lemma {:induction false} WideReader(code: seq<byte>, pc: nat)
    ensures FetchOperands(code, pc, Wide) == FetchWide(code, pc)
  {
    hide FetchWide;
  }

  class Frame {
    const m: Method
    var pc: nat
    var locals: seq<Option<Value>>
    var stack: seq<Value>

    /** A frame for a method; preset locals beyond its declared number are ignored. */
    constructor (m: Method, preset: seq<Option<Value>>)
      ensures this.m == m && pc == 0 && stack == []
      ensures locals == seq(m.maxLocals, i requires 0 <= i < m.maxLocals => if i < |preset| then preset[i] else None)
    {
      this.m := m;
      pc, stack := 0, [];
      locals := seq(m.maxLocals, i requires 0 <= i < m.maxLocals => if i < |preset| then preset[i] else None);
    }

    function Value(): FrameV
      reads this
    {
      FrameV(m, pc, locals, stack)
    }

    // ----- Reading the code -----

    method ReadU8() returns (r: Option<byte>)
      modifies this`pc
      ensures r == U8(m.code, old(pc))
      ensures r.Some? ==> pc == old(pc) + 1
    {
      r := U8(m.code, pc);
      if r.Some? {
        pc := pc + 1;
      }
    }

    method ReadU16() returns (r: Option<nat>)
      modifies this`pc
      ensures r == U16(m.code, old(pc))
      ensures r.Some? ==> pc == old(pc) + 2
    {
      var high := ReadU8();
      if high.None? {
        return None;
      }
      var low := ReadU8();
      return if low.None? then None else Some(Unsigned16(high.value, low.value));
    }

    method ReadI16() returns (r: Option<i32>)
      modifies this`pc
      ensures r == I16(m.code, old(pc))
      ensures r.Some? ==> pc == old(pc) + 2
    {
      var high := ReadU8();
      if high.None? {
        return None;
      }
      var low := ReadU8();
      return if low.None? then None else Some(Signed16(high.value, low.value));
    }

    method ReadI32() returns (r: Option<i32>)
      modifies this`pc
      ensures r == I32(m.code, old(pc))
      ensures r.Some? ==> pc == old(pc) + 4
    {
      hide Signed32;
      var b0 := ReadU8();
      if b0.None? {
        return None;
      }
      var b1 := ReadU8();
      if b1.None? {
        return None;
      }
      var b2 := ReadU8();
      if b2.None? {
        return None;
      }
      var b3 := ReadU8();
      return if b3.None? then None else Some(Signed32(b0.value, b1.value, b2.value, b3.value));
    }

    // ----- Operand stack and locals -----

    method Push(v: Value) returns (r: Result<(), Stop>)
      modifies this`stack
      ensures Did(r, old(Value()), Value(), Machine.Push(old(Value()), v))
    {
      if |stack| >= m.maxStack {
        return Fail(StackOverflow);
      }
      stack := stack + [v];
      return Ok(());
    }

    method Pop() returns (r: Result<Value, Stop>)
      modifies this`stack
      ensures r.Ok? <==> old(stack) != []
      ensures r.Err? ==> r == Fail(StackUnderflow) && stack == old(stack)
      ensures r.Ok? ==> r.value == old(stack[|stack| - 1]) && stack == old(stack[..|stack| - 1])
    {
      if stack == [] {
        return Fail(StackUnderflow);
      }
      r := Ok(stack[|stack| - 1]);
      stack := stack[..|stack| - 1];
    }

    method PopInt() returns (r: Result<i32, Stop>)
      modifies this`stack
      ensures Popped(r, Value(), Machine.PopInt(old(Value())))
    {
      var v :- Pop();
      return if v.IntValue? then Ok(v.i) else Fail(TypeMismatch);
    }

    method PopLong() returns (r: Result<i64, Stop>)
      modifies this`stack
      ensures Popped(r, Value(), Machine.PopLong(old(Value())))
    {
      var v :- Pop();
      return if v.LongValue? then Ok(v.l) else Fail(TypeMismatch);
    }

    method PopFloat() returns (r: Result<F32, Stop>)
      modifies this`stack
      ensures Popped(r, Value(), Machine.PopFloat(old(Value())))
    {
      var v :- Pop();
      return if v.FloatValue? then Ok(v.f) else Fail(TypeMismatch);
    }

    method PopDouble() returns (r: Result<F64, Stop>)
      modifies this`stack
      ensures Popped(r, Value(), Machine.PopDouble(old(Value())))
    {
      var v :- Pop();
      return if v.DoubleValue? then Ok(v.d) else Fail(TypeMismatch);
    }

    method PopRef() returns (r: Result<Reference, Stop>)
      modifies this`stack
      ensures Popped(r, Value(), Machine.PopRef(old(Value())))
    {
      var v :- Pop();
      return if v.RefValue? then Ok(v.r) else Fail(TypeMismatch);
    }

    /** Emptying a wide neighbour below and the upper half of what is replaced. */
    method StoreLocal(index: nat, v: Value) returns (r: Result<(), Stop>)
      modifies this`locals
      ensures match StoreValue(old(locals), index, v)
              case Ok(ls) => r.Ok? && locals == ls
              case Err(stop) => r == Err(stop)
    {
      if index >= |locals| {
        return Fail(InvalidLocalIndex);
      }
      if index > 0 && IsWideSlot(locals[index - 1]) {
        locals := locals[index - 1 := None];
      }
      if IsWideSlot(locals[index]) && index + 1 < |locals| {
        locals := locals[index + 1 := None];
      }
      locals := locals[index := Some(v)];
      if IsWideValue(v) {
        if index + 1 >= |locals| {
          return Fail(InvalidLocalIndex);
        }
        locals := locals[index + 1 := None];
      }
      return Ok(());
    }

    method Branch(at: nat, offset: int) returns (r: Result<(), Stop>)
      modifies this`pc
      ensures Did(r, old(Value()), Value(), Jump(old(Value()), at, offset))
    {
      var target := at + offset;
      if !(0 <= target <= |m.code|) {
        return Fail(InvalidBranchTarget);
      }
      pc := target;
      return Ok(());
    }

    // ----- Instructions -----

    method Load(index: nat) returns (r: Result<(), Stop>)
      modifies this
      ensures Did(r, old(Value()), Value(), ExecLoad(old(Value()), index))
    {
      var v :- LoadValue(locals, index);
      r := Push(v);
    }

    method Store(index: nat) returns (r: Result<(), Stop>)
      modifies this
      ensures Did(r, old(Value()), Value(), ExecStore(old(Value()), index))
    {
      var v :- Pop();
      r := StoreLocal(index, v);
    }

    method Increment(index: nat, delta: i32) returns (r: Result<(), Stop>)
      modifies this
      ensures Did(r, old(Value()), Value(), ExecIinc(old(Value()), index, delta))
    {
      var v :- LoadValue(locals, index);
      if !v.IntValue? {
        return Fail(TypeMismatch);
      }
      r := StoreLocal(index, IntValue(Wrap32(v.i + delta)));
    }

    method Ret(index: nat) returns (r: Result<(), Stop>)
      modifies this
      ensures Did(r, old(Value()), Value(), ExecRet(old(Value()), index))
    {
      var v :- LoadValue(locals, index);
      if !v.AddressValue? {
        return Fail(TypeMismatch);
      }
      if v.pc >= |m.code| {
        return Fail(InvalidBranchTarget);
      }
      pc := v.pc;
      return Ok(());
    }

    method LoadConstant(index: nat) returns (r: Result<(), Stop>)
      modifies this
      ensures Did(r, old(Value()), Value(), ExecLdc(old(Value()), index))
    {
      if IsCondy(m, index) {
        return Fail(Unmodelled);
      }
      if Entry(m.constants, index).None? {
        return Fail(InvalidConstantIndex);
      }
      r := Push(Entry(m.constants, index).value);
    }

    method Arithmetic(ops: FloatOps, k: Kind, op: BinaryOp) returns (r: Result<(), Stop>)
      modifies this
      ensures Did(r, old(Value()), Value(), ExecBinary(ops, old(Value()), k, op))
    {
      hide IntArith, LongArith;
      match k {
        case KInt =>
          var b :- PopInt();
          if (op.Div? || op.Rem?) && b == 0 {
            return Err(Raise(ARITHMETIC_EXCEPTION));
          }
          var a :- PopInt();
          r := Push(IntValue(IntArith(op, a, b)));
        case KLong =>
          if op.Shl? || op.Shr? || op.Ushr? {
            var b :- PopInt();
            var a :- PopLong();
            r := Push(LongValue(LongArith(op, a, b)));
          } else {
            var b :- PopLong();
            if (op.Div? || op.Rem?) && b == 0 {
              return Err(Raise(ARITHMETIC_EXCEPTION));
            }
            var a :- PopLong();
            r := Push(LongValue(LongArith(op, a, b)));
          }
        case KFloat =>
          var b :- PopFloat();
          var a :- PopFloat();
          r := Push(FloatValue(ops.arith32(op, a, b)));
        case KDouble =>
          var b :- PopDouble();
          var a :- PopDouble();
          r := Push(DoubleValue(ops.arith64(op, a, b)));
        case KRef => return Fail(Unmodelled);
      }
    }

    method Negate(ops: FloatOps, k: Kind) returns (r: Result<(), Stop>)
      modifies this
      ensures Did(r, old(Value()), Value(), ExecNeg(ops, old(Value()), k))
    {
      match k {
        case KInt =>
          var a :- PopInt();
          r := Push(IntValue(Wrap32(0 - (a as int))));
        case KLong =>
          var a :- PopLong();
          r := Push(LongValue(Wrap64(0 - (a as int))));
        case KFloat =>
          var a :- PopFloat();
          r := Push(FloatValue(ops.neg32(a)));
        case KDouble =>
          var a :- PopDouble();
          r := Push(DoubleValue(ops.neg64(a)));
        case KRef => return Fail(Unmodelled);
      }
    }

    method CompareLongs() returns (r: Result<(), Stop>)
      modifies this
      ensures Did(r, old(Value()), Value(), ExecLcmp(old(Value())))
    {
      var b :- PopLong();
      var a :- PopLong();
      r := Push(IntValue(if a > b then 1 else if a == b then 0 else -1));
    }

    method CompareFloats(ops: FloatOps, k: Kind, greaterOnNaN: bool) returns (r: Result<(), Stop>)
      modifies this
      ensures Did(r, old(Value()), Value(), ExecFloatCmp(ops, old(Value()), k, greaterOnNaN))
    {
      if k.KFloat? {
        var b :- PopFloat();
        var a :- PopFloat();
        r := Push(IntValue(Ordering(ops.less32(a, b), ops.equal32(a, b), ops.less32(b, a), greaterOnNaN)));
      } else {
        var b :- PopDouble();
        var a :- PopDouble();
        r := Push(IntValue(Ordering(ops.less64(a, b), ops.equal64(a, b), ops.less64(b, a), greaterOnNaN)));
      }
    }

    method PushEach(values: seq<Value>) returns (r: Result<(), Stop>)
      modifies this`stack
      ensures if values != [] && old(|stack|) + |values| > m.maxStack then r == Fail(StackOverflow)
              else r.Ok? && stack == old(stack) + values
    {
      for k := 0 to |values|
        invariant stack == old(stack) + values[..k]
        invariant k > 0 ==> old(|stack|) + k <= m.maxStack
      {
        var _ :- Push(values[k]);
      }
      return Ok(());
    }

    // ----- Shuffles: each value popped and checked, and pushed back, in turn -----

    static lemma {:induction false} Refuses(f: FrameV, op: ShuffleOp)
      ensures InterpreterMove(op, ValueWides(f.stack)).Err? ==>
                ExecShuffle(f, op) == Fail(InterpreterMove(op, ValueWides(f.stack)).error)
    {
      hide InterpreterMove;
    }

    static lemma {:induction false} Reorders(f: FrameV, op: ShuffleOp, mv: Move, back: seq<Value>)
      requires InterpreterMove(op, ValueWides(f.stack)) == Ok(mv) && |back| == |mv.put|
      requires forall k :: 0 <= k < |back| ==> back[k] == f.stack[|f.stack| - 1 - mv.put[k]]
      ensures ExecShuffle(f, op) ==
              if back != [] && |f.stack| - mv.take + |back| > f.m.maxStack then Fail(StackOverflow)
              else Ok(f.(stack := f.stack[..|f.stack| - mv.take] + back))
    {
      hide InterpreterMove;
      assert PutValues(f.stack, mv) == back;
    }

    /** Pushes the values of a shuffle back, once those it takes are off the stack. */
    method PutBack(back: seq<Value>, ghost was: FrameV, ghost op: ShuffleOp, ghost mv: Move) returns (r: Result<(), Stop>)
      requires InterpreterMove(op, ValueWides(was.stack)) == Ok(mv) && |back| == |mv.put|
      requires forall k :: 0 <= k < |back| ==> back[k] == was.stack[|was.stack| - 1 - mv.put[k]]
      requires Value() == was.(stack := was.stack[..|was.stack| - mv.take])
      modifies this`stack
      ensures Did(r, was, Value(), ExecShuffle(was, op))
    {
      Reorders(was, op, mv, back);
      hide ExecShuffle, InterpreterMove, ValueWides;
      r := PushEach(back);
    }

    /** The two topmost values of a frame, taken off it. */
    ghost predicate TookTwo(was: FrameV, v1: Value, v2: Value)
      reads this
    {
      && |was.stack| >= 2 && Value() == was.(stack := was.stack[..|was.stack| - 2])
      && v1 == was.stack[|was.stack| - 1] && v2 == was.stack[|was.stack| - 2]
    }

    method Discard() returns (r: Result<(), Stop>)
      modifies this`stack
      ensures Did(r, old(Value()), Value(), ExecShuffle(old(Value()), ShuffleOp.Pop))
    {
      Refuses(Value(), ShuffleOp.Pop);
      hide ExecShuffle;
      var v1 :- Pop();
      r := PutBack([], old(Value()), ShuffleOp.Pop, Move(1, []));
    }

    method Discard2() returns (r: Result<(), Stop>)
      modifies this`stack
      ensures Did(r, old(Value()), Value(), ExecShuffle(old(Value()), Pop2))
    {
      Refuses(Value(), Pop2);
      hide ExecShuffle;
      var v1 :- Pop();
      if IsWideValue(v1) {
        r := PutBack([], old(Value()), Pop2, Move(1, []));
      } else {
        var v2 :- Pop();
        assert stack == old(stack)[..old(|stack|) - 2];
        r := PutBack([], old(Value()), Pop2, Move(2, []));
      }
    }

    method Dup() returns (r: Result<(), Stop>)
      modifies this`stack
      ensures Did(r, old(Value()), Value(), ExecShuffle(old(Value()), ShuffleOp.Dup))
    {
      Refuses(Value(), ShuffleOp.Dup);
      hide ExecShuffle;
      var v1 :- Pop();
      r := PutBack([v1, v1], old(Value()), ShuffleOp.Dup, Move(1, [0, 0]));
    }

    method DupX1() returns (r: Result<(), Stop>)
      modifies this`stack
      ensures Did(r, old(Value()), Value(), ExecShuffle(old(Value()), ShuffleOp.DupX1))
    {
      Refuses(Value(), ShuffleOp.DupX1);
      hide ExecShuffle;
      var v1 :- Pop();
      var v2 :- Pop();
      assert stack == old(stack)[..old(|stack|) - 2];
      if IsWideValue(v1) || IsWideValue(v2) {
        return Fail(VerificationError);
      }
      r := PutBack([v1, v2, v1], old(Value()), ShuffleOp.DupX1, Move(2, [0, 1, 0]));
    }

    method DupX2() returns (r: Result<(), Stop>)
      modifies this`stack
      ensures Did(r, old(Value()), Value(), ExecShuffle(old(Value()), ShuffleOp.DupX2))
    {
      Refuses(Value(), ShuffleOp.DupX2);
      hide ExecShuffle;
      var v1 :- Pop();
      var v2 :- Pop();
      assert stack == old(stack)[..old(|stack|) - 2];
      if IsWideValue(v1) {
        return Fail(VerificationError);
      }
      if IsWideValue(v2) {
        r := PutBack([v1, v2, v1], old(Value()), ShuffleOp.DupX2, Move(2, [0, 1, 0]));
      } else {
        r := DupX2Narrow(v1, v2, old(Value()));
      }
    }

    method DupX2Narrow(v1: Value, v2: Value, ghost was: FrameV) returns (r: Result<(), Stop>)
      requires TookTwo(was, v1, v2) && !IsWideValue(v1) && !IsWideValue(v2)
      modifies this`stack
      ensures Did(r, was, Value(), ExecShuffle(was, ShuffleOp.DupX2))
    {
      Refuses(was, ShuffleOp.DupX2);
      hide ExecShuffle;
      var v3 :- Pop();
      assert stack == was.stack[..|was.stack| - 3];
      if IsWideValue(v3) {
        return Fail(VerificationError);
      }
      r := PutBack([v1, v3, v2, v1], was, ShuffleOp.DupX2, Move(3, [0, 2, 1, 0]));
    }

    method Dup2() returns (r: Result<(), Stop>)
      modifies this`stack
      ensures Did(r, old(Value()), Value(), ExecShuffle(old(Value()), ShuffleOp.Dup2))
    {
      Refuses(Value(), ShuffleOp.Dup2);
      hide ExecShuffle;
      var v1 :- Pop();
      if IsWideValue(v1) {
        r := PutBack([v1, v1], old(Value()), ShuffleOp.Dup2, Move(1, [0, 0]));
      } else {
        var v2 :- Pop();
        assert stack == old(stack)[..old(|stack|) - 2];
        r := PutBack([v2, v1, v2, v1], old(Value()), ShuffleOp.Dup2, Move(2, [1, 0, 1, 0]));
      }
    }

    method Dup2X1() returns (r: Result<(), Stop>)
      modifies this`stack
      ensures Did(r, old(Value()), Value(), ExecShuffle(old(Value()), ShuffleOp.Dup2X1))
    {
      Refuses(Value(), ShuffleOp.Dup2X1);
      hide ExecShuffle;
      var v1 :- Pop();
      var v2 :- Pop();
      assert stack == old(stack)[..old(|stack|) - 2];
      if IsWideValue(v1) {
        r := PutBack([v1, v2, v1], old(Value()), ShuffleOp.Dup2X1, Move(2, [0, 1, 0]));
      } else {
        var v3 :- Pop();
        assert stack == old(stack)[..old(|stack|) - 3];
        r := PutBack([v2, v1, v3, v2, v1], old(Value()), ShuffleOp.Dup2X1, Move(3, [1, 0, 2, 1, 0]));
      }
    }

    method Dup2X2() returns (r: Result<(), Stop>)
      modifies this`stack
      ensures Did(r, old(Value()), Value(), ExecShuffle(old(Value()), ShuffleOp.Dup2X2))
    {
      Refuses(Value(), ShuffleOp.Dup2X2);
      hide ExecShuffle;
      var v1 :- Pop();
      var v2 :- Pop();
      assert stack == old(stack)[..old(|stack|) - 2];
      assert TookTwo(old(Value()), v1, v2);
      if IsWideValue(v1) {
        r := Dup2X2Wide(v1, v2, old(Value()));
      } else if IsWideValue(v2) {
        r := Dup2X2Mixed(v1, v2, old(Value()));
      } else {
        r := Dup2X2Narrow(v1, v2, old(Value()));
      }
    }

    method Dup2X2Wide(v1: Value, v2: Value, ghost was: FrameV) returns (r: Result<(), Stop>)
      requires TookTwo(was, v1, v2) && IsWideValue(v1)
      modifies this`stack
      ensures Did(r, was, Value(), ExecShuffle(was, ShuffleOp.Dup2X2))
    {
      Refuses(was, ShuffleOp.Dup2X2);
      hide ExecShuffle;
      if IsWideValue(v2) {
        r := PutBack([v1, v2, v1], was, ShuffleOp.Dup2X2, Move(2, [0, 1, 0]));
      } else {
        var v3 :- Pop();
        assert stack == was.stack[..|was.stack| - 3];
        r := PutBack([v1, v3, v2, v1], was, ShuffleOp.Dup2X2, Move(3, [0, 2, 1, 0]));
      }
    }

    method Dup2X2Mixed(v1: Value, v2: Value, ghost was: FrameV) returns (r: Result<(), Stop>)
      requires TookTwo(was, v1, v2) && !IsWideValue(v1) && IsWideValue(v2)
      modifies this`stack
      ensures Did(r, was, Value(), ExecShuffle(was, ShuffleOp.Dup2X2))
    {
      Refuses(was, ShuffleOp.Dup2X2);
      hide ExecShuffle;
      var v3 :- Pop();
      assert stack == was.stack[..|was.stack| - 3];
      r := PutBack([v2, v1, v3, v2, v1], was, ShuffleOp.Dup2X2, Move(3, [1, 0, 2, 1, 0]));
    }

    method Dup2X2Narrow(v1: Value, v2: Value, ghost was: FrameV) returns (r: Result<(), Stop>)
      requires TookTwo(was, v1, v2) && !IsWideValue(v1) && !IsWideValue(v2)
      modifies this`stack
      ensures Did(r, was, Value(), ExecShuffle(was, ShuffleOp.Dup2X2))
    {
      Refuses(was, ShuffleOp.Dup2X2);
      hide ExecShuffle;
      var v3 :- Pop();
      var v4 :- Pop();
      assert stack == was.stack[..|was.stack| - 4];
      r := PutBack([v2, v1, v4, v3, v2, v1], was, ShuffleOp.Dup2X2, Move(4, [1, 0, 3, 2, 1, 0]));
    }

    method Swap() returns (r: Result<(), Stop>)
      modifies this`stack
      ensures Did(r, old(Value()), Value(), ExecShuffle(old(Value()), ShuffleOp.Swap))
    {
      Refuses(Value(), ShuffleOp.Swap);
      hide ExecShuffle;
      var v1 :- Pop();
      var v2 :- Pop();
      assert stack == old(stack)[..old(|stack|) - 2];
      if IsWideValue(v1) || IsWideValue(v2) {
        return Fail(VerificationError);
      }
      r := PutBack([v1, v2], old(Value()), ShuffleOp.Swap, Move(2, [0, 1]));
    }

    method Rearrange(op: ShuffleOp) returns (r: Result<(), Stop>)
      modifies this`stack
      ensures Did(r, old(Value()), Value(), ExecShuffle(old(Value()), op))
    {
      hide ExecShuffle;
      match op {
        case Pop =>
          r := Discard();
        case Pop2 => r := Discard2();
        case Dup => r := Dup();
        case DupX1 => r := DupX1();
        case DupX2 => r := DupX2();
        case Dup2 => r := Dup2();
        case Dup2X1 => r := Dup2X1();
        case Dup2X2 => r := Dup2X2();
        case Swap => r := Swap();
      }
    }

    method ExecuteBare(ops: FloatOps, op: Opcode) returns (r: Result<(), Stop>)
      modifies this
      ensures Did(r, old(Value()), Value(), ExecBare(ops, old(Value()), op))
    {
      hide Machine.Push, ExecShuffle, ExecBinary, ExecNeg, ExecLcmp, ExecFloatCmp;
      if op.AconstNull? {
        r := Push(RefValue(Reference.Null));
      } else if op.Const? {
        r := Push(ConstValue(op.k, op.n));
      } else if op.Shuffle? {
        r := Rearrange(op.s);
      } else if op.Binary? {
        r := Arithmetic(ops, op.k, op.op);
      } else if op.Neg? {
        r := Negate(ops, op.k);
      } else if op.Lcmp? {
        r := CompareLongs();
      } else if op.FloatCmp? {
        r := CompareFloats(ops, op.k, op.greaterOnNaN);
      } else {
        r := Fail(Unmodelled);
      }
    }

    /** A jump whose offset has been read; conditional ones pop their operands first. */
    method ExecuteBranch(op: Opcode, at: nat, offset: i32) returns (r: Result<(), Stop>)
      modifies this
      ensures Did(r, old(Value()), Value(), ExecBranch(old(Value()), at, Fetched(op, Offset(offset), old(pc))))
    {
      hide Jump;
      if op.If? {
        var v :- PopInt();
        if Holds(op.c, v, 0) {
          r := Branch(at, offset);
        } else {
          r := Ok(());
        }
      } else if op.IfIcmp? {
        var b :- PopInt();
        var a :- PopInt();
        if Holds(op.c, a, b) {
          r := Branch(at, offset);
        } else {
          r := Ok(());
        }
      } else if op.IfAcmp? {
        var b :- PopRef();
        var a :- PopRef();
        if (a == b) == op.eq {
          r := Branch(at, offset);
        } else {
          r := Ok(());
        }
      } else if op.IfNull? {
        var v :- PopRef();
        if v.Null? == op.eq {
          r := Branch(at, offset);
        } else {
          r := Ok(());
        }
      } else {
        if op.Jsr? || op.JsrW? {
          var _ :- Push(AddressValue(pc));
        }
        r := Branch(at, offset);
      }
    }

    // ----- Instructions with operands -----

    /** Skips to the next multiple of four. */
    method SkipPadding() returns (ok: bool)
      modifies this`pc
      ensures ok ==> pc == Aligned(old(pc))
      ensures !ok ==> Aligned(old(pc)) > |m.code|
    {
      var padding := (4 - pc % 4) % 4;
      for k := 0 to padding
        invariant pc == old(pc) + k
      {
        var skipped := ReadU8();
        if skipped.None? {
          return false;
        }
      }
      return true;
    }

    method ReadOffsets(count: nat) returns (r: Option<seq<i32>>)
      modifies this`pc
      ensures r == OffsetRun(m.code, old(pc), false, count)
      ensures r.Some? ==> pc == old(pc) + 4 * count
    {
      var offsets: seq<i32> := [];
      ghost var start := pc;
      while |offsets| < count
        invariant |offsets| <= count && pc == start + 4 * |offsets|
        invariant forall k :: 0 <= k < |offsets| ==> OffsetAt(m.code, start, false, k) == Some(offsets[k])
      {
        assert OffsetAt(m.code, start, false, |offsets|) == I32(m.code, pc);
        var offset := ReadI32();
        if offset.None? {
          return None;
        }
        offsets := offsets + [offset.value];
      }
      assert forall k :: 0 <= k < count ==> OffsetAt(m.code, start, false, k).Some?;
      assert offsets == OffsetRun(m.code, start, false, count).value;
      return Some(offsets);
    }

    method ReadTable() returns (r: Result<Operand, Fault>)
      modifies this`pc
      ensures match FetchTable(m.code, old(pc))
              case Ok(x) => r == Ok(x.arg) && pc == x.next
              case Err(e) => r == Err(e)
    {
      hide I32, OffsetRun;
      var ok := SkipPadding();
      if !ok {
        return Err(UnexpectedEof);
      }
      var default := ReadI32();
      if default.None? {
        return Err(UnexpectedEof);
      }
      var low := ReadI32();
      if low.None? {
        return Err(UnexpectedEof);
      }
      var high := ReadI32();
      if high.None? {
        return Err(UnexpectedEof);
      }
      var count := (high.value as int) - low.value + 1;
      if count < 0 || count >= 0x8000_0000 {
        return Err(Panicked);
      }
      var offsets := ReadOffsets(count);
      return if offsets.None? then Err(UnexpectedEof)
             else Ok(Table(default.value, low.value, high.value, offsets.value));
    }

    method ReadPairs(count: nat) returns (r: Option<seq<(i32, i32)>>)
      modifies this`pc
      ensures r.Some? <==> OffsetRun(m.code, old(pc), true, count).Some?
      ensures r.Some? ==> pc == old(pc) + 8 * count && |r.value| == count
      ensures r.Some? ==> forall k :: 0 <= k < count ==>
                OffsetAt(m.code, old(pc), true, k).Some? && r.value[k] == PairAt(m.code, old(pc), k)
    {
      var pairs: seq<(i32, i32)> := [];
      ghost var start := pc;
      while |pairs| < count
        invariant |pairs| <= count && pc == start + 8 * |pairs|
        invariant forall k :: 0 <= k < |pairs| ==>
                    OffsetAt(m.code, start, true, k).Some? && pairs[k] == PairAt(m.code, start, k)
      {
        assert OffsetAt(m.code, start, true, |pairs|) == I32(m.code, pc + 4);
        var key := ReadI32();
        if key.None? {
          return None;
        }
        var offset := ReadI32();
        if offset.None? {
          return None;
        }
        pairs := pairs + [(key.value, offset.value)];
      }
      return Some(pairs);
    }

    method ReadLookup() returns (r: Result<Operand, Fault>)
      modifies this`pc
      ensures match FetchLookup(m.code, old(pc))
              case Ok(x) => r == Ok(x.arg) && pc == x.next
              case Err(e) => r == Err(e)
    {
      hide I32, OffsetAt;
      var ok := SkipPadding();
      if !ok {
        return Err(UnexpectedEof);
      }
      var default := ReadI32();
      if default.None? {
        return Err(UnexpectedEof);
      }
      var count := ReadI32();
      if count.None? {
        return Err(UnexpectedEof);
      }
      if count.value < 0 {
        return Err(Panicked);
      }
      ghost var from := pc;
      var pairs := ReadPairs(count.value);
      if pairs.None? {
        return Err(UnexpectedEof);
      }
      assert pairs.value == seq(count.value, k requires 0 <= k < count.value => PairAt(m.code, from, k));
      return Ok(Lookup(default.value, pairs.value));
    }

    /** The loop over the pairs of a lookupswitch. */
    static method FindKey(pairs: seq<(i32, i32)>, key: i32, default: i32) returns (offset: i32)
      ensures offset == LookupOffset(pairs, key, default)
    {
      var k := 0;
      while k < |pairs| && pairs[k].0 != key
        invariant k <= |pairs|
        invariant LookupOffset(pairs[k..], key, default) == LookupOffset(pairs, key, default)
      {
        assert pairs[k..][0] == pairs[k] && pairs[k..][1..] == pairs[k + 1..];
        k := k + 1;
      }
      offset := if k < |pairs| then pairs[k].1 else default;
    }

    method Switch(op: Opcode, arg: Operand, at: nat) returns (r: Result<(), Stop>)
      requires arg.Table? ==> |arg.offsets| == arg.high as int - arg.low + 1
      requires arg.Table? || arg.Lookup?
      modifies this
      ensures Did(r, old(Value()), Value(), ExecSwitch(old(Value()), at, Fetched(op, arg, old(pc))))
    {
      hide Jump;
      var v :- PopInt();
      if arg.Table? {
        r := Branch(at, if arg.low <= v <= arg.high then arg.offsets[v - arg.low] else arg.default);
      } else {
        var offset := FindKey(arg.pairs, v, arg.default);
        r := Branch(at, offset);
      }
    }

    /** Loads, stores, returns from subroutines and constants: one index. */
    method Indexed(op: Opcode, index: nat, ghost ops: FloatOps, ghost at: nat) returns (r: Result<(), Stop>)
      requires op.Load? || op.LoadN? || op.Store? || op.StoreN? || op.Ret? || op.Ldc? || op.LdcW? || op.Ldc2W?
      requires Fits(Fetched(op, Index(index), pc))
      modifies this
      ensures Did(r, old(Value()), Value(), ExecFrame(ops, old(Value()), at, Fetched(op, Index(index), old(pc))))
    {
      hide ExecLoad, ExecStore, ExecRet, ExecLdc, Fits;
      if op.Load? || op.LoadN? {
        r := Load(index);
      } else if op.Store? || op.StoreN? {
        r := Store(index);
      } else if op.Ret? {
        r := Ret(index);
      } else {
        r := LoadConstant(index);
      }
    }

    method ExecuteIndexed(ops: FloatOps, op: Opcode, at: nat) returns (r: Result<(), Stop>)
      requires WellKinded(op) && (ShapeOf(op).ByteIndex? || ShapeOf(op).ShortIndex? || ShapeOf(op).Slot?)
      requires !ActsOnStack(op)
      modifies this
      ensures Ran(r, old(Value()), Value(), ops, op, at)
    {
      hide ExecFrame;
      match ShapeOf(op) {
        case ByteIndex =>
          var index := ReadU8();
          if index.None? {
            return Fail(UnexpectedEof);
          }
          r := Indexed(op, index.value, ops, at);
        case ShortIndex =>
          var index := ReadU16();
          if index.None? {
            return Fail(UnexpectedEof);
          }
          r := Indexed(op, index.value, ops, at);
        case Slot(n) =>
          r := Indexed(op, n, ops, at);
      }
    }

    method ExecuteJump(ops: FloatOps, op: Opcode, at: nat) returns (r: Result<(), Stop>)
      requires WellKinded(op) && (ShapeOf(op).ShortOffset? || ShapeOf(op).LongOffset?)
      modifies this
      ensures Ran(r, old(Value()), Value(), ops, op, at)
    {
      hide ShapeOf, ExecFrame, ExecBranch, FetchOperands, I16, I32;
      OffsetReader(m.code, pc, op);
      var offset;
      if ShapeOf(op).ShortOffset? {
        offset := ReadI16();
      } else {
        offset := ReadI32();
      }
      if offset.None? {
        return Fail(UnexpectedEof);
      }
      ghost var x := Fetched(op, Offset(offset.value), pc);
      ghost var was := Value();
      r := ExecuteBranch(op, at, offset.value);
      BranchAction(ops, was, at, x);
    }

    method ExecuteSwitch(ops: FloatOps, op: Opcode, at: nat) returns (r: Result<(), Stop>)
      requires op.Tableswitch? || op.Lookupswitch?
      modifies this
      ensures Ran(r, old(Value()), Value(), ops, op, at)
    {
      hide ExecFrame, ExecSwitch, OffsetRun, I32, Aligned, FromByte;
      ghost var fetched := FetchOperands(m.code, pc, op);
      var arg;
      if op.Tableswitch? {
        arg := ReadTable();
      } else {
        arg := ReadLookup();
      }
      if arg.Err? {
        return Fail(arg.error);
      }
      assert fetched.Ok? && Fits(fetched.value) && fetched.value.arg == arg.value;
      ghost var was := Value();
      r := Switch(op, arg.value, at);
      SwitchAction(ops, was, at, fetched.value);
    }

    method ExecuteWide(ops: FloatOps, at: nat) returns (r: Result<(), Stop>)
      modifies this
      ensures Ran(r, old(Value()), Value(), ops, Wide, at)
    {
      hide FromByte, ExecFrame, ExecIinc, FetchOperands, U16;
      WideReader(m.code, pc);
      ghost var fetched := FetchOperands(m.code, pc, Wide);
      var b := ReadU8();
      if b.None? {
        return Fail(UnexpectedEof);
      }
      var inner := FromByte(b.value);
      if inner.None? {
        return Fail(InvalidOpcode);
      }
      var index := ReadU16();
      if index.None? {
        return Fail(UnexpectedEof);
      }
      if !WideAllowed(inner.value) {
        return Fail(InvalidOpcode);
      }
      if inner.value.Iinc? {
        var delta := ReadI16();
        if delta.None? {
          return Fail(UnexpectedEof);
        }
        IncrementAction(ops, Value(), at, fetched.value);
        r := Increment(index.value, delta.value);
      } else {
        r := Indexed(inner.value, index.value, ops, at);
      }
    }

    method ExecutePlain(ops: FloatOps, op: Opcode, at: nat) returns (r: Result<(), Stop>)
      requires WellKinded(op) && ShapeOf(op).Bare?
      modifies this
      ensures Ran(r, old(Value()), Value(), ops, op, at)
    {
      hide ExecBranch, ExecSwitch, ExecBare, ExecIinc, FromByte;
      r := ExecuteBare(ops, op);
    }

    method ExecuteByte(ops: FloatOps, op: Opcode, at: nat) returns (r: Result<(), Stop>)
      requires WellKinded(op) && ShapeOf(op).Byte?
      modifies this
      ensures Ran(r, old(Value()), Value(), ops, op, at)
    {
      hide ShapeOf, ExecFrame, Machine.Push, FetchOperands, Signed8;
      ByteReader(m.code, pc, op);
      var v := ReadU8();
      if v.None? {
        return Fail(UnexpectedEof);
      }
      ImmediateAction(ops, Value(), at, Fetched(op, Immediate(Signed8(v.value)), pc));
      r := Push(IntValue(Signed8(v.value)));
    }

    method ExecuteShort(ops: FloatOps, op: Opcode, at: nat) returns (r: Result<(), Stop>)
      requires WellKinded(op) && ShapeOf(op).Short?
      modifies this
      ensures Ran(r, old(Value()), Value(), ops, op, at)
    {
      hide ShapeOf, ExecFrame, Machine.Push, FetchOperands, I16;
      ShortReader(m.code, pc, op);
      var v := ReadI16();
      if v.None? {
        return Fail(UnexpectedEof);
      }
      ImmediateAction(ops, Value(), at, Fetched(op, Immediate(v.value), pc));
      r := Push(IntValue(v.value));
    }

    method ExecuteIncrement(ops: FloatOps, at: nat) returns (r: Result<(), Stop>)
      modifies this
      ensures Ran(r, old(Value()), Value(), ops, Iinc, at)
    {
      hide ExecBranch, ExecSwitch, ExecBare, ExecIinc, FromByte;
      var index := ReadU8();
      if index.None? {
        return Fail(UnexpectedEof);
      }
      var delta := ReadU8();
      if delta.None? {
        return Fail(UnexpectedEof);
      }
      r := Increment(index.value, Signed8(delta.value));
    }

    /** Reads an instruction's operands and executes it in this frame. */
    method Execute(ops: FloatOps, op: Opcode, at: nat) returns (r: Result<(), Stop>)
      requires WellKinded(op) && !ActsOnStack(op)
      modifies this
      ensures Ran(r, old(Value()), Value(), ops, op, at)
    {
      hide ShapeOf, ExecFrame, FetchOperands, Did;
      ShapesOfOne(op);
      ForeignStops(m.code, pc, op);
      match ShapeOf(op) {
        case Bare => r := ExecutePlain(ops, op, at);
        case Byte => r := ExecuteByte(ops, op, at);
        case Short => r := ExecuteShort(ops, op, at);
        case ByteIndex => r := ExecuteIndexed(ops, op, at);
        case ShortIndex => r := ExecuteIndexed(ops, op, at);
        case Slot(_) => r := ExecuteIndexed(ops, op, at);
        case Increment => r := ExecuteIncrement(ops, at);
        case ShortOffset => r := ExecuteJump(ops, op, at);
        case LongOffset => r := ExecuteJump(ops, op, at);
        case TableShape => r := ExecuteSwitch(ops, op, at);
        case LookupShape => r := ExecuteSwitch(ops, op, at);
        case WideShape => r := ExecuteWide(ops, at);
        case Foreign => return Fail(Unmodelled);
      }
    }
  }
}
