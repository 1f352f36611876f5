/**
 The interpreter as a transition function on call stacks: what one iteration of its loop
 does, including every dynamic check and the error each of them raises.
 */
module Machine {
  import opened Wrappers
  import opened Words
  import opened Bytecode
  import opened Program
  import opened Descriptors
  import opened Fetch

  /** Float arithmetic, supplied from outside. */
  datatype FloatOps = FloatOps(
    arith32: (BinaryOp, F32, F32) -> F32,
    neg32: F32 -> F32,
    less32: (F32, F32) -> bool,
    equal32: (F32, F32) -> bool,
    arith64: (BinaryOp, F64, F64) -> F64,
    neg64: F64 -> F64,
    less64: (F64, F64) -> bool,
    equal64: (F64, F64) -> bool)

  /** A frame of the interpreter. */
  datatype FrameV = FrameV(m: Method, pc: nat, locals: seq<Option<Value>>, stack: seq<Value>)

  /** Why a frame stops short: a Java exception to raise, or an error of the VM itself. */
  datatype Stop = Raise(className: string) | Error(e: Fault)

  type FrameResult = Result<FrameV, Stop>

  function Fail<T>(e: Fault): Result<T, Stop> {
    Err(Error(e))
  }

  // ----- The frame's own operations -----

  function Push(f: FrameV, v: Value): FrameResult {
    if |f.stack| >= f.m.maxStack then Fail(StackOverflow) else Ok(f.(stack := f.stack + [v]))
  }

  function Pop(f: FrameV): Result<(Value, FrameV), Stop> {
    if f.stack == [] then Fail(StackUnderflow)
    else Ok((f.stack[|f.stack| - 1], f.(stack := f.stack[..|f.stack| - 1])))
  }

  function PopInt(f: FrameV): Result<(i32, FrameV), Stop> {
    var (v, g) :- Pop(f);
    if v.IntValue? then Ok((v.i, g)) else Fail(TypeMismatch)
  }

  function PopLong(f: FrameV): Result<(i64, FrameV), Stop> {
    var (v, g) :- Pop(f);
    if v.LongValue? then Ok((v.l, g)) else Fail(TypeMismatch)
  }

  function PopFloat(f: FrameV): Result<(F32, FrameV), Stop> {
    var (v, g) :- Pop(f);
    if v.FloatValue? then Ok((v.f, g)) else Fail(TypeMismatch)
  }

  function PopDouble(f: FrameV): Result<(F64, FrameV), Stop> {
    var (v, g) :- Pop(f);
    if v.DoubleValue? then Ok((v.d, g)) else Fail(TypeMismatch)
  }

  function PopRef(f: FrameV): Result<(Reference, FrameV), Stop> {
    var (v, g) :- Pop(f);
    if v.RefValue? then Ok((v.r, g)) else Fail(TypeMismatch)
  }

  function LoadValue(locals: seq<Option<Value>>, index: nat): Result<Value, Stop> {
    if index >= |locals| then Fail(InvalidLocalIndex)
    else match locals[index] case None => Fail(UninitializedLocal) case Some(v) => Ok(v)
  }

  predicate IsWideSlot(o: Option<Value>) {
    o.Some? && IsWideValue(o.value)
  }

  /** Storing a value empties a wide neighbour below it and the upper half of what it replaces. */
  function StoreValue(locals: seq<Option<Value>>, index: nat, v: Value): (r: Result<seq<Option<Value>>, Stop>)
    ensures r.Ok? ==> |r.value| == |locals|
  {
    if index >= |locals| || (IsWideValue(v) && index + 1 >= |locals|) then Fail(InvalidLocalIndex)
    else
      var a := if index > 0 && IsWideSlot(locals[index - 1]) then locals[index - 1 := None] else locals;
      var b := if IsWideSlot(locals[index]) && index + 1 < |locals| then a[index + 1 := None] else a;
      var c := b[index := Some(v)];
      Ok(if IsWideValue(v) then c[index + 1 := None] else c)
  }

  /** A relative jump; unlike the verifier it lets the target be the end of the code. */
  function Jump(f: FrameV, at: nat, offset: int): FrameResult {
    if 0 <= at + offset <= |f.m.code| then Ok(f.(pc := at + offset)) else Fail(InvalidBranchTarget)
  }

  // ----- Stack shuffles -----

  /** Which values of a stack take two words, topmost first. */
  function ValueWides(stack: seq<Value>): (w: seq<bool>)
    ensures |w| == |stack|
  {
    seq(|stack|, k requires 0 <= k < |stack| => IsWideValue(stack[|stack| - 1 - k]))
  }

  /** Values taken off, and which of them are put back, numbered from the top. */
  datatype Move = Move(take: nat, put: seq<nat>)

  /** The move the interpreter selects; it checks fewer widths than the verifier. */
  function InterpreterMove(op: ShuffleOp, w: seq<bool>): (r: Result<Move, Fault>)
    ensures r.Ok? ==> r.value.take <= |w| && forall k :: 0 <= k < |r.value.put| ==> r.value.put[k] < r.value.take
  {
    var n := |w|;
    match op
    case Pop => if n >= 1 then Ok(Move(1, [])) else Err(StackUnderflow)
    case Pop2 =>
      if n >= 1 && w[0] then Ok(Move(1, []))
      else if n >= 2 then Ok(Move(2, []))
      else Err(StackUnderflow)
    case Dup => if n >= 1 then Ok(Move(1, [0, 0])) else Err(StackUnderflow)
    case DupX1 =>
      if n < 2 then Err(StackUnderflow)
      else if w[0] || w[1] then Err(VerificationError)
      else Ok(Move(2, [0, 1, 0]))
    case DupX2 =>
      if n < 2 then Err(StackUnderflow)
      else if w[0] then Err(VerificationError)
      else if w[1] then Ok(Move(2, [0, 1, 0]))
      else if n < 3 then Err(StackUnderflow)
      else if w[2] then Err(VerificationError)
      else Ok(Move(3, [0, 2, 1, 0]))
    case Dup2 =>
      if n >= 1 && w[0] then Ok(Move(1, [0, 0]))
      else if n >= 2 then Ok(Move(2, [1, 0, 1, 0]))
      else Err(StackUnderflow)
    case Dup2X1 =>
      if n < 2 then Err(StackUnderflow)
      else if w[0] then Ok(Move(2, [0, 1, 0]))
      else if n >= 3 then Ok(Move(3, [1, 0, 2, 1, 0]))
      else Err(StackUnderflow)
    case Dup2X2 =>
      if n < 2 then Err(StackUnderflow)
      else if w[0] && w[1] then Ok(Move(2, [0, 1, 0]))
      else if n < 3 then Err(StackUnderflow)
      else if w[0] then Ok(Move(3, [0, 2, 1, 0]))
      else if w[1] then Ok(Move(3, [1, 0, 2, 1, 0]))
      else if n >= 4 then Ok(Move(4, [1, 0, 3, 2, 1, 0]))
      else Err(StackUnderflow)
    case Swap =>
      if n < 2 then Err(StackUnderflow)
      else if w[0] || w[1] then Err(VerificationError)
      else Ok(Move(2, [0, 1]))
  }

  function PutValues(stack: seq<Value>, mv: Move): (r: seq<Value>)
    requires mv.take <= |stack| && forall k :: 0 <= k < |mv.put| ==> mv.put[k] < mv.take
    ensures |r| == |mv.put|
    ensures forall k :: 0 <= k < |r| ==> r[k] == stack[|stack| - 1 - mv.put[k]]
  {
    seq(|mv.put|, k requires 0 <= k < |mv.put| => stack[|stack| - 1 - mv.put[k]])
  }

  function ExecShuffle(f: FrameV, op: ShuffleOp): FrameResult {
    match InterpreterMove(op, ValueWides(f.stack))
    case Err(e) => Fail(e)
    case Ok(mv) =>
      var rest := f.stack[..|f.stack| - mv.take];
      if mv.put != [] && |rest| + |mv.put| > f.m.maxStack then Fail(StackOverflow)
      else Ok(f.(stack := rest + PutValues(f.stack, mv)))
  }

  // ----- Arithmetic -----

  /** Shift distances use the low five or six bits of the operand. */
  function IntArith(op: BinaryOp, a: i32, b: i32): i32
    requires (op.Div? || op.Rem?) ==> b != 0
  {
    match op
    case Add => Wrap32(a + b)
    case Sub => Wrap32(a - b)
    case Mul => Wrap32(a * b)
    case Div => Wrap32(TruncDiv(a, b))
    case Rem => Wrap32(TruncRem(a, b))
    case Shl => Wrap32(a * Pow2(b % 32))
    case Shr => Wrap32(a / Pow2(b % 32))
    case Ushr => Wrap32((a % TWO_32) / Pow2(b % 32))
    case Bits(bit) => BitOp32(bit, a, b)
  }

  function LongArith(op: BinaryOp, a: i64, b: i64): i64
    requires (op.Div? || op.Rem?) ==> b != 0
  {
    match op
    case Add => Wrap64(a + b)
    case Sub => Wrap64(a - b)
    case Mul => Wrap64(a * b)
    case Div => Wrap64(TruncDiv(a, b))
    case Rem => Wrap64(TruncRem(a, b))
    case Shl => Wrap64(a * Pow2(b % 64))
    case Shr => Wrap64(a / Pow2(b % 64))
    case Ushr => Wrap64((a % TWO_64) / Pow2(b % 64))
    case Bits(bit) => BitOp64(bit, a, b)
  }

  const ARITHMETIC_EXCEPTION := "java/lang/ArithmeticException"
  const NULL_POINTER_EXCEPTION := "java/lang/NullPointerException"

  /** Operands are popped right to left; a zero divisor raises before the dividend is popped. */
  function ExecBinary(ops: FloatOps, f: FrameV, k: Kind, op: BinaryOp): FrameResult {
    match k
    case KInt =>
      var (b, g) :- PopInt(f);
      if (op.Div? || op.Rem?) && b == 0 then Err(Raise(ARITHMETIC_EXCEPTION))
      else
        var (a, h) :- PopInt(g);
        Push(h, IntValue(IntArith(op, a, b)))
    case KLong =>
      if op.Shl? || op.Shr? || op.Ushr? then
        var (b, g) :- PopInt(f);
        var (a, h) :- PopLong(g);
        Push(h, LongValue(LongArith(op, a, b)))
      else
        var (b, g) :- PopLong(f);
        if (op.Div? || op.Rem?) && b == 0 then Err(Raise(ARITHMETIC_EXCEPTION))
        else
          var (a, h) :- PopLong(g);
          Push(h, LongValue(LongArith(op, a, b)))
    case KFloat =>
      var (b, g) :- PopFloat(f);
      var (a, h) :- PopFloat(g);
      Push(h, FloatValue(ops.arith32(op, a, b)))
    case KDouble =>
      var (b, g) :- PopDouble(f);
      var (a, h) :- PopDouble(g);
      Push(h, DoubleValue(ops.arith64(op, a, b)))
    case KRef => Fail(Unmodelled)
  }

  function ExecNeg(ops: FloatOps, f: FrameV, k: Kind): FrameResult {
    match k
    case KInt => var (a, g) :- PopInt(f); Push(g, IntValue(Wrap32(0 - a)))
    case KLong => var (a, g) :- PopLong(f); Push(g, LongValue(Wrap64(0 - a)))
    case KFloat => var (a, g) :- PopFloat(f); Push(g, FloatValue(ops.neg32(a)))
    case KDouble => var (a, g) :- PopDouble(f); Push(g, DoubleValue(ops.neg64(a)))
    case KRef => Fail(Unmodelled)
  }

  /** The result of a comparison; the two float forms differ only where neither holds. */
  function Ordering(less: bool, equal: bool, greater: bool, greaterOnNaN: bool): i32 {
    if greaterOnNaN then (if less then -1 else if equal then 0 else 1)
    else (if greater then 1 else if equal then 0 else -1)
  }

  function ExecLcmp(f: FrameV): FrameResult {
    var (b, g) :- PopLong(f);
    var (a, h) :- PopLong(g);
    Push(h, IntValue(Ordering(a < b, a == b, a > b, false)))
  }

  function ExecFloatCmp(ops: FloatOps, f: FrameV, k: Kind, greaterOnNaN: bool): FrameResult {
    if k.KFloat? then
      var (b, g) :- PopFloat(f);
      var (a, h) :- PopFloat(g);
      Push(h, IntValue(Ordering(ops.less32(a, b), ops.equal32(a, b), ops.less32(b, a), greaterOnNaN)))
    else
      var (b, g) :- PopDouble(f);
      var (a, h) :- PopDouble(g);
      Push(h, IntValue(Ordering(ops.less64(a, b), ops.equal64(a, b), ops.less64(b, a), greaterOnNaN)))
  }

  function ConstValue(k: Kind, n: int): Value {
    match k
    case KInt => IntValue(Wrap32(n))
    case KLong => LongValue(Wrap64(n))
    case KFloat => FloatValue(F32(if n == 0 then 0 else if n == 1 then 0x3f80_0000 else 0x4000_0000))
    case KDouble => DoubleValue(F64(if n == 0 then 0 else 0x3ff0_0000_0000_0000))
    case KRef => RefValue(Reference.Null)
  }

  predicate Holds(c: Cond, a: i32, b: i32) {
    match c
    case Eq => a == b case Ne => a != b case Lt => a < b
    case Ge => a >= b case Gt => a > b case Le => a <= b
  }

  // ----- Control -----

  function JumpIf(f: FrameV, at: nat, taken: bool, offset: int): FrameResult {
    if taken then Jump(f, at, offset) else Ok(f)
  }

  /** The offset of the first pair with the given key, or the default. */
  function LookupOffset(pairs: seq<(i32, i32)>, key: i32, default: i32): i32 {
    if pairs == [] then default
    else if pairs[0].0 == key then pairs[0].1
    else LookupOffset(pairs[1..], key, default)
  }

  function ExecJsr(f: FrameV, at: nat, offset: int): FrameResult {
    var g :- Push(f, AddressValue(f.pc));
    Jump(g, at, offset)
  }

  function ExecBranch(f: FrameV, at: nat, x: Fetched): FrameResult
    requires x.arg.Offset?
  {
    if x.op.If? then
      var (v, g) :- PopInt(f);
      JumpIf(g, at, Holds(x.op.c, v, 0), x.arg.o)
    else if x.op.IfIcmp? then
      var (b, g) :- PopInt(f);
      var (a, h) :- PopInt(g);
      JumpIf(h, at, Holds(x.op.c, a, b), x.arg.o)
    else if x.op.IfAcmp? then
      var (b, g) :- PopRef(f);
      var (a, h) :- PopRef(g);
      JumpIf(h, at, (a == b) == x.op.eq, x.arg.o)
    else if x.op.IfNull? then
      var (r, g) :- PopRef(f);
      JumpIf(g, at, r.Null? == x.op.eq, x.arg.o)
    else if x.op.Jsr? || x.op.JsrW? then ExecJsr(f, at, x.arg.o)
    else Jump(f, at, x.arg.o)
  }

  function ExecSwitch(f: FrameV, at: nat, x: Fetched): FrameResult
    requires x.arg.Table? ==> |x.arg.offsets| == x.arg.high as int - x.arg.low + 1
    requires x.arg.Table? || x.arg.Lookup?
  {
    var (v, g) :- PopInt(f);
    Jump(g, at, SwitchOffset(x.arg, v))
  }

  /** The offset a switch takes for a key. */
  function SwitchOffset(arg: Operand, v: i32): i32
    requires arg.Table? ==> |arg.offsets| == arg.high as int - arg.low + 1
    requires arg.Table? || arg.Lookup?
  {
    match arg
    case Table(default, low, high, offsets) => if low <= v <= high then offsets[v - low] else default
    case Lookup(default, pairs) => LookupOffset(pairs, v, default)
  }

  function ExecRet(f: FrameV, index: nat): FrameResult {
    var v :- LoadValue(f.locals, index);
    if !v.AddressValue? then Fail(TypeMismatch)
    else if v.pc >= |f.m.code| then Fail(InvalidBranchTarget)
    else Ok(f.(pc := v.pc))
  }

  function ExecLoad(f: FrameV, index: nat): FrameResult {
    var v :- LoadValue(f.locals, index);
    Push(f, v)
  }

  function ExecStore(f: FrameV, index: nat): FrameResult {
    var (v, g) :- Pop(f);
    var locals :- StoreValue(g.locals, index, v);
    Ok(g.(locals := locals))
  }

  function ExecIinc(f: FrameV, index: nat, delta: i32): FrameResult {
    var v :- LoadValue(f.locals, index);
    if !v.IntValue? then Fail(TypeMismatch)
    else
      var locals :- StoreValue(f.locals, index, IntValue(Wrap32(v.i + delta)));
      Ok(f.(locals := locals))
  }

  /** A constant that a bootstrap method would have to compute is outside the model. */
  function ExecLdc(f: FrameV, index: nat): FrameResult {
    if IsCondy(f.m, index) then Fail(Unmodelled)
    else match Entry(f.m.constants, index)
      case None => Fail(InvalidConstantIndex)
      case Some(v) => Push(f, v)
  }

  /** Instructions that act on the call stack rather than on one frame. */
  predicate ActsOnStack(op: Opcode) {
    op.TypedReturn? || op.Return? || op.Athrow? || op.Invokestatic?
  }

  /** Instructions that can raise an exception, or pass one on from a callee. */
  predicate CanRaise(op: Opcode) {
    op.Athrow? || op.Invokestatic? || (op.Binary? && (op.k.KInt? || op.k.KLong?) && (op.op.Div? || op.op.Rem?))
  }

  /** Instructions that concern only the frame they run in; f.pc is already past the operands. */
  function ExecFrame(ops: FloatOps, f: FrameV, at: nat, x: Fetched): FrameResult
    requires Fits(x)
  {
    match x.arg
    case Offset(_) => ExecBranch(f, at, x)
    case Table(_, _, _, _) => ExecSwitch(f, at, x)
    case Lookup(_, _) => ExecSwitch(f, at, x)
    case Immediate(v) => Push(f, IntValue(v))
    case IndexDelta(i, d) => ExecIinc(f, i, d)
    case Index(i) =>
      if x.op.Load? || x.op.LoadN? then ExecLoad(f, i)
      else if x.op.Store? || x.op.StoreN? then ExecStore(f, i)
      else if x.op.Ret? then ExecRet(f, i)
      else if x.op.Invokestatic? then Fail(Unmodelled)
      else ExecLdc(f, i)
    case NoOperand => ExecBare(ops, f, x.op)
  }

  /** Instructions without operands. */
  function ExecBare(ops: FloatOps, f: FrameV, op: Opcode): FrameResult {
    if op.AconstNull? then Push(f, RefValue(Reference.Null))
    else if op.Const? then Push(f, ConstValue(op.k, op.n))
    else if op.Shuffle? then ExecShuffle(f, op.s)
    else if op.Binary? then ExecBinary(ops, f, op.k, op.op)
    else if op.Neg? then ExecNeg(ops, f, op.k)
    else if op.Lcmp? then ExecLcmp(f)
    else if op.FloatCmp? then ExecFloatCmp(ops, f, op.k, op.greaterOnNaN)
    else Fail(Unmodelled)
  }

  // ----- Threads -----

  /** What a thread runs against: resolved static methods and the subclass test. */
  datatype Env = Env(
    table: map<MethodRef, Method>,
    instanceOf: (string, string) -> bool,
    floats: FloatOps)

  /** A thread's call stack, innermost frame last, and the class of every heap object. */
  datatype Thread = Thread(frames: seq<FrameV>, heap: seq<string>)

  datatype Outcome =
    | Running(t: Thread)
    | Returned(v: Option<Value>, heap: seq<string>)
    | Failed(e: VmError)

  function Current(t: Thread): FrameV
    requires t.frames != []
  {
    t.frames[|t.frames| - 1]
  }

  function WithCurrent(t: Thread, f: FrameV): Thread
    requires t.frames != []
  {
    t.(frames := t.frames[..|t.frames| - 1] + [f])
  }

  /** The first handler that covers pc and catches the class. */
  function FindHandler(env: Env, handlers: seq<Handler>, pc: nat, className: string): Option<Handler> {
    if handlers == [] then None
    else if Covers(handlers[0], pc) &&
            (handlers[0].catchClass.None? || env.instanceOf(className, handlers[0].catchClass.value))
    then Some(handlers[0])
    else FindHandler(env, handlers[1..], pc, className)
  }

  /** The offset an exception is attributed to: one before the frame's program counter. */
  function ThrowPc(f: FrameV): nat {
    if f.pc == 0 then 0 else f.pc - 1
  }

  /** Delivers an exception to the innermost frame with a matching handler. */
  function Unwind(env: Env, frames: seq<FrameV>, className: string, r: Reference): (res: Result<seq<FrameV>, VmError>)
    requires frames != []
    ensures res.Ok? ==> res.value != []
    decreases |frames|
  {
    var f := frames[|frames| - 1];
    var rest := frames[..|frames| - 1];
    match FindHandler(env, f.m.handlers, ThrowPc(f), className)
    case Some(h) =>
      if f.m.maxStack == 0 then Err(StackOverflow)
      else Ok(rest + [f.(pc := h.target, stack := [RefValue(r)])])
    case None =>
      if |frames| == 1 then Err(UnhandledException(className)) else Unwind(env, rest, className, r)
  }

  /** Throws an existing object. */
  function Throw(env: Env, t: Thread, r: Reference): (o: Outcome)
    requires t.frames != []
    ensures o.Running? ==> o.t.frames != []
  {
    if r.Null? then Failed(NullReference)
    else if r.index >= |t.heap| then Failed(InvalidHeapReference)
    else match Unwind(env, t.frames, t.heap[r.index], r)
      case Ok(frames) => Running(t.(frames := frames))
      case Err(e) => Failed(e)
  }

  /** Allocates an exception of the given class and throws it. */
  function ThrowNew(env: Env, t: Thread, className: string): (o: Outcome)
    requires t.frames != []
    ensures o.Running? ==> o.t.frames != []
  {
    Throw(env, t.(heap := t.heap + [className]), Heap(|t.heap|))
  }

  /** A callee's first frame: arguments in its first slots, everything else empty. */
  function NewFrame(m: Method, args: seq<Value>): FrameV {
    var preset := ArgsToLocals(args);
    FrameV(m, 0, seq(m.maxLocals, i requires 0 <= i < m.maxLocals => if i < |preset| then preset[i] else None), [])
  }

  function Invoke(env: Env, t: Thread, index: nat): (o: Outcome)
    requires t.frames != []
    ensures o.Running? ==> o.t.frames != []
  {
    var f := Current(t);
    match Entry(f.m.methodRefs, index)
    case None => Failed(InvalidMethodRefIndex)
    case Some(ref) =>
      match ArgCount(ref.descriptor)
      case None => Failed(InvalidDescriptor)
      case Some(n) =>
        if n > |f.stack| then Failed(StackUnderflow)
        else if ref !in env.table then Failed(MethodNotFound)
        else
          var base := |f.stack| - n;
          var caller := f.(stack := f.stack[..base]);
          Running(t.(frames := WithCurrent(t, caller).frames + [NewFrame(env.table[ref], f.stack[base..])]))
  }

  function ReturnValue(t: Thread): (o: Outcome)
    requires t.frames != []
    ensures o.Running? ==> o.t.frames != []
  {
    match Pop(Current(t))
    case Err(stop) => Failed(if stop.Error? then stop.e else Unmodelled)
    case Ok((v, _)) =>
      if |t.frames| == 1 then Returned(Some(v), t.heap)
      else
        var below := t.(frames := t.frames[..|t.frames| - 1]);
        match Push(Current(below), v)
        case Ok(g) => Running(WithCurrent(below, g))
        case Err(stop) => Failed(if stop.Error? then stop.e else Unmodelled)
  }

  function ReturnVoid(t: Thread): (o: Outcome)
    requires t.frames != []
    ensures o.Running? ==> o.t.frames != []
  {
    if |t.frames| == 1 then Returned(None, t.heap) else Running(t.(frames := t.frames[..|t.frames| - 1]))
  }

  /** Raising null is a NullPointerException. */
  function ExecAthrow(env: Env, t: Thread): (o: Outcome)
    requires t.frames != []
    ensures o.Running? ==> o.t.frames != []
  {
    match PopRef(Current(t))
    case Err(stop) => Failed(if stop.Error? then stop.e else Unmodelled)
    case Ok((r, g)) =>
      if r.Null? then ThrowNew(env, WithCurrent(t, g), NULL_POINTER_EXCEPTION)
      else Throw(env, WithCurrent(t, g), r)
  }

  /** Executes a fetched instruction in the innermost frame, whose pc is past the operands. */
  function Execute(env: Env, t: Thread, at: nat, x: Fetched): (o: Outcome)
    requires t.frames != [] && Fits(x)
    ensures o.Running? ==> o.t.frames != []
  {
    hide ExecFrame, ReturnValue, ReturnVoid, ExecAthrow, Invoke, ThrowNew;
    if x.op.TypedReturn? then ReturnValue(t)
    else if x.op.Return? then ReturnVoid(t)
    else if x.op.Athrow? then ExecAthrow(env, t)
    else if x.op.Invokestatic? then Invoke(env, t, x.arg.i)
    else
      match ExecFrame(env.floats, Current(t), at, x)
      case Ok(g) => Running(WithCurrent(t, g))
      case Err(Raise(c)) => ThrowNew(env, t, c)
      case Err(Error(e)) => Failed(e)
  }

  /** One iteration of the interpreter loop. */
  function Step(env: Env, t: Thread): (o: Outcome)
    requires t.frames != []
    ensures o.Running? ==> o.t.frames != []
  {
    hide Execute, FetchAt;
    var f := Current(t);
    if f.pc >= |f.m.code| then Failed(MissingReturn)
    else match FetchAt(f.m.code, f.pc)
      case Err(e) => Failed(e)
      case Ok(x) => Execute(env, WithCurrent(t, f.(pc := x.next)), f.pc, x)
  }

  /** At most n iterations. */
  function Run(env: Env, t: Thread, n: nat): Outcome
    requires t.frames != []
    decreases n
  {
    if n == 0 then Running(t)
    else match Step(env, t)
      case Running(u) => Run(env, u, n - 1)
      case other => other
  }
}
