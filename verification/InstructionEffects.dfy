/**
 What single instructions of the interpreter do: which branches are taken, what comparisons
 and constants push, where a switch leads, and what a local holds after a store.
 */
module InstructionEffects {
  import opened Wrappers
  import opened Words
  import opened Bytecode
  import opened Program
  import opened VerifyTypes
  import opened Decoder
  import opened Fetch
  import opened Machine
  import opened InstructionFacts
  import Arithmetic

  // ----- Branches -----

  /** What a condition says of a value compared with zero; for two ints, of their difference. */
  predicate Decides(c: Cond, d: int) {
    match c
    case Eq => d == 0
    case Ne => d < 0 || d > 0
    case Lt => d < 0
    case Ge => !(d < 0)
    case Gt => d > 0
    case Le => !(d > 0)
  }

  /** Execution goes on at an offset counted from the instruction, if that is an offset of the code or its end. */
  ghost predicate GoesTo(r: FrameResult, f: FrameV, stack: seq<Value>, target: int) {
    if 0 <= target <= |f.m.code| then r == Ok(f.(stack := stack, pc := target)) else r == Err(Error(InvalidBranchTarget))
  }

  ghost predicate BranchesIf(r: FrameResult, f: FrameV, stack: seq<Value>, taken: bool, target: int) {
    if taken then GoesTo(r, f, stack, target) else r == Ok(f.(stack := stack))
  }

  lemma {:induction false} TakeLast<T>(s: seq<T>, rest: seq<T>, v: T)
    requires s == rest + [v]
    ensures s != [] && s[|s| - 1] == v && s[..|s| - 1] == rest
  {
  }

  lemma {:induction false} TakeLastTwo<T>(s: seq<T>, rest: seq<T>, v: T, w: T)
    requires s == rest + [v, w]
    ensures |s| >= 2 && s[|s| - 1] == w && s[..|s| - 1] == rest + [v]
    ensures s[|s| - 2] == v && s[..|s| - 1][..|s| - 2] == rest && s[..|s| - 2] == rest
  {
    TakeLast(s, rest + [v], w);
  }

  lemma {:induction false} IfBranches(f: FrameV, at: nat, x: Fetched, rest: seq<Value>, v: i32)
    requires x.op.If? && x.arg.Offset? && f.stack == rest + [IntValue(v)]
    ensures BranchesIf(ExecBranch(f, at, x), f, rest, Decides(x.op.c, v), at + x.arg.o)
  {
    TakeLast(f.stack, rest, IntValue(v));
  }

  lemma {:induction false} IfIcmpBranches(f: FrameV, at: nat, x: Fetched, rest: seq<Value>, a: i32, b: i32)
    requires x.op.IfIcmp? && x.arg.Offset? && f.stack == rest + [IntValue(a), IntValue(b)]
    ensures BranchesIf(ExecBranch(f, at, x), f, rest, Decides(x.op.c, a - b), at + x.arg.o)
  {
    TakeLastTwo(f.stack, rest, IntValue(a), IntValue(b));
  }

  lemma {:induction false} IfAcmpBranches(f: FrameV, at: nat, x: Fetched, rest: seq<Value>, a: Reference, b: Reference)
    requires x.op.IfAcmp? && x.arg.Offset? && f.stack == rest + [RefValue(a), RefValue(b)]
    ensures BranchesIf(ExecBranch(f, at, x), f, rest, if x.op.eq then a == b else a != b, at + x.arg.o)
  {
    TakeLastTwo(f.stack, rest, RefValue(a), RefValue(b));
  }

  lemma {:induction false} IfNullBranches(f: FrameV, at: nat, x: Fetched, rest: seq<Value>, r: Reference)
    requires x.op.IfNull? && x.arg.Offset? && f.stack == rest + [RefValue(r)]
    ensures BranchesIf(ExecBranch(f, at, x), f, rest, if x.op.eq then r == Reference.Null else r != Reference.Null,
                       at + x.arg.o)
  {
    TakeLast(f.stack, rest, RefValue(r));
  }

  /** A goto always branches; a jsr leaves the address of the next instruction, and ret goes back to such an address. */
  lemma {:induction false} SubroutineReturns(f: FrameV, at: nat, x: Fetched)
    requires x.arg.Offset?
    ensures x.op.Goto? || x.op.GotoW? ==> GoesTo(ExecBranch(f, at, x), f, f.stack, at + x.arg.o)
    ensures (x.op.Jsr? || x.op.JsrW?) && |f.stack| < f.m.maxStack ==>
              GoesTo(ExecBranch(f, at, x), f, f.stack + [AddressValue(f.pc)], at + x.arg.o)
    ensures forall i: nat, p: nat :: i < |f.locals| && f.locals[i] == Some(AddressValue(p)) && p < |f.m.code| ==>
              ExecRet(f, i) == Ok(f.(pc := p))
  {
  }

  // ----- Comparisons -----

  lemma {:induction false} LcmpCompares(f: FrameV, rest: seq<Value>, a: i64, b: i64)
    requires f.stack == rest + [LongValue(a), LongValue(b)] && |rest| < f.m.maxStack
    ensures exists r: i32 ::
              && ExecLcmp(f) == Ok(f.(stack := rest + [IntValue(r)]))
              && (r == -1 || r == 0 || r == 1) && (r == -1 <==> a < b) && (r == 1 <==> b < a)
  {
    TakeLastTwo(f.stack, rest, LongValue(a), LongValue(b));
    var r: i32 := if a < b then -1 else if b < a then 1 else 0;
    assert ExecLcmp(f) == Ok(f.(stack := rest + [IntValue(r)]));
  }

  /** Of two floats at most one of less, equal and greater holds; none does when one is not a number. */
  predicate Ordered(less: bool, equal: bool, greater: bool) {
    !(less && equal) && !(less && greater) && !(equal && greater)
  }

  /** Less, equal and greater give -1, 0 and 1; unordered operands give 1 to cmpg and -1 to cmpl. */
  predicate ComparesTo(r: i32, less: bool, equal: bool, greater: bool, greaterOnNaN: bool) {
    && (less ==> r == -1) && (equal ==> r == 0) && (greater ==> r == 1)
    && (!less && !equal && !greater ==> r == if greaterOnNaN then 1 else -1)
  }

  lemma {:induction false} FloatsCompared(ops: FloatOps, f: FrameV, rest: seq<Value>, a: F32, b: F32, g: bool)
    requires f.stack == rest + [FloatValue(a), FloatValue(b)] && |rest| < f.m.maxStack
    requires Ordered(ops.less32(a, b), ops.equal32(a, b), ops.less32(b, a))
    ensures exists r: i32 ::
              && ComparesTo(r, ops.less32(a, b), ops.equal32(a, b), ops.less32(b, a), g)
              && ExecFloatCmp(ops, f, KFloat, g) == Ok(f.(stack := rest + [IntValue(r)]))
  {
    TakeLastTwo(f.stack, rest, FloatValue(a), FloatValue(b));
    var r: i32 := Ordering(ops.less32(a, b), ops.equal32(a, b), ops.less32(b, a), g);
    assert ExecFloatCmp(ops, f, KFloat, g) == Ok(f.(stack := rest + [IntValue(r)]));
  }

  lemma {:induction false} DoublesCompared(ops: FloatOps, f: FrameV, rest: seq<Value>, a: F64, b: F64, g: bool)
    requires f.stack == rest + [DoubleValue(a), DoubleValue(b)] && |rest| < f.m.maxStack
    requires Ordered(ops.less64(a, b), ops.equal64(a, b), ops.less64(b, a))
    ensures exists r: i32 ::
              && ComparesTo(r, ops.less64(a, b), ops.equal64(a, b), ops.less64(b, a), g)
              && ExecFloatCmp(ops, f, KDouble, g) == Ok(f.(stack := rest + [IntValue(r)]))
  {
    TakeLastTwo(f.stack, rest, DoubleValue(a), DoubleValue(b));
    var r: i32 := Ordering(ops.less64(a, b), ops.equal64(a, b), ops.less64(b, a), g);
    assert ExecFloatCmp(ops, f, KDouble, g) == Ok(f.(stack := rest + [IntValue(r)]));
  }

  /** Float arithmetic applies the operation to the operands in order. */
  lemma {:induction false} FloatBinaryExecutes(ops: FloatOps, f: FrameV, op: BinaryOp, rest: seq<Value>, a: F32, b: F32)
    requires f.stack == rest + [FloatValue(a), FloatValue(b)] && |rest| < f.m.maxStack
    ensures ExecBinary(ops, f, KFloat, op) == Ok(f.(stack := rest + [FloatValue(ops.arith32(op, a, b))]))
  {
    TakeLastTwo(f.stack, rest, FloatValue(a), FloatValue(b));
  }

  lemma {:induction false} DoubleBinaryExecutes(ops: FloatOps, f: FrameV, op: BinaryOp, rest: seq<Value>, a: F64, b: F64)
    requires f.stack == rest + [DoubleValue(a), DoubleValue(b)] && |rest| < f.m.maxStack
    ensures ExecBinary(ops, f, KDouble, op) == Ok(f.(stack := rest + [DoubleValue(ops.arith64(op, a, b))]))
  {
    TakeLastTwo(f.stack, rest, DoubleValue(a), DoubleValue(b));
  }

  // ----- Switches -----

  /** Where a switch's operands begin: the first multiple of four behind its opcode. */
  ghost predicate OperandsAt(at: nat, pos: nat) {
    at < pos <= at + 4 && pos % 4 == 0
  }

  /** Where a tableswitch has the offset for a key: in the table, or the default in front of it. */
  ghost function EntryFor(code: seq<byte>, pos: nat, v: i32): nat
    requires pos + 11 < |code|
  {
    var low, high := I32(code, pos + 4).value, I32(code, pos + 8).value;
    if low <= v <= high then pos + 12 + 4 * (v - low) else pos
  }

  lemma {:induction false} JumpGoes(f: FrameV, at: nat, stack: seq<Value>, offset: int)
    ensures GoesTo(Jump(f.(stack := stack), at, offset), f, stack, at + offset)
  {
  }

  /** What a tableswitch's operands are. */
  lemma {:induction false} TableFetched(code: seq<byte>, at: nat, x: Fetched) returns (pos: nat)
    requires at < |code| && FromByte(code[at]) == Some(Tableswitch) && FetchAt(code, at) == Ok(x)
    ensures x.op == Tableswitch && x.arg.Table? && OperandsAt(at, pos) && pos + 11 < |code|
    ensures I32(code, pos) == Some(x.arg.default)
    ensures I32(code, pos + 4) == Some(x.arg.low) && I32(code, pos + 8) == Some(x.arg.high)
    ensures |x.arg.offsets| == x.arg.high as int - x.arg.low + 1
    ensures forall k: nat :: k < |x.arg.offsets| ==> OffsetAt(code, pos + 12, false, k) == Some(x.arg.offsets[k])
  {
    hide I32, FromByte;
    pos := Aligned(at + 1);
    assert FetchTable(code, at + 1) == Ok(x);
  }

  /** A tableswitch reads its key's entry of the table in the code; other keys take the default. */
  lemma {:induction false} TableswitchJumps(f: FrameV, at: nat, x: Fetched, rest: seq<Value>, v: i32) returns (pos: nat)
    requires at < |f.m.code| && FromByte(f.m.code[at]) == Some(Tableswitch) && FetchAt(f.m.code, at) == Ok(x)
    requires f.stack == rest + [IntValue(v)]
    ensures x.arg.Table? && OperandsAt(at, pos) && pos + 11 < |f.m.code|
    ensures I32(f.m.code, EntryFor(f.m.code, pos, v)).Some?
    ensures GoesTo(ExecSwitch(f, at, x), f, rest, at + I32(f.m.code, EntryFor(f.m.code, pos, v)).value)
  {
    hide I32, FetchAt, FromByte, OperandsAt;
    TakeLast(f.stack, rest, IntValue(v));
    var code := f.m.code;
    pos := TableFetched(code, at, x);
    var low, high := x.arg.low, x.arg.high;
    if low <= v <= high {
      assert OffsetAt(code, pos + 12, false, v - low) == Some(x.arg.offsets[v - low]);
    }
    assert I32(code, EntryFor(code, pos, v)) == Some(SwitchOffset(x.arg, v));
    JumpGoes(f, at, rest, SwitchOffset(x.arg, v));
  }

  /** The k-th pair of a lookupswitch whose pairs begin at a position has this key. */
  predicate KeyAt(code: seq<byte>, pos: nat, k: nat, key: i32) {
    I32(code, pos + 8 * k) == Some(key)
  }

  ghost predicate FirstKeyAt(code: seq<byte>, pos: nat, count: nat, k: nat, key: i32) {
    k < count && KeyAt(code, pos, k, key) && forall j: nat :: j < k ==> !KeyAt(code, pos, j, key)
  }

  ghost predicate NoKeyAt(code: seq<byte>, pos: nat, count: nat, key: i32) {
    forall k: nat :: k < count ==> !KeyAt(code, pos, k, key)
  }

  /** What a lookupswitch's operands are. */
  lemma {:induction false} LookupFetched(code: seq<byte>, at: nat, x: Fetched) returns (pos: nat)
    requires at < |code| && FromByte(code[at]) == Some(Lookupswitch) && FetchAt(code, at) == Ok(x)
    ensures x.op == Lookupswitch && x.arg.Lookup? && OperandsAt(at, pos) && pos + 7 < |code|
    ensures I32(code, pos + 4).value == |x.arg.pairs| && I32(code, pos) == Some(x.arg.default)
    ensures forall k: nat :: k < |x.arg.pairs| ==> PairIs(code, pos + 8, k, x.arg.pairs[k])
  {
    hide I32, FromByte;
    pos := Aligned(at + 1);
    assert FetchLookup(code, at + 1) == Ok(x);
    var pairs := x.arg.pairs;
    forall k: nat | k < |pairs| ensures PairIs(code, pos + 8, k, pairs[k]) {
      assert pairs[k] == PairAt(code, pos + 8, k);
    }
  }

  predicate PairIs(code: seq<byte>, pos: nat, k: nat, pair: (i32, i32)) {
    I32(code, pos + 8 * k) == Some(pair.0) && I32(code, pos + 4 + 8 * k) == Some(pair.1)
  }

  /** A lookupswitch takes the first of the pairs in the code that has its key, and the default without one. */
  lemma {:induction false} LookupswitchJumps(f: FrameV, at: nat, x: Fetched, rest: seq<Value>, v: i32) returns (pos: nat)
    requires at < |f.m.code| && FromByte(f.m.code[at]) == Some(Lookupswitch) && FetchAt(f.m.code, at) == Ok(x)
    requires f.stack == rest + [IntValue(v)]
    ensures x.arg.Lookup? && OperandsAt(at, pos) && pos + 7 < |f.m.code|
    ensures I32(f.m.code, pos + 4).value == |x.arg.pairs|
    ensures forall k: nat :: FirstKeyAt(f.m.code, pos + 8, |x.arg.pairs|, k, v) ==>
              && I32(f.m.code, pos + 12 + 8 * k).Some?
              && GoesTo(ExecSwitch(f, at, x), f, rest, at + I32(f.m.code, pos + 12 + 8 * k).value)
    ensures NoKeyAt(f.m.code, pos + 8, |x.arg.pairs|, v) ==>
              GoesTo(ExecSwitch(f, at, x), f, rest, at + I32(f.m.code, pos).value)
  {
    hide I32, FetchAt, FromByte, OperandsAt;
    TakeLast(f.stack, rest, IntValue(v));
    var code := f.m.code;
    pos := LookupFetched(code, at, x);
    var pairs, default, from := x.arg.pairs, x.arg.default, pos + 8;
    forall k: nat | k < |pairs|
      ensures KeyAt(code, from, k, v) <==> pairs[k].0 == v
      ensures I32(code, from + 4 + 8 * k) == Some(pairs[k].1)
    {
      assert PairIs(code, from, k, pairs[k]);
    }
    hide LookupOffset, Jump;
    assert ExecSwitch(f, at, x) == Jump(f.(stack := rest), at, LookupOffset(pairs, v, default));
    forall k: nat | FirstKeyAt(code, from, |pairs|, k, v)
      ensures I32(code, from + 4 + 8 * k) == Some(pairs[k].1) && LookupOffset(pairs, v, default) == pairs[k].1
    {
      forall j: nat | j < k ensures pairs[j].0 != v {
        assert !KeyAt(code, from, j, v);
      }
      LookupTakesFirst(pairs, v, default, k);
    }
    if NoKeyAt(code, from, |pairs|, v) {
      forall j: nat | j < |pairs| ensures pairs[j].0 != v {
        assert !KeyAt(code, from, j, v);
      }
      LookupTakesDefault(pairs, v, default);
    }
    JumpGoes(f, at, rest, LookupOffset(pairs, v, default));
  }

  // ----- Constants -----

  /** The bits of a positive normal number of binary interchange format, whose value is an integer. */
  predicate Encodes(bits: nat, fraction: nat, bias: nat, n: nat) {
    var exponent, significand := bits / Pow2(fraction), bits % Pow2(fraction) + Pow2(fraction);
    exponent >= 1 && significand * Pow2(exponent) == n * Pow2(bias + fraction)
  }

  lemma {:induction false} PowerEncoded(bits: nat, fraction: nat, bias: nat, exponent: nat, n: nat)
    requires exponent >= 1 && bits == Pow2(fraction) * exponent && Pow2(exponent) == n * Pow2(bias)
    ensures Encodes(bits, fraction, bias, n)
  {
    var p, q := Pow2(fraction), Pow2(bias);
    Arithmetic.QuotientIs(bits, p, exponent, 0);
    PowerOfSum(bias, fraction);
    assert p * (n * q) == n * (q * p);
  }

  lemma {:induction false} FractionSizes()
    ensures Pow2(23) == 0x80_0000 && Pow2(52) == 0x10_0000_0000_0000
  {
    assert Pow2(7) == 128 && Pow2(4) == 16 && Pow2(8) == 256;
    hide Pow2;
    PowerOfSum(8, 8);
    PowerOfSum(16, 7);
    PowerOfSum(16, 16);
    PowerOfSum(32, 16);
    PowerOfSum(48, 4);
  }

  lemma {:induction false} SmallFloats()
    ensures Encodes(0x3f80_0000, 23, 127, 1) && Encodes(0x4000_0000, 23, 127, 2)
    ensures Encodes(0x3ff0_0000_0000_0000, 52, 1023, 1)
  {
    assert Pow2(128) == 2 * Pow2(127);
    hide Pow2, Encodes;
    FractionSizes();
    PowerEncoded(0x3f80_0000, 23, 127, 127, 1);
    PowerEncoded(0x4000_0000, 23, 127, 128, 2);
    PowerEncoded(0x3ff0_0000_0000_0000, 52, 1023, 1023, 1);
  }

  /** The number a constant instruction pushes is the one in its name. */
  lemma {:induction false} ConstantsPushed(b: byte)
    requires 0x02 <= b <= 0x0f
    ensures FromByte(b).Some? && FromByte(b).value.Const?
    ensures var k, n := FromByte(b).value.k, FromByte(b).value.n;
            var v := ConstValue(k, n);
            && (b <= 0x08 ==> v.IntValue? && v.i == b - 3)
            && (0x09 <= b <= 0x0a ==> v.LongValue? && v.l == b - 9)
            && (0x0b <= b <= 0x0d ==> v.FloatValue? && if b == 0x0b then v.f.bits == 0 else Encodes(v.f.bits, 23, 127, b - 0x0b))
            && (0x0e <= b ==> v.DoubleValue? && if b == 0x0e then v.d.bits == 0 else Encodes(v.d.bits, 52, 1023, 1))
  {
    SmallFloats();
    hide Encodes;
  }

  /** One more value on the stack and nothing else changed, or the refusal of a full stack. */
  ghost predicate Pushes(r: FrameResult, f: FrameV, v: Value) {
    r == if |f.stack| < f.m.maxStack then Ok(f.(stack := f.stack + [v])) else Err(Error(StackOverflow))
  }

  /** An instruction that carries its number pushes it, and one without an operand its own constant. */
  lemma {:induction false} ConstantExecuted(ops: FloatOps, f: FrameV, at: nat, x: Fetched)
    requires Fits(x)
    ensures x.op.Bipush? || x.op.Sipush? ==> x.arg.Immediate? && Pushes(ExecFrame(ops, f, at, x), f, IntValue(x.arg.v))
    ensures x.op.AconstNull? ==> Pushes(ExecFrame(ops, f, at, x), f, RefValue(Reference.Null))
    ensures x.op.Const? ==> Pushes(ExecFrame(ops, f, at, x), f, ConstValue(x.op.k, x.op.n))
  {
    hide ConstValue, ExecShuffle, ExecBinary, ExecNeg, ExecBranch, ExecSwitch;
  }

  /** A constant loaded from the pool is its entry at the index; an index without one is an error. */
  lemma {:induction false} ConstantLoaded(ops: FloatOps, f: FrameV, at: nat, x: Fetched)
    requires Fits(x) && (x.op.Ldc? || x.op.LdcW? || x.op.Ldc2W?) && !IsCondy(f.m, x.arg.i)
    ensures var pool, i := f.m.constants, x.arg.i;
            if i < |pool| && pool[i].Some? then Pushes(ExecFrame(ops, f, at, x), f, pool[i].value)
            else ExecFrame(ops, f, at, x) == Err(Error(InvalidConstantIndex))
  {
    hide ExecBranch, ExecSwitch, ExecBare, ExecRet;
  }

  /** The laws of single operations are about the operation the opcode names, on the frame with the opcode's kind. */
  lemma {:induction false} NamedOperationRuns(ops: FloatOps, f: FrameV, at: nat, x: Fetched)
    requires Fits(x)
    ensures var r := ExecFrame(ops, f, at, x);
            match x.op
            case Binary(k, op) => r == ExecBinary(ops, f, k, op)
            case Neg(k) => r == ExecNeg(ops, f, k)
            case Lcmp => r == ExecLcmp(f)
            case FloatCmp(k, greaterOnNaN) => r == ExecFloatCmp(ops, f, k, greaterOnNaN)
            case Shuffle(s) => r == ExecShuffle(f, s)
            case Load(_) => r == ExecLoad(f, x.arg.i)
            case LoadN(_, _) => r == ExecLoad(f, x.arg.i)
            case Store(_) => r == ExecStore(f, x.arg.i)
            case StoreN(_, _) => r == ExecStore(f, x.arg.i)
            case Iinc => r == ExecIinc(f, x.arg.i, x.arg.d)
            case Ret => r == ExecRet(f, x.arg.i)
            case If(_) => r == ExecBranch(f, at, x)
            case IfIcmp(_) => r == ExecBranch(f, at, x)
            case IfAcmp(_) => r == ExecBranch(f, at, x)
            case IfNull(_) => r == ExecBranch(f, at, x)
            case Tableswitch => r == ExecSwitch(f, at, x)
            case Lookupswitch => r == ExecSwitch(f, at, x)
            case _ => true
  {
    hide ExecShuffle, ExecBinary, ExecNeg, ExecLcmp, ExecFloatCmp, ExecBranch, ExecSwitch, ExecLoad, ExecStore, ExecIinc, ExecRet;
  }

  // ----- Locals -----

  /** A stored value is read back; the slot behind a two-word value is empty, and so is half of one overwritten. */
  lemma {:induction false} StoredValueReadBack(f: FrameV, index: nat, rest: seq<Value>, v: Value)
    requires f.stack == rest + [v]
    ensures ExecStore(f, index).Ok? <==> index < |f.locals| && (IsWideValue(v) ==> index + 1 < |f.locals|)
    ensures ExecStore(f, index).Err? ==> ExecStore(f, index) == Err(Error(InvalidLocalIndex))
    ensures ExecStore(f, index).Ok? ==>
              var g := ExecStore(f, index).value;
              && g == f.(stack := rest, locals := g.locals) && |g.locals| == |f.locals|
              && (|rest| < f.m.maxStack ==> ExecLoad(g, index) == Ok(g.(stack := rest + [v])))
              && (IsWideValue(v) ==> g.locals[index + 1] == None)
              && forall i :: 0 <= i < |f.locals| && i != index && !(IsWideValue(v) && i == index + 1) ==>
                   g.locals[i] == if (i == index - 1 && IsWideSlot(f.locals[i])) ||
                                     (i == index + 1 && IsWideSlot(f.locals[index])) then None else f.locals[i]
  {
    TakeLast(f.stack, rest, v);
  }

  /** A load pushes what the local holds, and fails on one that holds nothing. */
  lemma {:induction false} LoadPushes(f: FrameV, index: nat)
    ensures index < |f.locals| && f.locals[index].Some? && |f.stack| < f.m.maxStack ==>
              ExecLoad(f, index) == Ok(f.(stack := f.stack + [f.locals[index].value]))
    ensures index < |f.locals| && f.locals[index].None? ==> ExecLoad(f, index) == Err(Error(UninitializedLocal))
    ensures index >= |f.locals| ==> ExecLoad(f, index) == Err(Error(InvalidLocalIndex))
  {
  }

  /** An iinc adds its constant to an int local, modulo the word size, and changes nothing else. */
  lemma {:induction false} IincAdds(f: FrameV, index: nat, delta: i32, a: i32)
    requires index < |f.locals| && f.locals[index] == Some(IntValue(a))
    requires index > 0 ==> !IsWideSlot(f.locals[index - 1])
    ensures exists r: i32 :: (r - (a + delta)) % TWO_32 == 0 &&
              ExecIinc(f, index, delta) == Ok(f.(locals := f.locals[index := Some(IntValue(r))]))
  {
    var r := Wrap32(a + delta);
    assert ExecIinc(f, index, delta) == Ok(f.(locals := f.locals[index := Some(IntValue(r))]));
  }
}
