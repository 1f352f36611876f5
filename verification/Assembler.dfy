/**
 The readers against a writer: what is assembled from an instruction is read back as that
 instruction, by the interpreter and by the verifier.
 */
module Assembler {
  import opened Wrappers
  import opened Words
  import opened Bytecode
  import opened Decoder
  import opened Fetch

  // ----- Numbers -----

  /** A 16-bit number, high byte first; negative ones in two's complement. */
  function Bytes16(n: int): (r: seq<byte>)
    ensures |r| == 2
  {
    [n % 0x1_0000 / 0x100, n % 0x100]
  }

  function Bytes32(n: int): (r: seq<byte>)
    ensures |r| == 4
  {
    var u := n % TWO_32;
    Bytes16(u / 0x1_0000) + Bytes16(u % 0x1_0000)
  }

  /** The bytes of the code from a position on begin with these. */
  predicate BytesAt(code: seq<byte>, pos: nat, bytes: seq<byte>) {
    pos + |bytes| <= |code| && code[pos..pos + |bytes|] == bytes
  }

  lemma {:induction false} HeldAt(code: seq<byte>, pos: nat, bytes: seq<byte>, k: nat)
    requires BytesAt(code, pos, bytes) && k < |bytes|
    ensures pos + k < |code| && code[pos + k] == bytes[k]
  {
    assert code[pos..pos + |bytes|][k] == bytes[k];
  }

  lemma {:induction false} HeldParts(code: seq<byte>, pos: nat, a: seq<byte>, b: seq<byte>)
    requires BytesAt(code, pos, a + b)
    ensures BytesAt(code, pos, a) && BytesAt(code, pos + |a|, b)
  {
    assert code[pos..pos + |a|] == (a + b)[..|a|];
    assert code[pos + |a|..pos + |a| + |b|] == (a + b)[|a|..];
  }

  lemma {:induction false} ByteReadBack(code: seq<byte>, pos: nat, n: int)
    requires BytesAt(code, pos, [n % 0x100])
    ensures U8(code, pos) == Some(n % 0x100)
    ensures -0x80 <= n < 0x80 ==> Signed8(n % 0x100) == n
  {
    HeldAt(code, pos, [n % 0x100], 0);
  }

  lemma {:induction false} HalvesJoined(u: nat)
    requires u < 0x1_0000
    ensures 0x100 * (Bytes16(u)[0] as int) + Bytes16(u)[1] == u
    ensures Bytes16(u)[0] < 0x80 <==> u < 0x8000
  {
  }

  /** The two bytes of a number, and the number they stand for without its sign. */
  lemma {:induction false} HalvesOf(n: int) returns (u: nat)
    requires -0x8000 <= n < 0x1_0000
    ensures u == (if n < 0 then n + 0x1_0000 else n) && u == Unsigned16(Bytes16(n)[0], Bytes16(n)[1])
  {
    u := if n < 0 then n + 0x1_0000 else n;
    assert n % 0x1_0000 == u;
    assert n % 0x100 == u % 0x100;
  }

  lemma {:induction false} Number16ReadBack(code: seq<byte>, pos: nat, n: int)
    requires BytesAt(code, pos, Bytes16(n))
    ensures 0 <= n < 0x1_0000 ==> U16(code, pos) == Some(n)
    ensures -0x8000 <= n < 0x8000 ==> I16(code, pos) == Some(n)
  {
    HeldAt(code, pos, Bytes16(n), 0);
    HeldAt(code, pos, Bytes16(n), 1);
    hide Bytes16, BytesAt, Unsigned16;
    if -0x8000 <= n < 0x1_0000 {
      var u := HalvesOf(n);
    }
  }

  lemma {:induction false} Number32ReadBack(code: seq<byte>, pos: nat, n: i32)
    requires BytesAt(code, pos, Bytes32(n))
    ensures I32(code, pos) == Some(n)
  {
    HeldAt(code, pos, Bytes32(n), 0);
    HeldAt(code, pos, Bytes32(n), 1);
    HeldAt(code, pos, Bytes32(n), 2);
    HeldAt(code, pos, Bytes32(n), 3);
    var u := n % TWO_32;
    var high, low := u / 0x1_0000, u % 0x1_0000;
    HalvesJoined(high);
    HalvesJoined(low);
    hide Bytes16, BytesAt;
    assert u == if n < 0 then n + TWO_32 else n;
    assert u == high * 0x1_0000 + low;
  }

  // ----- Instructions -----

  /** The operand of an instruction without a switch, as it stands in the code. */
  function OperandBytes(op: Opcode, arg: Operand, wide: bool): seq<byte> {
    match arg
    case Immediate(v) => if op.Bipush? then [v % 0x100] else Bytes16(v)
    case Index(i) =>
      if op.LoadN? || op.StoreN? then []
      else if wide || op.LdcW? || op.Ldc2W? || op.Invokestatic? then Bytes16(i)
      else [i % 0x100]
    case IndexDelta(i, d) => if wide then Bytes16(i) + Bytes16(d) else [i % 0x100] + [d % 0x100]
    case Offset(o) => if op.GotoW? || op.JsrW? then Bytes32(o) else Bytes16(o)
    case _ => []
  }

  /** The opcode's byte, after a wide prefix or without one, and the operand. */
  function Assembled(b: byte, op: Opcode, arg: Operand, wide: bool): seq<byte> {
    (if wide then [0xc4, b] else [b]) + OperandBytes(op, arg, wide)
  }

  /** The operand is one the opcode has, and fits in the bytes it has for it. */
  predicate Encodable(op: Opcode, arg: Operand, wide: bool) {
    if wide then
      match arg
      case Index(i) => i < 0x1_0000 && (op.Load? || op.Store? || op.Ret?)
      case IndexDelta(i, d) => i < 0x1_0000 && -0x8000 <= d < 0x8000 && op.Iinc?
      case _ => false
    else
      match arg
      case NoOperand => ShapeOf(op).Bare?
      case Immediate(v) => if op.Bipush? then -0x80 <= v < 0x80 else op.Sipush? && -0x8000 <= v < 0x8000
      case Index(i) =>
        if op.LoadN? || op.StoreN? then i == op.slot
        else if op.LdcW? || op.Ldc2W? || op.Invokestatic? then i < 0x1_0000
        else i < 0x100 && (op.Ldc? || op.Load? || op.Store? || op.Ret?)
      case IndexDelta(i, d) => i < 0x100 && -0x80 <= d < 0x80 && op.Iinc?
      case Offset(o) =>
        if op.GotoW? || op.JsrW? then true else -0x8000 <= o < 0x8000 && HasShortBranch(op)
      case _ => false
  }

  /** The interpreter reads back what was assembled, and goes on right behind it. */
  lemma {:induction false} FetchedBack(code: seq<byte>, pc: nat, b: byte, op: Opcode, arg: Operand, wide: bool)
    requires FromByte(b) == Some(op) && Encodable(op, arg, wide)
    requires BytesAt(code, pc, Assembled(b, op, arg, wide))
    ensures FetchAt(code, pc) == Ok(Fetched(op, arg, pc + |Assembled(b, op, arg, wide)|))
  {
    hide FromByte, FetchAt, Encodable, OperandBytes, BytesAt;
    HeldParts(code, pc, if wide then [0xc4, b] else [b], OperandBytes(op, arg, wide));
    if wide {
      WideFetchedBack(code, pc, b, op, arg);
    } else {
      PlainFetchedBack(code, pc, b, op, arg);
    }
  }

  lemma {:induction false} OpcodeFetched(code: seq<byte>, pc: nat, op: Opcode)
    requires pc < |code| && FromByte(code[pc]) == Some(op)
    ensures WellKinded(op) && FetchAt(code, pc) == FetchOperands(code, pc + 1, op)
  {
    FromByteWellKinded(code[pc]);
    hide FromByte, FetchOperands, WellKinded;
  }

  lemma {:induction false} PlainFetchedBack(code: seq<byte>, pc: nat, b: byte, op: Opcode, arg: Operand)
    requires FromByte(b) == Some(op) && Encodable(op, arg, false)
    requires BytesAt(code, pc, [b]) && BytesAt(code, pc + 1, OperandBytes(op, arg, false))
    ensures FetchAt(code, pc) == Ok(Fetched(op, arg, pc + 1 + |OperandBytes(op, arg, false)|))
  {
    hide FromByte, BytesAt, FetchAt, FetchOperands, Encodable, OperandBytes, WellKinded;
    HeldAt(code, pc, [b], 0);
    OpcodeFetched(code, pc, op);
    OperandsFetchedBack(code, pc + 1, op, arg);
  }

  lemma {:induction false} OperandsFetchedBack(code: seq<byte>, pos: nat, op: Opcode, arg: Operand)
    requires WellKinded(op) && Encodable(op, arg, false) && BytesAt(code, pos, OperandBytes(op, arg, false))
    ensures FetchOperands(code, pos, op) == Ok(Fetched(op, arg, pos + |OperandBytes(op, arg, false)|))
  {
    hide U16, I16, I32, BytesAt, Bytes16, WellKinded, Signed8;
    match arg {
      case NoOperand =>
      case Immediate(v) => ImmediateFetchedBack(code, pos, op, v);
      case Index(i) => IndexFetchedBack(code, pos, op, i);
      case IndexDelta(i, d) => IncrementFetchedBack(code, pos, i, d);
      case Offset(o) => OffsetFetchedBack(code, pos, op, o);
    }
  }

  lemma {:induction false} ImmediateFetchedBack(code: seq<byte>, pos: nat, op: Opcode, v: i32)
    requires Encodable(op, Immediate(v), false) && BytesAt(code, pos, OperandBytes(op, Immediate(v), false))
    ensures FetchOperands(code, pos, op) == Ok(Fetched(op, Immediate(v), pos + |OperandBytes(op, Immediate(v), false)|))
  {
    hide U16, I16, I32, BytesAt, Bytes16, Signed8;
    if op.Bipush? {
      ByteReadBack(code, pos, v);
    } else {
      Number16ReadBack(code, pos, v);
    }
  }

  lemma {:induction false} IncrementFetchedBack(code: seq<byte>, pos: nat, i: nat, d: i32)
    requires Encodable(Iinc, IndexDelta(i, d), false) && BytesAt(code, pos, [i % 0x100] + [d % 0x100])
    ensures FetchOperands(code, pos, Iinc) == Ok(Fetched(Iinc, IndexDelta(i, d), pos + 2))
  {
    HeldParts(code, pos, [i % 0x100], [d % 0x100]);
    hide BytesAt, Signed8;
    ByteReadBack(code, pos, i);
    ByteReadBack(code, pos + 1, d);
    assert FetchOperands(code, pos, Iinc) == FetchIncrement(code, pos);
  }

  lemma {:induction false} OffsetFetchedBack(code: seq<byte>, pos: nat, op: Opcode, o: i32)
    requires Encodable(op, Offset(o), false) && BytesAt(code, pos, OperandBytes(op, Offset(o), false))
    ensures FetchOperands(code, pos, op) == Ok(Fetched(op, Offset(o), pos + |OperandBytes(op, Offset(o), false)|))
  {
    hide I16, I32, BytesAt;
    if op.GotoW? || op.JsrW? {
      Number32ReadBack(code, pos, o);
    } else {
      Number16ReadBack(code, pos, o);
    }
  }

  lemma {:induction false} IndexFetchedBack(code: seq<byte>, pos: nat, op: Opcode, i: nat)
    requires WellKinded(op) && Encodable(op, Index(i), false) && BytesAt(code, pos, OperandBytes(op, Index(i), false))
    ensures FetchOperands(code, pos, op) == Ok(Fetched(op, Index(i), pos + |OperandBytes(op, Index(i), false)|))
  {
    hide U16, BytesAt, WellKinded;
    if op.LdcW? || op.Ldc2W? || op.Invokestatic? {
      Number16ReadBack(code, pos, i);
    } else if !(op.LoadN? || op.StoreN?) {
      ByteReadBack(code, pos, i);
    }
  }

  lemma {:induction false} PrefixFetched(code: seq<byte>, pc: nat)
    requires pc < |code| && code[pc] == 0xc4
    ensures FetchAt(code, pc) == FetchWide(code, pc + 1)
  {
    assert FromByte(0xc4) == Some(Wide);
    hide FromByte, FetchAt, FetchWide;
    OpcodeFetched(code, pc, Wide);
  }

  lemma {:induction false} WideFetchedBack(code: seq<byte>, pc: nat, b: byte, op: Opcode, arg: Operand)
    requires FromByte(b) == Some(op) && Encodable(op, arg, true)
    requires BytesAt(code, pc, [0xc4, b]) && BytesAt(code, pc + 2, OperandBytes(op, arg, true))
    ensures FetchAt(code, pc) == Ok(Fetched(op, arg, pc + 2 + |OperandBytes(op, arg, true)|))
  {
    hide FromByte, U16, I16, BytesAt, FetchAt, FetchWide, FetchOperands, Encodable, OperandBytes, WellKinded;
    HeldAt(code, pc, [0xc4, b], 0);
    HeldAt(code, pc, [0xc4, b], 1);
    PrefixFetched(code, pc);
    WideOperandsFetchedBack(code, pc + 1, b, op, arg);
  }

  lemma {:induction false} WideOperandsFetchedBack(code: seq<byte>, pos: nat, b: byte, op: Opcode, arg: Operand)
    requires pos < |code| && code[pos] == b && FromByte(b) == Some(op) && Encodable(op, arg, true)
    requires BytesAt(code, pos + 1, OperandBytes(op, arg, true))
    ensures FetchWide(code, pos) == Ok(Fetched(op, arg, pos + 1 + |OperandBytes(op, arg, true)|))
  {
    hide FromByte, U16, I16, BytesAt;
    match arg {
      case Index(i) => Number16ReadBack(code, pos + 1, i);
      case IndexDelta(i, d) =>
        HeldParts(code, pos + 1, Bytes16(i), Bytes16(d));
        Number16ReadBack(code, pos + 1, i);
        Number16ReadBack(code, pos + 3, d);
    }
  }

  /** The verifier reads back the constant-pool index of every instruction that has one of 16 bits. */
  lemma {:induction false} PoolIndexDecodedBack(code: seq<byte>, pc: nat, b: byte, op: Opcode, index: nat, more: seq<byte>)
    requires FromByte(b) == Some(op) && index < 0x1_0000
    requires BytesAt(code, pc, [b] + Bytes16(index) + more)
    requires if HasPoolIndex(op) then more == []
             else if op.Multianewarray? then |more| == 1 else (op.Invokeinterface? || op.Invokedynamic?) && |more| == 2
    ensures Decode(code, pc) ==
            Some(Plain(pc, pc + 3 + |more|, op).(cp := Some(index), dims := if op.Multianewarray? then Some(more[0]) else None))
  {
    hide FromByte, U16, I16, I32, Bytes16, BytesAt, DecodeTableswitch, DecodeLookupswitch, DecodeWide, Target16, Target32;
    HeldParts(code, pc, [b] + Bytes16(index), more);
    HeldParts(code, pc, [b], Bytes16(index));
    HeldAt(code, pc, [b], 0);
    Number16ReadBack(code, pc + 1, index);
    if op.Multianewarray? {
      HeldAt(code, pc + 3, more, 0);
    }
  }
}
