/**
 The interpreter's own reading of an instruction: the opcode byte and then its operands,
 advancing the program counter. It shares no decoder with the verifier.
 */
module Fetch {
  import opened Wrappers
  import opened Words
  import opened Bytecode
  import opened Program
  import opened Decoder

  datatype Operand =
    | NoOperand
    | Immediate(v: i32)
    | Index(i: nat)
    | IndexDelta(i: nat, d: i32)
    | Offset(o: i32)
    | Table(default: i32, low: i32, high: i32, offsets: seq<i32>)
    | Lookup(default: i32, pairs: seq<(i32, i32)>)

  /** An instruction about to execute: the program counter already points past it. */
  datatype Fetched = Fetched(op: Opcode, arg: Operand, next: nat)

  type FetchResult = Result<Fetched, Fault>

  function FetchU8(code: seq<byte>, pc: nat, op: Opcode): FetchResult {
    match U8(code, pc) case None => Err(UnexpectedEof) case Some(i) => Ok(Fetched(op, Index(i), pc + 1))
  }

  function FetchU16(code: seq<byte>, pc: nat, op: Opcode): FetchResult {
    match U16(code, pc) case None => Err(UnexpectedEof) case Some(i) => Ok(Fetched(op, Index(i), pc + 2))
  }

  function FetchI8(code: seq<byte>, pc: nat, op: Opcode): FetchResult {
    match U8(code, pc) case None => Err(UnexpectedEof) case Some(b) => Ok(Fetched(op, Immediate(Signed8(b)), pc + 1))
  }

  function FetchI16(code: seq<byte>, pc: nat, op: Opcode): FetchResult {
    match I16(code, pc) case None => Err(UnexpectedEof) case Some(v) => Ok(Fetched(op, Immediate(v), pc + 2))
  }

  function FetchShortOffset(code: seq<byte>, pc: nat, op: Opcode): FetchResult {
    match I16(code, pc) case None => Err(UnexpectedEof) case Some(o) => Ok(Fetched(op, Offset(o), pc + 2))
  }

  function FetchLongOffset(code: seq<byte>, pc: nat, op: Opcode): FetchResult {
    match I32(code, pc) case None => Err(UnexpectedEof) case Some(o) => Ok(Fetched(op, Offset(o), pc + 4))
  }

  /** The offsets of a switch's entries; None when the code ends before the last one. */
  function OffsetRun(code: seq<byte>, pos: nat, keyed: bool, count: nat): (r: Option<seq<i32>>)
    ensures r.Some? <==> forall k :: 0 <= k < count ==> OffsetAt(code, pos, keyed, k).Some?
    ensures r.Some? ==> |r.value| == count
    ensures r.Some? ==> forall k :: 0 <= k < count ==> Some(r.value[k]) == OffsetAt(code, pos, keyed, k)
  {
    if forall k :: 0 <= k < count ==> OffsetAt(code, pos, keyed, k).Some?
    then Some(seq(count, k requires 0 <= k < count => OffsetAt(code, pos, keyed, k).value))
    else None
  }

  function FetchIncrement(code: seq<byte>, pc: nat): FetchResult {
    if pc + 1 >= |code| then Err(UnexpectedEof)
    else Ok(Fetched(Iinc, IndexDelta(code[pc], Signed8(code[pc + 1])), pc + 2))
  }

  /** Offsets of a tableswitch; the count is computed in 32 bits and a negative one cannot be allocated. */
  function FetchTable(code: seq<byte>, pc: nat): (r: FetchResult)
    ensures r.Ok? ==> r.value.op == Tableswitch
  {
    var pos := Aligned(pc);
    if pos + 11 >= |code| then Err(UnexpectedEof)
    else
      var default, low, high := I32(code, pos).value, I32(code, pos + 4).value, I32(code, pos + 8).value;
      var count: int := (high as int) - low + 1;
      if count < 0 || count >= 0x8000_0000 then Err(Panicked)
      else match OffsetRun(code, pos + 12, false, count)
        case None => Err(UnexpectedEof)
        case Some(offsets) => Ok(Fetched(Tableswitch, Table(default, low, high, offsets), pos + 12 + 4 * count))
  }

  function FetchLookup(code: seq<byte>, pc: nat): (r: FetchResult)
    ensures r.Ok? ==> r.value.op == Lookupswitch
  {
    var pos := Aligned(pc);
    if pos + 7 >= |code| then Err(UnexpectedEof)
    else
      var default := I32(code, pos).value;
      var count: int := I32(code, pos + 4).value;
      if count < 0 then Err(Panicked)
      else match OffsetRun(code, pos + 8, true, count)
        case None => Err(UnexpectedEof)
        case Some(_) =>
          var pairs := seq(count, k requires 0 <= k < count => PairAt(code, pos + 8, k));
          Ok(Fetched(Lookupswitch, Lookup(default, pairs), pos + 8 + 8 * count))
  }

  /** The k-th key and offset of a lookupswitch. */
  function PairAt(code: seq<byte>, pos: nat, k: nat): (i32, i32)
    requires OffsetAt(code, pos, true, k).Some?
  {
    (I32(code, OffsetPos(pos, true, k) - 4).value, OffsetAt(code, pos, true, k).value)
  }

  /** A wide prefix covers loads, stores, iinc and ret; anything else stops the interpreter. */
  predicate WideAllowed(op: Opcode) {
    op.Load? || op.Store? || op.Iinc? || op.Ret?
  }

  function FetchWide(code: seq<byte>, pc: nat): (r: FetchResult)
    ensures r.Ok? ==> WideAllowed(r.value.op)
  {
    if pc >= |code| then Err(UnexpectedEof)
    else match FromByte(code[pc])
      case None => Err(InvalidOpcode)
      case Some(inner) =>
        match U16(code, pc + 1)
        case None => Err(UnexpectedEof)
        case Some(i) =>
          if !WideAllowed(inner) then Err(InvalidOpcode)
          else if !inner.Iinc? then Ok(Fetched(inner, Index(i), pc + 3))
          else match I16(code, pc + 3)
            case None => Err(UnexpectedEof)
            case Some(d) => Ok(Fetched(Iinc, IndexDelta(i, d), pc + 5))
  }

  /** The instructions this interpreter model executes. */
  predicate Modelled(op: Opcode) {
    !(op.ArrayLoad? || op.ArrayStore? || op.Convert? || op.Wide? ||
      op.Getstatic? || op.Putstatic? || op.Getfield? || op.Putfield? ||
      op.Invokevirtual? || op.Invokespecial? || op.Invokeinterface? || op.Invokedynamic? ||
      op.New? || op.Newarray? || op.Anewarray? || op.Multianewarray? || op.Arraylength? ||
      op.Checkcast? || op.Instanceof? || op.Monitorenter? || op.Monitorexit?)
  }

  /** How the operands of an opcode are encoded. */
  datatype Shape =
    | Bare | Byte | Short | ByteIndex | ShortIndex | Slot(n: nat) | Increment
    | ShortOffset | LongOffset | TableShape | LookupShape | WideShape | Foreign

  function ShapeOf(op: Opcode): Shape {
    if op.Bipush? then Byte
    else if op.Sipush? then Short
    else if op.Ldc? || op.Load? || op.Store? || op.Ret? then ByteIndex
    else if op.LdcW? || op.Ldc2W? || op.Invokestatic? then ShortIndex
    else if op.LoadN? || op.StoreN? then Slot(op.slot)
    else if op.Iinc? then Increment
    else if op.If? || op.IfIcmp? || op.IfAcmp? || op.IfNull? || op.Goto? || op.Jsr? then ShortOffset
    else if op.GotoW? || op.JsrW? then LongOffset
    else if op.Tableswitch? then TableShape
    else if op.Lookupswitch? then LookupShape
    else if op.Wide? then WideShape
    else if Modelled(op) then Bare
    else Foreign
  }

  predicate ShapeFits(s: Shape, arg: Operand) {
    match s
    case Bare => arg.NoOperand?
    case Byte => arg.Immediate? case Short => arg.Immediate?
    case ByteIndex => arg.Index? case ShortIndex => arg.Index? case Slot(_) => arg.Index?
    case Increment => arg.IndexDelta?
    case ShortOffset => arg.Offset? case LongOffset => arg.Offset?
    case TableShape => arg.Table? && |arg.offsets| == arg.high as int - arg.low + 1
    case LookupShape => arg.Lookup?
    case WideShape => false case Foreign => false
  }

  predicate Fits(x: Fetched) {
    WellKinded(x.op) && ShapeFits(ShapeOf(x.op), x.arg)
  }

  /** Reads the instruction at pc. */
  function FetchAt(code: seq<byte>, pc: nat): (r: FetchResult)
    ensures r.Ok? ==> Fits(r.value)
  {
    if pc >= |code| then Err(UnexpectedEof)
    else match FromByte(code[pc])
      case None => Err(InvalidOpcode)
      case Some(op) =>
        FromByteWellKinded(code[pc]);
        FetchOperands(code, pc + 1, op)
  }

  function FetchOperands(code: seq<byte>, pc: nat, op: Opcode): (r: FetchResult)
    requires WellKinded(op)
    ensures r.Ok? ==> Fits(r.value)
  {
    match ShapeOf(op)
    case Bare => Ok(Fetched(op, NoOperand, pc))
    case Byte => FetchI8(code, pc, op)
    case Short => FetchI16(code, pc, op)
    case ByteIndex => FetchU8(code, pc, op)
    case ShortIndex => FetchU16(code, pc, op)
    case Slot(n) => Ok(Fetched(op, Index(n), pc))
    case Increment => FetchIncrement(code, pc)
    case ShortOffset => FetchShortOffset(code, pc, op)
    case LongOffset => FetchLongOffset(code, pc, op)
    case TableShape => FetchTable(code, pc)
    case LookupShape => FetchLookup(code, pc)
    case WideShape => FetchWide(code, pc)
    case Foreign => Err(Unmodelled)
  }

  /** The shapes that belong to a single opcode. */
  lemma {:induction false} ShapesOfOne(op: Opcode)
    ensures ShapeOf(op).Increment? ==> op == Iinc
    ensures ShapeOf(op).TableShape? ==> op == Tableswitch
    ensures ShapeOf(op).LookupShape? ==> op == Lookupswitch
    ensures ShapeOf(op).WideShape? ==> op == Wide
  {
  }

  lemma {:induction false} ForeignStops(code: seq<byte>, pc: nat, op: Opcode)
    requires WellKinded(op)
    ensures ShapeOf(op).Foreign? ==> FetchOperands(code, pc, op) == Err(Unmodelled)
  {
    hide ShapeOf;
  }

  lemma {:induction false} UnprefixedOpcode(code: seq<byte>, pc: nat, op: Opcode)
    requires WellKinded(op) && !op.Wide? && FetchOperands(code, pc, op).Ok?
    ensures FetchOperands(code, pc, op).value.op == op
  {
    ShapesOfOne(op);
    hide ShapeOf, FetchTable, FetchLookup, FetchWide, U8, U16, I16, I32, Fits, Signed8;
  }

  lemma {:induction false} PrefixedOpcode(code: seq<byte>, pc: nat)
    requires FetchOperands(code, pc, Wide).Ok?
    ensures WideAllowed(FetchOperands(code, pc, Wide).value.op)
  {
    hide FetchWide;
  }

  /** Only a wide prefix changes the opcode, and then to a load, a store, iinc or ret. */
  lemma {:induction false} FetchedOpcode(code: seq<byte>, pc: nat, op: Opcode)
    requires WellKinded(op) && FetchOperands(code, pc, op).Ok?
    ensures !op.Wide? ==> FetchOperands(code, pc, op).value.op == op
    ensures op.Wide? ==> WideAllowed(FetchOperands(code, pc, op).value.op)
  {
    hide FetchOperands;
    if op.Wide? {
      PrefixedOpcode(code, pc);
    } else {
      UnprefixedOpcode(code, pc, op);
    }
  }

  /** Conditions on the code that the verifier does not check but the interpreter relies on. */
  predicate OperandsUsable(code: seq<byte>, pc: nat) {
    match U8(code, pc)
    case None => true
    case Some(b) => FromByte(b).Some? ==> OpUsable(code, pc, FromByte(b).value)
  }

  predicate OpUsable(code: seq<byte>, pc: nat, op: Opcode) {
    if op.Wide? then
      pc + 1 < |code| && FromByte(code[pc + 1]).Some? && WideAllowed(FromByte(code[pc + 1]).value)
    else if op.Tableswitch? then TableNotBackward(code, Aligned(pc + 1))
    else Modelled(op)
  }

  /** A tableswitch's bounds leave a count that is not negative. */
  predicate TableNotBackward(code: seq<byte>, pos: nat) {
    pos + 11 < |code| ==> I32(code, pos + 4).value as int <= I32(code, pos + 8).value + 1
  }

  /** What the interpreter read is what the verifier decoded. */
  ghost predicate SameInstruction(pc: nat, insn: Insn, x: Fetched) {
    && x.op == insn.op
    && x.next == insn.next
    && match x.arg
       case NoOperand => insn.targets == []
       case Immediate(_) => insn.targets == []
       case Index(i) => insn.targets == [] && (if x.op.Ldc? || x.op.LdcW? || x.op.Ldc2W? || x.op.Invokestatic?
                        then insn.cp == Some(i) else insn.local == Some(i))
       case IndexDelta(i, d) => insn.targets == [] && insn.local == Some(i) && insn.delta == Some(d)
       case Offset(o) => insn.targets == [pc + o]
       case Table(default, _, _, offsets) =>
         && |insn.targets| == 1 + |offsets| && insn.targets[0] == pc + default
         && forall k :: 0 <= k < |offsets| ==> insn.targets[1 + k] == pc + offsets[k]
       case Lookup(default, pairs) =>
         && |insn.targets| == 1 + |pairs| && insn.targets[0] == pc + default
         && forall k :: 0 <= k < |pairs| ==> insn.targets[1 + k] == pc + pairs[k].1
  }

  lemma {:induction false} SwitchReadable(code: seq<byte>, pc: nat, pos: nat, keyed: bool, count: nat)
    requires SwitchTargets(code, pc, pos, keyed, count).Some?
    ensures OffsetRun(code, pos, keyed, count).Some?
  {
    forall k | 0 <= k < count ensures OffsetAt(code, pos, keyed, k).Some? {
      assert SwitchTarget(code, pc, pos, keyed, k).Some?;
    }
  }

  lemma {:induction false} TableAgrees(code: seq<byte>, pc: nat)
    requires DecodeTableswitch(code, pc).Some? && TableNotBackward(code, Aligned(pc + 1))
    requires DecodeTableswitch(code, pc).value.next <= |code|
    requires |code| < 0x8000_0000
    ensures FetchTable(code, pc + 1).Ok?
    ensures SameInstruction(pc, DecodeTableswitch(code, pc).value, FetchTable(code, pc + 1).value)
  {
    hide I32, Aligned, SwitchTargets, OffsetRun;
    var pos := Aligned(pc + 1);
    var low: int, high: int := I32(code, pos + 4).value, I32(code, pos + 8).value;
    var count: nat := if low <= high then high - low + 1 else 0;
    assert high - low + 1 == count;
    SwitchReadable(code, pc, pos + 12, false, count);
    var insn := DecodeTableswitch(code, pc).value;
    var offsets := FetchTable(code, pc + 1).value.arg.offsets;
    forall k | 0 <= k < count ensures insn.targets[1 + k] == pc + offsets[k] {
      assert Some(insn.targets[1 + k]) == SwitchTarget(code, pc, pos + 12, false, k);
    }
  }

  lemma {:induction false} LookupAgrees(code: seq<byte>, pc: nat)
    requires DecodeLookupswitch(code, pc).Some?
    ensures FetchLookup(code, pc + 1).Ok?
    ensures SameInstruction(pc, DecodeLookupswitch(code, pc).value, FetchLookup(code, pc + 1).value)
  {
    hide I32, Aligned, SwitchTargets, OffsetRun;
    var pos := Aligned(pc + 1);
    var count: nat := I32(code, pos + 4).value;
    SwitchReadable(code, pc, pos + 8, true, count);
    var insn := DecodeLookupswitch(code, pc).value;
    var pairs := FetchLookup(code, pc + 1).value.arg.pairs;
    forall k | 0 <= k < count ensures insn.targets[1 + k] == pc + pairs[k].1 {
      assert Some(insn.targets[1 + k]) == SwitchTarget(code, pc, pos + 8, true, k);
    }
  }

  lemma {:induction false} WideAgrees(code: seq<byte>, pc: nat)
    requires DecodeWide(code, pc).Some?
    requires FromByte(code[pc + 1]).Some? && WideAllowed(FromByte(code[pc + 1]).value)
    ensures FetchWide(code, pc + 1).Ok?
    ensures SameInstruction(pc, DecodeWide(code, pc).value, FetchWide(code, pc + 1).value)
  {
  }

  lemma {:induction false} BranchAgrees(code: seq<byte>, pc: nat, op: Opcode)
    requires WellKinded(op) && HasShortBranch(op) && Target16(code, pc, pc + 1).Some?
    ensures FetchOperands(code, pc + 1, op).Ok?
    ensures SameInstruction(pc, Plain(pc, pc + 3, op).(targets := [Target16(code, pc, pc + 1).value]),
                            FetchOperands(code, pc + 1, op).value)
  {
    assert ShapeOf(op).ShortOffset?;
    hide ShapeOf, HasShortBranch, FetchTable, FetchLookup, FetchWide;
  }

  lemma {:induction false} PoolAgrees(code: seq<byte>, pc: nat, op: Opcode)
    requires WellKinded(op) && HasPoolIndex(op) && Modelled(op) && U16(code, pc + 1).Some?
    ensures FetchOperands(code, pc + 1, op).Ok?
    ensures SameInstruction(pc, Plain(pc, pc + 3, op).(cp := Some(U16(code, pc + 1).value)),
                            FetchOperands(code, pc + 1, op).value)
  {
    assert op.LdcW? || op.Ldc2W? || op.Invokestatic?;
    assert ShapeOf(op).ShortIndex?;
    hide ShapeOf, HasPoolIndex, Modelled, FetchTable, FetchLookup, FetchWide;
  }

  predicate HasByteIndex(op: Opcode) {
    op.Ldc? || op.Load? || op.Store? || op.Ret?
  }

  lemma {:induction false} ByteIndexAgrees(code: seq<byte>, pc: nat, op: Opcode)
    requires pc < |code| && WellKinded(op) && HasByteIndex(op)
    requires DecodeOther(code, pc, op).Some?
    ensures FetchOperands(code, pc + 1, op).Ok?
    ensures SameInstruction(pc, DecodeOther(code, pc, op).value, FetchOperands(code, pc + 1, op).value)
  {
    hide FromByte, DecodeWide, DecodeTableswitch, DecodeLookupswitch, FetchTable, FetchLookup, FetchWide;
  }

  lemma {:induction false} ImmediateAgrees(code: seq<byte>, pc: nat, op: Opcode)
    requires pc < |code| && WellKinded(op) && (op.Bipush? || op.Sipush?)
    requires DecodeOther(code, pc, op).Some?
    ensures FetchOperands(code, pc + 1, op).Ok?
    ensures SameInstruction(pc, DecodeOther(code, pc, op).value, FetchOperands(code, pc + 1, op).value)
  {
    hide FromByte, DecodeWide, DecodeTableswitch, DecodeLookupswitch, FetchTable, FetchLookup, FetchWide, Signed8, Signed16;
  }

  lemma {:induction false} IincAgrees(code: seq<byte>, pc: nat, op: Opcode)
    requires pc < |code| && WellKinded(op) && (op.Iinc?)
    requires DecodeOther(code, pc, op).Some?
    ensures FetchOperands(code, pc + 1, op).Ok?
    ensures SameInstruction(pc, DecodeOther(code, pc, op).value, FetchOperands(code, pc + 1, op).value)
  {
    hide FromByte, DecodeWide, DecodeTableswitch, DecodeLookupswitch, FetchTable, FetchLookup, FetchWide, Signed8;
  }

  lemma {:induction false} LongBranchAgrees(code: seq<byte>, pc: nat, op: Opcode)
    requires pc < |code| && WellKinded(op) && (op.GotoW? || op.JsrW?)
    requires DecodeOther(code, pc, op).Some?
    ensures FetchOperands(code, pc + 1, op).Ok?
    ensures SameInstruction(pc, DecodeOther(code, pc, op).value, FetchOperands(code, pc + 1, op).value)
  {
    hide FromByte, DecodeWide, DecodeTableswitch, DecodeLookupswitch, FetchTable, FetchLookup, FetchWide, Signed8, Signed32;
  }

  lemma {:induction false} OtherOperandAgrees(code: seq<byte>, pc: nat, op: Opcode)
    requires pc < |code| && WellKinded(op) && (op.Bipush? || op.Sipush? || op.Iinc? || op.GotoW? || op.JsrW?)
    requires DecodeOther(code, pc, op).Some?
    ensures FetchOperands(code, pc + 1, op).Ok?
    ensures SameInstruction(pc, DecodeOther(code, pc, op).value, FetchOperands(code, pc + 1, op).value)
  {
    hide DecodeOther, FetchOperands, SameInstruction;
    if op.Bipush? || op.Sipush? {
      ImmediateAgrees(code, pc, op);
    } else if op.Iinc? {
      IincAgrees(code, pc, op);
    } else {
      LongBranchAgrees(code, pc, op);
    }
  }

  lemma {:induction false} BareAgrees(code: seq<byte>, pc: nat, op: Opcode)
    requires pc < |code| && WellKinded(op) && (ShapeOf(op).Bare? || ShapeOf(op).Slot?)
    ensures DecodeOther(code, pc, op).Some? && FetchOperands(code, pc + 1, op).Ok?
    ensures SameInstruction(pc, DecodeOther(code, pc, op).value, FetchOperands(code, pc + 1, op).value)
  {
    hide FromByte, DecodeWide, DecodeTableswitch, DecodeLookupswitch, FetchTable, FetchLookup, FetchWide;
  }

  lemma {:induction false} PlainAgrees(code: seq<byte>, pc: nat, op: Opcode)
    requires pc < |code| && WellKinded(op) && Modelled(op) && !HasShortBranch(op) && !HasPoolIndex(op)
    requires !op.Tableswitch? && !op.Lookupswitch? && !op.Wide?
    requires DecodeOther(code, pc, op).Some?
    ensures FetchOperands(code, pc + 1, op).Ok?
    ensures SameInstruction(pc, DecodeOther(code, pc, op).value, FetchOperands(code, pc + 1, op).value)
  {
    hide DecodeOther, FetchOperands, SameInstruction;
    if HasByteIndex(op) {
      ByteIndexAgrees(code, pc, op);
    } else if ShapeOf(op).Bare? || ShapeOf(op).Slot? {
      BareAgrees(code, pc, op);
    } else {
      OtherOperandAgrees(code, pc, op);
    }
  }

  lemma {:induction false} OtherAgrees(code: seq<byte>, pc: nat, op: Opcode)
    requires pc < |code| && WellKinded(op) && !HasShortBranch(op) && !HasPoolIndex(op)
    requires DecodeOther(code, pc, op).Some? && DecodeOther(code, pc, op).value.next <= |code|
    requires OpUsable(code, pc, op) && |code| < 0x8000_0000
    ensures FetchOperands(code, pc + 1, op).Ok?
    ensures SameInstruction(pc, DecodeOther(code, pc, op).value, FetchOperands(code, pc + 1, op).value)
  {
    hide FetchTable, FetchLookup, FetchWide, DecodeWide, DecodeTableswitch, DecodeLookupswitch;
    if op.Tableswitch? {
      TableAgrees(code, pc);
    } else if op.Lookupswitch? {
      LookupAgrees(code, pc);
    } else if op.Wide? {
      WideAgrees(code, pc);
    } else {
      PlainAgrees(code, pc, op);
    }
  }

  /**
   The two decoders agree: whatever the verifier decoded, the interpreter reads the same
   operands, ends at the same next offset and finds its jumps among the verified targets.
   */
  lemma {:induction false} DecodersAgree(code: seq<byte>, pc: nat)
    requires Decode(code, pc).Some? && Decode(code, pc).value.next <= |code|
    requires OperandsUsable(code, pc)
    requires |code| < 0x8000_0000
    ensures FetchAt(code, pc).Ok?
    ensures SameInstruction(pc, Decode(code, pc).value, FetchAt(code, pc).value)
  {
    var op :| FromByte(code[pc]) == Some(op);
    OpcodeAgrees(code, pc, op);
  }

  lemma {:induction false} OpcodeAgrees(code: seq<byte>, pc: nat, op: Opcode)
    requires pc < |code| && FromByte(code[pc]) == Some(op)
    requires Decode(code, pc).Some? && Decode(code, pc).value.next <= |code|
    requires OpUsable(code, pc, op)
    requires |code| < 0x8000_0000
    ensures WellKinded(op)
    ensures FetchOperands(code, pc + 1, op).Ok?
    ensures SameInstruction(pc, Decode(code, pc).value, FetchOperands(code, pc + 1, op).value)
  {
    hide DecodeOther, FetchOperands;
    FromByteWellKinded(code[pc]);
    if HasShortBranch(op) {
      BranchAgrees(code, pc, op);
    } else if HasPoolIndex(op) {
      PoolAgrees(code, pc, op);
    } else {
      OtherAgrees(code, pc, op);
    }
  }

  /** What the two readers make of a switch. */
  lemma {:induction false} TableReaders(code: seq<byte>, pc: nat)
    requires pc < |code| && FromByte(code[pc]) == Some(Tableswitch)
    ensures Decode(code, pc) == DecodeTableswitch(code, pc)
    ensures FetchAt(code, pc) == FetchTable(code, pc + 1)
    ensures OperandsUsable(code, pc) <==> TableNotBackward(code, Aligned(pc + 1))
  {
    hide FromByte, DecodeTableswitch, FetchTable, TableNotBackward, Aligned;
    assert FetchOperands(code, pc + 1, Tableswitch) == FetchTable(code, pc + 1);
  }

  lemma {:induction false} TableRefused(code: seq<byte>, pc: nat)
    requires pc < |code| && FromByte(code[pc]) == Some(Tableswitch)
    requires Decode(code, pc).Some? && !OperandsUsable(code, pc)
    ensures FetchAt(code, pc) == Err(Panicked)
  {
    TableReaders(code, pc);
    hide FromByte, Decode, FetchAt, OperandsUsable, Target32, SwitchTargets, OffsetRun;
  }

  /** What the two readers make of a wide prefix. */
  lemma {:induction false} WideReaders(code: seq<byte>, pc: nat)
    requires pc < |code| && FromByte(code[pc]) == Some(Wide)
    ensures Decode(code, pc) == DecodeWide(code, pc)
    ensures FetchAt(code, pc) == FetchWide(code, pc + 1)
    ensures OperandsUsable(code, pc) <==>
              pc + 1 < |code| && FromByte(code[pc + 1]).Some? && WideAllowed(FromByte(code[pc + 1]).value)
  {
    hide FromByte, DecodeWide, FetchWide;
    assert FetchOperands(code, pc + 1, Wide) == FetchWide(code, pc + 1);
  }

  lemma {:induction false} WideRefused(code: seq<byte>, pc: nat)
    requires pc < |code| && FromByte(code[pc]) == Some(Wide)
    requires Decode(code, pc).Some? && !OperandsUsable(code, pc)
    ensures FetchAt(code, pc) == Err(InvalidOpcode)
  {
    WideReaders(code, pc);
    hide FromByte, Decode, FetchAt, OperandsUsable;
  }

  lemma {:induction false} ForeignRefused(code: seq<byte>, pc: nat, op: Opcode)
    requires pc < |code| && FromByte(code[pc]) == Some(op) && !op.Tableswitch? && !op.Wide? && !Modelled(op)
    ensures FetchAt(code, pc) == Err(Unmodelled)
  {
    hide FromByte;
    FromByteWellKinded(code[pc]);
    assert ShapeOf(op).Foreign?;
    hide ShapeOf;
    ForeignStops(code, pc + 1, op);
  }

  /**
   The condition is exact: what the verifier decoded, the interpreter can read if and only
   if its operands are usable, whatever the opcode.
   */
  lemma {:induction false} ReadableIff(code: seq<byte>, pc: nat)
    requires Decode(code, pc).Some? && Decode(code, pc).value.next <= |code| < 0x8000_0000
    ensures FetchAt(code, pc).Ok? <==> OperandsUsable(code, pc)
  {
    assert pc < |code| && FromByte(code[pc]).Some?;
    hide Decode, FetchAt, FromByte;
    var op := FromByte(code[pc]).value;
    if OperandsUsable(code, pc) {
      DecodersAgree(code, pc);
    } else if op.Tableswitch? {
      TableRefused(code, pc);
    } else if op.Wide? {
      WideRefused(code, pc);
    } else {
      ForeignRefused(code, pc, op);
    }
  }
}
