/**
 Preservation and progress for one frame: where the verifier accepts an instruction and
 the frame conforms, executing the bytes raises no VM error, ends at a verified successor,
 and leaves a frame that conforms to the verifier's state after the instruction.
 */
module FrameSoundness {
  import opened Wrappers
  import opened Words
  import opened Bytecode
  import opened Program
  import opened VerifyTypes
  import opened Descriptors
  import opened Decoder
  import opened Transfer
  import opened Fetch
  import opened Machine
  import opened Conformance
  import opened InstructionFacts

  /** A program counter the verifier let flow on from the instruction. */
  ghost predicate IsSuccessor(insn: Insn, after: FrameState, pc: nat) {
    || (HasFallthrough(insn.op) && pc == insn.next)
    || pc in insn.targets
    || (insn.op.Ret? && RetTarget(insn, after) == Some(pc))
  }

  /** A result the soundness theorem allows: a conforming frame at a successor, or an exception. */
  ghost predicate Sound(r: FrameResult, f: FrameV, insn: Insn, after: FrameState, n: nat) {
    && Fine(r, f, after, n)
    && (r.Ok? ==> IsSuccessor(insn, after, r.value.pc))
    && (r.Err? ==> CanRaise(insn.op))
  }

  /** Heap references among a method's constants are valid in a heap of n objects. */
  ghost predicate ConstantsValid(m: Method, n: nat) {
    forall i :: 0 <= i < |m.constants| ==> ConstantValid(m.constants[i], n)
  }

  predicate ConstantValid(o: Option<Value>, n: nat) {
    o.Some? && o.value.RefValue? && o.value.r.Heap? ==> o.value.r.index < n
  }

  /** The frame with its top k values dropped, and the state that describes it. */
  function Dropped(f: FrameV, k: nat): FrameV
    requires k <= |f.stack|
  {
    f.(stack := f.stack[..|f.stack| - k])
  }

  function DroppedState(s: FrameState, k: nat): FrameState
    requires k <= |s.stack|
  {
    s.(stack := s.stack[..|s.stack| - k])
  }

  /** A conditional jump over k operands. */
  lemma {:induction false} JumpSound(
      f: FrameV, k: nat, at: nat, taken: bool, offset: int, insn: Insn, after: FrameState, n: nat)
    requires k <= |f.stack| && FrameConforms(Dropped(f, k), after, n) && f.pc == insn.next && HasFallthrough(insn.op)
    requires at + offset in insn.targets && at + offset < |f.m.code|
    ensures Sound(JumpIf(Dropped(f, k), at, taken, offset), f, insn, after, n)
  {
  }

  lemma {:induction false} IfSound(f: FrameV, at: nat, x: Fetched, insn: Insn, s: FrameState, n: nat)
    requires x.op == insn.op && x.op.If? && x.arg.Offset? && f.pc == insn.next
    requires at + x.arg.o in insn.targets && at + x.arg.o < |f.m.code|
    requires FrameConforms(f, s, n) && NeedsMet(s.stack, [Assign(Int)])
    ensures Sound(ExecBranch(f, at, x), f, insn, DroppedState(s, 1), n)
  {
    var needs := [Assign(Int)];
    assert Meets(needs[0], Peek(s.stack, 0));
    PeekConforms(f, s, 0, n);
    DropConforms(f, s, 1, n);
    var v := f.stack[|f.stack| - 1].i;
    JumpSound(f, 1, at, Holds(x.op.c, v, 0), x.arg.o, insn, DroppedState(s, 1), n);
  }

  lemma {:induction false} IfIcmpSound(f: FrameV, at: nat, x: Fetched, insn: Insn, s: FrameState, n: nat)
    requires x.op == insn.op && x.op.IfIcmp? && x.arg.Offset? && f.pc == insn.next
    requires at + x.arg.o in insn.targets && at + x.arg.o < |f.m.code|
    requires FrameConforms(f, s, n) && NeedsMet(s.stack, [Assign(Int), Assign(Int)])
    ensures Sound(ExecBranch(f, at, x), f, insn, DroppedState(s, 2), n)
  {
    hide JumpIf;
    var needs := [Assign(Int), Assign(Int)];
    assert Meets(needs[0], Peek(s.stack, 0)) && Meets(needs[1], Peek(s.stack, 1));
    PeekConforms(f, s, 0, n);
    PeekConforms(f, s, 1, n);
    DropConforms(f, s, 2, n);
    DropTwice(f.stack);
    var b, a := f.stack[|f.stack| - 1].i, f.stack[|f.stack| - 2].i;
    assert ExecBranch(f, at, x) == JumpIf(Dropped(f, 2), at, Holds(x.op.c, a, b), x.arg.o);
    hide ExecBranch, Sound;
    JumpSound(f, 2, at, Holds(x.op.c, a, b), x.arg.o, insn, DroppedState(s, 2), n);
  }

  lemma {:induction false} IfNullSound(f: FrameV, at: nat, x: Fetched, insn: Insn, s: FrameState, n: nat)
    requires x.op == insn.op && x.op.IfNull? && x.arg.Offset? && f.pc == insn.next
    requires at + x.arg.o in insn.targets && at + x.arg.o < |f.m.code|
    requires FrameConforms(f, s, n) && NeedsMet(s.stack, [RefLike])
    ensures Sound(ExecBranch(f, at, x), f, insn, DroppedState(s, 1), n)
  {
    hide JumpIf;
    var needs := [RefLike];
    assert Meets(needs[0], Peek(s.stack, 0));
    PeekConforms(f, s, 0, n);
    DropConforms(f, s, 1, n);
    var r := f.stack[|f.stack| - 1].r;
    JumpSound(f, 1, at, r.Null? == x.op.eq, x.arg.o, insn, DroppedState(s, 1), n);
  }

  lemma {:induction false} IfAcmpSound(f: FrameV, at: nat, x: Fetched, insn: Insn, s: FrameState, n: nat)
    requires x.op == insn.op && x.op.IfAcmp? && x.arg.Offset? && f.pc == insn.next
    requires at + x.arg.o in insn.targets && at + x.arg.o < |f.m.code|
    requires FrameConforms(f, s, n) && NeedsMet(s.stack, [RefLike, RefLike])
    ensures Sound(ExecBranch(f, at, x), f, insn, DroppedState(s, 2), n)
  {
    hide JumpIf;
    var needs := [RefLike, RefLike];
    assert Meets(needs[0], Peek(s.stack, 0)) && Meets(needs[1], Peek(s.stack, 1));
    PeekConforms(f, s, 0, n);
    PeekConforms(f, s, 1, n);
    DropConforms(f, s, 2, n);
    DropTwice(f.stack);
    var b, a := f.stack[|f.stack| - 1].r, f.stack[|f.stack| - 2].r;
    assert ExecBranch(f, at, x) == JumpIf(Dropped(f, 2), at, (a == b) == x.op.eq, x.arg.o);
    hide ExecBranch, Sound;
    JumpSound(f, 2, at, (a == b) == x.op.eq, x.arg.o, insn, DroppedState(s, 2), n);
  }

  lemma {:induction false} GotoSound(f: FrameV, at: nat, x: Fetched, insn: Insn, s: FrameState, n: nat)
    requires x.op == insn.op && (x.op.Goto? || x.op.GotoW?) && x.arg.Offset? && f.pc == insn.next
    requires at + x.arg.o in insn.targets && at + x.arg.o < |f.m.code|
    requires FrameConforms(f, s, n)
    ensures Sound(ExecBranch(f, at, x), f, insn, s, n)
  {
  }

  lemma {:induction false} JsrSound(f: FrameV, at: nat, x: Fetched, insn: Insn, s: FrameState, n: nat)
    requires x.op == insn.op && (x.op.Jsr? || x.op.JsrW?) && x.arg.Offset? && f.pc == insn.next
    requires at + x.arg.o in insn.targets && at + x.arg.o < |f.m.code|
    requires FrameConforms(f, s, n) && |s.stack| < f.m.maxStack
    ensures Sound(ExecBranch(f, at, x), f, insn, s.(stack := s.stack + [ReturnAddress(insn.next)]), n)
  {
    PushFine(f, AddressValue(f.pc), s, ReturnAddress(insn.next), n);
  }

  /** Whatever the key, the switch takes one of the targets the verifier listed. */
  lemma {:induction false} SwitchTargetListed(at: nat, x: Fetched, insn: Insn, v: i32)
    requires SameInstruction(at, insn, x) && Fits(x) && (x.op.Tableswitch? || x.op.Lookupswitch?)
    ensures at + SwitchOffset(x.arg, v) in insn.targets
  {
    if x.op.Tableswitch? {
      assert insn.targets[if x.arg.low <= v <= x.arg.high then 1 + (v - x.arg.low) else 0] in insn.targets;
    } else {
      LookupOffsetListed(x.arg.pairs, v, x.arg.default);
      if LookupOffset(x.arg.pairs, v, x.arg.default) == x.arg.default {
        assert insn.targets[0] in insn.targets;
      } else {
        var k :| 0 <= k < |x.arg.pairs| && x.arg.pairs[k].1 == LookupOffset(x.arg.pairs, v, x.arg.default);
        assert insn.targets[1 + k] in insn.targets;
      }
    }
  }

  lemma {:induction false} SwitchSound(f: FrameV, at: nat, x: Fetched, insn: Insn, s: FrameState, n: nat)
    requires SameInstruction(at, insn, x) && Fits(x) && (x.op.Tableswitch? || x.op.Lookupswitch?)
    requires f.pc == insn.next && forall t :: t in insn.targets ==> t < |f.m.code|
    requires FrameConforms(f, s, n) && NeedsMet(s.stack, [Assign(Int)])
    ensures Sound(ExecSwitch(f, at, x), f, insn, s.(stack := s.stack[..|s.stack| - 1]), n)
  {
    var needs := [Assign(Int)];
    assert Meets(needs[0], Peek(s.stack, 0));
    PeekConforms(f, s, 0, n);
    DropConforms(f, s, 1, n);
    hide SwitchOffset, SameInstruction;
    SwitchTargetListed(at, x, insn, f.stack[|f.stack| - 1].i);
  }

  lemma {:induction false} OffsetListed(f: FrameV, at: nat, x: Fetched, insn: Insn)
    requires SameInstruction(at, insn, x) && x.arg.Offset? && forall t :: t in insn.targets ==> t < |f.m.code|
    ensures at + x.arg.o in insn.targets && 0 <= at + x.arg.o < |f.m.code|
  {
    assert insn.targets[0] == at + x.arg.o;
  }

  lemma {:induction false} RetSound(f: FrameV, insn: Insn, s: FrameState, n: nat)
    requires insn.op.Ret? && FrameConforms(f, s, n)
    requires RetTarget(insn, s).Some? && RetTarget(insn, s).value < |f.m.code|
    ensures Sound(ExecRet(f, insn.local.value), f, insn, s, n)
  {
    var i := insn.local.value;
    assert SlotConforms(f.locals[i], s.locals[i], n);
  }

  lemma {:induction false} LdcSound(f: FrameV, index: nat, s: FrameState, n: nat)
    requires FrameConforms(f, s, n) && ConstantsValid(f.m, n) && !IsCondy(f.m, index)
    requires ConstantSignature(f.m, index).Some? && |s.stack| < f.m.maxStack
    ensures FineHere(ExecLdc(f, index), f, s.(stack := s.stack + ConstantSignature(f.m, index).value.pushes), n)
  {
    var v := Entry(f.m.constants, index).value;
    assert ConstantValid(f.m.constants[index], n);
    PushFine(f, v, s, TypeOfValue(v), n);
  }

  predicate IsImmediate(op: Opcode) {
    op.AconstNull? || op.Const? || op.Bipush? || op.Sipush?
  }

  predicate IsArithmetic(op: Opcode) {
    op.Binary? || op.Neg? || op.Lcmp? || op.FloatCmp?
  }

  lemma {:induction false} ImmediateSound(
      ops: FloatOps, f: FrameV, at: nat, x: Fetched, m: Method, insn: Insn, sig: Signature, s: FrameState, n: nat)
    requires Fits(x) && x.op == insn.op && IsImmediate(insn.op)
    requires f.m == m && f.pc == insn.next && FrameConforms(f, s, n)
    requires UniformSignature(m, insn) == Some(sig)
    requires ApplySignature(s.stack, sig, m.maxStack).Some?
    ensures FineHere(ExecFrame(ops, f, at, x), f,
                     s.(stack := ApplySignature(s.stack, sig, m.maxStack).value), n)
    ensures ExecFrame(ops, f, at, x).Ok?
  {
    assert s.stack[..|s.stack|] == s.stack;
    var op := insn.op;
    if op.AconstNull? {
      PushFine(f, RefValue(Reference.Null), s, VerifyType.Null, n);
    } else if op.Const? {
      PushFine(f, ConstValue(op.k, op.n), s, KindType(op.k), n);
    } else {
      PushFine(f, IntValue(x.arg.v), s, Int, n);
    }
  }

  lemma {:induction false} ArithmeticSignature(m: Method, insn: Insn)
    requires IsArithmetic(insn.op)
    ensures IsUniform(insn.op)
    ensures var op := insn.op;
            && (op.Binary? ==>
                  var shift := op.k.KLong? && (op.op.Shl? || op.op.Shr? || op.op.Ushr?);
                  UniformSignature(m, insn) ==
                  Some(Signature([if shift then Assign(Int) else Assign(KindType(op.k)), Assign(KindType(op.k))],
                                 [KindType(op.k)])))
            && (op.Neg? ==> UniformSignature(m, insn) == Some(Signature([Assign(KindType(op.k))], [KindType(op.k)])))
            && (op.Lcmp? ==> UniformSignature(m, insn) == Some(Signature([Assign(Long), Assign(Long)], [Int])))
            && (op.FloatCmp? ==>
                  UniformSignature(m, insn) == Some(Signature([Assign(KindType(op.k)), Assign(KindType(op.k))], [Int])))
  {
  }

  lemma {:induction false} ArithmeticAction(ops: FloatOps, f: FrameV, at: nat, x: Fetched)
    requires Fits(x) && IsArithmetic(x.op)
    ensures var op := x.op;
            && (op.Binary? ==> ExecFrame(ops, f, at, x) == ExecBinary(ops, f, op.k, op.op))
            && (op.Neg? ==> ExecFrame(ops, f, at, x) == ExecNeg(ops, f, op.k))
            && (op.Lcmp? ==> ExecFrame(ops, f, at, x) == ExecLcmp(f))
            && (op.FloatCmp? ==> ExecFrame(ops, f, at, x) == ExecFloatCmp(ops, f, op.k, op.greaterOnNaN))
  {
    hide ExecBinary, ExecNeg, ExecLcmp, ExecFloatCmp;
  }

  lemma {:induction false} ArithmeticSound(
      ops: FloatOps, f: FrameV, at: nat, x: Fetched, m: Method, insn: Insn, sig: Signature, s: FrameState, n: nat)
    requires Fits(x) && x.op == insn.op && IsArithmetic(insn.op)
    requires f.m == m && f.pc == insn.next && FrameConforms(f, s, n)
    requires UniformSignature(m, insn) == Some(sig)
    requires ApplySignature(s.stack, sig, m.maxStack).Some?
    ensures FineHere(ExecFrame(ops, f, at, x), f,
                     s.(stack := ApplySignature(s.stack, sig, m.maxStack).value), n)
    ensures ExecFrame(ops, f, at, x).Err? ==> CanRaise(insn.op)
  {
    hide UniformSignature, ExecFrame, ExecBinary, ExecNeg, ExecLcmp, ExecFloatCmp, ShapeOf;
    var op := insn.op;
    ArithmeticSignature(m, insn);
    ArithmeticAction(ops, f, at, x);
    if op.Binary? {
      BinaryFine(ops, f, op.k, op.op, s, sig, n);
    } else if op.Neg? {
      NegFine(ops, f, op.k, s, n);
    } else if op.Lcmp? {
      LcmpFine(f, s, n);
    } else {
      FloatCmpFine(ops, f, op.k, op.greaterOnNaN, s, n);
    }
  }

  lemma {:induction false} ConditionalSound(
      f: FrameV, at: nat, x: Fetched, m: Method, insn: Insn, sig: Signature, s: FrameState, n: nat)
    requires SameInstruction(at, insn, x) && x.arg.Offset?
    requires insn.op.If? || insn.op.IfIcmp? || insn.op.IfNull? || insn.op.IfAcmp?
    requires f.m == m && f.pc == insn.next && FrameConforms(f, s, n)
    requires UniformSignature(m, insn) == Some(sig) && ApplySignature(s.stack, sig, m.maxStack).Some?
    requires forall t :: t in insn.targets ==> t < |m.code|
    ensures Sound(ExecBranch(f, at, x), f, insn, s.(stack := ApplySignature(s.stack, sig, m.maxStack).value), n)
  {
    OffsetListed(f, at, x, insn);
    if insn.op.If? {
      IfSound(f, at, x, insn, s, n);
    } else if insn.op.IfIcmp? {
      IfIcmpSound(f, at, x, insn, s, n);
    } else if insn.op.IfNull? {
      IfNullSound(f, at, x, insn, s, n);
    } else {
      IfAcmpSound(f, at, x, insn, s, n);
    }
  }

  lemma {:induction false} UnconditionalSound(
      f: FrameV, at: nat, x: Fetched, m: Method, insn: Insn, sig: Signature, s: FrameState, n: nat)
    requires SameInstruction(at, insn, x) && x.arg.Offset?
    requires insn.op.Goto? || insn.op.GotoW? || insn.op.Jsr? || insn.op.JsrW?
    requires f.m == m && f.pc == insn.next && FrameConforms(f, s, n)
    requires UniformSignature(m, insn) == Some(sig) && ApplySignature(s.stack, sig, m.maxStack).Some?
    requires forall t :: t in insn.targets ==> t < |m.code|
    ensures Sound(ExecBranch(f, at, x), f, insn, s.(stack := ApplySignature(s.stack, sig, m.maxStack).value), n)
  {
    assert s.stack[..|s.stack|] == s.stack;
    OffsetListed(f, at, x, insn);
    if insn.op.Goto? || insn.op.GotoW? {
      GotoSound(f, at, x, insn, s, n);
    } else {
      JsrSound(f, at, x, insn, s, n);
    }
  }

  predicate IsLdc(op: Opcode) {
    op.Ldc? || op.LdcW? || op.Ldc2W?
  }

  lemma {:induction false} LdcInstructionSound(
      f: FrameV, i: nat, m: Method, insn: Insn, sig: Signature, s: FrameState, n: nat)
    requires IsLdc(insn.op) && insn.cp == Some(i) && f.m == m && FrameConforms(f, s, n)
    requires UniformSignature(m, insn) == Some(sig) && ApplySignature(s.stack, sig, m.maxStack).Some?
    requires ConstantsValid(m, n) && !IsCondy(m, i)
    ensures ExecLdc(f, i).Ok?
    ensures FineHere(ExecLdc(f, i), f, s.(stack := ApplySignature(s.stack, sig, m.maxStack).value), n)
  {
    assert s.stack[..|s.stack|] == s.stack;
    LdcSound(f, i, s, n);
  }

  lemma {:induction false} SwitchInstructionSound(
      f: FrameV, at: nat, x: Fetched, m: Method, insn: Insn, sig: Signature, s: FrameState, n: nat)
    requires Fits(x) && SameInstruction(at, insn, x) && (insn.op.Tableswitch? || insn.op.Lookupswitch?)
    requires f.m == m && f.pc == insn.next && FrameConforms(f, s, n)
    requires UniformSignature(m, insn) == Some(sig) && ApplySignature(s.stack, sig, m.maxStack).Some?
    requires forall t :: t in insn.targets ==> t < |m.code|
    ensures Sound(ExecSwitch(f, at, x), f, insn, s.(stack := ApplySignature(s.stack, sig, m.maxStack).value), n)
  {
    assert sig == Signature([Assign(Int)], []);
    SwitchSound(f, at, x, insn, s, n);
  }

  /** The soundness of the instructions the verifier treats by a fixed signature. */
  lemma {:induction false} UniformSound(
      ops: FloatOps, f: FrameV, at: nat, x: Fetched, m: Method, insn: Insn, sig: Signature, s: FrameState, n: nat)
    requires Fits(x) && SameInstruction(at, insn, x) && IsUniform(insn.op) && !ActsOnStack(insn.op)
    requires f.m == m && f.pc == insn.next && FrameConforms(f, s, n)
    requires UniformSignature(m, insn) == Some(sig) && ApplySignature(s.stack, sig, m.maxStack).Some?
    requires forall t :: t in insn.targets ==> t < |m.code|
    requires ConstantsValid(m, n)
    requires IsLdc(insn.op) && insn.cp.Some? ==> !IsCondy(m, insn.cp.value)
    ensures Sound(ExecFrame(ops, f, at, x), f, insn,
                  s.(stack := ApplySignature(s.stack, sig, m.maxStack).value), n)
  {
    hide ExecBranch, ExecSwitch, ExecLdc, ExecBare, UniformSignature, FrameConforms;
    var op := insn.op;
    match x.arg {
      case Offset(_) =>
        if op.Goto? || op.GotoW? || op.Jsr? || op.JsrW? {
          UnconditionalSound(f, at, x, m, insn, sig, s, n);
        } else {
          ConditionalSound(f, at, x, m, insn, sig, s, n);
        }
      case Table(_, _, _, _) => SwitchInstructionSound(f, at, x, m, insn, sig, s, n);
      case Lookup(_, _) => SwitchInstructionSound(f, at, x, m, insn, sig, s, n);
      case Index(i) => LdcInstructionSound(f, i, m, insn, sig, s, n);
      case _ =>
        if IsArithmetic(op) {
          ArithmeticSound(ops, f, at, x, m, insn, sig, s, n);
        } else {
          ImmediateSound(ops, f, at, x, m, insn, sig, s, n);
        }
    }
  }

  /** The soundness of the instructions whose effect depends on more than a signature. */
  lemma {:induction false} StatefulSound(
      ops: FloatOps, f: FrameV, at: nat, x: Fetched, m: Method, insn: Insn, s: FrameState, n: nat)
    requires Fits(x) && SameInstruction(at, insn, x) && !ActsOnStack(insn.op) && !IsUniform(insn.op)
    requires f.m == m && f.pc == insn.next && FrameConforms(f, s, n)
    requires Apply(m, insn, s).Some?
    requires insn.op.Ret? && RetTarget(insn, s).Some? ==> RetTarget(insn, s).value < |m.code|
    ensures Sound(ExecFrame(ops, f, at, x), f, insn, Apply(m, insn, s).value, n)
  {
    hide ExecBranch, ExecSwitch, ExecLdc, UniformSignature, FrameConforms, ApplyInvokespecial, LoadLocal;
    hide ApplyLoad, ApplyStore, ApplyShuffle, CanReturn, ParseMethodDescriptor;
    if insn.op.Load? || insn.op.LoadN? {
      LoadFine(f, m, insn, s, n);
    } else if insn.op.Store? || insn.op.StoreN? {
      StoreFine(f, insn, s, n);
    } else if insn.op.Shuffle? {
      ShuffleFine(f, insn.op.s, s, n);
    } else if insn.op.Iinc? {
      IincFine(f, x.arg.i, x.arg.d, s, n);
    } else {
      RetSound(f, insn, s, n);
    }
  }

  /**
   Per-frame preservation and progress, over every instruction of the fragment that stays
   in its frame.
   */
  lemma {:induction false} InstructionSound(
      ops: FloatOps, f: FrameV, at: nat, x: Fetched, m: Method, insn: Insn, s: FrameState, n: nat)
    requires Fits(x) && SameInstruction(at, insn, x) && !ActsOnStack(insn.op)
    requires f.m == m && f.pc == insn.next && FrameConforms(f, s, n)
    requires Apply(m, insn, s).Some?
    requires forall t :: t in insn.targets ==> t < |m.code|
    requires insn.op.Ret? && RetTarget(insn, s).Some? ==> RetTarget(insn, s).value < |m.code|
    requires ConstantsValid(m, n)
    requires IsLdc(insn.op) && insn.cp.Some? ==> !IsCondy(m, insn.cp.value)
    ensures Sound(ExecFrame(ops, f, at, x), f, insn, Apply(m, insn, s).value, n)
  {
    hide UniformSignature, FrameConforms, ExecFrame, Sound;
    if IsUniform(insn.op) {
      UniformSound(ops, f, at, x, m, insn, UniformSignature(m, insn).value, s, n);
    } else {
      StatefulSound(ops, f, at, x, m, insn, s, n);
    }
  }
}
