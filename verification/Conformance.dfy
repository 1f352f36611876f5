/**
 When run-time values conform to verifier types, and that every instruction which
 stays in its frame takes a conforming frame to a conforming one.
 */
module Conformance {
  import opened Wrappers
  import opened Words
  import opened Bytecode
  import opened Program
  import opened VerifyTypes
  import opened Descriptors
  import opened Decoder
  import opened Transfer
  import opened Fetch
  import opened Machine

  /** A value fits a type, in a heap of n objects. */
  predicate ValueConforms(v: Value, t: VerifyType, n: nat) {
    match t
    case Top => true
    case Int => v.IntValue?
    case Long => v.LongValue?
    case Float => v.FloatValue?
    case Double => v.DoubleValue?
    case Null => v == RefValue(Reference.Null)
    case ReturnAddress(pc) => v == AddressValue(pc)
    case _ => v.RefValue? && (v.r.Heap? ==> v.r.index < n)
  }

  predicate SlotConforms(o: Option<Value>, t: VerifyType, n: nat) {
    t.Top? || (o.Some? && ValueConforms(o.value, t, n))
  }

  ghost predicate LocalsConform(locals: seq<Option<Value>>, types: seq<VerifyType>, n: nat) {
    |locals| == |types| && forall i :: 0 <= i < |locals| ==> SlotConforms(locals[i], types[i], n)
  }

  ghost predicate StackConforms(stack: seq<Value>, types: seq<VerifyType>, n: nat) {
    |stack| == |types| && forall i :: 0 <= i < |stack| ==> ValueConforms(stack[i], types[i], n) && types[i] != Top
  }

  /** The slot above a two-word value holds nothing. */
  ghost predicate ValuesGapped(locals: seq<Option<Value>>) {
    forall i :: 0 <= i < |locals| - 1 && IsWideSlot(locals[i]) ==> locals[i + 1].None?
  }

  ghost predicate FrameConforms(f: FrameV, s: FrameState, n: nat) {
    LocalsConform(f.locals, s.locals, n) && StackConforms(f.stack, s.stack, n) && ValuesGapped(f.locals)
  }

  lemma {:induction false} ValueConformsBelow(v: Value, a: VerifyType, b: VerifyType, n: nat)
    requires ValueConforms(v, a, n) && Below(a, b)
    ensures ValueConforms(v, b, n)
  {
  }

  /** A frame that conforms to a state conforms to every state above it. */
  lemma {:induction false} FrameConformsBelow(f: FrameV, s: FrameState, t: FrameState, n: nat)
    requires FrameConforms(f, s, n) && StateBelow(s, t)
    requires forall i :: 0 <= i < |t.stack| ==> t.stack[i] != Top
    ensures FrameConforms(f, t, n)
  {
    forall i | 0 <= i < |f.locals| ensures SlotConforms(f.locals[i], t.locals[i], n) {
      assert SlotConforms(f.locals[i], s.locals[i], n) && Below(s.locals[i], t.locals[i]);
    }
    forall i | 0 <= i < |f.stack| ensures ValueConforms(f.stack[i], t.stack[i], n) {
      ValueConformsBelow(f.stack[i], s.stack[i], t.stack[i], n);
    }
  }

  /** A frame result that raised no VM error and, if it is a frame, conforms to s. */
  ghost predicate Fine(r: FrameResult, f: FrameV, s: FrameState, n: nat) {
    match r
    case Ok(g) => g.m == f.m && FrameConforms(g, s, n)
    case Err(stop) => stop.Raise?
  }

  ghost predicate FineHere(r: FrameResult, f: FrameV, s: FrameState, n: nat) {
    Fine(r, f, s, n) && (r.Ok? ==> r.value.pc == f.pc)
  }

  lemma {:induction false} PushFine(f: FrameV, v: Value, s: FrameState, t: VerifyType, n: nat)
    requires FrameConforms(f, s, n) && ValueConforms(v, t, n) && t != Top
    requires |s.stack| < f.m.maxStack
    ensures Push(f, v).Ok? && FineHere(Push(f, v), f, s.(stack := s.stack + [t]), n)
  {
  }

  lemma {:induction false} DropConforms(f: FrameV, s: FrameState, k: nat, n: nat)
    requires FrameConforms(f, s, n) && k <= |s.stack|
    ensures FrameConforms(f.(stack := f.stack[..|f.stack| - k]), s.(stack := s.stack[..|s.stack| - k]), n)
  {
  }

  lemma {:induction false} PeekConforms(f: FrameV, s: FrameState, k: nat, n: nat)
    requires FrameConforms(f, s, n) && k < |s.stack|
    ensures ValueConforms(f.stack[|f.stack| - 1 - k], Peek(s.stack, k), n) && Peek(s.stack, k) != Top
  {
  }

  /** Popping one or two operands and pushing one result. */
  lemma {:induction false} ResultFine(f: FrameV, s: FrameState, k: nat, v: Value, t: VerifyType, n: nat)
    requires FrameConforms(f, s, n) && k <= |s.stack| && ValueConforms(v, t, n) && t != Top
    requires |s.stack| - k < f.m.maxStack
    ensures Push(f.(stack := f.stack[..|f.stack| - k]), v).Ok?
    ensures FineHere(Push(f.(stack := f.stack[..|f.stack| - k]), v), f,
                     s.(stack := s.stack[..|s.stack| - k] + [t]), n)
  {
    DropConforms(f, s, k, n);
    PushFine(f.(stack := f.stack[..|f.stack| - k]), v, s.(stack := s.stack[..|s.stack| - k]), t, n);
  }

  lemma {:induction false} DropTwice<T>(s: seq<T>)
    requires |s| >= 2
    ensures s[..|s| - 1][..|s| - 2] == s[..|s| - 2]
    ensures s[..|s| - 1][|s| - 2] == s[|s| - 2]
  {
  }

  /** The operands of a two-operand instruction, as the interpreter will pop them. */
  lemma {:induction false} BinaryOperands(f: FrameV, s: FrameState, sig: Signature, n: nat)
    requires FrameConforms(f, s, n) && |sig.needs| == 2 && |sig.pushes| == 1
    requires ApplySignature(s.stack, sig, f.m.maxStack).Some?
    ensures |f.stack| == |s.stack| >= 2 && |s.stack| - 2 < f.m.maxStack
    ensures ApplySignature(s.stack, sig, f.m.maxStack).value == s.stack[..|s.stack| - 2] + sig.pushes
    ensures Meets(sig.needs[0], Peek(s.stack, 0)) && Meets(sig.needs[1], Peek(s.stack, 1))
    ensures ValueConforms(f.stack[|f.stack| - 1], Peek(s.stack, 0), n)
    ensures ValueConforms(f.stack[|f.stack| - 2], Peek(s.stack, 1), n)
    ensures f.stack[..|f.stack| - 1][..|f.stack| - 2] == f.stack[..|f.stack| - 2]
  {
    assert Meets(sig.needs[0], Peek(s.stack, 0)) && Meets(sig.needs[1], Peek(s.stack, 1));
    PeekConforms(f, s, 0, n);
    PeekConforms(f, s, 1, n);
  }

  lemma {:induction false} BinaryFine(ops: FloatOps, f: FrameV, k: Kind, op: BinaryOp, s: FrameState, sig: Signature, n: nat)
    requires FrameConforms(f, s, n) && WellKinded(Binary(k, op))
    requires var shift := k.KLong? && (op.Shl? || op.Shr? || op.Ushr?);
             sig == Signature([if shift then Assign(Int) else Assign(KindType(k)), Assign(KindType(k))], [KindType(k)])
    requires ApplySignature(s.stack, sig, f.m.maxStack).Some?
    ensures FineHere(ExecBinary(ops, f, k, op), f, s.(stack := ApplySignature(s.stack, sig, f.m.maxStack).value), n)
    ensures ExecBinary(ops, f, k, op).Err? ==> CanRaise(Binary(k, op))
  {
    hide IntArith, LongArith, FrameConforms, ApplySignature, Peek;
    BinaryOperands(f, s, sig, n);
    var v1, v2 := f.stack[|f.stack| - 1], f.stack[|f.stack| - 2];
    match k {
      case KInt =>
        if !((op.Div? || op.Rem?) && v1.i == 0) {
          ResultFine(f, s, 2, IntValue(IntArith(op, v2.i, v1.i)), Int, n);
        }
      case KLong =>
        if op.Shl? || op.Shr? || op.Ushr? {
          ResultFine(f, s, 2, LongValue(LongArith(op, v2.l, v1.i)), Long, n);
        } else if !((op.Div? || op.Rem?) && v1.l == 0) {
          ResultFine(f, s, 2, LongValue(LongArith(op, v2.l, v1.l)), Long, n);
        }
      case KFloat => ResultFine(f, s, 2, FloatValue(ops.arith32(op, v2.f, v1.f)), Float, n);
      case KDouble => ResultFine(f, s, 2, DoubleValue(ops.arith64(op, v2.d, v1.d)), Double, n);
    }
  }

  lemma {:induction false} NegFine(ops: FloatOps, f: FrameV, k: Kind, s: FrameState, n: nat)
    requires FrameConforms(f, s, n) && !k.KRef?
    requires ApplySignature(s.stack, Signature([Assign(KindType(k))], [KindType(k)]), f.m.maxStack).Some?
    ensures ExecNeg(ops, f, k).Ok?
    ensures FineHere(ExecNeg(ops, f, k), f, s.(stack :=
              ApplySignature(s.stack, Signature([Assign(KindType(k))], [KindType(k)]), f.m.maxStack).value), n)
  {
    var sig := Signature([Assign(KindType(k))], [KindType(k)]);
    assert Meets(sig.needs[0], Peek(s.stack, 0));
    PeekConforms(f, s, 0, n);
    var v := f.stack[|f.stack| - 1];
    var w :=
      if k.KInt? then IntValue(Wrap32(0 - v.i))
      else if k.KLong? then LongValue(Wrap64(0 - v.l))
      else if k.KFloat? then FloatValue(ops.neg32(v.f))
      else DoubleValue(ops.neg64(v.d));
    ResultFine(f, s, 1, w, KindType(k), n);
  }

  /** The two operands of a comparison, as the interpreter will pop them. */
  lemma {:induction false} OperandsConform(f: FrameV, s: FrameState, t: VerifyType, n: nat)
    requires FrameConforms(f, s, n) && (t.Long? || t.Float? || t.Double?)
    requires NeedsMet(s.stack, [Assign(t), Assign(t)])
    ensures |f.stack| == |s.stack| >= 2
    ensures ValueConforms(f.stack[|f.stack| - 1], t, n) && ValueConforms(f.stack[|f.stack| - 2], t, n)
  {
    var needs := [Assign(t), Assign(t)];
    assert Meets(needs[0], Peek(s.stack, 0)) && Meets(needs[1], Peek(s.stack, 1));
    PeekConforms(f, s, 0, n);
    PeekConforms(f, s, 1, n);
  }

  lemma {:induction false} LcmpFine(f: FrameV, s: FrameState, n: nat)
    requires FrameConforms(f, s, n)
    requires ApplySignature(s.stack, Signature([Assign(Long), Assign(Long)], [Int]), f.m.maxStack).Some?
    ensures ExecLcmp(f).Ok?
    ensures FineHere(ExecLcmp(f), f, s.(stack := s.stack[..|s.stack| - 2] + [Int]), n)
  {
    OperandsConform(f, s, Long, n);
    DropTwice(f.stack);
    var b, a := f.stack[|f.stack| - 1].l, f.stack[|f.stack| - 2].l;
    ResultFine(f, s, 2, IntValue(Ordering(a < b, a == b, a > b, false)), Int, n);
  }

  lemma {:induction false} FloatCmpFine(ops: FloatOps, f: FrameV, k: Kind, g: bool, s: FrameState, n: nat)
    requires FrameConforms(f, s, n) && (k.KFloat? || k.KDouble?)
    requires ApplySignature(s.stack, Signature([Assign(KindType(k)), Assign(KindType(k))], [Int]), f.m.maxStack).Some?
    ensures ExecFloatCmp(ops, f, k, g).Ok?
    ensures FineHere(ExecFloatCmp(ops, f, k, g), f, s.(stack := s.stack[..|s.stack| - 2] + [Int]), n)
  {
    OperandsConform(f, s, KindType(k), n);
    DropTwice(f.stack);
    hide FrameConforms, Ordering;
    var b, a := f.stack[|f.stack| - 1], f.stack[|f.stack| - 2];
    if k.KFloat? {
      var result := Ordering(ops.less32(a.f, b.f), ops.equal32(a.f, b.f), ops.less32(b.f, a.f), g);
      ResultFine(f, s, 2, IntValue(result), Int, n);
    } else {
      var result := Ordering(ops.less64(a.d, b.d), ops.equal64(a.d, b.d), ops.less64(b.d, a.d), g);
      ResultFine(f, s, 2, IntValue(result), Int, n);
    }
  }

  // ----- Shuffles -----

  /** Wherever the verifier accepts a shuffle, the interpreter makes the same move. */
  lemma {:induction false} MovesAgree(op: ShuffleOp, w: seq<bool>)
    requires VerifierForm(op, w).Some?
    ensures InterpreterMove(op, w).Ok?
    ensures InterpreterMove(op, w).value == Move(VerifierForm(op, w).value.take, VerifierForm(op, w).value.put)
  {
  }

  lemma {:induction false} WidesConform(stack: seq<Value>, types: seq<VerifyType>, n: nat)
    requires StackConforms(stack, types, n)
    ensures ValueWides(stack) == Wides(types)
  {
    forall k | 0 <= k < |stack| ensures ValueWides(stack)[k] == Wides(types)[k] {
      var i := |stack| - 1 - k;
      assert Peek(types, k) == types[i];
      assert ValueConforms(stack[i], types[i], n) && types[i] != Top;
      assert IsWideValue(stack[i]) == IsWide(types[i]);
    }
  }

  /** Values put back as the verifier put back their types conform to them. */
  lemma {:induction false} PutConforms(f: FrameV, s: FrameState, form: Form, n: nat)
    requires FrameConforms(f, s, n) && form.take <= |s.stack| && FormOk(form)
    ensures StackConforms(PutValues(f.stack, Move(form.take, form.put)), Put(s.stack, form), n)
  {
    var vs, ts := PutValues(f.stack, Move(form.take, form.put)), Put(s.stack, form);
    forall k | 0 <= k < |vs| ensures ValueConforms(vs[k], ts[k], n) && ts[k] != Top {
      PeekConforms(f, s, form.put[k], n);
    }
  }

  lemma {:induction false} ShuffleFine(f: FrameV, op: ShuffleOp, s: FrameState, n: nat)
    requires FrameConforms(f, s, n) && ApplyShuffle(s.stack, op, f.m.maxStack).Some?
    ensures FineHere(ExecShuffle(f, op), f, s.(stack := ApplyShuffle(s.stack, op, f.m.maxStack).value), n)
  {
    hide VerifierForm, InterpreterMove, ValueConforms;
    WidesConform(f.stack, s.stack, n);
    MovesAgree(op, Wides(s.stack));
    var form := VerifierForm(op, Wides(s.stack)).value;
    DropConforms(f, s, form.take, n);
    PutConforms(f, s, form, n);
  }

  // ----- Locals -----

  /**
   Type-level stores simulate value-level ones. A slot the types call Top may hold a long;
   overwriting it then also empties the slot above, which is empty already.
   */
  lemma {:induction false} StoreConforms(
      locals: seq<Option<Value>>, types: seq<VerifyType>, i: nat, v: Value, t: VerifyType, n: nat)
    requires LocalsConform(locals, types, n) && ValuesGapped(locals)
    requires ValueConforms(v, t, n) && t != Top && StoreLocal(types, i, t).Some?
    ensures StoreValue(locals, i, v).Ok?
    ensures LocalsConform(StoreValue(locals, i, v).value, StoreLocal(types, i, t).value, n)
    ensures ValuesGapped(StoreValue(locals, i, v).value)
  {
    assert IsWideValue(v) == IsWide(t);
    var xs, ts := StoreValue(locals, i, v).value, StoreLocal(types, i, t).value;
    forall k | 0 <= k < |xs| ensures SlotConforms(xs[k], ts[k], n) {
      assert SlotConforms(locals[k], types[k], n);
      if k == i + 1 && IsWideSlot(locals[i]) {
        assert locals[k].None?;
      }
    }
  }

  lemma {:induction false} LoadFine(f: FrameV, m: Method, insn: Insn, s: FrameState, n: nat)
    requires insn.op.Load? || insn.op.LoadN?
    requires f.m == m && FrameConforms(f, s, n) && ApplyLoad(m, insn, s).Some?
    ensures FineHere(ExecLoad(f, insn.local.value), f, ApplyLoad(m, insn, s).value, n)
  {
    var i := insn.local.value;
    assert SlotConforms(f.locals[i], s.locals[i], n);
    PushFine(f, f.locals[i].value, s, StoredType(insn.op.k, s.locals[i]), n);
  }

  lemma {:induction false} StoreFine(f: FrameV, insn: Insn, s: FrameState, n: nat)
    requires insn.op.Store? || insn.op.StoreN?
    requires FrameConforms(f, s, n) && ApplyStore(insn, s).Some?
    ensures FineHere(ExecStore(f, insn.local.value), f, ApplyStore(insn, s).value, n)
  {
    PeekConforms(f, s, 0, n);
    DropConforms(f, s, 1, n);
    StoreConforms(f.locals, s.locals, insn.local.value, f.stack[|f.stack| - 1],
                  StoredType(insn.op.k, Peek(s.stack, 0)), n);
  }

  lemma {:induction false} IincFine(f: FrameV, i: nat, d: i32, s: FrameState, n: nat)
    requires FrameConforms(f, s, n) && LoadLocal(s.locals, i) == Some(Int)
    ensures FineHere(ExecIinc(f, i, d), f, s, n)
  {
    assert SlotConforms(f.locals[i], s.locals[i], n);
    var v := f.locals[i].value;
    var w := IntValue(Wrap32(v.i + d));
    var xs := StoreValue(f.locals, i, w).value;
    assert i > 0 ==> !IsWideSlot(f.locals[i - 1]);
    forall k | 0 <= k < |xs| ensures SlotConforms(xs[k], s.locals[k], n) {
      assert SlotConforms(f.locals[k], s.locals[k], n);
    }
  }
}
