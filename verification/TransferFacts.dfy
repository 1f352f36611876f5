/** What the verifier's transfer keeps, and that it is monotone away from constructor calls. */
module TransferFacts {
  import opened Wrappers
  import opened Bytecode
  import opened Program
  import opened VerifyTypes
  import opened Descriptors
  import opened Decoder
  import opened Transfer

  /** A handler frame holds one reference even in a method that declares no stack. */
  function StackBound(m: Method): nat {
    if m.maxStack == 0 then 1 else m.maxStack
  }

  ghost predicate NoTop(ts: seq<VerifyType>) {
    forall i :: 0 <= i < |ts| ==> ts[i] != Top
  }

  /** The upper half of every two-word local is unusable. */
  ghost predicate Gapped(ts: seq<VerifyType>) {
    forall i :: 0 <= i < |ts| - 1 && IsWide(ts[i]) ==> ts[i + 1] == Top
  }

  ghost predicate Shaped(m: Method, s: FrameState) {
    |s.locals| == m.maxLocals && |s.stack| <= StackBound(m) && NoTop(s.stack)
  }

  lemma {:induction false} UniformSignaturePushes(m: Method, insn: Insn)
    requires IsUniform(insn.op) && UniformSignature(m, insn).Some?
    ensures NoTop(UniformSignature(m, insn).value.pushes)
  {
    if insn.op.Getstatic? || insn.op.Putstatic? || insn.op.Getfield? || insn.op.Putfield? {
      ParseFieldAtType(Entry(m.fieldRefs, insn.cp.value).value.descriptor, 0);
    } else if insn.op.Invokestatic? || insn.op.Invokevirtual? || insn.op.Invokeinterface? {
      CallSignaturePushes(Entry(m.methodRefs, insn.cp.value).value.descriptor, []);
      CallSignaturePushes(Entry(m.methodRefs, insn.cp.value).value.descriptor, [RefLike]);
    } else if insn.op.Invokedynamic? {
      CallSignaturePushes(Entry(m.dynamicSites, insn.cp.value).value, []);
    }
  }

  lemma {:induction false} CallSignaturePushes(d: string, receiver: seq<Need>)
    ensures CallSignature(d, receiver).Some? ==> NoTop(CallSignature(d, receiver).value.pushes)
  {
    if ParseMethodDescriptor(d).Some? {
      ParsedTypesAreDescriptorTypes(d);
    }
  }

  lemma {:induction false} StoreLocalGapped(locals: seq<VerifyType>, index: nat, ty: VerifyType)
    requires Gapped(locals) && StoreLocal(locals, index, ty).Some?
    ensures Gapped(StoreLocal(locals, index, ty).value)
  {
  }

  lemma {:induction false} InvokespecialKeepsShape(m: Method, insn: Insn, s: FrameState)
    requires Shaped(m, s) && ApplyInvokespecial(m, insn, s).Some?
    ensures Shaped(m, ApplyInvokespecial(m, insn, s).value)
    ensures Gapped(s.locals) ==> Gapped(ApplyInvokespecial(m, insn, s).value.locals)
  {
    var d := Entry(m.methodRefs, insn.cp.value).value.descriptor;
    CallSignaturePushes(d, [RefLike]);
    ParsedTypesAreDescriptorTypes(d);
  }

  lemma {:induction false} SignatureKeepsStack(m: Method, stack: seq<VerifyType>, sig: Signature)
    requires |stack| <= StackBound(m) && NoTop(stack) && NoTop(sig.pushes)
    requires ApplySignature(stack, sig, m.maxStack).Some?
    ensures |ApplySignature(stack, sig, m.maxStack).value| <= StackBound(m)
    ensures NoTop(ApplySignature(stack, sig, m.maxStack).value)
  {
  }

  lemma {:induction false} ShuffleKeepsStack(m: Method, stack: seq<VerifyType>, op: ShuffleOp)
    requires |stack| <= StackBound(m) && NoTop(stack)
    requires ApplyShuffle(stack, op, m.maxStack).Some?
    ensures |ApplyShuffle(stack, op, m.maxStack).value| <= StackBound(m)
    ensures NoTop(ApplyShuffle(stack, op, m.maxStack).value)
  {
    var f := VerifierForm(op, Wides(stack)).value;
    assert NoTop(Put(stack, f));
  }

  lemma {:induction false} StoreKeepsShape(m: Method, insn: Insn, s: FrameState)
    requires insn.op.Store? || insn.op.StoreN?
    requires Shaped(m, s) && ApplyStore(insn, s).Some?
    ensures Shaped(m, ApplyStore(insn, s).value)
    ensures Gapped(s.locals) ==> Gapped(ApplyStore(insn, s).value.locals)
  {
    if Gapped(s.locals) {
      StoreLocalGapped(s.locals, insn.local.value, StoredType(insn.op.k, Peek(s.stack, 0)));
    }
  }

  /** One instruction keeps the frame's shape and the gaps behind two-word locals. */
  lemma {:induction false} ApplyKeepsShape(m: Method, insn: Insn, s: FrameState)
    requires Shaped(m, s) && Apply(m, insn, s).Some?
    ensures Shaped(m, Apply(m, insn, s).value)
    ensures Gapped(s.locals) ==> Gapped(Apply(m, insn, s).value.locals)
  {
    if IsUniform(insn.op) {
      UniformSignaturePushes(m, insn);
      SignatureKeepsStack(m, s.stack, UniformSignature(m, insn).value);
    } else if insn.op.Store? || insn.op.StoreN? {
      StoreKeepsShape(m, insn, s);
    } else if insn.op.Shuffle? {
      ShuffleKeepsStack(m, s.stack, insn.op.s);
    } else if insn.op.Invokespecial? {
      InvokespecialKeepsShape(m, insn, s);
    }
  }

  lemma {:induction false} HandlerFlowsShape(m: Method, hs: seq<Handler>, pc: nat, locals: seq<VerifyType>)
    requires |locals| == m.maxLocals
    ensures forall f :: f in HandlerFlows(hs, pc, locals) ==>
              Shaped(m, f.state) && f.state.locals == locals
    decreases |hs|
  {
    if hs != [] {
      HandlerFlowsShape(m, hs[1..], pc, locals);
    }
  }

  /** Every frame that flows from a well-shaped frame is well shaped. */
  lemma {:induction false} FlowsKeepShape(m: Method, insn: Insn, s: FrameState)
    requires Shaped(m, s) && Flows(m, insn, s).Some?
    ensures forall f :: f in Flows(m, insn, s).value ==> Shaped(m, f.state)
    ensures Gapped(s.locals) ==> forall f :: f in Flows(m, insn, s).value ==> Gapped(f.state.locals)
  {
    ApplyKeepsShape(m, insn, s);
    HandlerFlowsShape(m, m.handlers, insn.pc, s.locals);
  }

  lemma {:induction false} MergeKeepsShape(m: Method, a: FrameState, b: FrameState)
    requires Shaped(m, a) && Shaped(m, b) && MergeStates(a, b).Some?
    ensures Shaped(m, MergeStates(a, b).value)
    ensures Gapped(a.locals) && Gapped(b.locals) ==> Gapped(MergeStates(a, b).value.locals)
  {
    MergeStatesIsLeastUpperBound(a, b, a);
    var c := MergeStates(a, b).value;
    assert Padded(a.locals, m.maxLocals) == a.locals && Padded(b.locals, m.maxLocals) == b.locals;
    forall i | 0 <= i < |c.stack| ensures c.stack[i] != Top {
      assert MergeType(a.stack[i], b.stack[i]) == Some(c.stack[i]);
    }
    forall i | Gapped(a.locals) && Gapped(b.locals) && 0 <= i < |c.locals| - 1 && IsWide(c.locals[i])
      ensures c.locals[i + 1] == Top
    {
      assert MergeType(a.locals[i], b.locals[i]) == Some(c.locals[i]);
      assert MergeType(a.locals[i + 1], b.locals[i + 1]) == Some(c.locals[i + 1]);
    }
  }

  lemma {:induction false} PlaceParamsGapped(locals: seq<VerifyType>, index: nat, params: seq<VerifyType>)
    requires PlaceParams(locals, index, params).Some?
    requires forall i :: index <= i < |locals| ==> locals[i] == Top
    requires Gapped(locals) && (0 < index <= |locals| ==> !IsWide(locals[index - 1]))
    ensures Gapped(PlaceParams(locals, index, params).value)
    decreases |params|
  {
    if params != [] {
      var placed := locals[index := params[0]];
      if IsWide(params[0]) {
        PlaceParamsGapped(placed[index + 1 := Top], index + 2, params[1..]);
      } else {
        PlaceParamsGapped(placed, index + 1, params[1..]);
      }
    }
  }

  /** The entry frame is well shaped; without preloaded locals its two-word parameters have gaps. */
  lemma {:induction false} InitialFrameShape(m: Method)
    requires InitialFrame(m).Some?
    ensures Shaped(m, InitialFrame(m).value)
    ensures m.initialLocals == [] ==> Gapped(InitialFrame(m).value.locals)
  {
    if m.initialLocals == [] {
      var empty := seq(m.maxLocals, _ => Top);
      var start := if m.isStatic || m.maxLocals == 0 then empty else empty[0 := ThisType(m)];
      var params := ParseMethodDescriptor(m.descriptor).value.0;
      PlaceParamsGapped(start, if m.isStatic then 0 else 1, params);
      var locals := PlaceParams(start, if m.isStatic then 0 else 1, params).value;
      assert Overlay(locals, []) == locals;
    }
  }

  // ----- Monotonicity -----

  lemma {:induction false} MeetsMonotone(need: Need, a: VerifyType, b: VerifyType)
    requires Below(a, b) && b != Top && Meets(need, b)
    requires need.OneOf? ==> forall t :: t in need.ts ==> !t.Reference?
    ensures Meets(need, a)
  {
  }

  ghost predicate NeedsOk(needs: seq<Need>) {
    forall k :: 0 <= k < |needs| && needs[k].OneOf? ==> forall t :: t in needs[k].ts ==> !t.Reference?
  }

  lemma {:induction false} PeekBelow(a: seq<VerifyType>, b: seq<VerifyType>, k: nat)
    requires AllBelow(a, b) && k < |a|
    ensures Below(Peek(a, k), Peek(b, k))
  {
  }

  lemma {:induction false} SignatureMonotone(
      a: seq<VerifyType>, b: seq<VerifyType>, sig: Signature, maxStack: nat)
    requires AllBelow(a, b) && NoTop(b) && NeedsOk(sig.needs)
    requires ApplySignature(b, sig, maxStack).Some?
    ensures ApplySignature(a, sig, maxStack).Some?
    ensures AllBelow(ApplySignature(a, sig, maxStack).value, ApplySignature(b, sig, maxStack).value)
  {
    forall k | 0 <= k < |sig.needs| ensures Meets(sig.needs[k], Peek(a, k)) {
      PeekBelow(a, b, k);
      MeetsMonotone(sig.needs[k], Peek(a, k), Peek(b, k));
    }
  }

  lemma {:induction false} WidesMonotone(a: seq<VerifyType>, b: seq<VerifyType>)
    requires AllBelow(a, b) && NoTop(b)
    ensures Wides(a) == Wides(b)
  {
    forall k | 0 <= k < |a| ensures IsWide(Peek(a, k)) == IsWide(Peek(b, k)) {
      PeekBelow(a, b, k);
    }
  }

  lemma {:induction false} ShuffleMonotone(a: seq<VerifyType>, b: seq<VerifyType>, op: ShuffleOp, maxStack: nat)
    requires AllBelow(a, b) && NoTop(b)
    requires ApplyShuffle(b, op, maxStack).Some?
    ensures ApplyShuffle(a, op, maxStack).Some?
    ensures AllBelow(ApplyShuffle(a, op, maxStack).value, ApplyShuffle(b, op, maxStack).value)
  {
    WidesMonotone(a, b);
    var f := VerifierForm(op, Wides(b)).value;
    forall k | 0 <= k < |f.put| ensures Below(Put(a, f)[k], Put(b, f)[k]) {
      PeekBelow(a, b, f.put[k]);
    }
  }

  /** Storing is monotone because a two-word local is always followed by Top. */
  lemma {:induction false} StoreMonotone(a: seq<VerifyType>, b: seq<VerifyType>, i: nat, s: VerifyType, t: VerifyType)
    requires AllBelow(a, b) && Gapped(a) && Below(s, t) && t != Top
    requires StoreLocal(b, i, t).Some?
    ensures StoreLocal(a, i, s).Some?
    ensures AllBelow(StoreLocal(a, i, s).value, StoreLocal(b, i, t).value)
  {
    var x := StoreLocal(a, i, s).value;
    var y := StoreLocal(b, i, t).value;
    forall k | 0 <= k < |x| ensures Below(x[k], y[k]) {
      assert Below(a[k], b[k]);
      if k == i + 1 && IsWide(a[i]) {
        assert a[k] == Top;
      }
    }
  }

  lemma {:induction false} PoolNeedsOk(m: Method, insn: Insn)
    requires PoolSignature(m, insn).Some?
    ensures NeedsOk(PoolSignature(m, insn).value.needs)
  {
  }

  lemma {:induction false} UniformNeedsOk(m: Method, insn: Insn)
    requires IsUniform(insn.op) && UniformSignature(m, insn).Some?
    ensures NeedsOk(UniformSignature(m, insn).value.needs)
  {
    hide PoolSignature;
    if PoolSignature(m, insn).Some? {
      PoolNeedsOk(m, insn);
    }
  }

  lemma {:induction false} LoadMonotone(m: Method, insn: Insn, s: FrameState, t: FrameState)
    requires insn.op.Load? || insn.op.LoadN?
    requires StateBelow(s, t) && ApplyLoad(m, insn, t).Some?
    ensures ApplyLoad(m, insn, s).Some?
    ensures StateBelow(ApplyLoad(m, insn, s).value, ApplyLoad(m, insn, t).value)
  {
    var i := insn.local.value;
    assert Below(s.locals[i], t.locals[i]);
    MeetsMonotone(KindNeed(insn.op.k), s.locals[i], t.locals[i]);
  }

  lemma {:induction false} StoreStepMonotone(insn: Insn, s: FrameState, t: FrameState)
    requires insn.op.Store? || insn.op.StoreN?
    requires StateBelow(s, t) && NoTop(t.stack) && Gapped(s.locals) && ApplyStore(insn, t).Some?
    ensures ApplyStore(insn, s).Some?
    ensures StateBelow(ApplyStore(insn, s).value, ApplyStore(insn, t).value)
  {
    PeekBelow(s.stack, t.stack, 0);
    var k := insn.op.k;
    StoreMonotone(s.locals, t.locals, insn.local.value,
                  StoredType(k, Peek(s.stack, 0)), StoredType(k, Peek(t.stack, 0)));
  }

  /** A more precise frame before an instruction gives a more precise frame after it. */
  lemma {:induction false} ApplyMonotone(m: Method, insn: Insn, s: FrameState, t: FrameState)
    requires StateBelow(s, t) && NoTop(t.stack) && Gapped(s.locals)
    requires !IsConstructorCall(m, insn)
    requires Apply(m, insn, t).Some?
    ensures Apply(m, insn, s).Some?
    ensures StateBelow(Apply(m, insn, s).value, Apply(m, insn, t).value)
  {
    if IsUniform(insn.op) {
      UniformNeedsOk(m, insn);
      SignatureMonotone(s.stack, t.stack, UniformSignature(m, insn).value, m.maxStack);
    } else if insn.op.Load? || insn.op.LoadN? {
      LoadMonotone(m, insn, s, t);
    } else if insn.op.Store? || insn.op.StoreN? {
      StoreStepMonotone(insn, s, t);
    } else if insn.op.Shuffle? {
      ShuffleMonotone(s.stack, t.stack, insn.op.s, m.maxStack);
    } else if insn.op.Invokespecial? {
      SignatureMonotone(s.stack, t.stack, MethodSignature(m, insn.cp.value, [RefLike]).value, m.maxStack);
    } else if insn.op.Iinc? || insn.op.Ret? {
      assert Below(s.locals[insn.local.value], t.locals[insn.local.value]);
    } else if insn.op.TypedReturn? || insn.op.Athrow? {
      PeekBelow(s.stack, t.stack, 0);
    }
  }

  ghost predicate FlowsBelow(f: seq<Flow>, g: seq<Flow>) {
    |f| == |g| && forall k :: 0 <= k < |f| ==> f[k].to == g[k].to && StateBelow(f[k].state, g[k].state)
  }

  lemma {:induction false} HandlerFlowsMonotone(hs: seq<Handler>, pc: nat, a: seq<VerifyType>, b: seq<VerifyType>)
    requires AllBelow(a, b)
    ensures FlowsBelow(HandlerFlows(hs, pc, a), HandlerFlows(hs, pc, b))
    decreases |hs|
  {
    if hs != [] {
      HandlerFlowsMonotone(hs[1..], pc, a, b);
    }
  }

  lemma {:induction false} FlowsMonotone(m: Method, insn: Insn, s: FrameState, t: FrameState)
    requires StateBelow(s, t) && NoTop(t.stack) && Gapped(s.locals)
    requires !IsConstructorCall(m, insn)
    requires Flows(m, insn, t).Some?
    ensures Flows(m, insn, s).Some?
    ensures FlowsBelow(Flows(m, insn, s).value, Flows(m, insn, t).value)
  {
    ApplyMonotone(m, insn, s, t);
    HandlerFlowsMonotone(m.handlers, insn.pc, s.locals, t.locals);
    if insn.op.Ret? {
      assert Below(s.locals[insn.local.value], t.locals[insn.local.value]);
    }
  }
}
