/** The verifier's working frame, changed in place by each instruction. */
module AbstractFrames {
  import opened Wrappers
  import opened Bytecode
  import opened Program
  import opened VerifyTypes
  import opened Descriptors
  import opened DescriptorScanners
  import opened Decoder
  import opened Transfer

  class AbstractFrame {
    var locals: seq<VerifyType>
    var stack: seq<VerifyType>

    constructor (state: FrameState)
      ensures Contents() == state
    {
      locals := state.locals;
      stack := state.stack;
    }

    function Contents(): FrameState
      reads this
    {
      FrameState(locals, stack)
    }

    method Push(ty: VerifyType, maxStack: nat) returns (ok: bool)
      modifies this`stack
      ensures ok <==> old(|stack|) < maxStack
      ensures stack == if ok then old(stack) + [ty] else old(stack)
    {
      ok := |stack| < maxStack;
      if ok {
        stack := stack + [ty];
      }
    }

    method Pop() returns (ty: Option<VerifyType>)
      modifies this`stack
      ensures old(stack) == [] ==> ty.None? && stack == old(stack)
      ensures old(stack) != [] ==> ty == Some(Peek(old(stack), 0)) && stack == old(stack[..|stack| - 1])
    {
      if stack == [] {
        return None;
      }
      ty := Some(stack[|stack| - 1]);
      stack := stack[..|stack| - 1];
    }

    /** Pops operands, topmost first, checking each against what the instruction needs. */
    method PopAll(needs: seq<Need>) returns (ok: bool)
      modifies this`stack
      ensures ok <==> NeedsMet(old(stack), needs)
      ensures ok ==> stack == old(stack[..|stack| - |needs|])
    {
      var k := 0;
      while k < |needs|
        invariant k <= |needs| && k <= old(|stack|)
        invariant stack == old(stack)[..old(|stack|) - k]
        invariant forall j :: 0 <= j < k ==> Meets(needs[j], Peek(old(stack), j))
      {
        var ty := Pop();
        if ty.None? || !Meets(needs[k], ty.value) {
          assert old(|stack|) > k ==> !Meets(needs[k], Peek(old(stack), k));
          return false;
        }
        k := k + 1;
      }
      return true;
    }

    method PushEach(types: seq<VerifyType>, maxStack: nat) returns (ok: bool)
      modifies this`stack
      ensures ok <==> PushAll(old(stack), types, maxStack).Some?
      ensures ok ==> stack == PushAll(old(stack), types, maxStack).value
    {
      var k := 0;
      while k < |types|
        invariant k <= |types| && stack == old(stack) + types[..k]
        invariant k > 0 ==> old(|stack|) + k <= maxStack
      {
        ok := Push(types[k], maxStack);
        if !ok {
          return;
        }
        k := k + 1;
      }
      return true;
    }

    // ----- Shuffles: each value popped and checked, and pushed back, in turn -----

    method Discard2(maxStack: nat) returns (ok: bool)
      modifies this`stack
      ensures ok <==> ApplyShuffle(old(stack), Pop2, maxStack).Some?
      ensures ok ==> stack == ApplyShuffle(old(stack), Pop2, maxStack).value
    {
      var v1 := Pop();
      if v1.None? {
        return false;
      }
      if !IsWide(v1.value) {
        var v2 := Pop();
        if v2.None? || IsWide(v2.value) {
          return false;
        }
      }
      return true;
    }

    method Dup(maxStack: nat) returns (ok: bool)
      modifies this`stack
      ensures ok <==> ApplyShuffle(old(stack), ShuffleOp.Dup, maxStack).Some?
      ensures ok ==> stack == ApplyShuffle(old(stack), ShuffleOp.Dup, maxStack).value
    {
      var v1 := Pop();
      if v1.None? || IsWide(v1.value) {
        return false;
      }
      assert Put(old(stack), Form(1, [0, 0])) == [v1.value, v1.value];
      ok := PushEach([v1.value, v1.value], maxStack);
    }

    method DupX1(maxStack: nat) returns (ok: bool)
      modifies this`stack
      ensures ok <==> ApplyShuffle(old(stack), ShuffleOp.DupX1, maxStack).Some?
      ensures ok ==> stack == ApplyShuffle(old(stack), ShuffleOp.DupX1, maxStack).value
    {
      var v1 := Pop();
      var v2 := Pop();
      if v1.None? || v2.None? || IsWide(v1.value) || IsWide(v2.value) {
        return false;
      }
      assert Put(old(stack), Form(2, [0, 1, 0])) == [v1.value, v2.value, v1.value];
      ok := PushEach([v1.value, v2.value, v1.value], maxStack);
    }

    method DupX2(maxStack: nat) returns (ok: bool)
      modifies this`stack
      ensures ok <==> ApplyShuffle(old(stack), ShuffleOp.DupX2, maxStack).Some?
      ensures ok ==> stack == ApplyShuffle(old(stack), ShuffleOp.DupX2, maxStack).value
    {
      var v1 := Pop();
      if v1.None? || IsWide(v1.value) {
        return false;
      }
      var v2 := Pop();
      if v2.None? {
        return false;
      }
      if IsWide(v2.value) {
        assert Put(old(stack), Form(2, [0, 1, 0])) == [v1.value, v2.value, v1.value];
        ok := PushEach([v1.value, v2.value, v1.value], maxStack);
      } else {
        var v3 := Pop();
        if v3.None? || IsWide(v3.value) {
          return false;
        }
        assert Put(old(stack), Form(3, [0, 2, 1, 0])) == [v1.value, v3.value, v2.value, v1.value];
        ok := PushEach([v1.value, v3.value, v2.value, v1.value], maxStack);
      }
    }

    method Dup2(maxStack: nat) returns (ok: bool)
      modifies this`stack
      ensures ok <==> ApplyShuffle(old(stack), ShuffleOp.Dup2, maxStack).Some?
      ensures ok ==> stack == ApplyShuffle(old(stack), ShuffleOp.Dup2, maxStack).value
    {
      var v1 := Pop();
      if v1.None? {
        return false;
      }
      if IsWide(v1.value) {
        assert Put(old(stack), Form(1, [0, 0])) == [v1.value, v1.value];
        ok := PushEach([v1.value, v1.value], maxStack);
      } else {
        var v2 := Pop();
        if v2.None? || IsWide(v2.value) {
          return false;
        }
        assert Put(old(stack), Form(2, [1, 0, 1, 0])) == [v2.value, v1.value, v2.value, v1.value];
        ok := PushEach([v2.value, v1.value, v2.value, v1.value], maxStack);
      }
    }

    method Dup2X1(maxStack: nat) returns (ok: bool)
      modifies this`stack
      ensures ok <==> ApplyShuffle(old(stack), ShuffleOp.Dup2X1, maxStack).Some?
      ensures ok ==> stack == ApplyShuffle(old(stack), ShuffleOp.Dup2X1, maxStack).value
    {
      var v1 := Pop();
      var v2 := Pop();
      if v1.None? || v2.None? || IsWide(v2.value) {
        return false;
      }
      if IsWide(v1.value) {
        assert Put(old(stack), Form(2, [0, 1, 0])) == [v1.value, v2.value, v1.value];
        ok := PushEach([v1.value, v2.value, v1.value], maxStack);
      } else {
        var v3 := Pop();
        if v3.None? || IsWide(v3.value) {
          return false;
        }
        assert Put(old(stack), Form(3, [1, 0, 2, 1, 0])) == [v2.value, v1.value, v3.value, v2.value, v1.value];
        ok := PushEach([v2.value, v1.value, v3.value, v2.value, v1.value], maxStack);
      }
    }

    method Dup2X2(maxStack: nat) returns (ok: bool)
      modifies this`stack
      ensures ok <==> ApplyShuffle(old(stack), ShuffleOp.Dup2X2, maxStack).Some?
      ensures ok ==> stack == ApplyShuffle(old(stack), ShuffleOp.Dup2X2, maxStack).value
    {
      var v1 := Pop();
      var v2 := Pop();
      if v1.None? || v2.None? {
        return false;
      }
      if IsWide(v1.value) {
        ok := Dup2X2Wide(v1.value, v2.value, maxStack, old(stack));
      } else if IsWide(v2.value) {
        var v3 := Pop();
        if v3.None? || IsWide(v3.value) {
          return false;
        }
        assert Put(old(stack), Form(3, [1, 0, 2, 1, 0])) == [v2.value, v1.value, v3.value, v2.value, v1.value];
        ok := PushEach([v2.value, v1.value, v3.value, v2.value, v1.value], maxStack);
      } else {
        ok := Dup2X2Narrow(v1.value, v2.value, maxStack, old(stack));
      }
    }

    /** A two-word value on top of another one, or of two one-word values. */
    method Dup2X2Wide(v1: VerifyType, v2: VerifyType, maxStack: nat, ghost was: seq<VerifyType>) returns (ok: bool)
      requires |was| >= 2 && stack == was[..|was| - 2] && v1 == Peek(was, 0) && v2 == Peek(was, 1) && IsWide(v1)
      modifies this`stack
      ensures ok <==> ApplyShuffle(was, ShuffleOp.Dup2X2, maxStack).Some?
      ensures ok ==> stack == ApplyShuffle(was, ShuffleOp.Dup2X2, maxStack).value
    {
      if IsWide(v2) {
        assert Put(was, Form(2, [0, 1, 0])) == [v1, v2, v1];
        ok := PushEach([v1, v2, v1], maxStack);
      } else {
        var v3 := Pop();
        if v3.None? || IsWide(v3.value) {
          return false;
        }
        assert Put(was, Form(3, [0, 2, 1, 0])) == [v1, v3.value, v2, v1];
        ok := PushEach([v1, v3.value, v2, v1], maxStack);
      }
    }

    /** Two one-word values on top of two more. */
    method Dup2X2Narrow(v1: VerifyType, v2: VerifyType, maxStack: nat, ghost was: seq<VerifyType>) returns (ok: bool)
      requires |was| >= 2 && stack == was[..|was| - 2] && v1 == Peek(was, 0) && v2 == Peek(was, 1)
      requires !IsWide(v1) && !IsWide(v2)
      modifies this`stack
      ensures ok <==> ApplyShuffle(was, ShuffleOp.Dup2X2, maxStack).Some?
      ensures ok ==> stack == ApplyShuffle(was, ShuffleOp.Dup2X2, maxStack).value
    {
      var v3 := Pop();
      var v4 := Pop();
      if v3.None? || v4.None? || IsWide(v3.value) || IsWide(v4.value) {
        return false;
      }
      assert Put(was, Form(4, [1, 0, 3, 2, 1, 0])) == [v2, v1, v4.value, v3.value, v2, v1];
      ok := PushEach([v2, v1, v4.value, v3.value, v2, v1], maxStack);
    }

    method Swap(maxStack: nat) returns (ok: bool)
      modifies this`stack
      ensures ok <==> ApplyShuffle(old(stack), ShuffleOp.Swap, maxStack).Some?
      ensures ok ==> stack == ApplyShuffle(old(stack), ShuffleOp.Swap, maxStack).value
    {
      var v1 := Pop();
      var v2 := Pop();
      if v1.None? || v2.None? || IsWide(v1.value) || IsWide(v2.value) {
        return false;
      }
      assert Put(old(stack), Form(2, [0, 1])) == [v1.value, v2.value];
      ok := PushEach([v1.value, v2.value], maxStack);
    }

    method Rearrange(op: ShuffleOp, maxStack: nat) returns (ok: bool)
      modifies this`stack
      ensures ok <==> ApplyShuffle(old(stack), op, maxStack).Some?
      ensures ok ==> stack == ApplyShuffle(old(stack), op, maxStack).value
    {
      hide ApplyShuffle;
      match op {
        case Pop =>
          SingleFormOfPop(stack, maxStack);
          var v1 := Pop();
          ok := v1.Some?;
        case Pop2 => ok := Discard2(maxStack);
        case Dup => ok := Dup(maxStack);
        case DupX1 => ok := DupX1(maxStack);
        case DupX2 => ok := DupX2(maxStack);
        case Dup2 => ok := Dup2(maxStack);
        case Dup2X1 => ok := Dup2X1(maxStack);
        case Dup2X2 => ok := Dup2X2(maxStack);
        case Swap => ok := Swap(maxStack);
      }
    }

    static lemma {:induction false} SingleFormOfPop(stack: seq<VerifyType>, maxStack: nat)
      ensures ApplyShuffle(stack, ShuffleOp.Pop, maxStack) == if stack == [] then None else Some(stack[..|stack| - 1])
    {
    }

    method StoreLocal(index: nat, ty: VerifyType) returns (ok: bool)
      modifies this`locals
      ensures ok <==> Transfer.StoreLocal(old(locals), index, ty).Some?
      ensures ok ==> locals == Transfer.StoreLocal(old(locals), index, ty).value
    {
      if index >= |locals| {
        return false;
      }
      if index > 0 && IsWide(locals[index - 1]) {
        locals := locals[index - 1 := Top];
      }
      if IsWide(locals[index]) && index + 1 < |locals| {
        locals := locals[index + 1 := Top];
      }
      locals := locals[index := ty];
      if IsWide(ty) {
        if index + 1 >= |locals| {
          return false;
        }
        locals := locals[index + 1 := Top];
      }
      return true;
    }

    /** Every copy of an uninitialised reference becomes an instance of the class. */
    method InitializeUninitialized(from: VerifyType, className: string)
      modifies this
      ensures Contents() == FrameState(Initialized(old(locals), from, className), Initialized(old(stack), from, className))
    {
      locals := Replace(locals, from, className);
      stack := Replace(stack, from, className);
    }

    method Load(m: Method, insn: Insn) returns (ok: bool)
      requires insn.op.Load? || insn.op.LoadN?
      modifies this
      ensures ok <==> ApplyLoad(m, insn, old(Contents())).Some?
      ensures ok ==> Contents() == ApplyLoad(m, insn, old(Contents())).value
    {
      if insn.local.None? || LoadLocal(locals, insn.local.value).None? {
        return false;
      }
      var ty := LoadLocal(locals, insn.local.value).value;
      if !CanLoad(insn.op.k, ty) {
        return false;
      }
      ok := Push(StoredType(insn.op.k, ty), m.maxStack);
    }

    method Store(insn: Insn) returns (ok: bool)
      requires insn.op.Store? || insn.op.StoreN?
      modifies this
      ensures ok <==> ApplyStore(insn, old(Contents())).Some?
      ensures ok ==> Contents() == ApplyStore(insn, old(Contents())).value
    {
      if insn.local.None? {
        return false;
      }
      var ty := Pop();
      if ty.None? || !CanStore(insn.op.k, ty.value) {
        return false;
      }
      ok := StoreLocal(insn.local.value, StoredType(insn.op.k, ty.value));
    }

    method Invokespecial(m: Method, insn: Insn) returns (ok: bool)
      modifies this
      ensures ok <==> ApplyInvokespecial(m, insn, old(Contents())).Some?
      ensures ok ==> Contents() == ApplyInvokespecial(m, insn, old(Contents())).value
    {
      hide ParseMethodDescriptor;
      if insn.cp.None? || Entry(m.methodRefs, insn.cp.value).None? {
        return false;
      }
      var ref := Entry(m.methodRefs, insn.cp.value).value;
      var descriptor := ParseDescriptor(ref.descriptor);
      if descriptor.None? {
        return false;
      }
      var (params, ret) := descriptor.value;
      if !IsConstructorCall(m, insn) {
        ok := PopAll(ArgNeeds(params) + [RefLike]);
        if !ok {
          return;
        }
      } else {
        ok := PopAll(ArgNeeds(params));
        if !ok {
          return;
        }
        var receiver := Pop();
        if receiver.None? {
          return false;
        }
        if !(receiver.value.UninitializedThis? || receiver.value.Uninitialized? || receiver.value.Reference?) {
          return false;
        }
        InitializeUninitialized(receiver.value, ref.className);
      }
      ok := PushEach(if ret.Some? then [ret.value] else [], m.maxStack);
    }

    /** The effect of one instruction; false when the verifier rejects it. */
    method ApplyInstruction(m: Method, insn: Insn) returns (ok: bool)
      modifies this
      ensures ok <==> Apply(m, insn, old(Contents())).Some?
      ensures ok ==> Contents() == Apply(m, insn, old(Contents())).value
    {
      hide UniformSignature, ApplyShuffle, ApplyLoad, ApplyStore, ApplyInvokespecial, CanReturn, ParseMethodDescriptor;
      var descriptor := ParseDescriptor(m.descriptor);
      if descriptor.None? {
        return false;
      }
      if IsUniform(insn.op) {
        ok := ApplyUniform(m, insn);
      } else if insn.op.Load? || insn.op.LoadN? {
        ok := Load(m, insn);
      } else if insn.op.Store? || insn.op.StoreN? {
        ok := Store(insn);
      } else if insn.op.Shuffle? {
        ok := Rearrange(insn.op.s, m.maxStack);
      } else if insn.op.Invokespecial? {
        ok := Invokespecial(m, insn);
      } else {
        ok := Check(insn, descriptor.value.1);
      }
    }

    method ApplyUniform(m: Method, insn: Insn) returns (ok: bool)
      requires IsUniform(insn.op)
      modifies this
      ensures locals == old(locals)
      ensures ok <==> UniformSignature(m, insn).Some? &&
                      ApplySignature(old(stack), UniformSignature(m, insn).value, m.maxStack).Some?
      ensures ok ==> stack == ApplySignature(old(stack), UniformSignature(m, insn).value, m.maxStack).value
    {
      hide UniformSignature;
      var sig := UniformSignature(m, insn);
      if sig.None? {
        return false;
      }
      ok := PopAll(sig.value.needs);
      if ok {
        ok := PushEach(sig.value.pushes, m.maxStack);
      }
    }

    /** Instructions that check the frame and then leave it or end it. */
    method Check(insn: Insn, ret: Option<VerifyType>) returns (ok: bool)
      requires !IsUniform(insn.op) && !insn.op.Load? && !insn.op.LoadN? && !insn.op.Store? && !insn.op.StoreN?
      requires !insn.op.Shuffle? && !insn.op.Invokespecial?
      modifies this
      ensures ok <==>
                || (insn.op.Iinc? && insn.local.Some? && LoadLocal(old(locals), insn.local.value) == Some(Int))
                || (insn.op.Ret? && RetTarget(insn, old(Contents())).Some?)
                || (insn.op.TypedReturn? && old(stack) != [] && CanReturn(insn.op.k, Peek(old(stack), 0), ret))
                || (insn.op.Return? && ret.None?)
                || (insn.op.Athrow? && old(stack) != [] && IsRefLike(Peek(old(stack), 0)))
      ensures ok ==> locals == old(locals) && stack == if insn.op.Iinc? || insn.op.Ret? then old(stack) else []
    {
      if insn.op.Iinc? {
        ok := insn.local.Some? && LoadLocal(locals, insn.local.value) == Some(Int);
      } else if insn.op.Ret? {
        ok := RetTarget(insn, Contents()).Some?;
      } else if insn.op.Return? {
        ok := ret.None?;
        stack := [];
      } else if insn.op.TypedReturn? || insn.op.Athrow? {
        var ty := Pop();
        if ty.None? {
          return false;
        }
        ok := if insn.op.Athrow? then IsRefLike(ty.value) else CanReturn(insn.op.k, ty.value, ret);
        stack := [];
      } else {
        ok := false;
      }
    }
  }

  method Replace(types: seq<VerifyType>, from: VerifyType, className: string) returns (r: seq<VerifyType>)
    ensures r == Initialized(types, from, className)
  {
    r := types;
    for i := 0 to |types|
      invariant |r| == |types|
      invariant forall k :: i <= k < |types| ==> r[k] == types[k]
      invariant forall k :: 0 <= k < i ==> r[k] == Initialized(types, from, className)[k]
    {
      if r[i] == from {
        r := r[i := Reference(Some(className))];
      }
    }
  }
}
