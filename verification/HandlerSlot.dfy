/**
 A program to which the soundness theorem applies: a call to a method that throws, under a
 handler that catches. It takes one stack slot for the handler to make it fit to run.
 */
module HandlerSlot {
  import opened Wrappers
  import opened Words
  import opened Bytecode
  import opened Program
  import opened VerifyTypes
  import opened Descriptors
  import opened Decoder
  import opened Transfer
  import V = Verifier
  import opened Fetch
  import opened Machine
  import opened Conformance
  import opened FrameSoundness
  import opened ThreadSoundness
  import opened SmallMethods
  import opened VerifierGaps
  import opened ProgramSoundness

  /** An instruction of the fragment that no handler concerns, or that its handlers cover from its first byte on. */
  lemma {:induction false} PlainUsable(m: Method, insn: Insn, op: Opcode)
    requires insn.pc < |m.code| && FromByte(m.code[insn.pc]) == Some(op) && insn.op == op
    requires op.AconstNull? || op.Athrow? || op.Return? || op.Invokestatic?
    requires CanRaise(op) ==> forall h :: h in m.handlers ==> Enterable(m, insn, h)
    ensures UsableAt(m, insn)
  {
    hide FromByte, Enterable;
  }

  lemma {:induction false} ThrowerFit(m: Method, n: nat)
    requires Throws(m) && ConstantsValid(m, n)
    ensures Fit(m, n)
  {
    hide V.Verifies, Fit, FromByte, Scan, UsableAt, ConstantsValid;
    ThrowerVerifies(m);
    ThrowerBytes(m.code);
    OneByte(m.code, 0, AconstNull);
    OneByte(m.code, 1, Athrow);
    hide Decode;
    TwoScanned(m, Plain(0, 1, AconstNull), Plain(1, 2, Athrow));
    PlainUsable(m, Plain(0, 1, AconstNull), AconstNull);
    PlainUsable(m, Plain(1, 2, Athrow), Athrow);
    FitWhenUsable(m, n);
  }

  lemma {:induction false} GuardedUsable(m: Method, ref: MethodRef)
    requires IsGuarded(m, ref) && m.maxStack >= 1
    ensures UsableAt(m, CALL) && UsableAt(m, Plain(3, 4, Opcode.Return)) && UsableAt(m, Plain(4, 5, Opcode.Return))
  {
    assert FromByte(m.code[0]) == Some(Invokestatic);
    assert FromByte(m.code[3]) == Some(Opcode.Return) && FromByte(m.code[4]) == Some(Opcode.Return);
    hide FromByte, UsableAt;
    PlainUsable(m, CALL, Invokestatic);
    PlainUsable(m, Plain(3, 4, Opcode.Return), Opcode.Return);
    PlainUsable(m, Plain(4, 5, Opcode.Return), Opcode.Return);
  }

  lemma {:induction false} GuardedFit(m: Method, ref: MethodRef, n: nat)
    requires IsGuarded(m, ref) && ref.descriptor == "()V" && m.maxStack >= 1 && ConstantsValid(m, n)
    ensures Fit(m, n)
  {
    hide V.Verifies, Fit, Scan, UsableAt, ConstantsValid, FetchAt;
    GuardedVerifies(m, ref);
    GuardedScanned(m, ref);
    GuardedUsable(m, ref);
    FitWhenUsable(m, n);
  }

  /** The callee is always fit; the caller is exactly when its handler has a slot for the exception. */
  lemma {:induction false} GuardedFitIff(env: Env, m: Method, ref: MethodRef, heap: seq<string>)
    requires IsGuarded(m, ref) && ref.descriptor == "()V" && ConstantsValid(m, |heap|)
    requires env.table.Keys == {ref} && Throws(env.table[ref]) && ConstantsValid(env.table[ref], |heap|)
    ensures ProgramFit(env, |heap|)
    ensures Fit(m, |heap|) <==> m.maxStack >= 1
  {
    hide IsGuarded, Fit, ConstantsValid, Run, V.Verifies;
    ThrowerFit(env.table[ref], |heap|);
    if m.maxStack >= 1 {
      GuardedFit(m, ref, |heap|);
    } else if Fit(m, |heap|) {
      SlotGap(m, env, ref, heap);
      GuardedSizes(m, ref);
      SmallDescriptor(m.descriptor);
      ExecutionSafe(env, m, [], heap, 3);
    }
  }

  /** A step that returns from the only frame, without a value. */
  lemma {:induction false} ReturnSteps(env: Env, t: Thread)
    requires |t.frames| == 1 && Current(t).pc < |Current(t).m.code|
    requires FromByte(Current(t).m.code[Current(t).pc]) == Some(Opcode.Return)
    ensures Run(env, t, 1) == Returned(None, t.heap)
  {
    hide FromByte;
    var f := Current(t);
    var x := Fetched(Opcode.Return, NoOperand, f.pc + 1);
    assert FetchAt(f.m.code, f.pc) == Ok(x);
    hide FetchAt;
    assert Machine.Step(env, t) == Machine.Execute(env, WithCurrent(t, f.(pc := x.next)), f.pc, x);
  }

  /** With a slot the exception is caught, and the caller returns. */
  lemma {:induction false} GuardedReturns(env: Env, m: Method, ref: MethodRef, heap: seq<string>)
    requires IsGuarded(m, ref) && m.maxStack >= 1 && ref.descriptor == "()V"
    requires ref in env.table && Throws(env.table[ref])
    ensures Run(env, Started(m, heap), 4) == Returned(None, heap + [NULL_POINTER_EXCEPTION])
  {
    GuardedScanned(m, ref);
    assert FromByte(m.code[4]) == Some(Opcode.Return);
    hide Scan, FetchAt, FromByte, Throws, Machine.Step, Run;
    var t, f := Started(m, heap), NewFrame(m, []);
    CalleeThrows(env, f, ref, heap);
    var r, grown := Reference.Heap(|heap|), heap + [NULL_POINTER_EXCEPTION];
    var u := Thread([f.(pc := 4, stack := [RefValue(r)])], grown);
    assert FindHandler(env, m.handlers, 2, NULL_POINTER_EXCEPTION) == Some(Handler(0, 3, 4, None));
    assert Throw(env, Thread([f.(pc := 3)], grown), r) == Running(u) by {
      assert [f.(pc := 3)][..0] + [f.(pc := 4, stack := [RefValue(r)])] == u.frames;
    }
    RunThen(env, t, 3, u, 1);
    ReturnSteps(env, u);
  }

  lemma {:induction false} SmallParameters(m: Method)
    requires IsSmall(m)
    ensures ParseMethodDescriptor(m.descriptor) == Some(([], None))
  {
    SmallDescriptor(m.descriptor);
  }

  /** So there are programs, with a call and a handler in use, that meet all the theorem asks for. */
  lemma {:induction false} HypothesesMet(like: Env, ref: MethodRef, heap: seq<string>) returns (env: Env, m: Method)
    requires ref.descriptor == "()V"
    ensures ref in env.table && Throws(env.table[ref]) && IsGuarded(m, ref)
    ensures ProgramFit(env, |heap|) && Fit(m, |heap|)
    ensures ParseMethodDescriptor(m.descriptor) == Some(([], None)) && ArgsConform([], [], |heap|)
    ensures Run(env, Started(m, heap), 4) == Returned(None, heap + [NULL_POINTER_EXCEPTION])
  {
    hide IsGuarded, Throws, Fit, ProgramFit, Run, Started, IsSmall;
    env, m := like.(table := map[ref := Thrower("thrower")]), Guarded("caller", ref, 1);
    GuardedFitIff(env, m, ref, heap);
    GuardedReturns(env, m, ref, heap);
    GuardedSizes(m, ref);
    SmallParameters(m);
  }
}
