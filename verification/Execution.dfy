/** Running a method: the verifier first, then the interpreter loop. */
module Execution {
  import opened Wrappers
  import opened Program
  import opened Decoder
  import opened Descriptors
  import opened FrameSoundness
  import opened Transfer
  import opened Machine
  import opened Frames
  import opened Interpreter
  import opened ProgramSoundness
  import opened ThreadSoundness
  import V = Verifier

  /**
   Verifies a method and interprets it for at most n instructions. In a program of
   accepted methods no dynamic check of the interpreter ever fails.
   */
  method Execute(vm: Vm, m: Method, args: seq<Value>, n: nat) returns (it: Iteration)
    requires ProgramFit(vm.env, |vm.heap|)
    requires forall c :: VerifiedAs(m, c) ==> Usable(m, c) && ConstantsValid(m, |vm.heap|)
    requires ParseMethodDescriptor(m.descriptor).Some?
    requires ArgsConform(args, ParseMethodDescriptor(m.descriptor).value.0, |vm.heap|)
    modifies vm
    ensures it == Iteration.Failed(VerificationError) <==> !V.Verifies(m)
    ensures it == Iteration.Failed(MissingReturn) ==> m.code == []
    ensures it.Failed? && V.Verifies(m) && m.code != [] ==> Benign(it.e)
    ensures it.Finished? ==> ResultFits(it.v, m.descriptor, |vm.heap|)
  {
    hide V.Verifies, AcceptedAs, VerifiedAs, Usable, ConstantsValid, Run, ArgsConform, InitialFrame;
    var accepted := V.VerifyMethod(m);
    if !accepted {
      return Iteration.Failed(VerificationError);
    }
    var locals := vm.LayOutArguments(args);
    var frame := new Frame(m, locals);
    var stack := new CallStack(frame);
    ghost var was := vm.State(stack);
    assert was == Thread([NewFrame(m, args)], vm.heap);
    it := vm.RunFor(stack, n);
    if m.code != [] {
      ghost var c := VerifiedIsAccepted(m);
      ExecutionSafe(vm.env, m, args, old(vm.heap), n);
    } else {
      EmptyCodeRuns(vm.env, was, n);
    }
  }

  /** A method without code never gets past its first instruction. */
  lemma {:induction false} EmptyCodeRuns(env: Env, t: Thread, n: nat)
    requires t.frames != [] && Current(t).m.code == []
    ensures Run(env, t, n) == if n == 0 then Running(t) else Outcome.Failed(MissingReturn)
  {
  }
}
