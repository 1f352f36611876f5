/**
 Soundness of the verifier over whole runs: if every method in the class table was
 accepted, no run of the interpreter ever meets one of its dynamic checks, through any
 interleaving of calls, returns and exception unwinding.
 */
module ProgramSoundness {
  import opened Wrappers
  import opened Words
  import opened Bytecode
  import opened Program
  import opened VerifyTypes
  import opened Descriptors
  import opened Decoder
  import opened Transfer
  import opened TransferFacts
  import W = Worklist
  import V = Verifier
  import opened StackMaps
  import opened Fetch
  import opened Machine
  import opened Conformance
  import opened FrameSoundness
  import opened ThreadSoundness

  // ----- Runs -----

  /**
   Type soundness over runs of any length: a well-typed thread stays well typed, a result
   fits the bottom method's descriptor, and the only errors are a callee that does not
   exist and an exception nobody catches.
   */
  lemma {:induction false} RunSafe(certs: Certs, env: Env, t: Thread, n: nat)
    requires ThreadOk(certs, env, t)
    ensures OutcomeOk(certs, env, t.frames[0].m, Run(env, t, n), |t.heap|)
    decreases n
  {
    hide Step, At, EnvOk, Linked, ResultFits;
    if n > 0 {
      StepSafe(certs, env, t);
      if Step(env, t).Running? {
        RunSafe(certs, env, Step(env, t).t, n - 1);
      }
    }
  }

  // ----- From acceptance to safety -----

  /** A method the verifier accepts, recording states the interpreter can rely on. */
  ghost predicate Fit(m: Method, n: nat) {
    ConstantsValid(m, n) && exists c :: AcceptedAs(m, c) && Usable(m, c)
  }

  /** The verifier itself accepts the method with these states. */
  ghost predicate VerifiedAs(m: Method, c: Certificate) {
    && V.Verifies(m) && m.code != []
    && Scan(m) == Some(c.layout)
    && InitialFrame(m) == Some(c.entry)
    && V.FifoAccepts(m, c.layout, c.entry, c.states)
  }

  /** What the verifier's own loop accepts is accepted in the sense of the soundness theorem. */
  lemma {:induction false} VerifiedIsAccepted(m: Method) returns (c: Certificate)
    requires V.Verifies(m) && m.code != []
    ensures VerifiedAs(m, c) && AcceptedAs(m, c)
  {
    hide Scan, InitialFrame, W.Process, StackMapsOk;
    var states: W.States :| V.FifoAccepts(m, Scan(m).value, InitialFrame(m).value, states);
    c := Certificate(Scan(m).value, InitialFrame(m).value, states);
    var trace: seq<W.Config>, picks: seq<nat> :|
      W.Accepting(m, c.layout, c.entry, trace, picks) && V.Fifo(picks) && trace[|picks|].states == c.states;
  }

  /** An accepted method is fit if each of its decoded instructions can be relied on. */
  lemma {:induction false} FitWhenUsable(m: Method, n: nat)
    requires V.Verifies(m) && m.code != [] && |m.code| < 0x8000_0000
    requires m.isStatic && m.initialLocals == [] && ConstantsValid(m, n)
    requires Scan(m).Some? ==> forall p :: p in Scan(m).value ==> UsableAt(m, Scan(m).value[p])
    ensures Fit(m, n)
  {
    hide V.Verifies, AcceptedAs, UsableAt, Scan, V.FifoAccepts;
    var c := VerifiedIsAccepted(m);
  }

  /** Every static call resolves to a fit method with the descriptor it was called by. */
  ghost predicate ProgramFit(env: Env, n: nat) {
    forall ref :: ref in env.table ==> env.table[ref].descriptor == ref.descriptor && Fit(env.table[ref], n)
  }

  ghost function CertificateOf(m: Method): (c: Certificate)
    requires exists c :: AcceptedAs(m, c) && Usable(m, c)
    ensures Certifies(m, c) && Usable(m, c)
  {
    var c :| AcceptedAs(m, c) && Usable(m, c);
    AcceptedIsCertified(m, c);
    c
  }

  lemma {:induction false} Certified(methods: set<Method>, n: nat) returns (certs: Certs)
    requires forall m :: m in methods ==> Fit(m, n)
    ensures Verified(certs) && certs.Keys == methods
  {
    hide Certifies, Usable, AcceptedAs, ConstantsValid;
    certs := map m | m in methods :: CertificateOf(m);
  }

  lemma {:induction false} ProgramCertified(env: Env, m: Method, n: nat) returns (certs: Certs)
    requires ProgramFit(env, n) && Fit(m, n)
    ensures EnvOk(certs, env, n) && Sealed(certs, m, n)
  {
    hide AcceptedAs, Usable, Verified, ConstantsValid;
    certs := Certified((set ref | ref in env.table :: env.table[ref]) + {m}, n);
  }

  /**
   From the start: a fit method of a fit program, called with arguments of its parameter
   types, never meets a dynamic check, however long it runs.
   */
  lemma {:induction false} ExecutionSafe(env: Env, m: Method, args: seq<Value>, heap: seq<string>, n: nat)
    requires ProgramFit(env, |heap|) && Fit(m, |heap|)
    requires ParseMethodDescriptor(m.descriptor).Some?
    requires ArgsConform(args, ParseMethodDescriptor(m.descriptor).value.0, |heap|)
    ensures match Run(env, Thread([NewFrame(m, args)], heap), n)
            case Running(t) => exists certs :: ThreadOk(certs, env, t)
            case Returned(v, after) => |heap| <= |after| && ResultFits(v, m.descriptor, |after|)
            case Failed(e) => Benign(e)
  {
    hide Step, ResultFits, Verified, AcceptedAs, Usable;
    var certs := ProgramCertified(env, m, |heap|);
    var t := Thread([NewFrame(m, args)], heap);
    EntryConforms(certs, m, args, |heap|);
    RunSafe(certs, env, t, n);
  }

  /** A method without code is accepted but fails at once; a fit method never fails that way. */
  lemma {:induction false} MissingReturnIff(env: Env, m: Method, args: seq<Value>, heap: seq<string>)
    requires ProgramFit(env, |heap|) && (m.code == [] || Fit(m, |heap|))
    requires ParseMethodDescriptor(m.descriptor).Some?
    requires ArgsConform(args, ParseMethodDescriptor(m.descriptor).value.0, |heap|)
    ensures (exists n: nat :: Run(env, Thread([NewFrame(m, args)], heap), n) == Failed(MissingReturn)) <==> m.code == []
  {
    var t := Thread([NewFrame(m, args)], heap);
    if m.code == [] {
      EmptyCodeFails(env, t);
    } else {
      forall n: nat ensures Run(env, t, n) != Failed(MissingReturn) {
        ExecutionSafe(env, m, args, heap, n);
      }
    }
  }

  lemma {:induction false} EmptyCodeFails(env: Env, t: Thread)
    requires t.frames != [] && Current(t).m.code == []
    ensures Run(env, t, 1) == Failed(MissingReturn)
  {
    assert Step(env, t) == Failed(MissingReturn);
  }
}
