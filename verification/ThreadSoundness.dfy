/**
 Soundness of the verifier for whole call stacks: one iteration of the interpreter loop
 takes a well-typed call stack to a well-typed one, be it a call, a return or unwinding.
 */
module ThreadSoundness {
  import opened Wrappers
  import opened Words
  import opened Bytecode
  import opened Program
  import opened VerifyTypes
  import opened Descriptors
  import opened Decoder
  import opened Transfer
  import opened TransferFacts
  import W = Worklist
  import opened Fetch
  import opened Machine
  import opened Conformance
  import opened FrameSoundness

  // ----- Accepted methods -----

  /** What an analysis of a method ends with: its layout, its entry frame and the recorded states. */
  datatype Certificate = Certificate(layout: Layout, entry: FrameState, states: W.States)

  /** Some order of serving the worklist accepts the method and records these states. */
  ghost predicate AcceptedAs(m: Method, c: Certificate) {
    && m.code != []
    && Scan(m) == Some(c.layout)
    && InitialFrame(m) == Some(c.entry)
    && exists trace: seq<W.Config>, picks: seq<nat> ::
         W.Accepting(m, c.layout, c.entry, trace, picks) && trace[|picks|].states == c.states
  }

  /** What the states of an accepted method are known to satisfy. */
  ghost predicate Certifies(m: Method, c: Certificate) {
    && m.code != []
    && Scan(m) == Some(c.layout)
    && InitialFrame(m) == Some(c.entry)
    && W.PostFixpoint(m, c.layout, c.entry, c.states)
  }

  lemma {:induction false} AcceptedIsCertified(m: Method, c: Certificate)
    requires AcceptedAs(m, c)
    ensures Certifies(m, c)
  {
    var trace: seq<W.Config>, picks: seq<nat> :|
      W.Accepting(m, c.layout, c.entry, trace, picks) && trace[|picks|].states == c.states;
    LayoutFacts(m, 0);
    InitialFrameShape(m);
    W.AcceptingIsPostFixpoint(m, c.layout, c.entry, trace, picks);
  }

  /**
   The verifier decides by an instruction's first byte whether a handler covers it, the
   interpreter by its last, and the interpreter needs a stack slot to enter the handler.
   Whatever handler the interpreter finds, the verifier must have sent the frame there.
   */
  predicate Enterable(m: Method, insn: Insn, h: Handler) {
    insn.next > 0 && Covers(h, insn.next - 1) ==> Covers(h, insn.pc) && m.maxStack >= 1
  }

  /** What the interpreter relies on at an instruction and the verifier leaves unchecked. */
  ghost predicate UsableAt(m: Method, insn: Insn) {
    && OperandsUsable(m.code, insn.pc)
    && (IsLdc(insn.op) && insn.cp.Some? ==> !IsCondy(m, insn.cp.value))
    && (CanRaise(insn.op) ==> forall h :: h in m.handlers ==> Enterable(m, insn, h))
  }

  predicate Reached(c: Certificate, p: nat) {
    p < |c.states| && c.states[p].Some? && p in c.layout
  }

  /** A static method whose reached instructions are usable; what lies in dead code does not matter. */
  ghost predicate Usable(m: Method, c: Certificate) {
    && |m.code| < 0x8000_0000
    && m.isStatic && m.initialLocals == []
    && forall p :: Reached(c, p) ==> UsableAt(m, c.layout[p])
  }

  /** What the verifier recorded for each method of a program. */
  type Certs = map<Method, Certificate>

  /** Consulted method by method: the trigger keeps the certificates folded until asked for. */
  ghost predicate Verified(certs: Certs) {
    forall m {:trigger Certifies(m, certs[m])} :: m in certs ==> Certifies(m, certs[m]) && Usable(m, certs[m])
  }

  /** A method fit to run in a heap of n objects. */
  ghost predicate Sealed(certs: Certs, m: Method, n: nat) {
    Verified(certs) && m in certs && ConstantsValid(m, n)
  }

  ghost predicate EnvOk(certs: Certs, env: Env, n: nat) {
    forall ref :: ref in env.table ==> env.table[ref].descriptor == ref.descriptor && Sealed(certs, env.table[ref], n)
  }

  // ----- Well-typed call stacks -----

  /** The frame the verifier recorded before the instruction at p. */
  ghost function Recorded(certs: Certs, m: Method, p: nat): Option<FrameState>
    requires m in certs
  {
    if p < |certs[m].states| then certs[m].states[p] else None
  }

  /** A frame about to execute the instruction at its pc. */
  ghost predicate At(certs: Certs, f: FrameV, n: nat) {
    && Sealed(certs, f.m, n)
    && Recorded(certs, f.m, f.pc).Some?
    && FrameConforms(f, Recorded(certs, f.m, f.pc).value, n)
  }

  /** A frame in the middle of the instruction at p; its stack may be anything. */
  ghost predicate Within(certs: Certs, f: FrameV, p: nat, n: nat) {
    && Sealed(certs, f.m, n)
    && Recorded(certs, f.m, p).Some?
    && p in certs[f.m].layout && certs[f.m].layout[p].next == f.pc
    && LocalsConform(f.locals, Recorded(certs, f.m, p).value.locals, n)
    && ValuesGapped(f.locals)
  }

  /** The call at p names a method with descriptor d. */
  ghost predicate CallsAt(m: Method, layout: Layout, p: nat, d: string) {
    && p in layout && layout[p].op.Invokestatic? && layout[p].cp.Some?
    && Entry(m.methodRefs, layout[p].cp.value).Some?
    && Entry(m.methodRefs, layout[p].cp.value).value.descriptor == d
  }

  /** A frame waiting at p for a callee with descriptor d: its stack lacks the arguments and the result. */
  ghost predicate WaitingAt(certs: Certs, f: FrameV, p: nat, d: string, n: nat) {
    && Within(certs, f, p, n)
    && CallsAt(f.m, certs[f.m].layout, p, d)
    && ParseMethodDescriptor(d).Some?
    && var k := |ParseMethodDescriptor(d).value.0|;
       var stack := Recorded(certs, f.m, p).value.stack;
       k <= |stack| && StackConforms(f.stack, stack[..|stack| - k], n)
  }

  ghost predicate Waiting(certs: Certs, f: FrameV, d: string, n: nat) {
    exists p: nat :: WaitingAt(certs, f, p, d, n)
  }

  /** Every frame but the last waits for the one above it. */
  ghost predicate Linked(certs: Certs, frames: seq<FrameV>, n: nat) {
    forall i :: 0 <= i < |frames| - 1 ==> Waiting(certs, frames[i], frames[i + 1].m.descriptor, n)
  }

  ghost predicate StackOk(certs: Certs, frames: seq<FrameV>, n: nat) {
    frames != [] && At(certs, frames[|frames| - 1], n) && Linked(certs, frames, n)
  }

  ghost predicate ThreadOk(certs: Certs, env: Env, t: Thread) {
    EnvOk(certs, env, |t.heap|) && StackOk(certs, t.frames, |t.heap|)
  }

  /** A method's result fits its descriptor. */
  ghost predicate ResultFits(v: Option<Value>, d: string, n: nat) {
    && ParseMethodDescriptor(d).Some?
    && var ret := ParseMethodDescriptor(d).value.1;
       if ret.None? then v.None? else v.Some? && ValueConforms(v.value, ret.value, n)
  }

  /** Errors a well-typed program can still end in: a missing callee and an uncaught exception. */
  predicate Benign(e: VmError) {
    e.MethodNotFound? || e.UnhandledException?
  }

  ghost predicate OutcomeOk(certs: Certs, env: Env, bottom: Method, o: Outcome, n: nat) {
    match o
    case Running(t) => ThreadOk(certs, env, t) && t.frames[0].m == bottom && n <= |t.heap|
    case Returned(v, heap) => ResultFits(v, bottom.descriptor, |heap|) && n <= |heap|
    case Failed(e) => Benign(e)
  }

  // ----- Allocation keeps everything valid -----

  lemma {:induction false} SealedGrows(certs: Certs, m: Method, n: nat, n': nat)
    requires Sealed(certs, m, n) && n <= n'
    ensures Sealed(certs, m, n')
  {
    forall i | 0 <= i < |m.constants| ensures ConstantValid(m.constants[i], n') {
      assert ConstantValid(m.constants[i], n);
    }
  }

  lemma {:induction false} LocalsConformGrows(locals: seq<Option<Value>>, types: seq<VerifyType>, n: nat, n': nat)
    requires LocalsConform(locals, types, n) && n <= n'
    ensures LocalsConform(locals, types, n')
  {
    forall i | 0 <= i < |locals| ensures SlotConforms(locals[i], types[i], n') {
      assert SlotConforms(locals[i], types[i], n);
    }
  }

  lemma {:induction false} WaitingGrows(certs: Certs, f: FrameV, d: string, n: nat, n': nat)
    requires Waiting(certs, f, d, n) && n <= n'
    ensures Waiting(certs, f, d, n')
  {
    var p: nat :| WaitingAt(certs, f, p, d, n);
    SealedGrows(certs, f.m, n, n');
    LocalsConformGrows(f.locals, Recorded(certs, f.m, p).value.locals, n, n');
    assert WaitingAt(certs, f, p, d, n');
  }

  lemma {:induction false} LinkedGrows(certs: Certs, frames: seq<FrameV>, n: nat, n': nat)
    requires Linked(certs, frames, n) && n <= n'
    ensures Linked(certs, frames, n')
  {
    forall i | 0 <= i < |frames| - 1 ensures Waiting(certs, frames[i], frames[i + 1].m.descriptor, n') {
      WaitingGrows(certs, frames[i], frames[i + 1].m.descriptor, n, n');
    }
  }

  lemma {:induction false} EnvGrows(certs: Certs, env: Env, n: nat, n': nat)
    requires EnvOk(certs, env, n) && n <= n'
    ensures EnvOk(certs, env, n')
  {
    forall ref | ref in env.table ensures Sealed(certs, env.table[ref], n') {
      SealedGrows(certs, env.table[ref], n, n');
    }
  }

  lemma {:induction false} WithinGrows(certs: Certs, f: FrameV, p: nat, n: nat, n': nat)
    requires Within(certs, f, p, n) && n <= n'
    ensures Within(certs, f, p, n')
  {
    SealedGrows(certs, f.m, n, n');
    LocalsConformGrows(f.locals, Recorded(certs, f.m, p).value.locals, n, n');
  }

  // ----- Flows of an accepted method -----

  /** An instruction the analysis reached decodes and applies. */
  lemma {:induction false} ReachedFacts(certs: Certs, m: Method, p: nat)
    requires Verified(certs) && m in certs && Recorded(certs, m, p).Some?
    ensures var c := certs[m];
            && p in c.layout && c.layout[p].pc == p < c.layout[p].next <= |m.code|
            && Decode(m.code, p) == Some(c.layout[p]) && PoolOk(m, c.layout[p])
            && Shaped(m, c.states[p].value)
            && Apply(m, c.layout[p], c.states[p].value).Some?
  {
    assert Certifies(m, certs[m]);
    LayoutFacts(m, 0);
    assert W.Settled(m, certs[m].layout, certs[m].states, p);
  }

  lemma {:induction false} FlowRecorded(certs: Certs, m: Method, p: nat, flow: Flow)
    requires Verified(certs) && m in certs && Recorded(certs, m, p).Some? && p in certs[m].layout
    requires Flows(m, certs[m].layout[p], Recorded(certs, m, p).value).Some?
    requires flow in Flows(m, certs[m].layout[p], Recorded(certs, m, p).value).value
    ensures Recorded(certs, m, flow.to).Some?
    ensures StateBelow(flow.state, Recorded(certs, m, flow.to).value)
    ensures Shaped(m, Recorded(certs, m, flow.to).value)
  {
    assert Certifies(m, certs[m]);
    assert W.Settled(m, certs[m].layout, certs[m].states, p);
    assert W.Absorbed(certs[m].states, flow);
  }

  lemma {:induction false} SuccessorFlows(m: Method, insn: Insn, s: FrameState, to: nat)
    requires Apply(m, insn, s).Some? && IsSuccessor(insn, Apply(m, insn, s).value, to)
    ensures Flows(m, insn, s).Some? && Flow(to, Apply(m, insn, s).value) in Flows(m, insn, s).value
  {
    var after := Apply(m, insn, s).value;
    if to in insn.targets {
      var k :| 0 <= k < |insn.targets| && insn.targets[k] == to;
      assert BranchFlows(insn.targets, after)[k] == Flow(to, after);
    }
  }

  lemma {:induction false} SuccessorRecorded(certs: Certs, m: Method, p: nat, to: nat)
    requires Verified(certs) && m in certs && Recorded(certs, m, p).Some? && p in certs[m].layout
    requires Apply(m, certs[m].layout[p], Recorded(certs, m, p).value).Some?
    requires IsSuccessor(certs[m].layout[p], Apply(m, certs[m].layout[p], Recorded(certs, m, p).value).value, to)
    ensures Recorded(certs, m, to).Some?
    ensures StateBelow(Apply(m, certs[m].layout[p], Recorded(certs, m, p).value).value, Recorded(certs, m, to).value)
    ensures Shaped(m, Recorded(certs, m, to).value)
  {
    var insn, s := certs[m].layout[p], Recorded(certs, m, p).value;
    SuccessorFlows(m, insn, s, to);
    FlowRecorded(certs, m, p, Flow(to, Apply(m, insn, s).value));
  }

  lemma {:induction false} HandlerFlowListed(handlers: seq<Handler>, pc: nat, locals: seq<VerifyType>, h: Handler)
    requires h in handlers && Covers(h, pc)
    ensures Flow(h.target, FrameState(locals, [CatchType(h)])) in HandlerFlows(handlers, pc, locals)
    decreases |handlers|
  {
    if handlers[0] != h {
      HandlerFlowListed(handlers[1..], pc, locals, h);
    }
  }

  lemma {:induction false} FindHandlerFinds(env: Env, handlers: seq<Handler>, pc: nat, className: string)
    requires FindHandler(env, handlers, pc, className).Some?
    ensures FindHandler(env, handlers, pc, className).value in handlers
    ensures Covers(FindHandler(env, handlers, pc, className).value, pc)
    decreases |handlers|
  {
    if !(Covers(handlers[0], pc) &&
         (handlers[0].catchClass.None? || env.instanceOf(className, handlers[0].catchClass.value))) {
      FindHandlerFinds(env, handlers[1..], pc, className);
    }
  }

  lemma {:induction false} HandlerFlowsOn(m: Method, insn: Insn, s: FrameState, h: Handler)
    requires Apply(m, insn, s).Some? && h in m.handlers && Covers(h, insn.pc)
    ensures Flows(m, insn, s).Some?
    ensures Flow(h.target, FrameState(s.locals, [CatchType(h)])) in Flows(m, insn, s).value
  {
    HandlerFlowListed(m.handlers, insn.pc, s.locals, h);
  }

  // ----- Exceptions -----

  /** A frame interrupted anywhere in an instruction conforms at the handler it is sent to. */
  lemma {:induction false} HandlerEntered(certs: Certs, f: FrameV, p: nat, h: Handler, r: Reference, n: nat)
    requires Within(certs, f, p, n) && CanRaise(certs[f.m].layout[p].op)
    requires h in f.m.handlers && Covers(h, ThrowPc(f))
    requires r.Heap? && r.index < n
    ensures f.m.maxStack >= 1
    ensures At(certs, f.(pc := h.target, stack := [RefValue(r)]), n)
  {
    hide Apply, Flows, OperandsUsable;
    var s := Recorded(certs, f.m, p).value;
    var insn := certs[f.m].layout[p];
    ReachedFacts(certs, f.m, p);
    assert Enterable(f.m, insn, h) by {
      assert Certifies(f.m, certs[f.m]);
      assert Reached(certs[f.m], p);
    }
    HandlerFlowsOn(f.m, insn, s, h);
    var flow := Flow(h.target, FrameState(s.locals, [CatchType(h)]));
    FlowRecorded(certs, f.m, p, flow);
    var g := f.(pc := h.target, stack := [RefValue(r)]);
    assert FrameConforms(g, flow.state, n);
    FrameConformsBelow(g, flow.state, Recorded(certs, f.m, h.target).value, n);
  }

  lemma {:induction false} LinkedPrefix(certs: Certs, frames: seq<FrameV>, n: nat, g: FrameV)
    requires frames != [] && Linked(certs, frames, n) && g.m == frames[|frames| - 1].m
    ensures Linked(certs, frames[..|frames| - 1], n)
    ensures Linked(certs, frames[..|frames| - 1] + [g], n)
    ensures |frames| > 1 ==> Waiting(certs, frames[|frames| - 2], g.m.descriptor, n)
  {
    var gs := frames[..|frames| - 1] + [g];
    forall i | 0 <= i < |gs| - 1 ensures Waiting(certs, gs[i], gs[i + 1].m.descriptor, n) {
      assert Waiting(certs, frames[i], frames[i + 1].m.descriptor, n);
    }
    var hs := frames[..|frames| - 1];
    forall i | 0 <= i < |hs| - 1 ensures Waiting(certs, hs[i], hs[i + 1].m.descriptor, n) {
      assert Waiting(certs, frames[i], frames[i + 1].m.descriptor, n);
    }
  }

  /** Unwinding a well-typed stack lands in a handler of a well-typed stack or runs out of frames. */
  lemma {:induction false} UnwindSafe(
      certs: Certs, env: Env, frames: seq<FrameV>, className: string, r: Reference, p: nat, n: nat)
    requires frames != [] && Linked(certs, frames, n) && Within(certs, frames[|frames| - 1], p, n)
    requires CanRaise(certs[frames[|frames| - 1].m].layout[p].op)
    requires r.Heap? && r.index < n
    ensures match Unwind(env, frames, className, r)
            case Ok(after) => StackOk(certs, after, n) && after[0].m == frames[0].m
            case Err(e) => e == UnhandledException(className)
    decreases |frames|
  {
    hide Certifies, Usable, Apply;
    var f := frames[|frames| - 1];
    var rest := frames[..|frames| - 1];
    var found := FindHandler(env, f.m.handlers, ThrowPc(f), className);
    if found.Some? {
      var h := found.value;
      FindHandlerFinds(env, f.m.handlers, ThrowPc(f), className);
      HandlerEntered(certs, f, p, h, r, n);
      LinkedPrefix(certs, frames, n, f.(pc := h.target, stack := [RefValue(r)]));
    } else if |frames| > 1 {
      LinkedPrefix(certs, frames, n, f);
      var q: nat :| WaitingAt(certs, frames[|frames| - 2], q, f.m.descriptor, n);
      UnwindSafe(certs, env, rest, className, r, q, n);
    }
  }

  /** Without a declared stack slot a handler cannot be entered, and with one it always can. */
  lemma {:induction false} HandlerEnteredIff(env: Env, f: FrameV, className: string, r: Reference)
    requires FindHandler(env, f.m.handlers, ThrowPc(f), className).Some?
    ensures Unwind(env, [f], className, r).Ok? <==> f.m.maxStack >= 1
    ensures f.m.maxStack == 0 ==> Unwind(env, [f], className, r) == Err(StackOverflow)
  {
  }

  lemma {:induction false} ThrowSafe(certs: Certs, env: Env, t: Thread, r: Reference, p: nat)
    requires t.frames != [] && EnvOk(certs, env, |t.heap|) && Linked(certs, t.frames, |t.heap|)
    requires Within(certs, Current(t), p, |t.heap|)
    requires CanRaise(certs[Current(t).m].layout[p].op)
    requires r.Heap? && r.index < |t.heap|
    ensures OutcomeOk(certs, env, t.frames[0].m, Throw(env, t, r), |t.heap|)
  {
    UnwindSafe(certs, env, t.frames, t.heap[r.index], r, p, |t.heap|);
  }

  lemma {:induction false} ThrowNewSafe(certs: Certs, env: Env, t: Thread, className: string, p: nat)
    requires t.frames != [] && EnvOk(certs, env, |t.heap|) && Linked(certs, t.frames, |t.heap|)
    requires Within(certs, Current(t), p, |t.heap|)
    requires CanRaise(certs[Current(t).m].layout[p].op)
    ensures OutcomeOk(certs, env, t.frames[0].m, ThrowNew(env, t, className), |t.heap|)
  {
    var u := t.(heap := t.heap + [className]);
    EnvGrows(certs, env, |t.heap|, |u.heap|);
    LinkedGrows(certs, t.frames, |t.heap|, |u.heap|);
    WithinGrows(certs, Current(t), p, |t.heap|, |u.heap|);
    ThrowSafe(certs, env, u, Heap(|t.heap|), p);
  }

  // ----- Calls -----

  lemma {:induction false} CompatibleConforms(v: Value, actual: VerifyType, expected: VerifyType, n: nat)
    requires ValueConforms(v, actual, n) && Compatible(actual, expected)
    ensures ValueConforms(v, expected, n)
  {
  }

  ghost predicate ArgsConform(args: seq<Value>, params: seq<VerifyType>, n: nat) {
    |args| == |params| && forall i :: 0 <= i < |args| ==> ValueConforms(args[i], params[i], n) && params[i] != Top
  }

  /**
   The slots the interpreter fills from an argument list and the slots the verifier fills
   from the parameter types are the same, one by one.
   */
  lemma {:induction false} ArgumentsPlaced(
      args: seq<Value>, params: seq<VerifyType>, types: seq<VerifyType>, index: nat, n: nat)
    requires ArgsConform(args, params, n) && index <= |types| && PlaceParams(types, index, params).Some?
    ensures index + |ArgsToLocals(args)| <= |types|
    ensures forall j :: 0 <= j < |ArgsToLocals(args)| ==>
              SlotConforms(ArgsToLocals(args)[j], PlaceParams(types, index, params).value[index + j], n)
    ensures forall j :: 0 <= j < |types| && !(index <= j < index + |ArgsToLocals(args)|) ==>
              PlaceParams(types, index, params).value[j] == types[j]
    ensures forall j :: 0 <= j < |ArgsToLocals(args)| && IsWideSlot(ArgsToLocals(args)[j]) ==>
              j + 1 < |ArgsToLocals(args)| && ArgsToLocals(args)[j + 1].None?
    decreases |args|
  {
    if args != [] {
      assert ValueConforms(args[0], params[0], n) && params[0] != Top;
      assert IsWideValue(args[0]) == IsWide(params[0]);
      var placed := types[index := params[0]];
      var xs := ArgsToLocals(args[1..]);
      if IsWideValue(args[0]) {
        var ts := placed[index + 1 := Top];
        ArgumentsPlaced(args[1..], params[1..], ts, index + 2, n);
        var result := PlaceParams(ts, index + 2, params[1..]).value;
        forall j | 0 <= j < |xs| + 2 ensures SlotConforms(([Some(args[0]), None] + xs)[j], result[index + j], n) {
          if j >= 2 {
            assert SlotConforms(xs[j - 2], result[index + 2 + (j - 2)], n);
          }
        }
      } else {
        ArgumentsPlaced(args[1..], params[1..], placed, index + 1, n);
        var result := PlaceParams(placed, index + 1, params[1..]).value;
        forall j | 0 <= j < |xs| + 1 ensures SlotConforms(([Some(args[0])] + xs)[j], result[index + j], n) {
          if j >= 1 {
            assert SlotConforms(xs[j - 1], result[index + 1 + (j - 1)], n);
          }
        }
      }
    }
  }

  /** A callee's first frame conforms to the entry frame of its method. */
  lemma {:induction false} EntryConforms(certs: Certs, m: Method, args: seq<Value>, n: nat)
    requires Sealed(certs, m, n)
    requires ParseMethodDescriptor(m.descriptor).Some?
    requires ArgsConform(args, ParseMethodDescriptor(m.descriptor).value.0, n)
    ensures At(certs, NewFrame(m, args), n)
  {
    hide Decode, Flows, W.Settled, OperandsUsable;
    assert Certifies(m, certs[m]);
    var c := certs[m];
    var params := ParseMethodDescriptor(m.descriptor).value.0;
    var empty := seq(m.maxLocals, _ => Top);
    var placed := PlaceParams(empty, 0, params).value;
    ArgumentsPlaced(args, params, empty, 0, n);
    assert Overlay(placed, m.initialLocals) == placed;
    var f := NewFrame(m, args);
    var xs := ArgsToLocals(args);
    forall i | 0 <= i < |f.locals| ensures SlotConforms(f.locals[i], placed[i], n) {
      if i < |xs| {
        assert SlotConforms(xs[i], placed[0 + i], n);
      }
    }
    assert FrameConforms(f, c.entry, n);
    assert W.Absorbed(c.states, Flow(0, c.entry));
    FrameConformsBelow(f, c.entry, c.states[0].value, n);
  }

  lemma {:induction false} InvokeSignature(m: Method, insn: Insn)
    requires insn.op.Invokestatic? && insn.cp.Some?
    ensures IsUniform(insn.op)
    ensures UniformSignature(m, insn) == MethodSignature(m, insn.cp.value, [])
  {
  }

  /** The arguments on a conforming stack conform to the callee's parameters. */
  lemma {:induction false} ArgumentsConform(f: FrameV, s: FrameState, params: seq<VerifyType>, n: nat)
    requires FrameConforms(f, s, n) && NeedsMet(s.stack, ArgNeeds(params))
    requires forall i :: 0 <= i < |params| ==> params[i] != Top
    ensures |params| <= |f.stack|
    ensures ArgsConform(f.stack[|f.stack| - |params|..], params, n)
  {
    var args := f.stack[|f.stack| - |params|..];
    forall i | 0 <= i < |args| ensures ValueConforms(args[i], params[i], n) {
      var k := |params| - 1 - i;
      assert Meets(ArgNeeds(params)[k], Peek(s.stack, k));
      PeekConforms(f, s, k, n);
      CompatibleConforms(args[i], Peek(s.stack, k), params[i], n);
    }
  }

  /** What the verifier knows about a call it accepted: the callee's parameters lie on the stack. */
  lemma {:induction false} CallAccepted(certs: Certs, f: FrameV, p: nat, i: nat, s: FrameState, n: nat)
    requires Within(certs, f, p, n) && Recorded(certs, f.m, p) == Some(s) && FrameConforms(f, s, n)
    requires certs[f.m].layout[p].op.Invokestatic? && certs[f.m].layout[p].cp == Some(i)
    ensures Entry(f.m.methodRefs, i).Some?
    ensures var d := Entry(f.m.methodRefs, i).value.descriptor;
            && ParseMethodDescriptor(d).Some?
            && var params := ParseMethodDescriptor(d).value.0;
               && ArgCount(d) == Some(|params|) && |params| <= |f.stack|
               && ArgsConform(f.stack[|f.stack| - |params|..], params, n)
               && WaitingAt(certs, Dropped(f, |params|), p, d, n)
  {
    hide Certifies, Usable, Decode, Flows, FromByte, ArgCount, ParseMethodDescriptor;
    var insn := certs[f.m].layout[p];
    ReachedFacts(certs, f.m, p);
    InvokeSignature(f.m, insn);
    var d := Entry(f.m.methodRefs, i).value.descriptor;
    var params := ParseMethodDescriptor(d).value.0;
    ArgumentsAgree(d);
    ParsedTypesAreDescriptorTypes(d);
    assert ArgNeeds(params) + [] == ArgNeeds(params);
    ArgumentsConform(f, s, params, n);
    DropConforms(f, s, |params|, n);
  }

  lemma {:induction false} InvokeSafe(certs: Certs, env: Env, t: Thread, p: nat, i: nat, s: FrameState)
    requires EnvOk(certs, env, |t.heap|) && t.frames != [] && Linked(certs, t.frames, |t.heap|)
    requires var f := Current(t);
             && Within(certs, f, p, |t.heap|) && Recorded(certs, f.m, p) == Some(s) && FrameConforms(f, s, |t.heap|)
             && certs[f.m].layout[p].op.Invokestatic? && certs[f.m].layout[p].cp == Some(i)
    ensures OutcomeOk(certs, env, t.frames[0].m, Invoke(env, t, i), |t.heap|)
  {
    hide Certifies, Usable, ResultFits, WaitingAt, ParseMethodDescriptor, ArgCount, ArgsConform, At, FrameConforms;
    var f := Current(t);
    var n := |t.heap|;
    CallAccepted(certs, f, p, i, s, n);
    var ref := Entry(f.m.methodRefs, i).value;
    var params := ParseMethodDescriptor(ref.descriptor).value.0;
    if ref in env.table {
      var args := f.stack[|f.stack| - |params|..];
      EntryConforms(certs, env.table[ref], args, n);
      CalleePushed(certs, t.frames, Dropped(f, |params|), NewFrame(env.table[ref], args), n);
    }
  }

  lemma {:induction false} CalleePushed(certs: Certs, frames: seq<FrameV>, caller: FrameV, callee: FrameV, n: nat)
    requires frames != [] && Linked(certs, frames, n) && caller.m == frames[|frames| - 1].m
    requires Waiting(certs, caller, callee.m.descriptor, n) && At(certs, callee, n)
    ensures StackOk(certs, frames[..|frames| - 1] + [caller] + [callee], n)
  {
    LinkedPrefix(certs, frames, n, caller);
    var below := frames[..|frames| - 1] + [caller];
    var all := below + [callee];
    forall i | 0 <= i < |all| - 1 ensures Waiting(certs, all[i], all[i + 1].m.descriptor, n) {
      if i < |below| - 1 {
        assert Waiting(certs, below[i], below[i + 1].m.descriptor, n);
      }
    }
  }

  // ----- Returns -----

  /** A waiting caller that receives a result of the right type conforms after its call. */
  lemma {:induction false} ResumeSafe(certs: Certs, f: FrameV, d: string, v: Option<Value>, n: nat)
    requires Waiting(certs, f, d, n) && ResultFits(v, d, n)
    ensures v.None? ==> At(certs, f, n)
    ensures v.Some? ==> Push(f, v.value).Ok? && At(certs, Push(f, v.value).value, n)
  {
    var p: nat :| WaitingAt(certs, f, p, d, n);
    var c := certs[f.m];
    var insn := c.layout[p];
    var s := c.states[p].value;
    ReachedFacts(certs, f.m, p);
    InvokeSignature(f.m, insn);
    var (params, ret) := ParseMethodDescriptor(d).value;
    ParsedTypesAreDescriptorTypes(d);
    assert ArgNeeds(params) + [] == ArgNeeds(params);
    var after := Apply(f.m, insn, s).value;
    SuccessorRecorded(certs, f.m, p, insn.next);
    var below := FrameState(s.locals, s.stack[..|s.stack| - |params|]);
    if ret.Some? {
      PushFine(f, v.value, below, ret.value, n);
      assert after.stack == below.stack + [ret.value];
      FrameConformsBelow(Push(f, v.value).value, after, Recorded(certs, f.m, insn.next).value, n);
    } else {
      FrameConformsBelow(f, after, Recorded(certs, f.m, insn.next).value, n);
    }
  }

  /** What a return instruction hands back fits the method's descriptor. */
  lemma {:induction false} ReturnedFits(f: FrameV, s: FrameState, insn: Insn, n: nat)
    requires FrameConforms(f, s, n) && Apply(f.m, insn, s).Some? && (insn.op.TypedReturn? || insn.op.Return?)
    ensures insn.op.Return? ==> ResultFits(None, f.m.descriptor, n)
    ensures insn.op.TypedReturn? ==>
              f.stack != [] && ResultFits(Some(f.stack[|f.stack| - 1]), f.m.descriptor, n)
  {
    if insn.op.TypedReturn? {
      PeekConforms(f, s, 0, n);
      var v := f.stack[|f.stack| - 1];
      var actual := Peek(s.stack, 0);
      var ret := ParseMethodDescriptor(f.m.descriptor).value.1.value;
      if insn.op.k.KRef? {
        CompatibleConforms(v, actual, ret, n);
      } else {
        CompatibleConforms(v, actual, KindType(insn.op.k), n);
        CompatibleConforms(v, KindType(insn.op.k), ret, n);
      }
    }
  }

  /** What the caller below the top frame becomes when the top frame is done. */
  lemma {:induction false} PopSafe(certs: Certs, frames: seq<FrameV>, g: FrameV, n: nat)
    requires |frames| > 1 && Linked(certs, frames, n) && g.m == frames[|frames| - 2].m && At(certs, g, n)
    ensures StackOk(certs, frames[..|frames| - 2] + [g], n)
  {
    var below := frames[..|frames| - 1];
    LinkedPrefix(certs, frames, n, frames[|frames| - 1]);
    LinkedPrefix(certs, below, n, g);
    assert below[..|below| - 1] == frames[..|frames| - 2];
  }

  lemma {:induction false} ReturnValueSafe(certs: Certs, env: Env, t: Thread)
    requires EnvOk(certs, env, |t.heap|) && t.frames != [] && Linked(certs, t.frames, |t.heap|)
    requires Current(t).stack != []
    requires ResultFits(Some(Current(t).stack[|Current(t).stack| - 1]), Current(t).m.descriptor, |t.heap|)
    ensures OutcomeOk(certs, env, t.frames[0].m, ReturnValue(t), |t.heap|)
  {
    var n := |t.heap|;
    if |t.frames| > 1 {
      var caller := t.frames[|t.frames| - 2];
      var v := Current(t).stack[|Current(t).stack| - 1];
      LinkedPrefix(certs, t.frames, n, Current(t));
      ResumeSafe(certs, caller, Current(t).m.descriptor, Some(v), n);
      PopSafe(certs, t.frames, Push(caller, v).value, n);
      var below := t.frames[..|t.frames| - 1];
      assert below[..|below| - 1] == t.frames[..|t.frames| - 2];
    }
  }

  lemma {:induction false} ReturnVoidSafe(certs: Certs, env: Env, t: Thread)
    requires EnvOk(certs, env, |t.heap|) && t.frames != [] && Linked(certs, t.frames, |t.heap|)
    requires ResultFits(None, Current(t).m.descriptor, |t.heap|)
    ensures OutcomeOk(certs, env, t.frames[0].m, ReturnVoid(t), |t.heap|)
  {
    var n := |t.heap|;
    if |t.frames| > 1 {
      var caller := t.frames[|t.frames| - 2];
      LinkedPrefix(certs, t.frames, n, Current(t));
      ResumeSafe(certs, caller, Current(t).m.descriptor, None, n);
      PopSafe(certs, t.frames, caller, n);
      var below := t.frames[..|t.frames| - 1];
      assert below == t.frames[..|t.frames| - 2] + [caller];
    }
  }

  // ----- One step -----

  /** The bytes at a reached offset read back as the instruction the verifier decoded there. */
  lemma {:induction false} FetchedAtReached(certs: Certs, m: Method, p: nat, n: nat)
    requires Sealed(certs, m, n) && Recorded(certs, m, p).Some?
    ensures p < |m.code| && p in certs[m].layout && FetchAt(m.code, p).Ok?
    ensures SameInstruction(p, certs[m].layout[p], FetchAt(m.code, p).value)
  {
    ReachedFacts(certs, m, p);
    assert Certifies(m, certs[m]);
    assert Reached(certs[m], p);
    DecodersAgree(m.code, p);
  }

  /** An instruction that stays in its frame leaves it at a recorded state, or raises. */
  lemma {:induction false} FrameStepSafe(
      certs: Certs, ops: FloatOps, f: FrameV, at: nat, x: Fetched, s: FrameState, n: nat)
    requires Within(certs, f, at, n) && Recorded(certs, f.m, at) == Some(s) && FrameConforms(f, s, n)
    requires Fits(x) && SameInstruction(at, certs[f.m].layout[at], x) && !ActsOnStack(x.op)
    ensures match ExecFrame(ops, f, at, x)
            case Ok(g) => At(certs, g, n) && g.m == f.m
            case Err(stop) => stop.Raise? && CanRaise(certs[f.m].layout[at].op)
  {
    hide ExecFrame, FetchAt, FromByte;
    var insn := certs[f.m].layout[at];
    ReachedFacts(certs, f.m, at);
    assert IsLdc(insn.op) && insn.cp.Some? ==> !IsCondy(f.m, insn.cp.value) by {
      assert Certifies(f.m, certs[f.m]);
      assert Reached(certs[f.m], at);
    }
    if insn.op.Ret? && RetTarget(insn, s).Some? {
      SuccessorRecorded(certs, f.m, at, RetTarget(insn, s).value);
      RecordedInCode(certs, f.m, RetTarget(insn, s).value);
    }
    InstructionSound(ops, f, at, x, f.m, insn, s, n);
    if ExecFrame(ops, f, at, x).Ok? {
      var g := ExecFrame(ops, f, at, x).value;
      SuccessorRecorded(certs, f.m, at, g.pc);
      FrameConformsBelow(g, Apply(f.m, insn, s).value, Recorded(certs, f.m, g.pc).value, n);
    }
  }

  lemma {:induction false} RecordedInCode(certs: Certs, m: Method, p: nat)
    requires Verified(certs) && m in certs && Recorded(certs, m, p).Some?
    ensures p < |m.code|
  {
    assert Certifies(m, certs[m]);
  }

  lemma {:induction false} LocalStepSafe(certs: Certs, env: Env, t: Thread, at: nat, x: Fetched, s: FrameState)
    requires EnvOk(certs, env, |t.heap|) && t.frames != [] && Linked(certs, t.frames, |t.heap|)
    requires Within(certs, Current(t), at, |t.heap|) && Recorded(certs, Current(t).m, at) == Some(s)
    requires FrameConforms(Current(t), s, |t.heap|)
    requires Fits(x) && SameInstruction(at, certs[Current(t).m].layout[at], x) && !ActsOnStack(x.op)
    ensures OutcomeOk(certs, env, t.frames[0].m, Execute(env, t, at, x), |t.heap|)
  {
    hide Certifies, Usable, Apply, ExecFrame, FetchAt, Decode, PoolOk, SameInstruction, WaitingAt;
    FrameStepSafe(certs, env.floats, Current(t), at, x, s, |t.heap|);
    match ExecFrame(env.floats, Current(t), at, x) {
      case Ok(g) => LinkedPrefix(certs, t.frames, |t.heap|, g);
      case Err(stop) => ThrowNewSafe(certs, env, t, stop.className, at);
    }
  }

  /** Preservation and progress for one iteration of the interpreter loop. */
  lemma {:induction false} StepSafe(certs: Certs, env: Env, t: Thread)
    requires ThreadOk(certs, env, t)
    ensures OutcomeOk(certs, env, t.frames[0].m, Step(env, t), |t.heap|)
  {
    hide Certifies, Usable, Apply, ExecFrame, FetchOperands, Decode, PoolOk, WaitingAt, ResultFits;
    hide Throw, ReturnValue, ReturnVoid, Invoke;
    var f := Current(t);
    var n := |t.heap|;
    var p := f.pc;
    var s := Recorded(certs, f.m, p).value;
    FetchedAtReached(certs, f.m, p, n);
    ReachedFacts(certs, f.m, p);
    var x := FetchAt(f.m.code, p).value;
    var g := f.(pc := x.next);
    var u := WithCurrent(t, g);
    LinkedPrefix(certs, t.frames, n, g);
    assert Current(u) == g && Within(certs, g, p, n) && FrameConforms(g, s, n);
    if x.op.TypedReturn? || x.op.Return? {
      ReturnedFits(g, s, certs[f.m].layout[p], n);
      if x.op.TypedReturn? {
        ReturnValueSafe(certs, env, u);
      } else {
        ReturnVoidSafe(certs, env, u);
      }
    } else if x.op.Athrow? {
      AthrowSafe(certs, env, u, p, s);
    } else if x.op.Invokestatic? {
      InvokeSafe(certs, env, u, p, x.arg.i, s);
    } else {
      LocalStepSafe(certs, env, u, p, x, s);
    }
  }

  lemma {:induction false} AthrowSafe(certs: Certs, env: Env, t: Thread, p: nat, s: FrameState)
    requires EnvOk(certs, env, |t.heap|) && t.frames != [] && Linked(certs, t.frames, |t.heap|)
    requires Within(certs, Current(t), p, |t.heap|) && Recorded(certs, Current(t).m, p) == Some(s)
    requires FrameConforms(Current(t), s, |t.heap|)
    requires certs[Current(t).m].layout[p].op.Athrow?
    ensures OutcomeOk(certs, env, t.frames[0].m, ExecAthrow(env, t), |t.heap|)
  {
    hide Certifies, Usable, Decode, PoolOk, Throw, ThrowNew, WaitingAt;
    var f := Current(t);
    var n := |t.heap|;
    ReachedFacts(certs, f.m, p);
    PeekConforms(f, s, 0, n);
    var r := f.stack[|f.stack| - 1].r;
    var g := Dropped(f, 1);
    var u := WithCurrent(t, g);
    LinkedPrefix(certs, t.frames, n, g);
    assert Within(certs, g, p, n);
    if r.Null? {
      ThrowNewSafe(certs, env, u, NULL_POINTER_EXCEPTION, p);
    } else {
      ThrowSafe(certs, env, u, r, p);
    }
  }
}
