/**
 Where verifier and interpreter part ways: for each thing the interpreter relies on and the
 verifier leaves unchecked, a method the verifier accepts and a run of it that ends in an
 error of the VM.
 */
module VerifierGaps {
  import opened Wrappers
  import opened Words
  import opened Bytecode
  import opened Program
  import opened VerifyTypes
  import opened Descriptors
  import opened Decoder
  import opened Transfer
  import W = Worklist
  import V = Verifier
  import opened Fetch
  import opened Machine
  import opened Conformance
  import opened FrameSoundness
  import opened ThreadSoundness
  import opened SmallMethods

  // ----- At any instruction -----

  /** A tableswitch or wide prefix whose operands only the verifier can read. */
  predicate OperandsRefused(code: seq<byte>, p: nat) {
    && p < |code| && (FromByte(code[p]) == Some(Tableswitch) || FromByte(code[p]) == Some(Wide))
    && !OperandsUsable(code, p)
  }

  /** Where the verifier decoded operands the interpreter refuses, no thread gets past them. */
  lemma {:induction false} RefusedOperandsStop(env: Env, t: Thread)
    requires t.frames != [] && OperandsRefused(Current(t).m.code, Current(t).pc)
    requires Decode(Current(t).m.code, Current(t).pc).Some?
    ensures Machine.Step(env, t).Failed? && !Benign(Machine.Step(env, t).e)
  {
    hide Machine.Execute, FromByte, FetchTable, FetchWide, DecodeTableswitch, DecodeWide;
    var f := Current(t);
    if FromByte(f.m.code[f.pc]) == Some(Tableswitch) {
      TableRefused(f.m.code, f.pc);
    } else {
      WideRefused(f.m.code, f.pc);
    }
  }

  /** A thread about to run a method that takes no arguments. */
  function Started(m: Method, heap: seq<string>): (t: Thread)
    ensures t.frames != []
  {
    Thread([NewFrame(m, [])], heap)
  }

  // ----- A wide prefix on another instruction -----

  ghost predicate IsWideNull(m: Method) {
    && IsSmall(m) && m.maxLocals == 0 && m.maxStack == 1 && m.handlers == []
    && |m.code| == 5 && m.code[0] == 0xc4 && m.code[1] == 0x01 && m.code[2] == 0 && m.code[3] == 0 && m.code[4] == 0xb1
  }

  /** wide aconst_null; return */
  function WideNull(name: string): (m: Method)
    ensures IsWideNull(m)
  {
    Small(name, [0xc4, 0x01, 0x00, 0x00, 0xb1], 0, 1, [], [])
  }

  lemma {:induction false} WideNullDecoded(code: seq<byte>)
    requires |code| == 5 && code[0] == 0xc4 && code[1] == 0x01 && code[2] == 0 && code[3] == 0 && code[4] == 0xb1
    ensures Decode(code, 0) == Some(Plain(0, 4, AconstNull).(local := Some(0)))
    ensures Decode(code, 4) == Some(Plain(4, 5, Opcode.Return))
    ensures FromByte(code[0]) == Some(Opcode.Wide) && !OperandsUsable(code, 0)
  {
    assert FromByte(code[0]) == Some(Opcode.Wide);
    assert FromByte(code[1]) == Some(AconstNull);
    assert FromByte(code[4]) == Some(Opcode.Return);
    assert U16(code, 2) == Some(0);
    hide FromByte, U16;
    OneByte(code, 4, Opcode.Return);
    assert DecodeWide(code, 0) == Some(Plain(0, 4, AconstNull).(local := Some(0)));
  }

  /** The verifier takes any instruction after a wide prefix; the interpreter stops there. */
  lemma {:induction false} WideGap(m: Method, env: Env, heap: seq<string>)
    requires IsWideNull(m)
    ensures V.Verifies(m)
    ensures var end := Run(env, Started(m, heap), 1);
            end.Failed? && !Benign(end.e)
  {
    hide Decode, FromByte, OperandsUsable, Machine.Step, V.Verifies;
    WideNullDecoded(m.code);
    PushAndReturn(m, Plain(0, 4, AconstNull).(local := Some(0)), Plain(4, 5, Opcode.Return));
    RefusedOperandsStop(env, Started(m, heap));
  }

  // ----- A tableswitch whose bounds give a negative count -----

  ghost predicate IsBackwardTable(code: seq<byte>) {
    && |code| == 17 && code[0] == 0x03 && code[1] == 0xaa && code[16] == 0xb1
    && I32(code, 4) == Some(15) && I32(code, 8) == Some(2) && I32(code, 12) == Some(0)
  }

  ghost predicate HasBackwardTable(m: Method) {
    IsSmall(m) && m.maxLocals == 0 && m.maxStack == 1 && m.handlers == [] && IsBackwardTable(m.code)
  }

  /** iconst_0; tableswitch from 2 to 0, default return; return */
  function BackwardTable(name: string): (m: Method)
    ensures HasBackwardTable(m)
  {
    Small(name, [0x03, 0xaa, 0, 0, 0, 0, 0, 15, 0, 0, 0, 2, 0, 0, 0, 0, 0xb1], 0, 1, [], [])
  }

  const BACKWARD_SWITCH := Insn(1, 16, Tableswitch, None, None, [16], None, None)

  lemma {:induction false} BackwardSwitchDecoded(code: seq<byte>)
    requires IsBackwardTable(code)
    ensures DecodeTableswitch(code, 1) == Some(BACKWARD_SWITCH) && !TableNotBackward(code, 4)
  {
    TableReaders(code, 1);
    hide I32;
    assert Aligned(2) == 4;
    var none: seq<nat> := [];
    assert SwitchTargets(code, 1, 16, false, 0) == Some(none);
    assert Target32(code, 1, 4) == Some(16);
    assert [16] + none == [16];
  }

  lemma {:induction false} BackwardTableDecoded(code: seq<byte>)
    requires IsBackwardTable(code)
    ensures FromByte(code[0]) == Some(Const(KInt, 0)) && FromByte(code[1]) == Some(Tableswitch)
    ensures Decode(code, 0) == Some(Plain(0, 1, Const(KInt, 0)))
    ensures Decode(code, 1) == Some(BACKWARD_SWITCH) && !OperandsUsable(code, 1)
    ensures Decode(code, 16) == Some(Plain(16, 17, Opcode.Return))
  {
    assert FromByte(code[0]) == Some(Const(KInt, 0));
    assert FromByte(code[1]) == Some(Tableswitch);
    assert FromByte(code[16]) == Some(Opcode.Return);
    hide FromByte, I32;
    OneByte(code, 0, Const(KInt, 0));
    OneByte(code, 16, Opcode.Return);
    TableReaders(code, 1);
    BackwardSwitchDecoded(code);
    hide Decode, OperandsUsable, TableNotBackward, DecodeTableswitch;
    assert Aligned(2) == 4;
  }

  lemma {:induction false} BackwardTableScanned(m: Method)
    requires IsBackwardTable(m.code)
    ensures Scan(m) == Some(map[0 := Plain(0, 1, Const(KInt, 0)), 1 := BACKWARD_SWITCH, 16 := Plain(16, 17, Opcode.Return)])
  {
    BackwardTableDecoded(m.code);
    hide Decode, FromByte, OperandsUsable;
    var push, end := Plain(0, 1, Const(KInt, 0)), Plain(16, 17, Opcode.Return);
    assert LayoutFrom(m, 17) == Some(map[]);
    LayoutStep(m, 16, end, map[]);
    LayoutStep(m, 1, BACKWARD_SWITCH, map[16 := end]);
    LayoutStep(m, 0, push, map[16 := end][1 := BACKWARD_SWITCH]);
    assert map[16 := end][1 := BACKWARD_SWITCH][0 := push] == map[0 := push, 1 := BACKWARD_SWITCH, 16 := end];
  }

  lemma {:induction false} BackwardTableFlows(m: Method)
    requires m.descriptor == "()V" && m.handlers == [] && m.maxStack == 1
    ensures var empty, pushed := FrameState([], []), FrameState([], [Int]);
            && Flows(m, Plain(0, 1, Const(KInt, 0)), empty) == Some([Flow(1, pushed)])
            && Flows(m, BACKWARD_SWITCH, pushed) == Some([Flow(16, empty)])
            && Flows(m, Plain(16, 17, Opcode.Return), empty) == Some([])
  {
    hide Flows, Apply;
    var push, end := Plain(0, 1, Const(KInt, 0)), Plain(16, 17, Opcode.Return);
    var empty, pushed := FrameState([], []), FrameState([], [Int]);
    PushApplies(m, push, empty);
    assert empty.stack + [Int] == [Int];
    FlowsFrom(m, push, empty, pushed, []);
    SwitchApplies(m, BACKWARD_SWITCH, []);
    FlowsFrom(m, BACKWARD_SWITCH, pushed, empty, []);
    EndApplies(m, end, empty);
    FlowsFrom(m, end, empty, empty, []);
    var none: seq<Flow> := [];
    assert none + none == none && none + [Flow(1, pushed)] == [Flow(1, pushed)];
    assert none + [Flow(16, empty)] == [Flow(16, empty)];
  }

  lemma {:induction false} BackwardTableStraight(m: Method, layout: Layout)
    requires IsSmall(m) && m.handlers == [] && m.maxLocals == 0 && m.maxStack == 1 && |m.code| == 17
    requires layout == map[0 := Plain(0, 1, Const(KInt, 0)), 1 := BACKWARD_SWITCH, 16 := Plain(16, 17, Opcode.Return)]
    ensures StraightLine(m, layout, [0, 1, 16], [FrameState([], []), FrameState([], [Int]), FrameState([], [])])
  {
    hide Flows;
    BackwardTableFlows(m);
    assert EntryState(0) == FrameState([], []);
    var path, frames := [0, 1, 16], [FrameState([], []), FrameState([], [Int]), FrameState([], [])];
    assert GoesOn(m, layout, path, frames, 0) && GoesOn(m, layout, path, frames, 1) && GoesOn(m, layout, path, frames, 2);
  }

  lemma {:induction false} BackwardTableVerifies(m: Method)
    requires HasBackwardTable(m)
    ensures V.Verifies(m)
  {
    BackwardTableScanned(m);
    var layout := Scan(m).value;
    assert |m.code| == 17 && V.HandlersValid(m, layout);
    hide Scan, V.Verifies, IsBackwardTable, StraightLine;
    BackwardTableStraight(m, layout);
    StraightLineVerifies(m, layout, [0, 1, 16], [FrameState([], []), FrameState([], [Int]), FrameState([], [])]);
  }

  /** A step that pushes a constant. */
  lemma {:induction false} PushSteps(env: Env, t: Thread, op: Opcode)
    requires t.frames != [] && Current(t).pc < |Current(t).m.code| && |Current(t).stack| < Current(t).m.maxStack
    requires FromByte(Current(t).m.code[Current(t).pc]) == Some(op) && (op.AconstNull? || op == Const(KInt, 0))
    ensures var v := if op.AconstNull? then RefValue(Reference.Null) else IntValue(0);
            var f := Current(t);
            Machine.Step(env, t) == Running(WithCurrent(t, f.(pc := f.pc + 1, stack := f.stack + [v])))
  {
    hide FromByte;
    var f := Current(t);
    var x := Fetched(op, NoOperand, f.pc + 1);
    assert FetchAt(f.m.code, f.pc) == Ok(x);
    hide FetchAt;
    var u := WithCurrent(t, f.(pc := x.next));
    assert Machine.Step(env, t) == Machine.Execute(env, u, f.pc, x);
    assert u.frames[..|u.frames| - 1] == t.frames[..|t.frames| - 1];
  }

  lemma {:induction false} BackwardTableRun(env: Env, m: Method, heap: seq<string>)
    requires IsBackwardTable(m.code) && m.maxStack == 1
    ensures var end := Run(env, Started(m, heap), 2); end.Failed? && !Benign(end.e)
  {
    BackwardTableDecoded(m.code);
    hide Decode, FromByte, OperandsUsable, Machine.Step, I32;
    var t := Started(m, heap);
    PushSteps(env, t, Const(KInt, 0));
    RefusedOperandsStop(env, Machine.Step(env, t).t);
  }

  /** The verifier lets an empty range of keys run backwards; the interpreter cannot allocate its offsets. */
  lemma {:induction false} TableGap(m: Method, env: Env, heap: seq<string>)
    requires HasBackwardTable(m)
    ensures V.Verifies(m)
    ensures var end := Run(env, Started(m, heap), 2);
            end.Failed? && !Benign(end.e)
  {
    hide Run, Started, V.Verifies, IsBackwardTable;
    BackwardTableVerifies(m);
    BackwardTableRun(env, m, heap);
  }

  // ----- Exceptions a callee throws -----

  ghost predicate Throws(m: Method) {
    && IsSmall(m) && m.handlers == [] && m.maxLocals == 0 && m.maxStack == 1
    && |m.code| == 2 && m.code[0] == 0x01 && m.code[1] == 0xbf
  }

  /** aconst_null; athrow */
  function Thrower(name: string): (m: Method)
    ensures Throws(m) && m.constants == []
  {
    Small(name, [0x01, 0xbf], 0, 1, [], [])
  }

  lemma {:induction false} ThrowerVerifies(m: Method)
    requires Throws(m)
    ensures V.Verifies(m)
  {
    assert FromByte(m.code[0]) == Some(AconstNull) && FromByte(m.code[1]) == Some(Athrow);
    hide FromByte;
    OneByte(m.code, 0, AconstNull);
    OneByte(m.code, 1, Athrow);
    PushAndReturn(m, Plain(0, 1, AconstNull), Plain(1, 2, Athrow));
  }

  lemma {:induction false} CallFetched(code: seq<byte>, pc: nat)
    requires pc + 2 < |code| && code[pc] == 0xb8 && code[pc + 1] == 0 && code[pc + 2] == 0
    ensures FromByte(code[pc]) == Some(Invokestatic)
    ensures Decode(code, pc) == Some(Plain(pc, pc + 3, Invokestatic).(cp := Some(0)))
    ensures FetchAt(code, pc) == Ok(Fetched(Invokestatic, Index(0), pc + 3))
  {
    assert FromByte(code[pc]) == Some(Invokestatic);
    assert U16(code, pc + 1) == Some(0);
    hide FromByte, U16;
    assert FetchOperands(code, pc + 1, Invokestatic) == FetchU16(code, pc + 1, Invokestatic);
  }

  /** A step that calls a method without parameters. */
  lemma {:induction false} CallSteps(env: Env, t: Thread, ref: MethodRef)
    requires t.frames != [] && Current(t).pc < |Current(t).m.code|
    requires var f := Current(t); FetchAt(f.m.code, f.pc) == Ok(Fetched(Invokestatic, Index(0), f.pc + 3))
    requires Entry(Current(t).m.methodRefs, 0) == Some(ref) && ref.descriptor == "()V" && ref in env.table
    ensures var f := Current(t);
            Machine.Step(env, t) ==
            Running(t.(frames := t.frames[..|t.frames| - 1] + [f.(pc := f.pc + 3)] + [NewFrame(env.table[ref], [])]))
  {
    hide FetchAt, NewFrame;
    SmallDescriptor(ref.descriptor);
    hide ParseMethodDescriptor, ArgCount;
    var f := Current(t);
    var g := f.(pc := f.pc + 3);
    var u := WithCurrent(t, g);
    assert u.frames[..|u.frames| - 1] == t.frames[..|t.frames| - 1];
    assert g.stack[..|g.stack|] == g.stack && g.stack[|g.stack|..] == [];
    assert Machine.Step(env, t) == Invoke(env, u, 0);
  }

  /** A step that throws null, which is a NullPointerException. */
  lemma {:induction false} ThrowSteps(env: Env, t: Thread)
    requires t.frames != [] && Current(t).pc < |Current(t).m.code|
    requires FromByte(Current(t).m.code[Current(t).pc]) == Some(Athrow) && Current(t).stack == [RefValue(Reference.Null)]
    ensures var f := Current(t);
            Machine.Step(env, t) ==
            ThrowNew(env, WithCurrent(t, f.(pc := f.pc + 1, stack := [])), NULL_POINTER_EXCEPTION)
  {
    hide FromByte, ThrowNew;
    var f := Current(t);
    var x := Fetched(Athrow, NoOperand, f.pc + 1);
    assert FetchAt(f.m.code, f.pc) == Ok(x);
    hide FetchAt;
    var u := WithCurrent(t, f.(pc := x.next));
    assert Machine.Step(env, t) == ExecAthrow(env, u);
    assert u.frames[..|u.frames| - 1] == t.frames[..|t.frames| - 1];
  }

  /** Runs compose. */
  lemma {:induction false} RunThen(env: Env, t: Thread, i: nat, u: Thread, j: nat)
    requires t.frames != [] && u.frames != [] && Run(env, t, i) == Running(u)
    ensures Run(env, t, i + j) == Run(env, u, j)
    decreases i
  {
    hide Machine.Step;
    if i > 0 {
      RunThen(env, Machine.Step(env, t).t, i - 1, u, j);
    }
  }

  /** What becomes of a caller whose callee throws: unwinding resumes behind the call. */
  lemma {:induction false} CalleeThrows(env: Env, f: FrameV, ref: MethodRef, heap: seq<string>)
    requires f.pc < |f.m.code| && FetchAt(f.m.code, f.pc) == Ok(Fetched(Invokestatic, Index(0), f.pc + 3))
    requires Entry(f.m.methodRefs, 0) == Some(ref) && ref.descriptor == "()V"
    requires ref in env.table && Throws(env.table[ref])
    ensures Run(env, Thread([f], heap), 3) ==
            Throw(env, Thread([f.(pc := f.pc + 3)], heap + [NULL_POINTER_EXCEPTION]), Heap(|heap|))
  {
    hide FromByte, FetchAt, Machine.Step, IsSmall, ThrowNew;
    var callee := env.table[ref];
    assert FromByte(callee.code[0]) == Some(AconstNull) && FromByte(callee.code[1]) == Some(Athrow) by {
      ThrowerBytes(callee.code);
    }
    var t0 := Thread([f], heap);
    CallSteps(env, t0, ref);
    var caller := f.(pc := f.pc + 3);
    var t1 := Thread([caller, NewFrame(callee, [])], heap);
    assert t0.frames[..|t0.frames| - 1] + [caller] + [NewFrame(callee, [])] == t1.frames;
    PushSteps(env, t1, AconstNull);
    var g := NewFrame(callee, []).(pc := 1, stack := [RefValue(Reference.Null)]);
    var t2 := Thread([caller, g], heap);
    assert Machine.Step(env, t1) == Running(t2) by {
      assert t1.frames[..1] + [g] == t2.frames;
      assert NewFrame(callee, []).stack + [RefValue(Reference.Null)] == [RefValue(Reference.Null)];
    }
    ThrowSteps(env, t2);
    var h := g.(pc := 2, stack := []);
    assert WithCurrent(t2, h) == Thread([caller, h], heap);
    UncaughtByCallee(env, caller, h, heap);
    assert Run(env, t2, 1) == Machine.Step(env, t2);
    assert Run(env, t1, 2) == Run(env, t2, 1);
  }

  lemma {:induction false} ThrowerBytes(code: seq<byte>)
    requires |code| == 2 && code[0] == 0x01 && code[1] == 0xbf
    ensures FromByte(code[0]) == Some(AconstNull) && FromByte(code[1]) == Some(Athrow)
  {
  }

  /** A callee without handlers passes an exception on to its caller. */
  lemma {:induction false} UncaughtByCallee(env: Env, caller: FrameV, h: FrameV, heap: seq<string>)
    requires h.m.handlers == []
    ensures ThrowNew(env, Thread([caller, h], heap), NULL_POINTER_EXCEPTION)
            == Throw(env, Thread([caller], heap + [NULL_POINTER_EXCEPTION]), Heap(|heap|))
  {
    assert [caller, h][..1] == [caller];
  }

  // ----- A handler that starts inside an instruction -----

  ghost predicate IsCutCall(m: Method, ref: MethodRef) {
    && IsSmall(m) && m.maxLocals == 0 && m.maxStack == 1
    && |m.code| == 6 && m.code[0] == 0xb8 && m.code[1] == 0 && m.code[2] == 0
    && m.code[3] == 0xb1 && m.code[4] == 0x60 && m.code[5] == 0xb1
    && m.methodRefs == [Some(ref)] && m.handlers == [Handler(1, 3, 4, None)]
  }

  /** invokestatic; return; and from 4 on a handler: iadd; return. Its range starts at the call's operand. */
  function CutCall(name: string, ref: MethodRef): (m: Method)
    ensures IsCutCall(m, ref)
  {
    Small(name, [0xb8, 0, 0, 0xb1, 0x60, 0xb1], 0, 1, [Some(ref)], [Handler(1, 3, 4, None)])
  }

  const CALL := Plain(0, 3, Invokestatic).(cp := Some(0))

  const ADD := Binary(KInt, Add)

  lemma {:induction false} CutCallDecoded(code: seq<byte>)
    requires |code| == 6 && code[0] == 0xb8 && code[1] == 0 && code[2] == 0
    requires code[3] == 0xb1 && code[4] == 0x60 && code[5] == 0xb1
    ensures FromByte(code[4]) == Some(ADD) && FetchAt(code, 0) == Ok(Fetched(Invokestatic, Index(0), 3))
    ensures Decode(code, 0) == Some(CALL) && Decode(code, 3) == Some(Plain(3, 4, Opcode.Return))
    ensures Decode(code, 4) == Some(Plain(4, 5, ADD)) && Decode(code, 5) == Some(Plain(5, 6, Opcode.Return))
  {
    assert FromByte(code[3]) == Some(Opcode.Return) && FromByte(code[5]) == Some(Opcode.Return);
    assert FromByte(code[4]) == Some(ADD);
    hide FromByte, FetchAt, Decode;
    CallFetched(code, 0);
    OneByte(code, 3, Opcode.Return);
    OneByte(code, 4, ADD);
    OneByte(code, 5, Opcode.Return);
  }

  lemma {:induction false} CutCallScanned(m: Method, ref: MethodRef)
    requires IsCutCall(m, ref)
    ensures FromByte(m.code[4]) == Some(ADD) && FetchAt(m.code, 0) == Ok(Fetched(Invokestatic, Index(0), 3))
    ensures Scan(m) == Some(map[0 := CALL, 3 := Plain(3, 4, Opcode.Return), 4 := Plain(4, 5, ADD),
                                5 := Plain(5, 6, Opcode.Return)])
  {
    hide FromByte, FetchAt, IsSmall;
    CutCallDecoded(m.code);
    hide Decode;
    var leave, add, end := Plain(3, 4, Opcode.Return), Plain(4, 5, ADD), Plain(5, 6, Opcode.Return);
    assert LayoutFrom(m, 6) == Some(map[]);
    LayoutStep(m, 5, end, map[]);
    LayoutStep(m, 4, add, map[5 := end]);
    LayoutStep(m, 3, leave, map[5 := end][4 := add]);
    LayoutStep(m, 0, CALL, map[5 := end][4 := add][3 := leave]);
    assert map[5 := end][4 := add][3 := leave][0 := CALL] == map[0 := CALL, 3 := leave, 4 := add, 5 := end];
  }

  lemma {:induction false} CutCallStraight(m: Method, ref: MethodRef, layout: Layout)
    requires IsCutCall(m, ref) && ref.descriptor == "()V"
    requires layout == map[0 := CALL, 3 := Plain(3, 4, Opcode.Return), 4 := Plain(4, 5, ADD),
                           5 := Plain(5, 6, Opcode.Return)]
    ensures StraightLine(m, layout, [0, 3], [FrameState([], []), FrameState([], [])])
  {
    hide Flows, Apply;
    var leave, empty := Plain(3, 4, Opcode.Return), FrameState([], []);
    assert EntryState(0) == empty;
    CaughtByOne(m.handlers[0], 0, []);
    CaughtByOne(m.handlers[0], 3, []);
    CallApplies(m, CALL, empty);
    FlowsFrom(m, CALL, empty, empty, []);
    EndApplies(m, leave, empty);
    FlowsFrom(m, leave, empty, empty, []);
    var none: seq<Flow> := [];
    assert none + none == none && none + [Flow(3, empty)] == [Flow(3, empty)];
    var path, frames := [0, 3], [empty, empty];
    assert GoesOn(m, layout, path, frames, 0) && GoesOn(m, layout, path, frames, 1);
  }

  lemma {:induction false} CutCallVerifies(m: Method, ref: MethodRef)
    requires IsCutCall(m, ref) && ref.descriptor == "()V"
    ensures V.Verifies(m)
  {
    CutCallScanned(m, ref);
    var layout := Scan(m).value;
    assert m.code != [] && V.HandlersValid(m, layout);
    CutCallStraight(m, ref, layout);
    hide Scan, V.Verifies, StraightLine;
    StraightLineVerifies(m, layout, [0, 3], [FrameState([], []), FrameState([], [])]);
  }

  /** In the handler nothing was checked: it adds an exception to nothing at all. */
  lemma {:induction false} HandlerAdds(env: Env, t: Thread, r: Reference)
    requires t.frames != [] && Current(t).pc < |Current(t).m.code| && Current(t).stack == [RefValue(r)]
    requires FromByte(Current(t).m.code[Current(t).pc]) == Some(ADD)
    ensures Run(env, t, 1) == Outcome.Failed(TypeMismatch)
  {
    hide FromByte;
    var f := Current(t);
    var x := Fetched(ADD, NoOperand, f.pc + 1);
    assert FetchAt(f.m.code, f.pc) == Ok(x);
    hide FetchAt;
    var g := f.(pc := x.next);
    assert ExecFrame(env.floats, g, f.pc, x) == ExecBinary(env.floats, g, KInt, Add);
    assert ExecBinary(env.floats, g, KInt, Add) == Fail(TypeMismatch);
    hide ExecFrame, ExecBinary;
    assert Machine.Execute(env, WithCurrent(t, g), f.pc, x) == Outcome.Failed(TypeMismatch);
  }

  lemma {:induction false} CutCallRun(env: Env, m: Method, ref: MethodRef, heap: seq<string>)
    requires IsCutCall(m, ref) && ref.descriptor == "()V" && ref in env.table && Throws(env.table[ref])
    ensures Run(env, Started(m, heap), 4) == Outcome.Failed(TypeMismatch)
  {
    CutCallScanned(m, ref);
    hide Scan, FromByte, FetchAt, Throws, Machine.Step, Run;
    var t, f := Started(m, heap), NewFrame(m, []);
    CalleeThrows(env, f, ref, heap);
    var r, grown := Reference.Heap(|heap|), heap + [NULL_POINTER_EXCEPTION];
    var u := Thread([f.(pc := 4, stack := [RefValue(r)])], grown);
    assert FindHandler(env, m.handlers, 2, NULL_POINTER_EXCEPTION) == Some(Handler(1, 3, 4, None));
    assert Throw(env, Thread([f.(pc := 3)], grown), r) == Running(u) by {
      assert [f.(pc := 3)][..0] + [f.(pc := 4, stack := [RefValue(r)])] == u.frames;
    }
    RunThen(env, t, 3, u, 1);
    HandlerAdds(env, u, r);
  }

  /**
   The interpreter enters the handler, because its range covers the call's last byte; the
   verifier did not look at it, because the range does not cover the first.
   */
  lemma {:induction false} HandlerGap(m: Method, env: Env, ref: MethodRef, heap: seq<string>)
    requires IsCutCall(m, ref) && ref.descriptor == "()V" && ref in env.table && Throws(env.table[ref])
    ensures V.Verifies(m) && V.Verifies(env.table[ref])
    ensures Run(env, Started(m, heap), 4) == Outcome.Failed(TypeMismatch)
  {
    hide IsCutCall, Throws, V.Verifies, Run;
    CutCallVerifies(m, ref);
    ThrowerVerifies(env.table[ref]);
    CutCallRun(env, m, ref, heap);
  }

  // ----- A handler in a method without a stack -----

  /** A call whose exceptions a handler catches. */
  ghost predicate IsGuarded(m: Method, ref: MethodRef) {
    && IsSmall(m) && m.maxLocals == 0
    && |m.code| == 5 && m.code[0] == 0xb8 && m.code[1] == 0 && m.code[2] == 0 && m.code[3] == 0xb1 && m.code[4] == 0xb1
    && m.methodRefs == [Some(ref)] && m.handlers == [Handler(0, 3, 4, None)]
  }

  /** invokestatic; return; and from 4 on a handler that returns. */
  function Guarded(name: string, ref: MethodRef, maxStack: nat): (m: Method)
    ensures IsGuarded(m, ref) && m.maxStack == maxStack && m.constants == []
  {
    Small(name, [0xb8, 0, 0, 0xb1, 0xb1], 0, maxStack, [Some(ref)], [Handler(0, 3, 4, None)])
  }

  lemma {:induction false} GuardedDecoded(code: seq<byte>)
    requires |code| == 5 && code[0] == 0xb8 && code[1] == 0 && code[2] == 0 && code[3] == 0xb1 && code[4] == 0xb1
    ensures FetchAt(code, 0) == Ok(Fetched(Invokestatic, Index(0), 3)) && Decode(code, 0) == Some(CALL)
    ensures Decode(code, 3) == Some(Plain(3, 4, Opcode.Return)) && Decode(code, 4) == Some(Plain(4, 5, Opcode.Return))
  {
    assert FromByte(code[3]) == Some(Opcode.Return) && FromByte(code[4]) == Some(Opcode.Return);
    hide FromByte, FetchAt, Decode;
    CallFetched(code, 0);
    OneByte(code, 3, Opcode.Return);
    OneByte(code, 4, Opcode.Return);
  }

  lemma {:induction false} GuardedScanned(m: Method, ref: MethodRef)
    requires IsGuarded(m, ref)
    ensures FetchAt(m.code, 0) == Ok(Fetched(Invokestatic, Index(0), 3))
    ensures Scan(m) == Some(map[0 := CALL, 3 := Plain(3, 4, Opcode.Return), 4 := Plain(4, 5, Opcode.Return)])
  {
    hide FetchAt, Decode, FromByte, IsSmall;
    GuardedDecoded(m.code);
    var leave, end := Plain(3, 4, Opcode.Return), Plain(4, 5, Opcode.Return);
    assert LayoutFrom(m, 5) == Some(map[]);
    LayoutStep(m, 4, end, map[]);
    LayoutStep(m, 3, leave, map[4 := end]);
    LayoutStep(m, 0, CALL, map[4 := end][3 := leave]);
    assert map[4 := end][3 := leave][0 := CALL] == map[0 := CALL, 3 := leave, 4 := end];
  }

  lemma {:induction false} GuardedFlows(m: Method, ref: MethodRef)
    requires IsGuarded(m, ref) && ref.descriptor == "()V"
    ensures var empty, thrown := FrameState([], []), FrameState([], [CatchType(Handler(0, 3, 4, None))]);
            && Flows(m, CALL, empty) == Some([Flow(4, thrown)] + [Flow(3, empty)])
            && Flows(m, Plain(3, 4, Opcode.Return), empty) == Some([])
            && Flows(m, Plain(4, 5, Opcode.Return), thrown) == Some([])
  {
    hide Flows, Apply;
    var empty, thrown := FrameState([], []), FrameState([], [CatchType(Handler(0, 3, 4, None))]);
    CaughtByOne(m.handlers[0], 0, []);
    CaughtByOne(m.handlers[0], 3, []);
    CaughtByOne(m.handlers[0], 4, []);
    CallApplies(m, CALL, empty);
    FlowsFrom(m, CALL, empty, empty, [Flow(4, thrown)]);
    EndApplies(m, Plain(3, 4, Opcode.Return), empty);
    FlowsFrom(m, Plain(3, 4, Opcode.Return), empty, empty, []);
    EndApplies(m, Plain(4, 5, Opcode.Return), thrown);
    FlowsFrom(m, Plain(4, 5, Opcode.Return), thrown, empty, []);
    var none: seq<Flow> := [];
    assert none + none == none;
  }

  lemma {:induction false} GuardedSizes(m: Method, ref: MethodRef)
    requires IsGuarded(m, ref)
    ensures |m.code| == 5 && m.maxLocals == 0 && IsSmall(m)
  {
  }

  lemma {:induction false} GuardedHandlers(m: Method, ref: MethodRef, layout: Layout)
    requires IsGuarded(m, ref) && 0 in layout && 3 in layout && 4 in layout
    ensures V.HandlersValid(m, layout)
  {
  }

  /** The call flows to the handler, which has no slot for the exception, and behind the call. */
  lemma {:induction false} GuardedFirst(m: Method, ref: MethodRef, layout: Layout) returns (states: W.States)
    requires IsGuarded(m, ref) && ref.descriptor == "()V" && 0 in layout && layout[0] == CALL
    ensures Reaches(m, layout, [0], W.Config(states, [4, 3])) && |states| == 5
    ensures states[3] == Some(FrameState([], [])) && states[4] == Some(FrameState([], [CatchType(Handler(0, 3, 4, None))]))
  {
    hide Flows, IsGuarded, IsSmall, W.MergeFlows, W.Start, Reaches;
    GuardedSizes(m, ref);
    GuardedFlows(m, ref);
    Begin(m, layout);
    var empty, thrown := FrameState([], []), FrameState([], [CatchType(Handler(0, 3, 4, None))]);
    assert EntryState(0) == empty;
    var start, f, g := W.Start(m, empty), Flow(4, thrown), Flow(3, empty);
    MergedTwoFresh(start.states, f, g);
    states := start.states[4 := Some(thrown)][3 := Some(empty)];
    Serve(m, layout, [], start, 0, [f] + [g], states, [4] + [3], [4, 3]);
    assert [] + [0] == [0];
  }

  /** A return flows nowhere, so serving it only takes it off the worklist. */
  lemma {:induction false} ReturnServed(
      m: Method, layout: Layout, picks: seq<nat>, states: W.States, p: nat, rest: seq<nat>)
    requires m.code != [] && Reaches(m, layout, picks, W.Config(states, [p] + rest))
    requires p < |states| && states[p].Some? && p in layout && Flows(m, layout[p], states[p].value) == Some([])
    ensures Reaches(m, layout, picks + [0], W.Config(states, rest))
  {
    hide Flows, W.MergeFlows, Reaches;
    MergedNone(states);
    Serve(m, layout, picks, W.Config(states, [p] + rest), 0, [], states, [], rest);
  }

  lemma {:induction false} GuardedAnalysed(m: Method, ref: MethodRef, layout: Layout) returns (states: W.States)
    requires IsGuarded(m, ref) && ref.descriptor == "()V" && 0 in layout && layout[0] == CALL
    requires 3 in layout && layout[3] == Plain(3, 4, Opcode.Return) && 4 in layout && layout[4] == Plain(4, 5, Opcode.Return)
    ensures Reaches(m, layout, [0, 0, 0], W.Config(states, []))
  {
    states := GuardedFirst(m, ref, layout);
    GuardedFlows(m, ref);
    assert m.code != [];
    hide Flows, IsGuarded, Reaches;
    assert [4, 3] == [4] + [3] && [3] == [3] + [];
    assert [0] + [0] == [0, 0] && [0, 0] + [0] == [0, 0, 0];
    ReturnServed(m, layout, [0], states, 4, [3]);
    ReturnServed(m, layout, [0, 0], states, 3, []);
  }

  lemma {:induction false} GuardedVerifies(m: Method, ref: MethodRef)
    requires IsGuarded(m, ref) && ref.descriptor == "()V"
    ensures V.Verifies(m)
  {
    hide Scan, V.Verifies, V.HandlersValid, IsSmall, Reaches, IsGuarded;
    GuardedScanned(m, ref);
    var layout := Scan(m).value;
    GuardedSizes(m, ref);
    GuardedHandlers(m, ref, layout);
    var states := GuardedAnalysed(m, ref, layout);
    assert V.Fifo([0, 0, 0]);
    VerifiedByRun(m, layout, [0, 0, 0], W.Config(states, []));
  }

  lemma {:induction false} NoSlotRun(env: Env, m: Method, ref: MethodRef, heap: seq<string>)
    requires IsGuarded(m, ref) && m.maxStack == 0 && ref.descriptor == "()V" && ref in env.table && Throws(env.table[ref])
    ensures Run(env, Started(m, heap), 3) == Outcome.Failed(StackOverflow)
  {
    GuardedScanned(m, ref);
    hide Scan, FetchAt, Throws, Machine.Step, Run;
    var f := NewFrame(m, []);
    CalleeThrows(env, f, ref, heap);
    assert FindHandler(env, m.handlers, 2, NULL_POINTER_EXCEPTION) == Some(Handler(0, 3, 4, None));
  }

  /** The verifier puts the exception on the handler's stack without asking whether there is one. */
  lemma {:induction false} SlotGap(m: Method, env: Env, ref: MethodRef, heap: seq<string>)
    requires IsGuarded(m, ref) && m.maxStack == 0 && ref.descriptor == "()V" && ref in env.table && Throws(env.table[ref])
    ensures V.Verifies(m) && V.Verifies(env.table[ref])
    ensures Run(env, Started(m, heap), 3) == Outcome.Failed(StackOverflow)
  {
    hide IsGuarded, Throws, V.Verifies, Run;
    GuardedVerifies(m, ref);
    ThrowerVerifies(env.table[ref]);
    NoSlotRun(env, m, ref, heap);
  }
}
