/**
 Acceptance depends on the order in which the worklist is served: Top absorbs a conflict
 that the same two types, met first, would raise.
 */
module OrderGap {
  import opened Wrappers
  import opened Words
  import opened Bytecode
  import opened Program
  import opened VerifyTypes
  import opened Decoder
  import opened Transfer
  import W = Worklist
  import V = Verifier
  import opened SmallMethods
  import opened MergeOrder

  ghost predicate IsMixed(m: Method) {
    && IsSmall(m) && m.maxLocals == 1 && m.maxStack == 1
    && |m.code| == 7 && m.code[0] == 0x03 && m.code[1] == 0x3b && m.code[2] == 0x0b && m.code[3] == 0x43
    && m.code[4] == 0xb1 && m.code[5] == 0xbf && m.code[6] == 0xbf
    && m.handlers == [Handler(0, 1, 5, None), Handler(2, 3, 6, None), Handler(4, 6, 6, None)]
  }

  /**
   iconst_0; istore_0; fconst_0; fstore_0; return; athrow; athrow. The first instruction's
   handler is at 5; the handler at 6 sees local 0 unset from 5, as an int from 2 and as a
   float from 4.
   */
  function Mixed(name: string): (m: Method)
    ensures IsMixed(m)
  {
    Small(name, [0x03, 0x3b, 0x0b, 0x43, 0xb1, 0xbf, 0xbf], 1, 1, [],
          [Handler(0, 1, 5, None), Handler(2, 3, 6, None), Handler(4, 6, 6, None)])
  }

  const SET_INT := Plain(1, 2, StoreN(KInt, 0)).(local := Some(0))

  const SET_FLOAT := Plain(3, 4, StoreN(KFloat, 0)).(local := Some(0))

  /** The instructions of the method. */
  function MixedLayout(): Layout {
    map[0 := Plain(0, 1, Const(KInt, 0)), 1 := SET_INT, 2 := Plain(2, 3, Const(KFloat, 0)), 3 := SET_FLOAT,
        4 := Plain(4, 5, Opcode.Return), 5 := Plain(5, 6, Athrow), 6 := Plain(6, 7, Athrow)]
  }

  lemma {:induction false} StoreByte(code: seq<byte>, pc: nat, k: Kind)
    requires pc < |code| && FromByte(code[pc]) == Some(StoreN(k, 0))
    ensures Decode(code, pc) == Some(Plain(pc, pc + 1, StoreN(k, 0)).(local := Some(0)))
  {
    hide FromByte;
  }

  lemma {:induction false} MixedBytes(code: seq<byte>)
    requires |code| == 7 && code[0] == 0x03 && code[1] == 0x3b && code[2] == 0x0b && code[3] == 0x43
    requires code[4] == 0xb1 && code[5] == 0xbf && code[6] == 0xbf
    ensures FromByte(code[0]) == Some(Const(KInt, 0)) && FromByte(code[1]) == Some(StoreN(KInt, 0))
    ensures FromByte(code[2]) == Some(Const(KFloat, 0)) && FromByte(code[3]) == Some(StoreN(KFloat, 0))
    ensures FromByte(code[4]) == Some(Opcode.Return) && FromByte(code[5]) == Some(Athrow)
    ensures FromByte(code[6]) == Some(Athrow)
  {
  }

  lemma {:induction false} MixedDecoded(m: Method)
    requires IsMixed(m)
    ensures forall p :: p in MixedLayout() ==> Decode(m.code, p) == Some(MixedLayout()[p])
  {
    hide FromByte, Decode, IsSmall;
    MixedBytes(m.code);
    OneByte(m.code, 0, Const(KInt, 0));
    StoreByte(m.code, 1, KInt);
    OneByte(m.code, 2, Const(KFloat, 0));
    StoreByte(m.code, 3, KFloat);
    OneByte(m.code, 4, Opcode.Return);
    OneByte(m.code, 5, Athrow);
    OneByte(m.code, 6, Athrow);
  }

  lemma {:induction false} MixedOffsets()
    ensures forall p :: p in MixedLayout() <==> 0 <= p < 7
  {
  }

  /** Every instruction takes one byte, names no pool entry and does not branch. */
  lemma {:induction false} MixedTiles(m: Method, p: nat)
    requires p < 7
    ensures MixedLayout()[p].next == p + 1 && PoolOk(m, MixedLayout()[p]) && MixedLayout()[p].targets == []
  {
  }

  lemma {:induction false} MixedScanned(m: Method)
    requires IsMixed(m)
    ensures Scan(m) == Some(MixedLayout())
  {
    MixedDecoded(m);
    MixedOffsets();
    forall p: nat | p < 7
      ensures MixedLayout()[p].next == p + 1 && PoolOk(m, MixedLayout()[p]) && MixedLayout()[p].targets == []
    {
      MixedTiles(m, p);
    }
    assert |m.code| == 7;
    hide Decode, IsMixed, MixedLayout, PoolOk;
    ByteByByte(m, MixedLayout(), 0);
    assert (map p | p in MixedLayout() && p >= 0 :: MixedLayout()[p]) == MixedLayout();
    assert BranchesLand(MixedLayout());
  }

  // ----- Flows -----

  /** One local and an empty stack. */
  function Bare(t: VerifyType): FrameState {
    FrameState([t], [])
  }

  function With(t: VerifyType, top: VerifyType): FrameState {
    FrameState([t], [top])
  }

  const THROWN := Reference(Some("java/lang/Throwable"))

  /** The handlers' flows, one handler after the other. */
  lemma {:induction false} CaughtByThree(m: Method, pc: nat, t: VerifyType)
    requires IsMixed(m)
    ensures HandlerFlows(m.handlers, pc, [t]) ==
            (if pc == 0 then [Flow(5, With(t, THROWN))] else [])
            + (if pc == 2 || pc == 4 || pc == 5 then [Flow(6, With(t, THROWN))] else [])
  {
    var hs := m.handlers;
    assert hs[1..] == [hs[1], hs[2]] && hs[1..][1..] == [hs[2]];
    CaughtByOne(hs[2], pc, [t]);
    assert HandlerFlows(hs[1..], pc, [t]) ==
           if pc == 2 || pc == 4 || pc == 5 then [Flow(6, With(t, THROWN))] else [];
  }

  lemma {:induction false} StoreApplies(m: Method, insn: Insn, before: VerifyType)
    requires m.descriptor == "()V" && insn.local == Some(0) && (insn.op == StoreN(KInt, 0) || insn.op == StoreN(KFloat, 0))
    requires before == Top || before == Int
    ensures Apply(m, insn, With(before, KindType(insn.op.k))) == Some(Bare(KindType(insn.op.k)))
  {
    SmallDescriptor(m.descriptor);
    var t := KindType(insn.op.k);
    assert [before][0 := t] == [t] && [t][..0] == [];
  }

  lemma {:induction false} TopFlows(m: Method)
    requires IsMixed(m)
    ensures Flows(m, MixedLayout()[0], Bare(Top)) == Some([Flow(5, With(Top, THROWN))] + [Flow(1, With(Top, Int))])
  {
    CaughtByThree(m, 0, Top);
    assert m.descriptor == "()V" && m.maxStack == 1;
    hide IsMixed, HandlerFlows, Apply, Flows;
    var push := MixedLayout()[0];
    PushApplies(m, push, Bare(Top));
    assert Bare(Top).stack + [Int] == [Int];
    var none: seq<Flow> := [];
    assert [Flow(5, With(Top, THROWN))] + none == [Flow(5, With(Top, THROWN))];
    FlowsFrom(m, push, Bare(Top), With(Top, Int), [Flow(5, With(Top, THROWN))]);
  }

  lemma {:induction false} IntFlows(m: Method)
    requires IsMixed(m)
    ensures Flows(m, MixedLayout()[2], Bare(Int)) == Some([Flow(6, With(Int, THROWN))] + [Flow(3, With(Int, Float))])
  {
    CaughtByThree(m, 2, Int);
    assert m.descriptor == "()V" && m.maxStack == 1;
    hide IsMixed, HandlerFlows, Apply, Flows;
    var push := MixedLayout()[2];
    PushApplies(m, push, Bare(Int));
    assert Bare(Int).stack + [Float] == [Float];
    var none: seq<Flow> := [];
    assert none + [Flow(6, With(Int, THROWN))] == [Flow(6, With(Int, THROWN))];
    FlowsFrom(m, push, Bare(Int), With(Int, Float), [Flow(6, With(Int, THROWN))]);
  }

  lemma {:induction false} StoreFlows(m: Method)
    requires IsMixed(m)
    ensures Flows(m, MixedLayout()[1], With(Top, Int)) == Some([Flow(2, Bare(Int))])
    ensures Flows(m, MixedLayout()[3], With(Int, Float)) == Some([Flow(4, Bare(Float))])
  {
    CaughtByThree(m, 1, Top);
    CaughtByThree(m, 3, Int);
    assert m.descriptor == "()V";
    hide IsMixed, HandlerFlows, Apply, Flows;
    StoreApplies(m, SET_INT, Top);
    StoreApplies(m, SET_FLOAT, Int);
    var none: seq<Flow> := [];
    assert none + none == none && none + [Flow(2, Bare(Int))] == [Flow(2, Bare(Int))];
    assert none + [Flow(4, Bare(Float))] == [Flow(4, Bare(Float))];
    FlowsFrom(m, SET_INT, With(Top, Int), Bare(Int), []);
    FlowsFrom(m, SET_FLOAT, With(Int, Float), Bare(Float), []);
  }

  lemma {:induction false} EndFlows(m: Method)
    requires IsMixed(m)
    ensures Flows(m, MixedLayout()[4], Bare(Float)) == Some([Flow(6, With(Float, THROWN))])
    ensures Flows(m, MixedLayout()[5], With(Top, THROWN)) == Some([Flow(6, With(Top, THROWN))])
    ensures Flows(m, MixedLayout()[6], With(Top, THROWN)) == Some([])
  {
    CaughtByThree(m, 4, Float);
    CaughtByThree(m, 5, Top);
    CaughtByThree(m, 6, Top);
    assert m.descriptor == "()V";
    hide IsMixed, HandlerFlows, Apply, Flows;
    EndApplies(m, MixedLayout()[4], Bare(Float));
    EndApplies(m, MixedLayout()[5], With(Top, THROWN));
    EndApplies(m, MixedLayout()[6], With(Top, THROWN));
    var none: seq<Flow> := [];
    var f, t := [Flow(6, With(Float, THROWN))], [Flow(6, With(Top, THROWN))];
    assert none + none == none && none + f == f && f + none == f && none + t == t && t + none == t;
    FlowsFrom(m, MixedLayout()[4], Bare(Float), Bare(Float), f);
    FlowsFrom(m, MixedLayout()[5], With(Top, THROWN), Bare(Top), t);
    FlowsFrom(m, MixedLayout()[6], With(Top, THROWN), Bare(Top), []);
  }

  // ----- Merging at the handler -----

  /** Where the handler's local is already Top, any type is absorbed without a change. */
  lemma {:induction false} Absorbs(states: W.States, t: VerifyType)
    requires 6 < |states| && states[6] == Some(With(Top, THROWN))
    ensures W.MergeInto(states, Flow(6, With(t, THROWN))) == Some((states, false))
  {
    var e, f := With(Top, THROWN), With(t, THROWN);
    assert Padded(e.locals, 1) == [Top] && Padded(f.locals, 1) == [t];
    assert MergeAll([Top], [t]) == [Top] && MergeAll([THROWN], [THROWN]) == [THROWN];
    assert states[6 := Some(e)] == states;
  }

  /** Where it is an int, a float is a conflict. */
  lemma {:induction false} Conflicts(states: W.States)
    requires 6 < |states| && states[6] == Some(With(Int, THROWN))
    ensures W.MergeFlows(states, [Flow(6, With(Float, THROWN))]) == None
  {
    var e, f := With(Int, THROWN), With(Float, THROWN);
    assert Padded(e.locals, 1) == [Int] && Padded(f.locals, 1) == [Float];
    assert MergeType([Int][0], [Float][0]).None?;
    assert W.MergeInto(states, Flow(6, f)).None?;
    assert [Flow(6, f)][0] == Flow(6, f);
  }

  /** The first offset in any order, and both its flows. */
  lemma {:induction false} FirstServed(m: Method) returns (states: W.States)
    requires IsMixed(m)
    ensures Reaches(m, MixedLayout(), [0], W.Config(states, [5, 1])) && |states| == 7
    ensures states[1] == Some(With(Top, Int)) && states[5] == Some(With(Top, THROWN))
    ensures states[2].None? && states[3].None? && states[4].None? && states[6].None?
  {
    TopFlows(m);
    MixedOffsets();
    Begin(m, MixedLayout());
    assert |m.code| == 7 && m.maxLocals == 1;
    hide IsMixed, Flows, W.MergeFlows, W.Start, Reaches, MixedLayout;
    var start := W.Start(m, EntryState(1));
    assert EntryState(1) == Bare(Top);
    var f, g := Flow(5, With(Top, THROWN)), Flow(1, With(Top, Int));
    MergedTwoFresh(start.states, f, g);
    states := start.states[5 := Some(f.state)][1 := Some(g.state)];
    Serve(m, MixedLayout(), [], start, 0, [f] + [g], states, [5] + [1], [5, 1]);
    assert [] + [0] == [0];
  }

  /** An int reaches the handler and a float the end of the path, in this order. */
  lemma {:induction false} PathServed(m: Method, picks: seq<nat>, c: W.Config, k: nat) returns (states: W.States)
    requires IsMixed(m) && Reaches(m, MixedLayout(), picks, c) && k < |c.queue| && c.queue[k] == 1 && |c.states| == 7
    requires c.states[1] == Some(With(Top, Int)) && c.states[2].None?
    ensures Reaches(m, MixedLayout(), picks + [k], W.Config(states, c.queue[..k] + c.queue[k + 1..] + [2]))
    ensures states == c.states[2 := Some(Bare(Int))]
  {
    StoreFlows(m);
    MixedOffsets();
    assert m.code != [];
    hide IsMixed, Flows, W.MergeFlows, Reaches, MixedLayout;
    var f := Flow(2, Bare(Int));
    states := c.states[2 := Some(Bare(Int))];
    MergedFresh(c.states, f);
    Serve(m, MixedLayout(), picks, c, k, [f], states, [2], c.queue[..k] + c.queue[k + 1..] + [2]);
  }

  lemma {:induction false} FloatServed(m: Method, picks: seq<nat>, c: W.Config, k: nat) returns (states: W.States)
    requires IsMixed(m) && Reaches(m, MixedLayout(), picks, c) && k < |c.queue| && c.queue[k] == 3 && |c.states| == 7
    requires c.states[3] == Some(With(Int, Float)) && c.states[4].None?
    ensures Reaches(m, MixedLayout(), picks + [k], W.Config(states, c.queue[..k] + c.queue[k + 1..] + [4]))
    ensures states == c.states[4 := Some(Bare(Float))]
  {
    StoreFlows(m);
    MixedOffsets();
    assert m.code != [];
    hide IsMixed, Flows, W.MergeFlows, Reaches, MixedLayout;
    var f := Flow(4, Bare(Float));
    states := c.states[4 := Some(Bare(Float))];
    MergedFresh(c.states, f);
    Serve(m, MixedLayout(), picks, c, k, [f], states, [4], c.queue[..k] + c.queue[k + 1..] + [4]);
  }

  // ----- Oldest entry first -----

  /** The unset local reaches the handler before the int and the float. */
  lemma {:induction false} UnsetFirst(m: Method) returns (states: W.States)
    requires IsMixed(m)
    ensures Reaches(m, MixedLayout(), [0, 0, 0, 0], W.Config(states, [2])) && |states| == 7
    ensures states[2] == Some(Bare(Int)) && states[6] == Some(With(Top, THROWN)) && states[3].None? && states[4].None?
  {
    var s1 := FirstServed(m);
    EndFlows(m);
    MixedOffsets();
    assert m.code != [];
    hide Flows, W.MergeFlows, Reaches, MixedLayout;
    var f := Flow(6, With(Top, THROWN));
    var s2 := s1[6 := Some(f.state)];
    MergedFresh(s1, f);
    Serve(m, MixedLayout(), [0], W.Config(s1, [5, 1]), 0, [f], s2, [6], [1, 6]);
    assert [0] + [0] == [0, 0] && [0, 0] + [0] == [0, 0, 0] && [0, 0, 0] + [0] == [0, 0, 0, 0];
    states := PathServed(m, [0, 0], W.Config(s2, [1, 6]), 0);
    assert [1, 6][..0] + [1, 6][1..] + [2] == [6, 2];
    MergedNone(states);
    Serve(m, MixedLayout(), [0, 0, 0], W.Config(states, [6, 2]), 0, [], states, [], [2]);
  }

  /** Then the int is absorbed there, */
  lemma {:induction false} IntAbsorbed(m: Method) returns (states: W.States)
    requires IsMixed(m)
    ensures Reaches(m, MixedLayout(), [0, 0, 0, 0, 0], W.Config(states, [3])) && |states| == 7
    ensures states[3] == Some(With(Int, Float)) && states[6] == Some(With(Top, THROWN)) && states[4].None?
  {
    var s1 := UnsetFirst(m);
    IntFlows(m);
    MixedOffsets();
    assert m.code != [];
    hide IsMixed, Flows, W.MergeFlows, W.MergeInto, Reaches, MixedLayout;
    var int_, next := Flow(6, With(Int, THROWN)), Flow(3, With(Int, Float));
    states := s1[3 := Some(next.state)];
    Absorbs(s1, Int);
    MergedFresh(s1, next);
    MergedCons(s1, int_, [next], s1, false, states, [3]);
    Serve(m, MixedLayout(), [0, 0, 0, 0], W.Config(s1, [2]), 0, [int_] + [next], states, [] + [3], [3]);
    assert [0, 0, 0, 0] + [0] == [0, 0, 0, 0, 0];
  }

  /** and then the float. */
  lemma {:induction false} OldestFirst(m: Method) returns (picks: seq<nat>, states: W.States)
    requires IsMixed(m)
    ensures Reaches(m, MixedLayout(), picks, W.Config(states, [])) && V.Fifo(picks)
  {
    var s1 := IntAbsorbed(m);
    picks := [0, 0, 0, 0, 0];
    states := FloatServed(m, picks, W.Config(s1, [3]), 0);
    EndFlows(m);
    MixedOffsets();
    assert m.code != [];
    hide IsMixed, Flows, W.MergeFlows, W.MergeInto, Reaches, MixedLayout;
    var float := Flow(6, With(Float, THROWN));
    assert [3][..0] + [3][1..] + [4] == [4];
    picks := picks + [0];
    Absorbs(states, Float);
    MergedNone(states);
    MergedCons(states, float, [], states, false, states, []);
    assert [float] + [] == [float];
    Serve(m, MixedLayout(), picks, W.Config(states, [4]), 0, [float], states, [] + [], []);
    picks := picks + [0];
  }

  // ----- The other path first -----

  /** The int reaches the handler before anything else. */
  lemma {:induction false} IntFirst(m: Method) returns (states: W.States)
    requires IsMixed(m)
    ensures Reaches(m, MixedLayout(), [0, 1, 1], W.Config(states, [5, 6, 3])) && |states| == 7
    ensures states[3] == Some(With(Int, Float)) && states[6] == Some(With(Int, THROWN)) && states[4].None?
  {
    var s1 := FirstServed(m);
    IntFlows(m);
    MixedOffsets();
    assert m.code != [];
    hide Flows, W.MergeFlows, Reaches, MixedLayout;
    var s2 := PathServed(m, [0], W.Config(s1, [5, 1]), 1);
    assert [5, 1][..1] + [5, 1][2..] + [2] == [5, 2];
    assert [0] + [1] == [0, 1] && [0, 1] + [1] == [0, 1, 1];
    var int_, next := Flow(6, With(Int, THROWN)), Flow(3, With(Int, Float));
    MergedTwoFresh(s2, int_, next);
    states := s2[6 := Some(int_.state)][3 := Some(next.state)];
    Serve(m, MixedLayout(), [0, 1], W.Config(s2, [5, 2]), 1, [int_] + [next], states, [6] + [3], [5, 6, 3]);
  }

  /** Then the float is a conflict. */
  lemma {:induction false} OtherFirst(m: Method) returns (picks: seq<nat>, c: W.Config)
    requires IsMixed(m)
    ensures Reaches(m, MixedLayout(), picks, c) && 2 < |c.queue| && W.Step(m, MixedLayout(), c, 2).None?
  {
    var s1 := IntFirst(m);
    EndFlows(m);
    MixedOffsets();
    assert m.code != [];
    hide Flows, W.MergeFlows, Reaches, MixedLayout;
    picks := [0, 1, 1];
    var states := FloatServed(m, picks, W.Config(s1, [5, 6, 3]), 2);
    assert [5, 6, 3][..2] + [5, 6, 3][3..] + [4] == [5, 6, 4];
    picks, c := picks + [2], W.Config(states, [5, 6, 4]);
    Conflicts(states);
  }

  /** One method, accepted in one order of the worklist, the verifier's, and rejected in another. */
  lemma {:induction false} OrderMatters(m: Method)
    requires IsMixed(m)
    ensures && V.Verifies(m) && Scan(m).Some? && InitialFrame(m).Some?
            && (exists trace, picks :: W.Accepting(m, Scan(m).value, InitialFrame(m).value, trace, picks))
            && exists trace, picks, k :: W.Rejecting(m, Scan(m).value, InitialFrame(m).value, trace, picks, k)
  {
    assert IsSmall(m) && m.code != [] && V.HandlersValid(m, MixedLayout());
    MixedScanned(m);
    SmallEntry(m);
    hide IsMixed, IsSmall, Scan, InitialFrame, V.Verifies, V.HandlersValid, W.IsRun, W.Step, MixedLayout;
    var picks, states := OldestFirst(m);
    VerifiedByRun(m, MixedLayout(), picks, W.Config(states, []));
    var picks', c := OtherFirst(m);
    var entry := EntryState(m.maxLocals);
    var trace :| W.IsRun(m, MixedLayout(), entry, trace, picks) && trace[|picks|] == W.Config(states, []);
    assert W.Accepting(m, MixedLayout(), entry, trace, picks);
    var trace' :| W.IsRun(m, MixedLayout(), entry, trace', picks') && trace'[|picks'|] == c;
    assert W.Rejecting(m, MixedLayout(), entry, trace', picks', 2);
  }

  /** The method breaks the condition of MergeOrder in one place: local 0 is stored as an int and as a float. */
  lemma {:induction false} MixedStores(m: Method)
    requires IsMixed(m)
    ensures forall p :: p in MixedLayout() ==> MakesPlain(m, MixedLayout()[p])
    ensures Stores(MixedLayout()[1], 0, KInt) && Stores(MixedLayout()[3], 0, KFloat)
    ensures !OneKind(m, MixedLayout(), EntryState(1))
  {
    assert 1 in MixedLayout() && 3 in MixedLayout();
    hide OneKind;
    assert OneKind(m, MixedLayout(), EntryState(1)) ==> KInt == KFloat by {
      SameLocalSameKind(m, MixedLayout(), EntryState(1), 1, 3, 0, KInt, KFloat);
    }
  }

  lemma {:induction false} SameLocalSameKind(
      m: Method, layout: Layout, entry: FrameState, p: nat, q: nat, i: nat, j: Kind, k: Kind)
    requires p in layout && q in layout && Stores(layout[p], i, j) && Stores(layout[q], i, k)
    ensures OneKind(m, layout, entry) ==> j == k
  {
    hide MakesPlain, Stores;
  }

  // ----- The condition is not needed -----

  ghost predicate IsReused(m: Method) {
    && IsSmall(m) && m.maxLocals == 1 && m.maxStack == 1 && m.handlers == []
    && |m.code| == 5 && m.code[0] == 0x03 && m.code[1] == 0x3b && m.code[2] == 0x0b && m.code[3] == 0x43
    && m.code[4] == 0xb1
  }

  /** iconst_0; istore_0; fconst_0; fstore_0; return: the same stores, with nowhere for them to meet. */
  function Reused(name: string): (m: Method)
    ensures IsReused(m)
  {
    Small(name, [0x03, 0x3b, 0x0b, 0x43, 0xb1], 1, 1, [], [])
  }

  function ReusedLayout(): (layout: Layout)
    ensures forall p :: p in layout <==> 0 <= p < 5
    ensures layout[0] == Plain(0, 1, Const(KInt, 0)) && layout[1] == SET_INT
    ensures layout[2] == Plain(2, 3, Const(KFloat, 0)) && layout[3] == SET_FLOAT
    ensures layout[4] == Plain(4, 5, Opcode.Return)
  {
    map[0 := Plain(0, 1, Const(KInt, 0)), 1 := SET_INT, 2 := Plain(2, 3, Const(KFloat, 0)), 3 := SET_FLOAT,
        4 := Plain(4, 5, Opcode.Return)]
  }

  lemma {:induction false} ReusedDecoded(m: Method, p: nat)
    requires IsReused(m) && p < 5
    ensures p in ReusedLayout() && Decode(m.code, p) == Some(ReusedLayout()[p])
    ensures ReusedLayout()[p].next == p + 1 && PoolOk(m, ReusedLayout()[p]) && ReusedLayout()[p].targets == []
  {
    hide ReusedLayout;
    var code := m.code;
    if p == 0 {
      assert FromByte(code[0]) == Some(Const(KInt, 0));
      OneByte(code, 0, Const(KInt, 0));
    } else if p == 1 {
      assert FromByte(code[1]) == Some(StoreN(KInt, 0));
      StoreByte(code, 1, KInt);
    } else if p == 2 {
      assert FromByte(code[2]) == Some(Const(KFloat, 0));
      OneByte(code, 2, Const(KFloat, 0));
    } else if p == 3 {
      assert FromByte(code[3]) == Some(StoreN(KFloat, 0));
      StoreByte(code, 3, KFloat);
    } else {
      assert FromByte(code[4]) == Some(Opcode.Return);
      OneByte(code, 4, Opcode.Return);
    }
    hide FromByte, Decode;
  }

  lemma {:induction false} ReusedScanned(m: Method)
    requires IsReused(m)
    ensures Scan(m) == Some(ReusedLayout())
  {
    forall p: nat | p < 5
      ensures p in ReusedLayout() && Decode(m.code, p) == Some(ReusedLayout()[p])
      ensures ReusedLayout()[p].next == p + 1 && PoolOk(m, ReusedLayout()[p]) && ReusedLayout()[p].targets == []
    {
      ReusedDecoded(m, p);
    }
    assert forall p :: p in ReusedLayout() ==> 0 <= p < 5;
    assert |m.code| == 5;
    hide Decode, IsReused, ReusedLayout, PoolOk;
    ByteByByte(m, ReusedLayout(), 0);
    assert (map p | p in ReusedLayout() && p >= 0 :: ReusedLayout()[p]) == ReusedLayout();
    assert BranchesLand(ReusedLayout());
  }

  lemma {:induction false} ReusedFlows(m: Method, layout: Layout)
    requires IsReused(m) && layout == ReusedLayout()
    ensures forall p :: 0 <= p < 5 ==> p in layout
    ensures Flows(m, layout[0], Bare(Top)) == Some([Flow(1, With(Top, Int))])
    ensures Flows(m, layout[1], With(Top, Int)) == Some([Flow(2, Bare(Int))])
    ensures Flows(m, layout[2], Bare(Int)) == Some([Flow(3, With(Int, Float))])
    ensures Flows(m, layout[3], With(Int, Float)) == Some([Flow(4, Bare(Float))])
    ensures Flows(m, layout[4], Bare(Float)) == Some([])
  {
    assert m.descriptor == "()V" && m.maxStack == 1 && m.handlers == [];
    hide IsReused, Apply, Flows, ReusedLayout;
    var none: seq<Flow> := [];
    assert none + none == none;
    PushFlowsOn(m, layout[0], Top);
    PushFlowsOn(m, layout[2], Int);
    StoreFlowsOn(m, layout[1], Top);
    StoreFlowsOn(m, layout[3], Int);
    EndApplies(m, layout[4], Bare(Float));
    FlowsFrom(m, layout[4], Bare(Float), Bare(Float), []);
  }

  lemma {:induction false} PushFlowsOn(m: Method, insn: Insn, t: VerifyType)
    requires m.descriptor == "()V" && m.maxStack == 1 && m.handlers == []
    requires insn.op.Const? && insn.targets == []
    ensures Flows(m, insn, Bare(t)) == Some([Flow(insn.next, With(t, KindType(insn.op.k)))])
  {
    hide Apply, Flows;
    PushApplies(m, insn, Bare(t));
    var pushed := KindType(insn.op.k);
    assert Bare(t).stack + [pushed] == [pushed];
    FlowsFrom(m, insn, Bare(t), With(t, pushed), []);
    assert [] + [Flow(insn.next, With(t, pushed))] == [Flow(insn.next, With(t, pushed))];
  }

  lemma {:induction false} StoreFlowsOn(m: Method, insn: Insn, t: VerifyType)
    requires m.descriptor == "()V" && m.handlers == [] && insn.targets == [] && (t == Top || t == Int)
    requires insn.local == Some(0) && (insn.op == StoreN(KInt, 0) || insn.op == StoreN(KFloat, 0))
    ensures Flows(m, insn, With(t, KindType(insn.op.k))) == Some([Flow(insn.next, Bare(KindType(insn.op.k)))])
  {
    hide Apply, Flows;
    StoreApplies(m, insn, t);
    var stored := KindType(insn.op.k);
    FlowsFrom(m, insn, With(t, stored), Bare(stored), []);
    assert [] + [Flow(insn.next, Bare(stored))] == [Flow(insn.next, Bare(stored))];
  }

  /** The frames of the method, one before each instruction. */
  ghost predicate ReusedFrames(path: seq<nat>, frames: seq<FrameState>) {
    && |path| == |frames| == 5 && (forall i :: 0 <= i < 5 ==> path[i] == i)
    && frames[0] == Bare(Top) && frames[1] == With(Top, Int) && frames[2] == Bare(Int)
    && frames[3] == With(Int, Float) && frames[4] == Bare(Float)
  }

  lemma {:induction false} ReusedGoesOn(m: Method, path: seq<nat>, frames: seq<FrameState>, i: nat)
    requires IsReused(m) && ReusedFrames(path, frames) && i < 5
    ensures path[i] in ReusedLayout() && GoesOn(m, ReusedLayout(), path, frames, i)
  {
    hide Flows, IsReused, Bare, With, ReusedLayout;
    ReusedFlows(m, ReusedLayout());
  }

  lemma {:induction false} ReusedAllGoOn(m: Method, path: seq<nat>, frames: seq<FrameState>)
    requires IsReused(m) && ReusedFrames(path, frames)
    ensures forall i :: 0 <= i < 5 ==> path[i] in ReusedLayout() && GoesOn(m, ReusedLayout(), path, frames, i)
  {
    hide GoesOn, ReusedLayout, IsReused, ReusedFrames;
    forall i: nat | i < 5 {
      ReusedGoesOn(m, path, frames, i);
    }
  }

  lemma {:induction false} ReusedStraight(m: Method) returns (path: seq<nat>, frames: seq<FrameState>)
    requires IsReused(m)
    ensures StraightLine(m, ReusedLayout(), path, frames)
  {
    hide GoesOn, ReusedLayout, With;
    path, frames := [0, 1, 2, 3, 4], [Bare(Top), With(Top, Int), Bare(Int), With(Int, Float), Bare(Float)];
    ReusedAllGoOn(m, path, frames);
    assert EntryState(1) == Bare(Top);
  }

  lemma {:induction false} ReusedSizes(m: Method)
    requires IsReused(m)
    ensures m.maxLocals == 1 && m.code != [] && IsSmall(m) && V.HandlersValid(m, ReusedLayout())
  {
  }

  lemma {:induction false} ReusedMixesKinds(m: Method)
    requires IsReused(m)
    ensures !OneKind(m, ReusedLayout(), EntryState(1))
  {
    assert 1 in ReusedLayout() && 3 in ReusedLayout();
    SameLocalSameKind(m, ReusedLayout(), EntryState(1), 1, 3, 0, KInt, KFloat);
  }

  /** A method that breaks the condition, and that every order accepts all the same. */
  lemma {:induction false} ConditionNotNeeded(m: Method)
    requires IsReused(m)
    ensures V.Verifies(m) && Scan(m) == Some(ReusedLayout()) && InitialFrame(m) == Some(EntryState(1))
    ensures !OneKind(m, ReusedLayout(), EntryState(1))
    ensures forall trace, picks, k :: !W.Rejecting(m, ReusedLayout(), EntryState(1), trace, picks, k)
  {
    hide IsReused, IsSmall, StraightLine, Scan, InitialFrame, V.Verifies, V.HandlersValid, ReusedLayout, OneKind, W.Rejecting;
    ReusedSizes(m);
    ReusedMixesKinds(m);
    ReusedScanned(m);
    SmallEntry(m);
    var path, frames := ReusedStraight(m);
    StraightLineVerifies(m, ReusedLayout(), path, frames);
    forall trace, picks, k ensures !W.Rejecting(m, ReusedLayout(), EntryState(1), trace, picks, k) {
      StraightLineNeverRefused(m, ReusedLayout(), path, frames, trace, picks, k);
    }
  }
}
