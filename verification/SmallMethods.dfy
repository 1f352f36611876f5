/**
 Methods small enough to follow the verifier through by hand: what it decodes, what flows
 from each instruction, and the run of its worklist.
 */
module SmallMethods {
  import opened Wrappers
  import opened Words
  import opened Bytecode
  import opened Program
  import opened VerifyTypes
  import opened Descriptors
  import opened Decoder
  import opened Transfer
  import W = Worklist
  import V = Verifier
  import opened ThreadSoundness

  // ----- Small methods -----

  /** A static method without parameters or result, and without stack map frames. */
  function Small(
      name: string, code: seq<byte>, maxLocals: nat, maxStack: nat, calls: seq<Option<MethodRef>>, handlers: seq<Handler>):
    Method
  {
    Method("Gap", name, "()V", true, code, maxLocals, maxStack, [], [], [], [], calls, [], handlers, [], [])
  }

  predicate IsSmall(m: Method) {
    m.isStatic && m.descriptor == "()V" && m.initialLocals == [] && m.stackMapFrames == []
  }

  lemma {:induction false} SmallDescriptor(d: string)
    requires d == "()V"
    ensures ParseMethodDescriptor(d) == Some(([], None)) && ArgCount(d) == Some(0)
  {
    assert ParseParams(d, 1) == Some(([], 1));
    ArgumentsAgree(d);
  }

  function EntryState(maxLocals: nat): FrameState {
    FrameState(seq(maxLocals, _ => Top), [])
  }

  lemma {:induction false} SmallEntry(m: Method)
    requires IsSmall(m)
    ensures InitialFrame(m) == Some(EntryState(m.maxLocals))
  {
    hide ParseMethodDescriptor, ArgCount;
    SmallDescriptor(m.descriptor);
    var empty := seq(m.maxLocals, _ => Top);
    assert PlaceParams(empty, 0, []) == Some(empty);
    assert Overlay(empty, []) == empty;
  }

  /** An instruction of one byte. */
  lemma {:induction false} OneByte(code: seq<byte>, pc: nat, op: Opcode)
    requires pc < |code| && FromByte(code[pc]) == Some(op)
    requires op.AconstNull? || op.Const? || op.Binary? || op.Return? || op.Athrow?
    ensures Decode(code, pc) == Some(Plain(pc, pc + 1, op))
  {
    hide FromByte;
  }

  lemma {:induction false} LayoutStep(m: Method, pc: nat, insn: Insn, rest: Layout)
    requires Decode(m.code, pc) == Some(insn) && insn.next <= |m.code| && PoolOk(m, insn)
    requires LayoutFrom(m, insn.next) == Some(rest)
    ensures LayoutFrom(m, pc) == Some(rest[pc := insn])
  {
    hide Decode, PoolOk;
  }

  // ----- Effects on frames -----

  lemma {:induction false} PushApplies(m: Method, insn: Insn, s: FrameState)
    requires m.descriptor == "()V" && (insn.op.AconstNull? || insn.op.Const?) && |s.stack| < m.maxStack
    ensures var t := if insn.op.AconstNull? then VerifyType.Null else KindType(insn.op.k);
            Apply(m, insn, s) == Some(FrameState(s.locals, s.stack + [t]))
  {
    SmallDescriptor(m.descriptor);
    assert s.stack[..|s.stack|] == s.stack;
    hide ParseMethodDescriptor, ArgCount;
  }

  lemma {:induction false} EndApplies(m: Method, insn: Insn, s: FrameState)
    requires m.descriptor == "()V"
    requires insn.op.Return? || (insn.op.Athrow? && s.stack != [] && IsRefLike(Peek(s.stack, 0)))
    ensures Apply(m, insn, s) == Some(FrameState(s.locals, []))
  {
    SmallDescriptor(m.descriptor);
    hide ParseMethodDescriptor, ArgCount;
  }

  lemma {:induction false} SwitchApplies(m: Method, insn: Insn, locals: seq<VerifyType>)
    requires m.descriptor == "()V" && insn.op.Tableswitch?
    ensures Apply(m, insn, FrameState(locals, [Int])) == Some(FrameState(locals, []))
  {
    SmallDescriptor(m.descriptor);
    hide ParseMethodDescriptor, ArgCount;
    assert NeedsMet([Int], [Assign(Int)]);
  }

  lemma {:induction false} CallApplies(m: Method, insn: Insn, s: FrameState)
    requires m.descriptor == "()V" && insn.op.Invokestatic? && insn.cp == Some(0)
    requires Entry(m.methodRefs, 0).Some? && Entry(m.methodRefs, 0).value.descriptor == "()V"
    ensures Apply(m, insn, s) == Some(s)
  {
    SmallDescriptor(m.descriptor);
    InvokeSignature(m, insn);
    hide ParseMethodDescriptor, ArgCount, UniformSignature;
    assert ArgNeeds([]) + [] == [];
    assert s.stack[..|s.stack|] == s.stack;
  }

  /** What flows from an instruction that is no ret and has at most one target. */
  lemma {:induction false} FlowsFrom(m: Method, insn: Insn, s: FrameState, after: FrameState, caught: seq<Flow>)
    requires Apply(m, insn, s) == Some(after) && !insn.op.Ret? && caught == HandlerFlows(m.handlers, insn.pc, s.locals)
    ensures insn.targets == [] ==>
              Flows(m, insn, s) == Some(caught + if HasFallthrough(insn.op) then [Flow(insn.next, after)] else [])
    ensures |insn.targets| == 1 && !HasFallthrough(insn.op) ==>
              Flows(m, insn, s) == Some(caught + [Flow(insn.targets[0], after)])
  {
    hide Apply, HandlerFlows;
    var onwards := if HasFallthrough(insn.op) then [Flow(insn.next, after)] else [];
    var branches := BranchFlows(insn.targets, after);
    assert Flows(m, insn, s) == Some(caught + onwards + [] + branches);
    assert insn.targets == [] ==> caught + onwards + [] + branches == caught + onwards;
    assert |insn.targets| == 1 && onwards == [] ==>
             caught + onwards + [] + branches == caught + [Flow(insn.targets[0], after)];
  }

  // ----- Serving the worklist -----

  lemma {:induction false} Served(
      m: Method, layout: Layout, c: W.Config, k: nat, flows: seq<Flow>, states: W.States, added: seq<nat>)
    requires k < |c.queue| && c.queue[k] < |c.states| && c.states[c.queue[k]].Some? && c.queue[k] in layout
    requires Flows(m, layout[c.queue[k]], c.states[c.queue[k]].value) == Some(flows)
    requires W.MergeFlows(c.states, flows) == Some((states, added))
    ensures W.StepsTo(m, layout, c, k, W.Config(states, c.queue[..k] + c.queue[k + 1..] + added))
  {
    hide Flows, W.MergeFlows;
  }

  lemma {:induction false} MergedNone(states: W.States)
    ensures W.MergeFlows(states, []) == Some((states, []))
  {
  }

  /** A first flow and then the rest. */
  lemma {:induction false} MergedCons(
      states: W.States, f: Flow, rest: seq<Flow>, mid: W.States, changed: bool, last: W.States, added: seq<nat>)
    requires W.MergeInto(states, f) == Some((mid, changed)) && W.MergeFlows(mid, rest) == Some((last, added))
    ensures W.MergeFlows(states, [f] + rest) == Some((last, (if changed then [f.to] else []) + added))
  {
    assert ([f] + rest)[1..] == rest;
    hide W.MergeInto;
  }

  /** One flow into an offset not reached before. */
  lemma {:induction false} MergedFresh(states: W.States, f: Flow)
    requires f.to < |states| && states[f.to].None?
    ensures W.MergeFlows(states, [f]) == Some((states[f.to := Some(f.state)], [f.to]))
  {
    var next := states[f.to := Some(f.state)];
    MergedNone(next);
    assert [f] + [] == [f] && [f.to] + [] == [f.to];
    MergedCons(states, f, [], next, true, next, []);
  }

  lemma {:induction false} MergedTwoFresh(states: W.States, f: Flow, g: Flow)
    requires f.to < |states| && g.to < |states| && f.to != g.to && states[f.to].None? && states[g.to].None?
    ensures W.MergeFlows(states, [f] + [g]) ==
            Some((states[f.to := Some(f.state)][g.to := Some(g.state)], [f.to] + [g.to]))
  {
    var mid := states[f.to := Some(f.state)];
    MergedFresh(mid, g);
    MergedCons(states, f, [g], mid, true, mid[g.to := Some(g.state)], [g.to]);
  }

  // ----- Runs and verdicts -----

  /** Serving these positions of the worklist, from the method's entry, leads to this configuration. */
  ghost predicate Reaches(m: Method, layout: Layout, picks: seq<nat>, c: W.Config)
    requires m.code != []
  {
    exists trace :: W.IsRun(m, layout, EntryState(m.maxLocals), trace, picks) && trace[|picks|] == c
  }

  lemma {:induction false} Begin(m: Method, layout: Layout)
    requires m.code != []
    ensures var start := W.Start(m, EntryState(m.maxLocals));
            && Reaches(m, layout, [], start) && start.queue == [0] && |start.states| == |m.code|
            && start.states[0] == Some(EntryState(m.maxLocals))
            && forall p :: 0 < p < |m.code| ==> start.states[p].None?
  {
    var c := W.Start(m, EntryState(m.maxLocals));
    assert W.IsRun(m, layout, EntryState(m.maxLocals), [c], []);
  }

  /** Serves one more entry. */
  lemma {:induction false} Serve(
      m: Method, layout: Layout, picks: seq<nat>, c: W.Config, k: nat, flows: seq<Flow>,
      states: W.States, added: seq<nat>, queue: seq<nat>)
    requires m.code != [] && Reaches(m, layout, picks, c)
    requires k < |c.queue| && c.queue[k] < |c.states| && c.states[c.queue[k]].Some? && c.queue[k] in layout
    requires Flows(m, layout[c.queue[k]], c.states[c.queue[k]].value) == Some(flows)
    requires W.MergeFlows(c.states, flows) == Some((states, added))
    requires queue == c.queue[..k] + c.queue[k + 1..] + added
    ensures Reaches(m, layout, picks + [k], W.Config(states, queue))
  {
    hide Flows, W.MergeFlows, W.StepsTo;
    var entry := EntryState(m.maxLocals);
    var trace :| W.IsRun(m, layout, entry, trace, picks) && trace[|picks|] == c;
    var next := W.Config(states, queue);
    Served(m, layout, c, k, flows, states, added);
    W.RunExtends(m, layout, entry, trace, picks, k, next);
    assert W.IsRun(m, layout, entry, trace + [next], picks + [k]) && (trace + [next])[|picks + [k]|] == next;
  }

  /** Having taken the oldest entry each time and emptied the worklist, the verifier accepts. */
  lemma {:induction false} VerifiedByRun(m: Method, layout: Layout, picks: seq<nat>, c: W.Config)
    requires IsSmall(m) && m.code != [] && Scan(m) == Some(layout) && V.HandlersValid(m, layout)
    requires Reaches(m, layout, picks, c) && c.queue == [] && V.Fifo(picks)
    ensures V.Verifies(m)
  {
    hide W.StepsTo, Scan, InitialFrame;
    SmallEntry(m);
    var entry := EntryState(m.maxLocals);
    var trace :| W.IsRun(m, layout, entry, trace, picks) && trace[|picks|] == c;
    assert W.Accepting(m, layout, entry, trace, picks);
    assert V.FifoAccepts(m, layout, entry, c.states);
  }

  /** Code in which every instruction flows to the next one listed and nowhere else, and the last one ends. */
  ghost predicate StraightLine(m: Method, layout: Layout, path: seq<nat>, frames: seq<FrameState>) {
    && IsSmall(m) && m.code != []
    && path != [] && path[0] == 0 && |frames| == |path| && frames[0] == EntryState(m.maxLocals)
    && (forall i :: 0 <= i < |path| ==> path[i] < |m.code| && path[i] in layout)
    && (forall i, j :: 0 <= i < j < |path| ==> path[i] < path[j])
    && forall i :: 0 <= i < |path| ==> GoesOn(m, layout, path, frames, i)
  }

  ghost predicate GoesOn(m: Method, layout: Layout, path: seq<nat>, frames: seq<FrameState>, i: nat)
    requires i < |path| == |frames| && path[i] in layout
  {
    Flows(m, layout[path[i]], frames[i]) == Some(if i + 1 < |path| then [Flow(path[i + 1], frames[i + 1])] else [])
  }

  /** The analysis of straight-line code visits it once, front to back. */
  lemma {:induction false} StraightLineRun(m: Method, layout: Layout, path: seq<nat>, frames: seq<FrameState>, n: nat)
    returns (states: W.States, picks: seq<nat>)
    requires StraightLine(m, layout, path, frames) && n < |path|
    ensures Reaches(m, layout, picks, W.Config(states, [path[n]])) && V.Fifo(picks)
    ensures |states| == |m.code| && states[path[n]] == Some(frames[n])
    ensures forall p :: path[n] < p < |m.code| ==> states[p].None?
    decreases n
  {
    hide Flows, W.MergeFlows, Reaches;
    if n == 0 {
      Begin(m, layout);
      states, picks := W.Start(m, EntryState(m.maxLocals)).states, [];
    } else {
      var before;
      before, picks := StraightLineRun(m, layout, path, frames, n - 1);
      assert GoesOn(m, layout, path, frames, n - 1);
      var f := Flow(path[n], frames[n]);
      MergedFresh(before, f);
      states := before[f.to := Some(f.state)];
      Serve(m, layout, picks, W.Config(before, [path[n - 1]]), 0, [f], states, [f.to], [path[n]]);
      picks := picks + [0];
    }
  }

  /** No order is possible but front to back. */
  lemma {:induction false} StraightLineForced(
      m: Method, layout: Layout, path: seq<nat>, frames: seq<FrameState>, trace: seq<W.Config>, picks: seq<nat>)
    requires StraightLine(m, layout, path, frames)
    requires W.IsRun(m, layout, EntryState(m.maxLocals), trace, picks)
    ensures |picks| <= |path| && |trace[|picks|].states| == |m.code|
    ensures trace[|picks|].queue == if |picks| < |path| then [path[|picks|]] else []
    ensures |picks| < |path| ==> trace[|picks|].states[path[|picks|]] == Some(frames[|picks|])
    ensures |picks| < |path| ==> forall p :: path[|picks|] < p < |m.code| ==> trace[|picks|].states[p].None?
    decreases |picks|
  {
    hide Flows, W.MergeFlows;
    if picks == [] {
      Begin(m, layout);
    } else {
      var n := |picks| - 1;
      RunPrefix(m, layout, EntryState(m.maxLocals), trace, picks);
      StraightLineForced(m, layout, path, frames, trace[..n + 1], picks[..n]);
      assert GoesOn(m, layout, path, frames, n);
      if n + 1 < |path| {
        MergedFresh(trace[n].states, Flow(path[n + 1], frames[n + 1]));
      } else {
        MergedNone(trace[n].states);
      }
    }
  }

  lemma {:induction false} RunPrefix(m: Method, layout: Layout, entry: FrameState, trace: seq<W.Config>, picks: seq<nat>)
    requires m.code != [] && W.IsRun(m, layout, entry, trace, picks) && picks != []
    ensures var n := |picks| - 1;
            && W.IsRun(m, layout, entry, trace[..n + 1], picks[..n])
            && W.StepsTo(m, layout, trace[n], picks[n], trace[n + 1])
  {
    hide W.StepsTo;
    var n := |picks| - 1;
    var before, taken := trace[..n + 1], picks[..n];
    forall i | 0 <= i < n ensures W.StepsTo(m, layout, before[i], taken[i], before[i + 1]) {
      assert W.StepsTo(m, layout, trace[i], picks[i], trace[i + 1]);
    }
    assert W.StepsTo(m, layout, trace[n], picks[n], trace[n + 1]);
  }

  /** So no order is ever refused. */
  lemma {:induction false} StraightLineNeverRefused(
      m: Method, layout: Layout, path: seq<nat>, frames: seq<FrameState>, trace: seq<W.Config>, picks: seq<nat>, k: nat)
    requires StraightLine(m, layout, path, frames)
    ensures !W.Rejecting(m, layout, EntryState(m.maxLocals), trace, picks, k)
  {
    hide Flows, W.MergeFlows;
    if W.IsRun(m, layout, EntryState(m.maxLocals), trace, picks) {
      StraightLineForced(m, layout, path, frames, trace, picks);
      var n := |picks|;
      if n < |path| {
        assert GoesOn(m, layout, path, frames, n);
        if n + 1 < |path| {
          MergedFresh(trace[n].states, Flow(path[n + 1], frames[n + 1]));
        } else {
          MergedNone(trace[n].states);
        }
      }
    }
  }

  lemma {:induction false} StraightLineVerifies(m: Method, layout: Layout, path: seq<nat>, frames: seq<FrameState>)
    requires StraightLine(m, layout, path, frames) && Scan(m) == Some(layout) && V.HandlersValid(m, layout)
    ensures V.Verifies(m)
  {
    hide Flows, W.MergeFlows, Reaches, Scan, V.HandlersValid;
    var last := |path| - 1;
    var states, picks := StraightLineRun(m, layout, path, frames, last);
    assert GoesOn(m, layout, path, frames, last);
    MergedNone(states);
    Serve(m, layout, picks, W.Config(states, [path[last]]), 0, [], states, [], []);
    VerifiedByRun(m, layout, picks + [0], W.Config(states, []));
  }

  lemma {:induction false} CaughtByOne(h: Handler, pc: nat, locals: seq<VerifyType>)
    ensures HandlerFlows([h], pc, locals) ==
            if Covers(h, pc) then [Flow(h.target, FrameState(locals, [CatchType(h)]))] else []
  {
    assert [h][1..] == [] && HandlerFlows([], pc, locals) == [];
  }

  /** Code all of whose instructions take one byte is laid out byte by byte. */
  lemma {:induction false} ByteByByte(m: Method, layout: Layout, pc: nat)
    requires pc <= |m.code| && forall p :: p in layout <==> 0 <= p < |m.code|
    requires forall p :: 0 <= p < |m.code| ==>
               Decode(m.code, p) == Some(layout[p]) && layout[p].next == p + 1 && PoolOk(m, layout[p])
    ensures LayoutFrom(m, pc) == Some(map p | p in layout && p >= pc :: layout[p])
    decreases |m.code| - pc
  {
    hide Decode, PoolOk;
    var here := map p | p in layout && p >= pc :: layout[p];
    if pc < |m.code| {
      ByteByByte(m, layout, pc + 1);
      var rest := map p | p in layout && p >= pc + 1 :: layout[p];
      LayoutStep(m, pc, layout[pc], rest);
      assert rest[pc := layout[pc]] == here;
    } else {
      assert here == map[];
    }
  }

  lemma {:induction false} TwoScanned(m: Method, first: Insn, second: Insn)
    requires Decode(m.code, 0) == Some(first) && Decode(m.code, first.next) == Some(second)
    requires PoolOk(m, first) && PoolOk(m, second) && first.targets == [] && second.targets == []
    requires first.next < second.next == |m.code|
    ensures Scan(m) == Some(map[0 := first, first.next := second])
  {
    hide Decode, PoolOk;
    assert LayoutFrom(m, second.next) == Some(map[]);
    LayoutStep(m, first.next, second, map[]);
    LayoutStep(m, 0, first, map[first.next := second]);
    assert map[first.next := second][0 := first] == map[0 := first, first.next := second];
  }

  /** A push and a return, each of any length. */
  lemma {:induction false} PushAndReturn(m: Method, push: Insn, end: Insn)
    requires IsSmall(m) && m.handlers == [] && m.maxLocals == 0 && m.maxStack >= 1
    requires Decode(m.code, 0) == Some(push) && Decode(m.code, push.next) == Some(end) && end.next == |m.code|
    requires push.op.AconstNull? || push.op.Const?
    requires end.op.Return? || (push.op.AconstNull? && end.op.Athrow?)
    requires push.targets == [] && end.targets == []
    ensures V.Verifies(m)
  {
    hide Decode, Flows, Scan, V.Verifies;
    TwoScanned(m, push, end);
    var layout: Layout := map[0 := push, push.next := end];
    var t := if push.op.AconstNull? then VerifyType.Null else KindType(push.op.k);
    var pushed := FrameState([], [t]);
    assert EntryState(0) == FrameState([], []);
    PushApplies(m, push, EntryState(0));
    assert [] + [t] == [t];
    FlowsFrom(m, push, EntryState(0), pushed, []);
    EndApplies(m, end, pushed);
    FlowsFrom(m, end, pushed, FrameState([], []), []);
    var path, frames := [0, push.next], [EntryState(0), pushed];
    var none: seq<Flow> := [];
    assert none + none == none && none + [Flow(push.next, pushed)] == [Flow(push.next, pushed)];
    assert layout[path[0]] == push && layout[path[1]] == end;
    assert GoesOn(m, layout, path, frames, 0) && GoesOn(m, layout, path, frames, 1);
    StraightLineVerifies(m, layout, path, frames);
  }
}
