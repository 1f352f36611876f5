/**
 The verifier's own loops: scanning the code, laying out the entry frame, serving the
 worklist first in first out, and checking the stack map frames at the end.
 */
module Verifier {
  import opened Wrappers
  import opened Words
  import opened Bytecode
  import opened Program
  import opened VerifyTypes
  import opened Descriptors
  import opened DescriptorScanners
  import opened Decoder
  import opened Transfer
  import opened TransferFacts
  import opened AbstractFrames
  import opened Worklist
  import opened StackMaps

  // ----- Scanning -----

  /** The offsets of a switch, each checked to land in the code as it is read. */
  method ReadTargets(code: seq<byte>, pc: nat, pos: nat, keyed: bool, count: nat) returns (r: Option<seq<nat>>)
    ensures r == SwitchTargets(code, pc, pos, keyed, count)
  {
    var targets: seq<nat> := [];
    while |targets| < count
      invariant |targets| <= count
      invariant forall k :: 0 <= k < |targets| ==> SwitchTarget(code, pc, pos, keyed, k) == Some(targets[k])
    {
      var target := SwitchTarget(code, pc, pos, keyed, |targets|);
      if target.None? {
        return None;
      }
      targets := targets + [target.value];
    }
    assert forall k :: 0 <= k < count ==> SwitchTarget(code, pc, pos, keyed, k).Some?;
    assert targets == SwitchTargets(code, pc, pos, keyed, count).value;
    return Some(targets);
  }

  method DecodeSwitch(code: seq<byte>, pc: nat, keyed: bool) returns (r: Option<Insn>)
    ensures r == if keyed then DecodeLookupswitch(code, pc) else DecodeTableswitch(code, pc)
  {
    hide I32, Target32, SwitchTargets, Aligned;
    var pos := Aligned(pc + 1);
    var header := if keyed then 8 else 12;
    if pos + header > |code| {
      return None;
    }
    var default := Target32(code, pc, pos);
    if default.None? {
      return None;
    }
    var count: int;
    if keyed {
      count := I32(code, pos + 4).value;
      if count < 0 {
        return None;
      }
    } else {
      var low: int, high: int := I32(code, pos + 4).value, I32(code, pos + 8).value;
      count := if low <= high then high - low + 1 else 0;
    }
    var targets := ReadTargets(code, pc, pos + header, keyed, count);
    if targets.None? {
      return None;
    }
    var op := if keyed then Lookupswitch else Tableswitch;
    var width := if keyed then 8 else 4;
    return Some(Insn(pc, pos + header + width * count, op, None, None, [default.value] + targets.value, None, None));
  }

  /** The 16- or 32-bit offset of a branch, checked to land in the code. */
  method ReadBranch(code: seq<byte>, pc: nat, wide: bool) returns (target: Option<nat>)
    ensures target == if wide then Target32(code, pc, pc + 1) else Target16(code, pc, pc + 1)
  {
    var offset: Option<i32> := if wide then I32(code, pc + 1) else I16(code, pc + 1);
    if offset.None? || !(0 <= pc + offset.value < |code|) {
      return None;
    }
    return Some(pc + offset.value);
  }

  /** Instructions that name a local: by an operand byte, by the opcode, or with an increment. */
  method DecodeLocalAccess(code: seq<byte>, pc: nat, op: Opcode) returns (r: Option<Insn>)
    requires pc < |code| && FromByte(code[pc]) == Some(op)
    requires op.Load? || op.Store? || op.Ret? || op.LoadN? || op.StoreN? || op.Iinc?
    ensures r == Decode(code, pc)
  {
    hide FromByte, DecodeTableswitch, DecodeLookupswitch, DecodeWide;
    var insn := Insn(pc, pc + 1, op, None, None, [], None, None);
    if op.LoadN? || op.StoreN? {
      insn := insn.(local := Some(op.slot));
    } else {
      var operand := U8(code, pc + 1);
      if operand.None? {
        return None;
      }
      insn := insn.(local := Some(operand.value), next := insn.next + 1);
      if op.Iinc? {
        var d := U8(code, pc + 2);
        if d.None? {
          return None;
        }
        insn := insn.(delta := Some(Signed8(d.value)), next := insn.next + 1);
      }
    }
    return Some(insn);
  }

  /** Instructions that name a constant-pool entry. */
  method DecodePoolAccess(code: seq<byte>, pc: nat, op: Opcode) returns (r: Option<Insn>)
    requires pc < |code| && FromByte(code[pc]) == Some(op)
    requires op.Ldc? || HasPoolIndex(op) || op.Invokeinterface? || op.Invokedynamic? || op.Multianewarray?
    ensures r == Decode(code, pc)
  {
    hide FromByte, DecodeTableswitch, DecodeLookupswitch, DecodeWide;
    var insn := Insn(pc, pc + 1, op, None, None, [], None, None);
    if op.Ldc? {
      var operand := U8(code, pc + 1);
      if operand.None? {
        return None;
      }
      return Some(insn.(cp := Some(operand.value), next := insn.next + 1));
    }
    var index := U16(code, pc + 1);
    if index.None? {
      return None;
    }
    insn := insn.(cp := Some(index.value));
    if op.Invokeinterface? || op.Invokedynamic? {
      insn := insn.(next := insn.next + 4);
    } else if op.Multianewarray? {
      var n := U8(code, pc + 3);
      if n.None? {
        return None;
      }
      insn := insn.(dims := Some(n.value), next := insn.next + 3);
    } else {
      insn := insn.(next := insn.next + 2);
    }
    return Some(insn);
  }

  method DecodeJump(code: seq<byte>, pc: nat, op: Opcode) returns (r: Option<Insn>)
    requires pc < |code| && FromByte(code[pc]) == Some(op)
    requires HasShortBranch(op) || op.GotoW? || op.JsrW?
    ensures r == Decode(code, pc)
  {
    hide FromByte, DecodeTableswitch, DecodeLookupswitch, DecodeWide;
    var wide := op.GotoW? || op.JsrW?;
    var target := ReadBranch(code, pc, wide);
    if target.None? {
      return None;
    }
    return Some(Insn(pc, pc + 1 + (if wide then 4 else 2), op, None, None, [target.value], None, None));
  }

  /** A wide prefix takes on the opcode it prefixes, whatever that is. */
  method DecodeWidened(code: seq<byte>, pc: nat) returns (r: Option<Insn>)
    ensures r == DecodeWide(code, pc)
  {
    hide FromByte;
    var b := U8(code, pc + 1);
    if b.None? {
      return None;
    }
    var inner := FromByte(b.value);
    if inner.None? {
      return None;
    }
    var index := U16(code, pc + 2);
    if index.None? {
      return None;
    }
    var insn := Insn(pc, pc + 4, inner.value, Some(index.value), None, [], None, None);
    if inner.value == Iinc {
      var d := I16(code, pc + 4);
      if d.None? {
        return None;
      }
      insn := insn.(delta := Some(d.value), next := insn.next + 2);
    }
    return Some(insn);
  }

  method DecodeInstruction(code: seq<byte>, pc: nat) returns (r: Option<Insn>)
    ensures r == Decode(code, pc)
  {
    hide FromByte, DecodeTableswitch, DecodeLookupswitch, DecodeWide;
    if pc >= |code| {
      return None;
    }
    var opcode := FromByte(code[pc]);
    if opcode.None? {
      return None;
    }
    var op := opcode.value;
    if HasShortBranch(op) || op.GotoW? || op.JsrW? {
      r := DecodeJump(code, pc, op);
    } else if op.Load? || op.Store? || op.Ret? || op.LoadN? || op.StoreN? || op.Iinc? {
      r := DecodeLocalAccess(code, pc, op);
    } else if op.Ldc? || HasPoolIndex(op) || op.Invokeinterface? || op.Invokedynamic? || op.Multianewarray? {
      r := DecodePoolAccess(code, pc, op);
    } else if op.Tableswitch? || op.Lookupswitch? {
      r := DecodeSwitch(code, pc, op.Lookupswitch?);
    } else if op.Wide? {
      r := DecodeWidened(code, pc);
    } else {
      var operands := if op.Bipush? || op.Newarray? then 1 else if op.Sipush? then 2 else 0;
      if pc + operands >= |code| {
        return None;
      }
      return Some(Insn(pc, pc + 1 + operands, op, None, None, [], None, None));
    }
  }

  lemma {:induction false} NotLaidOutAgain(m: Method, pc: nat, q: nat)
    requires q < pc && pc <= |m.code| && LayoutFrom(m, pc).Some?
    ensures q !in LayoutFrom(m, pc).value
  {
    hide Decode, PoolOk, LayoutFrom;
    LayoutFacts(m, pc);
  }

  lemma {:induction false} KeyMoved(decoded: Layout, rest: Layout, pc: nat, insn: Insn)
    requires pc !in rest
    ensures decoded + rest[pc := insn] == decoded[pc := insn] + rest
  {
  }

  /** Adding the next instruction to what is decoded takes it off what is left. */
  lemma {:induction false} LayoutExtends(m: Method, pc: nat, decoded: Layout)
    requires pc < |m.code| && Decode(m.code, pc).Some? && Decode(m.code, pc).value.next <= |m.code|
    requires PoolOk(m, Decode(m.code, pc).value)
    ensures var next := Decode(m.code, pc).value.next;
            && (LayoutFrom(m, pc).Some? <==> LayoutFrom(m, next).Some?)
            && (LayoutFrom(m, pc).Some? ==>
                  decoded + LayoutFrom(m, pc).value == decoded[pc := Decode(m.code, pc).value] + LayoutFrom(m, next).value)
  {
    hide Decode, PoolOk;
    var insn := Decode(m.code, pc).value;
    if LayoutFrom(m, insn.next).Some? {
      NotLaidOutAgain(m, insn.next, pc);
      KeyMoved(decoded, LayoutFrom(m, insn.next).value, pc, insn);
    }
  }

  method ScanMethod(m: Method) returns (r: Option<Layout>)
    ensures r == Scan(m)
  {
    hide Decode, PoolOk;
    var pc := 0;
    var decoded: Layout := map[];
    var starts := new bool[|m.code|](_ => false);
    while pc < |m.code|
      invariant pc <= |m.code|
      invariant forall p :: p in decoded ==> p < pc
      invariant forall p :: 0 <= p < |m.code| ==> (starts[p] <==> p in decoded)
      invariant LayoutFrom(m, 0).Some? <==> LayoutFrom(m, pc).Some?
      invariant LayoutFrom(m, 0).Some? ==> LayoutFrom(m, 0).value == decoded + LayoutFrom(m, pc).value
    {
      starts[pc] := true;
      var insn := DecodeInstruction(m.code, pc);
      if insn.None? || insn.value.next > |m.code| || !PoolOk(m, insn.value) {
        return None;
      }
      LayoutExtends(m, pc, decoded);
      decoded := decoded[pc := insn.value];
      pc := insn.value.next;
    }
    assert LayoutFrom(m, 0) == Some(decoded) by {
      assert decoded + map[] == decoded;
    }
    LayoutFacts(m, 0);
    var landed := CheckTargets(m, decoded, starts);
    return if landed then Some(decoded) else None;
  }

  /** Every branch of every instruction lands on a start. */
  method CheckTargets(m: Method, decoded: Layout, starts: array<bool>) returns (ok: bool)
    requires starts.Length == |m.code|
    requires forall p :: 0 <= p < |m.code| ==> (starts[p] <==> p in decoded)
    requires forall p :: p in decoded ==> p < |m.code|
    ensures ok <==> BranchesLand(decoded)
  {
    for p: nat := 0 to |m.code|
      invariant forall q, t :: q in decoded && q < p && t in decoded[q].targets ==> t in decoded
    {
      if p in decoded {
        var targets := decoded[p].targets;
        for k := 0 to |targets|
          invariant forall j :: 0 <= j < k ==> targets[j] in decoded
        {
          if targets[k] >= |m.code| || !starts[targets[k]] {
            assert targets[k] in decoded[p].targets && targets[k] !in decoded;
            return false;
          }
        }
      }
    }
    return true;
  }

  predicate HandlerValid(m: Method, decoded: Layout, h: Handler) {
    h.start <= h.end <= |m.code| && h.target < |m.code| && h.target in decoded
  }

  predicate HandlersValid(m: Method, decoded: Layout) {
    forall h :: h in m.handlers ==> HandlerValid(m, decoded, h)
  }

  method ValidateExceptionHandlers(m: Method, decoded: Layout) returns (ok: bool)
    ensures ok <==> HandlersValid(m, decoded)
  {
    for k := 0 to |m.handlers|
      invariant forall j :: 0 <= j < k ==> HandlerValid(m, decoded, m.handlers[j])
    {
      var h := m.handlers[k];
      assert h in m.handlers;
      if h.start > h.end || h.end > |m.code| {
        return false;
      }
      if h.target >= |m.code| || h.target !in decoded {
        return false;
      }
    }
    return true;
  }

  // ----- The entry frame -----

  method LayOutEntry(m: Method) returns (r: Option<FrameState>)
    ensures r == InitialFrame(m)
  {
    var locals := seq(m.maxLocals, _ => Top);
    var index := 0;
    if !m.isStatic {
      if index < |locals| {
        locals := locals[index := ThisType(m)];
      }
      index := 1;
    }
    var descriptor := ParseDescriptor(m.descriptor);
    if descriptor.None? {
      return None;
    }
    var params := descriptor.value.0;
    ghost var start, from := locals, index;
    assert params[0..] == params;
    for k := 0 to |params|
      invariant |locals| == m.maxLocals
      invariant PlaceParams(start, from, params) == PlaceParams(locals, index, params[k..])
    {
      assert params[k..][0] == params[k] && params[k..][1..] == params[k + 1..];
      if index >= |locals| {
        return None;
      }
      locals := locals[index := params[k]];
      if IsWide(params[k]) {
        if index + 1 >= |locals| {
          return None;
        }
        locals := locals[index + 1 := Top];
        index := index + 1;
      }
      index := index + 1;
    }
    ghost var placed := locals;
    for k := 0 to |m.initialLocals|
      invariant |locals| == m.maxLocals && k <= |locals|
      invariant locals == Overlay(placed, m.initialLocals[..k])
    {
      if k >= |locals| {
        return None;
      }
      if m.initialLocals[k].Some? {
        locals := locals[k := TypeOfValue(m.initialLocals[k].value)];
      }
    }
    assert m.initialLocals[..|m.initialLocals|] == m.initialLocals;
    return Some(FrameState(locals, []));
  }

  // ----- Merging -----

  /** Merges position by position, stopping at the first pair without a join. */
  method MergeLists(existing: seq<VerifyType>, incoming: seq<VerifyType>)
    returns (merged: Option<seq<VerifyType>>, changed: bool)
    requires |existing| == |incoming|
    ensures merged.Some? <==> Mergeable(existing, incoming)
    ensures merged.Some? ==> merged.value == MergeAll(existing, incoming)
    ensures merged.Some? ==> (changed <==> merged.value != existing)
  {
    var types := existing;
    changed := false;
    for i := 0 to |existing|
      invariant |types| == |existing|
      invariant forall k :: 0 <= k < i ==> MergeType(existing[k], incoming[k]) == Some(types[k])
      invariant forall k :: i <= k < |types| ==> types[k] == existing[k]
      invariant changed <==> exists k :: 0 <= k < i && types[k] != existing[k]
    {
      match MergeType(types[i], incoming[i]) {
        case None =>
          return None, changed;
        case Some(ty) =>
          if ty != types[i] {
            types := types[i := ty];
            changed := true;
          }
      }
    }
    return Some(types), changed;
  }

  /** Merges a frame into the slot of a target and queues the target if the slot changed. */
  method Propagate(states: array<Option<FrameState>>, queue: seq<nat>, f: Flow) returns (ok: bool, queue': seq<nat>)
    modifies states
    ensures ok <==> MergeInto(old(states[..]), f).Some?
    ensures ok ==> states[..] == MergeInto(old(states[..]), f).value.0
    ensures ok ==> queue' == queue + if MergeInto(old(states[..]), f).value.1 then [f.to] else []
  {
    queue' := queue;
    if f.to >= states.Length {
      return false, queue;
    }
    if states[f.to].None? {
      states[f.to] := Some(f.state);
      return true, queue + [f.to];
    }
    var existing := states[f.to].value;
    if |existing.stack| != |f.state.stack| {
      return false, queue;
    }
    var n := MaxLen(existing.locals, f.state.locals);
    var locals, localsChanged := MergeLists(Padded(existing.locals, n), Padded(f.state.locals, n));
    if locals.None? {
      return false, queue;
    }
    var stack, stackChanged := MergeLists(existing.stack, f.state.stack);
    if stack.None? {
      return false, queue;
    }
    states[f.to] := Some(FrameState(locals.value, stack.value));
    return true, if localsChanged || stackChanged then queue + [f.to] else queue;
  }

  lemma {:induction false} MergeFlowsConcat(states: States, a: seq<Flow>, b: seq<Flow>)
    ensures MergeFlows(states, a).None? ==> MergeFlows(states, a + b).None?
    ensures MergeFlows(states, a).Some? ==>
              var (mid, added) := MergeFlows(states, a).value;
              && (MergeFlows(states, a + b).Some? <==> MergeFlows(mid, b).Some?)
              && (MergeFlows(mid, b).Some? ==>
                    && MergeFlows(states, a + b).value.0 == MergeFlows(mid, b).value.0
                    && MergeFlows(states, a + b).value.1 == added + MergeFlows(mid, b).value.1)
    decreases |a|
  {
    hide MergeInto;
    if a == [] {
      assert a + b == b;
    } else {
      assert (a + b)[1..] == a[1..] + b;
      if MergeInto(states, a[0]).Some? {
        MergeFlowsConcat(MergeInto(states, a[0]).value.0, a[1..], b);
      }
    }
  }

  lemma {:induction false} MergeOne(states: States, f: Flow)
    ensures MergeFlows(states, [f]).Some? <==> MergeInto(states, f).Some?
    ensures MergeInto(states, f).Some? ==>
              var (next, changed) := MergeInto(states, f).value;
              MergeFlows(states, [f]).value == (next, if changed then [f.to] else [])
  {
    assert [f][1..] == [];
    if MergeInto(states, f).Some? {
      var (next, changed) := MergeInto(states, f).value;
      assert MergeFlows(next, []) == Some((next, []));
      var added := if changed then [f.to] else [];
      assert added + [] == added;
    }
  }

  /** Propagates a list of flows in order. */
  method PropagateAll(states: array<Option<FrameState>>, queue: seq<nat>, flows: seq<Flow>)
    returns (ok: bool, queue': seq<nat>)
    modifies states
    ensures ok <==> MergeFlows(old(states[..]), flows).Some?
    ensures ok ==> states[..] == MergeFlows(old(states[..]), flows).value.0
    ensures ok ==> queue' == queue + MergeFlows(old(states[..]), flows).value.1
  {
    ok, queue' := true, queue;
    ghost var before := states[..];
    assert MergeFlows(before, []) == Some((before, []));
    hide MergeFlows, MergeInto;
    for k := 0 to |flows|
      invariant MergeFlows(before, flows[..k]).Some?
      invariant states[..] == MergeFlows(before, flows[..k]).value.0
      invariant queue' == queue + MergeFlows(before, flows[..k]).value.1
    {
      MergeFlowsConcat(before, flows[..k], [flows[k]]);
      MergeOne(states[..], flows[k]);
      assert flows[..k + 1] == flows[..k] + [flows[k]];
      ok, queue' := Propagate(states, queue', flows[k]);
      if !ok {
        assert flows == flows[..k + 1] + flows[k + 1..];
        MergeFlowsConcat(before, flows[..k + 1], flows[k + 1..]);
        return false, queue';
      }
    }
    assert flows[..|flows|] == flows;
    return true, queue';
  }

  /** The frames of the handlers that cover pc, in table order. */
  method CollectHandlers(handlers: seq<Handler>, pc: nat, locals: seq<VerifyType>) returns (flows: seq<Flow>)
    ensures flows == HandlerFlows(handlers, pc, locals)
  {
    flows := [];
    assert handlers[0..] == handlers;
    for k := 0 to |handlers|
      invariant flows + HandlerFlows(handlers[k..], pc, locals) == HandlerFlows(handlers, pc, locals)
    {
      assert handlers[k..][0] == handlers[k] && handlers[k..][1..] == handlers[k + 1..];
      if Covers(handlers[k], pc) {
        var f := Flow(handlers[k].target, FrameState(locals, [CatchType(handlers[k])]));
        assert (flows + [f]) + HandlerFlows(handlers[k + 1..], pc, locals)
            == flows + ([f] + HandlerFlows(handlers[k + 1..], pc, locals));
        flows := flows + [f];
      }
    }
  }

  // ----- The worklist -----

  /** One round: takes an offset's frame through its instruction and out to its successors. */
  method Round(m: Method, layout: Layout, states: array<Option<FrameState>>, queue: seq<nat>, pc: nat)
    returns (ok: bool, queue': seq<nat>)
    modifies states
    ensures ok <==> Process(m, layout, old(states[..]), pc).Some?
    ensures ok ==> states[..] == Process(m, layout, old(states[..]), pc).value.0
    ensures ok ==> queue' == queue + Process(m, layout, old(states[..]), pc).value.1
  {
    hide Apply;
    queue' := queue;
    if pc >= states.Length {
      return false, queue;
    }
    if states[pc].None? {
      return true, queue;
    }
    if pc !in layout {
      return false, queue;
    }
    var insn, state := layout[pc], states[pc].value;
    var frame := new AbstractFrame(state);
    ok := frame.ApplyInstruction(m, insn);
    if !ok {
      return;
    }
    var after := frame.Contents();
    var caught := CollectHandlers(m.handlers, insn.pc, state.locals);
    var onwards :=
      caught
      + (if HasFallthrough(insn.op) then [Flow(insn.next, after)] else [])
      + (if insn.op.Ret? && RetTarget(insn, after).Some? then [Flow(RetTarget(insn, after).value, after)] else [])
      + BranchFlows(insn.targets, after);
    assert onwards == Flows(m, insn, state).value;
    ok, queue' := PropagateAll(states, queue, onwards);
  }

  /** A run that always took the oldest entry and can go no further although the worklist is not empty. */
  ghost predicate Stuck(m: Method, layout: Layout, entry: FrameState, trace: seq<Config>, picks: seq<nat>)
    requires m.code != []
  {
    Rejecting(m, layout, entry, trace, picks, 0) && Fifo(picks)
  }

  ghost predicate Fifo(picks: seq<nat>) {
    forall i :: 0 <= i < |picks| ==> picks[i] == 0
  }

  /** The analysis the verifier performs accepts, recording these states. */
  ghost predicate FifoAccepts(m: Method, layout: Layout, entry: FrameState, states: States)
    requires m.code != []
  {
    exists trace: seq<Config>, picks: seq<nat> ::
      Accepting(m, layout, entry, trace, picks) && Fifo(picks) && trace[|picks|].states == states
  }

  /** Serving the oldest entry first leaves no choice: two such runs agree as far as both go. */
  lemma {:induction false} FifoRunsAgree(
      m: Method, layout: Layout, entry: FrameState,
      trace1: seq<Config>, picks1: seq<nat>, trace2: seq<Config>, picks2: seq<nat>, i: nat)
    requires m.code != [] && i <= |picks1| && i <= |picks2| && Fifo(picks1) && Fifo(picks2)
    requires IsRun(m, layout, entry, trace1, picks1) && IsRun(m, layout, entry, trace2, picks2)
    ensures trace1[i] == trace2[i]
  {
    hide Process;
    if i > 0 {
      FifoRunsAgree(m, layout, entry, trace1, picks1, trace2, picks2, i - 1);
      assert StepsTo(m, layout, trace1[i - 1], picks1[i - 1], trace1[i - 1 + 1]);
      assert StepsTo(m, layout, trace2[i - 1], picks2[i - 1], trace2[i - 1 + 1]);
    }
  }

  /** Before its last configuration a run always has an entry to take, and takes it. */
  lemma {:induction false} RunsGoOn(m: Method, layout: Layout, entry: FrameState, trace: seq<Config>, picks: seq<nat>)
    requires m.code != [] && IsRun(m, layout, entry, trace, picks) && Fifo(picks)
    ensures forall i :: 0 <= i < |picks| ==> trace[i].queue != [] && Worklist.Step(m, layout, trace[i], 0).Some?
  {
    hide Process;
    forall i | 0 <= i < |picks| ensures trace[i].queue != [] && Worklist.Step(m, layout, trace[i], 0).Some? {
      assert StepsTo(m, layout, trace[i], picks[i], trace[i + 1]);
    }
  }

  /** A stuck run rules out every accepting one. */
  lemma {:induction false} StuckRefuses(
      m: Method, layout: Layout, entry: FrameState, trace: seq<Config>, picks: seq<nat>, states: States)
    requires m.code != [] && Stuck(m, layout, entry, trace, picks)
    ensures !FifoAccepts(m, layout, entry, states)
  {
    hide Process;
    RunsGoOn(m, layout, entry, trace, picks);
    forall other: seq<Config>, taken: seq<nat> | IsRun(m, layout, entry, other, taken) && Fifo(taken)
      ensures other[|taken|].queue != []
    {
      RunsGoOn(m, layout, entry, other, taken);
      FifoRunsAgree(m, layout, entry, trace, picks, other, taken, if |taken| < |picks| then |taken| else |picks|);
    }
  }

  lemma {:induction false} FifoResultUnique(m: Method, layout: Layout, entry: FrameState, a: States, b: States)
    requires m.code != [] && FifoAccepts(m, layout, entry, a) && FifoAccepts(m, layout, entry, b)
    ensures a == b
  {
    hide Process;
    var trace1: seq<Config>, picks1: seq<nat> :|
      Accepting(m, layout, entry, trace1, picks1) && Fifo(picks1) && trace1[|picks1|].states == a;
    var trace2: seq<Config>, picks2: seq<nat> :|
      Accepting(m, layout, entry, trace2, picks2) && Fifo(picks2) && trace2[|picks2|].states == b;
    RunsGoOn(m, layout, entry, trace1, picks1);
    RunsGoOn(m, layout, entry, trace2, picks2);
    FifoRunsAgree(m, layout, entry, trace1, picks1, trace2, picks2,
                  if |picks1| < |picks2| then |picks1| else |picks2|);
  }

  /** The data-flow loop. It terminates because every queued change lowers the potential. */
  method Analyze(m: Method, layout: Layout, entry: FrameState)
    returns (ok: bool, states: array<Option<FrameState>>)
    requires m.code != [] && Shaped(m, entry)
    requires forall p :: p in layout ==> layout[p].pc == p
    ensures fresh(states)
    ensures ok ==> FifoAccepts(m, layout, entry, states[..])
    ensures !ok ==> forall final: States :: !FifoAccepts(m, layout, entry, final)
  {
    hide Process, Flows;
    states := new Option<FrameState>[|m.code|](_ => None);
    states[0] := Some(entry);
    var queue: seq<nat> := [0];
    assert states[..] == Start(m, entry).states;
    ghost var trace, picks: seq<nat> := [Start(m, entry)], [];
    while queue != []
      invariant fresh(states)
      invariant IsRun(m, layout, entry, trace, picks) && Fifo(picks)
      invariant trace[|picks|] == Config(states[..], queue)
      decreases Potential(m, states[..]) + |queue|
    {
      ghost var before := Config(states[..], queue);
      RunInv(m, layout, entry, trace, picks, |picks|);
      var pc := queue[0];
      var rest := queue[1..];
      assert rest == queue[..0] + queue[1..];
      ok, queue := Round(m, layout, states, rest, pc);
      if !ok {
        assert Stuck(m, layout, entry, trace, picks);
        forall final: States ensures !FifoAccepts(m, layout, entry, final) {
          StuckRefuses(m, layout, entry, trace, picks, final);
        }
        return;
      }
      ghost var after := Config(states[..], queue);
      assert StepsTo(m, layout, before, 0, after);
      StepPays(m, layout, entry, before, 0, after);
      RunExtends(m, layout, entry, trace, picks, 0, after);
      trace, picks := trace + [after], picks + [0];
    }
    ok := true;
    assert Accepting(m, layout, entry, trace, picks);
  }

  // ----- Stack map frames -----

  /** Walks the locals backwards, skipping explicit upper halves, then reverses what was kept. */
  method TruncateLocals(locals: seq<VerifyType>, count: nat) returns (r: seq<VerifyType>)
    ensures r == Truncate(locals, count)
  {
    var kept: seq<VerifyType> := [];
    var remaining := count;
    var index := |locals|;
    assert locals[..index] == locals;
    while index > 0
      invariant 0 <= index <= |locals|
      invariant kept != [] ==> remaining == 0
      invariant Truncate(locals[..index], remaining) + kept == Truncate(locals, count)
    {
      index := index - 1;
      var ty := locals[index];
      var seen := locals[..index + 1];
      assert seen[..index] == locals[..index] && seen[index] == ty;
      assert IsFiller(seen, index) == IsFiller(locals, index);
      if IsFiller(locals, index) {
        continue;
      }
      if remaining > 0 {
        remaining := remaining - 1;
        continue;
      }
      assert Truncate(seen, 0) + kept == Truncate(locals[..index], 0) + ([ty] + kept);
      kept := [ty] + kept;
    }
    return kept;
  }

  method ExpandStackMapLocals(locals: seq<VerifyType>) returns (expanded: seq<VerifyType>)
    ensures expanded == ExpandLocals(locals)
  {
    expanded := [];
    assert locals[0..] == locals;
    for k := 0 to |locals|
      invariant expanded + ExpandLocals(locals[k..]) == ExpandLocals(locals)
    {
      assert locals[k..][0] == locals[k] && locals[k..][1..] == locals[k + 1..];
      var slots := if IsWide(locals[k]) then [locals[k], Top] else [locals[k]];
      assert (expanded + slots) + ExpandLocals(locals[k + 1..]) == expanded + (slots + ExpandLocals(locals[k + 1..]));
      expanded := expanded + slots;
    }
  }

  method Trim(ts: seq<VerifyType>) returns (r: seq<VerifyType>)
    ensures r == Trimmed(ts)
  {
    var end := |ts|;
    assert ts[..end] == ts;
    while end > 0 && ts[end - 1] == Top
      invariant 0 <= end <= |ts| && Trimmed(ts[..end]) == Trimmed(ts)
    {
      assert ts[..end][..end - 1] == ts[..end - 1];
      end := end - 1;
    }
    return ts[..end];
  }

  method CompareStackMap(actual: seq<VerifyType>, expected: seq<VerifyType>, isLocals: bool) returns (ok: bool)
    ensures ok <==> Matches(actual, expected, isLocals)
  {
    var a := Trim(actual);
    var e := Trim(expected);
    if if isLocals then |a| < |e| else |a| != |e| {
      return false;
    }
    for k := 0 to |e|
      invariant forall j :: 0 <= j < k ==> Compatible(a[j], e[j])
    {
      if !Compatible(a[k], e[k]) {
        return false;
      }
    }
    return true;
  }

  method ValidateStackMapFrames(m: Method, states: seq<Option<FrameState>>) returns (ok: bool)
    ensures ok <==> StackMapsOk(m, states)
  {
    hide Matches, InfoTypes, ExpandLocals, Truncate, ParseMethodDescriptor;
    var frames := m.stackMapFrames;
    if frames == [] {
      return true;
    }
    var initial := InitialMapLocals(m);
    if initial.None? {
      return false;
    }
    var previous: Option<nat> := None;
    var locals := initial.value;
    assert frames[0..] == frames;
    for k := 0 to |frames|
      invariant MapsAgree(m, states, frames, None, initial.value) <==> MapsAgree(m, states, frames[k..], previous, locals)
    {
      assert frames[k..][0] == frames[k] && frames[k..][1..] == frames[k + 1..];
      var frame := frames[k];
      var pc := FramePc(previous, frame);
      if pc >= |states| || states[pc].None? {
        return false;
      }
      var parsed := InfoTypes(m, frame.locals);
      var stack := InfoTypes(m, frame.stack);
      if parsed.None? || stack.None? {
        return false;
      }
      var here;
      if frame.kind.Chop? {
        here := TruncateLocals(locals, frame.kind.count);
      } else {
        here := Normalize(frame.kind, locals, parsed.value);
      }
      var expanded := ExpandStackMapLocals(here);
      var localsOk := CompareStackMap(states[pc].value.locals, expanded, true);
      var stackOk := CompareStackMap(states[pc].value.stack, stack.value, false);
      if !localsOk || !stackOk {
        return false;
      }
      previous := Some(pc);
      locals := here;
    }
    return true;
  }

  // ----- The verifier -----

  /** The verdict on a method. */
  ghost predicate Verifies(m: Method) {
    m.code == [] ||
    (&& Scan(m).Some?
     && HandlersValid(m, Scan(m).value)
     && InitialFrame(m).Some?
     && exists states: States :: FifoAccepts(m, Scan(m).value, InitialFrame(m).value, states) && StackMapsOk(m, states))
  }

  method VerifyMethod(m: Method) returns (ok: bool)
    ensures ok <==> Verifies(m)
  {
    hide InitialFrame, LayoutFrom, StackMapsOk, FifoAccepts;
    if m.code == [] {
      return true;
    }
    var decoded := ScanMethod(m);
    if decoded.None? {
      return false;
    }
    var handlersOk := ValidateExceptionHandlers(m, decoded.value);
    if !handlersOk {
      return false;
    }
    var entry := LayOutEntry(m);
    if entry.None? {
      return false;
    }
    LayoutFacts(m, 0);
    InitialFrameShape(m);

    var accepted, states := Analyze(m, decoded.value, entry.value);
    ok := accepted;
    if !ok {
      return;
    }
    ok := ValidateStackMapFrames(m, states[..]);
    if !ok {
      forall final: States | FifoAccepts(m, decoded.value, entry.value, final) ensures !StackMapsOk(m, final) {
        FifoResultUnique(m, decoded.value, entry.value, states[..], final);
      }
    }
  }
}
