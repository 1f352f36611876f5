/**
 When the order of the worklist decides acceptance: an order is refused, where another one
 accepts, exactly when it brings two types together in a local that the other records as
 unusable; and in a method whose locals keep to one kind each this never happens.
 */
module MergeOrder {
  import opened Wrappers
  import opened Bytecode
  import opened Program
  import opened VerifyTypes
  import opened Descriptors
  import opened Decoder
  import opened Transfer
  import opened TransferFacts
  import opened Worklist

  // ----- Where types meet -----

  /** When the n-th flow is merged, local i of offset p holds a and the flow brings b. */
  ghost predicate MeetsAt(
      states: States, flows: seq<Flow>, n: nat, p: nat, i: nat, a: VerifyType, b: VerifyType)
  {
    && n < |flows| && flows[n].to == p
    && MergeFlows(states, flows[..n]).Some?
    && var mid := MergeFlows(states, flows[..n]).value.0;
       && p < |mid| && mid[p].Some?
       && i < |mid[p].value.locals| && i < |flows[n].state.locals|
       && mid[p].value.locals[i] == a && flows[n].state.locals[i] == b
  }

  /** Serving the k-th entry brings type b to local i of offset p, where type a is recorded by then. */
  ghost predicate Meet(
      m: Method, layout: Layout, c: Config, k: nat, p: nat, i: nat, a: VerifyType, b: VerifyType)
    requires k < |c.queue|
  {
    var pc := c.queue[k];
    && pc < |c.states| && c.states[pc].Some? && pc in layout
    && Flows(m, layout[pc], c.states[pc].value).Some?
    && exists n :: MeetsAt(c.states, Flows(m, layout[pc], c.states[pc].value).value, n, p, i, a, b)
  }

  lemma {:induction false} ConflictRefuses(m: Method, states: States, f: Flow, i: nat)
    requires AllShaped(m, states) && Shaped(m, f.state) && f.to < |states| && states[f.to].Some?
    requires i < m.maxLocals && MergeType(states[f.to].value.locals[i], f.state.locals[i]).None?
    ensures MergeInto(states, f).None?
  {
    var existing := states[f.to].value;
    assert Padded(existing.locals, m.maxLocals) == existing.locals;
    assert Padded(f.state.locals, m.maxLocals) == f.state.locals;
  }

  /** A later flow of a list is an earlier one of its rest. */
  lemma {:induction false} MeetsLater(
      states: States, next: States, changed: bool, flows: seq<Flow>, n: nat, p: nat, i: nat, a: VerifyType, b: VerifyType)
    requires flows != [] && MergeInto(states, flows[0]) == Some((next, changed))
    ensures MeetsAt(states, flows, n + 1, p, i, a, b) <==> MeetsAt(next, flows[1..], n, p, i, a, b)
  {
    if n + 1 <= |flows| {
      assert flows[..n + 1][1..] == flows[1..][..n];
      assert flows[..n + 1][0] == flows[0];
    }
  }

  /** Two types that do not merge stop the merging of flows. */
  lemma {:induction false} ConflictStops(
      m: Method, states: States, flows: seq<Flow>, n: nat, p: nat, i: nat, a: VerifyType, b: VerifyType)
    requires AllShaped(m, states) && forall f :: f in flows ==> Shaped(m, f.state)
    requires MeetsAt(states, flows, n, p, i, a, b) && MergeType(a, b).None?
    ensures MergeFlows(states, flows).None?
    decreases n
  {
    if n == 0 {
      assert flows[..0] == [];
      ConflictRefuses(m, states, flows[0], i);
    } else if MergeInto(states, flows[0]).Some? {
      var (next, changed) := MergeInto(states, flows[0]).value;
      MergeIntoFacts(m, states, flows[0]);
      MeetsLater(states, next, changed, flows, n - 1, p, i, a, b);
      ConflictStops(m, next, flows[1..], n - 1, p, i, a, b);
    }
  }

  /** Below a common bound without Top on its stacks, a refused merge is a conflict between locals. */
  lemma {:induction false} RefusedMergeConflicts(m: Method, states: States, f: Flow, bound: States) returns (i: nat)
    requires AllShaped(m, states) && AllShaped(m, bound) && Shaped(m, f.state)
    requires StatesBelow(states, bound) && Absorbed(bound, f) && MergeInto(states, f).None?
    ensures states[f.to].Some? && i < m.maxLocals
    ensures MergeType(states[f.to].value.locals[i], f.state.locals[i]).None?
  {
    var existing, top := states[f.to].value, bound[f.to].value;
    assert Padded(existing.locals, m.maxLocals) == existing.locals;
    assert Padded(f.state.locals, m.maxLocals) == f.state.locals;
    assert Mergeable(existing.stack, f.state.stack) by {
      forall j | 0 <= j < |existing.stack| ensures MergeType(existing.stack[j], f.state.stack[j]).Some? {
        MergeFailsIff(existing.stack[j], f.state.stack[j]);
        assert Below(existing.stack[j], top.stack[j]) && Below(f.state.stack[j], top.stack[j]);
      }
    }
    i :| i < m.maxLocals && MergeType(existing.locals[i], f.state.locals[i]).None?;
  }

  /** The same for a list of flows: one of them brings the conflict. */
  lemma {:induction false} RefusedFlowsMeet(m: Method, states: States, flows: seq<Flow>, bound: States)
    returns (n: nat, p: nat, i: nat, a: VerifyType, b: VerifyType)
    requires AllShaped(m, states) && AllShaped(m, bound) && AllGapped(states) && StatesBelow(states, bound)
    requires forall f :: f in flows ==> Shaped(m, f.state) && Gapped(f.state.locals) && Absorbed(bound, f)
    requires MergeFlows(states, flows).None?
    ensures MeetsAt(states, flows, n, p, i, a, b) && MergeType(a, b).None?
    decreases |flows|
  {
    var f := flows[0];
    if MergeInto(states, f).None? {
      i := RefusedMergeConflicts(m, states, f, bound);
      n, p := 0, f.to;
      a, b := states[p].value.locals[i], f.state.locals[i];
      assert flows[..0] == [];
    } else {
      var (next, changed) := MergeInto(states, f).value;
      MergeIntoFacts(m, states, f);
      StepBelow(m, states, f, bound);
      n, p, i, a, b := RefusedFlowsMeet(m, next, flows[1..], bound);
      MeetsLater(states, next, changed, flows, n, p, i, a, b);
      n := n + 1;
    }
  }

  lemma {:induction false} StepBelow(m: Method, states: States, f: Flow, bound: States)
    requires AllShaped(m, states) && AllGapped(states) && StatesBelow(states, bound)
    requires Shaped(m, f.state) && Gapped(f.state.locals) && Absorbed(bound, f) && MergeInto(states, f).Some?
    ensures StatesBelow(MergeInto(states, f).value.0, bound) && AllGapped(MergeInto(states, f).value.0)
  {
    var (next, changed) := MergeInto(states, f).value;
    MergeIntoFacts(m, states, f);
    if states[f.to].Some? {
      MergeStatesIsLeastUpperBound(states[f.to].value, f.state, bound[f.to].value);
      MergeKeepsShape(m, states[f.to].value, f.state);
    }
  }

  /** Of two types that meet below a bound and do not merge, the bound knows nothing. */
  lemma {:induction false} ConflictsAtTop(
      m: Method, states: States, flows: seq<Flow>, bound: States, n: nat, p: nat, i: nat, a: VerifyType, b: VerifyType)
    requires AllShaped(m, states) && AllGapped(states) && StatesBelow(states, bound)
    requires forall f :: f in flows ==> Shaped(m, f.state) && Gapped(f.state.locals) && Absorbed(bound, f)
    requires MeetsAt(states, flows, n, p, i, a, b) && MergeType(a, b).None?
    ensures RecordsTop(bound, p, i)
  {
    assert forall f :: f in flows[..n] ==> f in flows;
    MergeFlowsBelow(m, states, flows[..n], bound);
    var mid := MergeFlows(states, flows[..n]).value.0;
    assert flows[n] in flows;
    var top := bound[p].value.locals[i];
    assert Below(mid[p].value.locals[i], top) && Below(flows[n].state.locals[i], top);
    MergeFailsIff(a, b);
  }

  /** Local i is unusable at offset p. */
  predicate RecordsTop(states: States, p: nat, i: nat) {
    p < |states| && states[p].Some? && i < |states[p].value.locals| && states[p].value.locals[i] == Top
  }

  // ----- Refusal, exactly -----

  /**
   Below any typing of the method, a round is refused if and only if two types that do not
   merge meet in a local; and then the typing knows nothing of that local.
   */
  lemma {:induction false} RefusedBelowIff(
      m: Method, layout: Layout, entry: FrameState, bound: States, trace: seq<Config>, picks: seq<nat>, k: nat)
    requires m.code != [] && Shaped(m, entry) && Gapped(entry.locals) && NoConstructorCalls(m, layout)
    requires forall p :: p in layout ==> layout[p].pc == p
    requires PostFixpoint(m, layout, entry, bound)
    requires IsRun(m, layout, entry, trace, picks) && k < |trace[|picks|].queue|
    ensures Rejecting(m, layout, entry, trace, picks, k) <==>
            exists p, i, a, b :: Meet(m, layout, trace[|picks|], k, p, i, a, b) && MergeType(a, b).None?
    ensures forall p, i, a, b :: Meet(m, layout, trace[|picks|], k, p, i, a, b) && MergeType(a, b).None? ==>
              RecordsTop(bound, p, i)
  {
    hide Flows, MergeFlows, IsConstructorCall;
    var c := trace[|picks|];
    var pc := c.queue[k];
    RunBelowPostFixpoint(m, layout, entry, trace, picks, |picks|, bound);
    RunInv(m, layout, entry, trace, picks, |picks|);
    assert pc in c.queue;
    FlowsAbsorbedByBound(m, layout, c.states[pc].value, bound, entry, pc);
    var flows := Flows(m, layout[pc], c.states[pc].value).value;
    FlowsKeepShape(m, layout[pc], c.states[pc].value);
    if Rejecting(m, layout, entry, trace, picks, k) {
      var n, p, i, a, b := RefusedFlowsMeet(m, c.states, flows, bound);
      assert Meet(m, layout, c, k, p, i, a, b);
    }
    forall p, i, a, b | Meet(m, layout, c, k, p, i, a, b) && MergeType(a, b).None?
      ensures Rejecting(m, layout, entry, trace, picks, k) && RecordsTop(bound, p, i)
    {
      var n :| MeetsAt(c.states, flows, n, p, i, a, b);
      ConflictStops(m, c.states, flows, n, p, i, a, b);
      ConflictsAtTop(m, c.states, flows, bound, n, p, i, a, b);
    }
  }

  /**
   Where some order accepts, a round of another order is refused if and only if two types
   that do not merge meet in a local; and then the accepting order records that local as Top.
   */
  lemma {:induction false} RefusedIff(
      m: Method, layout: Layout, entry: FrameState,
      trace1: seq<Config>, picks1: seq<nat>, trace2: seq<Config>, picks2: seq<nat>, k: nat)
    requires m.code != [] && Shaped(m, entry) && Gapped(entry.locals) && NoConstructorCalls(m, layout)
    requires forall p :: p in layout ==> layout[p].pc == p
    requires Accepting(m, layout, entry, trace1, picks1)
    requires IsRun(m, layout, entry, trace2, picks2) && k < |trace2[|picks2|].queue|
    ensures Rejecting(m, layout, entry, trace2, picks2, k) <==>
            exists p, i, a, b :: Meet(m, layout, trace2[|picks2|], k, p, i, a, b) && MergeType(a, b).None?
    ensures forall p, i, a, b :: Meet(m, layout, trace2[|picks2|], k, p, i, a, b) && MergeType(a, b).None? ==>
              RecordsTop(trace1[|picks1|].states, p, i)
  {
    hide Rejecting, Meet, RecordsTop, PostFixpoint, NoConstructorCalls;
    AcceptingIsPostFixpoint(m, layout, entry, trace1, picks1);
    RefusedBelowIff(m, layout, entry, trace1[|picks1|].states, trace2, picks2, k);
  }

  // ----- Methods whose locals keep to one kind -----

  /** A type of the machine, neither a return address nor an uninitialised reference. */
  predicate IsPlain(t: VerifyType) {
    t.Int? || t.Float? || t.Long? || t.Double? || t.Null? || t.Reference?
  }

  predicate OfKind(t: VerifyType, k: Kind) {
    match k
    case KInt => t.Int? case KLong => t.Long? case KFloat => t.Float? case KDouble => t.Double?
    case KRef => t.Null? || t.Reference?
  }

  predicate IsStore(op: Opcode) {
    op.Store? || op.StoreN?
  }

  predicate IsLdcOp(op: Opcode) {
    op.Ldc? || op.LdcW? || op.Ldc2W?
  }

  /** An instruction that makes no return address and no uninitialised reference, nor initialises one. */
  predicate MakesPlain(m: Method, insn: Insn) {
    && !insn.op.Jsr? && !insn.op.JsrW? && !insn.op.New? && !IsConstructorCall(m, insn)
    && (IsLdcOp(insn.op) && insn.cp.Some? && Entry(m.constants, insn.cp.value).Some? ==>
          !Entry(m.constants, insn.cp.value).value.AddressValue?)
  }

  /** The instruction stores a value of this kind in this local. */
  predicate Stores(insn: Insn, i: nat, k: Kind) {
    IsStore(insn.op) && insn.local == Some(i) && insn.op.k == k
  }

  /**
   What can be read off a method before it is analysed: no instruction makes a return
   address or an uninitialised reference, and whatever is stored in a local is of the kind
   of everything else stored there and of what the local holds on entry.
   */
  ghost predicate OneKind(m: Method, layout: Layout, entry: FrameState) {
    && (forall i :: 0 <= i < |entry.locals| ==> entry.locals[i] == Top || IsPlain(entry.locals[i]))
    && (forall p :: p in layout ==> MakesPlain(m, layout[p]))
    && (forall p, i: nat, k :: p in layout && Stores(layout[p], i, k) && i < |entry.locals| ==>
          entry.locals[i] == Top || OfKind(entry.locals[i], k))
    && forall p, q, i: nat, j, k ::
         p in layout && q in layout && Stores(layout[p], i, j) && Stores(layout[q], i, k) ==> j == k
  }

  function KindOfType(t: VerifyType): Kind {
    match t
    case Long => KLong case Float => KFloat case Double => KDouble case Null => KRef case Reference(_) => KRef
    case _ => KInt
  }

  /** A kind for every local: entry types and stores keep to it. */
  ghost predicate Assigns(m: Method, layout: Layout, entry: FrameState, kinds: seq<Kind>) {
    && |kinds| == |entry.locals|
    && (forall i :: 0 <= i < |kinds| ==> entry.locals[i] == Top || OfKind(entry.locals[i], kinds[i]))
    && forall p, i: nat, k :: p in layout && Stores(layout[p], i, k) && i < |kinds| ==> kinds[i] == k
  }

  ghost function KindOfLocal(layout: Layout, entry: FrameState, i: nat): Kind
    requires i < |entry.locals|
  {
    if exists p, k :: p in layout && Stores(layout[p], i, k)
    then var p, k :| p in layout && Stores(layout[p], i, k); k
    else KindOfType(entry.locals[i])
  }

  lemma {:induction false} KindsExist(m: Method, layout: Layout, entry: FrameState) returns (kinds: seq<Kind>)
    requires OneKind(m, layout, entry)
    ensures Assigns(m, layout, entry, kinds)
  {
    hide MakesPlain;
    kinds := seq(|entry.locals|, i requires 0 <= i < |entry.locals| => KindOfLocal(layout, entry, i));
    forall i: nat | i < |kinds| ensures entry.locals[i] == Top || OfKind(entry.locals[i], kinds[i]) {
      assert entry.locals[i] == Top || IsPlain(entry.locals[i]);
    }
  }

  // ----- Frames that keep to the kinds -----

  ghost predicate AllPlain(ts: seq<VerifyType>) {
    forall i :: 0 <= i < |ts| ==> IsPlain(ts[i])
  }

  ghost predicate Keeps(s: FrameState, kinds: seq<Kind>) {
    && AllPlain(s.stack) && |s.locals| == |kinds|
    && forall i :: 0 <= i < |kinds| ==> s.locals[i] == Top || OfKind(s.locals[i], kinds[i])
  }

  ghost predicate AllKeep(states: States, kinds: seq<Kind>) {
    forall p :: 0 <= p < |states| && states[p].Some? ==> Keeps(states[p].value, kinds)
  }

  lemma {:induction false} CallPushesPlain(d: string, receiver: seq<Need>)
    ensures CallSignature(d, receiver).Some? ==> AllPlain(CallSignature(d, receiver).value.pushes)
  {
    if ParseMethodDescriptor(d).Some? {
      ParsedTypesAreDescriptorTypes(d);
    }
  }

  lemma {:induction false} UniformPushesPlain(m: Method, insn: Insn)
    requires IsUniform(insn.op) && UniformSignature(m, insn).Some? && MakesPlain(m, insn)
    ensures AllPlain(UniformSignature(m, insn).value.pushes)
  {
    if insn.op.Getstatic? || insn.op.Putstatic? || insn.op.Getfield? || insn.op.Putfield? {
      ParseFieldAtType(Entry(m.fieldRefs, insn.cp.value).value.descriptor, 0);
    } else if insn.op.Invokestatic? || insn.op.Invokevirtual? || insn.op.Invokeinterface? {
      CallPushesPlain(Entry(m.methodRefs, insn.cp.value).value.descriptor, []);
      CallPushesPlain(Entry(m.methodRefs, insn.cp.value).value.descriptor, [RefLike]);
    } else if insn.op.Invokedynamic? {
      CallPushesPlain(Entry(m.dynamicSites, insn.cp.value).value, []);
    }
  }

  lemma {:induction false} StoreKeepsKinds(insn: Insn, s: FrameState, kinds: seq<Kind>)
    requires IsStore(insn.op) && Keeps(s, kinds) && ApplyStore(insn, s).Some?
    requires forall i: nat, k :: Stores(insn, i, k) && i < |kinds| ==> kinds[i] == k
    ensures Keeps(ApplyStore(insn, s).value, kinds)
  {
    var i, k := insn.local.value, insn.op.k;
    assert Stores(insn, i, k);
    assert OfKind(StoredType(k, Peek(s.stack, 0)), k);
  }

  lemma {:induction false} LoadKeepsKinds(m: Method, insn: Insn, s: FrameState, kinds: seq<Kind>)
    requires insn.op.Load? || insn.op.LoadN?
    requires Keeps(s, kinds) && ApplyLoad(m, insn, s).Some?
    ensures Keeps(ApplyLoad(m, insn, s).value, kinds)
  {
    assert IsPlain(s.locals[insn.local.value]);
  }

  lemma {:induction false} ShuffleKeepsPlain(m: Method, stack: seq<VerifyType>, op: ShuffleOp)
    requires AllPlain(stack) && ApplyShuffle(stack, op, m.maxStack).Some?
    ensures AllPlain(ApplyShuffle(stack, op, m.maxStack).value)
  {
    var f := VerifierForm(op, Wides(stack)).value;
    hide VerifierForm;
    assert AllPlain(Put(stack, f));
  }

  lemma {:induction false} ApplyKeepsKinds(m: Method, insn: Insn, s: FrameState, kinds: seq<Kind>)
    requires Keeps(s, kinds) && MakesPlain(m, insn) && Apply(m, insn, s).Some?
    requires forall i: nat, k :: Stores(insn, i, k) && i < |kinds| ==> kinds[i] == k
    ensures Keeps(Apply(m, insn, s).value, kinds)
  {
    hide ParseMethodDescriptor, ApplyLoad, ApplyStore, ApplyShuffle, CanReturn;
    if IsUniform(insn.op) {
      UniformPushesPlain(m, insn);
      hide UniformSignature;
    } else if insn.op.Load? || insn.op.LoadN? {
      LoadKeepsKinds(m, insn, s, kinds);
    } else if IsStore(insn.op) {
      StoreKeepsKinds(insn, s, kinds);
    } else if insn.op.Shuffle? {
      ShuffleKeepsPlain(m, s.stack, insn.op.s);
    } else if insn.op.Invokespecial? {
      CallPushesPlain(Entry(m.methodRefs, insn.cp.value).value.descriptor, [RefLike]);
    }
  }

  lemma {:induction false} HandlerFlowsKeepKinds(hs: seq<Handler>, pc: nat, s: FrameState, kinds: seq<Kind>)
    requires Keeps(s, kinds)
    ensures forall f :: f in HandlerFlows(hs, pc, s.locals) ==> Keeps(f.state, kinds)
    decreases |hs|
  {
    if hs != [] {
      HandlerFlowsKeepKinds(hs[1..], pc, s, kinds);
    }
  }

  lemma {:induction false} FlowsKeepKinds(m: Method, insn: Insn, s: FrameState, kinds: seq<Kind>)
    requires Keeps(s, kinds) && MakesPlain(m, insn) && Flows(m, insn, s).Some?
    requires forall i: nat, k :: Stores(insn, i, k) && i < |kinds| ==> kinds[i] == k
    ensures forall f :: f in Flows(m, insn, s).value ==> Keeps(f.state, kinds)
  {
    hide Apply, Keeps, MakesPlain, Stores;
    ApplyKeepsKinds(m, insn, s, kinds);
    HandlerFlowsKeepKinds(m.handlers, insn.pc, s, kinds);
  }

  /** Two types of one kind merge, within the kind. */
  lemma {:induction false} KindMerges(a: VerifyType, b: VerifyType, k: Kind)
    requires (a == Top || OfKind(a, k)) && (b == Top || OfKind(b, k))
    ensures MergeType(a, b).Some? && (MergeType(a, b).value == Top || OfKind(MergeType(a, b).value, k))
  {
  }

  lemma {:induction false} MergeStatesKeepsKinds(a: FrameState, b: FrameState, kinds: seq<Kind>)
    requires Keeps(a, kinds) && Keeps(b, kinds) && MergeStates(a, b).Some?
    ensures Keeps(MergeStates(a, b).value, kinds)
  {
    var c := MergeStates(a, b).value;
    assert Padded(a.locals, |kinds|) == a.locals && Padded(b.locals, |kinds|) == b.locals;
    forall i | 0 <= i < |kinds| ensures c.locals[i] == Top || OfKind(c.locals[i], kinds[i]) {
      KindMerges(a.locals[i], b.locals[i], kinds[i]);
    }
    forall i | 0 <= i < |c.stack| ensures IsPlain(c.stack[i]) {
      assert MergeType(a.stack[i], b.stack[i]) == Some(c.stack[i]);
    }
  }

  lemma {:induction false} MergeFlowsKeepsKinds(states: States, flows: seq<Flow>, kinds: seq<Kind>)
    requires AllKeep(states, kinds) && (forall f :: f in flows ==> Keeps(f.state, kinds))
    requires MergeFlows(states, flows).Some?
    ensures AllKeep(MergeFlows(states, flows).value.0, kinds)
    decreases |flows|
  {
    hide Keeps, MergeStates;
    if flows != [] {
      var f := flows[0];
      var (next, changed) := MergeInto(states, f).value;
      if states[f.to].Some? {
        MergeStatesKeepsKinds(states[f.to].value, f.state, kinds);
      }
      MergeFlowsKeepsKinds(next, flows[1..], kinds);
    }
  }

  lemma {:induction false} RunKeepsKinds(
      m: Method, layout: Layout, entry: FrameState, kinds: seq<Kind>, trace: seq<Config>, picks: seq<nat>, i: nat)
    requires m.code != [] && entry.stack == [] && OneKind(m, layout, entry) && Assigns(m, layout, entry, kinds)
    requires IsRun(m, layout, entry, trace, picks) && i < |trace|
    ensures AllKeep(trace[i].states, kinds)
  {
    hide MakesPlain, Stores, Flows, MergeFlows;
    if i > 0 {
      RunKeepsKinds(m, layout, entry, kinds, trace, picks, i - 1);
      assert StepsTo(m, layout, trace[i - 1], picks[i - 1], trace[i - 1 + 1]);
      var c := trace[i - 1];
      var pc := c.queue[picks[i - 1]];
      if c.states[pc].Some? {
        FlowsKeepKinds(m, layout[pc], c.states[pc].value, kinds);
        MergeFlowsKeepsKinds(c.states, Flows(m, layout[pc], c.states[pc].value).value, kinds);
      }
    }
  }

  /** Where locals keep to one kind, no two types meet that do not merge. */
  lemma {:induction false} KindsNeverConflict(
      m: Method, layout: Layout, kinds: seq<Kind>, c: Config, k: nat, p: nat, i: nat, a: VerifyType, b: VerifyType)
    requires k < |c.queue| && AllKeep(c.states, kinds) && Meet(m, layout, c, k, p, i, a, b)
    requires forall q :: q in layout ==> MakesPlain(m, layout[q])
    requires forall q, j: nat, kind :: q in layout && Stores(layout[q], j, kind) && j < |kinds| ==> kinds[j] == kind
    ensures MergeType(a, b).Some?
  {
    hide MakesPlain, Stores, Flows, MergeFlows;
    var pc := c.queue[k];
    var flows := Flows(m, layout[pc], c.states[pc].value).value;
    var n: nat :| MeetsAt(c.states, flows, n, p, i, a, b);
    FlowsKeepKinds(m, layout[pc], c.states[pc].value, kinds);
    assert forall f :: f in flows[..n] ==> f in flows;
    MergeFlowsKeepsKinds(c.states, flows[..n], kinds);
    assert flows[n] in flows;
    KindMerges(a, b, kinds[i]);
  }

  /** If such a method has a typing at all, no round of any run of its analysis is refused. */
  lemma {:induction false} OneKindNeverRefused(
      m: Method, layout: Layout, entry: FrameState, bound: States, trace: seq<Config>, picks: seq<nat>, k: nat)
    requires m.code != [] && Shaped(m, entry) && Gapped(entry.locals) && entry.stack == []
    requires forall p :: p in layout ==> layout[p].pc == p
    requires OneKind(m, layout, entry) && PostFixpoint(m, layout, entry, bound)
    requires IsRun(m, layout, entry, trace, picks) && k < |trace[|picks|].queue|
    ensures !Rejecting(m, layout, entry, trace, picks, k)
  {
    hide Flows, MergeFlows, Rejecting, Meet, Stores;
    var kinds := KindsExist(m, layout, entry);
    RunKeepsKinds(m, layout, entry, kinds, trace, picks, |picks|);
    var c := trace[|picks|];
    RefusedBelowIff(m, layout, entry, bound, trace, picks, k);
    forall p, i, a, b | Meet(m, layout, c, k, p, i, a, b) ensures MergeType(a, b).Some? {
      KindsNeverConflict(m, layout, kinds, c, k, p, i, a, b);
    }
  }

  /**
   If one order accepts a method whose locals keep to one kind each, every order does: no
   round of any run is refused, and every run that comes to its end records the same frames.
   */
  lemma {:induction false} OneKindAnyOrder(
      m: Method, layout: Layout, entry: FrameState,
      trace1: seq<Config>, picks1: seq<nat>, trace2: seq<Config>, picks2: seq<nat>)
    requires m.code != [] && Shaped(m, entry) && Gapped(entry.locals) && entry.stack == []
    requires forall p :: p in layout ==> layout[p].pc == p
    requires OneKind(m, layout, entry)
    requires Accepting(m, layout, entry, trace1, picks1) && IsRun(m, layout, entry, trace2, picks2)
    ensures forall k :: 0 <= k < |trace2[|picks2|].queue| ==> !Rejecting(m, layout, entry, trace2, picks2, k)
    ensures trace2[|picks2|].queue == [] ==> trace2[|picks2|].states == trace1[|picks1|].states
  {
    hide Rejecting, OneKind, PostFixpoint;
    AcceptingIsPostFixpoint(m, layout, entry, trace1, picks1);
    var c := trace2[|picks2|];
    forall k | 0 <= k < |c.queue| ensures !Rejecting(m, layout, entry, trace2, picks2, k) {
      OneKindNeverRefused(m, layout, entry, trace1[|picks1|].states, trace2, picks2, k);
    }
    if c.queue == [] {
      NoneConstructed(m, layout, entry);
      AcceptingRunsAgree(m, layout, entry, trace1, picks1, trace2, picks2);
    }
  }

  lemma {:induction false} NoneConstructed(m: Method, layout: Layout, entry: FrameState)
    requires OneKind(m, layout, entry)
    ensures NoConstructorCalls(m, layout)
  {
  }
}
