/**
 The data-flow analysis as a transition system over worklist configurations, for any
 order of picking from the worklist. Accepting runs reach the least post-fixpoint.
 */
module Worklist {
  import opened Wrappers
  import opened Program
  import opened VerifyTypes
  import opened Decoder
  import opened Transfer
  import opened TransferFacts

  /** The recorded frame before each code offset. */
  type States = seq<Option<FrameState>>

  /** Merges one flow into the recorded states; the flag says whether they changed. */
  function MergeInto(states: States, f: Flow): (r: Option<(States, bool)>)
    ensures r.Some? ==> f.to < |states| && |r.value.0| == |states|
  {
    if f.to >= |states| then None
    else match states[f.to]
      case None => Some((states[f.to := Some(f.state)], true))
      case Some(existing) =>
        match MergeStates(existing, f.state)
        case None => None
        case Some(merged) =>
          var n := MaxLen(existing.locals, f.state.locals);
          Some((states[f.to := Some(merged)],
                merged.locals != Padded(existing.locals, n) || merged.stack != existing.stack))
  }

  /** Merges flows in order; also returns the offsets to put on the worklist. */
  function MergeFlows(states: States, flows: seq<Flow>): (r: Option<(States, seq<nat>)>)
    ensures r.Some? ==> |r.value.0| == |states|
    decreases |flows|
  {
    if flows == [] then Some((states, []))
    else match MergeInto(states, flows[0])
      case None => None
      case Some((next, changed)) =>
        match MergeFlows(next, flows[1..])
        case None => None
        case Some((last, added)) => Some((last, (if changed then [flows[0].to] else []) + added))
  }

  datatype Config = Config(states: States, queue: seq<nat>)

  /** Processes one picked offset; None when the verifier rejects. */
  ghost function Process(m: Method, layout: Layout, states: States, pc: nat): Option<(States, seq<nat>)> {
    if pc >= |states| then None
    else if states[pc].None? then Some((states, []))
    else if pc !in layout then None
    else match Flows(m, layout[pc], states[pc].value)
      case None => None
      case Some(flows) => MergeFlows(states, flows)
  }

  /** One round of the analysis that takes the k-th entry off the worklist. */
  ghost function Step(m: Method, layout: Layout, c: Config, k: nat): Option<Config>
    requires k < |c.queue|
  {
    match Process(m, layout, c.states, c.queue[k])
    case None => None
    case Some((states, added)) => Some(Config(states, c.queue[..k] + c.queue[k + 1..] + added))
  }

  ghost predicate StepsTo(m: Method, layout: Layout, c: Config, k: nat, d: Config) {
    k < |c.queue| && Step(m, layout, c, k) == Some(d)
  }

  function Start(m: Method, entry: FrameState): Config
    requires m.code != []
  {
    Config(seq(|m.code|, i => if i == 0 then Some(entry) else None), [0])
  }

  /** A run from the entry frame; `picks` are the worklist positions taken, in order. */
  ghost predicate IsRun(m: Method, layout: Layout, entry: FrameState, trace: seq<Config>, picks: seq<nat>)
    requires m.code != []
  {
    && |trace| == |picks| + 1
    && trace[0] == Start(m, entry)
    && forall i :: 0 <= i < |picks| ==> StepsTo(m, layout, trace[i], picks[i], trace[i + 1])
  }

  ghost predicate Accepting(m: Method, layout: Layout, entry: FrameState, trace: seq<Config>, picks: seq<nat>)
    requires m.code != []
  {
    IsRun(m, layout, entry, trace, picks) && trace[|picks|].queue == []
  }

  /** A run after which the verifier rejects if the k-th entry comes next. */
  ghost predicate Rejecting(m: Method, layout: Layout, entry: FrameState, trace: seq<Config>, picks: seq<nat>, k: nat)
    requires m.code != []
  {
    && IsRun(m, layout, entry, trace, picks)
    && k < |trace[|picks|].queue| && Step(m, layout, trace[|picks|], k).None?
  }

  lemma {:induction false} RunExtends(
      m: Method, layout: Layout, entry: FrameState, trace: seq<Config>, picks: seq<nat>, k: nat, next: Config)
    requires m.code != [] && IsRun(m, layout, entry, trace, picks)
    requires StepsTo(m, layout, trace[|picks|], k, next)
    ensures IsRun(m, layout, entry, trace + [next], picks + [k])
  {
    hide Process;
    var longer, taken := trace + [next], picks + [k];
    forall i | 0 <= i < |taken| ensures StepsTo(m, layout, longer[i], taken[i], longer[i + 1]) {
      if i < |picks| {
        assert StepsTo(m, layout, trace[i], picks[i], trace[i + 1]);
      }
    }
  }

  ghost predicate StatesBelow(a: States, b: States) {
    |a| == |b| &&
    forall p :: 0 <= p < |a| && a[p].Some? ==> b[p].Some? && StateBelow(a[p].value, b[p].value)
  }

  ghost predicate AllShaped(m: Method, states: States) {
    |states| == |m.code| && forall p :: 0 <= p < |states| && states[p].Some? ==> Shaped(m, states[p].value)
  }

  ghost predicate Absorbed(states: States, f: Flow) {
    f.to < |states| && states[f.to].Some? && StateBelow(f.state, states[f.to].value)
  }

  /** The instruction at p accepts its recorded frame, and all that flows from it is recorded. */
  ghost predicate Settled(m: Method, layout: Layout, states: States, p: nat)
    requires p < |states| && states[p].Some?
  {
    && p in layout
    && Flows(m, layout[p], states[p].value).Some?
    && forall f :: f in Flows(m, layout[p], states[p].value).value ==> Absorbed(states, f)
  }

  ghost predicate PostFixpoint(m: Method, layout: Layout, entry: FrameState, states: States) {
    && AllShaped(m, states)
    && Absorbed(states, Flow(0, entry))
    && forall p :: 0 <= p < |states| && states[p].Some? ==> Settled(m, layout, states, p)
  }

  // ----- What merging flows does -----

  lemma {:induction false} StatesBelowTransitive(a: States, b: States, c: States)
    requires StatesBelow(a, b) && StatesBelow(b, c)
    ensures StatesBelow(a, c)
  {
    forall p | 0 <= p < |a| && a[p].Some? ensures c[p].Some? && StateBelow(a[p].value, c[p].value) {
      StateBelowTransitive(a[p].value, b[p].value, c[p].value);
    }
  }

  lemma {:induction false} AbsorbedMonotone(a: States, b: States, f: Flow)
    requires StatesBelow(a, b) && Absorbed(a, f)
    ensures Absorbed(b, f)
  {
    StateBelowTransitive(f.state, a[f.to].value, b[f.to].value);
  }

  lemma {:induction false} StateBelowReflexive(s: FrameState)
    ensures StateBelow(s, s)
  {
  }

  lemma {:induction false} MergeIntoFacts(m: Method, states: States, f: Flow)
    requires AllShaped(m, states) && Shaped(m, f.state) && MergeInto(states, f).Some?
    ensures var (next, changed) := MergeInto(states, f).value;
            && AllShaped(m, next) && StatesBelow(states, next) && Absorbed(next, f)
            && (changed <==> next != states)
            && forall p :: 0 <= p < |states| && p != f.to ==> next[p] == states[p]
  {
    var (next, changed) := MergeInto(states, f).value;
    if states[f.to].Some? {
      var existing := states[f.to].value;
      MergeStatesIsLeastUpperBound(existing, f.state, f.state);
      MergeKeepsShape(m, existing, f.state);
      assert Padded(existing.locals, m.maxLocals) == existing.locals;
      assert next[f.to].value == existing ==> next == states;
    }
  }

  lemma {:induction false} MergeFlowsFacts(m: Method, states: States, flows: seq<Flow>)
    requires AllShaped(m, states) && MergeFlows(states, flows).Some?
    requires forall f :: f in flows ==> Shaped(m, f.state)
    ensures var (last, added) := MergeFlows(states, flows).value;
            && AllShaped(m, last) && StatesBelow(states, last)
            && (forall f :: f in flows ==> Absorbed(last, f))
            && (forall p :: 0 <= p < |states| && last[p] != states[p] ==> p in added)
            && (forall p :: p in added ==> p < |last| && last[p].Some?)
    decreases |flows|
  {
    if flows != [] {
      var (next, changed) := MergeInto(states, flows[0]).value;
      var (last, added) := MergeFlows(next, flows[1..]).value;
      MergeIntoFacts(m, states, flows[0]);
      MergeFlowsFacts(m, next, flows[1..]);
      StatesBelowTransitive(states, next, last);
      AbsorbedMonotone(next, last, flows[0]);
      forall f | f in flows ensures Absorbed(last, f) {
        if f != flows[0] {
          assert f in flows[1..];
        }
      }
      var all := (if changed then [flows[0].to] else []) + added;
      forall p | 0 <= p < |states| && last[p] != states[p] ensures p in all {
        if next[p] != states[p] {
          assert p == flows[0].to && changed;
        } else {
          assert p in added;
        }
      }
    }
  }

  // ----- Post-fixpoint -----

  /** What every configuration of a run satisfies. */
  ghost predicate Inv(m: Method, layout: Layout, entry: FrameState, c: Config) {
    && AllShaped(m, c.states)
    && Absorbed(c.states, Flow(0, entry))
    && (forall q :: q in c.queue ==> q < |c.states| && c.states[q].Some?)
    && (forall p :: 0 <= p < |c.states| && c.states[p].Some? && p !in c.queue ==> Settled(m, layout, c.states, p))
  }

  lemma {:induction false} SettledMonotone(m: Method, layout: Layout, a: States, b: States, p: nat)
    requires StatesBelow(a, b) && p < |a| && a[p].Some? && b[p] == a[p]
    requires Settled(m, layout, a, p)
    ensures Settled(m, layout, b, p)
  {
    forall f | f in Flows(m, layout[p], a[p].value).value ensures Absorbed(b, f) {
      AbsorbedMonotone(a, b, f);
    }
  }

  lemma {:induction false} OthersStayQueued(queue: seq<nat>, k: nat, q: nat)
    requires k < |queue| && q != queue[k]
    ensures q in queue <==> q in queue[..k] + queue[k + 1..]
  {
    if q in queue {
      var j :| 0 <= j < |queue| && queue[j] == q;
      assert (queue[..k] + queue[k + 1..])[if j < k then j else j - 1] == q;
    }
  }

  lemma {:induction false} StepKeepsInv(m: Method, layout: Layout, entry: FrameState, c: Config, k: nat, d: Config)
    requires forall p :: p in layout ==> layout[p].pc == p
    requires Inv(m, layout, entry, c) && StepsTo(m, layout, c, k, d)
    ensures Inv(m, layout, entry, d)
    ensures StatesBelow(c.states, d.states)
  {
    var pc := c.queue[k];
    var flows := Flows(m, layout[pc], c.states[pc].value).value;
    FlowsKeepShape(m, layout[pc], c.states[pc].value);
    MergeFlowsFacts(m, c.states, flows);
    var (states, added) := MergeFlows(c.states, flows).value;
    AbsorbedMonotone(c.states, states, Flow(0, entry));
    forall p | 0 <= p < |states| && states[p].Some? && p !in d.queue ensures Settled(m, layout, states, p) {
      assert p !in added;
      assert states[p] == c.states[p];
      if p != pc {
        OthersStayQueued(c.queue, k, p);
        SettledMonotone(m, layout, c.states, states, p);
      }
    }
    forall q | q in d.queue ensures q < |states| && states[q].Some? {
      if q !in added {
        assert q in c.queue;
      }
    }
  }

  lemma {:induction false} StartInv(m: Method, layout: Layout, entry: FrameState)
    requires m.code != [] && Shaped(m, entry)
    ensures Inv(m, layout, entry, Start(m, entry))
  {
    assert 0 in Start(m, entry).queue;
    StateBelowReflexive(entry);
  }

  lemma {:induction false} RunInv(
      m: Method, layout: Layout, entry: FrameState, trace: seq<Config>, picks: seq<nat>, i: nat)
    requires m.code != [] && Shaped(m, entry) && IsRun(m, layout, entry, trace, picks) && i < |trace|
    requires forall p :: p in layout ==> layout[p].pc == p
    ensures Inv(m, layout, entry, trace[i])
  {
    if i == 0 {
      StartInv(m, layout, entry);
    } else {
      RunInv(m, layout, entry, trace, picks, i - 1);
      assert StepsTo(m, layout, trace[i - 1], picks[i - 1], trace[i - 1 + 1]);
      StepKeepsInv(m, layout, entry, trace[i - 1], picks[i - 1], trace[i]);
    }
  }

  /** However the worklist was served, an accepting run ends in a post-fixpoint. */
  lemma {:induction false} AcceptingIsPostFixpoint(
      m: Method, layout: Layout, entry: FrameState, trace: seq<Config>, picks: seq<nat>)
    requires m.code != [] && Shaped(m, entry) && Accepting(m, layout, entry, trace, picks)
    requires forall p :: p in layout ==> layout[p].pc == p
    ensures PostFixpoint(m, layout, entry, trace[|picks|].states)
  {
    RunInv(m, layout, entry, trace, picks, |picks|);
  }

  // ----- Leastness -----

  ghost predicate NoConstructorCalls(m: Method, layout: Layout) {
    forall p :: p in layout ==> !IsConstructorCall(m, layout[p])
  }

  ghost predicate AllGapped(states: States) {
    forall p :: 0 <= p < |states| && states[p].Some? ==> Gapped(states[p].value.locals)
  }

  lemma {:induction false} MergeFlowsBelow(m: Method, states: States, flows: seq<Flow>, bound: States)
    requires AllShaped(m, states) && AllGapped(states) && MergeFlows(states, flows).Some?
    requires forall f :: f in flows ==> Shaped(m, f.state) && Gapped(f.state.locals)
    requires StatesBelow(states, bound)
    requires forall f :: f in flows ==> Absorbed(bound, f)
    ensures StatesBelow(MergeFlows(states, flows).value.0, bound)
    ensures AllGapped(MergeFlows(states, flows).value.0)
    decreases |flows|
  {
    if flows != [] {
      var f := flows[0];
      var (next, changed) := MergeInto(states, f).value;
      MergeIntoFacts(m, states, f);
      if states[f.to].Some? {
        MergeStatesIsLeastUpperBound(states[f.to].value, f.state, bound[f.to].value);
        MergeKeepsShape(m, states[f.to].value, f.state);
      }
      assert Absorbed(bound, f);
      MergeFlowsBelow(m, next, flows[1..], bound);
    }
  }

  lemma {:induction false} FlowsAbsorbedByBound(
      m: Method, layout: Layout, s: FrameState, bound: States, entry: FrameState, pc: nat)
    requires pc < |bound| && bound[pc].Some? && StateBelow(s, bound[pc].value) && Gapped(s.locals)
    requires PostFixpoint(m, layout, entry, bound) && NoConstructorCalls(m, layout)
    ensures pc in layout && Flows(m, layout[pc], s).Some?
    ensures forall f :: f in Flows(m, layout[pc], s).value ==> Absorbed(bound, f)
  {
    assert Settled(m, layout, bound, pc);
    FlowsMonotone(m, layout[pc], s, bound[pc].value);
    var fs := Flows(m, layout[pc], s).value;
    var gs := Flows(m, layout[pc], bound[pc].value).value;
    forall f | f in fs ensures Absorbed(bound, f) {
      var k :| 0 <= k < |fs| && fs[k] == f;
      assert gs[k] in gs;
      assert Absorbed(bound, gs[k]);
      StateBelowTransitive(f.state, gs[k].state, bound[f.to].value);
    }
  }

  /** One round keeps what is recorded below a post-fixpoint. */
  lemma {:induction false} StepBelowPostFixpoint(
      m: Method, layout: Layout, entry: FrameState, c: Config, k: nat, d: Config, bound: States)
    requires NoConstructorCalls(m, layout) && PostFixpoint(m, layout, entry, bound)
    requires StatesBelow(c.states, bound) && AllGapped(c.states) && AllShaped(m, c.states)
    requires StepsTo(m, layout, c, k, d) && c.queue[k] < |c.states| && c.states[c.queue[k]].Some?
    ensures StatesBelow(d.states, bound) && AllGapped(d.states)
  {
    hide PostFixpoint, NoConstructorCalls, Flows, MergeFlows, Absorbed, Gapped;
    var pc := c.queue[k];
    FlowsAbsorbedByBound(m, layout, c.states[pc].value, bound, entry, pc);
    FlowsKeepShape(m, layout[pc], c.states[pc].value);
    MergeFlowsBelow(m, c.states, Flows(m, layout[pc], c.states[pc].value).value, bound);
  }

  /** Every state of every run lies below every post-fixpoint of the method. */
  lemma {:induction false} RunBelowPostFixpoint(
      m: Method, layout: Layout, entry: FrameState, trace: seq<Config>, picks: seq<nat>, i: nat, bound: States)
    requires m.code != [] && Shaped(m, entry) && Gapped(entry.locals) && NoConstructorCalls(m, layout)
    requires forall p :: p in layout ==> layout[p].pc == p
    requires IsRun(m, layout, entry, trace, picks) && i < |trace|
    requires PostFixpoint(m, layout, entry, bound)
    ensures StatesBelow(trace[i].states, bound) && AllGapped(trace[i].states)
  {
    if i > 0 {
      RunBelowPostFixpoint(m, layout, entry, trace, picks, i - 1, bound);
      RunInv(m, layout, entry, trace, picks, i - 1);
      assert StepsTo(m, layout, trace[i - 1], picks[i - 1], trace[i - 1 + 1]);
      StepBelowPostFixpoint(m, layout, entry, trace[i - 1], picks[i - 1], trace[i], bound);
    }
  }

  /** Any two accepting runs, whatever order they served the worklist in, record the same frames. */
  lemma {:induction false} AcceptingRunsAgree(
      m: Method, layout: Layout, entry: FrameState,
      trace1: seq<Config>, picks1: seq<nat>, trace2: seq<Config>, picks2: seq<nat>)
    requires m.code != [] && Shaped(m, entry) && Gapped(entry.locals) && NoConstructorCalls(m, layout)
    requires forall p :: p in layout ==> layout[p].pc == p
    requires Accepting(m, layout, entry, trace1, picks1) && Accepting(m, layout, entry, trace2, picks2)
    ensures trace1[|picks1|].states == trace2[|picks2|].states
  {
    var a, b := trace1[|picks1|].states, trace2[|picks2|].states;
    AcceptingIsPostFixpoint(m, layout, entry, trace1, picks1);
    AcceptingIsPostFixpoint(m, layout, entry, trace2, picks2);
    RunBelowPostFixpoint(m, layout, entry, trace1, picks1, |picks1|, b);
    RunBelowPostFixpoint(m, layout, entry, trace2, picks2, |picks2|, a);
    forall p | 0 <= p < |a| ensures a[p] == b[p] {
      if a[p].Some? {
        StateBelowAntisymmetric(a[p].value, b[p].value);
      }
    }
  }

  // ----- Termination -----

  /** How many more changes an offset can absorb. */
  ghost function Cost(m: Method, o: Option<FrameState>): nat {
    match o
    case None => 1 + 3 * (m.maxLocals + StackBound(m))
    case Some(s) => StateRank(s)
  }

  ghost function Potential(m: Method, states: States): nat {
    if states == [] then 0 else Cost(m, states[0]) + Potential(m, states[1..])
  }

  lemma {:induction false} PotentialUpdate(m: Method, states: States, i: nat, o: Option<FrameState>)
    requires i < |states|
    ensures Potential(m, states[i := o]) + Cost(m, states[i]) == Potential(m, states) + Cost(m, o)
    decreases |states|
  {
    if i == 0 {
      assert states[i := o][1..] == states[1..];
    } else {
      PotentialUpdate(m, states[1..], i - 1, o);
      assert states[i := o][1..] == states[1..][i - 1 := o];
    }
  }

  lemma {:induction false} CostBound(m: Method, o: Option<FrameState>)
    requires o.Some? ==> Shaped(m, o.value)
    ensures Cost(m, o) <= Cost(m, None)
  {
    if o.Some? {
      RanksBound(o.value.locals);
      RanksBound(o.value.stack);
    }
  }

  lemma {:induction false} MulStep(n: nat, each: nat)
    requires n > 0
    ensures (n - 1) * each + each == n * each
  {
  }

  lemma {:induction false} PotentialBound(m: Method, states: States, each: nat)
    requires forall p :: 0 <= p < |states| && states[p].Some? ==> Shaped(m, states[p].value)
    requires each == Cost(m, None)
    ensures Potential(m, states) <= |states| * each
    decreases |states|
  {
    if states != [] {
      CostBound(m, states[0]);
      PotentialBound(m, states[1..], each);
      MulStep(|states|, each);
    }
  }

  /** Every offset the merge puts on the worklist is paid for by the potential. */
  lemma {:induction false} MergeFlowsPays(m: Method, states: States, flows: seq<Flow>)
    requires AllShaped(m, states) && MergeFlows(states, flows).Some?
    requires forall f :: f in flows ==> Shaped(m, f.state)
    ensures var (last, added) := MergeFlows(states, flows).value;
            Potential(m, last) + |added| <= Potential(m, states)
    decreases |flows|
  {
    if flows != [] {
      var f := flows[0];
      var (next, changed) := MergeInto(states, f).value;
      MergeIntoFacts(m, states, f);
      MergeFlowsPays(m, next, flows[1..]);
      PotentialUpdate(m, states, f.to, next[f.to]);
      assert next == states[f.to := next[f.to]];
      if states[f.to].None? {
        RanksBound(f.state.locals);
        RanksBound(f.state.stack);
      } else if changed {
        MergeLosesRank(states[f.to].value, next[f.to].value);
      }
    }
  }

  lemma {:induction false} StepPays(m: Method, layout: Layout, entry: FrameState, c: Config, k: nat, d: Config)
    requires Inv(m, layout, entry, c) && StepsTo(m, layout, c, k, d)
    ensures Potential(m, d.states) + |d.queue| < Potential(m, c.states) + |c.queue|
  {
    var pc := c.queue[k];
    FlowsKeepShape(m, layout[pc], c.states[pc].value);
    MergeFlowsPays(m, c.states, Flows(m, layout[pc], c.states[pc].value).value);
  }

  lemma {:induction false} RunPays(
      m: Method, layout: Layout, entry: FrameState, trace: seq<Config>, picks: seq<nat>, i: nat)
    requires m.code != [] && Shaped(m, entry) && IsRun(m, layout, entry, trace, picks) && i < |trace|
    requires forall p :: p in layout ==> layout[p].pc == p
    ensures i + Potential(m, trace[i].states) + |trace[i].queue| <=
            1 + |m.code| * (1 + 3 * (m.maxLocals + StackBound(m)))
  {
    if i == 0 {
      StartInv(m, layout, entry);
      PotentialBound(m, trace[0].states, Cost(m, None));
    } else {
      RunPays(m, layout, entry, trace, picks, i - 1);
      RunInv(m, layout, entry, trace, picks, i - 1);
      assert StepsTo(m, layout, trace[i - 1], picks[i - 1], trace[i - 1 + 1]);
      StepPays(m, layout, entry, trace[i - 1], picks[i - 1], trace[i]);
    }
  }

  /** No run of the analysis, in whatever order, is longer than this. */
  lemma {:induction false} RunLengthBounded(
      m: Method, layout: Layout, entry: FrameState, trace: seq<Config>, picks: seq<nat>)
    requires m.code != [] && Shaped(m, entry) && IsRun(m, layout, entry, trace, picks)
    requires forall p :: p in layout ==> layout[p].pc == p
    ensures |picks| <= 1 + |m.code| * (1 + 3 * (m.maxLocals + StackBound(m)))
  {
    RunPays(m, layout, entry, trace, picks, |picks|);
  }
}
