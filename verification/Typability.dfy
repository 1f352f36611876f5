/**
 Acceptance without the analysis: a method whose locals keep to one kind each is accepted if
 and only if its instructions can be typed at all.
 */
module Typability {
  import opened Wrappers
  import opened Bytecode
  import opened Program
  import opened VerifyTypes
  import opened Descriptors
  import opened Decoder
  import opened Transfer
  import opened TransferFacts
  import opened StackMaps
  import opened StackMapTargets
  import opened Worklist
  import opened MergeOrder
  import V = Verifier

  /** The verifier's own order serves such a method to the end, from wherever it has come. */
  lemma {:induction false} RunCompletes(
      m: Method, layout: Layout, entry: FrameState, bound: States, trace: seq<Config>, picks: seq<nat>)
    returns (whole: seq<Config>, taken: seq<nat>)
    requires m.code != [] && Shaped(m, entry) && Gapped(entry.locals) && entry.stack == []
    requires forall p :: p in layout ==> layout[p].pc == p
    requires OneKind(m, layout, entry) && PostFixpoint(m, layout, entry, bound)
    requires IsRun(m, layout, entry, trace, picks) && V.Fifo(picks)
    ensures Accepting(m, layout, entry, whole, taken) && V.Fifo(taken)
    decreases 1 + |m.code| * (1 + 3 * (m.maxLocals + StackBound(m))) - |picks|
  {
    hide OneKind, PostFixpoint, Step;
    RunLengthBounded(m, layout, entry, trace, picks);
    if trace[|picks|].queue == [] {
      whole, taken := trace, picks;
    } else {
      OneKindNeverRefused(m, layout, entry, bound, trace, picks, 0);
      var next := Step(m, layout, trace[|picks|], 0).value;
      RunExtends(m, layout, entry, trace, picks, 0, next);
      RunLengthBounded(m, layout, entry, trace + [next], picks + [0]);
      hide IsRun;
      whole, taken := RunCompletes(m, layout, entry, bound, trace + [next], picks + [0]);
    }
  }

  /** A typing: a state for every reached offset that its instruction accepts and whose flows the others absorb. */
  ghost predicate IsTyping(m: Method, layout: Layout, entry: FrameState, states: States) {
    PostFixpoint(m, layout, entry, states)
  }

  /** The analysis of such a method succeeds if and only if there is a typing, and then finds the least one. */
  lemma {:induction false} AnalysisSucceedsIff(m: Method, layout: Layout, entry: FrameState)
    requires m.code != [] && Shaped(m, entry) && Gapped(entry.locals) && entry.stack == []
    requires forall p :: p in layout ==> layout[p].pc == p
    requires OneKind(m, layout, entry)
    ensures (exists states :: V.FifoAccepts(m, layout, entry, states)) <==>
            (exists typing :: IsTyping(m, layout, entry, typing))
    ensures forall states, typing :: V.FifoAccepts(m, layout, entry, states) && IsTyping(m, layout, entry, typing) ==>
              IsTyping(m, layout, entry, states) && StatesBelow(states, typing)
  {
    hide OneKind, PostFixpoint, Accepting;
    forall states | V.FifoAccepts(m, layout, entry, states) ensures IsTyping(m, layout, entry, states) {
      AcceptedIsTyping(m, layout, entry, states);
    }
    if exists typing :: IsTyping(m, layout, entry, typing) {
      var typing :| IsTyping(m, layout, entry, typing);
      TypedIsAccepted(m, layout, entry, typing);
    }
    forall states, typing | V.FifoAccepts(m, layout, entry, states) && IsTyping(m, layout, entry, typing)
      ensures StatesBelow(states, typing)
    {
      AcceptedIsLeast(m, layout, entry, states, typing);
    }
  }

  lemma {:induction false} AcceptedIsTyping(m: Method, layout: Layout, entry: FrameState, states: States)
    requires m.code != [] && Shaped(m, entry) && forall p :: p in layout ==> layout[p].pc == p
    requires V.FifoAccepts(m, layout, entry, states)
    ensures IsTyping(m, layout, entry, states)
  {
    hide PostFixpoint;
    var trace: seq<Config>, picks: seq<nat> :|
      Accepting(m, layout, entry, trace, picks) && V.Fifo(picks) && trace[|picks|].states == states;
    AcceptingIsPostFixpoint(m, layout, entry, trace, picks);
  }

  lemma {:induction false} TypedIsAccepted(m: Method, layout: Layout, entry: FrameState, typing: States)
    requires m.code != [] && Shaped(m, entry) && Gapped(entry.locals) && entry.stack == []
    requires forall p :: p in layout ==> layout[p].pc == p
    requires OneKind(m, layout, entry) && IsTyping(m, layout, entry, typing)
    ensures exists states :: V.FifoAccepts(m, layout, entry, states)
  {
    hide OneKind, PostFixpoint;
    assert IsRun(m, layout, entry, [Start(m, entry)], []);
    hide Accepting;
    var trace, picks := RunCompletes(m, layout, entry, typing, [Start(m, entry)], []);
    assert V.FifoAccepts(m, layout, entry, trace[|picks|].states);
  }

  lemma {:induction false} AcceptedIsLeast(
      m: Method, layout: Layout, entry: FrameState, states: States, typing: States)
    requires m.code != [] && Shaped(m, entry) && Gapped(entry.locals)
    requires forall p :: p in layout ==> layout[p].pc == p
    requires OneKind(m, layout, entry) && IsTyping(m, layout, entry, typing)
    requires V.FifoAccepts(m, layout, entry, states)
    ensures StatesBelow(states, typing)
  {
    NoneConstructed(m, layout, entry);
    hide OneKind, PostFixpoint, NoConstructorCalls;
    var trace: seq<Config>, picks: seq<nat> :|
      Accepting(m, layout, entry, trace, picks) && V.Fifo(picks) && trace[|picks|].states == states;
    RunBelowPostFixpoint(m, layout, entry, trace, picks, |picks|, typing);
  }

  /** There is at most one: the typing that says the most of every offset it needs to reach. */
  ghost predicate IsLeastTyping(m: Method, layout: Layout, entry: FrameState, states: States) {
    IsTyping(m, layout, entry, states) &&
    forall typing :: IsTyping(m, layout, entry, typing) ==> StatesBelow(states, typing)
  }

  /** Every frame of the stack map table agrees with the typing at its target. */
  ghost predicate TableConfirms(m: Method, states: States) {
    m.stackMapFrames == [] ||
    (&& InitialMapLocals(m).Some?
     && var lists := NormalizeAll(m, InitialMapLocals(m).value, m.stackMapFrames);
        && lists.Some? && |lists.value| == |m.stackMapFrames|
        && forall k :: 0 <= k < |m.stackMapFrames| ==>
             AgreesAt(m, states, TargetOf(m.stackMapFrames, k), lists.value[k], m.stackMapFrames[k].stack))
  }

  lemma {:induction false} LeastIsUnique(m: Method, layout: Layout, entry: FrameState, a: States, b: States)
    requires IsLeastTyping(m, layout, entry, a) && IsLeastTyping(m, layout, entry, b)
    ensures a == b
  {
    hide PostFixpoint;
    forall p | 0 <= p < |a| ensures a[p] == b[p] {
      if a[p].Some? {
        StateBelowAntisymmetric(a[p].value, b[p].value);
      }
    }
  }

  /** The frames the analysis of such a method ends with are its least typing, if it has one. */
  lemma {:induction false} AcceptedIffLeast(m: Method, layout: Layout, entry: FrameState, states: States)
    requires m.code != [] && Shaped(m, entry) && Gapped(entry.locals) && entry.stack == []
    requires forall p :: p in layout ==> layout[p].pc == p
    requires OneKind(m, layout, entry)
    ensures V.FifoAccepts(m, layout, entry, states) <==> IsLeastTyping(m, layout, entry, states)
  {
    hide OneKind, IsTyping, V.FifoAccepts;
    AnalysisSucceedsIff(m, layout, entry);
    if IsLeastTyping(m, layout, entry, states) {
      var found: States :| V.FifoAccepts(m, layout, entry, found);
      assert IsLeastTyping(m, layout, entry, found);
      LeastIsUnique(m, layout, entry, states, found);
    }
  }

  /**
   What the verifier accepts, said without its loop: the code divides into instructions, the
   handler table and the entry frame are in order, there is a least typing, and the stack
   map table agrees with it. This holds of every method whose locals keep to one kind each;
   a long or double among preset locals has an unusable slot behind it.
   */
  lemma {:induction false} VerifiesIff(m: Method)
    requires m.code != []
    requires Scan(m).Some? && InitialFrame(m).Some? ==>
               OneKind(m, Scan(m).value, InitialFrame(m).value) && Gapped(InitialFrame(m).value.locals)
    ensures V.Verifies(m) <==>
            exists layout :: Divides(m, layout) && V.HandlersValid(m, layout) && InitialFrame(m).Some? &&
              exists typing :: IsLeastTyping(m, layout, InitialFrame(m).value, typing) && TableConfirms(m, typing)
  {
    hide Scan, InitialFrame, OneKind, IsLeastTyping, V.FifoAccepts, Divides, V.HandlersValid, TableConfirms, StackMapsOk;
    forall layout ensures Divides(m, layout) <==> Scan(m) == Some(layout) {
      ScanIff(m, layout);
    }
    if Scan(m).Some? && InitialFrame(m).Some? {
      var layout, entry := Scan(m).value, InitialFrame(m).value;
      ScanFacts(m);
      InitialFrameShape(m);
      InitialStackEmpty(m);
      assert Divides(m, layout);
      forall typing: States
        ensures V.FifoAccepts(m, layout, entry, typing) <==> IsLeastTyping(m, layout, entry, typing)
        ensures StackMapsOk(m, typing) <==> TableConfirms(m, typing)
      {
        AcceptedIffLeast(m, layout, entry, typing);
        TableConfirmsIff(m, typing);
      }
    }
  }

  lemma {:induction false} TableConfirmsIff(m: Method, states: States)
    ensures StackMapsOk(m, states) <==> TableConfirms(m, states)
  {
    if m.stackMapFrames != [] {
      StackMapsOkIff(m, states);
    }
  }

  lemma {:induction false} ScanFacts(m: Method)
    requires Scan(m).Some?
    ensures forall p :: p in Scan(m).value ==> Scan(m).value[p].pc == p
  {
    hide Decode;
    LayoutFacts(m, 0);
  }

  lemma {:induction false} InitialStackEmpty(m: Method)
    requires InitialFrame(m).Some?
    ensures InitialFrame(m).value.stack == []
  {
  }
}
