/**
 What a stack map table says of a method: which offset each frame describes, which local each
 entry describes, and when the frames computed there agree with it.
 */
module StackMapTargets {
  import opened Wrappers
  import opened Words
  import opened Program
  import opened VerifyTypes
  import opened Descriptors
  import opened Decoder
  import opened Transfer
  import opened StackMaps

  // ----- Offsets -----

  /** The sum of the first n offset deltas. */
  function DeltaSum(frames: seq<StackMapFrame>, n: nat): nat
    requires n <= |frames|
  {
    if n == 0 then 0 else DeltaSum(frames, n - 1) + frames[n - 1].offsetDelta
  }

  /** The offset the k-th frame describes, after section 4.7.4 of the JVM specification. */
  function TargetOf(frames: seq<StackMapFrame>, k: nat): nat
    requires k < |frames|
  {
    k + DeltaSum(frames, k + 1)
  }

  lemma {:induction false} DeltaSumRest(frames: seq<StackMapFrame>, n: nat)
    requires frames != [] && n < |frames|
    ensures DeltaSum(frames, n + 1) == frames[0].offsetDelta + DeltaSum(frames[1..], n)
    decreases n
  {
    if n > 0 {
      DeltaSumRest(frames, n - 1);
    }
  }

  /** The frame computed at an offset agrees with what the table says of its locals and stack. */
  predicate AgreesAt(
      m: Method, states: seq<Option<FrameState>>, pc: nat, locals: seq<VerifyType>, stack: Infos)
  {
    && pc < |states| && states[pc].Some? && InfoTypes(m, stack).Some?
    && Matches(states[pc].value.locals, ExpandLocals(locals), true)
    && Matches(states[pc].value.stack, InfoTypes(m, stack).value, false)
  }

  /** Each frame of the list agrees at its target, counted from an offset on. */
  ghost predicate AllAgree(
      m: Method, states: seq<Option<FrameState>>, frames: seq<StackMapFrame>, from: nat, lists: seq<seq<VerifyType>>)
    requires |lists| == |frames|
  {
    forall k :: 0 <= k < |frames| ==> AgreesAt(m, states, from + TargetOf(frames, k), lists[k], frames[k].stack)
  }

  lemma {:induction false} NormalizeAllCounts(m: Method, previous: seq<VerifyType>, frames: seq<StackMapFrame>)
    ensures NormalizeAll(m, previous, frames).Some? ==> |NormalizeAll(m, previous, frames).value| == |frames|
    decreases |frames|
  {
    hide InfoTypes, Normalize;
    if frames != [] && InfoTypes(m, frames[0].locals).Some? {
      NormalizeAllCounts(m, Normalize(frames[0].kind, previous, InfoTypes(m, frames[0].locals).value), frames[1..]);
    }
  }

  /** The agreement of a list splits into its first frame's and the rest's, which starts one past the first target. */
  lemma {:induction false} AllAgreeSplit(
      m: Method, states: seq<Option<FrameState>>, frames: seq<StackMapFrame>, from: nat, lists: seq<seq<VerifyType>>)
    requires |lists| == |frames| && frames != []
    ensures AllAgree(m, states, frames, from, lists) <==>
            && AgreesAt(m, states, from + frames[0].offsetDelta, lists[0], frames[0].stack)
            && AllAgree(m, states, frames[1..], from + frames[0].offsetDelta + 1, lists[1..])
  {
    hide AgreesAt;
    var rest := frames[1..];
    assert TargetOf(frames, 0) == frames[0].offsetDelta by { DeltaSumRest(frames, 0); }
    forall k | 0 <= k < |rest| ensures TargetOf(frames, k + 1) == frames[0].offsetDelta + 1 + TargetOf(rest, k) {
      DeltaSumRest(frames, k + 1);
    }
    if AgreesAt(m, states, from + frames[0].offsetDelta, lists[0], frames[0].stack) &&
       AllAgree(m, states, rest, from + frames[0].offsetDelta + 1, lists[1..])
    {
      forall k | 0 <= k < |frames| ensures AgreesAt(m, states, from + TargetOf(frames, k), lists[k], frames[k].stack) {
        if k > 0 {
          assert AgreesAt(m, states, from + frames[0].offsetDelta + 1 + TargetOf(rest, k - 1), lists[1..][k - 1], rest[k - 1].stack);
        }
      }
    }
    if AllAgree(m, states, frames, from, lists) {
      forall k | 0 <= k < |rest|
        ensures AgreesAt(m, states, from + frames[0].offsetDelta + 1 + TargetOf(rest, k), lists[1..][k], rest[k].stack)
      {
        assert AgreesAt(m, states, from + TargetOf(frames, k + 1), lists[k + 1], frames[k + 1].stack);
      }
    }
  }

  /** Where the frame after this one is counted from. */
  function CountedFrom(previous: Option<nat>): nat {
    match previous case None => 0 case Some(p) => p + 1
  }

  lemma {:induction false} MapsAgreeIff(
      m: Method, states: seq<Option<FrameState>>, frames: seq<StackMapFrame>, previous: Option<nat>, locals: seq<VerifyType>)
    ensures NormalizeAll(m, locals, frames).Some? ==> |NormalizeAll(m, locals, frames).value| == |frames|
    ensures MapsAgree(m, states, frames, previous, locals) <==>
            && NormalizeAll(m, locals, frames).Some?
            && AllAgree(m, states, frames, CountedFrom(previous), NormalizeAll(m, locals, frames).value)
    decreases |frames|
  {
    hide InfoTypes, Normalize, Matches, ExpandLocals, AllAgree;
    NormalizeAllCounts(m, locals, frames);
    if frames == [] {
      assert AllAgree(m, states, [], CountedFrom(previous), []) by { EmptyAgrees(m, states, CountedFrom(previous)); }
    } else if InfoTypes(m, frames[0].locals).Some? {
      var here := Normalize(frames[0].kind, locals, InfoTypes(m, frames[0].locals).value);
      var pc := CountedFrom(previous) + frames[0].offsetDelta;
      MapsAgreeIff(m, states, frames[1..], Some(pc), here);
      if NormalizeAll(m, locals, frames).Some? {
        AllAgreeSplit(m, states, frames, CountedFrom(previous), NormalizeAll(m, locals, frames).value);
      }
    }
  }

  lemma {:induction false} EmptyAgrees(m: Method, states: seq<Option<FrameState>>, from: nat)
    ensures AllAgree(m, states, [], from, [])
  {
  }

  /**
   The verifier's check of the whole table: it passes if and only if the locals of every
   frame can be worked out and every frame's target has been reached by a state that agrees
   with them and with the frame's stack.
   */
  lemma {:induction false} StackMapsOkIff(m: Method, states: seq<Option<FrameState>>)
    requires m.stackMapFrames != []
    ensures StackMapsOk(m, states) <==>
            && InitialMapLocals(m).Some?
            && var lists := NormalizeAll(m, InitialMapLocals(m).value, m.stackMapFrames);
               && lists.Some? && |lists.value| == |m.stackMapFrames|
               && forall k :: 0 <= k < |m.stackMapFrames| ==>
                    AgreesAt(m, states, TargetOf(m.stackMapFrames, k), lists.value[k], m.stackMapFrames[k].stack)
  {
    hide MapsAgree, NormalizeAll, AgreesAt, InitialMapLocals;
    if InitialMapLocals(m).Some? {
      MapsAgreeIff(m, states, m.stackMapFrames, None, InitialMapLocals(m).value);
    }
  }

  // ----- The table a class file holds -----

  function StackOf(delta: Delta): Infos {
    match delta
    case Keep(_, item) => item
    case Set(_, _, items) => items
    case _ => []
  }

  /** The offset the k-th entry of a table describes. */
  function EntryTarget(deltas: seq<Delta>, k: nat): nat
    requires k < |deltas|
  {
    if k == 0 then deltas[0].offset else EntryTarget(deltas, k - 1) + deltas[k].offset + 1
  }

  /** The parser takes each frame's offset and stack from its own entry. */
  lemma {:induction false} FramesFollowDeltas(bytes: seq<byte>, pos: nat, count: nat, parsed: Infos)
    requires FramesAt(bytes, pos, count, parsed).Some? && DeltasAt(bytes, pos, count).Some?
    ensures var frames, deltas := FramesAt(bytes, pos, count, parsed).value.0, DeltasAt(bytes, pos, count).value.0;
            && |frames| == |deltas| == count
            && forall k :: 0 <= k < count ==>
                 frames[k].offsetDelta == deltas[k].offset && frames[k].stack == StackOf(deltas[k])
    decreases count
  {
    hide DeltaAt;
    if count > 0 {
      var (delta, next) := DeltaAt(bytes, pos).value;
      FramesFollowDeltas(bytes, next, count - 1, Rebuild(parsed, delta, bytes[pos]).value.locals);
    }
  }

  lemma {:induction false} EntryTargetIs(frames: seq<StackMapFrame>, deltas: seq<Delta>, k: nat)
    requires |frames| == |deltas| && k < |frames|
    requires forall j :: 0 <= j < |frames| ==> frames[j].offsetDelta == deltas[j].offset
    ensures EntryTarget(deltas, k) == TargetOf(frames, k)
    decreases k
  {
    if k == 0 {
      assert DeltaSum(frames, 1) == DeltaSum(frames, 0) + frames[0].offsetDelta;
    } else {
      EntryTargetIs(frames, deltas, k - 1);
    }
  }

  /**
   A table checked from its bytes: the verifier's check passes if and only if the entries'
   deltas can be applied to the parameters, and at each entry's target a state is recorded
   that agrees with the locals they make and with the stack the entry lists.
   */
  lemma {:induction false} TableCheckedIff(m: Method, bytes: seq<byte>, states: seq<Option<FrameState>>)
    requires ParseTable(bytes) == Some(m.stackMapFrames) && m.stackMapFrames != [] && InitialMapLocals(m).Some?
    requires TableDeltas(bytes).Some? ==>
               var lists := FoldDeltas(m, InitialMapLocals(m).value, TableDeltas(bytes).value);
               lists.Some? ==> AllFillerFree(lists.value)
    ensures TableDeltas(bytes).Some?
    ensures var deltas := TableDeltas(bytes).value;
            var lists := FoldDeltas(m, InitialMapLocals(m).value, deltas);
            StackMapsOk(m, states) <==>
              && lists.Some? && |lists.value| == |deltas|
              && forall k :: 0 <= k < |deltas| ==>
                   AgreesAt(m, states, EntryTarget(deltas, k), lists.value[k], StackOf(deltas[k]))
  {
    hide StackMapsOk, AgreesAt, NormalizeAll, FoldDeltas, AllFillerFree, InitialMapLocals, FramesAt, DeltasAt;
    TableNormalizesToFold(m, bytes);
    var deltas := TableDeltas(bytes).value;
    FramesFollowDeltas(bytes, 2, U16(bytes, 0).value, []);
    StackMapsOkIff(m, states);
    forall k | 0 <= k < |deltas| ensures EntryTarget(deltas, k) == TargetOf(m.stackMapFrames, k) {
      EntryTargetIs(m.stackMapFrames, deltas, k);
    }
  }

  // ----- Agreement -----

  /** Computed locals agree with expected ones if and only if they do in every slot up to the last usable one. */
  lemma {:induction false} LocalsMatchIff(actual: seq<VerifyType>, expected: seq<VerifyType>)
    ensures Matches(actual, expected, true) <==>
            forall i, j :: 0 <= i <= j < |expected| && expected[j] != Top ==>
              i < |actual| && Compatible(actual[i], expected[i])
  {
    var a, e := Trimmed(actual), Trimmed(expected);
    if forall i, j :: 0 <= i <= j < |expected| && expected[j] != Top ==> i < |actual| && Compatible(actual[i], expected[i]) {
      if e != [] {
        var last := |e| - 1;
        assert expected[last] != Top;
        assert actual[last] != Top;
      }
    }
  }

  /** A computed stack agrees if and only if every value does and nothing usable is expected above it. */
  lemma {:induction false} StackMatchesIff(actual: seq<VerifyType>, expected: seq<VerifyType>)
    requires forall i :: 0 <= i < |actual| ==> actual[i] != Top
    ensures Matches(actual, expected, false) <==>
            && |actual| <= |expected|
            && (forall i :: 0 <= i < |actual| ==> Compatible(actual[i], expected[i]))
            && forall i :: |actual| <= i < |expected| ==> expected[i] == Top
  {
    var e := Trimmed(expected);
    assert Trimmed(actual) == actual;
    if |actual| < |e| {
      assert expected[|e| - 1] != Top;
    }
  }

  /** The slot of the k-th local: two-word locals before it take two. */
  function SlotOf(locals: seq<VerifyType>, k: nat): nat
    requires k <= |locals|
  {
    if k == 0 then 0 else SlotOf(locals, k - 1) + if IsWide(locals[k - 1]) then 2 else 1
  }

  lemma {:induction false} SlotOfRest(locals: seq<VerifyType>, k: nat)
    requires locals != [] && k < |locals|
    ensures SlotOf(locals, k + 1) == (if IsWide(locals[0]) then 2 else 1) + SlotOf(locals[1..], k)
    decreases k
  {
    if k > 0 {
      SlotOfRest(locals, k - 1);
    }
  }

  lemma {:induction false} SlotsCounted(locals: seq<VerifyType>)
    ensures |ExpandLocals(locals)| == SlotOf(locals, |locals|)
    decreases |locals|
  {
    if locals != [] {
      SlotsCounted(locals[1..]);
      SlotOfRest(locals, |locals| - 1);
    }
  }

  lemma {:induction false} SlotsGrow(locals: seq<VerifyType>, k: nat, n: nat)
    requires k <= n <= |locals|
    ensures SlotOf(locals, k) <= SlotOf(locals, n)
    decreases n
  {
    if k < n {
      SlotsGrow(locals, k, n - 1);
    }
  }

  /** As slots, every local is at its own slot, with an unusable one behind it if it takes two words. */
  lemma {:induction false} LocalInSlot(locals: seq<VerifyType>, k: nat)
    requires k < |locals|
    ensures |ExpandLocals(locals)| == SlotOf(locals, |locals|) >= SlotOf(locals, k + 1)
    ensures ExpandLocals(locals)[SlotOf(locals, k)] == locals[k]
    ensures IsWide(locals[k]) ==> ExpandLocals(locals)[SlotOf(locals, k) + 1] == Top
    decreases |locals|
  {
    SlotsCounted(locals);
    SlotsGrow(locals, k + 1, |locals|);
    if k > 0 {
      LocalInSlot(locals[1..], k - 1);
      SlotOfRest(locals, k - 1);
      SlotOfRest(locals, k);
    }
  }
}
