/** The frame a method starts with: when its parameters fit, and which slot each of them is in. */
module EntryFrame {
  import opened Wrappers
  import opened Program
  import opened VerifyTypes
  import opened Descriptors
  import opened Transfer
  import opened StackMaps
  import opened StackMapTargets

  /** The number of slots parameters take: two for a long or double, one for any other. */
  function Words(params: seq<VerifyType>): nat {
    SlotOf(params, |params|)
  }

  /** Parameters fit if and only if there are slots for all their words, and then fill exactly those. */
  lemma {:induction false} ParamsPlacedIff(locals: seq<VerifyType>, index: nat, params: seq<VerifyType>)
    ensures PlaceParams(locals, index, params).Some? <==> params == [] || index + Words(params) <= |locals|
    ensures PlaceParams(locals, index, params).Some? && index <= |locals| ==>
              index + Words(params) <= |locals| &&
              PlaceParams(locals, index, params).value ==
              locals[..index] + ExpandLocals(params) + locals[index + Words(params)..]
    decreases |params|
  {
    SlotsCounted(params);
    if params == [] {
      assert index <= |locals| ==> locals == locals[..index] + [] + locals[index..];
    } else {
      SlotOfRest(params, |params| - 1);
      SlotsCounted(params[1..]);
      if IsWide(params[0]) {
        if index + 1 < |locals| {
          WidePlaced(locals, index, params);
        }
      } else if index < |locals| {
        NarrowPlaced(locals, index, params);
      }
    }
  }

  /** Locals with a first parameter placed, and then the rest of them behind it. */
  lemma {:induction false} PlacedBehind(
      locals: seq<VerifyType>, placed: seq<VerifyType>, index: nat, head: seq<VerifyType>, rest: seq<VerifyType>)
    requires |placed| == |locals| && index + |head| + |rest| <= |locals|
    requires forall i :: 0 <= i < |locals| ==>
               placed[i] == if index <= i < index + |head| then head[i - index] else locals[i]
    ensures placed[..index + |head|] + rest + placed[index + |head| + |rest|..]
         == locals[..index] + (head + rest) + locals[index + |head| + |rest|..]
  {
    assert placed[..index + |head|] == locals[..index] + head;
    assert placed[index + |head| + |rest|..] == locals[index + |head| + |rest|..];
  }

  lemma {:induction false} NarrowPlaced(locals: seq<VerifyType>, index: nat, params: seq<VerifyType>)
    requires params != [] && !IsWide(params[0]) && index < |locals|
    requires Words(params) == 1 + Words(params[1..]) && |ExpandLocals(params[1..])| == Words(params[1..])
    ensures PlaceParams(locals, index, params).Some? <==> index + Words(params) <= |locals|
    ensures PlaceParams(locals, index, params).Some? ==>
              PlaceParams(locals, index, params).value ==
              locals[..index] + ExpandLocals(params) + locals[index + Words(params)..]
    decreases |params|, 0
  {
    var placed, rest := locals[index := params[0]], ExpandLocals(params[1..]);
    ParamsPlacedIff(placed, index + 1, params[1..]);
    assert ExpandLocals(params) == [params[0]] + rest;
    assert PlaceParams(locals, index, params) == PlaceParams(placed, index + 1, params[1..]);
    hide ExpandLocals, PlaceParams, Words;
    if index + Words(params) <= |locals| {
      PlacedBehind(locals, placed, index, [params[0]], rest);
    }
  }

  lemma {:induction false} WidePlaced(locals: seq<VerifyType>, index: nat, params: seq<VerifyType>)
    requires params != [] && IsWide(params[0]) && index + 1 < |locals|
    requires Words(params) == 2 + Words(params[1..]) && |ExpandLocals(params[1..])| == Words(params[1..])
    ensures PlaceParams(locals, index, params).Some? <==> index + Words(params) <= |locals|
    ensures PlaceParams(locals, index, params).Some? ==>
              PlaceParams(locals, index, params).value ==
              locals[..index] + ExpandLocals(params) + locals[index + Words(params)..]
    decreases |params|, 0
  {
    var placed, rest := locals[index := params[0]][index + 1 := Top], ExpandLocals(params[1..]);
    ParamsPlacedIff(placed, index + 2, params[1..]);
    assert ExpandLocals(params) == [params[0], Top] + rest;
    assert PlaceParams(locals, index, params) == PlaceParams(placed, index + 2, params[1..]);
    hide ExpandLocals, PlaceParams, Words;
    if index + Words(params) <= |locals| {
      PlacedBehind(locals, placed, index, [params[0], Top], rest);
    }
  }

  /** The slots in front of the parameters: one for the receiver of an instance method. */
  function ReceiverWords(m: Method): nat {
    if m.isStatic then 0 else 1
  }

  /**
   A method has an entry frame if and only if its descriptor can be read, its receiver and
   parameters fit in its locals, and no more locals are preset than it has. A method without
   parameters needs no slot even for its receiver.
   */
  lemma {:induction false} EntryFrameIff(m: Method)
    ensures InitialFrame(m).Some? <==>
            && ParseMethodDescriptor(m.descriptor).Some?
            && |m.initialLocals| <= m.maxLocals
            && var params := ParseMethodDescriptor(m.descriptor).value.0;
               params == [] || ReceiverWords(m) + Words(params) <= m.maxLocals
  {
    hide PlaceParams, Overlay, ParseMethodDescriptor;
    if ParseMethodDescriptor(m.descriptor).Some? {
      var start := Started(m);
      ParamsPlacedIff(start, ReceiverWords(m), ParseMethodDescriptor(m.descriptor).value.0);
    }
  }

  /** The locals before the parameters are placed. */
  function Started(m: Method): (r: seq<VerifyType>)
    ensures |r| == m.maxLocals
  {
    var empty := seq(m.maxLocals, _ => Top);
    if m.isStatic || m.maxLocals == 0 then empty else empty[0 := ThisType(m)]
  }

  lemma {:induction false} EntryFrameIs(m: Method)
    requires InitialFrame(m).Some? && m.initialLocals == [] && ReceiverWords(m) <= m.maxLocals
    ensures var params := ParseMethodDescriptor(m.descriptor).value.0; var from := ReceiverWords(m);
            && |ExpandLocals(params)| == Words(params) && from + Words(params) <= m.maxLocals
            && InitialFrame(m).value.locals ==
               Started(m)[..from] + ExpandLocals(params) + Started(m)[from + Words(params)..]
  {
    var params := ParseMethodDescriptor(m.descriptor).value.0;
    ParamsPlacedIff(Started(m), ReceiverWords(m), params);
    SlotsCounted(params);
    hide PlaceParams, ParseMethodDescriptor, ExpandLocals, Words;
    var placed := PlaceParams(Started(m), ReceiverWords(m), params).value;
    assert Overlay(placed, []) == placed;
  }

  /**
   What the entry frame holds, slot by slot, where nothing is preset: the receiver first,
   each parameter at the slot its predecessors leave it, an unusable slot behind every long
   and double, and nothing behind the last.
   */
  lemma {:induction false} EntryFrameSlots(m: Method, k: nat)
    requires InitialFrame(m).Some? && m.initialLocals == []
    requires k < |ParseMethodDescriptor(m.descriptor).value.0|
    ensures var params := ParseMethodDescriptor(m.descriptor).value.0;
            var locals := InitialFrame(m).value.locals;
            var slot := ReceiverWords(m) + SlotOf(params, k);
            && slot < |locals| == m.maxLocals && locals[slot] == params[k]
            && (IsWide(params[k]) ==> slot + 1 < |locals| && locals[slot + 1] == Top)
            && (!m.isStatic ==> locals[0] == ThisType(m))
            && forall i :: ReceiverWords(m) + Words(params) <= i < |locals| ==> locals[i] == Top
  {
    var params := ParseMethodDescriptor(m.descriptor).value.0;
    ReceiverFits(m);
    EntryFrameIs(m);
    LocalInSlot(params, k);
    hide InitialFrame, ParseMethodDescriptor, ExpandLocals, SlotOf;
    var locals, from := InitialFrame(m).value.locals, ReceiverWords(m);
    assert locals[from + SlotOf(params, k)] == ExpandLocals(params)[SlotOf(params, k)];
  }

  /** A method with parameters has room for its receiver too. */
  lemma {:induction false} ReceiverFits(m: Method)
    requires InitialFrame(m).Some? && ParseMethodDescriptor(m.descriptor).value.0 != []
    ensures ReceiverWords(m) <= m.maxLocals
  {
    EntryFrameIff(m);
  }

  /**
   The locals a stack map table starts from are those of the entry frame: spelled out as
   slots, they are what it begins with, and the rest of it is unusable.
   */
  lemma {:induction false} TableStartsAtEntry(m: Method)
    requires InitialFrame(m).Some? && m.initialLocals == [] && ReceiverWords(m) <= m.maxLocals
    ensures InitialMapLocals(m).Some?
    ensures var slots := ExpandLocals(InitialMapLocals(m).value); var locals := InitialFrame(m).value.locals;
            && |slots| <= |locals| && locals[..|slots|] == slots
            && forall i :: |slots| <= i < |locals| ==> locals[i] == Top
  {
    EntryFrameIs(m);
    var params := ParseMethodDescriptor(m.descriptor).value.0;
    var initial := InitialMapLocals(m).value;
    if m.isStatic {
      assert initial == params;
    } else {
      assert initial == [ThisType(m)] + params && initial[1..] == params;
      assert ExpandLocals(initial) == [ThisType(m)] + ExpandLocals(params);
    }
    hide InitialFrame, ParseMethodDescriptor, ExpandLocals, InitialMapLocals;
  }

  /** The receiver: an object under construction in a constructor, and otherwise one of the method's class if it has a name. */
  lemma {:induction false} ReceiverType(m: Method)
    requires InitialFrame(m).Some? && m.initialLocals == [] && !m.isStatic && m.maxLocals > 0
    ensures InitialFrame(m).value.locals[0] ==
            if m.name == "<init>" then UninitializedThis
            else Reference(if m.className == "" then None else Some(m.className))
  {
    EntryFrameIs(m);
  }

  /** Locals preset by the launcher take the types of their values; the others are as without them. */
  lemma {:induction false} PresetLocals(m: Method, i: nat)
    requires InitialFrame(m).Some? && i < m.maxLocals
    ensures InitialFrame(m.(initialLocals := [])).Some?
    ensures InitialFrame(m).value.locals[i] ==
            if i < |m.initialLocals| && m.initialLocals[i].Some? then
              match m.initialLocals[i].value
              case IntValue(_) => Int case LongValue(_) => Long case FloatValue(_) => Float case DoubleValue(_) => Double
              case AddressValue(pc) => ReturnAddress(pc) case RefValue(_) => Reference(None)
            else InitialFrame(m.(initialLocals := [])).value.locals[i]
  {
  }
}
