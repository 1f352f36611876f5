/** The heap as the VM keeps it: fields updated in place, marking with a worklist, sweeping in a loop. */
module Heaps {
  import opened Wrappers
  import opened Words
  import opened Program
  import opened HeapModel
  import opened HeapFacts
  import opened HeapRuns

  class Heap {
    var values: seq<Option<HeapValue>>
    var ages: seq<nat>
    var tlabTop: nat
    var tlabLimit: nat
    var youngEnd: nat
    var survivorEnd: nat
    var rememberedSet: seq<(nat, nat)>
    var liveCount: nat
    var allocsSinceGc: nat
    var totalAllocations: nat
    var freed: nat
    var lastFreed: nat
    var tlabAllocations: nat
    var tlabRefills: nat
    var collections: nat
    var minorCount: nat
    var majorCount: nat

    constructor ()
      ensures State() == EMPTY_HEAP
    {
      values, ages, rememberedSet := [], [], [];
      tlabTop, tlabLimit, youngEnd, survivorEnd := 0, 0, 0, 0;
      liveCount, allocsSinceGc, totalAllocations, freed, lastFreed := 0, 0, 0, 0, 0;
      tlabAllocations, tlabRefills, collections, minorCount, majorCount := 0, 0, 0, 0, 0;
    }

    function State(): HeapState
      reads this
    {
      HeapState(values, ages, tlabTop, tlabLimit, youngEnd, survivorEnd, rememberedSet, liveCount, allocsSinceGc,
                totalAllocations, freed, lastFreed, tlabAllocations, tlabRefills, collections, minorCount, majorCount)
    }

    // ----- Allocation and stores -----

    /** Empty slots and zero ages up to a new length. */
    method Resize(length: nat)
      requires |values| <= length
      modifies this`values, this`ages
      ensures values == old(values) + Nones(length - |old(values)|)
      ensures ages == old(ages) + Zeros(if |old(ages)| <= length then length - |old(ages)| else 0)
    {
      values := values + Nones(length - |values|);
      if |ages| <= length {
        ages := ages + Zeros(length - |ages|);
      }
    }

    method StartBuffer()
      modifies this`values, this`ages, this`tlabTop, this`tlabLimit
      ensures State() == WithBuffer(old(State()))
    {
      tlabTop := |values|;
      tlabLimit := |values| + TLAB_SIZE;
      Resize(tlabLimit);
    }

    method RefillTlab()
      modifies this`values, this`ages, this`tlabTop, this`tlabLimit, this`tlabRefills
      ensures State() == WithBuffer(old(State())).(tlabRefills := old(tlabRefills) + 1)
    {
      tlabRefills := tlabRefills + 1;
      StartBuffer();
    }

    /** A buffer with room for one more object. */
    method EnsureRoom()
      requires WellFormed(State())
      modifies this`values, this`ages, this`tlabTop, this`tlabLimit, this`tlabRefills
      ensures State() == Refilled(old(State())) && tlabTop < |values|
    {
      if tlabTop >= tlabLimit {
        RefillTlab();
      }
    }

    /** Takes the next slot of the buffer, starting a new one at the end of the heap when it is used up. */
    method Allocate(value: HeapValue) returns (r: Reference)
      requires WellFormed(State())
      modifies this
      ensures State() == Allocated(old(State()), value)
      ensures r == Reference.Heap(NextSlot(old(State())))
    {
      allocsSinceGc := allocsSinceGc + 1;
      totalAllocations := totalAllocations + 1;
      EnsureRoom();
      r := Bump(value);
    }

    method Bump(value: HeapValue) returns (r: Reference)
      requires tlabTop < |values|
      modifies this`values, this`tlabTop, this`tlabAllocations
      ensures values == old(values)[old(tlabTop) := Some(value)] && r == Reference.Heap(old(tlabTop))
      ensures tlabTop == old(tlabTop) + 1 && tlabAllocations == old(tlabAllocations) + 1
    {
      var slot := tlabTop;
      tlabTop := tlabTop + 1;
      tlabAllocations := tlabAllocations + 1;
      values := values[slot := Some(value)];
      r := Reference.Heap(slot);
    }

    method WriteBarrier(source: nat, target: nat)
      modifies this`rememberedSet
      ensures State() == Barrier(old(State()), source, Reference.Heap(target))
    {
      if source >= survivorEnd && target < survivorEnd && (source, target) !in rememberedSet {
        rememberedSet := rememberedSet + [(source, target)];
      }
    }

    method StoreReferenceArrayElement(target: Reference, index: i32, value: Reference) returns (e: Option<HeapError>)
      modifies this`rememberedSet, this`values
      ensures (State(), e) == StoreElement(old(State()), target, index, value)
    {
      if target.Null? {
        return Some(NullPointer);
      }
      var found := Get(State(), target);
      if found.Err? || !found.value.ReferenceArray? {
        return Some(WrongKind);
      }
      if value.Heap? {
        WriteBarrier(target.index, value.index);
      }
      var elements := found.value;
      if index < 0 || index >= |elements.refs| {
        return Some(IndexOutOfBounds);
      }
      values := values[target.index := Some(elements.(refs := elements.refs[index := value]))];
      return None;
    }

    method StoreObjectField(target: Reference, offset: Option<nat>, value: Value) returns (e: Option<HeapError>)
      modifies this`rememberedSet, this`values
      ensures (State(), e) == StoreField(old(State()), target, offset, value)
    {
      if target.Null? {
        return Some(NullPointer);
      }
      if value.RefValue? && value.r.Heap? {
        WriteBarrier(target.index, value.r.index);
      }
      var found := Get(State(), target);
      if found.Err? {
        return Some(found.error);
      }
      if !found.value.Object? {
        return Some(WrongKind);
      }
      var object_ := found.value;
      if offset.None? || offset.value >= |object_.fields| {
        return Some(FieldNotFound);
      }
      values := values[target.index := Some(object_.(fields := object_.fields[offset.value := value]))];
      return None;
    }

    // ----- Collection -----

    /** A collection, minor or major, and then a fresh buffer. */
    method Collect(roots: seq<Reference>)
      requires WellFormed(State()) && IndicesInRange(values)
      modifies this
      ensures State() == Collected(old(State()), roots)
      ensures WellFormed(State())
    {
      CollectionCounts(State(), roots);
      if |values| < survivorEnd * 2 {
        MinorCollect(roots);
      } else {
        MajorCollect(roots);
      }
      collections := collections + 1;
      StartBuffer();
    }

    method MinorCollect(roots: seq<Reference>)
      requires WellFormed(State()) && IndicesInRange(values)
      modifies this
      ensures State() == MinorCollected(old(State()), roots)
    {
      hide IndicesInRange, ReachSet, RootSet, RememberedTargets, WithBuffer;
      var starts := RootIndices(roots);
      var targets := RememberedInRange();
      ghost var from := RootSet(roots) + RememberedTargets(State());
      var marked := MarkFrom(values, starts + targets, from);
      SweepYoung(marked, ReachSet(values, from));
      StartBuffer();
    }

    method SweepYoung(marked: array<bool>, ghost m: set<nat>)
      requires WellFormed(State()) && marked.Length == |values|
      requires forall i :: 0 <= i < |values| ==> (marked[i] <==> i in m)
      modifies this
      ensures State() == MinorSwept(old(State()), m)
    {
      hide Swept, FreedBelow, Occupied, MinorAges;
      minorCount := minorCount + 1;
      rememberedSet := [];
      var freedCount := Sweep(marked, survivorEnd, true, m);
      Tally(freedCount);
    }

    method MajorCollect(roots: seq<Reference>)
      requires WellFormed(State()) && IndicesInRange(values)
      modifies this
      ensures State() == MajorCollected(old(State()), roots)
    {
      hide IndicesInRange, ReachSet, RootSet;
      var starts := RootIndices(roots);
      var marked := MarkFrom(values, starts, RootSet(roots));
      SweepAll(marked, ReachSet(values, RootSet(roots)));
    }

    method SweepAll(marked: array<bool>, ghost m: set<nat>)
      requires WellFormed(State()) && marked.Length == |values|
      requires forall i :: 0 <= i < |values| ==> (marked[i] <==> i in m)
      modifies this
      ensures State() == MajorSwept(old(State()), m)
    {
      hide Swept, FreedBelow, Occupied, MajorAges, Trimmed;
      majorCount := majorCount + 1;
      var freedCount := Sweep(marked, |values|, false, m);
      Settle(freedCount);
    }

    /** Trims the heap after a major sweep and counts everything left as young. */
    method Settle(freedCount: nat)
      requires |ages| == |values|
      modifies this
      ensures var kept := Trimmed(old(values));
              State() == old(State()).(values := kept, ages := old(ages)[..|kept|], youngEnd := |kept|, survivorEnd := |kept|,
                                       liveCount := Occupied(old(values)), allocsSinceGc := 0,
                                       freed := old(freed) + freedCount, lastFreed := freedCount)
    {
      hide Trimmed, Occupied;
      Tally(freedCount);
      TrimEnd();
      survivorEnd := |values|;
      youngEnd := |values|;
    }

    method Tally(freedCount: nat)
      modifies this`liveCount, this`allocsSinceGc, this`freed, this`lastFreed
      ensures liveCount == Occupied(values) && allocsSinceGc == 0
      ensures freed == old(freed) + freedCount && lastFreed == freedCount
    {
      liveCount := CountOccupied(values);
      allocsSinceGc := 0;
      freed := freed + freedCount;
      lastFreed := freedCount;
    }

    method RememberedInRange() returns (targets: seq<nat>)
      ensures forall t :: t in targets <==> t in RememberedTargets(State()) && t < |values|
    {
      targets := [];
      for k := 0 to |rememberedSet|
        invariant forall t :: t in targets <==> t < |values| && exists j :: 0 <= j < k && rememberedSet[j].1 == t
      {
        if rememberedSet[k].1 < |values| {
          targets := targets + [rememberedSet[k].1];
        }
      }
      forall t | t in RememberedTargets(State()) ensures exists j :: 0 <= j < |rememberedSet| && rememberedSet[j].1 == t {
        var e :| e in rememberedSet && e.1 == t;
      }
    }

    /** Frees the unmarked objects below `end`; a minor sweep also ages the survivors. */
    method Sweep(marked: array<bool>, end: nat, aging: bool, ghost m: set<nat>) returns (freedCount: nat)
      requires marked.Length == |values| == |ages| && end <= |values|
      requires forall i :: 0 <= i < |values| ==> (marked[i] <==> i in m)
      requires !aging ==> end == |values|
      modifies this`values, this`ages
      ensures values == Swept(old(values), end, m)
      ensures freedCount == FreedBelow(old(values), end, m)
      ensures aging ==> ages == MinorAges(old(values), old(ages), end, m)
      ensures !aging ==> ages == MajorAges(old(values), old(ages), m)
    {
      freedCount := 0;
      ghost var was := values;
      for i := 0 to end
        invariant |values| == |was| && |ages| == |old(ages)|
        invariant forall k :: i <= k < |was| ==> values[k] == was[k] && ages[k] == old(ages)[k]
        invariant forall k :: 0 <= k < i ==> values[k] == if k in m then was[k] else None
        invariant forall k :: 0 <= k < i ==>
                    ages[k] == if was[k].None? then old(ages)[k]
                               else if k !in m then 0
                               else if aging && old(ages)[k] < MAX_AGE then old(ages)[k] + 1 else old(ages)[k]
        invariant freedCount == FreedBelow(was, i, m)
      {
        if values[i].Some? {
          if !marked[i] {
            freedCount := freedCount + 1;
            values := values[i := None];
            ages := ages[i := 0];
          } else if aging && ages[i] < MAX_AGE {
            ages := ages[i := ages[i] + 1];
          }
        }
      }
    }

    /** Drops the empty slots at the end. */
    method TrimEnd()
      requires |ages| == |values|
      modifies this`values, this`ages
      ensures values == Trimmed(old(values)) && ages == old(ages)[..|values|]
    {
      assert values[..|values|] == values;
      while values != [] && values[|values| - 1].None?
        invariant ages == old(ages) && values <= old(values) && Trimmed(values) == Trimmed(old(values))
        decreases |values|
      {
        values := values[..|values| - 1];
      }
      ages := ages[..|values|];
    }
  }

  method RootIndices(roots: seq<Reference>) returns (indices: seq<nat>)
    ensures forall i :: i in indices <==> i in RootSet(roots)
  {
    indices := [];
    for k := 0 to |roots|
      invariant forall i :: i in indices <==> exists j :: 0 <= j < k && roots[j] == Reference.Heap(i)
    {
      if roots[k].Heap? {
        indices := indices + [roots[k].index];
      }
    }
    forall i | i in RootSet(roots) ensures i in indices {
      var r :| r in roots && r.Heap? && r.index == i;
      assert exists j :: 0 <= j < |roots| && roots[j] == Reference.Heap(i);
    }
  }

  /** Starts outside the heap, repeated or in another order, reach the same. */
  lemma {:induction false} SameReach(slots: Slots, starts: seq<nat>, roots: set<nat>)
    requires forall i: nat :: i < |slots| ==> (i in starts <==> i in roots)
    ensures ReachSet(slots, set i | i in starts) == ReachSet(slots, roots)
  {
    var from := set i | i in starts;
    forall p: seq<nat> ensures IsPath(slots, from, p) <==> IsPath(slots, roots, p) {
      if p != [] && p[0] < |slots| {
        assert p[0] in starts <==> p[0] in roots;
      }
    }
  }

  method CountOccupied(slots: Slots) returns (n: nat)
    ensures n == Occupied(slots)
  {
    n := 0;
    for i := 0 to |slots|
      invariant n == Occupied(slots[..i])
    {
      assert slots[..i + 1][..i] == slots[..i];
      if slots[i].Some? {
        n := n + 1;
      }
    }
    assert slots[..|slots|] == slots;
  }

  /** The references an object holds, in order. */
  function References(v: HeapValue): seq<Reference> {
    match v
    case ReferenceArray(_, refs) => refs
    case Object(_, fields) => seq(|fields|, k requires 0 <= k < |fields| => Referent(fields[k]))
    case _ => []
  }

  lemma {:induction false} ReferencesAreMentions(v: HeapValue, j: nat)
    ensures Reference.Heap(j) in References(v) <==> Mentions(v, j)
  {
    if v.Object? && Mentions(v, j) {
      var k :| 0 <= k < |v.fields| && v.fields[k] == RefValue(Reference.Heap(j));
      assert References(v)[k] == Reference.Heap(j);
    }
  }

  ghost function Marks(marked: array<bool>): set<nat>
    reads marked
  {
    set i | 0 <= i < marked.Length && marked[i]
  }

  /**
   Half-way through a marking: the roots are marked or waiting, only reachable slots are
   either, and every edge from a mark leads to a mark or to the worklist.
   */
  ghost predicate Marking(slots: Slots, roots: set<nat>, marks: set<nat>, worklist: seq<nat>) {
    && (forall i: nat :: i in roots && i < |slots| ==> i in marks || i in worklist)
    && (forall i: nat :: i in worklist && i < |slots| ==> i in ReachSet(slots, roots))
    && marks <= ReachSet(slots, roots)
    && forall i: nat, j: nat :: i in marks && Edge(slots, i, j) && j < |slots| ==> j in marks || j in worklist
  }

  lemma {:induction false} MarkingStarts(slots: Slots, starts: seq<nat>)
    ensures Marking(slots, (set k | k in starts), {}, starts)
  {
    forall i: nat | i in starts && i < |slots| ensures i in ReachSet(slots, (set k | k in starts)) {
      RootReached(slots, (set k | k in starts), i);
    }
  }

  /** An index outside the heap or already marked can be dropped from the worklist. */
  lemma {:induction false} SkipKeepsMarking(slots: Slots, roots: set<nat>, marks: set<nat>, worklist: seq<nat>)
    requires worklist != [] && Marking(slots, roots, marks, worklist)
    requires worklist[|worklist| - 1] >= |slots| || worklist[|worklist| - 1] in marks
    ensures Marking(slots, roots, marks, worklist[..|worklist| - 1])
  {
    var rest := worklist[..|worklist| - 1];
    assert forall j :: j in worklist ==> j in rest || j == worklist[|worklist| - 1];
  }

  /** What visiting a slot leaves on the worklist: what was there, and all its unmarked children. */
  ghost predicate Pushed(slots: Slots, marks: set<nat>, index: nat, worklist: seq<nat>, more: seq<nat>) {
    && (forall j :: j in worklist ==> j in more)
    && (forall j: nat :: j in more ==> j in worklist || Edge(slots, index, j))
    && (forall j: nat :: Edge(slots, index, j) ==> j in more || j in marks)
  }

  lemma {:induction false} VisitKeepsMarking(
      slots: Slots, roots: set<nat>, marks: set<nat>, worklist: seq<nat>, more: seq<nat>)
    requires worklist != [] && Marking(slots, roots, marks, worklist) && worklist[|worklist| - 1] < |slots|
    requires var index := worklist[|worklist| - 1];
             Pushed(slots, marks + {index}, index, worklist[..|worklist| - 1], more)
    ensures Marking(slots, roots, marks + {worklist[|worklist| - 1]}, more)
  {
    var index, rest := worklist[|worklist| - 1], worklist[..|worklist| - 1];
    assert index in worklist;
    assert forall j :: j in worklist ==> j in rest || j == index;
    forall j: nat | j in more && j < |slots| ensures j in ReachSet(slots, roots) {
      if j !in rest {
        EdgeReached(slots, roots, index, j);
      }
    }
  }

  /**
   Marks from a worklist that may hold duplicates and indices outside the heap. Every
   round either marks a new slot or shortens the worklist, so it terminates.
   */
  method Mark(slots: Slots, starts: seq<nat>) returns (marked: array<bool>)
    requires IndicesInRange(slots)
    ensures fresh(marked) && marked.Length == |slots|
    ensures Marks(marked) == ReachSet(slots, set k | k in starts)
  {
    hide ReachSet, Marking, Pushed, IndicesInRange;
    marked := new bool[|slots|](_ => false);
    var worklist: seq<nat> := starts;
    ghost var roots := set k | k in starts;
    ghost var unmarked := set i | 0 <= i < |slots| && !marked[i];
    assert Marks(marked) == {};
    MarkingStarts(slots, starts);
    while worklist != []
      invariant Marking(slots, roots, Marks(marked), worklist)
      invariant unmarked == set i | 0 <= i < |slots| && !marked[i]
      decreases |unmarked|, |worklist|
    {
      var index := worklist[|worklist| - 1];
      ghost var before, marks := worklist, Marks(marked);
      worklist := worklist[..|worklist| - 1];
      if index >= |slots| || marked[index] {
        SkipKeepsMarking(slots, roots, marks, before);
      } else {
        marked[index] := true;
        unmarked := unmarked - {index};
        ghost var now := Marks(marked);
        assert now == marks + {index};
        worklist := PushChildren(slots, marked, index, worklist, now);
        VisitKeepsMarking(slots, roots, marks, before, worklist);
        assert Marks(marked) == now;
      }
    }
    MarkingEnds(slots, roots, Marks(marked));
  }

  lemma {:induction false} MarkingEnds(slots: Slots, roots: set<nat>, marks: set<nat>)
    requires Marking(slots, roots, marks, [])
    ensures marks == ReachSet(slots, roots)
  {
    ReachSetLeast(slots, roots, marks);
  }

  /** Marks everything reachable from a set of roots, given a worklist that lists those inside the heap. */
  method MarkFrom(slots: Slots, starts: seq<nat>, ghost roots: set<nat>) returns (marked: array<bool>)
    requires IndicesInRange(slots)
    requires forall i: nat :: i < |slots| ==> (i in starts <==> i in roots)
    ensures fresh(marked) && marked.Length == |slots|
    ensures forall i :: 0 <= i < |slots| ==> (marked[i] <==> i in ReachSet(slots, roots))
  {
    marked := Mark(slots, starts);
    SameReach(slots, starts, roots);
    assert forall i :: 0 <= i < |slots| ==> (marked[i] <==> i in Marks(marked));
  }

  /** Puts the unmarked slots an object refers to on the worklist; each index is looked up in the marks. */
  method PushChildren(slots: Slots, marked: array<bool>, index: nat, worklist: seq<nat>, ghost marks: set<nat>)
    returns (more: seq<nat>)
    requires marks == Marks(marked)
    requires IndicesInRange(slots) && marked.Length == |slots| && index < |slots|
    ensures Pushed(slots, marks, index, worklist, more)
  {
    more := worklist;
    if slots[index].None? {
      return;
    }
    var refs := References(slots[index].value);
    for k := 0 to |refs|
      invariant forall j :: j in worklist ==> j in more
      invariant forall j: nat :: j in more ==> j in worklist || Edge(slots, index, j)
      invariant forall i :: 0 <= i < k && refs[i].Heap? ==> refs[i].index in more || refs[i].index in marks
    {
      if refs[k].Heap? {
        ReferencesAreMentions(slots[index].value, refs[k].index);
        assert Edge(slots, index, refs[k].index);
        if !marked[refs[k].index] {
          more := more + [refs[k].index];
        }
      }
    }
    forall j: nat | Edge(slots, index, j) ensures j in more || j in marks {
      ReferencesAreMentions(slots[index].value, j);
      var k :| 0 <= k < |refs| && refs[k] == Reference.Heap(j);
    }
  }
}
