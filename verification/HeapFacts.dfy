/**
 Single operations of the heap: reachability is a least set, allocation clobbers nothing,
 a major collection is exact, a minor one frees nothing reachable, and counts add up.
 */
module HeapFacts {
  import opened Wrappers
  import opened Words
  import opened Program
  import opened HeapModel

  // ----- Reachability -----

  lemma {:induction false} RootReached(slots: Slots, roots: set<nat>, i: nat)
    requires i in roots && i < |slots|
    ensures i in ReachSet(slots, roots)
  {
    assert IsPath(slots, roots, [i]);
  }

  lemma {:induction false} EdgeReached(slots: Slots, roots: set<nat>, i: nat, j: nat)
    requires i in ReachSet(slots, roots) && Edge(slots, i, j) && j < |slots|
    ensures j in ReachSet(slots, roots)
  {
    var p :| IsPath(slots, roots, p) && p[|p| - 1] == i;
    var q := p + [j];
    forall k | 0 <= k < |q| - 1 ensures StepsAlong(slots, q, k) {
      if k < |p| - 1 {
        assert StepsAlong(slots, p, k);
      }
    }
    assert IsPath(slots, roots, q) && q[|q| - 1] == j;
  }

  /** A set that holds the roots and is closed under edges. */
  ghost predicate ClosedOver(slots: Slots, roots: set<nat>, m: set<nat>) {
    && (forall i :: i in roots && i < |slots| ==> i in m)
    && forall i: nat, j: nat :: i in m && Edge(slots, i, j) && j < |slots| ==> j in m
  }

  lemma {:induction false} PathCovered(slots: Slots, roots: set<nat>, m: set<nat>, p: seq<nat>, k: nat)
    requires IsPath(slots, roots, p) && ClosedOver(slots, roots, m) && k < |p|
    ensures p[k] in m
  {
    if k > 0 {
      PathCovered(slots, roots, m, p, k - 1);
      assert StepsAlong(slots, p, k - 1);
    }
  }

  /** What is reachable lies in every covering set: marking may stop at any of them. */
  lemma {:induction false} ReachSetLeast(slots: Slots, roots: set<nat>, m: set<nat>)
    requires ClosedOver(slots, roots, m)
    ensures ReachSet(slots, roots) <= m
  {
    forall i | i in ReachSet(slots, roots) ensures i in m {
      var p :| IsPath(slots, roots, p) && p[|p| - 1] == i;
      PathCovered(slots, roots, m, p, |p| - 1);
    }
  }

  // ----- Counting -----

  lemma {:induction false} OccupiedConcat(a: Slots, b: Slots)
    requires forall i :: 0 <= i < |b| ==> b[i].None?
    ensures Occupied(a + b) == Occupied(a)
    decreases |b|
  {
    if b == [] {
      assert a + b == a;
    } else {
      assert (a + b)[..|a + b| - 1] == a + b[..|b| - 1];
      OccupiedConcat(a, b[..|b| - 1]);
    }
  }

  lemma {:induction false} OccupiedUpdate(a: Slots, i: nat, o: Option<HeapValue>)
    requires i < |a|
    ensures Occupied(a[i := o]) + (if a[i].Some? then 1 else 0) == Occupied(a) + (if o.Some? then 1 else 0)
    decreases |a|
  {
    if i == |a| - 1 {
      assert a[i := o][..|a| - 1] == a[..|a| - 1];
    } else {
      OccupiedUpdate(a[..|a| - 1], i, o);
      assert a[i := o][..|a| - 1] == a[..|a| - 1][i := o];
    }
  }

  lemma {:induction false} FreedBelowPrefix(slots: Slots, n: nat, end: nat, marked: set<nat>)
    requires end <= n <= |slots|
    ensures FreedBelow(slots[..n], end, marked) == FreedBelow(slots, end, marked)
    decreases end
  {
    if end > 0 {
      FreedBelowPrefix(slots, n, end - 1, marked);
    }
  }

  /** A sweep loses exactly the objects it counts as freed. */
  lemma {:induction false} SweepCounts(slots: Slots, end: nat, marked: set<nat>)
    requires end <= |slots|
    ensures Occupied(Swept(slots, end, marked)) + FreedBelow(slots, end, marked) == Occupied(slots)
    decreases |slots|
  {
    if slots != [] {
      var rest := slots[..|slots| - 1];
      if end == |slots| {
        assert Swept(slots, end, marked)[..|slots| - 1] == Swept(rest, end - 1, marked);
        SweepCounts(rest, end - 1, marked);
        FreedBelowPrefix(slots, |slots| - 1, end - 1, marked);
      } else {
        assert Swept(slots, end, marked)[..|slots| - 1] == Swept(rest, end, marked);
        SweepCounts(rest, end, marked);
        FreedBelowPrefix(slots, |slots| - 1, end, marked);
      }
    } else {
      assert Swept(slots, end, marked) == [];
    }
  }

  lemma {:induction false} TrimKeepsOccupied(slots: Slots)
    ensures Occupied(Trimmed(slots)) == Occupied(slots)
  {
    assert slots == Trimmed(slots) + slots[|Trimmed(slots)|..];
    OccupiedConcat(Trimmed(slots), slots[|Trimmed(slots)|..]);
  }

  // ----- Allocation -----

  /** Allocation hands out a slot that held nothing, changes no other, and keeps the heap well formed. */
  lemma {:induction false} AllocateClobbersNothing(h: HeapState, v: HeapValue)
    requires WellFormed(h)
    ensures var g := Allocated(h, v); var slot := NextSlot(h);
            && WellFormed(g)
            && (slot >= |h.values| || h.values[slot].None?)
            && Get(g, Heap(slot)) == Ok(v)
            && |h.values| <= |g.values|
            && (forall i :: 0 <= i < |h.values| && i != slot ==> g.values[i] == h.values[i])
            && (forall i :: |h.values| <= i < |g.values| && i != slot ==> g.values[i].None?)
  {
  }

  /**
   Slots are handed out one after another; the heap grows, by a whole buffer, exactly when
   the slot to hand out lies behind its end.
   */
  lemma {:induction false} AllocationBumps(h: HeapState, v: HeapValue)
    requires WellFormed(h)
    ensures var g := Allocated(h, v); var grows := h.tlabTop == |h.values|;
            && NextSlot(h) == h.tlabTop && g.tlabTop == h.tlabTop + 1
            && |g.values| == |h.values| + (if grows then 256 else 0)
            && g.tlabRefills == h.tlabRefills + (if grows then 1 else 0)
            && g.ages == h.ages + seq(if grows then 256 else 0, _ => 0)
            && g.remembered == h.remembered && g.survivorEnd == h.survivorEnd && g.youngEnd == h.youngEnd
  {
    assert h.ages + [] == h.ages;
  }

  lemma {:induction false} AllocateCounts(h: HeapState, v: HeapValue)
    requires WellFormed(h)
    ensures Occupied(Allocated(h, v).values) == Occupied(h.values) + 1
    ensures Allocated(h, v).totalAllocations == h.totalAllocations + 1 && Allocated(h, v).freed == h.freed
  {
    var g := Refilled(h);
    OccupiedConcat(h.values, Nones(TLAB_SIZE));
    OccupiedUpdate(g.values, g.tlabTop, Some(v));
  }

  // ----- Collections -----

  /** A minor collection is safe whatever the remembered set holds. */
  lemma {:induction false} MinorIsSafe(h: HeapState, roots: seq<Reference>)
    requires WellFormed(h)
    ensures var g := MinorCollected(h, roots);
            && WellFormed(g) && |h.values| <= |g.values|
            && (forall i :: i in ReachSet(h.values, RootSet(roots)) ==> g.values[i] == h.values[i])
            && (forall i :: h.survivorEnd <= i < |h.values| ==> g.values[i] == h.values[i])
            && (forall i :: 0 <= i < |h.values| && g.values[i] != h.values[i] ==>
                  && g.values[i].None? && i < h.survivorEnd
                  && i !in ReachSet(h.values, RootSet(roots) + RememberedTargets(h)))
            && (forall i :: |h.values| <= i < |g.values| ==> g.values[i].None?)
  {
    var all := RootSet(roots) + RememberedTargets(h);
    MoreRootsReachMore(h.values, RootSet(roots), all);
  }

  lemma {:induction false} MoreRootsReachMore(slots: Slots, roots: set<nat>, more: set<nat>)
    requires roots <= more
    ensures ReachSet(slots, roots) <= ReachSet(slots, more)
  {
    forall i | i in ReachSet(slots, roots) ensures i in ReachSet(slots, more) {
      var p :| IsPath(slots, roots, p) && p[|p| - 1] == i;
      assert IsPath(slots, more, p);
    }
  }

  /** A major collection leaves a slot occupied exactly when it was occupied and reachable. */
  lemma {:induction false} MajorIsExact(h: HeapState, roots: seq<Reference>)
    requires WellFormed(h)
    ensures var g := MajorCollected(h, roots);
            && |g.values| <= |h.values| && |g.ages| == |g.values| && g.survivorEnd == |g.values|
            && (forall i :: 0 <= i < |h.values| ==>
                  ((i < |g.values| && g.values[i].Some?)
                   <==> (h.values[i].Some? && i in ReachSet(h.values, RootSet(roots)))))
            && (forall i :: 0 <= i < |g.values| && g.values[i].Some? ==> g.values[i] == h.values[i])
            && (g.values != [] ==> g.values[|g.values| - 1].Some?)
  {
    var swept := Swept(h.values, |h.values|, ReachSet(h.values, RootSet(roots)));
    var kept := Trimmed(swept);
    forall i | 0 <= i < |h.values|
      ensures (i < |kept| && kept[i].Some?) <==> (h.values[i].Some? && i in ReachSet(h.values, RootSet(roots)))
    {
      if i < |kept| {
        assert kept[i] == swept[i];
      } else {
        assert swept[i].None?;
      }
    }
  }

  /** Sweeping, trimming and the new buffer lose nothing that is not counted as freed. */
  lemma {:induction false} CollectionCounts(h: HeapState, roots: seq<Reference>)
    requires WellFormed(h)
    ensures WellFormed(Collected(h, roots))
    ensures Occupied(Collected(h, roots).values) + Collected(h, roots).freed == Occupied(h.values) + h.freed
    ensures Collected(h, roots).totalAllocations == h.totalAllocations
  {
    if |h.values| < h.survivorEnd * 2 {
      var marked := ReachSet(h.values, RootSet(roots) + RememberedTargets(h));
      SweepCounts(h.values, h.survivorEnd, marked);
      var swept := Swept(h.values, h.survivorEnd, marked);
      OccupiedConcat(swept, Nones(TLAB_SIZE));
      OccupiedConcat(swept + Nones(TLAB_SIZE), Nones(TLAB_SIZE));
    } else {
      var marked := ReachSet(h.values, RootSet(roots));
      SweepCounts(h.values, |h.values|, marked);
      var swept := Swept(h.values, |h.values|, marked);
      TrimKeepsOccupied(swept);
      OccupiedConcat(Trimmed(swept), Nones(TLAB_SIZE));
    }
  }

  /**
   What a collection leaves in a slot. While the heap is smaller than twice the young
   generation, only the young generation is collected, from the roots and the remembered
   targets; otherwise everything is, from the roots alone.
   */
  lemma {:induction false} CollectedFrees(h: HeapState, roots: seq<Reference>, i: nat)
    requires WellFormed(h)
    ensures var after := Collected(h, roots).values;
            var kept := if |h.values| >= 2 * h.survivorEnd then i in ReachSet(h.values, RootSet(roots))
                        else i >= h.survivorEnd || i in ReachSet(h.values, RootSet(roots) + RememberedTargets(h));
            && ((i < |after| && after[i].Some?) <==> (i < |h.values| && h.values[i].Some? && kept))
            && (i < |after| && after[i].Some? ==> after[i] == h.values[i])
  {
    hide ReachSet;
    if |h.values| >= 2 * h.survivorEnd {
      MajorIsExact(h, roots);
    } else {
      MinorIsExact(h, roots);
    }
  }

  lemma {:induction false} MinorIsExact(h: HeapState, roots: seq<Reference>)
    requires WellFormed(h)
    ensures var g := MinorCollected(h, roots);
            && |g.values| >= |h.values| && (forall i :: |h.values| <= i < |g.values| ==> g.values[i].None?)
            && forall i :: 0 <= i < |h.values| ==>
                 g.values[i] == if i < h.survivorEnd && i !in ReachSet(h.values, RootSet(roots) + RememberedTargets(h))
                                then None else h.values[i]
  {
    hide ReachSet;
  }

  /**
   After every collection, whatever its kind, a slot of the young generation that neither the
   roots nor the remembered targets reach is empty.
   */
  lemma {:induction false} YoungGarbageFreed(h: HeapState, roots: seq<Reference>, i: nat)
    requires WellFormed(h) && i < h.survivorEnd
    requires i !in ReachSet(h.values, RootSet(roots) + RememberedTargets(h))
    ensures var after := Collected(h, roots).values; i >= |after| || after[i].None?
  {
    CollectedFrees(h, roots, i);
    MoreRootsReachMore(h.values, RootSet(roots), RootSet(roots) + RememberedTargets(h));
  }

  /**
   Garbage outlives a collection only while the heap is smaller than twice what the last
   major one left; and then only outside the young generation or behind a remembered edge.
   */
  lemma {:induction false} GarbageBound(h: HeapState, roots: seq<Reference>, i: nat)
    requires WellFormed(h)
    requires var after := Collected(h, roots).values; i < |after| && after[i].Some?
    ensures i in ReachSet(h.values, RootSet(roots)) ||
            (|h.values| < 2 * h.survivorEnd &&
             (i >= h.survivorEnd || i in ReachSet(h.values, RootSet(roots) + RememberedTargets(h))))
  {
    CollectedFrees(h, roots, i);
  }

  /** The counts a collection reports, and what becomes of the generations. */
  lemma {:induction false} CollectionReports(h: HeapState, roots: seq<Reference>)
    requires WellFormed(h)
    ensures var g := Collected(h, roots);
            && g.liveCount == Occupied(g.values) == Occupied(h.values) - g.lastFreed
            && g.allocsSinceGc == 0 && g.collections == h.collections + 1
            && g.minorCount + g.majorCount == h.minorCount + h.majorCount + 1
            && (g.majorCount > h.majorCount <==> |h.values| >= 2 * h.survivorEnd)
            && g.survivorEnd == (if g.majorCount > h.majorCount then |g.values| - TLAB_SIZE else h.survivorEnd)
            && g.youngEnd == (if g.majorCount > h.majorCount then |g.values| - TLAB_SIZE else h.youngEnd)
            && (g.majorCount == h.majorCount ==> g.remembered == [])
            && g.tlabLimit - g.tlabTop == TLAB_SIZE
  {
    hide ReachSet;
    CollectionCounts(h, roots);
    if |h.values| < 2 * h.survivorEnd {
      var swept := Swept(h.values, h.survivorEnd, ReachSet(h.values, RootSet(roots) + RememberedTargets(h)));
      OccupiedConcat(swept, Nones(TLAB_SIZE));
      OccupiedConcat(swept + Nones(TLAB_SIZE), Nones(TLAB_SIZE));
    } else {
      var swept := Swept(h.values, |h.values|, ReachSet(h.values, RootSet(roots)));
      TrimKeepsOccupied(swept);
      OccupiedConcat(Trimmed(swept), Nones(TLAB_SIZE));
    }
  }

  /** Survivors of a minor collection are one older, up to the greatest age; a freed slot has age zero again. */
  lemma {:induction false} CollectedAges(h: HeapState, roots: seq<Reference>, i: nat)
    requires WellFormed(h) && i < |h.values| && h.values[i].Some?
    ensures var g := Collected(h, roots);
            && |g.ages| == |g.values|
            && (i < |g.values| && g.values[i].None? ==> g.ages[i] == 0)
            && (i < |g.values| && g.values[i].Some? && (i >= h.survivorEnd || g.majorCount > h.majorCount) ==>
                  g.ages[i] == h.ages[i])
            && (i < |g.values| && g.values[i].Some? && i < h.survivorEnd && g.majorCount == h.majorCount ==>
                  g.ages[i] == if h.ages[i] < 255 then h.ages[i] + 1 else h.ages[i])
  {
    hide ReachSet;
    CollectionCounts(h, roots);
    if |h.values| >= 2 * h.survivorEnd {
      MajorIsExact(h, roots);
    }
  }

  // ----- Stores -----

  /** The write barrier remembers exactly the edges from the old generation into the young one, each once. */
  lemma {:induction false} BarrierRemembers(h: HeapState, source: nat, target: Reference)
    ensures var g := Barrier(h, source, target);
            && (forall e :: e in g.remembered <==>
                  e in h.remembered ||
                  (target == Heap(e.1) && e.0 == source && source >= h.survivorEnd && e.1 < h.survivorEnd))
            && (Distinct(h.remembered) ==> Distinct(g.remembered))
            && g == h.(remembered := g.remembered)
  {
  }

  ghost predicate Distinct<T>(s: seq<T>) {
    forall i, j :: 0 <= i < j < |s| ==> s[i] != s[j]
  }

  /** A store into a reference array succeeds exactly on such an array within its bounds, and is read back. */
  lemma {:induction false} ElementStoredIff(h: HeapState, target: Reference, index: i32, v: Reference)
    ensures var (g, error) := StoreElement(h, target, index, v);
            var o := Get(h, target);
            && (error.None? <==> o.Ok? && o.value.ReferenceArray? && 0 <= index < |o.value.refs|)
            && (error == Some(NullPointer) <==> target.Null?)
            && (error == Some(WrongKind) <==> target.Heap? && !(o.Ok? && o.value.ReferenceArray?))
            && (error == Some(IndexOutOfBounds) <==>
                  o.Ok? && o.value.ReferenceArray? && !(0 <= index < |o.value.refs|))
            && |g.values| == |h.values|
            && (error.Some? ==> g.values == h.values)
            && (error.None? ==>
                  && Get(g, target).Ok? && Get(g, target).value.ReferenceArray?
                  && Get(g, target).value.component == o.value.component
                  && |Get(g, target).value.refs| == |o.value.refs|
                  && forall k :: 0 <= k < |o.value.refs| ==>
                       Get(g, target).value.refs[k] == if k == index then v else o.value.refs[k])
            && (forall i :: 0 <= i < |h.values| && target != Heap(i) ==> g.values[i] == h.values[i])
            && g.remembered == (if o.Ok? && o.value.ReferenceArray? then Barrier(h, target.index, v).remembered else h.remembered)
  {
  }

  /** A store into a field succeeds exactly on an object that has the field, and is read back. */
  lemma {:induction false} FieldStoredIff(h: HeapState, target: Reference, offset: Option<nat>, v: Value)
    ensures var (g, error) := StoreField(h, target, offset, v);
            var o := Get(h, target);
            && (error.None? <==> o.Ok? && o.value.Object? && offset.Some? && offset.value < |o.value.fields|)
            && (o.Err? ==> error == Some(if target.Null? then NullPointer else DanglingReference))
            && (error == Some(WrongKind) <==> o.Ok? && !o.value.Object?)
            && (error == Some(FieldNotFound) <==>
                  o.Ok? && o.value.Object? && (offset.None? || offset.value >= |o.value.fields|))
            && |g.values| == |h.values|
            && (error.Some? ==> g.values == h.values)
            && (error.None? ==>
                  && Get(g, target).Ok? && Get(g, target).value.Object?
                  && Get(g, target).value.className == o.value.className
                  && |Get(g, target).value.fields| == |o.value.fields|
                  && forall k :: 0 <= k < |o.value.fields| ==>
                       Get(g, target).value.fields[k] == if k == offset.value then v else o.value.fields[k])
            && (forall i :: 0 <= i < |h.values| && target != Heap(i) ==> g.values[i] == h.values[i])
            && g.remembered == (if target.Null? then h.remembered else Barrier(h, target.index, Referent(v)).remembered)
  {
  }
}
