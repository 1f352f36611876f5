/**
 Safety of the collector over whole runs of the mutator: whatever is reachable from the
 roots resolves, no index stored anywhere is past the end of the heap, and no allocation
 is lost.
 */
module HeapRuns {
  import opened Wrappers
  import opened Words
  import opened Program
  import opened HeapModel
  import opened HeapFacts

  // ----- Runs of the mutator -----

  /** A mutator action; loads and drops only change which references the program holds. */
  datatype Action =
    | Alloc(o: HeapValue)
    | PutElement(target: Reference, index: i32, r: Reference)
    | PutField(target: Reference, offset: Option<nat>, v: Value)
    | Load(from: nat, to: nat)
    | Forget(slot: nat)
    | Collect(roots: seq<Reference>)

  /** The heap and the slots the program holds references to. */
  datatype Config = Config(heap: HeapState, held: set<nat>)

  predicate Holds(held: set<nat>, r: Reference) {
    r.Heap? ==> r.index in held
  }

  /** A program only uses references it holds; a collection is told of all of them, and maybe of others. */
  ghost predicate Legal(c: Config, a: Action) {
    match a
    case Alloc(o) => forall j: nat :: Mentions(o, j) ==> j in c.held
    case PutElement(target, _, r) => Holds(c.held, target) && Holds(c.held, r)
    case PutField(target, _, v) => Holds(c.held, target) && Holds(c.held, Referent(v))
    case Load(from, to) => from in c.held && Edge(c.heap.values, from, to)
    case Forget(_) => true
    case Collect(roots) => c.held <= RootSet(roots)
  }

  ghost function Act(c: Config, a: Action): Config
    requires WellFormed(c.heap)
  {
    match a
    case Alloc(o) => Config(Allocated(c.heap, o), c.held + {NextSlot(c.heap)})
    case PutElement(target, index, r) => Config(StoreElement(c.heap, target, index, r).0, c.held)
    case PutField(target, offset, v) => Config(StoreField(c.heap, target, offset, v).0, c.held)
    case Load(from, to) => Config(c.heap, c.held + {to})
    case Forget(slot) => Config(c.heap, c.held - {slot})
    case Collect(roots) => Config(Collected(c.heap, roots), c.held)
  }

  /** Every index stored in an occupied slot lies inside the heap. */
  ghost predicate IndicesInRange(slots: Slots) {
    forall i: nat, j: nat :: Edge(slots, i, j) ==> j < |slots|
  }

  /**
   An occupied slot mentions occupied slots or freed ones below it. A minor collection may
   leave such a dangling index behind, in an object it did not sweep; trimming the end of
   the heap cannot reach past the object, so the index stays inside the heap.
   */
  ghost predicate DanglesDownward(slots: Slots) {
    forall i: nat, j: nat :: Edge(slots, i, j) ==> j < |slots| && (slots[j].Some? || j < i)
  }

  /** Everything reachable from the held references resolves. */
  ghost predicate ReachableResolves(slots: Slots, held: set<nat>) {
    && (forall i :: i in held ==> i < |slots|)
    && forall i :: i in ReachSet(slots, held) ==> slots[i].Some?
  }

  ghost predicate Safe(c: Config) {
    && WellFormed(c.heap)
    && DanglesDownward(c.heap.values)
    && ReachableResolves(c.heap.values, c.held)
    && c.heap.totalAllocations == Occupied(c.heap.values) + c.heap.freed
  }

  /** If a set of resolving slots covers what is held, everything reachable resolves. */
  lemma {:induction false} CoveredResolves(slots: Slots, held: set<nat>, m: set<nat>)
    requires ClosedOver(slots, held, m)
    requires forall i :: i in m ==> i < |slots| && slots[i].Some?
    requires forall i :: i in held ==> i < |slots|
    ensures ReachableResolves(slots, held)
  {
    ReachSetLeast(slots, held, m);
  }

  lemma {:induction false} AllocSafe(c: Config, o: HeapValue)
    requires Safe(c) && Legal(c, Alloc(o))
    ensures Safe(Act(c, Alloc(o)))
  {
    var h, g, slot := c.heap, Allocated(c.heap, o), NextSlot(c.heap);
    AllocateClobbersNothing(h, o);
    AllocateCounts(h, o);
    var m := ReachSet(h.values, c.held) + {slot};
    forall i: nat, j: nat | Edge(g.values, i, j)
      ensures j < |g.values| && (g.values[j].Some? || j < i) && (i in m ==> j in m)
    {
      if i == slot {
        RootReached(h.values, c.held, j);
      } else {
        assert Edge(h.values, i, j);
        if i in m {
          EdgeReached(h.values, c.held, i, j);
        }
      }
    }
    forall i | i in c.held + {slot} ensures i < |g.values| && i in m {
      if i != slot {
        RootReached(h.values, c.held, i);
      }
    }
    CoveredResolves(g.values, c.held + {slot}, m);
  }

  /** Overwriting a held object with one that mentions only what it did before and what is held. */
  lemma {:induction false} StoreSafe(c: Config, slot: nat, o: HeapValue, g: HeapState)
    requires Safe(c) && slot in c.held && c.heap.values[slot].Some?
    requires forall j: nat :: Mentions(o, j) ==> Mentions(c.heap.values[slot].value, j) || j in c.held
    requires g == c.heap.(values := c.heap.values[slot := Some(o)], remembered := g.remembered)
    ensures Safe(Config(g, c.held))
  {
    var h := c.heap;
    var m := ReachSet(h.values, c.held);
    OccupiedUpdate(h.values, slot, Some(o));
    forall i: nat, j: nat | Edge(g.values, i, j)
      ensures j < |g.values| && (g.values[j].Some? || j < i) && (i in m ==> j in m)
    {
      if i == slot && !Edge(h.values, i, j) {
        RootReached(h.values, c.held, j);
      } else {
        assert Edge(h.values, i, j);
        if i in m {
          EdgeReached(h.values, c.held, i, j);
        }
      }
    }
    forall i | i in c.held ensures i in m {
      RootReached(h.values, c.held, i);
    }
    CoveredResolves(g.values, c.held, m);
  }

  lemma {:induction false} RememberingIsHarmless(c: Config, g: HeapState)
    requires Safe(c) && g == c.heap.(remembered := g.remembered)
    ensures Safe(Config(g, c.held))
  {
  }

  lemma {:induction false} PutElementSafe(c: Config, target: Reference, index: i32, r: Reference)
    requires Safe(c) && Legal(c, PutElement(target, index, r))
    ensures Safe(Act(c, PutElement(target, index, r)))
  {
    var (g, e) := StoreElement(c.heap, target, index, r);
    if e.None? {
      var was := c.heap.values[target.index].value;
      var o := ReferenceArray(was.component, was.refs[index := r]);
      StoreSafe(c, target.index, o, g);
    } else {
      RememberingIsHarmless(c, g);
    }
  }

  lemma {:induction false} PutFieldSafe(c: Config, target: Reference, offset: Option<nat>, v: Value)
    requires Safe(c) && Legal(c, PutField(target, offset, v))
    ensures Safe(Act(c, PutField(target, offset, v)))
  {
    var (g, e) := StoreField(c.heap, target, offset, v);
    if e.None? {
      var was := c.heap.values[target.index].value;
      var o := Object(was.className, was.fields[offset.value := v]);
      StoreSafe(c, target.index, o, g);
    } else {
      RememberingIsHarmless(c, g);
    }
  }

  lemma {:induction false} HoldingSafe(c: Config, held: set<nat>)
    requires Safe(c) && held <= ReachSet(c.heap.values, c.held)
    ensures Safe(Config(c.heap, held))
  {
    var m := ReachSet(c.heap.values, c.held);
    forall i: nat, j: nat | i in m && Edge(c.heap.values, i, j) && j < |c.heap.values| ensures j in m {
      EdgeReached(c.heap.values, c.held, i, j);
    }
    CoveredResolves(c.heap.values, held, m);
  }

  lemma {:induction false} LoadSafe(c: Config, from: nat, to: nat)
    requires Safe(c) && Legal(c, Load(from, to))
    ensures Safe(Act(c, Load(from, to)))
  {
    forall i | i in c.held + {to} ensures i in ReachSet(c.heap.values, c.held) {
      if i in c.held {
        RootReached(c.heap.values, c.held, i);
      } else {
        RootReached(c.heap.values, c.held, from);
        EdgeReached(c.heap.values, c.held, from, to);
      }
    }
    HoldingSafe(c, c.held + {to});
  }

  lemma {:induction false} ForgetSafe(c: Config, slot: nat)
    requires Safe(c)
    ensures Safe(Act(c, Forget(slot)))
  {
    forall i | i in c.held - {slot} ensures i in ReachSet(c.heap.values, c.held) {
      RootReached(c.heap.values, c.held, i);
    }
    HoldingSafe(c, c.held - {slot});
  }

  /** A heap that kept every slot reachable from what is held resolves it all. */
  lemma {:induction false} KeptSafe(before: Slots, held: set<nat>, after: Slots)
    requires ReachableResolves(before, held) && DanglesDownward(before)
    requires forall i :: i in ReachSet(before, held) ==> i < |after| && after[i] == before[i]
    ensures ReachableResolves(after, held)
  {
    var m := ReachSet(before, held);
    forall i: nat, j: nat | i in m && Edge(after, i, j) && j < |after| ensures j in m {
      assert Edge(before, i, j);
      EdgeReached(before, held, i, j);
    }
    forall i | i in held ensures i in m {
      RootReached(before, held, i);
    }
    CoveredResolves(after, held, m);
  }

  /** A minor collection frees only below the objects it does not sweep, and keeps what swept survivors mention. */
  lemma {:induction false} MinorSafe(c: Config, roots: seq<Reference>)
    requires Safe(c) && c.held <= RootSet(roots)
    ensures var g := MinorCollected(c.heap, roots);
            DanglesDownward(g.values) && ReachableResolves(g.values, c.held)
  {
    var h, g := c.heap, MinorCollected(c.heap, roots);
    var all := RootSet(roots) + RememberedTargets(h);
    MinorIsSafe(h, roots);
    MoreRootsReachMore(h.values, c.held, RootSet(roots));
    KeptSafe(h.values, c.held, g.values);
    forall i: nat, j: nat | Edge(g.values, i, j) ensures j < |g.values| && (g.values[j].Some? || j < i) {
      assert Edge(h.values, i, j);
      if i in ReachSet(h.values, all) {
        EdgeReached(h.values, all, i, j);
      }
    }
  }

  /** Survivors of a major collection mention survivors or freed slots below them, which trimming leaves in place. */
  lemma {:induction false} MajorSafe(c: Config, roots: seq<Reference>)
    requires Safe(c) && c.held <= RootSet(roots)
    ensures var g := MajorCollected(c.heap, roots);
            DanglesDownward(g.values) && ReachableResolves(g.values, c.held)
  {
    var h, g := c.heap, MajorCollected(c.heap, roots);
    MajorIsExact(h, roots);
    var m := ReachSet(h.values, c.held);
    MoreRootsReachMore(h.values, c.held, RootSet(roots));
    forall i | i in m ensures i < |g.values| && g.values[i] == h.values[i] {
      assert h.values[i].Some?;
    }
    KeptSafe(h.values, c.held, g.values);
    forall i: nat, j: nat | Edge(g.values, i, j) ensures j < |g.values| && (g.values[j].Some? || j < i) {
      assert Edge(h.values, i, j);
      EdgeReached(h.values, RootSet(roots), i, j);
    }
  }

  lemma {:induction false} BufferSafe(slots: Slots, held: set<nat>)
    requires DanglesDownward(slots) && ReachableResolves(slots, held)
    ensures DanglesDownward(slots + Nones(TLAB_SIZE)) && ReachableResolves(slots + Nones(TLAB_SIZE), held)
  {
    var more := slots + Nones(TLAB_SIZE);
    forall i: nat, j: nat | Edge(more, i, j) ensures j < |more| && (more[j].Some? || j < i) {
      assert Edge(slots, i, j);
    }
    KeptSafe(slots, held, more);
  }

  lemma {:induction false} CollectSafe(c: Config, roots: seq<Reference>)
    requires Safe(c) && Legal(c, Collect(roots))
    ensures Safe(Act(c, Collect(roots)))
  {
    CollectionCounts(c.heap, roots);
    if |c.heap.values| < c.heap.survivorEnd * 2 {
      MinorSafe(c, roots);
      BufferSafe(MinorCollected(c.heap, roots).values, c.held);
    } else {
      MajorSafe(c, roots);
      BufferSafe(MajorCollected(c.heap, roots).values, c.held);
    }
  }

  lemma {:induction false} ActSafe(c: Config, a: Action)
    requires Safe(c) && Legal(c, a)
    ensures Safe(Act(c, a))
  {
    hide Legal, Safe, Act;
    match a {
      case Alloc(o) => AllocSafe(c, o);
      case PutElement(target, index, r) => PutElementSafe(c, target, index, r);
      case PutField(target, offset, v) => PutFieldSafe(c, target, offset, v);
      case Load(from, to) => LoadSafe(c, from, to);
      case Forget(slot) => ForgetSafe(c, slot);
      case Collect(roots) => CollectSafe(c, roots);
    }
  }

  // ----- Whole runs -----

  /** A run: each configuration follows from the one before it by a legal action. */
  ghost predicate IsRun(trace: seq<Config>, actions: seq<Action>) {
    && |trace| == |actions| + 1
    && trace[0] == Config(EMPTY_HEAP, {})
    && forall k :: 0 <= k < |actions| ==> ActsTo(trace[k], actions[k], trace[k + 1])
  }

  ghost predicate ActsTo(c: Config, a: Action, d: Config) {
    WellFormed(c.heap) && Legal(c, a) && d == Act(c, a)
  }

  lemma {:induction false} RunSafe(trace: seq<Config>, actions: seq<Action>, k: nat)
    requires IsRun(trace, actions) && k < |trace|
    ensures Safe(trace[k])
  {
    if k == 0 {
      assert ReachSet([], {}) == {};
    } else {
      RunSafe(trace, actions, k - 1);
      assert ActsTo(trace[k - 1], actions[k - 1], trace[k - 1 + 1]);
      ActSafe(trace[k - 1], actions[k - 1]);
    }
  }

  /**
   In every run of the mutator and the collector, given collections that are told of at
   least the references the program holds: all that is reachable from what the
   program holds resolves, marking never indexes past its mark array, and allocations are
   what is occupied plus what was freed.
   */
  lemma {:induction false} HeapSafety(trace: seq<Config>, actions: seq<Action>, k: nat)
    requires IsRun(trace, actions) && k < |trace|
    ensures var h := trace[k].heap;
            && (forall i :: i in ReachSet(h.values, trace[k].held) ==> Get(h, Heap(i)).Ok?)
            && IndicesInRange(h.values)
            && h.tlabLimit == |h.values| == |h.ages| && h.survivorEnd <= |h.values|
            && (forall i :: h.tlabTop <= i < |h.values| ==> h.values[i].None?)
            && h.totalAllocations == Occupied(h.values) + h.freed
  {
    RunSafe(trace, actions, k);
  }

  lemma {:induction false} CollectLeavesOthers(c: Config, roots: seq<Reference>, i: nat)
    requires Safe(c) && Legal(c, Collect(roots)) && i in ReachSet(c.heap.values, c.held)
    ensures Get(Act(c, Collect(roots)).heap, Heap(i)) == Get(c.heap, Heap(i))
  {
    MoreRootsReachMore(c.heap.values, c.held, RootSet(roots));
    MinorIsSafe(c.heap, roots);
    MajorIsExact(c.heap, roots);
  }

  lemma {:induction false} PutElementLeavesOthers(c: Config, a: Action, i: nat)
    requires a.PutElement? && a.target != Heap(i) && WellFormed(c.heap) && Legal(c, a)
    ensures Get(Act(c, a).heap, Heap(i)) == Get(c.heap, Heap(i))
  {
  }

  lemma {:induction false} PutFieldLeavesOthers(c: Config, a: Action, i: nat)
    requires a.PutField? && a.target != Heap(i) && WellFormed(c.heap) && Legal(c, a)
    ensures Get(Act(c, a).heap, Heap(i)) == Get(c.heap, Heap(i))
  {
  }

  /** Across one step, an object that stays reachable changes only if it is the one stored into. */
  lemma {:induction false} OthersUnchanged(c: Config, a: Action, i: nat)
    requires Safe(c) && Legal(c, a) && i in ReachSet(c.heap.values, c.held)
    requires a.PutElement? || a.PutField? ==> a.target != Heap(i)
    ensures Get(Act(c, a).heap, Heap(i)) == Get(c.heap, Heap(i))
  {
    match a {
      case Alloc(o) => AllocateClobbersNothing(c.heap, o);
      case Collect(roots) => CollectLeavesOthers(c, roots, i);
      case PutElement(_, _, _) => PutElementLeavesOthers(c, a, i);
      case PutField(_, _, _) => PutFieldLeavesOthers(c, a, i);
      case Load(_, _) =>
      case Forget(_) =>
    }
  }

  // ----- What a collection frees -----

  /** Up to the first collection there is no young generation. */
  lemma {:induction false} NoGenerationYet(trace: seq<Config>, actions: seq<Action>, k: nat)
    requires IsRun(trace, actions) && k < |trace|
    requires forall j :: 0 <= j < k ==> !actions[j].Collect?
    ensures trace[k].heap.survivorEnd == 0
  {
    if k > 0 {
      NoGenerationYet(trace, actions, k - 1);
      assert ActsTo(trace[k - 1], actions[k - 1], trace[k - 1 + 1]);
      KeepsGeneration(trace[k - 1], actions[k - 1]);
    }
  }

  /** Only a collection moves the border between the generations. */
  lemma {:induction false} KeepsGeneration(c: Config, a: Action)
    requires WellFormed(c.heap) && !a.Collect?
    ensures Act(c, a).heap.survivorEnd == c.heap.survivorEnd
  {
  }

  /** The first collection of a run leaves exactly what was occupied and reachable from its roots. */
  lemma {:induction false} FirstCollectionExact(trace: seq<Config>, actions: seq<Action>, k: nat, i: nat)
    requires IsRun(trace, actions) && k < |actions| && actions[k].Collect?
    requires forall j :: 0 <= j < k ==> !actions[j].Collect?
    ensures var before, after := trace[k].heap.values, trace[k + 1].heap.values;
            (i < |after| && after[i].Some?) <==>
            (i < |before| && before[i].Some? && i in ReachSet(before, RootSet(actions[k].roots)))
  {
    NoGenerationYet(trace, actions, k);
    assert ActsTo(trace[k], actions[k], trace[k + 1]);
    CollectedFrees(trace[k].heap, actions[k].roots, i);
  }

  // ----- What the counters count -----

  function Allocations(actions: seq<Action>): nat {
    if actions == [] then 0
    else Allocations(actions[..|actions| - 1]) + if actions[|actions| - 1].Alloc? then 1 else 0
  }

  function Collections(actions: seq<Action>): nat {
    if actions == [] then 0
    else Collections(actions[..|actions| - 1]) + if actions[|actions| - 1].Collect? then 1 else 0
  }

  /** The allocations since the last collection. */
  function RecentAllocations(actions: seq<Action>): nat {
    if actions == [] || actions[|actions| - 1].Collect? then 0
    else RecentAllocations(actions[..|actions| - 1]) + if actions[|actions| - 1].Alloc? then 1 else 0
  }

  /** In every run the heap's counters are the numbers of allocations and collections that happened. */
  lemma {:induction false} CountersCount(trace: seq<Config>, actions: seq<Action>, k: nat)
    requires IsRun(trace, actions) && k < |trace|
    ensures var h := trace[k].heap;
            && h.totalAllocations == h.tlabAllocations == Allocations(actions[..k])
            && h.allocsSinceGc == RecentAllocations(actions[..k])
            && h.collections == h.minorCount + h.majorCount == Collections(actions[..k])
  {
    if k > 0 {
      CountersCount(trace, actions, k - 1);
      assert ActsTo(trace[k - 1], actions[k - 1], trace[k - 1 + 1]);
      assert actions[..k][..k - 1] == actions[..k - 1];
      StepCounts(trace[k - 1], actions[k - 1]);
    }
  }

  lemma {:induction false} StepCounts(c: Config, a: Action)
    requires WellFormed(c.heap)
    ensures var h, g := c.heap, Act(c, a).heap;
            && g.totalAllocations == h.totalAllocations + (if a.Alloc? then 1 else 0)
            && g.tlabAllocations == h.tlabAllocations + (if a.Alloc? then 1 else 0)
            && g.allocsSinceGc == (if a.Collect? then 0 else h.allocsSinceGc + if a.Alloc? then 1 else 0)
            && g.collections == h.collections + (if a.Collect? then 1 else 0)
            && g.minorCount + g.majorCount == h.minorCount + h.majorCount + (if a.Collect? then 1 else 0)
  {
    hide ReachSet;
  }
}
