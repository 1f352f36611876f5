/** The garbage-collected heap as a value: its slots, what reaches what, and each operation's result. */
module HeapModel {
  import opened Wrappers
  import opened Words
  import opened Program

  datatype HeapValue =
    | IntArray(ints: seq<i32>)
    | LongArray(longs: seq<i64>)
    | FloatArray(floats: seq<F32>)
    | DoubleArray(doubles: seq<F64>)
    | ReferenceArray(component: string, refs: seq<Reference>)
    | Object(className: string, fields: seq<Value>)
    | StringObject(text: string)
    | StringBuilder(buffer: string)

  datatype HeapError = NullPointer | DanglingReference | WrongKind | IndexOutOfBounds | FieldNotFound

  type Slots = seq<Option<HeapValue>>

  const TLAB_SIZE: nat := 256

  const MAX_AGE: nat := 255

  // ----- Reachability -----

  /** A heap value holds a reference to slot j. */
  predicate Mentions(v: HeapValue, j: nat) {
    match v
    case ReferenceArray(_, refs) => Heap(j) in refs
    case Object(_, fields) => RefValue(Heap(j)) in fields
    case _ => false
  }

  predicate Edge(slots: Slots, i: nat, j: nat) {
    i < |slots| && slots[i].Some? && Mentions(slots[i].value, j)
  }

  /** The k-th step of a path follows a reference. */
  predicate StepsAlong(slots: Slots, p: seq<nat>, k: nat)
    requires k + 1 < |p|
  {
    Edge(slots, p[k], p[k + 1])
  }

  ghost predicate IsPath(slots: Slots, roots: set<nat>, p: seq<nat>) {
    && p != [] && p[0] in roots
    && (forall k :: 0 <= k < |p| ==> p[k] < |slots|)
    && forall k :: 0 <= k < |p| - 1 ==> StepsAlong(slots, p, k)
  }

  ghost predicate Reached(slots: Slots, roots: set<nat>, i: nat) {
    exists p :: IsPath(slots, roots, p) && p[|p| - 1] == i
  }

  /** The slots a marking from the given roots must visit. */
  ghost function ReachSet(slots: Slots, roots: set<nat>): set<nat> {
    set i | 0 <= i < |slots| && Reached(slots, roots, i)
  }

  function RootSet(roots: seq<Reference>): set<nat> {
    set r | r in roots && r.Heap? :: r.index
  }

  // ----- The heap's state -----

  /** Counters are unbounded; the generation boundary and the buffer are slot indices. */
  datatype HeapState = HeapState(
    values: Slots,
    ages: seq<nat>,
    tlabTop: nat,
    tlabLimit: nat,
    youngEnd: nat,
    survivorEnd: nat,
    remembered: seq<(nat, nat)>,
    liveCount: nat,
    allocsSinceGc: nat,
    totalAllocations: nat,
    freed: nat,
    lastFreed: nat,
    tlabAllocations: nat,
    tlabRefills: nat,
    collections: nat,
    minorCount: nat,
    majorCount: nat)

  const EMPTY_HEAP := HeapState([], [], 0, 0, 0, 0, [], 0, 0, 0, 0, 0, 0, 0, 0, 0, 0)

  /** The buffer ends where the heap ends, and nothing lies in the part not yet handed out. */
  ghost predicate WellFormed(h: HeapState) {
    && h.tlabTop <= h.tlabLimit == |h.values| == |h.ages|
    && h.survivorEnd <= |h.values|
    && forall i :: h.tlabTop <= i < |h.values| ==> h.values[i].None?
  }

  function Occupied(slots: Slots): nat {
    if slots == [] then 0 else Occupied(slots[..|slots| - 1]) + if slots[|slots| - 1].Some? then 1 else 0
  }

  function Get(h: HeapState, r: Reference): Result<HeapValue, HeapError> {
    if r.Null? then Err(NullPointer)
    else if r.index >= |h.values| || h.values[r.index].None? then Err(DanglingReference)
    else Ok(h.values[r.index].value)
  }

  // ----- Operations -----

  function Nones(n: nat): (r: Slots)
    ensures |r| == n && forall i :: 0 <= i < n ==> r[i].None?
  {
    seq(n, _ => None)
  }

  function Zeros(n: nat): (r: seq<nat>)
    ensures |r| == n
  {
    seq(n, _ => 0)
  }

  /** A fresh buffer at the end of the heap. */
  function WithBuffer(h: HeapState): HeapState {
    h.(tlabTop := |h.values|, tlabLimit := |h.values| + TLAB_SIZE,
       values := h.values + Nones(TLAB_SIZE),
       ages := h.ages + Zeros(if |h.ages| <= |h.values| + TLAB_SIZE then |h.values| + TLAB_SIZE - |h.ages| else 0))
  }

  function Refilled(h: HeapState): HeapState {
    if h.tlabTop < h.tlabLimit then h else WithBuffer(h).(tlabRefills := h.tlabRefills + 1)
  }

  /** The slot allocation hands out: the next one of the buffer, refilled when it is used up. */
  function NextSlot(h: HeapState): nat {
    Refilled(h).tlabTop
  }

  function Allocated(h: HeapState, v: HeapValue): HeapState
    requires WellFormed(h)
  {
    var g := Refilled(h);
    g.(values := g.values[g.tlabTop := Some(v)], tlabTop := g.tlabTop + 1,
       allocsSinceGc := h.allocsSinceGc + 1, totalAllocations := h.totalAllocations + 1,
       tlabAllocations := h.tlabAllocations + 1)
  }

  /** Records an edge from the old generation into the young one, once. */
  function Barrier(h: HeapState, source: nat, target: Reference): HeapState {
    if target.Heap? && source >= h.survivorEnd && target.index < h.survivorEnd && (source, target.index) !in h.remembered
    then h.(remembered := h.remembered + [(source, target.index)])
    else h
  }

  /** Stores into a reference array; the barrier runs before the index is checked. */
  function StoreElement(h: HeapState, target: Reference, index: i32, v: Reference): (HeapState, Option<HeapError>) {
    if target.Null? then (h, Some(NullPointer))
    else match Get(h, target)
      case Err(_) => (h, Some(WrongKind))
      case Ok(ReferenceArray(component, refs)) =>
        var g := Barrier(h, target.index, v);
        if index < 0 || index >= |refs| then (g, Some(IndexOutOfBounds))
        else (g.(values := h.values[target.index := Some(ReferenceArray(component, refs[index := v]))]), None)
      case Ok(_) => (h, Some(WrongKind))
  }

  /** The slot a value refers to, if it is a reference at all. */
  function Referent(v: Value): Reference {
    if v.RefValue? then v.r else Reference.Null
  }

  /** Stores into a field whose offset was looked up beforehand; the barrier runs before any check. */
  function StoreField(h: HeapState, target: Reference, offset: Option<nat>, v: Value): (HeapState, Option<HeapError>) {
    if target.Null? then (h, Some(NullPointer))
    else
      var g := Barrier(h, target.index, Referent(v));
      match Get(g, target)
      case Err(e) => (g, Some(e))
      case Ok(Object(className, fields)) =>
        if offset.None? || offset.value >= |fields| then (g, Some(FieldNotFound))
        else (g.(values := g.values[target.index := Some(Object(className, fields[offset.value := v]))]), None)
      case Ok(_) => (g, Some(WrongKind))
  }

  // ----- Collection -----

  /** What a sweep of the slots below `end` leaves, keeping the marked ones. */
  ghost function Swept(slots: Slots, end: nat, marked: set<nat>): (r: Slots)
    ensures |r| == |slots|
  {
    seq(|slots|, i requires 0 <= i < |slots| => if i < end && i !in marked then None else slots[i])
  }

  /** How many objects a sweep of the slots below `end` frees. */
  ghost function FreedBelow(slots: Slots, end: nat, marked: set<nat>): nat
    requires end <= |slots|
  {
    if end == 0 then 0
    else FreedBelow(slots, end - 1, marked) + if slots[end - 1].Some? && end - 1 !in marked then 1 else 0
  }

  /** A minor collection ages what survives and forgets the age of what it frees. */
  ghost function MinorAges(slots: Slots, ages: seq<nat>, end: nat, marked: set<nat>): (r: seq<nat>)
    requires |ages| == |slots|
    ensures |r| == |ages|
  {
    seq(|ages|, i requires 0 <= i < |ages| =>
      if i >= end || slots[i].None? then ages[i]
      else if i !in marked then 0
      else if ages[i] < MAX_AGE then ages[i] + 1 else ages[i])
  }

  function RememberedTargets(h: HeapState): set<nat> {
    set e | e in h.remembered :: e.1
  }

  /** The young generation swept, the rest untouched. */
  ghost function MinorSwept(h: HeapState, marked: set<nat>): HeapState
    requires WellFormed(h)
  {
    var values := Swept(h.values, h.survivorEnd, marked);
    var emptied := FreedBelow(h.values, h.survivorEnd, marked);
    h.(values := values, ages := MinorAges(h.values, h.ages, h.survivorEnd, marked), remembered := [],
       liveCount := Occupied(values), allocsSinceGc := 0, freed := h.freed + emptied, lastFreed := emptied,
       minorCount := h.minorCount + 1)
  }

  /** A minor collection marks from the roots and the remembered targets. */
  ghost function MinorCollected(h: HeapState, roots: seq<Reference>): HeapState
    requires WellFormed(h)
  {
    WithBuffer(MinorSwept(h, ReachSet(h.values, RootSet(roots) + RememberedTargets(h))))
  }

  /** Without the empty slots at its end. */
  function Trimmed(slots: Slots): (r: Slots)
    ensures r <= slots && (r != [] ==> r[|r| - 1].Some?)
    ensures forall i :: |r| <= i < |slots| ==> slots[i].None?
  {
    if slots != [] && slots[|slots| - 1].None? then Trimmed(slots[..|slots| - 1]) else slots
  }

  ghost function MajorAges(slots: Slots, ages: seq<nat>, marked: set<nat>): (r: seq<nat>)
    requires |ages| == |slots|
    ensures |r| == |ages|
  {
    seq(|ages|, i requires 0 <= i < |ages| => if slots[i].Some? && i !in marked then 0 else ages[i])
  }

  /** The whole heap swept, its empty end trimmed, and everything left counted as young. */
  ghost function MajorSwept(h: HeapState, marked: set<nat>): HeapState
    requires WellFormed(h)
  {
    var swept := Swept(h.values, |h.values|, marked);
    var values := Trimmed(swept);
    var emptied := FreedBelow(h.values, |h.values|, marked);
    h.(values := values, ages := MajorAges(h.values, h.ages, marked)[..|values|],
       youngEnd := |values|, survivorEnd := |values|,
       liveCount := Occupied(swept), allocsSinceGc := 0, freed := h.freed + emptied, lastFreed := emptied,
       majorCount := h.majorCount + 1)
  }

  ghost function MajorCollected(h: HeapState, roots: seq<Reference>): HeapState
    requires WellFormed(h)
  {
    MajorSwept(h, ReachSet(h.values, RootSet(roots)))
  }

  /** A collection is minor while the heap is less than twice the young generation. */
  ghost function Collected(h: HeapState, roots: seq<Reference>): HeapState
    requires WellFormed(h)
  {
    var g := if |h.values| < h.survivorEnd * 2 then MinorCollected(h, roots) else MajorCollected(h, roots);
    WithBuffer(g).(collections := h.collections + 1)
  }
}
