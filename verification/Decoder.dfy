/**
 The verifier's instruction decoder and the layout of a method's code. A read past the
 end, an unknown opcode, a branch out of the code and a panic all reject; which of
 these it was is not modelled.
 */
module Decoder {
  import opened Wrappers
  import opened Words
  import opened Bytecode
  import opened Program

  /** A decoded instruction, with absolute branch targets. */
  datatype Insn = Insn(
    pc: nat,
    next: nat,
    op: Opcode,
    local: Option<nat>,
    cp: Option<nat>,
    targets: seq<nat>,
    delta: Option<int>,
    dims: Option<nat>)

  function U8(code: seq<byte>, pos: nat): Option<byte> {
    if pos < |code| then Some(code[pos]) else None
  }

  function U16(code: seq<byte>, pos: nat): (r: Option<nat>)
    ensures r.Some? <==> pos + 1 < |code|
  {
    if pos + 1 < |code| then Some(Unsigned16(code[pos], code[pos + 1])) else None
  }

  function I16(code: seq<byte>, pos: nat): (r: Option<i32>)
    ensures r.Some? <==> pos + 1 < |code|
  {
    if pos + 1 < |code| then Some(Signed16(code[pos], code[pos + 1])) else None
  }

  function I32(code: seq<byte>, pos: nat): (r: Option<i32>)
    ensures r.Some? <==> pos + 3 < |code|
  {
    if pos + 3 < |code|
    then Some(Signed32(code[pos], code[pos + 1], code[pos + 2], code[pos + 3]))
    else None
  }

  /** The target of a relative branch; None when it leaves the code. */
  function BranchTarget(pc: nat, offset: int, len: nat): (r: Option<nat>)
    ensures r.Some? ==> r.value == pc + offset && r.value < len
  {
    if 0 <= pc + offset < len then Some(pc + offset) else None
  }

  function Target16(code: seq<byte>, pc: nat, pos: nat): Option<nat> {
    match I16(code, pos)
    case None => None
    case Some(offset) => BranchTarget(pc, offset, |code|)
  }

  function Target32(code: seq<byte>, pc: nat, pos: nat): (r: Option<nat>)
    ensures r.Some? ==> pos + 3 < |code| && r.value < |code|
  {
    match I32(code, pos)
    case None => None
    case Some(offset) => BranchTarget(pc, offset, |code|)
  }

  /** Where the k-th offset of a switch lies: offsets alone, or each after its key. */
  function OffsetPos(pos: nat, keyed: bool, k: nat): nat {
    if keyed then pos + 8 * k + 4 else pos + 4 * k
  }

  /** The k-th offset of a switch. */
  function OffsetAt(code: seq<byte>, pos: nat, keyed: bool, k: nat): (r: Option<i32>)
    ensures r.Some? <==> OffsetPos(pos, keyed, k) + 3 < |code|
  {
    I32(code, OffsetPos(pos, keyed, k))
  }

  function SwitchTarget(code: seq<byte>, pc: nat, pos: nat, keyed: bool, k: nat): (r: Option<nat>)
    ensures r.Some? ==> OffsetPos(pos, keyed, k) + 3 < |code| && r.value < |code|
  {
    match OffsetAt(code, pos, keyed, k)
    case None => None
    case Some(offset) => BranchTarget(pc, offset, |code|)
  }

  /** The targets of a switch's `count` entries, all of which must be readable and in the code. */
  function SwitchTargets(code: seq<byte>, pc: nat, pos: nat, keyed: bool, count: nat): (r: Option<seq<nat>>)
    ensures r.Some? <==> forall k :: 0 <= k < count ==> SwitchTarget(code, pc, pos, keyed, k).Some?
    ensures r.Some? ==> |r.value| == count
    ensures r.Some? ==> forall k :: 0 <= k < count ==> Some(r.value[k]) == SwitchTarget(code, pc, pos, keyed, k)
  {
    if forall k :: 0 <= k < count ==> SwitchTarget(code, pc, pos, keyed, k).Some?
    then Some(seq(count, k requires 0 <= k < count => SwitchTarget(code, pc, pos, keyed, k).value))
    else None
  }

  /** The first multiple of four at or after pos. */
  function Aligned(pos: nat): (r: nat)
    ensures pos <= r < pos + 4 && r % 4 == 0
  {
    pos + (4 - pos % 4) % 4
  }

  function Plain(pc: nat, next: nat, op: Opcode): Insn {
    Insn(pc, next, op, None, None, [], None, None)
  }

  function DecodeTableswitch(code: seq<byte>, pc: nat): Option<Insn> {
    var pos := Aligned(pc + 1);
    if pos + 11 >= |code| || Target32(code, pc, pos).None? then None
    else
      var low: int, high: int := I32(code, pos + 4).value, I32(code, pos + 8).value;
      var count: nat := if low <= high then high - low + 1 else 0;
      match SwitchTargets(code, pc, pos + 12, false, count)
      case None => None
      case Some(targets) =>
        Some(Insn(pc, pos + 12 + 4 * count, Tableswitch, None, None,
                  [Target32(code, pc, pos).value] + targets, None, None))
  }

  function DecodeLookupswitch(code: seq<byte>, pc: nat): Option<Insn> {
    var pos := Aligned(pc + 1);
    if pos + 7 >= |code| || Target32(code, pc, pos).None? then None
    else
      var pairs: int := I32(code, pos + 4).value;
      if pairs < 0 then None
      else match SwitchTargets(code, pc, pos + 8, true, pairs)
        case None => None
        case Some(targets) =>
          Some(Insn(pc, pos + 8 + 8 * pairs, Lookupswitch, None, None,
                    [Target32(code, pc, pos).value] + targets, None, None))
  }

  /** A wide prefix: the inner opcode with a 16-bit local index, whatever the inner opcode is. */
  function DecodeWide(code: seq<byte>, pc: nat): Option<Insn> {
    match (U8(code, pc + 1), U16(code, pc + 2))
    case (Some(b), Some(index)) =>
      (match FromByte(b)
       case None => None
       case Some(inner) =>
         var insn := Plain(pc, pc + 4, inner).(local := Some(index));
         if inner != Iinc then Some(insn)
         else match I16(code, pc + 4)
           case None => None
           case Some(delta) => Some(insn.(next := pc + 6, delta := Some(delta))))
    case _ => None
  }

  /** An instruction whose operand is a 16-bit branch offset. */
  predicate HasShortBranch(op: Opcode) {
    op.If? || op.IfIcmp? || op.IfAcmp? || op.IfNull? || op.Goto? || op.Jsr?
  }

  /** An instruction whose operand is a 16-bit constant-pool index and nothing more. */
  predicate HasPoolIndex(op: Opcode) {
    || op.LdcW? || op.Ldc2W?
    || op.Getstatic? || op.Putstatic? || op.Getfield? || op.Putfield?
    || op.Invokevirtual? || op.Invokespecial? || op.Invokestatic?
    || op.New? || op.Anewarray? || op.Checkcast? || op.Instanceof?
  }

  /** The verifier's reading of the instruction at pc. */
  function Decode(code: seq<byte>, pc: nat): (r: Option<Insn>)
    ensures r.Some? ==> r.value.pc == pc < r.value.next && pc < |code|
    ensures r.Some? ==> forall t :: t in r.value.targets ==> t < |code|
  {
    if pc >= |code| || FromByte(code[pc]).None? then None
    else
      var op := FromByte(code[pc]).value;
      if HasShortBranch(op) then
        (match Target16(code, pc, pc + 1)
         case None => None
         case Some(t) => Some(Plain(pc, pc + 3, op).(targets := [t])))
      else if HasPoolIndex(op) then
        (match U16(code, pc + 1)
         case None => None
         case Some(index) => Some(Plain(pc, pc + 3, op).(cp := Some(index))))
      else DecodeOther(code, pc, op)
  }

  function DecodeOther(code: seq<byte>, pc: nat, op: Opcode): (r: Option<Insn>)
    requires pc < |code|
    ensures r.Some? ==> r.value.pc == pc < r.value.next
    ensures r.Some? ==> forall t :: t in r.value.targets ==> t < |code|
  {
    if op.Bipush? || op.Newarray? then
      if U8(code, pc + 1).None? then None else Some(Plain(pc, pc + 2, op))
    else if op.Ldc? then
      if U8(code, pc + 1).None? then None
      else Some(Plain(pc, pc + 2, op).(cp := Some(U8(code, pc + 1).value)))
    else if op.Load? || op.Store? || op.Ret? then DecodeLocal(code, pc, op)
    else if op.LoadN? || op.StoreN? then Some(Plain(pc, pc + 1, op).(local := Some(op.slot)))
    else if op.Sipush? then
      if U16(code, pc + 1).None? then None else Some(Plain(pc, pc + 3, op))
    else if op.Iinc? then
      (match (U8(code, pc + 1), U8(code, pc + 2))
       case (Some(index), Some(d)) =>
         Some(Plain(pc, pc + 3, op).(local := Some(index), delta := Some(Signed8(d))))
       case _ => None)
    else if op.GotoW? || op.JsrW? then DecodeLongBranch(code, pc, op)
    else if op.Invokeinterface? || op.Invokedynamic? then DecodeLongIndex(code, pc, op)
    else if op.Multianewarray? then
      (match (U16(code, pc + 1), U8(code, pc + 3))
       case (Some(index), Some(n)) =>
         Some(Plain(pc, pc + 4, op).(cp := Some(index), dims := Some(n)))
       case _ => None)
    else if op.Tableswitch? then DecodeTableswitch(code, pc)
    else if op.Lookupswitch? then DecodeLookupswitch(code, pc)
    else if op.Wide? then DecodeWide(code, pc)
    else Some(Plain(pc, pc + 1, op))
  }

  function DecodeLocal(code: seq<byte>, pc: nat, op: Opcode): Option<Insn> {
    match U8(code, pc + 1)
    case None => None
    case Some(index) => Some(Plain(pc, pc + 2, op).(local := Some(index)))
  }

  function DecodeLongBranch(code: seq<byte>, pc: nat, op: Opcode): Option<Insn> {
    match Target32(code, pc, pc + 1)
    case None => None
    case Some(t) => Some(Plain(pc, pc + 5, op).(targets := [t]))
  }

  function DecodeLongIndex(code: seq<byte>, pc: nat, op: Opcode): Option<Insn> {
    match U16(code, pc + 1)
    case None => None
    case Some(index) => Some(Plain(pc, pc + 5, op).(cp := Some(index)))
  }

  /** The constant-pool entry an instruction names exists and has the right kind. */
  predicate PoolOk(m: Method, insn: Insn) {
    var op := insn.op;
    if op.Ldc? || op.LdcW? || op.Ldc2W? then insn.cp.Some? && Entry(m.constants, insn.cp.value).Some?
    else if op.Getstatic? || op.Putstatic? || op.Getfield? || op.Putfield? then
      insn.cp.Some? && Entry(m.fieldRefs, insn.cp.value).Some?
    else if op.Invokevirtual? || op.Invokespecial? || op.Invokestatic? || op.Invokeinterface? then
      insn.cp.Some? && Entry(m.methodRefs, insn.cp.value).Some?
    else if op.Invokedynamic? then insn.cp.Some? && Entry(m.dynamicSites, insn.cp.value).Some?
    else if op.New? || op.Anewarray? || op.Checkcast? || op.Instanceof? || op.Multianewarray? then
      insn.cp.Some? && Entry(m.referenceClasses, insn.cp.value).Some?
    else true
  }

  type Layout = map<nat, Insn>

  /** The instructions from pc to the end of the code, keyed by where they start. */
  function LayoutFrom(m: Method, pc: nat): Option<Layout>
    decreases |m.code| - pc
  {
    if pc >= |m.code| then Some(map[])
    else match Decode(m.code, pc)
      case None => None
      case Some(insn) =>
        if insn.next > |m.code| || !PoolOk(m, insn) then None
        else match LayoutFrom(m, insn.next)
          case None => None
          case Some(rest) => Some(rest[pc := insn])
  }

  /** Every branch lands on the start of an instruction. */
  ghost predicate BranchesLand(layout: Layout) {
    forall p, t :: p in layout && t in layout[p].targets ==> t in layout
  }

  /** The result of scanning a method. */
  ghost function Scan(m: Method): Option<Layout> {
    match LayoutFrom(m, 0)
    case None => None
    case Some(layout) => if BranchesLand(layout) then Some(layout) else None
  }

  /** An instruction of a layout occupies the bytes from its start up to the next start. */
  predicate Occupies(layout: Layout, p: nat, b: nat) {
    p in layout && p <= b < layout[p].next
  }

  lemma {:induction false} LayoutFacts(m: Method, pc: nat)
    requires pc <= |m.code| && LayoutFrom(m, pc).Some?
    ensures forall p :: p in LayoutFrom(m, pc).value ==>
              pc <= p < |m.code| && PoolOk(m, LayoutFrom(m, pc).value[p]) &&
              Decode(m.code, p) == Some(LayoutFrom(m, pc).value[p])
    ensures forall p :: p in LayoutFrom(m, pc).value ==>
              var next := LayoutFrom(m, pc).value[p].next;
              p < next <= |m.code| && (next in LayoutFrom(m, pc).value || next == |m.code|)
    ensures pc < |m.code| ==> pc in LayoutFrom(m, pc).value
    decreases |m.code| - pc
  {
    if pc < |m.code| {
      LayoutFacts(m, Decode(m.code, pc).value.next);
    }
  }

  /** The instructions tile the code: every byte belongs to exactly one of them. */
  lemma {:induction false} LayoutTiles(m: Method, pc: nat, b: nat)
    requires pc <= b < |m.code| && LayoutFrom(m, pc).Some?
    ensures exists p :: Occupies(LayoutFrom(m, pc).value, p, b)
    ensures forall p, q ::
              Occupies(LayoutFrom(m, pc).value, p, b) && Occupies(LayoutFrom(m, pc).value, q, b) ==> p == q
    decreases |m.code| - pc
  {
    var layout := LayoutFrom(m, pc).value;
    var next := Decode(m.code, pc).value.next;
    var rest := LayoutFrom(m, next).value;
    LayoutFacts(m, next);
    if b < next {
      assert Occupies(layout, pc, b);
    } else {
      LayoutTiles(m, next, b);
      var p :| Occupies(rest, p, b);
      assert Occupies(layout, p, b);
      forall q | Occupies(layout, q, b) ensures q == p {
        assert Occupies(rest, q, b);
      }
    }
  }

  /** No instruction starts inside another one. */
  lemma {:induction false} NoStartInside(m: Method, p: nat, q: nat)
    requires LayoutFrom(m, 0).Some?
    requires p in LayoutFrom(m, 0).value && p < q < LayoutFrom(m, 0).value[p].next
    ensures q !in LayoutFrom(m, 0).value && q != |m.code|
  {
    LayoutFacts(m, 0);
    LayoutTiles(m, 0, q);
    assert Occupies(LayoutFrom(m, 0).value, p, q);
    assert !Occupies(LayoutFrom(m, 0).value, q, q);
  }

  // ----- The scan, without its order -----

  predicate Follows(layout: Layout, p: nat) {
    exists q :: q in layout && layout[q].next == p
  }

  /** The instruction at p decodes, has its constant-pool entry, and ends where another starts or at the end. */
  predicate StandsAt(m: Method, layout: Layout, p: nat)
    requires p in layout
  {
    && Decode(m.code, p) == Some(layout[p]) && PoolOk(m, layout[p])
    && (layout[p].next in layout || layout[p].next == |m.code|)
  }

  /** A division of the code into instructions: from the start, one behind the other, every branch to one of them. */
  ghost predicate Divides(m: Method, layout: Layout) {
    && (m.code != [] ==> 0 in layout)
    && (forall p :: p in layout ==> StandsAt(m, layout, p))
    && (forall p :: p in layout ==> p == 0 || Follows(layout, p))
    && forall p, t :: p in layout && t in layout[p].targets ==> t in layout
  }

  lemma {:induction false} LayoutFollows(m: Method, pc: nat, p: nat)
    requires pc <= |m.code| && LayoutFrom(m, pc).Some? && p in LayoutFrom(m, pc).value
    ensures p == pc || Follows(LayoutFrom(m, pc).value, p)
    decreases |m.code| - pc
  {
    if p != pc {
      var layout, next := LayoutFrom(m, pc).value, Decode(m.code, pc).value.next;
      LayoutFollows(m, next, p);
      LayoutFacts(m, next);
      if p == next {
        assert layout[pc].next == p;
      } else {
        var rest := LayoutFrom(m, next).value;
        var q :| q in rest && rest[q].next == p;
        assert layout[q] == rest[q];
      }
    }
  }

  lemma {:induction false} NothingInside(m: Method, layout: Layout, p: nat, q: nat)
    requires Divides(m, layout) && p in layout && q in layout && p < q
    ensures layout[p].next <= q
    decreases p, q
  {
    assert Follows(layout, q);
    var r :| r in layout && layout[r].next == q;
    assert StandsAt(m, layout, r);
    if q < layout[p].next {
      if r < p {
        NothingInside(m, layout, r, p);
      } else if r > p {
        NothingInside(m, layout, p, r);
      }
    }
  }

  /** The instructions from an offset on. */
  function From(layout: Layout, p: nat): Layout {
    map q | q in layout && q >= p :: layout[q]
  }

  lemma {:induction false} FromSplit(layout: Layout, p: nat, next: nat)
    requires p in layout && next > p && forall q :: q in layout && q > p ==> q >= next
    ensures From(layout, p) == From(layout, next)[p := layout[p]]
  {
  }

  lemma {:induction false} FromNext(m: Method, layout: Layout, p: nat)
    requires Divides(m, layout) && p in layout
    ensures layout[p].next > p && From(layout, p) == From(layout, layout[p].next)[p := layout[p]]
  {
    assert StandsAt(m, layout, p);
    assert layout[p].next > p by { assert Decode(m.code, p) == Some(layout[p]); }
    hide Divides, Decode, StandsAt, From, PoolOk;
    forall q | q in layout && q > p ensures q >= layout[p].next {
      NothingInside(m, layout, p, q);
    }
    FromSplit(layout, p, layout[p].next);
  }

  lemma {:induction false} DividedFrom(m: Method, layout: Layout, p: nat)
    requires Divides(m, layout) && (p in layout || p == |m.code|)
    ensures LayoutFrom(m, p) == Some(From(layout, p))
    decreases if p <= |m.code| then |m.code| - p else 0
  {
    hide Decode, PoolOk;
    if p in layout {
      var next := layout[p].next;
      assert StandsAt(m, layout, p);
      assert next in layout ==> StandsAt(m, layout, next);
      FromNext(m, layout, p);
      hide Divides;
      DividedFrom(m, layout, next);
    } else {
      forall q | q in layout ensures q < |m.code| {
        assert StandsAt(m, layout, q);
      }
      assert From(layout, p) == map[];
    }
  }

  /** The scan succeeds with a layout if and only if that layout divides the code; so there is at most one. */
  lemma {:induction false} ScanIff(m: Method, layout: Layout)
    ensures Scan(m) == Some(layout) <==> Divides(m, layout)
  {
    hide Decode, PoolOk;
    if Scan(m) == Some(layout) {
      LayoutFacts(m, 0);
      forall p | p in layout ensures p == 0 || Follows(layout, p) {
        LayoutFollows(m, 0, p);
      }
    }
    if Divides(m, layout) {
      DividedFrom(m, layout, 0);
      assert From(layout, 0) == layout;
    }
  }
}
