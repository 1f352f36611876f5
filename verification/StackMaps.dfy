/**
 StackMapTable frames: the class-file parser that rebuilds each frame's locals from the
 frame before it, the verifier's normalisation of them, and the deltas the table encodes.
 */
module StackMaps {
  import opened Wrappers
  import opened Words
  import opened Program
  import opened VerifyTypes
  import opened Descriptors
  import opened Decoder
  import opened Transfer

  type Infos = seq<VerificationInfo>

  // ----- The table as bytes -----

  function InfoAt(bytes: seq<byte>, pos: nat): (r: Option<(VerificationInfo, nat)>)
    ensures r.Some? ==> pos < r.value.1 <= |bytes|
  {
    if pos >= |bytes| then None
    else match bytes[pos] as int
      case 0 => Some((TopInfo, pos + 1))
      case 1 => Some((IntegerInfo, pos + 1))
      case 2 => Some((FloatInfo, pos + 1))
      case 3 => Some((DoubleInfo, pos + 1))
      case 4 => Some((LongInfo, pos + 1))
      case 5 => Some((NullInfo, pos + 1))
      case 6 => Some((UninitializedThisInfo, pos + 1))
      case 7 => if U16(bytes, pos + 1).None? then None else Some((ObjectInfo(U16(bytes, pos + 1).value), pos + 3))
      case 8 =>
        if U16(bytes, pos + 1).None? then None else Some((UninitializedInfo(U16(bytes, pos + 1).value), pos + 3))
      case _ => None
  }

  function InfosAt(bytes: seq<byte>, pos: nat, count: nat): (r: Option<(Infos, nat)>)
    ensures r.Some? ==> |r.value.0| == count && pos <= r.value.1
    decreases count
  {
    if count == 0 then Some(([], pos))
    else match InfoAt(bytes, pos)
      case None => None
      case Some((info, next)) =>
        match InfosAt(bytes, next, count - 1)
        case None => None
        case Some((rest, end)) => Some(([info] + rest, end))
  }

  /** One entry of the table on its own: what it changes relative to the entry before it. */
  datatype Delta =
    | Keep(offset: nat, item: Infos)
    | Drop(offset: nat, count: nat)
    | Add(offset: nat, items: Infos)
    | Set(offset: nat, locals: Infos, items: Infos)

  /** Section 4.7.4 of the JVM specification: the entry encoded at pos, and where it ends. */
  function DeltaAt(bytes: seq<byte>, pos: nat): (r: Option<(Delta, nat)>)
    ensures r.Some? ==> pos < |bytes|
  {
    if pos >= |bytes| then None
    else
      var tag: int := bytes[pos];
      if tag <= 63 then Some((Keep(tag, []), pos + 1))
      else if tag <= 127 then
        (match InfoAt(bytes, pos + 1)
         case None => None
         case Some((item, next)) => Some((Keep(tag - 64, [item]), next)))
      else if tag < 247 || U16(bytes, pos + 1).None? then None
      else LongDeltaAt(bytes, pos + 3, tag, U16(bytes, pos + 1).value)
  }

  /** An entry with an explicit offset. */
  function LongDeltaAt(bytes: seq<byte>, pos: nat, tag: nat, offset: nat): Option<(Delta, nat)>
    requires 247 <= tag <= 255
  {
    if tag == 247 then
      (match InfoAt(bytes, pos) case None => None case Some((item, next)) => Some((Keep(offset, [item]), next)))
    else if tag <= 250 then Some((Drop(offset, 251 - tag), pos))
    else if tag == 251 then Some((Keep(offset, []), pos))
    else if tag <= 254 then
      (match InfosAt(bytes, pos, tag - 251)
       case None => None
       case Some((items, next)) => Some((Add(offset, items), next)))
    else if U16(bytes, pos).None? then None
    else match InfosAt(bytes, pos + 2, U16(bytes, pos).value)
      case None => None
      case Some((locals, mid)) =>
        if U16(bytes, mid).None? then None
        else match InfosAt(bytes, mid + 2, U16(bytes, mid).value)
          case None => None
          case Some((stack, next)) => Some((Set(offset, locals, stack), next))
  }

  function DeltasAt(bytes: seq<byte>, pos: nat, count: nat): Option<(seq<Delta>, nat)>
    decreases count
  {
    if count == 0 then Some(([], pos))
    else match DeltaAt(bytes, pos)
      case None => None
      case Some((delta, next)) =>
        match DeltasAt(bytes, next, count - 1)
        case None => None
        case Some((rest, end)) => Some(([delta] + rest, end))
  }

  // ----- The parser -----

  /** How the parser tags an entry. */
  function KindOf(delta: Delta, tag: nat): FrameKind {
    match delta
    case Keep(_, item) => if item != [] then SameLocals1StackItem else if tag == 251 then SameExtended else Same
    case Drop(_, k) => Chop(k)
    case Add(_, items) => Append(|items|)
    case Set(_, _, _) => Full
  }

  /** The frame the parser builds from an entry and the locals of its predecessor; chopping too many fails. */
  function Rebuild(previous: Infos, delta: Delta, tag: nat): Option<StackMapFrame> {
    var kind := KindOf(delta, tag);
    match delta
    case Keep(offset, item) => Some(StackMapFrame(kind, offset, previous, item))
    case Drop(offset, k) =>
      if k > |previous| then None else Some(StackMapFrame(kind, offset, previous[..|previous| - k], []))
    case Add(offset, items) => Some(StackMapFrame(kind, offset, previous + items, []))
    case Set(offset, locals, stack) => Some(StackMapFrame(kind, offset, locals, stack))
  }

  function FramesAt(bytes: seq<byte>, pos: nat, count: nat, previous: Infos): Option<(seq<StackMapFrame>, nat)>
    decreases count
  {
    if count == 0 then Some(([], pos))
    else match DeltaAt(bytes, pos)
      case None => None
      case Some((delta, next)) =>
        match Rebuild(previous, delta, bytes[pos])
        case None => None
        case Some(frame) =>
          match FramesAt(bytes, next, count - 1, frame.locals)
          case None => None
          case Some((rest, end)) => Some(([frame] + rest, end))
  }

  /** The whole attribute: a count, that many entries, and nothing after them. */
  function ParseTable(bytes: seq<byte>): Option<seq<StackMapFrame>> {
    if U16(bytes, 0).None? then None
    else match FramesAt(bytes, 2, U16(bytes, 0).value, [])
      case None => None
      case Some((frames, end)) => if end == |bytes| then Some(frames) else None
  }

  function TableDeltas(bytes: seq<byte>): Option<seq<Delta>> {
    if U16(bytes, 0).None? then None
    else match DeltasAt(bytes, 2, U16(bytes, 0).value)
      case None => None
      case Some((deltas, end)) => if end == |bytes| then Some(deltas) else None
  }

  // ----- Normalisation -----

  function InfoType(m: Method, info: VerificationInfo): Option<VerifyType> {
    match info
    case TopInfo => Some(Top) case IntegerInfo => Some(Int) case FloatInfo => Some(Float)
    case DoubleInfo => Some(Double) case LongInfo => Some(Long) case NullInfo => Some(VerifyType.Null)
    case UninitializedThisInfo => Some(UninitializedThis)
    case ObjectInfo(index) =>
      (match Entry(m.referenceClasses, index) case None => None case Some(c) => Some(Reference(Some(c))))
    case UninitializedInfo(offset) => Some(Uninitialized(offset))
  }

  function InfoTypes(m: Method, infos: Infos): (r: Option<seq<VerifyType>>)
    ensures r.Some? ==> |r.value| == |infos|
  {
    if infos == [] then Some([])
    else match (InfoType(m, infos[0]), InfoTypes(m, infos[1..]))
      case (Some(t), Some(rest)) => Some([t] + rest)
      case _ => None
  }

  /** The upper half of a two-word entry, written out explicitly. */
  predicate IsFiller(locals: seq<VerifyType>, i: nat)
    requires i < |locals|
  {
    locals[i] == Top && i > 0 && IsWide(locals[i - 1])
  }

  ghost predicate NoFiller(locals: seq<VerifyType>) {
    forall i :: 0 <= i < |locals| ==> !IsFiller(locals, i)
  }

  /** The verifier's chop: counts and keeps everything but explicit upper halves. */
  function Truncate(locals: seq<VerifyType>, count: nat): (r: seq<VerifyType>)
    ensures |r| <= |locals|
  {
    if locals == [] then []
    else
      var rest := locals[..|locals| - 1];
      if IsFiller(locals, |locals| - 1) then Truncate(rest, count)
      else if count > 0 then Truncate(rest, count - 1)
      else Truncate(rest, 0) + [locals[|locals| - 1]]
  }

  function Normalize(kind: FrameKind, previous: seq<VerifyType>, parsed: seq<VerifyType>): seq<VerifyType> {
    match kind
    case Same => previous
    case SameLocals1StackItem => previous
    case SameExtended => previous
    case Append(k) => previous + parsed[(if k <= |parsed| then |parsed| - k else 0)..]
    case Chop(k) => Truncate(previous, k)
    case Full => parsed
  }

  /** The normalised locals of every frame of a table. */
  function NormalizeAll(m: Method, previous: seq<VerifyType>, frames: seq<StackMapFrame>): Option<seq<seq<VerifyType>>>
    decreases |frames|
  {
    if frames == [] then Some([])
    else match InfoTypes(m, frames[0].locals)
      case None => None
      case Some(parsed) =>
        var here := Normalize(frames[0].kind, previous, parsed);
        match NormalizeAll(m, here, frames[1..])
        case None => None
        case Some(rest) => Some([here] + rest)
  }

  /** What an entry makes of the locals before it; None when it drops too many or names no class. */
  function ApplyDelta(m: Method, previous: seq<VerifyType>, delta: Delta): Option<seq<VerifyType>> {
    match delta
    case Keep(_, _) => Some(previous)
    case Drop(_, k) => if k <= |previous| then Some(previous[..|previous| - k]) else None
    case Add(_, items) => (match InfoTypes(m, items) case None => None case Some(ts) => Some(previous + ts))
    case Set(_, locals, _) => InfoTypes(m, locals)
  }

  /** The locals of every entry as the specification defines them: a fold of the deltas. */
  function FoldDeltas(m: Method, previous: seq<VerifyType>, deltas: seq<Delta>): Option<seq<seq<VerifyType>>>
    decreases |deltas|
  {
    if deltas == [] then Some([])
    else match ApplyDelta(m, previous, deltas[0])
      case None => None
      case Some(here) =>
        match FoldDeltas(m, here, deltas[1..])
        case None => None
        case Some(rest) => Some([here] + rest)
  }

  function InitialMapLocals(m: Method): Option<seq<VerifyType>> {
    match ParseMethodDescriptor(m.descriptor)
    case None => None
    case Some((params, _)) => Some((if m.isStatic then [] else [ThisType(m)]) + params)
  }

  // ----- Which tables the parser refuses -----

  /** No entry drops more locals than were known before it, `known` of them at the start. */
  predicate ChopsCovered(deltas: seq<Delta>, known: nat)
    decreases |deltas|
  {
    deltas == [] ||
    match deltas[0]
    case Keep(_, _) => ChopsCovered(deltas[1..], known)
    case Drop(_, k) => k <= known && ChopsCovered(deltas[1..], known - k)
    case Add(_, items) => ChopsCovered(deltas[1..], known + |items|)
    case Set(_, locals, _) => ChopsCovered(deltas[1..], |locals|)
  }

  lemma {:induction false} FramesIff(bytes: seq<byte>, pos: nat, count: nat, previous: Infos)
    ensures FramesAt(bytes, pos, count, previous).Some? <==>
            DeltasAt(bytes, pos, count).Some? && ChopsCovered(DeltasAt(bytes, pos, count).value.0, |previous|)
    ensures FramesAt(bytes, pos, count, previous).Some? ==>
              FramesAt(bytes, pos, count, previous).value.1 == DeltasAt(bytes, pos, count).value.1
    decreases count
  {
    hide DeltaAt;
    if count > 0 && DeltaAt(bytes, pos).Some? {
      var (delta, next) := DeltaAt(bytes, pos).value;
      if DeltasAt(bytes, next, count - 1).Some? {
        assert ([delta] + DeltasAt(bytes, next, count - 1).value.0)[1..] == DeltasAt(bytes, next, count - 1).value.0;
      }
      if Rebuild(previous, delta, bytes[pos]).Some? {
        FramesIff(bytes, next, count - 1, Rebuild(previous, delta, bytes[pos]).value.locals);
      }
    }
  }

  /**
   The parser starts from no locals, so it accepts a table exactly when no entry drops more
   than the entries before it put there: the method's own parameters cannot be dropped.
   */
  lemma {:induction false} ParserAcceptsIff(bytes: seq<byte>)
    ensures ParseTable(bytes).Some? <==>
            TableDeltas(bytes).Some? && ChopsCovered(TableDeltas(bytes).value, 0)
  {
    if U16(bytes, 0).Some? {
      FramesIff(bytes, 2, U16(bytes, 0).value, []);
    }
  }

  /** Every class the entry names for its locals is in the constant pool. */
  predicate DeltaResolves(m: Method, delta: Delta) {
    match delta
    case Add(_, items) => InfoTypes(m, items).Some?
    case Set(_, locals, _) => InfoTypes(m, locals).Some?
    case _ => true
  }

  predicate DeltasResolve(m: Method, deltas: seq<Delta>) {
    forall i :: 0 <= i < |deltas| ==> DeltaResolves(m, deltas[i])
  }

  lemma {:induction false} ResolveSplit(m: Method, deltas: seq<Delta>)
    requires deltas != []
    ensures DeltasResolve(m, deltas) <==> DeltaResolves(m, deltas[0]) && DeltasResolve(m, deltas[1..])
  {
    if DeltaResolves(m, deltas[0]) && DeltasResolve(m, deltas[1..]) {
      forall i | 0 <= i < |deltas| ensures DeltaResolves(m, deltas[i]) {
        assert i > 0 ==> deltas[i] == deltas[1..][i - 1];
      }
    }
    if DeltasResolve(m, deltas) {
      forall i | 0 <= i < |deltas[1..]| ensures DeltaResolves(m, deltas[1..][i]) {
        assert deltas[1..][i] == deltas[i + 1];
      }
    }
  }

  /**
   The specification starts from the parameters instead: its fold succeeds exactly when no
   entry drops more than is there, the parameters counted in, and every class resolves.
   */
  lemma {:induction false} FoldSucceedsIff(m: Method, previous: seq<VerifyType>, deltas: seq<Delta>)
    ensures FoldDeltas(m, previous, deltas).Some? <==>
            ChopsCovered(deltas, |previous|) && DeltasResolve(m, deltas)
    decreases |deltas|
  {
    hide InfoTypes;
    if deltas != [] {
      ResolveSplit(m, deltas);
      if ApplyDelta(m, previous, deltas[0]).Some? {
        FoldSucceedsIff(m, ApplyDelta(m, previous, deltas[0]).value, deltas[1..]);
      }
    }
  }

  /** What is covered without the parameters is covered with them. */
  lemma {:induction false} CoveredWithMore(deltas: seq<Delta>, known: nat, more: nat)
    requires ChopsCovered(deltas, known) && known <= more
    ensures ChopsCovered(deltas, more)
    decreases |deltas|
  {
    if deltas != [] {
      match deltas[0] {
        case Keep(_, _) => CoveredWithMore(deltas[1..], known, more);
        case Drop(_, k) => CoveredWithMore(deltas[1..], known - k, more - k);
        case Add(_, items) => CoveredWithMore(deltas[1..], known + |items|, more + |items|);
        case Set(_, _, _) =>
      }
    }
  }

  /** The table 00 02, FC 00 00 01, F9 00 00: one more local, an int, and then a chop of two. */
  predicate ChopsParameter(bytes: seq<byte>) {
    && |bytes| == 9 && bytes[0] == 0 && bytes[1] == 2
    && bytes[2] == 252 && bytes[3] == 0 && bytes[4] == 0 && bytes[5] == 1
    && bytes[6] == 249 && bytes[7] == 0 && bytes[8] == 0
  }

  lemma {:induction false} ParameterChopDeltas(bytes: seq<byte>)
    requires ChopsParameter(bytes)
    ensures TableDeltas(bytes) == Some([Add(0, [IntegerInfo]), Drop(0, 2)])
  {
    hide DeltaAt;
    AppendedInt(bytes, 2);
    ChoppedTwo(bytes, 6);
    assert DeltasAt(bytes, 9, 0) == Some(([], 9));
    assert [Drop(0, 2)] + [] == [Drop(0, 2)];
    assert DeltasAt(bytes, 6, 1) == Some(([Drop(0, 2)], 9));
    assert [Add(0, [IntegerInfo])] + [Drop(0, 2)] == [Add(0, [IntegerInfo]), Drop(0, 2)];
  }

  /** To a method with any parameter this table means something, but the parser refuses it. */
  lemma {:induction false} ParameterChopRefused(m: Method, bytes: seq<byte>)
    requires ChopsParameter(bytes)
    requires InitialMapLocals(m).Some? && InitialMapLocals(m).value != []
    ensures ParseTable(bytes).None?
    ensures TableDeltas(bytes).Some?
    ensures FoldDeltas(m, InitialMapLocals(m).value, TableDeltas(bytes).value).Some?
  {
    hide ChopsParameter, ParseTable, TableDeltas, InitialMapLocals;
    ParameterChopDeltas(bytes);
    ParserAcceptsIff(bytes);
    var deltas := TableDeltas(bytes).value;
    assert deltas[1..] == [Drop(0, 2)] && deltas[1..][1..] == [];
    assert InfoTypes(m, [IntegerInfo]).Some?;
    FoldSucceedsIff(m, InitialMapLocals(m).value, deltas);
  }

  lemma {:induction false} AppendedInt(bytes: seq<byte>, pos: nat)
    requires pos + 3 < |bytes|
    requires bytes[pos] == 252 && bytes[pos + 1] == 0 && bytes[pos + 2] == 0 && bytes[pos + 3] == 1
    ensures DeltaAt(bytes, pos) == Some((Add(0, [IntegerInfo]), pos + 4))
  {
    assert InfosAt(bytes, pos + 4, 0) == Some(([], pos + 4));
    assert [IntegerInfo] + [] == [IntegerInfo];
    assert InfosAt(bytes, pos + 3, 1) == Some(([IntegerInfo], pos + 4));
  }

  lemma {:induction false} ChoppedTwo(bytes: seq<byte>, pos: nat)
    requires pos + 2 < |bytes| && bytes[pos] == 249 && bytes[pos + 1] == 0 && bytes[pos + 2] == 0
    ensures DeltaAt(bytes, pos) == Some((Drop(0, 2), pos + 3))
  {
  }

  // ----- Normalisation is the fold -----

  lemma {:induction false} InfoTypesConcat(m: Method, a: Infos, b: Infos)
    ensures InfoTypes(m, a + b) ==
            match (InfoTypes(m, a), InfoTypes(m, b))
            case (Some(x), Some(y)) => Some(x + y)
            case _ => None
    decreases |a|
  {
    if a == [] {
      assert a + b == b;
      assert InfoTypes(m, b).Some? ==> [] + InfoTypes(m, b).value == InfoTypes(m, b).value;
    } else {
      assert (a + b)[1..] == a[1..] + b;
      InfoTypesConcat(m, a[1..], b);
      if InfoType(m, a[0]).Some? && InfoTypes(m, a[1..]).Some? && InfoTypes(m, b).Some? {
        var t := InfoType(m, a[0]).value;
        assert [t] + (InfoTypes(m, a[1..]).value + InfoTypes(m, b).value)
            == ([t] + InfoTypes(m, a[1..]).value) + InfoTypes(m, b).value;
      }
    }
  }

  lemma {:induction false} TruncateNothing(locals: seq<VerifyType>)
    requires NoFiller(locals)
    ensures Truncate(locals, 0) == locals
    decreases |locals|
  {
    if locals != [] {
      assert !IsFiller(locals, |locals| - 1);
      NoFillerPrefix(locals, |locals| - 1);
      TruncateNothing(locals[..|locals| - 1]);
    }
  }

  lemma {:induction false} NoFillerPrefix(locals: seq<VerifyType>, n: nat)
    requires NoFiller(locals) && n <= |locals|
    ensures NoFiller(locals[..n])
  {
    forall i | 0 <= i < n ensures !IsFiller(locals[..n], i) {
      assert !IsFiller(locals, i);
    }
  }

  lemma {:induction false} TruncateLength(locals: seq<VerifyType>, count: nat, i: nat)
    requires i < |locals| && IsFiller(locals, i) && count < |locals|
    ensures |Truncate(locals, count)| < |locals| - count
    decreases |locals|
  {
    var rest := locals[..|locals| - 1];
    TruncateBound(rest, if count > 0 then count - 1 else 0);
    TruncateBound(rest, count);
    if i < |locals| - 1 {
      assert IsFiller(rest, i);
      if IsFiller(locals, |locals| - 1) {
        if count < |rest| {
          TruncateLength(rest, count, i);
        } else {
          TruncateAll(rest, count);
        }
      } else if count > 0 {
        TruncateLength(rest, count - 1, i);
      } else {
        TruncateLength(rest, 0, i);
      }
    } else if count == |rest| {
      TruncateAll(rest, count);
    } else {
      TruncateDrops(rest, count);
    }
  }

  lemma {:induction false} TruncateBound(locals: seq<VerifyType>, count: nat)
    ensures |Truncate(locals, count)| <= |locals|
  {
  }

  /** Dropping at least as many entries as there are leaves nothing. */
  lemma {:induction false} TruncateAll(locals: seq<VerifyType>, count: nat)
    requires count >= |locals|
    ensures Truncate(locals, count) == []
    decreases |locals|
  {
    if locals != [] {
      TruncateAll(locals[..|locals| - 1], if IsFiller(locals, |locals| - 1) then count else count - 1);
    }
  }

  lemma {:induction false} TruncateDrops(locals: seq<VerifyType>, count: nat)
    requires count <= |locals|
    ensures |Truncate(locals, count)| <= |locals| - count
    decreases |locals|
  {
    if locals != [] {
      var rest := locals[..|locals| - 1];
      if IsFiller(locals, |locals| - 1) {
        if count <= |rest| {
          TruncateDrops(rest, count);
        } else {
          TruncateAll(rest, count);
        }
      } else {
        TruncateDrops(rest, if count > 0 then count - 1 else 0);
      }
    }
  }

  lemma {:induction false} TruncateExact(locals: seq<VerifyType>, count: nat)
    requires NoFiller(locals) && count <= |locals|
    ensures Truncate(locals, count) == locals[..|locals| - count]
    decreases |locals|
  {
    if count == 0 {
      TruncateNothing(locals);
    } else {
      assert !IsFiller(locals, |locals| - 1);
      NoFillerPrefix(locals, |locals| - 1);
      TruncateExact(locals[..|locals| - 1], count - 1);
    }
  }

  /**
   The verifier's chop drops exactly the last entries if and only if no entry is an
   explicit upper half, or everything is dropped.
   */
  lemma {:induction false} TruncateIsChopIff(locals: seq<VerifyType>, count: nat)
    requires count <= |locals|
    ensures Truncate(locals, count) == locals[..|locals| - count] <==> NoFiller(locals) || count == |locals|
  {
    if count == |locals| {
      TruncateAll(locals, count);
    } else if NoFiller(locals) {
      TruncateExact(locals, count);
    } else {
      var i: nat :| i < |locals| && IsFiller(locals, i);
      TruncateLength(locals, count, i);
    }
  }

  ghost predicate AllFillerFree(lists: seq<seq<VerifyType>>) {
    forall i :: 0 <= i < |lists| ==> NoFiller(lists[i])
  }

  lemma {:induction false} DropIsDelta(m: Method, base: seq<VerifyType>, parsed: Infos, count: nat)
    requires InfoTypes(m, parsed).Some? && NoFiller(base + InfoTypes(m, parsed).value) && count <= |parsed|
    ensures var before := base + InfoTypes(m, parsed).value;
            && InfoTypes(m, parsed[..|parsed| - count]).Some?
            && Truncate(before, count) == before[..|before| - count]
            && before[..|before| - count] == base + InfoTypes(m, parsed[..|parsed| - count]).value
  {
    var kept := |parsed| - count;
    var before := base + InfoTypes(m, parsed).value;
    assert parsed == parsed[..kept] + parsed[kept..];
    InfoTypesConcat(m, parsed[..kept], parsed[kept..]);
    TruncateExact(before, count);
  }

  lemma {:induction false} AddIsDelta(m: Method, base: seq<VerifyType>, parsed: Infos, items: Infos)
    requires InfoTypes(m, parsed).Some? && InfoTypes(m, items).Some?
    ensures InfoTypes(m, parsed + items).Some?
    ensures var types := InfoTypes(m, parsed + items).value;
            && types[|types| - |items|..] == InfoTypes(m, items).value
            && (base + InfoTypes(m, parsed).value) + InfoTypes(m, items).value == base + types
  {
    InfoTypesConcat(m, parsed, items);
  }

  /** One frame: the parser's rebuilt locals, normalised, are what the entry's delta makes of the true ones. */
  lemma {:induction false} NormalizeIsDelta(
      m: Method, base: seq<VerifyType>, parsed: Infos, delta: Delta, tag: nat)
    requires InfoTypes(m, parsed).Some? && NoFiller(base + InfoTypes(m, parsed).value)
    requires Rebuild(parsed, delta, tag).Some?
    requires ApplyDelta(m, base + InfoTypes(m, parsed).value, delta).Some?
    ensures var here := ApplyDelta(m, base + InfoTypes(m, parsed).value, delta).value;
            var frame := Rebuild(parsed, delta, tag).value;
            && InfoTypes(m, frame.locals).Some?
            && Normalize(frame.kind, base + InfoTypes(m, parsed).value, InfoTypes(m, frame.locals).value) == here
            && here == (if delta.Set? then [] else base) + InfoTypes(m, frame.locals).value
  {
    hide InfoTypes, Truncate, NoFiller;
    if delta.Drop? {
      DropIsDelta(m, base, parsed, delta.count);
    } else if delta.Add? {
      AddIsDelta(m, base, parsed, delta.items);
    }
  }

  lemma {:induction false} NormalizeRunIsFold(
      m: Method, bytes: seq<byte>, pos: nat, count: nat, base: seq<VerifyType>, parsed: Infos)
    requires FramesAt(bytes, pos, count, parsed).Some? && DeltasAt(bytes, pos, count).Some?
    requires InfoTypes(m, parsed).Some? && NoFiller(base + InfoTypes(m, parsed).value)
    requires var before := base + InfoTypes(m, parsed).value;
             var lists := FoldDeltas(m, before, DeltasAt(bytes, pos, count).value.0);
             lists.Some? && AllFillerFree(lists.value)
    ensures var before := base + InfoTypes(m, parsed).value;
            NormalizeAll(m, before, FramesAt(bytes, pos, count, parsed).value.0)
            == FoldDeltas(m, before, DeltasAt(bytes, pos, count).value.0)
    decreases count
  {
    if count > 0 {
      var (delta, next) := DeltaAt(bytes, pos).value;
      var tag := bytes[pos];
      var frame := Rebuild(parsed, delta, tag).value;
      var before := base + InfoTypes(m, parsed).value;
      NormalizeIsDelta(m, base, parsed, delta, tag);
      var here := ApplyDelta(m, before, delta).value;
      var deltas := DeltasAt(bytes, pos, count).value.0;
      assert deltas[1..] == DeltasAt(bytes, next, count - 1).value.0;
      var rest := FoldDeltas(m, here, deltas[1..]).value;
      assert FoldDeltas(m, before, deltas).value == [here] + rest;
      assert AllFillerFree(rest) by {
        forall i | 0 <= i < |rest| ensures NoFiller(rest[i]) {
          assert NoFiller(([here] + rest)[i + 1]);
        }
      }
      assert NoFiller(([here] + rest)[0]);
      NormalizeRunIsFold(m, bytes, next, count - 1, if delta.Set? then [] else base, frame.locals);
      var frames := FramesAt(bytes, pos, count, parsed).value.0;
      assert frames[1..] == FramesAt(bytes, next, count - 1, frame.locals).value.0;
    }
  }

  /** Rebuilt locals resolve exactly when those before them and the entry do. */
  lemma {:induction false} RebuiltResolves(m: Method, parsed: Infos, delta: Delta, tag: nat)
    requires InfoTypes(m, parsed).Some? && Rebuild(parsed, delta, tag).Some?
    ensures InfoTypes(m, Rebuild(parsed, delta, tag).value.locals).Some? <==> DeltaResolves(m, delta)
  {
    hide InfoTypes;
    if delta.Drop? {
      var kept := |parsed| - delta.count;
      InfoTypesConcat(m, parsed[..kept], parsed[kept..]);
      assert parsed == parsed[..kept] + parsed[kept..];
    } else if delta.Add? {
      InfoTypesConcat(m, parsed, delta.items);
    }
  }

  lemma {:induction false} NormalizeSucceedsIff(
      m: Method, bytes: seq<byte>, pos: nat, count: nat, before: seq<VerifyType>, parsed: Infos)
    requires FramesAt(bytes, pos, count, parsed).Some? && DeltasAt(bytes, pos, count).Some?
    requires InfoTypes(m, parsed).Some?
    ensures NormalizeAll(m, before, FramesAt(bytes, pos, count, parsed).value.0).Some?
            <==> DeltasResolve(m, DeltasAt(bytes, pos, count).value.0)
    decreases count
  {
    hide InfoTypes, DeltaAt, Rebuild, Normalize;
    if count > 0 {
      var (delta, next) := DeltaAt(bytes, pos).value;
      var frame := Rebuild(parsed, delta, bytes[pos]).value;
      var frames, deltas := FramesAt(bytes, pos, count, parsed).value.0, DeltasAt(bytes, pos, count).value.0;
      assert frames[1..] == FramesAt(bytes, next, count - 1, frame.locals).value.0;
      assert deltas[1..] == DeltasAt(bytes, next, count - 1).value.0;
      ResolveSplit(m, deltas);
      RebuiltResolves(m, parsed, delta, bytes[pos]);
      if DeltaResolves(m, delta) {
        var here := Normalize(frame.kind, before, InfoTypes(m, frame.locals).value);
        NormalizeSucceedsIff(m, bytes, next, count - 1, here, frame.locals);
      }
    }
  }

  lemma {:induction false} InitialMapLocalsUnfilled(m: Method)
    requires InitialMapLocals(m).Some?
    ensures NoFiller(InitialMapLocals(m).value)
  {
    ParsedTypesAreDescriptorTypes(m.descriptor);
  }

  /**
   Although the parser starts from no locals at all, what the verifier makes of an accepted
   table are the locals the deltas define over the method's parameters, at every frame,
   provided no frame spells out the upper half of a long or double. Where a class does not
   resolve, both have no result.
   */
  lemma {:induction false} TableNormalizesToFold(m: Method, bytes: seq<byte>)
    requires ParseTable(bytes).Some? && InitialMapLocals(m).Some?
    requires TableDeltas(bytes).Some? ==>
               var lists := FoldDeltas(m, InitialMapLocals(m).value, TableDeltas(bytes).value);
               lists.Some? ==> AllFillerFree(lists.value)
    ensures TableDeltas(bytes).Some?
    ensures NormalizeAll(m, InitialMapLocals(m).value, ParseTable(bytes).value)
            == FoldDeltas(m, InitialMapLocals(m).value, TableDeltas(bytes).value)
  {
    hide FoldDeltas, NormalizeAll, AllFillerFree, ChopsCovered;
    var count := U16(bytes, 0).value;
    var initial := InitialMapLocals(m).value;
    ParserAcceptsIff(bytes);
    var deltas := TableDeltas(bytes).value;
    CoveredWithMore(deltas, 0, |initial|);
    FoldSucceedsIff(m, initial, deltas);
    NormalizeSucceedsIff(m, bytes, 2, count, initial, []);
    if DeltasResolve(m, deltas) {
      InitialMapLocalsUnfilled(m);
      assert initial + InfoTypes(m, []).value == initial;
      NormalizeRunIsFold(m, bytes, 2, count, initial, []);
    }
  }

  // ----- Comparison with the computed frames -----

  /** Locals as slots: a long or double is followed by an unusable slot. */
  function ExpandLocals(locals: seq<VerifyType>): seq<VerifyType> {
    if locals == [] then []
    else (if IsWide(locals[0]) then [locals[0], Top] else [locals[0]]) + ExpandLocals(locals[1..])
  }

  function Trimmed(ts: seq<VerifyType>): (r: seq<VerifyType>)
    ensures r <= ts && (r != [] ==> r[|r| - 1] != Top)
    ensures forall i :: |r| <= i < |ts| ==> ts[i] == Top
  {
    if ts != [] && ts[|ts| - 1] == Top then Trimmed(ts[..|ts| - 1]) else ts
  }

  /** Computed locals may say more than the frame; a computed stack must have its height. */
  predicate Matches(actual: seq<VerifyType>, expected: seq<VerifyType>, isLocals: bool) {
    var a, e := Trimmed(actual), Trimmed(expected);
    && (if isLocals then |a| >= |e| else |a| == |e|)
    && forall i :: 0 <= i < |e| ==> Compatible(a[i], e[i])
  }

  function FramePc(previous: Option<nat>, frame: StackMapFrame): nat {
    match previous case None => frame.offsetDelta case Some(p) => p + frame.offsetDelta + 1
  }

  /** Every frame of the table lies on reached code and agrees with the frame computed there. */
  predicate MapsAgree(
      m: Method, states: seq<Option<FrameState>>, frames: seq<StackMapFrame>,
      previous: Option<nat>, locals: seq<VerifyType>)
    decreases |frames|
  {
    frames == [] ||
    (var pc := FramePc(previous, frames[0]);
     && pc < |states| && states[pc].Some?
     && InfoTypes(m, frames[0].locals).Some? && InfoTypes(m, frames[0].stack).Some?
     && var here := Normalize(frames[0].kind, locals, InfoTypes(m, frames[0].locals).value);
        && Matches(states[pc].value.locals, ExpandLocals(here), true)
        && Matches(states[pc].value.stack, InfoTypes(m, frames[0].stack).value, false)
        && MapsAgree(m, states, frames[1..], Some(pc), here))
  }

  predicate StackMapsOk(m: Method, states: seq<Option<FrameState>>) {
    m.stackMapFrames == [] ||
    (InitialMapLocals(m).Some? && MapsAgree(m, states, m.stackMapFrames, None, InitialMapLocals(m).value))
  }
}
