/**
 The stack map reader against a writer: every table of entries, written as section 4.7.4 of
 the JVM specification lays it out, is read back as those entries.
 */
module StackMapWriter {
  import opened Wrappers
  import opened Words
  import opened Program
  import opened VerifyTypes
  import opened Decoder
  import opened StackMaps
  import opened Assembler

  // ----- Types -----

  /** A verification type as bytes. */
  function InfoBytes(info: VerificationInfo): (r: seq<byte>)
    ensures r != []
  {
    match info
    case TopInfo => [0]
    case IntegerInfo => [1]
    case FloatInfo => [2]
    case DoubleInfo => [3]
    case LongInfo => [4]
    case NullInfo => [5]
    case UninitializedThisInfo => [6]
    case ObjectInfo(index) => [7] + Bytes16(index)
    case UninitializedInfo(offset) => [8] + Bytes16(offset)
  }

  predicate InfoFits(info: VerificationInfo) {
    match info
    case ObjectInfo(index) => index < 0x1_0000
    case UninitializedInfo(offset) => offset < 0x1_0000
    case _ => true
  }

  lemma {:induction false} InfoReadBack(bytes: seq<byte>, pos: nat, info: VerificationInfo)
    requires InfoFits(info) && BytesAt(bytes, pos, InfoBytes(info))
    ensures InfoAt(bytes, pos) == Some((info, pos + |InfoBytes(info)|))
  {
    hide U16;
    HeldAt(bytes, pos, InfoBytes(info), 0);
    match info {
      case ObjectInfo(index) =>
        HeldParts(bytes, pos, [7], Bytes16(index));
        Number16ReadBack(bytes, pos + 1, index);
      case UninitializedInfo(offset) =>
        HeldParts(bytes, pos, [8], Bytes16(offset));
        Number16ReadBack(bytes, pos + 1, offset);
      case _ =>
    }
  }

  function AllBytes(infos: Infos): seq<byte> {
    if infos == [] then [] else InfoBytes(infos[0]) + AllBytes(infos[1..])
  }

  predicate AllFit(infos: Infos) {
    forall k :: 0 <= k < |infos| ==> InfoFits(infos[k])
  }

  lemma {:induction false} InfosReadBack(bytes: seq<byte>, pos: nat, infos: Infos)
    requires AllFit(infos) && BytesAt(bytes, pos, AllBytes(infos))
    ensures InfosAt(bytes, pos, |infos|) == Some((infos, pos + |AllBytes(infos)|))
    decreases |infos|
  {
    hide InfoAt, InfoBytes, BytesAt;
    if infos != [] {
      HeldParts(bytes, pos, InfoBytes(infos[0]), AllBytes(infos[1..]));
      InfoReadBack(bytes, pos, infos[0]);
      InfosReadBack(bytes, pos + |InfoBytes(infos[0])|, infos[1..]);
      assert infos == [infos[0]] + infos[1..];
    }
  }

  /** The type the verifier makes of a tag. */
  lemma {:induction false} TagMeans(m: Method, bytes: seq<byte>, pos: nat, t: VerifyType)
    requires pos < |bytes| && bytes[pos] <= 6
    requires t == match bytes[pos] as int case 0 => Top case 1 => Int case 2 => Float case 3 => Double case 4 => Long
                                          case 5 => VerifyType.Null case _ => UninitializedThis
    ensures InfoAt(bytes, pos).Some? && InfoType(m, InfoAt(bytes, pos).value.0) == Some(t)
  {
  }

  // ----- Entries -----

  /** An entry of the table; one that keeps the locals takes the short form where it can. */
  function DeltaBytes(delta: Delta): (r: seq<byte>)
    requires DeltaFits(delta)
    ensures r != []
  {
    match delta
    case Keep(offset, item) =>
      if offset < 64 then [if item == [] then offset else 64 + offset] + AllBytes(item)
      else [if item == [] then 251 else 247] + Bytes16(offset) + AllBytes(item)
    case Drop(offset, count) => [251 - count] + Bytes16(offset)
    case Add(offset, items) => [251 + |items|] + Bytes16(offset) + AllBytes(items)
    case Set(offset, locals, items) =>
      [255] + Bytes16(offset) + (Bytes16(|locals|) + (AllBytes(locals) + (Bytes16(|items|) + AllBytes(items))))
  }

  predicate DeltaFits(delta: Delta) {
    && delta.offset < 0x1_0000
    && match delta
       case Keep(_, item) => |item| <= 1 && AllFit(item)
       case Drop(_, count) => 1 <= count <= 3
       case Add(_, items) => 1 <= |items| <= 3 && AllFit(items)
       case Set(_, locals, items) => |locals| < 0x1_0000 && |items| < 0x1_0000 && AllFit(locals) && AllFit(items)
  }

  /** The kind of frame the parser makes of an entry is the one of its tag. */
  lemma {:induction false} KindFollowsTag(bytes: seq<byte>, pos: nat)
    requires DeltaAt(bytes, pos).Some?
    ensures var tag: nat := bytes[pos];
            KindOf(DeltaAt(bytes, pos).value.0, tag) ==
              if tag < 64 then Same
              else if tag < 128 || tag == 247 then SameLocals1StackItem
              else if tag < 251 then Chop(251 - tag)
              else if tag == 251 then SameExtended
              else if tag < 255 then Append(tag - 251)
              else Full
  {
  }

  /** The tag, the offset and what follows of an entry in its long form. */
  lemma {:induction false} HeadReadBack(bytes: seq<byte>, pos: nat, tag: byte, offset: nat, rest: seq<byte>)
    requires offset < 0x1_0000 && BytesAt(bytes, pos, [tag] + Bytes16(offset) + rest)
    ensures pos < |bytes| && bytes[pos] == tag && U16(bytes, pos + 1) == Some(offset) && BytesAt(bytes, pos + 3, rest)
  {
    HeldParts(bytes, pos, [tag] + Bytes16(offset), rest);
    HeldParts(bytes, pos, [tag], Bytes16(offset));
    HeldAt(bytes, pos, [tag], 0);
    Number16ReadBack(bytes, pos + 1, offset);
  }

  lemma {:induction false} OneInfo(bytes: seq<byte>, pos: nat, item: Infos)
    requires |item| == 1 && AllFit(item) && BytesAt(bytes, pos, AllBytes(item))
    ensures InfoAt(bytes, pos) == Some((item[0], pos + |AllBytes(item)|))
  {
    assert AllBytes(item) == InfoBytes(item[0]) + [];
    assert AllBytes(item) == InfoBytes(item[0]);
    InfoReadBack(bytes, pos, item[0]);
  }

  lemma {:induction false} KeepReadBack(bytes: seq<byte>, pos: nat, delta: Delta)
    requires delta.Keep? && DeltaFits(delta) && BytesAt(bytes, pos, DeltaBytes(delta))
    ensures DeltaAt(bytes, pos) == Some((delta, pos + |DeltaBytes(delta)|))
  {
    hide InfoAt, U16, BytesAt, AllFit;
    var offset, item := delta.offset, delta.item;
    var tail := AllBytes(item);
    assert item != [] ==> item == [item[0]];
    if offset < 64 {
      var tag: byte := if item == [] then offset else 64 + offset;
      HeldParts(bytes, pos, [tag], tail);
      HeldAt(bytes, pos, [tag], 0);
      if item != [] {
        OneInfo(bytes, pos + 1, item);
      }
    } else {
      HeadReadBack(bytes, pos, if item == [] then 251 else 247, offset, tail);
      if item != [] {
        OneInfo(bytes, pos + 3, item);
      }
    }
  }

  lemma {:induction false} SetReadBack(bytes: seq<byte>, pos: nat, offset: nat, locals: Infos, items: Infos)
    requires |locals| < 0x1_0000 && |items| < 0x1_0000 && AllFit(locals) && AllFit(items)
    requires BytesAt(bytes, pos, Bytes16(|locals|) + (AllBytes(locals) + (Bytes16(|items|) + AllBytes(items))))
    ensures LongDeltaAt(bytes, pos, 255, offset) ==
            Some((Set(offset, locals, items), pos + 2 + |AllBytes(locals)| + 2 + |AllBytes(items)|))
  {
    hide InfoAt, InfosAt, U16, BytesAt, AllFit, AllBytes;
    var mid := pos + 2 + |AllBytes(locals)|;
    HeldParts(bytes, pos, Bytes16(|locals|), AllBytes(locals) + (Bytes16(|items|) + AllBytes(items)));
    HeldParts(bytes, pos + 2, AllBytes(locals), Bytes16(|items|) + AllBytes(items));
    HeldParts(bytes, mid, Bytes16(|items|), AllBytes(items));
    Number16ReadBack(bytes, pos, |locals|);
    InfosReadBack(bytes, pos + 2, locals);
    Number16ReadBack(bytes, mid, |items|);
    InfosReadBack(bytes, mid + 2, items);
  }

  /** Every entry is read back. */
  lemma {:induction false} DeltaReadBack(bytes: seq<byte>, pos: nat, delta: Delta)
    requires DeltaFits(delta) && BytesAt(bytes, pos, DeltaBytes(delta))
    ensures DeltaAt(bytes, pos) == Some((delta, pos + |DeltaBytes(delta)|))
  {
    hide InfoAt, InfosAt, U16, BytesAt, AllFit, AllBytes;
    match delta {
      case Keep(_, _) => KeepReadBack(bytes, pos, delta);
      case Drop(offset, count) =>
        assert [251 - count] + Bytes16(offset) == [251 - count] + Bytes16(offset) + [];
        HeadReadBack(bytes, pos, 251 - count, offset, []);
      case Add(offset, items) =>
        HeadReadBack(bytes, pos, 251 + |items|, offset, AllBytes(items));
        InfosReadBack(bytes, pos + 3, items);
      case Set(offset, locals, items) =>
        HeadReadBack(bytes, pos, 255, offset,
                     Bytes16(|locals|) + (AllBytes(locals) + (Bytes16(|items|) + AllBytes(items))));
        SetReadBack(bytes, pos + 3, offset, locals, items);
    }
  }

  predicate DeltasFit(deltas: seq<Delta>) {
    forall k :: 0 <= k < |deltas| ==> DeltaFits(deltas[k])
  }

  function DeltasBytes(deltas: seq<Delta>): seq<byte>
    requires DeltasFit(deltas)
  {
    if deltas == [] then [] else DeltaBytes(deltas[0]) + DeltasBytes(deltas[1..])
  }

  lemma {:induction false} DeltasReadBack(bytes: seq<byte>, pos: nat, deltas: seq<Delta>)
    requires DeltasFit(deltas) && BytesAt(bytes, pos, DeltasBytes(deltas))
    ensures DeltasAt(bytes, pos, |deltas|) == Some((deltas, pos + |DeltasBytes(deltas)|))
    decreases |deltas|
  {
    hide DeltaAt, DeltaBytes, BytesAt, DeltaFits;
    if deltas != [] {
      HeldParts(bytes, pos, DeltaBytes(deltas[0]), DeltasBytes(deltas[1..]));
      DeltaReadBack(bytes, pos, deltas[0]);
      DeltasReadBack(bytes, pos + |DeltaBytes(deltas[0])|, deltas[1..]);
      assert deltas == [deltas[0]] + deltas[1..];
    }
  }

  /** A written table is read back entry for entry. */
  lemma {:induction false} TableReadBack(deltas: seq<Delta>)
    requires |deltas| < 0x1_0000 && DeltasFit(deltas)
    ensures TableDeltas(Bytes16(|deltas|) + DeltasBytes(deltas)) == Some(deltas)
  {
    hide U16, DeltasAt, DeltasBytes, DeltasFit;
    var bytes := Bytes16(|deltas|) + DeltasBytes(deltas);
    assert BytesAt(bytes, 0, bytes);
    HeldParts(bytes, 0, Bytes16(|deltas|), DeltasBytes(deltas));
    Number16ReadBack(bytes, 0, |deltas|);
    DeltasReadBack(bytes, 2, deltas);
  }
}
