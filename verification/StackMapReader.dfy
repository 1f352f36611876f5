/** The class-file reader's loop over a StackMapTable attribute. */
module StackMapReader {
  import opened Wrappers
  import opened Words
  import opened Program
  import opened Decoder
  import opened StackMaps

  class ClassReader {
    const bytes: seq<byte>
    var position: nat

    ghost predicate Valid()
      reads this
    {
      position <= |bytes|
    }

    constructor (bytes: seq<byte>)
      ensures Valid() && this.bytes == bytes && position == 0
    {
      this.bytes := bytes;
      position := 0;
    }

    function IsFinished(): bool
      reads this
    {
      position == |bytes|
    }

    method ReadU1() returns (r: Option<byte>)
      requires Valid()
      modifies this
      ensures Valid()
      ensures r == U8(bytes, old(position)) && position == old(position) + if r.Some? then 1 else 0
    {
      r := U8(bytes, position);
      if r.Some? {
        position := position + 1;
      }
    }

    method ReadU2() returns (r: Option<nat>)
      requires Valid()
      modifies this
      ensures Valid()
      ensures r == U16(bytes, old(position)) && position == old(position) + if r.Some? then 2 else 0
    {
      r := U16(bytes, position);
      if r.Some? {
        position := position + 2;
      }
    }

    method ReadInfo() returns (r: Option<VerificationInfo>)
      requires Valid()
      modifies this
      ensures Valid()
      ensures r.Some? <==> InfoAt(bytes, old(position)).Some?
      ensures r.Some? ==> InfoAt(bytes, old(position)) == Some((r.value, position))
    {
      var tag := ReadU1();
      if tag.None? || tag.value > 8 {
        return None;
      }
      if tag.value >= 7 {
        var index := ReadU2();
        if index.None? {
          return None;
        }
        return Some(if tag.value == 7 then ObjectInfo(index.value) else UninitializedInfo(index.value));
      }
      return Some(
        match tag.value as int
        case 0 => TopInfo case 1 => IntegerInfo case 2 => FloatInfo case 3 => DoubleInfo
        case 4 => LongInfo case 5 => NullInfo case _ => UninitializedThisInfo);
    }

    method ReadInfos(count: nat) returns (r: Option<Infos>)
      requires Valid()
      modifies this
      ensures Valid()
      ensures r.Some? <==> InfosAt(bytes, old(position), count).Some?
      ensures r.Some? ==> InfosAt(bytes, old(position), count) == Some((r.value, position))
    {
      hide InfoAt;
      var infos: Infos := [];
      ghost var start := position;
      while |infos| < count
        invariant |infos| <= count && Valid()
        invariant InfosAt(bytes, start, count).Some? <==> InfosAt(bytes, position, count - |infos|).Some?
        invariant InfosAt(bytes, start, count).Some? ==>
                    infos + InfosAt(bytes, position, count - |infos|).value.0 == InfosAt(bytes, start, count).value.0 &&
                    InfosAt(bytes, position, count - |infos|).value.1 == InfosAt(bytes, start, count).value.1
      {
        var info := ReadInfo();
        if info.None? {
          return None;
        }
        infos := infos + [info.value];
      }
      assert InfosAt(bytes, position, 0) == Some(([], position));
      assert infos + [] == infos;
      return Some(infos);
    }

    /** One entry, with the tag it was read under. */
    method ReadDelta() returns (r: Option<Delta>, tag: byte)
      requires Valid()
      modifies this
      ensures Valid()
      ensures r.Some? <==> DeltaAt(bytes, old(position)).Some?
      ensures r.Some? ==>
                DeltaAt(bytes, old(position)) == Some((r.value, position)) && tag == bytes[old(position)]
    {
      var first := ReadU1();
      if first.None? {
        return None, 0;
      }
      tag := first.value;
      if tag <= 63 {
        return Some(Keep(tag, [])), tag;
      }
      if tag <= 127 {
        var item := ReadInfo();
        return if item.None? then None else Some(Keep(tag - 64, [item.value])), tag;
      }
      if tag < 247 {
        return None, tag;
      }
      var offset := ReadU2();
      if offset.None? {
        return None, tag;
      }
      r := ReadLongDelta(tag, offset.value);
    }

    method ReadLongDelta(tag: byte, offset: nat) returns (r: Option<Delta>)
      requires Valid() && tag >= 247
      modifies this
      ensures Valid()
      ensures r.Some? <==> LongDeltaAt(bytes, old(position), tag, offset).Some?
      ensures r.Some? ==> LongDeltaAt(bytes, old(position), tag, offset) == Some((r.value, position))
    {
      if tag == 247 {
        var item := ReadInfo();
        return if item.None? then None else Some(Keep(offset, [item.value]));
      } else if tag <= 250 {
        return Some(Drop(offset, 251 - tag));
      } else if tag == 251 {
        return Some(Keep(offset, []));
      } else if tag <= 254 {
        var items := ReadInfos(tag - 251);
        return if items.None? then None else Some(Add(offset, items.value));
      }
      var localsLen := ReadU2();
      if localsLen.None? {
        return None;
      }
      var locals := ReadInfos(localsLen.value);
      if locals.None? {
        return None;
      }
      var stackLen := ReadU2();
      if stackLen.None? {
        return None;
      }
      var stack := ReadInfos(stackLen.value);
      return if stack.None? then None else Some(Set(offset, locals.value, stack.value));
    }

    /** The attribute: every frame's locals are rebuilt from those of the frame before it. */
    method ReadStackMapTable() returns (r: Option<seq<StackMapFrame>>)
      requires Valid() && position == 0
      modifies this
      ensures r == ParseTable(bytes)
    {
      hide DeltaAt, Rebuild;
      var entries := ReadU2();
      if entries.None? {
        return None;
      }
      var frames: seq<StackMapFrame> := [];
      var previous: Infos := [];
      while |frames| < entries.value
        invariant |frames| <= entries.value && Valid()
        invariant FramesAt(bytes, 2, entries.value, []).Some? <==>
                  FramesAt(bytes, position, entries.value - |frames|, previous).Some?
        invariant FramesAt(bytes, 2, entries.value, []).Some? ==>
                    frames + FramesAt(bytes, position, entries.value - |frames|, previous).value.0
                      == FramesAt(bytes, 2, entries.value, []).value.0 &&
                    FramesAt(bytes, position, entries.value - |frames|, previous).value.1
                      == FramesAt(bytes, 2, entries.value, []).value.1
      {
        var delta, tag := ReadDelta();
        if delta.None? {
          return None;
        }
        var frame := Rebuild(previous, delta.value, tag);
        if frame.None? {
          return None;
        }
        frames := frames + [frame.value];
        previous := frame.value.locals;
      }
      assert FramesAt(bytes, position, 0, previous) == Some(([], position));
      assert frames + [] == frames;
      return if IsFinished() then Some(frames) else None;
    }
  }
}
