/** The descriptor loops of the call sequence, against the functions of Descriptors. */
module DescriptorScanners {
  import opened Wrappers
  import opened VerifyTypes
  import opened Descriptors

  /** The loop that looks for the end of a class name. */
  method FindSemicolon(d: string, from: nat) returns (i: nat)
    requires from <= |d|
    ensures i == FindFrom(d, ';', from)
  {
    i := from;
    while i < |d| && d[i] != ';'
      invariant from <= i <= |d|
      invariant FindFrom(d, ';', i) == FindFrom(d, ';', from)
    {
      i := i + 1;
    }
  }

  /** The loop over the brackets of an array type. */
  method PassBrackets(d: string, from: nat) returns (i: nat)
    requires from <= |d|
    ensures i == SkipBrackets(d, from)
  {
    i := from;
    while i < |d| && d[i] == '['
      invariant from <= i <= |d|
      invariant SkipBrackets(d, i) == SkipBrackets(d, from)
    {
      i := i + 1;
    }
  }

  /** Steps over one parameter, as both counting loops do. */
  method SkipField(d: string, start: nat) returns (next: Option<nat>)
    requires start < |d|
    ensures next == ScanField(d, start)
  {
    if Primitive(d[start]).Some? {
      return Some(start + 1);
    } else if d[start] == 'L' {
      var end := FindSemicolon(d, start + 1);
      return Some(end + 1);
    } else if d[start] == '[' {
      var i := PassBrackets(d, start);
      if i < |d| && d[i] == 'L' {
        i := FindSemicolon(d, i + 1);
        i := i + 1;
      } else if i < |d| {
        i := i + 1;
      }
      return Some(i);
    } else {
      return None;
    }
  }

  /** A counting loop at position i has met the parameters that start at the given positions. */
  ghost predicate Met(d: string, i: nat, starts: seq<nat>) {
    match (ScanParams(d, i), ScanParams(d, 1))
    case (Some(rest), Some(all)) => starts + rest == all
    case (None, None) => true
    case _ => false
  }

  lemma {:induction false} MetNext(d: string, i: nat, starts: seq<nat>, next: Option<nat>)
    requires Met(d, i, starts) && i < |d| && d[i] != ')' && next == ScanField(d, i)
    ensures if next.Some? then Met(d, next.value, starts + [i]) else ScanParams(d, 1).None?
  {
    if next.Some? && ScanParams(d, next.value).Some? {
      var rest := ScanParams(d, next.value).value;
      assert starts + ([i] + rest) == (starts + [i]) + rest;
    }
  }

  /** When the loop stops, it has met all of them. */
  lemma {:induction false} MetAll(d: string, i: nat, starts: seq<nat>)
    requires Met(d, i, starts) && (i >= |d| || d[i] == ')')
    ensures ScanParams(d, 1) == Some(starts)
  {
    assert starts + [] == starts;
  }

  method ParseArgCount(d: string) returns (r: Option<nat>)
    ensures r == ArgCount(d)
  {
    if d == [] || d[0] != '(' {
      return None;
    }
    var count, i := 0, 1;
    ghost var starts: seq<nat> := [];
    while i < |d| && d[i] != ')'
      invariant 1 <= i <= |d| + 1
      invariant Met(d, i, starts) && count == |starts|
      decreases |d| + 1 - i
    {
      var next := SkipField(d, i);
      MetNext(d, i, starts, next);
      if next.None? {
        return None;
      }
      count := count + 1;
      starts := starts + [i];
      i := next.value;
    }
    MetAll(d, i, starts);
    return Some(count);
  }

  method ParseArgTypes(d: string) returns (r: Option<string>)
    ensures r == ArgTypes(d)
  {
    if d == [] || d[0] != '(' {
      return None;
    }
    var out: string, i := [], 1;
    ghost var starts: seq<nat> := [];
    while i < |d| && d[i] != ')'
      invariant 1 <= i <= |d| + 1
      invariant Met(d, i, starts)
      invariant |out| == |starts| && forall k :: 0 <= k < |out| ==> starts[k] < |d| && out[k] == d[starts[k]]
      decreases |d| + 1 - i
    {
      var next := SkipField(d, i);
      MetNext(d, i, starts, next);
      if next.None? {
        return None;
      }
      out := out + [d[i]];
      starts := starts + [i];
      i := next.value;
    }
    MetAll(d, i, starts);
    assert out == Letters(d, starts);
    return Some(out);
  }

  /** The verifier's own loop over the parameter list. */
  method ParseDescriptor(d: string) returns (r: Option<(seq<VerifyType>, Option<VerifyType>)>)
    ensures r == ParseMethodDescriptor(d)
  {
    if d == [] || d[0] != '(' {
      return None;
    }
    var index: nat := 1;
    var args: seq<VerifyType> := [];
    while !(index < |d| && d[index] == ')')
      invariant ParseParams(d, index).Some? <==> ParseParams(d, 1).Some?
      invariant ParseParams(d, index).Some? ==>
                  args + ParseParams(d, index).value.0 == ParseParams(d, 1).value.0 &&
                  ParseParams(d, index).value.1 == ParseParams(d, 1).value.1
      decreases |d| - index
    {
      match ParseFieldAt(d, index) {
        case None => return None;
        case Some((ty, next)) =>
          args := args + [ty];
          index := next;
      }
    }
    assert ParseParams(d, 1) == Some((args, index)) by {
      assert ParseParams(d, index) == Some(([], index));
      assert args + [] == args;
    }
    index := index + 1;
    if index < |d| && d[index] == 'V' {
      return Some((args, None));
    }
    match ParseFieldAt(d, index) {
      case None => return None;
      case Some((ret, next)) =>
        return if next == |d| then Some((args, Some(ret))) else None;
    }
  }

  /** Steps over one part, as the splitter does: it stops where the string ends too early. */
  method SkipPart(d: string, start: nat) returns (next: Option<nat>)
    requires start < |d|
    ensures next == SplitField(d, start)
  {
    if d[start] == 'V' {
      return Some(start + 1);
    }
    next := SkipField(d, start);
    if next.Some? && (next.value > |d| || (d[start] == '[' && SkipBrackets(d, start) == |d|)) {
      next := None;
    }
  }

  method SplitDescriptor(d: string) returns (r: Option<(seq<string>, string)>)
    ensures r == SplitMethodDescriptor(d)
  {
    if d == [] || d[0] != '(' {
      return None;
    }
    var args: seq<string>, i: nat := [], 1;
    while i < |d| && d[i] != ')'
      invariant 1 <= i <= |d|
      invariant SplitParams(d, i).Some? <==> SplitParams(d, 1).Some?
      invariant SplitParams(d, i).Some? ==>
                  args + SplitParams(d, i).value.0 == SplitParams(d, 1).value.0 &&
                  SplitParams(d, i).value.1 == SplitParams(d, 1).value.1
    {
      var start := i;
      var next := SkipPart(d, i);
      if next.None? {
        return None;
      }
      i := next.value;
      assert SplitParams(d, start).Some? <==> SplitParams(d, i).Some?;
      args := args + [d[start..i]];
    }
    if i >= |d| {
      return None;
    }
    assert SplitParams(d, 1) == Some((args, i)) by {
      assert SplitParams(d, i) == Some(([], i));
      assert args + [] == args;
    }
    i := i + 1;
    if i >= |d| {
      return None;
    }
    return Some((args, d[i..]));
  }
}
