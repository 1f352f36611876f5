/**
 Method descriptors. The verifier parses one strictly; the call sequence and the
 method-handle code scan it with looser loops. Bytes are characters here.
 */
module Descriptors {
  import opened Wrappers
  import opened VerifyTypes

  /** First position at or after i that holds c, or |d| if there is none. */
  function FindFrom(d: string, c: char, i: nat): (j: nat)
    requires i <= |d|
    ensures i <= j <= |d|
    ensures j < |d| ==> d[j] == c
    ensures forall k :: i <= k < j ==> d[k] != c
    decreases |d| - i
  {
    if i == |d| || d[i] == c then i else FindFrom(d, c, i + 1)
  }

  /** First position at or after i that does not hold '['. */
  function SkipBrackets(d: string, i: nat): (j: nat)
    requires i <= |d|
    ensures i <= j <= |d|
    ensures j < |d| ==> d[j] != '['
    ensures forall k :: i <= k < j ==> d[k] == '['
    decreases |d| - i
  {
    if i == |d| || d[i] != '[' then i else SkipBrackets(d, i + 1)
  }

  /** The verification type of a one-letter primitive descriptor. */
  function Primitive(c: char): Option<VerifyType> {
    match c
    case 'B' => Some(Int) case 'C' => Some(Int) case 'I' => Some(Int)
    case 'S' => Some(Int) case 'Z' => Some(Int)
    case 'J' => Some(Long) case 'F' => Some(Float) case 'D' => Some(Double)
    case _ => None
  }

  /** The verifier's reading of one field descriptor: its type and where it ends. */
  function ParseFieldAt(d: string, start: nat): (r: Option<(VerifyType, nat)>)
    ensures r.Some? ==> start < r.value.1 <= |d|
    decreases |d| - start
  {
    if start >= |d| then None
    else if Primitive(d[start]).Some? then Some((Primitive(d[start]).value, start + 1))
    else if d[start] == 'L' then
      var end := FindFrom(d, ';', start);
      if end == |d| then None else Some((Reference(Some(d[start + 1..end])), end + 1))
    else if d[start] == '[' then
      match ParseFieldAt(d, SkipBrackets(d, start + 1))
      case None => None
      case Some((_, next)) => Some((Reference(Some(d[start..next])), next))
    else None
  }

  function ParseField(d: string): Option<VerifyType> {
    match ParseFieldAt(d, 0)
    case Some((ty, next)) => if next == |d| then Some(ty) else None
    case None => None
  }

  /** The parameter types from position i up to the closing parenthesis, and its position. */
  function ParseParams(d: string, i: nat): (r: Option<(seq<VerifyType>, nat)>)
    ensures r.Some? ==> i <= r.value.1 < |d| && d[r.value.1] == ')'
    decreases |d| - i
  {
    if i < |d| && d[i] == ')' then Some(([], i))
    else match ParseFieldAt(d, i)
      case None => None
      case Some((ty, next)) =>
        match ParseParams(d, next)
        case None => None
        case Some((rest, end)) => Some(([ty] + rest, end))
  }

  /** Parameter types and result type (None for void). */
  function ParseMethodDescriptor(d: string): Option<(seq<VerifyType>, Option<VerifyType>)> {
    if d == [] || d[0] != '(' then None
    else match ParseParams(d, 1)
      case None => None
      case Some((params, end)) =>
        if end + 1 < |d| && d[end + 1] == 'V' then Some((params, None))
        else match ParseFieldAt(d, end + 1)
          case Some((ret, next)) => if next == |d| then Some((params, Some(ret))) else None
          case None => None
  }

  /** The types a descriptor can give a parameter or a result. */
  predicate IsDescriptorType(t: VerifyType) {
    t.Int? || t.Long? || t.Float? || t.Double? || (t.Reference? && t.name.Some?)
  }

  lemma {:induction false} ParseFieldAtType(d: string, i: nat)
    ensures ParseFieldAt(d, i).Some? ==> IsDescriptorType(ParseFieldAt(d, i).value.0)
  {
  }

  lemma {:induction false} ParseParamsTypes(d: string, i: nat)
    requires ParseParams(d, i).Some?
    ensures forall k :: 0 <= k < |ParseParams(d, i).value.0| ==> IsDescriptorType(ParseParams(d, i).value.0[k])
    decreases |d| - i
  {
    if !(i < |d| && d[i] == ')') {
      ParseFieldAtType(d, i);
      ParseParamsTypes(d, ParseFieldAt(d, i).value.1);
    }
  }

  /** A descriptor only ever names machine types and named references. */
  lemma {:induction false} ParsedTypesAreDescriptorTypes(d: string)
    requires ParseMethodDescriptor(d).Some?
    ensures forall k :: 0 <= k < |ParseMethodDescriptor(d).value.0| ==>
              IsDescriptorType(ParseMethodDescriptor(d).value.0[k])
    ensures ParseMethodDescriptor(d).value.1.Some? ==>
              IsDescriptorType(ParseMethodDescriptor(d).value.1.value)
  {
    ParseParamsTypes(d, 1);
    ParseFieldAtType(d, ParseParams(d, 1).value.1 + 1);
  }

  /**
   Where the scanning loops of the call sequence stand after one parameter. The loops
   do not require a class name to end: they may step one past the end of the string.
   */
  function ScanField(d: string, i: nat): (r: Option<nat>)
    requires i < |d|
    ensures r.Some? ==> i < r.value <= |d| + 1
  {
    if Primitive(d[i]).Some? then Some(i + 1)
    else if d[i] == 'L' then Some(FindFrom(d, ';', i + 1) + 1)
    else if d[i] == '[' then
      var j := SkipBrackets(d, i);
      if j < |d| && d[j] == 'L' then Some(FindFrom(d, ';', j + 1) + 1)
      else if j < |d| then Some(j + 1)
      else Some(j)
    else None
  }

  /** Start positions of the parameters the scanning loops see from position i. */
  function ScanParams(d: string, i: nat): Option<seq<nat>>
    decreases |d| + 1 - i
  {
    if i >= |d| || d[i] == ')' then Some([])
    else match ScanField(d, i)
      case None => None
      case Some(next) =>
        match ScanParams(d, next)
        case None => None
        case Some(rest) => Some([i] + rest)
  }

  /** The number of arguments a call pops, whatever their width. */
  function ArgCount(d: string): Option<nat> {
    if d == [] || d[0] != '(' then None
    else match ScanParams(d, 1)
      case None => None
      case Some(starts) => Some(|starts|)
  }

  /** The leading letters of the parameters at the given positions. */
  function Letters(d: string, starts: seq<nat>): (r: string)
    requires forall k :: 0 <= k < |starts| ==> starts[k] < |d|
    ensures |r| == |starts|
  {
    seq(|starts|, k requires 0 <= k < |starts| => d[starts[k]])
  }

  lemma {:induction false} ScanParamsInRange(d: string, i: nat)
    requires ScanParams(d, i).Some?
    ensures forall k :: 0 <= k < |ScanParams(d, i).value| ==> i <= ScanParams(d, i).value[k] < |d|
    decreases |d| + 1 - i
  {
    if !(i >= |d| || d[i] == ')') {
      ScanParamsInRange(d, ScanField(d, i).value);
    }
  }

  /** The leading letter of every parameter, as the call sequence collects them. */
  function ArgTypes(d: string): Option<string> {
    if d == [] || d[0] != '(' || ScanParams(d, 1).None? then None
    else
      ScanParamsInRange(d, 1);
      Some(Letters(d, ScanParams(d, 1).value))
  }

  /** The type a one-letter parameter code stands for. */
  predicate LetterMatches(c: char, t: VerifyType) {
    if Primitive(c).Some? then t == Primitive(c).value
    else (c == 'L' || c == '[') && t.Reference?
  }

  /** A descriptor that is not an array: one letter, or a class name up to its semicolon. */
  lemma {:induction false} ParseElement(d: string, i: nat)
    requires ParseFieldAt(d, i).Some? && d[i] != '['
    ensures i < |d|
    ensures ParseFieldAt(d, i).value.1 == if d[i] == 'L' then FindFrom(d, ';', i + 1) + 1 else i + 1
    ensures d[i] != 'L' ==> Primitive(d[i]) == Some(ParseFieldAt(d, i).value.0)
    ensures d[i] == 'L' ==> ParseFieldAt(d, i).value.0.Reference? && FindFrom(d, ';', i + 1) < |d|
  {
    if d[i] == 'L' {
      FindFromStep(d, i);
    }
  }

  lemma {:induction false} ScanFieldAgrees(d: string, i: nat)
    requires ParseFieldAt(d, i).Some?
    ensures i < |d| && d[i] != ')'
    ensures ScanField(d, i) == Some(ParseFieldAt(d, i).value.1)
    ensures LetterMatches(d[i], ParseFieldAt(d, i).value.0)
  {
    if d[i] == '[' {
      var j := SkipBrackets(d, i + 1);
      ParseElement(d, j);
      assert SkipBrackets(d, i) == j;
    } else {
      ParseElement(d, i);
    }
  }

  lemma {:induction false} FindFromStep(d: string, i: nat)
    requires i < |d| && d[i] != ';'
    ensures FindFrom(d, ';', i) == FindFrom(d, ';', i + 1)
  {
  }

  /**
   On every parameter list the verifier accepts, the scanning loops see the same
   parameters: as many, with letters that match the verifier's types.
   */
  lemma {:induction false} ScanParamsAgrees(d: string, i: nat)
    requires ParseParams(d, i).Some?
    ensures ScanParams(d, i).Some?
    ensures |ScanParams(d, i).value| == |ParseParams(d, i).value.0|
    ensures forall k :: 0 <= k < |ScanParams(d, i).value| ==>
              ScanParams(d, i).value[k] < |d| &&
              LetterMatches(d[ScanParams(d, i).value[k]], ParseParams(d, i).value.0[k])
    decreases |d| - i
  {
    if !(i < |d| && d[i] == ')') {
      ScanFieldAgrees(d, i);
      ScanParamsAgrees(d, ParseFieldAt(d, i).value.1);
    }
  }

  /** The interpreter pops exactly as many arguments as the verifier typed, of the same kinds. */
  lemma {:induction false} ArgumentsAgree(d: string)
    requires ParseMethodDescriptor(d).Some?
    ensures ArgCount(d) == Some(|ParseMethodDescriptor(d).value.0|)
    ensures ArgTypes(d).Some? && |ArgTypes(d).value| == |ParseMethodDescriptor(d).value.0|
    ensures forall k :: 0 <= k < |ArgTypes(d).value| ==>
              LetterMatches(ArgTypes(d).value[k], ParseMethodDescriptor(d).value.0[k])
  {
    ScanParamsAgrees(d, 1);
  }

  /** One step of the splitter, which unlike the counter insists that class names end. */
  function SplitField(d: string, i: nat): (r: Option<nat>)
    requires i < |d|
    ensures r.Some? ==> i < r.value <= |d|
  {
    if d[i] == 'V' then Some(i + 1)
    else match ScanField(d, i)
      case None => None
      case Some(next) =>
        if next > |d| || (d[i] == '[' && SkipBrackets(d, i) == |d|) then None else Some(next)
  }

  /** The argument descriptors from position i, and the position of the closing parenthesis. */
  function SplitParams(d: string, i: nat): (r: Option<(seq<string>, nat)>)
    requires i <= |d|
    ensures r.Some? ==> i <= r.value.1 < |d| && d[r.value.1] == ')'
    decreases |d| - i
  {
    if i >= |d| then None
    else if d[i] == ')' then Some(([], i))
    else match SplitField(d, i)
      case None => None
      case Some(next) =>
        match SplitParams(d, next)
        case None => None
        case Some((rest, end)) => Some(([d[i..next]] + rest, end))
  }

  /** Argument descriptors and result descriptor as strings. */
  function SplitMethodDescriptor(d: string): Option<(seq<string>, string)> {
    if d == [] || d[0] != '(' then None
    else match SplitParams(d, 1)
      case None => None
      case Some((args, end)) => if end + 1 >= |d| then None else Some((args, d[end + 1..]))
  }

  function Concat(parts: seq<string>): string {
    if parts == [] then "" else parts[0] + Concat(parts[1..])
  }

  lemma {:induction false} SplitParamsConcat(d: string, i: nat)
    requires i <= |d| && SplitParams(d, i).Some?
    ensures Concat(SplitParams(d, i).value.0) == d[i..SplitParams(d, i).value.1]
    decreases |d| - i
  {
    if d[i] != ')' {
      var next := SplitField(d, i).value;
      var end := SplitParams(d, i).value.1;
      SplitParamsConcat(d, next);
      assert d[i..next] + d[next..end] == d[i..end];
    }
  }

  /** The split parts, put back between parentheses, are the descriptor. */
  lemma {:induction false} SplitRoundTrip(d: string)
    requires SplitMethodDescriptor(d).Some?
    ensures "(" + Concat(SplitMethodDescriptor(d).value.0) + ")" + SplitMethodDescriptor(d).value.1 == d
  {
    SplitParamsConcat(d, 1);
    var end := SplitParams(d, 1).value.1;
    assert d == d[0..1] + d[1..end] + d[end..end + 1] + d[end + 1..];
  }

  lemma {:induction false} SplitParamsAgrees(d: string, i: nat)
    requires ParseParams(d, i).Some?
    ensures i <= |d| && SplitParams(d, i).Some?
    ensures SplitParams(d, i).value.1 == ParseParams(d, i).value.1
    ensures |SplitParams(d, i).value.0| == |ParseParams(d, i).value.0|
    ensures forall k :: 0 <= k < |SplitParams(d, i).value.0| ==>
              ParseField(SplitParams(d, i).value.0[k]) == Some(ParseParams(d, i).value.0[k])
    decreases |d| - i
  {
    if !(i < |d| && d[i] == ')') {
      var (ty, next) := ParseFieldAt(d, i).value;
      ScanFieldAgrees(d, i);
      ParseFieldOfSlice(d, i);
      assert SplitField(d, i) == Some(next) by {
        if d[i] == '[' {
          assert ParseFieldAt(d, SkipBrackets(d, i + 1)).Some?;
        }
      }
      SplitParamsAgrees(d, next);
      assert d[i..next][0..] == d[i..next];
    }
  }

  lemma {:induction false} ParseElementOfSlice(d: string, from: nat, i: nat)
    requires from <= i && ParseFieldAt(d, i).Some? && d[i] != '['
    ensures var (ty, next) := ParseFieldAt(d, i).value;
            ParseFieldAt(d[from..next], i - from) == Some((ty, next - from))
  {
    var next := ParseFieldAt(d, i).value.1;
    var s := d[from..next];
    ParseElement(d, i);
    assert s[i - from] == d[i];
    if d[i] == 'L' {
      FindFromStep(d, i);
      FindFromSlice(d, from, i, next);
      assert s[i + 1 - from..next - 1 - from] == d[i + 1..next - 1];
    }
  }

  /** A field descriptor reads the same inside a longer string as cut out of it. */
  lemma {:induction false} ParseFieldOfSlice(d: string, i: nat)
    requires ParseFieldAt(d, i).Some?
    ensures ParseField(d[i..ParseFieldAt(d, i).value.1]) == Some(ParseFieldAt(d, i).value.0)
  {
    if d[i] == '[' {
      var j := SkipBrackets(d, i + 1);
      var next := ParseFieldAt(d, i).value.1;
      ParseElementOfSlice(d, i, j);
      SkipBracketsSlice(d, i, i + 1, next);
      assert d[i..next][0..next - i] == d[i..next];
    } else {
      ParseElementOfSlice(d, i, i);
    }
  }

  lemma {:induction false} FindFromSlice(d: string, from: nat, i: nat, next: nat)
    requires from <= i < next <= |d| && FindFrom(d, ';', i) == next - 1
    ensures FindFrom(d[from..next], ';', i - from) == next - 1 - from
    decreases next - i
  {
    assert d[from..next][i - from] == d[i];
    if d[i] != ';' {
      FindFromSlice(d, from, i + 1, next);
    }
  }

  lemma {:induction false} SkipBracketsSlice(d: string, from: nat, i: nat, next: nat)
    requires from <= i <= next <= |d| && SkipBrackets(d, i) < next
    ensures SkipBrackets(d[from..next], i - from) == SkipBrackets(d, i) - from
    decreases next - i
  {
    assert d[from..next][i - from] == d[i];
    if d[i] == '[' {
      SkipBracketsSlice(d, from, i + 1, next);
    }
  }

  /**
   On every descriptor the verifier accepts with a result or nothing after 'V', the
   splitter sees the same parameters, each part parsing to the verifier's type.
   */
  lemma {:induction false} SplitAgrees(d: string)
    requires ParseMethodDescriptor(d).Some?
    ensures SplitMethodDescriptor(d).Some?
    ensures |SplitMethodDescriptor(d).value.0| == |ParseMethodDescriptor(d).value.0|
    ensures forall k :: 0 <= k < |SplitMethodDescriptor(d).value.0| ==>
              ParseField(SplitMethodDescriptor(d).value.0[k]) == Some(ParseMethodDescriptor(d).value.0[k])
  {
    SplitParamsAgrees(d, 1);
  }
}
