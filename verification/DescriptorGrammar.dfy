/**
 Descriptors by the grammar of section 4.3 of the JVM specification: the verifier's parser
 reads every descriptor the grammar derives as what it stands for, and accepts nothing else
 but a void descriptor with something behind it.
 */
module DescriptorGrammar {
  import opened Wrappers
  import opened VerifyTypes
  import opened Descriptors

  datatype FieldType = Base(c: char) | Class(name: string) | Array(of: FieldType)

  predicate WellFormed(t: FieldType) {
    match t
    case Base(c) => c in "BCDFIJSZ"
    case Class(name) => ';' !in name
    case Array(of) => WellFormed(of)
  }

  function Text(t: FieldType): (d: string)
    ensures d != []
  {
    match t
    case Base(c) => [c]
    case Class(name) => "L" + name + ";"
    case Array(of) => "[" + Text(of)
  }

  /** The verification type of a field type: small integers are ints, arrays go by their descriptor. */
  function Meaning(t: FieldType): VerifyType {
    match t
    case Base('J') => Long
    case Base('F') => Float
    case Base('D') => Double
    case Base(_) => Int
    case Class(name) => Reference(Some(name))
    case Array(_) => Reference(Some(Text(t)))
  }

  /** The string has this text at a position. */
  predicate HasAt(d: string, i: nat, text: string) {
    i + |text| <= |d| && d[i..i + |text|] == text
  }

  lemma {:induction false} CharsAt(d: string, i: nat, text: string, k: nat)
    requires HasAt(d, i, text) && k < |text|
    ensures d[i + k] == text[k]
  {
    assert d[i..i + |text|][k] == text[k];
  }

  lemma {:induction false} PartsAt(d: string, i: nat, a: string, b: string)
    requires HasAt(d, i, a + b)
    ensures HasAt(d, i, a) && HasAt(d, i + |a|, b)
  {
    assert d[i..i + |a|] == (a + b)[..|a|];
    assert d[i + |a|..i + |a| + |b|] == (a + b)[|a|..];
  }

  lemma {:induction false} FoundAt(d: string, c: char, i: nat, j: nat)
    requires i <= j < |d| && d[j] == c && forall k :: i <= k < j ==> d[k] != c
    ensures FindFrom(d, c, i) == j
    decreases j - i
  {
    if i < j {
      FoundAt(d, c, i + 1, j);
    }
  }

  // ----- What is derived is read -----

  lemma {:induction false} ClassRead(d: string, i: nat, name: string)
    requires ';' !in name && HasAt(d, i, "L" + name + ";")
    ensures ParseFieldAt(d, i) == Some((Reference(Some(name)), i + |name| + 2))
  {
    PartsAt(d, i, "L" + name, ";");
    PartsAt(d, i, "L", name);
    CharsAt(d, i, "L", 0);
    CharsAt(d, i + 1 + |name|, ";", 0);
    forall k | i <= k < i + 1 + |name| ensures d[k] != ';' {
      if k > i {
        CharsAt(d, i + 1, name, k - i - 1);
      }
    }
    FoundAt(d, ';', i, i + 1 + |name|);
  }

  lemma {:induction false} ArrayRead(d: string, i: nat)
    requires i + 1 < |d| && d[i] == '['
    ensures ParseFieldAt(d, i + 1).None? ==> ParseFieldAt(d, i).None?
    ensures ParseFieldAt(d, i + 1).Some? ==>
              var next := ParseFieldAt(d, i + 1).value.1; ParseFieldAt(d, i) == Some((Reference(Some(d[i..next])), next))
  {
    assert d[i + 1] == '[' ==> SkipBrackets(d, i + 1) == SkipBrackets(d, i + 2);
  }

  /** A field type is read where it stands. */
  lemma {:induction false} FieldRead(d: string, i: nat, t: FieldType)
    requires WellFormed(t) && HasAt(d, i, Text(t))
    ensures ParseFieldAt(d, i) == Some((Meaning(t), i + |Text(t)|))
    decreases t
  {
    match t {
      case Base(c) => CharsAt(d, i, [c], 0);
      case Class(name) => ClassRead(d, i, name);
      case Array(of) =>
        PartsAt(d, i, "[", Text(of));
        CharsAt(d, i, "[", 0);
        CharsAt(d, i + 1, Text(of), 0);
        hide ParseFieldAt;
        FieldRead(d, i + 1, of);
        ArrayRead(d, i);
    }
  }

  function Texts(ts: seq<FieldType>): string {
    if ts == [] then "" else Text(ts[0]) + Texts(ts[1..])
  }

  function Meanings(ts: seq<FieldType>): (r: seq<VerifyType>)
    ensures |r| == |ts| && forall k :: 0 <= k < |ts| ==> r[k] == Meaning(ts[k])
  {
    seq(|ts|, k requires 0 <= k < |ts| => Meaning(ts[k]))
  }

  predicate AllWellFormed(ts: seq<FieldType>) {
    forall k :: 0 <= k < |ts| ==> WellFormed(ts[k])
  }

  lemma {:induction false} TextNotClosing(t: FieldType)
    requires WellFormed(t)
    ensures Text(t)[0] != ')'
  {
  }

  lemma {:induction false} ParamsRead(d: string, i: nat, ts: seq<FieldType>)
    requires AllWellFormed(ts) && HasAt(d, i, Texts(ts) + ")")
    ensures ParseParams(d, i) == Some((Meanings(ts), i + |Texts(ts)|))
    decreases |ts|
  {
    hide HasAt, ParseFieldAt, WellFormed;
    if ts == [] {
      assert Texts(ts) + ")" == ")";
      CharsAt(d, i, ")", 0);
      assert i < |d| by { InString(d, i, ")"); }
    } else {
      var first, rest := Text(ts[0]), Texts(ts[1..]);
      assert Texts(ts) + ")" == first + (rest + ")");
      PartsAt(d, i, first, rest + ")");
      InString(d, i, first);
      FieldRead(d, i, ts[0]);
      CharsAt(d, i, first, 0);
      TextNotClosing(ts[0]);
      ParamsRead(d, i + |first|, ts[1..]);
      assert Meanings(ts) == [Meaning(ts[0])] + Meanings(ts[1..]);
    }
  }

  lemma {:induction false} InString(d: string, i: nat, text: string)
    requires HasAt(d, i, text)
    ensures i + |text| <= |d|
  {
  }

  /** The descriptor of a method. */
  function MethodText(params: seq<FieldType>, ret: Option<FieldType>): string {
    "(" + (Texts(params) + ")") + LastText(ret)
  }

  function LastText(ret: Option<FieldType>): (d: string)
    ensures d != ""
  {
    if ret.Some? then Text(ret.value) else "V"
  }

  /** What may stand behind a descriptor without the parser minding: anything, if the method is void. */
  predicate Tolerated(ret: Option<FieldType>, junk: string) {
    ret.Some? ==> WellFormed(ret.value) && junk == ""
  }

  lemma {:induction false} MethodParts(d: string, inner: string, last: string, junk: string)
    requires d == "(" + (inner + (last + junk)) && last != ""
    ensures d[0] == '(' && HasAt(d, 1, inner) && HasAt(d, 1 + |inner|, last)
    ensures 1 + |inner| < |d| == 1 + |inner| + |last| + |junk|
    ensures d[1 + |inner|] == last[0]
  {
    assert HasAt(d, 0, "(" + (inner + (last + junk)));
    PartsAt(d, 0, "(", inner + (last + junk));
    PartsAt(d, 1, inner, last + junk);
    PartsAt(d, 1 + |inner|, last, junk);
    CharsAt(d, 1 + |inner|, last, 0);
  }

  /** Every descriptor of the grammar is read as what it stands for. */
  lemma {:induction false} DescriptorRead(params: seq<FieldType>, ret: Option<FieldType>, junk: string)
    requires AllWellFormed(params) && Tolerated(ret, junk)
    ensures ParseMethodDescriptor(MethodText(params, ret) + junk) ==
            Some((Meanings(params), if ret.Some? then Some(Meaning(ret.value)) else None))
  {
    var last, inner := LastText(ret), Texts(params) + ")";
    var d := MethodText(params, ret) + junk;
    InParts(params, ret, junk);
    MethodParts(d, inner, last, junk);
    hide HasAt, ParseFieldAt, ParseParams, Text, Texts, MethodText, WellFormed;
    ParamsRead(d, 1, params);
    assert 1 + |Texts(params)| + 1 == 1 + |inner|;
    if ret.Some? {
      FieldRead(d, 1 + |inner|, ret.value);
      ReturnNotVoid(ret.value);
    }
  }

  lemma {:induction false} InParts(params: seq<FieldType>, ret: Option<FieldType>, junk: string)
    ensures MethodText(params, ret) + junk == "(" + ((Texts(params) + ")") + (LastText(ret) + junk))
  {
    hide Texts, Text;
    var inner, last := Texts(params) + ")", LastText(ret);
    assert ("(" + inner + last) + junk == "(" + (inner + (last + junk));
  }

  lemma {:induction false} ReturnNotVoid(t: FieldType)
    requires WellFormed(t)
    ensures Text(t)[0] != 'V'
  {
  }

  // ----- What is read is derived -----

  /** What the parser reads as a field type is one. */
  lemma {:induction false} FieldDerived(d: string, i: nat) returns (t: FieldType)
    requires ParseFieldAt(d, i).Some?
    ensures WellFormed(t) && d[i..ParseFieldAt(d, i).value.1] == Text(t) && Meaning(t) == ParseFieldAt(d, i).value.0
    decreases |d| - i
  {
    if Primitive(d[i]).Some? {
      t := Base(d[i]);
    } else if d[i] == 'L' {
      var end := FindFrom(d, ';', i);
      t := Class(d[i + 1..end]);
      assert d[i..end + 1] == "L" + d[i + 1..end] + ";";
    } else {
      t := ArrayDerived(d, i);
    }
  }

  /** Brackets, and an element type behind the last. */
  lemma {:induction false} ArrayDerived(d: string, i: nat) returns (t: FieldType)
    requires i < |d| && d[i] == '[' && ParseFieldAt(d, i).Some?
    ensures WellFormed(t) && t.Array? && d[i..ParseFieldAt(d, i).value.1] == Text(t)
    ensures Meaning(t) == ParseFieldAt(d, i).value.0
    decreases |d| - i, 0
  {
    var next := ParseFieldAt(d, i).value.1;
    assert i + 1 < |d|;
    ArrayRead(d, i);
    hide ParseFieldAt;
    var of := FieldDerived(d, i + 1);
    t := Array(of);
    assert d[i..next] == "[" + d[i + 1..next];
  }

  lemma {:induction false} ParamsDerived(d: string, i: nat) returns (ts: seq<FieldType>)
    requires i <= |d| && ParseParams(d, i).Some?
    ensures AllWellFormed(ts) && d[i..ParseParams(d, i).value.1] == Texts(ts)
    ensures Meanings(ts) == ParseParams(d, i).value.0
    decreases |d| - i
  {
    if d[i] == ')' {
      ts := [];
    } else {
      var next := ParseFieldAt(d, i).value.1;
      var t := FieldDerived(d, i);
      var rest := ParamsDerived(d, next);
      ts := [t] + rest;
      var end := ParseParams(d, next).value.1;
      assert d[i..end] == d[i..next] + d[next..end];
      assert Meanings(ts) == [Meaning(t)] + Meanings(rest);
    }
  }

  /** What a descriptor says: its derivation, and what stands behind it. */
  ghost predicate Derives(d: string, params: seq<FieldType>, ret: Option<FieldType>, junk: string) {
    AllWellFormed(params) && Tolerated(ret, junk) && d == MethodText(params, ret) + junk
  }

  lemma {:induction false} DescriptorDerived(d: string)
    returns (params: seq<FieldType>, ret: Option<FieldType>, junk: string)
    requires ParseMethodDescriptor(d).Some?
    ensures Derives(d, params, ret, junk)
  {
    hide ParseParams, ParseFieldAt, Texts, Text, WellFormed, AllWellFormed;
    params := ParamsDerived(d, 1);
    var end := ParseParams(d, 1).value.1;
    assert d[..end + 1] == "(" + (Texts(params) + ")");
    if end + 1 < |d| && d[end + 1] == 'V' {
      ret, junk := None, d[end + 2..];
      assert d == d[..end + 1] + "V" + d[end + 2..];
    } else {
      var t := FieldDerived(d, end + 1);
      ret, junk := Some(t), "";
      assert d == d[..end + 1] + d[end + 1..] && d[end + 1..] == d[end + 1..|d|];
    }
  }

  /**
   The verifier accepts a descriptor if and only if the grammar derives it, up to what may
   stand behind a void one; and the grammar derives it as what the verifier makes of it.
   */
  lemma {:induction false} DescriptorAcceptedIff(d: string)
    ensures ParseMethodDescriptor(d).Some? <==> exists params, ret, junk :: Derives(d, params, ret, junk)
    ensures forall params, ret, junk :: Derives(d, params, ret, junk) ==>
              ParseMethodDescriptor(d) ==
              Some((Meanings(params), if ret.Some? then Some(Meaning(ret.value)) else None))
  {
    hide ParseMethodDescriptor, MethodText, AllWellFormed, Tolerated;
    if ParseMethodDescriptor(d).Some? {
      var params, ret, junk := DescriptorDerived(d);
    }
    forall params, ret, junk | Derives(d, params, ret, junk)
      ensures ParseMethodDescriptor(d) ==
              Some((Meanings(params), if ret.Some? then Some(Meaning(ret.value)) else None))
    {
      DescriptorRead(params, ret, junk);
    }
  }
}
