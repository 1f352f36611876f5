/** The verifier's type lattice, frame states, and their merges. */
module VerifyTypes {
  import opened Wrappers

  datatype VerifyType =
    | Top
    | Int
    | Float
    | Long
    | Double
    | Null
    | ReturnAddress(pc: nat)
    | Reference(name: Option<string>)
    | UninitializedThis
    | Uninitialized(offset: nat)

  predicate IsWide(t: VerifyType) {
    t.Long? || t.Double?
  }

  /** `a` is at least as precise as `b`: whatever a describes, b describes too. */
  predicate Below(a: VerifyType, b: VerifyType) {
    || a == b
    || b.Top?
    || (a.Null? && b.Reference?)
    || (a.Reference? && b == Reference(None))
  }

  /** Distance of a type from Top along the longest ascending chain. */
  function Rank(t: VerifyType): nat {
    match t
    case Null => 3
    case Reference(Some(_)) => 2
    case Top => 0
    case _ => 1
  }

  /** The join the verifier computes where control flow meets; None when it rejects. */
  function MergeType(left: VerifyType, right: VerifyType): Option<VerifyType> {
    if left == right then Some(left)
    else if left.Top? || right.Top? then Some(Top)
    else match (left, right)
      case (Null, Reference(name)) => Some(Reference(name))
      case (Reference(name), Null) => Some(Reference(name))
      case (Reference(_), Reference(_)) => Some(Reference(None))
      case _ => None
  }

  lemma {:induction false} BelowTransitive(a: VerifyType, b: VerifyType, c: VerifyType)
    requires Below(a, b) && Below(b, c)
    ensures Below(a, c)
  {
  }

  /** A step up the lattice always costs rank, so no chain has more than three steps. */
  lemma {:induction false} StrictlyBelowLosesRank(a: VerifyType, b: VerifyType)
    requires Below(a, b) && a != b
    ensures Rank(b) < Rank(a) <= 3
    ensures !Below(b, a)
  {
  }

  /** A merge that succeeds is the least upper bound of its arguments. */
  lemma {:induction false} MergeIsLeastUpperBound(a: VerifyType, b: VerifyType, u: VerifyType)
    requires MergeType(a, b).Some?
    ensures Below(a, MergeType(a, b).value) && Below(b, MergeType(a, b).value)
    ensures Below(a, u) && Below(b, u) ==> Below(MergeType(a, b).value, u)
  {
  }

  /** A merge fails exactly when Top is the only upper bound and neither argument is Top. */
  lemma {:induction false} MergeFailsIff(a: VerifyType, b: VerifyType)
    ensures MergeType(a, b).None? <==>
            a != Top && b != Top && forall u :: Below(a, u) && Below(b, u) ==> u == Top
  {
    if a != Top && b != Top && MergeType(a, b).Some? {
      MergeIsLeastUpperBound(a, b, Top);
      assert Below(a, MergeType(a, b).value) && Below(b, MergeType(a, b).value);
    }
  }

  /** Merging two types into a recorded one, in turn. */
  function MergeTwo(t: VerifyType, a: VerifyType, b: VerifyType): Option<VerifyType> {
    match MergeType(t, a) case None => None case Some(u) => MergeType(u, b)
  }

  /**
   The order in which two types arrive matters exactly when one of them is Top and the
   other does not merge with what is recorded: if Top comes first it hides the conflict.
   */
  lemma {:induction false} MergeOrderIff(t: VerifyType, a: VerifyType, b: VerifyType)
    ensures MergeTwo(t, a, b) == MergeTwo(t, b, a)
            <==> !((a.Top? && MergeType(t, b).None?) || (b.Top? && MergeType(t, a).None?))
  {
  }

  datatype FrameState = FrameState(locals: seq<VerifyType>, stack: seq<VerifyType>)

  ghost predicate AllBelow(a: seq<VerifyType>, b: seq<VerifyType>) {
    |a| == |b| && forall i :: 0 <= i < |a| ==> Below(a[i], b[i])
  }

  ghost predicate StateBelow(s: FrameState, t: FrameState) {
    AllBelow(s.locals, t.locals) && AllBelow(s.stack, t.stack)
  }

  function Mergeable(a: seq<VerifyType>, b: seq<VerifyType>): bool
    requires |a| == |b|
  {
    forall i :: 0 <= i < |a| ==> MergeType(a[i], b[i]).Some?
  }

  function MergeAll(a: seq<VerifyType>, b: seq<VerifyType>): (r: seq<VerifyType>)
    requires |a| == |b| && Mergeable(a, b)
    ensures |r| == |a|
  {
    seq(|a|, i requires 0 <= i < |a| => MergeType(a[i], b[i]).value)
  }

  /** Locals padded with Top up to length n. */
  function Padded(locals: seq<VerifyType>, n: nat): (r: seq<VerifyType>)
    requires |locals| <= n
    ensures |r| == n
  {
    locals + seq(n - |locals|, _ => Top)
  }

  function MaxLen(a: seq<VerifyType>, b: seq<VerifyType>): nat {
    if |a| < |b| then |b| else |a|
  }

  /** The merge of a recorded state with an incoming one; None when the verifier rejects. */
  function MergeStates(existing: FrameState, incoming: FrameState): Option<FrameState> {
    var n := MaxLen(existing.locals, incoming.locals);
    var a := Padded(existing.locals, n);
    var b := Padded(incoming.locals, n);
    if |existing.stack| == |incoming.stack| && Mergeable(a, b) && Mergeable(existing.stack, incoming.stack)
    then Some(FrameState(MergeAll(a, b), MergeAll(existing.stack, incoming.stack)))
    else None
  }

  lemma {:induction false} AllBelowTransitive(a: seq<VerifyType>, b: seq<VerifyType>, c: seq<VerifyType>)
    requires AllBelow(a, b) && AllBelow(b, c)
    ensures AllBelow(a, c)
  {
    forall i | 0 <= i < |a| ensures Below(a[i], c[i]) {
      BelowTransitive(a[i], b[i], c[i]);
    }
  }

  lemma {:induction false} StateBelowTransitive(a: FrameState, b: FrameState, c: FrameState)
    requires StateBelow(a, b) && StateBelow(b, c)
    ensures StateBelow(a, c)
  {
    AllBelowTransitive(a.locals, b.locals, c.locals);
    AllBelowTransitive(a.stack, b.stack, c.stack);
  }

  lemma {:induction false} StateBelowAntisymmetric(a: FrameState, b: FrameState)
    requires StateBelow(a, b) && StateBelow(b, a)
    ensures a == b
  {
    forall i | 0 <= i < |a.locals| ensures a.locals[i] == b.locals[i] {
      assert Below(a.locals[i], b.locals[i]) && Below(b.locals[i], a.locals[i]);
    }
    forall i | 0 <= i < |a.stack| ensures a.stack[i] == b.stack[i] {
      assert Below(a.stack[i], b.stack[i]) && Below(b.stack[i], a.stack[i]);
    }
    assert a.locals == b.locals && a.stack == b.stack;
  }

  lemma {:induction false} MergeAllIsLeastUpperBound(a: seq<VerifyType>, b: seq<VerifyType>, u: seq<VerifyType>)
    requires |a| == |b| && Mergeable(a, b)
    ensures AllBelow(a, MergeAll(a, b)) && AllBelow(b, MergeAll(a, b))
    ensures AllBelow(a, u) && AllBelow(b, u) ==> AllBelow(MergeAll(a, b), u)
  {
    var m := MergeAll(a, b);
    forall i | 0 <= i < |a| ensures Below(a[i], m[i]) && Below(b[i], m[i]) {
      MergeIsLeastUpperBound(a[i], b[i], Top);
    }
    if AllBelow(a, u) && AllBelow(b, u) {
      forall i | 0 <= i < |a| ensures Below(m[i], u[i]) {
        MergeIsLeastUpperBound(a[i], b[i], u[i]);
      }
    }
  }

  /** For states of one shape, merging yields the least state above both. */
  lemma {:induction false} MergeStatesIsLeastUpperBound(a: FrameState, b: FrameState, u: FrameState)
    requires |a.locals| == |b.locals|
    requires MergeStates(a, b).Some?
    ensures |MergeStates(a, b).value.locals| == |a.locals|
    ensures StateBelow(a, MergeStates(a, b).value) && StateBelow(b, MergeStates(a, b).value)
    ensures StateBelow(a, u) && StateBelow(b, u) ==> StateBelow(MergeStates(a, b).value, u)
  {
    assert Padded(a.locals, |a.locals|) == a.locals;
    assert Padded(b.locals, |b.locals|) == b.locals;
    MergeAllIsLeastUpperBound(a.locals, b.locals, u.locals);
    MergeAllIsLeastUpperBound(a.stack, b.stack, u.stack);
  }

  /** Total rank of a sequence of types: how many steps up its slots can still take. */
  ghost function Ranks(ts: seq<VerifyType>): nat {
    if ts == [] then 0 else Rank(ts[0]) + Ranks(ts[1..])
  }

  ghost function StateRank(s: FrameState): nat {
    Ranks(s.locals) + Ranks(s.stack)
  }

  lemma RanksBound(ts: seq<VerifyType>)
    ensures Ranks(ts) <= 3 * |ts|
  {
  }

  lemma {:induction false} AllBelowLosesRank(a: seq<VerifyType>, b: seq<VerifyType>)
    requires AllBelow(a, b)
    ensures Ranks(b) <= Ranks(a)
    ensures a != b ==> Ranks(b) < Ranks(a)
  {
    if a != [] {
      assert Below(a[0], b[0]);
      if a[0] != b[0] {
        StrictlyBelowLosesRank(a[0], b[0]);
      } else {
        assert a == [a[0]] + a[1..] && b == [b[0]] + b[1..];
      }
      AllBelowLosesRank(a[1..], b[1..]);
    }
  }

  /** Every change a merge makes to a recorded state lowers the state's rank. */
  lemma {:induction false} MergeLosesRank(a: FrameState, b: FrameState)
    requires StateBelow(a, b) && a != b
    ensures StateRank(b) < StateRank(a)
  {
    AllBelowLosesRank(a.locals, b.locals);
    AllBelowLosesRank(a.stack, b.stack);
  }
}
