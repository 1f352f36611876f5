/**
 Instructions against independent definitions: division against the law of the language,
 and the stack shuffles against the forms of section 6.5 of the JVM specification.
 */
module InstructionFacts {
  import opened Wrappers
  import opened Words
  import opened Bytecode
  import opened Program
  import opened Transfer
  import opened Machine
  import opened Conformance

  // ----- Division -----

  lemma {:induction false} WrapInRange(x: int)
    requires -0x8000_0000 <= x < 0x8000_0000
    ensures Wrap32(x) == x
  {
  }

  lemma {:induction false} SignedProduct(b: int, q: int)
    ensures b * q == if b < 0 then -(Abs(b) * q) else Abs(b) * q
    ensures b * (-q) == -(b * q)
  {
  }

  /** Truncating division is division of the magnitudes, with the signs put back. */
  lemma {:induction false} RemainderOfMagnitudes(a: int, b: int)
    requires b != 0
    ensures var rest := Abs(a) - Abs(b) * (Abs(a) / Abs(b));
            TruncRem(a, b) == if a < 0 then -rest else rest
  {
    var q := Abs(a) / Abs(b);
    SignedProduct(b, q);
    assert TruncDiv(a, b) == if (a < 0) == (b < 0) then q else -q;
  }

  lemma {:induction false} MagnitudeDivision(m: nat, n: nat)
    requires n >= 1
    ensures 0 <= m - n * (m / n) < n && m / n <= m
  {
    if m / n > m {
      QuotientTooLarge(m, n, m / n);
    }
  }

  lemma {:induction false} TruncationLaw(a: int, b: int)
    requires b != 0
    ensures a == TruncDiv(a, b) * b + TruncRem(a, b)
    ensures Abs(TruncRem(a, b)) < Abs(b)
    ensures TruncRem(a, b) == 0 || (TruncRem(a, b) < 0) == (a < 0)
    ensures Abs(TruncDiv(a, b)) <= Abs(a)
  {
    RemainderOfMagnitudes(a, b);
    MagnitudeDivision(Abs(a), Abs(b));
    assert a == b * TruncDiv(a, b) + TruncRem(a, b);
    hide TruncRem;
  }

  lemma {:induction false} QuotientTooLarge(m: nat, n: nat, q: nat)
    requires n >= 1 && q > m
    ensures q * n > m
  {
    assert q * n >= q * 1;
  }

  /**
   The quotient and remainder of int division recombine to the dividend, including the one
   quotient that does not fit, and the remainder is smaller than the divisor and takes the
   dividend's sign.
   */
  lemma {:induction false} DivisionLaw(a: i32, b: i32)
    requires b != 0
    ensures var q, r := IntArith(Div, a, b), IntArith(Rem, a, b);
            && Wrap32(q * b + r) == a
            && Abs(r) < Abs(b)
            && (r == 0 || (r < 0) == (a < 0))
            && (q * b + r == a <==> !(a == -0x8000_0000 && b == -1))
  {
    TruncationLaw(a, b);
    WrapInRange(TruncRem(a, b));
    if a == -0x8000_0000 && b == -1 {
      assert TruncDiv(a, b) == 0x8000_0000;
    } else {
      QuotientFits(a, b);
      WrapInRange(TruncDiv(a, b));
      WrapInRange(a);
    }
  }

  lemma {:induction false} QuotientFits(a: i32, b: i32)
    requires b != 0 && !(a == -0x8000_0000 && b == -1)
    ensures -0x8000_0000 <= TruncDiv(a, b) < 0x8000_0000
  {
    TruncationLaw(a, b);
  }

  // ----- Bitwise operations -----

  /** Bit k of a number. */
  function BitAt(x: nat, k: nat): (r: nat)
    ensures r < 2
    decreases k
  {
    if k == 0 then x % 2 else BitAt(x / 2, k - 1)
  }

  lemma {:induction false} BitwiseLowByBits(op: Bitwise, x: nat, y: nat, n: nat, k: nat)
    requires k < n
    ensures BitAt(BitwiseLow(op, x, y, n), k) == BitResult(op, BitAt(x, k), BitAt(y, k))
    decreases n
  {
    var high := BitwiseLow(op, x / 2, y / 2, n - 1);
    assert BitwiseLow(op, x, y, n) % 2 == BitResult(op, x % 2, y % 2);
    assert BitwiseLow(op, x, y, n) / 2 == high;
    if k > 0 {
      BitwiseLowByBits(op, x / 2, y / 2, n - 1, k - 1);
    }
  }

  lemma {:induction false} BitwiseLowBound(op: Bitwise, x: nat, y: nat, n: nat)
    ensures BitwiseLow(op, x, y, n) < Pow2(n)
    decreases n
  {
    if n > 0 {
      BitwiseLowBound(op, x / 2, y / 2, n - 1);
    }
  }

  lemma {:induction false} PowerOfSum(m: nat, n: nat)
    ensures Pow2(m + n) == Pow2(m) * Pow2(n)
    decreases m
  {
    if m > 0 {
      PowerOfSum(m - 1, n);
      assert Pow2(m) * Pow2(n) == 2 * (Pow2(m - 1) * Pow2(n));
    }
  }

  lemma {:induction false} PowersOfTwo()
    ensures Pow2(32) == TWO_32 && Pow2(64) == TWO_64
  {
    assert Pow2(8) == 0x100;
    PowerOfSum(8, 8);
    PowerOfSum(16, 16);
    PowerOfSum(32, 32);
  }

  /** Bit k of a 32-bit word, two's complement. */
  function Bit32(a: i32, k: nat): nat {
    BitAt(a % TWO_32, k)
  }

  function Bit64(a: i64, k: nat): nat {
    BitAt(a % TWO_64, k)
  }

  /**
   Each bit of the bitwise and, or or exclusive or of two ints, the sign bit included, is
   the operation on the same bit of the operands.
   */
  lemma {:induction false} BitwiseByBits32(op: Bitwise, a: i32, b: i32, k: nat)
    requires k < 32
    ensures Bit32(IntArith(Bits(op), a, b), k) == BitResult(op, Bit32(a, k), Bit32(b, k))
  {
    hide BitwiseLow, BitAt, BitResult, Pow2;
    PowersOfTwo();
    BitwiseLowByBits(op, a % TWO_32, b % TWO_32, 32, k);
    BitwiseLowBound(op, a % TWO_32, b % TWO_32, 32);
  }

  /** The same of two longs. */
  lemma {:induction false} BitwiseByBits64(op: Bitwise, a: i64, b: i64, k: nat)
    requires k < 64
    ensures Bit64(LongArith(Bits(op), a, b), k) == BitResult(op, Bit64(a, k), Bit64(b, k))
  {
    hide BitwiseLow, BitAt, BitResult, Pow2;
    PowersOfTwo();
    BitwiseLowByBits(op, a % TWO_64, b % TWO_64, 64, k);
    BitwiseLowBound(op, a % TWO_64, b % TWO_64, 64);
  }

  // ----- Lookupswitch -----

  /** The first pair of a lookupswitch that has the key. */
  ghost predicate IsFirstPair(pairs: seq<(i32, i32)>, key: i32, k: nat) {
    k < |pairs| && pairs[k].0 == key && forall j :: 0 <= j < k ==> pairs[j].0 != key
  }

  /** A lookupswitch takes the first pair with its key. */
  lemma {:induction false} LookupTakesFirst(pairs: seq<(i32, i32)>, key: i32, default: i32, k: nat)
    requires IsFirstPair(pairs, key, k)
    ensures LookupOffset(pairs, key, default) == pairs[k].1
    decreases |pairs|
  {
    if k > 0 {
      LookupTakesFirst(pairs[1..], key, default, k - 1);
    }
  }

  /** Without a pair for its key it takes the default. */
  lemma {:induction false} LookupTakesDefault(pairs: seq<(i32, i32)>, key: i32, default: i32)
    requires forall j :: 0 <= j < |pairs| ==> pairs[j].0 != key
    ensures LookupOffset(pairs, key, default) == default
    decreases |pairs|
  {
    if pairs != [] {
      LookupTakesDefault(pairs[1..], key, default);
    }
  }

  /** Whatever the key, the offset taken is the default or one of the pairs'. */
  lemma {:induction false} LookupOffsetListed(pairs: seq<(i32, i32)>, key: i32, default: i32)
    ensures LookupOffset(pairs, key, default) == default ||
            exists k :: 0 <= k < |pairs| && pairs[k].1 == LookupOffset(pairs, key, default)
    decreases |pairs|
  {
    if pairs != [] && pairs[0].0 != key {
      LookupOffsetListed(pairs[1..], key, default);
      if LookupOffset(pairs, key, default) != default {
        var k :| 0 <= k < |pairs[1..]| && pairs[1..][k].1 == LookupOffset(pairs[1..], key, default);
        assert pairs[k + 1].1 == LookupOffset(pairs, key, default);
      }
    }
  }

  // ----- Shuffles -----

  /** The form section 6.5 of the JVM specification defines for the widths on the stack, topmost first. */
  function JvmsForm(op: ShuffleOp, w: seq<bool>): Option<Form> {
    var narrow := k => 0 <= k < |w| && !w[k];
    var wide := k => 0 <= k < |w| && w[k];
    match op
    case Pop => if narrow(0) then Some(Form(1, [])) else None
    case Pop2 =>
      if wide(0) then Some(Form(1, [])) else if narrow(0) && narrow(1) then Some(Form(2, [])) else None
    case Dup => if narrow(0) then Some(Form(1, [0, 0])) else None
    case DupX1 => if narrow(0) && narrow(1) then Some(Form(2, [0, 1, 0])) else None
    case DupX2 =>
      if narrow(0) && narrow(1) && narrow(2) then Some(Form(3, [0, 2, 1, 0]))
      else if narrow(0) && wide(1) then Some(Form(2, [0, 1, 0])) else None
    case Dup2 =>
      if narrow(0) && narrow(1) then Some(Form(2, [1, 0, 1, 0])) else if wide(0) then Some(Form(1, [0, 0])) else None
    case Dup2X1 =>
      if narrow(0) && narrow(1) && narrow(2) then Some(Form(3, [1, 0, 2, 1, 0]))
      else if wide(0) && narrow(1) then Some(Form(2, [0, 1, 0])) else None
    case Dup2X2 =>
      if narrow(0) && narrow(1) && narrow(2) && narrow(3) then Some(Form(4, [1, 0, 3, 2, 1, 0]))
      else if wide(0) && narrow(1) && narrow(2) then Some(Form(3, [0, 2, 1, 0]))
      else if narrow(0) && narrow(1) && wide(2) then Some(Form(3, [1, 0, 2, 1, 0]))
      else if wide(0) && wide(1) then Some(Form(2, [0, 1, 0])) else None
    case Swap => if narrow(0) && narrow(1) then Some(Form(2, [0, 1])) else None
  }

  /** The verifier takes a form the specification does not have, or refuses one it has. */
  predicate Departs(op: ShuffleOp, w: seq<bool>) {
    || (op.Pop? && |w| >= 1 && w[0])
    || (op.Dup2X2? && |w| >= 3 && !w[0] && w[1] != w[2])
  }

  /**
   The verifier selects the specified form of every shuffle except in two cases: pop also
   takes a two-word value, and dup2_x2 refuses a two-word value under two one-word ones
   but takes one between one-word ones.
   */
  lemma {:induction false} ShuffleSpecifiedIff(op: ShuffleOp, w: seq<bool>)
    ensures VerifierForm(op, w) == JvmsForm(op, w) <==> !Departs(op, w)
  {
  }

  /** Run on values, a shuffle in a specified form puts back exactly the specified values. */
  lemma {:induction false} ShuffleRunsAsSpecified(f: FrameV, op: ShuffleOp)
    requires !Departs(op, ValueWides(f.stack)) && JvmsForm(op, ValueWides(f.stack)).Some?
    ensures var form := JvmsForm(op, ValueWides(f.stack)).value;
            && form.take <= |f.stack| && FormOk(form)
            && (|f.stack| - form.take + |form.put| <= f.m.maxStack ==>
                  ExecShuffle(f, op) ==
                  Ok(f.(stack := f.stack[..|f.stack| - form.take] + PutValues(f.stack, Move(form.take, form.put)))))
  {
    hide VerifierForm, InterpreterMove, JvmsForm, Departs;
    var w := ValueWides(f.stack);
    ShuffleSpecifiedIff(op, w);
    MovesAgree(op, w);
  }
}
