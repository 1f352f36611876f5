/**
 What integer arithmetic leaves on the stack: sums, differences and products modulo the word
 size, quotients and remainders, and shifts and bitwise operations bit by bit.
 */
module Arithmetic {
  import opened Wrappers
  import opened Words
  import opened Bytecode
  import opened Program
  import opened Machine
  import opened InstructionFacts

  // ----- Bits of shifted words -----

  lemma {:induction false} NonzeroMultiple(n: int, d: int)
    requires n > 0
    ensures d != 0 ==> n * d >= n || n * d <= -n
  {
    if d >= 1 {
      assert n * (d - 1) >= 0;
    } else if d <= -1 {
      assert n * (-1 - d) >= 0;
    }
  }

  lemma {:induction false} Difference(n: int, p: int, q: int)
    ensures n * (q - p) == n * q - n * p
  {
  }

  lemma {:induction false} QuotientIs(x: int, n: int, q: int, r: int)
    requires n > 0 && x == n * q + r && 0 <= r < n
    ensures x / n == q && x % n == r
  {
    Difference(n, x / n, q);
    var d := q - x / n;
    assert n * d == x % n - r by {
      assert x == n * (x / n) + x % n;
    }
    NonzeroMultiple(n, d);
  }

  lemma {:induction false} Distributed(m: int, a: int, b: int)
    ensures m * (a + b) == m * a + m * b
  {
  }

  lemma {:induction false} Regrouped(m: int, n: int, p: int)
    ensures m * (n * p) == (m * n) * p
  {
  }

  lemma {:induction false} Nested(m: int, n: int, p: int, t: int)
    requires m > 0 && n > 0 && 0 <= t < n
    ensures m * (n * p + t) == (m * n) * p + m * t
    ensures 0 <= m * t <= m * n - m && m * n > 0
  {
    Distributed(m, n * p, t);
    Regrouped(m, n, p);
    Distributed(m, n - 1 - t, t + 1);
    Distributed(m, t, 1);
    NotNegative(m, n - 1 - t);
    NotNegative(m, t);
  }

  lemma {:induction false} NotNegative(m: int, n: int)
    requires m >= 0 && n >= 0
    ensures m * n >= 0
  {
  }

  /** Division of a natural number, as one. */
  function Quotient(x: nat, n: int): (q: nat)
    requires n > 0
    ensures q == x / n
  {
    x / n
  }

  lemma {:induction false} DivideTwice(x: int, m: int, n: int)
    requires m > 0 && n > 0
    ensures m * n > 0 && (x / m) / n == x / (m * n)
  {
    var q, r := x / m, x % m;
    var p, t := q / n, q % n;
    Nested(m, n, p, t);
    var both := m * n;
    assert x == both * p + (m * t + r) by {
      assert q == n * p + t && x == m * q + r;
    }
    QuotientIs(x, both, p, m * t + r);
  }

  /** Halving a word with one bit more. */
  lemma {:induction false} ModHalved(x: int, m: int)
    requires m > 0
    ensures (x % (2 * m)) / 2 == (x / 2) % m && (x % (2 * m)) % 2 == x % 2
  {
    var q, r := x / (2 * m), x % (2 * m);
    assert x == 2 * (m * q) + r;
    assert x / 2 == m * q + r / 2;
    QuotientIs(x / 2, m, q, r / 2);
  }

  /** The low bits of a number are those of its remainder. */
  lemma {:induction false} BitAtMod(x: nat, n: nat, k: nat)
    requires k < n
    ensures BitAt(x % Pow2(n), k) == BitAt(x, k)
    decreases n
  {
    var m := Pow2(n - 1);
    ModHalved(x, m);
    if k > 0 {
      BitAtMod(x / 2, n - 1, k - 1);
    }
  }

  lemma {:induction false} BitAtTimes(x: nat, s: nat, k: nat)
    ensures BitAt(x * Pow2(s), k) == if k < s then 0 else BitAt(x, k - s)
    decreases s
  {
    if s > 0 {
      var half := x * Pow2(s - 1);
      assert x * Pow2(s) == 2 * half;
      assert (2 * half) / 2 == half && (2 * half) % 2 == 0;
      if k > 0 {
        BitAtTimes(x, s - 1, k - 1);
      }
    }
  }

  lemma {:induction false} BitAtDivided(x: nat, s: nat, k: nat)
    ensures BitAt(Quotient(x, Pow2(s)), k) == BitAt(x, k + s)
    decreases s
  {
    if s > 0 {
      var p := Pow2(s - 1);
      assert Pow2(s) == 2 * p;
      assert BitAt(x, k + s) == BitAt(x / 2, k + s - 1);
      hide Pow2, BitAt;
      DivideTwice(x, 2, p);
      BitAtDivided(x / 2, s - 1, k);
    }
  }

  /** A number below a power of two has no bits from there on. */
  lemma {:induction false} BitAtBeyond(x: nat, n: nat, k: nat)
    requires x < Pow2(n) && k >= n
    ensures BitAt(x, k) == 0
    decreases k
  {
    if k > 0 {
      if n > 0 {
        BitAtBeyond(x / 2, n - 1, k - 1);
      } else {
        BitAtBeyond(0, 0, k - 1);
      }
    }
  }

  lemma {:induction false} BitAtTop(x: nat, n: nat, k: nat)
    requires x < Pow2(n) && k <= n
    ensures BitAt(x + Pow2(n), k) == if k < n then BitAt(x, k) else 1
    decreases n
  {
    if n > 0 {
      var m := Pow2(n - 1);
      assert (x + 2 * m) / 2 == x / 2 + m && (x + 2 * m) % 2 == x % 2;
      if k > 0 {
        BitAtTop(x / 2, n - 1, k - 1);
      }
    }
  }

  /** The word of n bits that holds a number, two's complement. */
  function Unsigned(x: int, n: nat): nat {
    x % Pow2(n)
  }

  predicate Fits(x: int, n: nat)
    requires n >= 1
  {
    -Pow2(n - 1) <= x < Pow2(n - 1)
  }

  lemma {:induction false} UnsignedIs(x: int, n: nat)
    requires n >= 1 && Fits(x, n)
    ensures Unsigned(x, n) == if x < 0 then x + Pow2(n) else x
    ensures Pow2(n) == 2 * Pow2(n - 1)
  {
    QuotientIs(x, Pow2(n), if x < 0 then -1 else 0, if x < 0 then x + Pow2(n) else x);
  }

  /** Shifting left moves every bit up and fills with zeros from below. */
  lemma {:induction false} ShiftedLeft(x: int, n: nat, s: nat, k: nat)
    requires n >= 1 && Fits(x, n) && k < n
    ensures BitAt(Unsigned(x * Pow2(s), n), k) == if k < s then 0 else BitAt(Unsigned(x, n), k - s)
  {
    UnsignedIs(x, n);
    var u, p, m := Unsigned(x, n), Pow2(s), Pow2(n);
    hide Pow2, BitAt;
    ShiftedRemainder(x, u, p, m);
    BitAtMod(u * p, n, k);
    BitAtTimes(u, s, k);
  }

  lemma {:induction false} ShiftedRemainder(x: int, u: nat, p: int, m: int)
    requires m > 0 && p > 0 && (u == x || u == x + m)
    ensures u * p >= 0 && (x * p) % m == (u * p) % m
  {
    if u == x + m {
      assert x * p == u * p - m * p;
      SameRemainder(u * p, m, p);
    }
  }

  lemma {:induction false} SameRemainder(x: int, m: int, q: int)
    requires m > 0
    ensures (x - m * q) % m == x % m
  {
    var p, r := x / m, x % m;
    assert x == m * p + r;
    assert x - m * q == m * (p - q) + r;
    QuotientIs(x - m * q, m, p - q, r);
  }

  /** Halving a signed word moves every bit down and copies the sign. */
  lemma {:induction false} Halved(x: int, n: nat, k: nat)
    requires n >= 1 && Fits(x, n) && k < n
    ensures Fits(x / 2, n)
    ensures BitAt(Unsigned(x / 2, n), k) == BitAt(Unsigned(x, n), if k + 1 < n then k + 1 else n - 1)
  {
    UnsignedIs(x, n);
    UnsignedIs(x / 2, n);
    var u, m := Unsigned(x, n), Pow2(n - 1);
    if x < 0 {
      assert Unsigned(x / 2, n) == u / 2 + m;
      BitAtTop(u / 2, n - 1, k);
      if k == n - 1 {
        assert u == (u - m) + m;
        BitAtTop(u - m, n - 1, n - 1);
      }
    } else if k == n - 1 {
      BitAtBeyond(u, n - 1, n - 1);
      BitAtBeyond(u / 2, n - 1, n - 1);
    }
  }

  /** Shifting right moves every bit down and fills with copies of the sign. */
  lemma {:induction false} ShiftedRight(x: int, n: nat, s: nat, k: nat)
    requires n >= 1 && Fits(x, n) && k < n
    ensures Fits(x / Pow2(s), n)
    ensures BitAt(Unsigned(x / Pow2(s), n), k) == BitAt(Unsigned(x, n), if k + s < n then k + s else n - 1)
    decreases s
  {
    if s > 0 {
      DivideTwice(x, 2, Pow2(s - 1));
      Halved(x, n, k);
      ShiftedRight(x / 2, n, s - 1, k);
      Halved(x, n, if k + s - 1 < n then k + s - 1 else n - 1);
    }
  }

  lemma {:induction false} UnsignedBelow(x: int, n: nat)
    ensures Unsigned(x, n) < Pow2(n)
  {
  }

  /** Shifting right without a sign moves every bit down and fills with zeros from above. */
  lemma {:induction false} ShiftedUnsigned(x: int, n: nat, s: nat, k: nat)
    requires n >= 1 && Fits(x, n) && k < n
    ensures var y := Quotient(Unsigned(x, n), Pow2(s));
            BitAt(Unsigned(y, n), k) == if k + s < n then BitAt(Unsigned(x, n), k + s) else 0
  {
    UnsignedIs(x, n);
    var u := Unsigned(x, n);
    hide Pow2, BitAt, Unsigned, Fits;
    BitAtMod(Quotient(u, Pow2(s)), n, k);
    BitAtDivided(u, s, k);
    assert u < Pow2(n) by { UnsignedBelow(x, n); }
    if k + s >= n {
      BitAtBeyond(u, n, k + s);
    }
  }

  // ----- What an operation computes -----

  predicate Congruent(r: int, x: int, m: int)
    requires m > 0
  {
    (r - x) % m == 0
  }

  /** q and r are the quotient and remainder of truncating division. */
  predicate Truncated(a: int, b: int, q: int, r: int) {
    a == q * b + r && Abs(r) < Abs(b) && (r == 0 || (r < 0) == (a < 0))
  }

  predicate BitLaw(op: Bitwise, x: nat, y: nat, z: nat) {
    match op
    case And => z == 1 <==> x == 1 && y == 1
    case Or => z == 1 <==> x == 1 || y == 1
    case Xor => z == 1 <==> x != y
  }

  /** What section 6.5 of the JVM specification says of an operation on words of n bits. */
  ghost predicate Computes(op: BinaryOp, n: nat, a: int, b: int, r: int)
    requires n >= 1
  {
    match op
    case Add => Congruent(r, a + b, Pow2(n))
    case Sub => Congruent(r, a - b, Pow2(n))
    case Mul => Congruent(r, a * b, Pow2(n))
    case Div => exists q, rest :: Truncated(a, b, q, rest) && Congruent(r, q, Pow2(n))
    case Rem => exists q :: Truncated(a, b, q, r)
    case Shl => forall k: nat :: k < n ==>
                  BitAt(Unsigned(r, n), k) == if k < b % n then 0 else BitAt(Unsigned(a, n), k - b % n)
    case Shr => forall k: nat :: k < n ==>
                  BitAt(Unsigned(r, n), k) == BitAt(Unsigned(a, n), if k + b % n < n then k + b % n else n - 1)
    case Ushr => forall k: nat :: k < n ==>
                   BitAt(Unsigned(r, n), k) == if k + b % n < n then BitAt(Unsigned(a, n), k + b % n) else 0
    case Bits(bit) => forall k: nat :: k < n ==>
                        BitLaw(bit, BitAt(Unsigned(a, n), k), BitAt(Unsigned(b, n), k), BitAt(Unsigned(r, n), k))
  }

  // ----- No other word will do -----

  /** A word is its bits. */
  lemma {:induction false} BitsDetermine(x: nat, y: nat, n: nat)
    requires x < Pow2(n) && y < Pow2(n) && forall k: nat :: k < n ==> BitAt(x, k) == BitAt(y, k)
    ensures x == y
    decreases n
  {
    if n > 0 {
      assert BitAt(x, 0) == BitAt(y, 0);
      forall k: nat | k < n - 1 ensures BitAt(x / 2, k) == BitAt(y / 2, k) {
        assert BitAt(x, k + 1) == BitAt(y, k + 1);
      }
      BitsDetermine(x / 2, y / 2, n - 1);
    }
  }

  lemma {:induction false} CongruentWordsEqual(x: int, r: int, s: int, n: nat)
    requires n >= 1 && Fits(r, n) && Fits(s, n) && Congruent(r, x, Pow2(n)) && Congruent(s, x, Pow2(n))
    ensures r == s
  {
    var m := Pow2(n);
    assert m == 2 * Pow2(n - 1);
    var i, j := (r - x) / m, (s - x) / m;
    Difference(m, j, i);
    assert m * (i - j) == r - s;
    NonzeroMultiple(m, i - j);
  }

  lemma {:induction false} TruncatedOnce(a: int, b: int, q: int, r: int, p: int, s: int)
    requires Truncated(a, b, q, r) && Truncated(a, b, p, s)
    ensures q == p && r == s
  {
    assert b != 0;
    assert b * (q - p) == s - r by {
      Difference(b, p, q);
    }
    if b > 0 {
      NonzeroMultiple(b, q - p);
    } else {
      assert -b * (p - q) == b * (q - p);
      NonzeroMultiple(-b, p - q);
    }
  }

  /** The specification leaves no choice. */
  lemma {:induction false} ComputesOnce(op: BinaryOp, n: nat, a: int, b: int, r: int, s: int)
    requires n >= 1 && Fits(r, n) && Fits(s, n) && Computes(op, n, a, b, r) && Computes(op, n, a, b, s)
    ensures r == s
  {
    match op {
      case Add => CongruentWordsEqual(a + b, r, s, n);
      case Sub => CongruentWordsEqual(a - b, r, s, n);
      case Mul => CongruentWordsEqual(a * b, r, s, n);
      case Div =>
        var q, rest :| Truncated(a, b, q, rest) && Congruent(r, q, Pow2(n));
        var p, left :| Truncated(a, b, p, left) && Congruent(s, p, Pow2(n));
        TruncatedOnce(a, b, q, rest, p, left);
        CongruentWordsEqual(q, r, s, n);
      case Rem =>
        var q :| Truncated(a, b, q, r);
        var p :| Truncated(a, b, p, s);
        TruncatedOnce(a, b, q, r, p, s);
      case _ => BitsOnce(op, n, a, b, r, s);
    }
  }

  lemma {:induction false} BitsOnce(op: BinaryOp, n: nat, a: int, b: int, r: int, s: int)
    requires op.Shl? || op.Shr? || op.Ushr? || op.Bits?
    requires n >= 1 && Fits(r, n) && Fits(s, n) && Computes(op, n, a, b, r) && Computes(op, n, a, b, s)
    ensures r == s
  {
    UnsignedIs(r, n);
    UnsignedIs(s, n);
    forall k: nat | k < n ensures BitAt(Unsigned(r, n), k) == BitAt(Unsigned(s, n), k) {
      if op.Bits? {
        assert BitLaw(op.op, BitAt(Unsigned(a, n), k), BitAt(Unsigned(b, n), k), BitAt(Unsigned(r, n), k));
        assert BitLaw(op.op, BitAt(Unsigned(a, n), k), BitAt(Unsigned(b, n), k), BitAt(Unsigned(s, n), k));
      }
    }
    BitsDetermine(Unsigned(r, n), Unsigned(s, n), n);
  }

  // ----- The interpreter's arithmetic -----

  lemma {:induction false} WordSizes()
    ensures Pow2(31) == 0x8000_0000 && Pow2(32) == TWO_32
    ensures Pow2(63) == 0x8000_0000_0000_0000 && Pow2(64) == TWO_64
  {
    PowersOfTwo();
    assert Pow2(32) == 2 * Pow2(31) && Pow2(64) == 2 * Pow2(63);
  }

  lemma {:induction false} QuotientComputed(n: nat, a: int, b: int, r: int)
    requires n >= 1 && b != 0 && Congruent(r, TruncDiv(a, b), Pow2(n))
    ensures Computes(Div, n, a, b, r) && Computes(Rem, n, a, b, TruncRem(a, b))
  {
    TruncationLaw(a, b);
    assert Truncated(a, b, TruncDiv(a, b), TruncRem(a, b));
  }

  lemma {:induction false} CongruentUnsigned(r: int, x: int, n: nat)
    requires Congruent(r, x, Pow2(n))
    ensures Unsigned(r, n) == Unsigned(x, n)
  {
    var m := Pow2(n);
    var q := (r - x) / m;
    assert x == r - m * q;
    SameRemainder(r, m, q);
  }

  /** The three shifts of a word, by their amounts. */
  lemma {:induction false} ShiftsCompute(op: BinaryOp, n: nat, a: int, b: int, r: int)
    requires n >= 1 && Fits(a, n) && (op.Shl? || op.Shr? || op.Ushr?)
    requires var p := Pow2(b % n);
             Congruent(r, if op.Shl? then a * p else if op.Shr? then a / p else Unsigned(a, n) / p, Pow2(n))
    ensures Computes(op, n, a, b, r)
  {
    var s := b % n;
    var p := Pow2(s);
    CongruentUnsigned(r, if op.Shl? then a * p else if op.Shr? then a / p else Unsigned(a, n) / p, n);
    match op {
      case Shl =>
        forall k: nat | k < n
          ensures BitAt(Unsigned(r, n), k) == if k < s then 0 else BitAt(Unsigned(a, n), k - s)
        {
          ShiftedLeft(a, n, s, k);
        }
      case Shr =>
        forall k: nat | k < n
          ensures BitAt(Unsigned(r, n), k) == BitAt(Unsigned(a, n), if k + s < n then k + s else n - 1)
        {
          ShiftedRight(a, n, s, k);
        }
      case Ushr =>
        forall k: nat | k < n
          ensures BitAt(Unsigned(r, n), k) == if k + s < n then BitAt(Unsigned(a, n), k + s) else 0
        {
          ShiftedUnsigned(a, n, s, k);
        }
    }
  }

  lemma {:induction false} IntBits(bit: Bitwise, a: i32, b: i32)
    ensures Computes(Bits(bit), 32, a, b, IntArith(Bits(bit), a, b))
  {
    WordSizes();
    forall k: nat | k < 32
      ensures BitLaw(bit, BitAt(Unsigned(a, 32), k), BitAt(Unsigned(b, 32), k),
                     BitAt(Unsigned(IntArith(Bits(bit), a, b), 32), k))
    {
      BitwiseByBits32(bit, a, b, k);
    }
  }

  lemma {:induction false} LongBits(bit: Bitwise, a: i64, b: i64)
    ensures Computes(Bits(bit), 64, a, b, LongArith(Bits(bit), a, b))
  {
    WordSizes();
    forall k: nat | k < 64
      ensures BitLaw(bit, BitAt(Unsigned(a, 64), k), BitAt(Unsigned(b, 64), k),
                     BitAt(Unsigned(LongArith(Bits(bit), a, b), 64), k))
    {
      BitwiseByBits64(bit, a, b, k);
    }
  }

  lemma {:induction false} IntQuotient(op: BinaryOp, a: i32, b: i32)
    requires (op.Div? || op.Rem?) && b != 0
    ensures Computes(op, 32, a, b, IntArith(op, a, b))
  {
    WordSizes();
    hide Pow2, TruncDiv, TruncRem, Computes, Wrap32;
    IntRemainder(a, b);
    QuotientComputed(32, a, b, Wrap32(TruncDiv(a, b)));
  }

  lemma {:induction false} WrapInLongRange(x: int)
    requires -0x8000_0000_0000_0000 <= x < 0x8000_0000_0000_0000
    ensures Wrap64(x) == x
  {
  }

  lemma {:induction false} LongQuotient(op: BinaryOp, a: i64, b: i64)
    requires (op.Div? || op.Rem?) && b != 0
    ensures Computes(op, 64, a, b, LongArith(op, a, b))
  {
    WordSizes();
    hide Pow2, TruncDiv, TruncRem, Computes, Wrap64;
    LongRemainder(a, b);
    QuotientComputed(64, a, b, Wrap64(TruncDiv(a, b)));
  }

  lemma {:induction false} IntRemainder(a: i32, b: i32)
    requires b != 0
    ensures Wrap32(TruncRem(a, b)) == TruncRem(a, b)
  {
    TruncationLaw(a, b);
    hide TruncRem, Wrap32;
    WrapInRange(TruncRem(a, b));
  }

  lemma {:induction false} LongRemainder(a: i64, b: i64)
    requires b != 0
    ensures Wrap64(TruncRem(a, b)) == TruncRem(a, b)
  {
    TruncationLaw(a, b);
    hide TruncRem, Wrap64;
    WrapInLongRange(TruncRem(a, b));
  }

  /** Every int operation computes what the specification says. */
  lemma {:induction false} IntComputes(op: BinaryOp, a: i32, b: i32)
    requires (op.Div? || op.Rem?) ==> b != 0
    ensures Fits(IntArith(op, a, b), 32) && Computes(op, 32, a, b, IntArith(op, a, b))
  {
    WordSizes();
    hide Pow2, Computes, IntArith;
    match op {
      case Div => IntQuotient(op, a, b);
      case Rem => IntQuotient(op, a, b);
      case Bits(bit) => IntBits(bit, a, b);
      case Add => IntSums(op, a, b);
      case Sub => IntSums(op, a, b);
      case Mul => IntSums(op, a, b);
      case _ => IntShifts(op, a, b);
    }
  }

  lemma {:induction false} IntSums(op: BinaryOp, a: i32, b: i32)
    requires op.Add? || op.Sub? || op.Mul?
    ensures Computes(op, 32, a, b, IntArith(op, a, b))
  {
    WordSizes();
    hide Pow2, Wrap32;
  }

  lemma {:induction false} IntShifts(op: BinaryOp, a: i32, b: i32)
    requires IsShift(op)
    ensures Computes(op, 32, a, b, IntArith(op, a, b))
  {
    WordSizes();
    hide Pow2, Wrap32, Computes;
    ShiftsCompute(op, 32, a, b, IntArith(op, a, b));
  }

  /** And every long operation; the amount of a shift is an int. */
  lemma {:induction false} LongComputes(op: BinaryOp, a: i64, b: i64)
    requires (op.Div? || op.Rem?) ==> b != 0
    ensures Fits(LongArith(op, a, b), 64) && Computes(op, 64, a, b, LongArith(op, a, b))
  {
    WordSizes();
    hide Pow2, Computes, LongArith;
    match op {
      case Div => LongQuotient(op, a, b);
      case Rem => LongQuotient(op, a, b);
      case Bits(bit) => LongBits(bit, a, b);
      case Add => LongSums(op, a, b);
      case Sub => LongSums(op, a, b);
      case Mul => LongSums(op, a, b);
      case _ => LongShifts(op, a, b);
    }
  }

  lemma {:induction false} LongSums(op: BinaryOp, a: i64, b: i64)
    requires op.Add? || op.Sub? || op.Mul?
    ensures Computes(op, 64, a, b, LongArith(op, a, b))
  {
    WordSizes();
    hide Pow2, Wrap64;
  }

  lemma {:induction false} LongShifts(op: BinaryOp, a: i64, b: i64)
    requires IsShift(op)
    ensures Computes(op, 64, a, b, LongArith(op, a, b))
  {
    WordSizes();
    hide Pow2, Wrap64, Computes;
    ShiftsCompute(op, 64, a, b, LongArith(op, a, b));
  }

  predicate IsShift(op: BinaryOp) {
    op.Shl? || op.Shr? || op.Ushr?
  }

  /**
   An int operation takes its second operand from the top and its first from below it, and
   leaves the specified result in their place; division by zero raises instead.
   */
  lemma {:induction false} IntBinaryExecutes(ops: FloatOps, f: FrameV, op: BinaryOp, rest: seq<Value>, a: i32, b: i32)
    requires f.stack == rest + [IntValue(a), IntValue(b)] && |rest| < f.m.maxStack
    ensures var done := ExecBinary(ops, f, KInt, op);
            if (op.Div? || op.Rem?) && b == 0 then done == Err(Raise(ARITHMETIC_EXCEPTION))
            else exists r: i32 :: Computes(op, 32, a, b, r) && done == Ok(f.(stack := rest + [IntValue(r)]))
  {
    hide Computes, IntArith;
    assert f.stack[..|f.stack| - 1] == rest + [IntValue(a)] && (rest + [IntValue(a)])[..|rest|] == rest;
    if !((op.Div? || op.Rem?) && b == 0) {
      IntComputes(op, a, b);
      assert ExecBinary(ops, f, KInt, op) == Ok(f.(stack := rest + [IntValue(IntArith(op, a, b))]));
    }
  }

  /** The same of longs. */
  lemma {:induction false} LongBinaryExecutes(ops: FloatOps, f: FrameV, op: BinaryOp, rest: seq<Value>, a: i64, b: i64)
    requires f.stack == rest + [LongValue(a), if IsShift(op) then IntValue(Wrap32(b)) else LongValue(b)]
    requires IsShift(op) ==> -0x8000_0000 <= b < 0x8000_0000
    requires |rest| < f.m.maxStack
    ensures var done := ExecBinary(ops, f, KLong, op);
            if (op.Div? || op.Rem?) && b == 0 then done == Err(Raise(ARITHMETIC_EXCEPTION))
            else exists r: i64 :: Computes(op, 64, a, b, r) && done == Ok(f.(stack := rest + [LongValue(r)]))
  {
    hide Computes, LongArith;
    assert f.stack[..|f.stack| - 1] == rest + [LongValue(a)] && (rest + [LongValue(a)])[..|rest|] == rest;
    if !((op.Div? || op.Rem?) && b == 0) {
      LongComputes(op, a, b);
      if IsShift(op) {
        WrapInRange(b);
      }
      assert ExecBinary(ops, f, KLong, op) == Ok(f.(stack := rest + [LongValue(LongArith(op, a, b))]));
    }
  }

  /** Negation is subtraction from zero, and so leaves the least value as it is. */
  lemma {:induction false} NegationExecutes(ops: FloatOps, f: FrameV, rest: seq<Value>)
    requires |rest| < f.m.maxStack
    ensures forall a: i32 :: f.stack == rest + [IntValue(a)] ==>
              ExecNeg(ops, f, KInt) ==
              Ok(f.(stack := rest + [IntValue(if a == -0x8000_0000 then a else -a)]))
    ensures forall a: i64 :: f.stack == rest + [LongValue(a)] ==>
              ExecNeg(ops, f, KLong) ==
              Ok(f.(stack := rest + [LongValue(if a == -0x8000_0000_0000_0000 then a else -a)]))
  {
    assert f.stack != [] ==> f.stack == f.stack[..|f.stack| - 1] + [f.stack[|f.stack| - 1]];
  }

  lemma {:induction false} ExactWord(x: int, r: int, n: nat)
    requires n >= 1 && Fits(r, n) && Congruent(r, x, Pow2(n))
    ensures Fits(x, n) ==> r == x
  {
    if Fits(x, n) {
      assert Congruent(x, x, Pow2(n));
      CongruentWordsEqual(x, r, x, n);
    }
  }

  /** A sum, difference or product that fits in a word is exact. */
  lemma {:induction false} ExactWhereItFits(op: BinaryOp, n: nat, a: int, b: int, r: int)
    requires n >= 1 && Fits(r, n) && Computes(op, n, a, b, r)
    ensures op.Add? && Fits(a + b, n) ==> r == a + b
    ensures op.Sub? && Fits(a - b, n) ==> r == a - b
    ensures op.Mul? && Fits(a * b, n) ==> r == a * b
  {
    hide Pow2, Fits, Congruent, BitAt, Unsigned, Truncated;
    match op {
      case Add => ExactWord(a + b, r, n);
      case Sub => ExactWord(a - b, r, n);
      case Mul => ExactWord(a * b, r, n);
      case _ =>
    }
  }
}
