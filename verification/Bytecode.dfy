/**
 The instruction set. Opcodes that differ only in an operand kind or in a small
 constant share one constructor; FromByte fixes which byte means which.
 */
module Bytecode {
  import opened Wrappers
  import opened Words

  datatype Kind = KInt | KLong | KFloat | KDouble | KRef

  /** Element kinds of the array instructions, in opcode order. */
  datatype Elem = EInt | ELong | EFloat | EDouble | ERef | EByte | EChar | EShort

  datatype ShuffleOp = Pop | Pop2 | Dup | DupX1 | DupX2 | Dup2 | Dup2X1 | Dup2X2 | Swap

  datatype BinaryOp = Add | Sub | Mul | Div | Rem | Shl | Shr | Ushr | Bits(op: Bitwise)

  /** Targets of the conversion instructions. */
  datatype Target = TInt | TLong | TFloat | TDouble | TByte | TChar | TShort

  datatype Cond = Eq | Ne | Lt | Ge | Gt | Le

  datatype Opcode =
    | AconstNull
    | Const(k: Kind, n: int)
    | Bipush | Sipush
    | Ldc | LdcW | Ldc2W
    | Load(k: Kind) | LoadN(k: Kind, slot: nat)
    | ArrayLoad(e: Elem)
    | Store(k: Kind) | StoreN(k: Kind, slot: nat)
    | ArrayStore(e: Elem)
    | Shuffle(s: ShuffleOp)
    | Binary(k: Kind, op: BinaryOp)
    | Neg(k: Kind)
    | Iinc
    | Convert(from: Kind, to: Target)
    | Lcmp
    | FloatCmp(k: Kind, greaterOnNaN: bool)
    | If(c: Cond) | IfIcmp(c: Cond) | IfAcmp(eq: bool) | IfNull(eq: bool)
    | Goto | GotoW | Jsr | JsrW | Ret
    | Tableswitch | Lookupswitch
    | TypedReturn(k: Kind) | Return
    | Getstatic | Putstatic | Getfield | Putfield
    | Invokevirtual | Invokespecial | Invokestatic | Invokeinterface | Invokedynamic
    | New | Newarray | Anewarray | Multianewarray | Arraylength
    | Athrow | Checkcast | Instanceof | Monitorenter | Monitorexit
    | Wide

  function KindAt(i: nat): Kind
    requires i < 5
  {
    match i
    case 0 => KInt
    case 1 => KLong
    case 2 => KFloat
    case 3 => KDouble
    case _ => KRef
  }

  function KindIndex(k: Kind): (i: nat)
    ensures i < 5 && KindAt(i) == k
  {
    match k case KInt => 0 case KLong => 1 case KFloat => 2 case KDouble => 3 case KRef => 4
  }

  function ElemAt(i: nat): Elem
    requires i < 8
  {
    match i
    case 0 => EInt
    case 1 => ELong
    case 2 => EFloat
    case 3 => EDouble
    case 4 => ERef
    case 5 => EByte
    case 6 => EChar
    case _ => EShort
  }

  function ElemIndex(e: Elem): (i: nat)
    ensures i < 8 && ElemAt(i) == e
  {
    match e
    case EInt => 0 case ELong => 1 case EFloat => 2 case EDouble => 3
    case ERef => 4 case EByte => 5 case EChar => 6 case EShort => 7
  }

  function ShuffleAt(i: nat): ShuffleOp
    requires i < 9
  {
    match i
    case 0 => Pop
    case 1 => Pop2
    case 2 => Dup
    case 3 => DupX1
    case 4 => DupX2
    case 5 => Dup2
    case 6 => Dup2X1
    case 7 => Dup2X2
    case _ => Swap
  }

  function ShuffleIndex(s: ShuffleOp): (i: nat)
    ensures i < 9 && ShuffleAt(i) == s
  {
    match s
    case Pop => 0 case Pop2 => 1 case Dup => 2 case DupX1 => 3 case DupX2 => 4
    case Dup2 => 5 case Dup2X1 => 6 case Dup2X2 => 7 case Swap => 8
  }

  function CondAt(i: nat): Cond
    requires i < 6
  {
    match i
    case 0 => Eq
    case 1 => Ne
    case 2 => Lt
    case 3 => Ge
    case 4 => Gt
    case _ => Le
  }

  function CondIndex(c: Cond): (i: nat)
    ensures i < 6 && CondAt(i) == c
  {
    match c case Eq => 0 case Ne => 1 case Lt => 2 case Ge => 3 case Gt => 4 case Le => 5
  }

  /** The five arithmetic operators that exist for all four numeric kinds. */
  function ArithAt(i: nat): BinaryOp
    requires i < 5
  {
    match i
    case 0 => Add
    case 1 => Sub
    case 2 => Mul
    case 3 => Div
    case _ => Rem
  }

  /** The six operators that exist for int and long only. */
  function IntegralAt(i: nat): BinaryOp
    requires i < 6
  {
    match i
    case 0 => Shl
    case 1 => Shr
    case 2 => Ushr
    case 3 => Bits(And)
    case 4 => Bits(Or)
    case _ => Bits(Xor)
  }

  /** The fifteen conversions, in opcode order from 0x85. */
  function ConversionAt(i: nat): Opcode
    requires i < 15
  {
    match i
    case 0 => Convert(KInt, TLong)
    case 1 => Convert(KInt, TFloat)
    case 2 => Convert(KInt, TDouble)
    case 3 => Convert(KLong, TInt)
    case 4 => Convert(KLong, TFloat)
    case 5 => Convert(KLong, TDouble)
    case 6 => Convert(KFloat, TInt)
    case 7 => Convert(KFloat, TLong)
    case 8 => Convert(KFloat, TDouble)
    case 9 => Convert(KDouble, TInt)
    case 10 => Convert(KDouble, TLong)
    case 11 => Convert(KDouble, TFloat)
    case 12 => Convert(KInt, TByte)
    case 13 => Convert(KInt, TChar)
    case _ => Convert(KInt, TShort)
  }

  function ControlAt(b: byte): Opcode
    requires 0xa7 <= b <= 0xb1
  {
    match b
    case 0xa7 => Goto
    case 0xa8 => Jsr
    case 0xa9 => Ret
    case 0xaa => Tableswitch
    case 0xab => Lookupswitch
    case 0xac => TypedReturn(KInt)
    case 0xad => TypedReturn(KLong)
    case 0xae => TypedReturn(KFloat)
    case 0xaf => TypedReturn(KDouble)
    case 0xb0 => TypedReturn(KRef)
    case _ => Return
  }

  function ObjectAt(b: byte): Opcode
    requires 0xb2 <= b <= 0xc5
  {
    match b
    case 0xb2 => Getstatic
    case 0xb3 => Putstatic
    case 0xb4 => Getfield
    case 0xb5 => Putfield
    case 0xb6 => Invokevirtual
    case 0xb7 => Invokespecial
    case 0xb8 => Invokestatic
    case 0xb9 => Invokeinterface
    case 0xba => Invokedynamic
    case 0xbb => New
    case 0xbc => Newarray
    case 0xbd => Anewarray
    case 0xbe => Arraylength
    case 0xbf => Athrow
    case 0xc0 => Checkcast
    case 0xc1 => Instanceof
    case 0xc2 => Monitorenter
    case 0xc3 => Monitorexit
    case 0xc4 => Wide
    case _ => Multianewarray
  }

  function FromByte(b: byte): Option<Opcode> {
    if b == 0x00 then None
    else if b == 0x01 then Some(AconstNull)
    else if b <= 0x08 then Some(Const(KInt, b - 0x03))
    else if b <= 0x0a then Some(Const(KLong, b - 0x09))
    else if b <= 0x0d then Some(Const(KFloat, b - 0x0b))
    else if b <= 0x0f then Some(Const(KDouble, b - 0x0e))
    else if b == 0x10 then Some(Bipush)
    else if b == 0x11 then Some(Sipush)
    else if b == 0x12 then Some(Ldc)
    else if b == 0x13 then Some(LdcW)
    else if b == 0x14 then Some(Ldc2W)
    else if b <= 0x19 then Some(Load(KindAt(b - 0x15)))
    else if b <= 0x2d then Some(LoadN(KindAt((b - 0x1a) / 4), (b - 0x1a) % 4))
    else if b <= 0x35 then Some(ArrayLoad(ElemAt(b - 0x2e)))
    else if b <= 0x3a then Some(Store(KindAt(b - 0x36)))
    else if b <= 0x4e then Some(StoreN(KindAt((b - 0x3b) / 4), (b - 0x3b) % 4))
    else if b <= 0x56 then Some(ArrayStore(ElemAt(b - 0x4f)))
    else if b <= 0x5f then Some(Shuffle(ShuffleAt(b - 0x57)))
    else if b <= 0x73 then Some(Binary(KindAt((b - 0x60) % 4), ArithAt((b - 0x60) / 4)))
    else if b <= 0x77 then Some(Neg(KindAt(b - 0x74)))
    else if b <= 0x83 then Some(Binary(KindAt((b - 0x78) % 2), IntegralAt((b - 0x78) / 2)))
    else if b == 0x84 then Some(Iinc)
    else if b <= 0x93 then Some(ConversionAt(b - 0x85))
    else FromHighByte(b)
  }

  /** The bytes from 0x94 on: comparisons, control, objects. */
  function FromHighByte(b: byte): Option<Opcode>
    requires 0x94 <= b
  {
    if b == 0x94 then Some(Lcmp)
    else if b <= 0x96 then Some(FloatCmp(KFloat, b == 0x96))
    else if b <= 0x98 then Some(FloatCmp(KDouble, b == 0x98))
    else if b <= 0x9e then Some(If(CondAt(b - 0x99)))
    else if b <= 0xa4 then Some(IfIcmp(CondAt(b - 0x9f)))
    else if b <= 0xa6 then Some(IfAcmp(b == 0xa5))
    else if b <= 0xb1 then Some(ControlAt(b))
    else if b <= 0xc5 then Some(ObjectAt(b))
    else if b <= 0xc7 then Some(IfNull(b == 0xc6))
    else if b == 0xc8 then Some(GotoW)
    else if b == 0xc9 then Some(JsrW)
    else None
  }

  /** Position of a conversion in ConversionAt's order. */
  function ConversionIndex(from: Kind, to: Target): nat {
    match (from, to)
    case (KInt, TLong) => 0 case (KInt, TFloat) => 1 case (KInt, TDouble) => 2
    case (KLong, TInt) => 3 case (KLong, TFloat) => 4 case (KLong, TDouble) => 5
    case (KFloat, TInt) => 6 case (KFloat, TLong) => 7 case (KFloat, TDouble) => 8
    case (KDouble, TInt) => 9 case (KDouble, TLong) => 10 case (KDouble, TFloat) => 11
    case (_, TByte) => 12 case (_, TChar) => 13 case _ => 14
  }

  /** The byte of an opcode: the discriminant the source assigns to it. */
  function ToByte(op: Opcode): int {
    match op
    case AconstNull => 0x01
    case Const(k, n) => n + (match k case KInt => 0x03 case KLong => 0x09 case KFloat => 0x0b case _ => 0x0e)
    case Bipush => 0x10 case Sipush => 0x11
    case Ldc => 0x12 case LdcW => 0x13 case Ldc2W => 0x14
    case Load(k) => 0x15 + KindIndex(k)
    case LoadN(k, n) => 0x1a + 4 * KindIndex(k) + n
    case ArrayLoad(e) => 0x2e + ElemIndex(e)
    case Store(k) => 0x36 + KindIndex(k)
    case StoreN(k, n) => 0x3b + 4 * KindIndex(k) + n
    case ArrayStore(e) => 0x4f + ElemIndex(e)
    case Shuffle(s) => 0x57 + ShuffleIndex(s)
    case Binary(k, op) =>
      (match op
       case Add => 0x60 case Sub => 0x64 case Mul => 0x68 case Div => 0x6c case Rem => 0x70
       case Shl => 0x78 case Shr => 0x7a case Ushr => 0x7c
       case Bits(And) => 0x7e case Bits(Or) => 0x80 case Bits(Xor) => 0x82) + KindIndex(k)
    case Neg(k) => 0x74 + KindIndex(k)
    case Iinc => 0x84
    case Convert(from, to) => 0x85 + ConversionIndex(from, to)
    case Lcmp => 0x94
    case FloatCmp(k, g) => (if k == KFloat then 0x95 else 0x97) + (if g then 1 else 0)
    case If(c) => 0x99 + CondIndex(c)
    case IfIcmp(c) => 0x9f + CondIndex(c)
    case IfAcmp(eq) => if eq then 0xa5 else 0xa6
    case Goto => 0xa7 case Jsr => 0xa8 case Ret => 0xa9
    case Tableswitch => 0xaa case Lookupswitch => 0xab
    case TypedReturn(k) => 0xac + KindIndex(k)
    case Return => 0xb1
    case Getstatic => 0xb2 case Putstatic => 0xb3 case Getfield => 0xb4 case Putfield => 0xb5
    case Invokevirtual => 0xb6 case Invokespecial => 0xb7 case Invokestatic => 0xb8
    case Invokeinterface => 0xb9 case Invokedynamic => 0xba
    case New => 0xbb case Newarray => 0xbc case Anewarray => 0xbd case Arraylength => 0xbe
    case Athrow => 0xbf case Checkcast => 0xc0 case Instanceof => 0xc1
    case Monitorenter => 0xc2 case Monitorexit => 0xc3 case Wide => 0xc4
    case Multianewarray => 0xc5
    case IfNull(eq) => if eq then 0xc6 else 0xc7
    case GotoW => 0xc8 case JsrW => 0xc9
  }

  /** Exactly the bytes 0x01 to 0xc9 are opcodes, and no two of them mean the same one. */
  lemma {:induction false} FromByteInvertible(b: byte)
    ensures FromByte(b).Some? <==> 0x01 <= b <= 0xc9
    ensures FromByte(b).Some? ==> ToByte(FromByte(b).value) == b
  {
    if 0x60 <= b <= 0x77 {
      ArithInvertible(b);
    } else if 0x78 <= b <= 0x84 {
      IntegralInvertible(b);
    } else if 0x85 <= b <= 0x93 {
      ConversionInvertible(b - 0x85);
    } else if 0x94 <= b {
      HighInvertible(b);
    }
  }

  lemma {:induction false} ArithInvertible(b: byte)
    requires 0x60 <= b <= 0x77
    ensures FromByte(b).Some? && ToByte(FromByte(b).value) == b
  {
    if b <= 0x73 {
      var i := (b - 0x60) / 4;
      assert i == 0 || i == 1 || i == 2 || i == 3 || i == 4;
    }
  }

  lemma {:induction false} IntegralInvertible(b: byte)
    requires 0x78 <= b <= 0x84
    ensures FromByte(b).Some? && ToByte(FromByte(b).value) == b
  {
    if b < 0x84 {
      var i := (b - 0x78) / 2;
      assert i == 0 || i == 1 || i == 2 || i == 3 || i == 4 || i == 5;
    }
  }

  lemma {:induction false} ConversionInvertible(i: nat)
    requires i < 15
    ensures ToByte(ConversionAt(i)) == 0x85 + i
  {
  }

  lemma {:induction false} ControlInvertible(b: byte)
    requires 0xa7 <= b <= 0xb1
    ensures ToByte(ControlAt(b)) == b
  {
  }

  lemma {:induction false} ObjectInvertible(b: byte)
    requires 0xb2 <= b <= 0xc5
    ensures ToByte(ObjectAt(b)) == b
  {
  }

  lemma {:induction false} HighInvertible(b: byte)
    requires 0x94 <= b
    ensures FromHighByte(b).Some? <==> b <= 0xc9
    ensures FromHighByte(b).Some? ==> ToByte(FromHighByte(b).value) == b
  {
    if 0xa7 <= b <= 0xb1 {
      ControlInvertible(b);
    } else if 0xb2 <= b <= 0xc5 {
      ObjectInvertible(b);
    }
  }

  /** The kinds an opcode can come with: arithmetic is numeric, bit operations are integral. */
  predicate WellKinded(op: Opcode) {
    match op
    case Const(k, _) => !k.KRef?
    case Binary(k, b) => !k.KRef? && ((k.KFloat? || k.KDouble?) ==> b.Add? || b.Sub? || b.Mul? || b.Div? || b.Rem?)
    case Neg(k) => !k.KRef?
    case FloatCmp(k, _) => k.KFloat? || k.KDouble?
    case _ => true
  }

  lemma {:induction false} FromByteWellKinded(b: byte)
    requires FromByte(b).Some?
    ensures WellKinded(FromByte(b).value)
  {
    if 0x60 <= b <= 0x73 {
      var i := (b - 0x60) / 4;
      assert i == 0 || i == 1 || i == 2 || i == 3 || i == 4;
    }
  }
}
