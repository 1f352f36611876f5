/**
 The opcodes by name: a byte decodes to the opcode whose mnemonic section 6.5 of the JVM
 specification lists for it.
 */
module Mnemonics {
  import opened Wrappers
  import opened Words
  import opened Bytecode

  /** The letter that stands for a kind in a mnemonic. */
  function KindLetter(k: Kind): string {
    match k case KInt => "i" case KLong => "l" case KFloat => "f" case KDouble => "d" case KRef => "a"
  }

  function ElemLetter(e: Elem): string {
    match e
    case EInt => "i" case ELong => "l" case EFloat => "f" case EDouble => "d"
    case ERef => "a" case EByte => "b" case EChar => "c" case EShort => "s"
  }

  function TargetLetter(t: Target): string {
    match t
    case TInt => "i" case TLong => "l" case TFloat => "f" case TDouble => "d"
    case TByte => "b" case TChar => "c" case TShort => "s"
  }

  function Digit(n: int): string {
    if n == 0 then "0" else if n == 1 then "1" else if n == 2 then "2" else if n == 3 then "3"
    else if n == 4 then "4" else if n == 5 then "5" else "m1"
  }

  function BinaryName(op: BinaryOp): string {
    match op
    case Add => "add" case Sub => "sub" case Mul => "mul" case Div => "div" case Rem => "rem"
    case Shl => "shl" case Shr => "shr" case Ushr => "ushr"
    case Bits(And) => "and" case Bits(Or) => "or" case Bits(Xor) => "xor"
  }

  function ShuffleName(s: ShuffleOp): string {
    match s
    case Pop => "pop" case Pop2 => "pop2" case Dup => "dup" case DupX1 => "dup_x1" case DupX2 => "dup_x2"
    case Dup2 => "dup2" case Dup2X1 => "dup2_x1" case Dup2X2 => "dup2_x2" case Swap => "swap"
  }

  function CondName(c: Cond): string {
    match c case Eq => "eq" case Ne => "ne" case Lt => "lt" case Ge => "ge" case Gt => "gt" case Le => "le"
  }

  /** The mnemonic of an opcode, put together from its parts. */
  function Mnemonic(op: Opcode): string {
    match op
    case Const(k, n) => KindLetter(k) + "const_" + Digit(n)
    case Load(k) => KindLetter(k) + "load"
    case LoadN(k, n) => KindLetter(k) + "load_" + Digit(n)
    case ArrayLoad(e) => ElemLetter(e) + "aload"
    case Store(k) => KindLetter(k) + "store"
    case StoreN(k, n) => KindLetter(k) + "store_" + Digit(n)
    case ArrayStore(e) => ElemLetter(e) + "astore"
    case Shuffle(s) => ShuffleName(s)
    case Binary(k, b) => KindLetter(k) + BinaryName(b)
    case Neg(k) => KindLetter(k) + "neg"
    case Convert(from, to) => KindLetter(from) + "2" + TargetLetter(to)
    case FloatCmp(k, g) => KindLetter(k) + (if g then "cmpg" else "cmpl")
    case If(c) => "if" + CondName(c)
    case IfIcmp(c) => "if_icmp" + CondName(c)
    case TypedReturn(k) => KindLetter(k) + "return"
    case _ => OtherName(op)
  }

  function OtherName(op: Opcode): string {
    match op
    case AconstNull => "aconst_null" case Bipush => "bipush" case Sipush => "sipush"
    case Ldc => "ldc" case LdcW => "ldc_w" case Ldc2W => "ldc2_w"
    case Iinc => "iinc" case Lcmp => "lcmp"
    case IfAcmp(eq) => if eq then "if_acmpeq" else "if_acmpne"
    case IfNull(eq) => if eq then "ifnull" else "ifnonnull"
    case Goto => "goto" case GotoW => "goto_w" case Jsr => "jsr" case JsrW => "jsr_w" case Ret => "ret"
    case Tableswitch => "tableswitch" case Lookupswitch => "lookupswitch" case Return => "return"
    case Getstatic => "getstatic" case Putstatic => "putstatic" case Getfield => "getfield" case Putfield => "putfield"
    case Invokevirtual => "invokevirtual" case Invokespecial => "invokespecial" case Invokestatic => "invokestatic"
    case Invokeinterface => "invokeinterface" case Invokedynamic => "invokedynamic"
    case New => "new" case Newarray => "newarray" case Anewarray => "anewarray"
    case Multianewarray => "multianewarray" case Arraylength => "arraylength"
    case Athrow => "athrow" case Checkcast => "checkcast" case Instanceof => "instanceof"
    case Monitorenter => "monitorenter" case Monitorexit => "monitorexit" case Wide => "wide"
    case _ => ""
  }

  // ----- The specification's list -----

  function Names01(b: byte): (name: string)
    requires 0x01 <= b <= 0x08
    ensures name == Mnemonic(FromByte(b).value)
  {
    match b
    case 0x01 => "aconst_null" case 0x02 => "iconst_m1" case 0x03 => "iconst_0" case 0x04 => "iconst_1"
    case 0x05 => "iconst_2" case 0x06 => "iconst_3" case 0x07 => "iconst_4" case _ => "iconst_5"
  }

  function Names09(b: byte): (name: string)
    requires 0x09 <= b <= 0x0f
    ensures name == Mnemonic(FromByte(b).value)
  {
    match b
    case 0x09 => "lconst_0" case 0x0a => "lconst_1" case 0x0b => "fconst_0" case 0x0c => "fconst_1"
    case 0x0d => "fconst_2" case 0x0e => "dconst_0" case _ => "dconst_1"
  }

  function Names10(b: byte): (name: string)
    requires 0x10 <= b <= 0x19
    ensures name == Mnemonic(FromByte(b).value)
  {
    match b
    case 0x10 => "bipush" case 0x11 => "sipush" case 0x12 => "ldc" case 0x13 => "ldc_w" case 0x14 => "ldc2_w"
    case 0x15 => "iload" case 0x16 => "lload" case 0x17 => "fload" case 0x18 => "dload" case _ => "aload"
  }

  function Names1A(b: byte): (name: string)
    requires 0x1a <= b <= 0x1f
    ensures name == Mnemonic(FromByte(b).value)
  {
    match b
    case 0x1a => "iload_0" case 0x1b => "iload_1" case 0x1c => "iload_2" case 0x1d => "iload_3"
    case 0x1e => "lload_0" case _ => "lload_1"
  }

  function Names20(b: byte): (name: string)
    requires 0x20 <= b <= 0x27
    ensures name == Mnemonic(FromByte(b).value)
  {
    match b
    case 0x20 => "lload_2" case 0x21 => "lload_3" case 0x22 => "fload_0" case 0x23 => "fload_1"
    case 0x24 => "fload_2" case 0x25 => "fload_3" case 0x26 => "dload_0" case _ => "dload_1"
  }

  function Names28(b: byte): (name: string)
    requires 0x28 <= b <= 0x2d
    ensures name == Mnemonic(FromByte(b).value)
  {
    match b
    case 0x28 => "dload_2" case 0x29 => "dload_3" case 0x2a => "aload_0" case 0x2b => "aload_1"
    case 0x2c => "aload_2" case _ => "aload_3"
  }

  function Names2E(b: byte): (name: string)
    requires 0x2e <= b <= 0x33
    ensures name == Mnemonic(FromByte(b).value)
  {
    match b
    case 0x2e => "iaload" case 0x2f => "laload" case 0x30 => "faload" case 0x31 => "daload"
    case 0x32 => "aaload" case _ => "baload"
  }

  function Names34(b: byte): (name: string)
    requires 0x34 <= b <= 0x3a
    ensures name == Mnemonic(FromByte(b).value)
  {
    match b
    case 0x34 => "caload" case 0x35 => "saload" case 0x36 => "istore" case 0x37 => "lstore"
    case 0x38 => "fstore" case 0x39 => "dstore" case _ => "astore"
  }

  function Names3B(b: byte): (name: string)
    requires 0x3b <= b <= 0x3f
    ensures name == Mnemonic(FromByte(b).value)
  {
    match b
    case 0x3b => "istore_0" case 0x3c => "istore_1" case 0x3d => "istore_2" case 0x3e => "istore_3"
    case _ => "lstore_0"
  }

  function Names40(b: byte): (name: string)
    requires 0x40 <= b <= 0x44
    ensures name == Mnemonic(FromByte(b).value)
  {
    match b
    case 0x40 => "lstore_1" case 0x41 => "lstore_2" case 0x42 => "lstore_3" case 0x43 => "fstore_0"
    case _ => "fstore_1"
  }

  function Names45(b: byte): (name: string)
    requires 0x45 <= b <= 0x49
    ensures name == Mnemonic(FromByte(b).value)
  {
    match b
    case 0x45 => "fstore_2" case 0x46 => "fstore_3" case 0x47 => "dstore_0" case 0x48 => "dstore_1"
    case _ => "dstore_2"
  }

  function Names4A(b: byte): (name: string)
    requires 0x4a <= b <= 0x4e
    ensures name == Mnemonic(FromByte(b).value)
  {
    match b
    case 0x4a => "dstore_3" case 0x4b => "astore_0" case 0x4c => "astore_1" case 0x4d => "astore_2"
    case _ => "astore_3"
  }

  function Names4F(b: byte): (name: string)
    requires 0x4f <= b <= 0x52
    ensures name == Mnemonic(FromByte(b).value)
  {
    match b
    case 0x4f => "iastore" case 0x50 => "lastore" case 0x51 => "fastore" case _ => "dastore"
  }

  function Names53(b: byte): (name: string)
    requires 0x53 <= b <= 0x56
    ensures name == Mnemonic(FromByte(b).value)
  {
    match b
    case 0x53 => "aastore" case 0x54 => "bastore" case 0x55 => "castore" case _ => "sastore"
  }

  function Names57(b: byte): (name: string)
    requires 0x57 <= b <= 0x5f
    ensures name == Mnemonic(FromByte(b).value)
  {
    match b
    case 0x57 => "pop" case 0x58 => "pop2" case 0x59 => "dup" case 0x5a => "dup_x1" case 0x5b => "dup_x2"
    case 0x5c => "dup2" case 0x5d => "dup2_x1" case 0x5e => "dup2_x2" case _ => "swap"
  }

  function Names60(b: byte): (name: string)
    requires 0x60 <= b <= 0x6b
    ensures name == Mnemonic(FromByte(b).value)
  {
    match b
    case 0x60 => "iadd" case 0x61 => "ladd" case 0x62 => "fadd" case 0x63 => "dadd" case 0x64 => "isub"
    case 0x65 => "lsub" case 0x66 => "fsub" case 0x67 => "dsub" case 0x68 => "imul" case 0x69 => "lmul"
    case 0x6a => "fmul" case _ => "dmul"
  }

  function Names6C(b: byte): (name: string)
    requires 0x6c <= b <= 0x73
    ensures name == Mnemonic(FromByte(b).value)
  {
    match b
    case 0x6c => "idiv" case 0x6d => "ldiv" case 0x6e => "fdiv" case 0x6f => "ddiv" case 0x70 => "irem"
    case 0x71 => "lrem" case 0x72 => "frem" case _ => "drem"
  }

  function Names74(b: byte): (name: string)
    requires 0x74 <= b <= 0x7b
    ensures name == Mnemonic(FromByte(b).value)
  {
    match b
    case 0x74 => "ineg" case 0x75 => "lneg" case 0x76 => "fneg" case 0x77 => "dneg" case 0x78 => "ishl"
    case 0x79 => "lshl" case 0x7a => "ishr" case _ => "lshr"
  }

  function Names7C(b: byte): (name: string)
    requires 0x7c <= b <= 0x84
    ensures name == Mnemonic(FromByte(b).value)
  {
    match b
    case 0x7c => "iushr" case 0x7d => "lushr" case 0x7e => "iand" case 0x7f => "land" case 0x80 => "ior"
    case 0x81 => "lor" case 0x82 => "ixor" case 0x83 => "lxor" case _ => "iinc"
  }

  function Names85(b: byte): (name: string)
    requires 0x85 <= b <= 0x89
    ensures name == Mnemonic(FromByte(b).value)
  {
    match b
    case 0x85 => "i2l" case 0x86 => "i2f" case 0x87 => "i2d" case 0x88 => "l2i" case _ => "l2f"
  }

  function Names8A(b: byte): (name: string)
    requires 0x8a <= b <= 0x8e
    ensures name == Mnemonic(FromByte(b).value)
  {
    match b
    case 0x8a => "l2d" case 0x8b => "f2i" case 0x8c => "f2l" case 0x8d => "f2d" case _ => "d2i"
  }

  function Names8F(b: byte): (name: string)
    requires 0x8f <= b <= 0x93
    ensures name == Mnemonic(FromByte(b).value)
  {
    match b
    case 0x8f => "d2l" case 0x90 => "d2f" case 0x91 => "i2b" case 0x92 => "i2c" case _ => "i2s"
  }

  function Names94(b: byte): (name: string)
    requires 0x94 <= b <= 0x98
    ensures name == Mnemonic(FromByte(b).value)
  {
    match b
    case 0x94 => "lcmp" case 0x95 => "fcmpl" case 0x96 => "fcmpg" case 0x97 => "dcmpl" case _ => "dcmpg"
  }

  function Names99(b: byte): (name: string)
    requires 0x99 <= b <= 0x9e
    ensures name == Mnemonic(FromByte(b).value)
  {
    match b
    case 0x99 => "ifeq" case 0x9a => "ifne" case 0x9b => "iflt" case 0x9c => "ifge" case 0x9d => "ifgt"
    case _ => "ifle"
  }

  function Names9F(b: byte): (name: string)
    requires 0x9f <= b <= 0xa6
    ensures name == Mnemonic(FromByte(b).value)
  {
    match b
    case 0x9f => "if_icmpeq" case 0xa0 => "if_icmpne" case 0xa1 => "if_icmplt" case 0xa2 => "if_icmpge"
    case 0xa3 => "if_icmpgt" case 0xa4 => "if_icmple" case 0xa5 => "if_acmpeq" case _ => "if_acmpne"
  }

  function NamesA7(b: byte): (name: string)
    requires 0xa7 <= b <= 0xab
    ensures name == Mnemonic(FromByte(b).value)
  {
    match b
    case 0xa7 => "goto" case 0xa8 => "jsr" case 0xa9 => "ret" case 0xaa => "tableswitch"
    case _ => "lookupswitch"
  }

  function NamesAC(b: byte): (name: string)
    requires 0xac <= b <= 0xae
    ensures name == Mnemonic(FromByte(b).value)
  {
    match b
    case 0xac => "ireturn" case 0xad => "lreturn" case _ => "freturn"
  }

  function NamesAF(b: byte): (name: string)
    requires 0xaf <= b <= 0xb2
    ensures name == Mnemonic(FromByte(b).value)
  {
    match b
    case 0xaf => "dreturn" case 0xb0 => "areturn" case 0xb1 => "return" case _ => "getstatic"
  }

  function NamesB3(b: byte): (name: string)
    requires 0xb3 <= b <= 0xb5
    ensures name == Mnemonic(FromByte(b).value)
  {
    match b
    case 0xb3 => "putstatic" case 0xb4 => "getfield" case _ => "putfield"
  }

  function NamesB6(b: byte): (name: string)
    requires 0xb6 <= b <= 0xb8
    ensures name == Mnemonic(FromByte(b).value)
  {
    match b
    case 0xb6 => "invokevirtual" case 0xb7 => "invokespecial" case _ => "invokestatic"
  }

  function NamesB9(b: byte): (name: string)
    requires 0xb9 <= b <= 0xbb
    ensures name == Mnemonic(FromByte(b).value)
  {
    match b
    case 0xb9 => "invokeinterface" case 0xba => "invokedynamic" case _ => "new"
  }

  function NamesBC(b: byte): (name: string)
    requires 0xbc <= b <= 0xbe
    ensures name == Mnemonic(FromByte(b).value)
  {
    match b
    case 0xbc => "newarray" case 0xbd => "anewarray" case _ => "arraylength"
  }

  function NamesBF(b: byte): (name: string)
    requires 0xbf <= b <= 0xc1
    ensures name == Mnemonic(FromByte(b).value)
  {
    match b
    case 0xbf => "athrow" case 0xc0 => "checkcast" case _ => "instanceof"
  }

  function NamesC2(b: byte): (name: string)
    requires 0xc2 <= b <= 0xc5
    ensures name == Mnemonic(FromByte(b).value)
  {
    match b
    case 0xc2 => "monitorenter" case 0xc3 => "monitorexit" case 0xc4 => "wide" case _ => "multianewarray"
  }

  function NamesC6(b: byte): (name: string)
    requires 0xc6 <= b <= 0xc9
    ensures name == Mnemonic(FromByte(b).value)
  {
    match b
    case 0xc6 => "ifnull" case 0xc7 => "ifnonnull" case 0xc8 => "goto_w" case _ => "jsr_w"
  }

  /** The mnemonic the specification lists for a byte. */
  function Listed(b: byte): string
    requires 0x01 <= b <= 0xc9
  {
    if b <= 0x08 then Names01(b)
    else if b <= 0x0f then Names09(b)
    else if b <= 0x19 then Names10(b)
    else if b <= 0x1f then Names1A(b)
    else if b <= 0x27 then Names20(b)
    else if b <= 0x2d then Names28(b)
    else if b <= 0x33 then Names2E(b)
    else if b <= 0x3a then Names34(b)
    else if b <= 0x3f then Names3B(b)
    else if b <= 0x44 then Names40(b)
    else if b <= 0x49 then Names45(b)
    else if b <= 0x4e then Names4A(b)
    else if b <= 0x52 then Names4F(b)
    else if b <= 0x56 then Names53(b)
    else if b <= 0x5f then Names57(b)
    else if b <= 0x6b then Names60(b)
    else if b <= 0x73 then Names6C(b)
    else if b <= 0x7b then Names74(b)
    else if b <= 0x84 then Names7C(b)
    else if b <= 0x89 then Names85(b)
    else if b <= 0x8e then Names8A(b)
    else if b <= 0x93 then Names8F(b)
    else if b <= 0x98 then Names94(b)
    else if b <= 0x9e then Names99(b)
    else if b <= 0xa6 then Names9F(b)
    else if b <= 0xab then NamesA7(b)
    else if b <= 0xae then NamesAC(b)
    else if b <= 0xb2 then NamesAF(b)
    else if b <= 0xb5 then NamesB3(b)
    else if b <= 0xb8 then NamesB6(b)
    else if b <= 0xbb then NamesB9(b)
    else if b <= 0xbe then NamesBC(b)
    else if b <= 0xc1 then NamesBF(b)
    else if b <= 0xc5 then NamesC2(b)
    else NamesC6(b)
  }

  /** Every byte that is an opcode, and no other, decodes to an opcode, the one of its listed name. */
  lemma {:induction false} OpcodesNamed(b: byte)
    ensures FromByte(b).Some? <==> 0x01 <= b <= 0xc9
    ensures FromByte(b).Some? ==> Mnemonic(FromByte(b).value) == Listed(b)
  {
    FromByteInvertible(b);
    hide FromByte, Mnemonic;
    hide Names01, Names09, Names10, Names1A, Names20, Names28, Names2E, Names34, Names3B, Names40, Names45, Names4A;
    hide Names4F, Names53, Names57, Names60, Names6C, Names74, Names7C, Names85, Names8A, Names8F, Names94, Names99;
    hide Names9F, NamesA7, NamesAC, NamesAF, NamesB3, NamesB6, NamesB9, NamesBC, NamesBF, NamesC2, NamesC6;
  }
}
