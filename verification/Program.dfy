/** Run-time values, methods as the class loader hands them over, and VM errors. */
module Program {
  import opened Wrappers
  import opened Words

  /** IEEE values are opaque bit patterns; arithmetic on them is a parameter. */
  datatype F32 = F32(bits: nat)
  datatype F64 = F64(bits: nat)

  datatype Reference = Null | Heap(index: nat)

  datatype Value =
    | IntValue(i: i32)
    | LongValue(l: i64)
    | FloatValue(f: F32)
    | DoubleValue(d: F64)
    | RefValue(r: Reference)
    | AddressValue(pc: nat)

  predicate IsWideValue(v: Value) {
    v.LongValue? || v.DoubleValue?
  }

  datatype Handler = Handler(start: nat, end: nat, target: nat, catchClass: Option<string>)

  predicate Covers(h: Handler, pc: nat) {
    h.start <= pc < h.end
  }

  datatype FieldRef = FieldRef(className: string, fieldName: string, descriptor: string)

  datatype MethodRef = MethodRef(className: string, methodName: string, descriptor: string)

  datatype VerificationInfo =
    | TopInfo | IntegerInfo | FloatInfo | DoubleInfo | LongInfo | NullInfo
    | UninitializedThisInfo | ObjectInfo(index: nat) | UninitializedInfo(offset: nat)

  datatype FrameKind = Same | SameLocals1StackItem | Chop(count: nat) | SameExtended | Append(count: nat) | Full

  datatype StackMapFrame =
    StackMapFrame(kind: FrameKind, offsetDelta: nat, locals: seq<VerificationInfo>, stack: seq<VerificationInfo>)

  datatype Method = Method(
    className: string,
    name: string,
    descriptor: string,
    isStatic: bool,
    code: seq<byte>,
    maxLocals: nat,
    maxStack: nat,
    constants: seq<Option<Value>>,
    condySites: seq<bool>,
    referenceClasses: seq<Option<string>>,
    fieldRefs: seq<Option<FieldRef>>,
    methodRefs: seq<Option<MethodRef>>,
    dynamicSites: seq<Option<string>>,
    handlers: seq<Handler>,
    stackMapFrames: seq<StackMapFrame>,
    initialLocals: seq<Option<Value>>)

  /** The entry at an index of a constant-pool projection, if there is one. */
  function Entry<T>(pool: seq<Option<T>>, index: nat): Option<T> {
    if index < |pool| then pool[index] else None
  }

  predicate IsCondy(m: Method, index: nat) {
    index < |m.condySites| && m.condySites[index]
  }

  datatype VmError =
    | StackUnderflow
    | StackOverflow
    | InvalidLocalIndex
    | UninitializedLocal
    | InvalidOpcode
    | UnexpectedEof
    | InvalidConstantIndex
    | InvalidMethodRefIndex
    | InvalidDescriptor
    | MethodNotFound
    | UnhandledException(className: string)
    | TypeMismatch
    | NullReference
    | InvalidHeapReference
    | InvalidBranchTarget
    | MissingReturn
    | Panicked
    | VerificationError
    | Unmodelled

  /** An error that ends the thread; the interpreter loop turns the other two into exceptions. */
  type Fault = e: VmError | !e.NullReference? && !e.UnhandledException? witness StackUnderflow

  /** Locals laid out from an argument list: a long or double is followed by an empty slot. */
  function ArgsToLocals(args: seq<Value>): seq<Option<Value>> {
    if args == [] then []
    else if IsWideValue(args[0]) then [Some(args[0]), None] + ArgsToLocals(args[1..])
    else [Some(args[0])] + ArgsToLocals(args[1..])
  }
}
