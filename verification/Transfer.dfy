/**
 What one instruction does to the verifier's abstract frame, and which frames flow on
 from it. Rejection of any kind is None.
 */
module Transfer {
  import opened Wrappers
  import opened Bytecode
  import opened Program
  import opened VerifyTypes
  import opened Descriptors
  import opened Decoder

  predicate Compatible(actual: VerifyType, expected: VerifyType) {
    || actual == expected
    || (expected.Reference? &&
        (actual.Null? || actual.Reference? || actual.UninitializedThis? || actual.Uninitialized?))
  }

  predicate IsRefLike(t: VerifyType) {
    t.Null? || t.Reference? || t.UninitializedThis? || t.Uninitialized?
  }

  function TypeOfValue(v: Value): VerifyType {
    match v
    case IntValue(_) => Int
    case LongValue(_) => Long
    case FloatValue(_) => Float
    case DoubleValue(_) => Double
    case AddressValue(pc) => ReturnAddress(pc)
    case RefValue(_) => Reference(None)
  }

  function KindType(k: Kind): VerifyType {
    match k
    case KInt => Int case KLong => Long case KFloat => Float case KDouble => Double
    case KRef => Reference(None)
  }

  function ElemType(e: Elem): VerifyType {
    match e
    case ELong => Long case EFloat => Float case EDouble => Double case ERef => Reference(None)
    case _ => Int
  }

  /** What the verifier asks of one operand it pops. */
  datatype Need = Assign(t: VerifyType) | RefLike | OneOf(ts: seq<VerifyType>)

  predicate Meets(need: Need, actual: VerifyType) {
    match need
    case Assign(t) => Compatible(actual, t)
    case RefLike => IsRefLike(actual)
    case OneOf(ts) => actual in ts
  }

  function KindNeed(k: Kind): Need {
    if k.KRef? then RefLike else Assign(KindType(k))
  }

  /** Operands popped (topmost first) and types pushed (topmost last). */
  datatype Signature = Signature(needs: seq<Need>, pushes: seq<VerifyType>)

  function ArgNeeds(params: seq<VerifyType>): (r: seq<Need>)
    ensures |r| == |params|
    ensures forall k :: 0 <= k < |r| ==> r[k] == Assign(params[|params| - 1 - k])
  {
    seq(|params|, k requires 0 <= k < |params| => Assign(params[|params| - 1 - k]))
  }

  function CallSignature(descriptor: string, receiver: seq<Need>): Option<Signature> {
    match ParseMethodDescriptor(descriptor)
    case None => None
    case Some((params, ret)) =>
      Some(Signature(ArgNeeds(params) + receiver, if ret.Some? then [ret.value] else []))
  }

  function FieldSignature(m: Method, insn: Insn): Option<Signature> {
    if insn.cp.None? || Entry(m.fieldRefs, insn.cp.value).None? then None
    else match ParseField(Entry(m.fieldRefs, insn.cp.value).value.descriptor)
      case None => None
      case Some(t) => Some(
        match insn.op
        case Getstatic => Signature([], [t])
        case Putstatic => Signature([Assign(t)], [])
        case Getfield => Signature([RefLike], [t])
        case _ => Signature([Assign(t), RefLike], []))
  }

  /** Source types the verifier accepts for a conversion, whichever conversion to that target it is. */
  function ConversionSources(to: Target): seq<VerifyType> {
    match to
    case TLong => [Int, Float, Double]
    case TFloat => [Int, Long, Double]
    case TDouble => [Int, Long, Float]
    case _ => [Long, Float, Double, Int]
  }

  function ConversionResult(to: Target): VerifyType {
    match to case TLong => Long case TFloat => Float case TDouble => Double case _ => Int
  }

  /** Instructions whose only effect on the frame is to pop and push by a fixed signature. */
  predicate IsUniform(op: Opcode) {
    !(op.Load? || op.LoadN? || op.Store? || op.StoreN? || op.Iinc? || op.Ret? || op.Shuffle? ||
      op.TypedReturn? || op.Return? || op.Athrow? || op.Invokespecial? || op.Wide?)
  }

  function UniformSignature(m: Method, insn: Insn): Option<Signature>
    requires IsUniform(insn.op)
  {
    match insn.op
    case AconstNull => Some(Signature([], [VerifyType.Null]))
    case Const(k, _) => Some(Signature([], [KindType(k)]))
    case Bipush => Some(Signature([], [Int]))
    case Sipush => Some(Signature([], [Int]))
    case ArrayLoad(e) => Some(Signature([Assign(Int), RefLike], [ElemType(e)]))
    case ArrayStore(e) =>
      Some(Signature([if e.ERef? then RefLike else Assign(ElemType(e)), Assign(Int), RefLike], []))
    case Binary(k, op) =>
      var shift := k.KLong? && (op.Shl? || op.Shr? || op.Ushr?);
      Some(Signature([if shift then Assign(Int) else Assign(KindType(k)), Assign(KindType(k))], [KindType(k)]))
    case Neg(k) => Some(Signature([Assign(KindType(k))], [KindType(k)]))
    case Convert(_, to) => Some(Signature([OneOf(ConversionSources(to))], [ConversionResult(to)]))
    case Lcmp => Some(Signature([Assign(Long), Assign(Long)], [Int]))
    case FloatCmp(k, _) => Some(Signature([Assign(KindType(k)), Assign(KindType(k))], [Int]))
    case If(_) => Some(Signature([Assign(Int)], []))
    case IfIcmp(_) => Some(Signature([Assign(Int), Assign(Int)], []))
    case IfAcmp(_) => Some(Signature([RefLike, RefLike], []))
    case IfNull(_) => Some(Signature([RefLike], []))
    case Goto => Some(Signature([], []))
    case GotoW => Some(Signature([], []))
    case Jsr => Some(Signature([], [ReturnAddress(insn.next)]))
    case JsrW => Some(Signature([], [ReturnAddress(insn.next)]))
    case Tableswitch => Some(Signature([Assign(Int)], []))
    case Lookupswitch => Some(Signature([Assign(Int)], []))
    case Newarray => Some(Signature([Assign(Int)], [Reference(None)]))
    case New => Some(Signature([], [Uninitialized(insn.pc % 0x1_0000)]))
    case Arraylength => Some(Signature([RefLike], [Int]))
    case Instanceof => Some(Signature([RefLike], [Int]))
    case Monitorenter => Some(Signature([RefLike], []))
    case Monitorexit => Some(Signature([RefLike], []))
    case _ => PoolSignature(m, insn)
  }

  /** Signatures that come from the constant pool. */
  function PoolSignature(m: Method, insn: Insn): Option<Signature> {
    if insn.cp.None? then None
    else match insn.op
      case Ldc => ConstantSignature(m, insn.cp.value)
      case LdcW => ConstantSignature(m, insn.cp.value)
      case Ldc2W => ConstantSignature(m, insn.cp.value)
      case Getstatic => FieldSignature(m, insn)
      case Putstatic => FieldSignature(m, insn)
      case Getfield => FieldSignature(m, insn)
      case Putfield => FieldSignature(m, insn)
      case Invokestatic => MethodSignature(m, insn.cp.value, [])
      case Invokevirtual => MethodSignature(m, insn.cp.value, [RefLike])
      case Invokeinterface => MethodSignature(m, insn.cp.value, [RefLike])
      case Invokedynamic =>
        (match Entry(m.dynamicSites, insn.cp.value)
         case None => None
         case Some(descriptor) => CallSignature(descriptor, []))
      case Anewarray => Some(Signature([Assign(Int)], [Reference(None)]))
      case Multianewarray =>
        var dims := if insn.dims.Some? then insn.dims.value else 1;
        Some(Signature(seq(dims, _ => Assign(Int)), [Reference(None)]))
      case Checkcast => Some(Signature([RefLike], [Reference(Entry(m.referenceClasses, insn.cp.value))]))
      case _ => None
  }

  function ConstantSignature(m: Method, index: nat): Option<Signature> {
    match Entry(m.constants, index)
    case None => None
    case Some(v) => Some(Signature([], [TypeOfValue(v)]))
  }

  function MethodSignature(m: Method, index: nat, receiver: seq<Need>): Option<Signature> {
    match Entry(m.methodRefs, index)
    case None => None
    case Some(ref) => CallSignature(ref.descriptor, receiver)
  }

  /** The k-th type from the top of a stack. */
  function Peek(stack: seq<VerifyType>, k: nat): VerifyType
    requires k < |stack|
  {
    stack[|stack| - 1 - k]
  }

  predicate NeedsMet(stack: seq<VerifyType>, needs: seq<Need>) {
    |needs| <= |stack| && forall k :: 0 <= k < |needs| ==> Meets(needs[k], Peek(stack, k))
  }

  /** Pushing fails when it would exceed the declared stack; pushing nothing never fails. */
  function PushAll(stack: seq<VerifyType>, pushes: seq<VerifyType>, maxStack: nat): Option<seq<VerifyType>> {
    if pushes == [] then Some(stack)
    else if |stack| + |pushes| <= maxStack then Some(stack + pushes)
    else None
  }

  function ApplySignature(stack: seq<VerifyType>, sig: Signature, maxStack: nat): Option<seq<VerifyType>> {
    if NeedsMet(stack, sig.needs) then PushAll(stack[..|stack| - |sig.needs|], sig.pushes, maxStack) else None
  }

  /**
   A stack shuffle: how many values it takes off, and which of them it puts back, the
   topmost value being number 0 and the first one put back ending up deepest.
   */
  datatype Form = Form(take: nat, put: seq<nat>)

  predicate FormOk(f: Form) {
    forall k :: 0 <= k < |f.put| ==> f.put[k] < f.take
  }

  /** Which stack values take two words, topmost first. */
  function Wides(stack: seq<VerifyType>): (w: seq<bool>)
    ensures |w| == |stack|
  {
    seq(|stack|, k requires 0 <= k < |stack| => IsWide(Peek(stack, k)))
  }

  /** The form the verifier selects for a shuffle; None when it rejects. */
  function VerifierForm(op: ShuffleOp, w: seq<bool>): (f: Option<Form>)
    ensures f.Some? ==> f.value.take <= |w| && FormOk(f.value)
  {
    var n := |w|;
    match op
    case Pop => if n >= 1 then Some(Form(1, [])) else None
    case Pop2 =>
      if n >= 1 && w[0] then Some(Form(1, []))
      else if n >= 2 && !w[1] then Some(Form(2, []))
      else None
    case Dup => if n >= 1 && !w[0] then Some(Form(1, [0, 0])) else None
    case DupX1 => if n >= 2 && !w[0] && !w[1] then Some(Form(2, [0, 1, 0])) else None
    case DupX2 =>
      if n < 2 || w[0] then None
      else if w[1] then Some(Form(2, [0, 1, 0]))
      else if n >= 3 && !w[2] then Some(Form(3, [0, 2, 1, 0]))
      else None
    case Dup2 =>
      if n >= 1 && w[0] then Some(Form(1, [0, 0]))
      else if n >= 2 && !w[1] then Some(Form(2, [1, 0, 1, 0]))
      else None
    case Dup2X1 =>
      if n < 2 || w[1] then None
      else if w[0] then Some(Form(2, [0, 1, 0]))
      else if n >= 3 && !w[2] then Some(Form(3, [1, 0, 2, 1, 0]))
      else None
    case Dup2X2 =>
      if n < 2 then None
      else if w[0] && w[1] then Some(Form(2, [0, 1, 0]))
      else if n < 3 || w[2] then None
      else if w[0] then Some(Form(3, [0, 2, 1, 0]))
      else if w[1] then Some(Form(3, [1, 0, 2, 1, 0]))
      else if n >= 4 && !w[3] then Some(Form(4, [1, 0, 3, 2, 1, 0]))
      else None
    case Swap => if n >= 2 && !w[0] && !w[1] then Some(Form(2, [0, 1])) else None
  }

  function Put(stack: seq<VerifyType>, f: Form): (r: seq<VerifyType>)
    requires f.take <= |stack| && FormOk(f)
    ensures |r| == |f.put|
    ensures forall k :: 0 <= k < |r| ==> r[k] == Peek(stack, f.put[k])
  {
    seq(|f.put|, k requires 0 <= k < |f.put| => Peek(stack, f.put[k]))
  }

  function ApplyShuffle(stack: seq<VerifyType>, op: ShuffleOp, maxStack: nat): Option<seq<VerifyType>> {
    match VerifierForm(op, Wides(stack))
    case None => None
    case Some(f) => PushAll(stack[..|stack| - f.take], Put(stack, f), maxStack)
  }

  function LoadLocal(locals: seq<VerifyType>, index: nat): Option<VerifyType> {
    if index < |locals| && locals[index] != Top then Some(locals[index]) else None
  }

  /** Storing a type: a wide neighbour below it and the upper half of what it replaces become unusable. */
  function StoreLocal(locals: seq<VerifyType>, index: nat, ty: VerifyType): (r: Option<seq<VerifyType>>)
    ensures r.Some? ==> |r.value| == |locals|
  {
    if index >= |locals| || (IsWide(ty) && index + 1 >= |locals|) then None
    else
      var a := if index > 0 && IsWide(locals[index - 1]) then locals[index - 1 := Top] else locals;
      var b := if IsWide(locals[index]) && index + 1 < |locals| then a[index + 1 := Top] else a;
      var c := b[index := ty];
      Some(if IsWide(ty) then c[index + 1 := Top] else c)
  }

  /** The type a typed store records: int, long, float and double as such, a reference as popped. */
  function StoredType(k: Kind, popped: VerifyType): VerifyType {
    if k.KRef? then popped else KindType(k)
  }

  predicate CanStore(k: Kind, popped: VerifyType) {
    if k.KRef? then popped.ReturnAddress? || IsRefLike(popped) else Compatible(popped, KindType(k))
  }

  predicate CanLoad(k: Kind, local: VerifyType) {
    Meets(KindNeed(k), local)
  }

  /** Whether a typed return fits the method's declared result. */
  predicate CanReturn(k: Kind, actual: VerifyType, ret: Option<VerifyType>) {
    && Meets(KindNeed(k), actual)
    && ret.Some?
    && Compatible(if k.KRef? then actual else KindType(k), ret.value)
  }

  function Initialized(ts: seq<VerifyType>, from: VerifyType, className: string): (r: seq<VerifyType>)
    ensures |r| == |ts|
  {
    seq(|ts|, i requires 0 <= i < |ts| => if ts[i] == from then Reference(Some(className)) else ts[i])
  }

  predicate IsConstructorCall(m: Method, insn: Insn) {
    && insn.op.Invokespecial?
    && insn.cp.Some?
    && Entry(m.methodRefs, insn.cp.value).Some?
    && Entry(m.methodRefs, insn.cp.value).value.methodName == "<init>"
  }

  function ApplyInvokespecial(m: Method, insn: Insn, s: FrameState): Option<FrameState> {
    if insn.cp.None? then None
    else if !IsConstructorCall(m, insn) then
      match MethodSignature(m, insn.cp.value, [RefLike])
      case None => None
      case Some(sig) => WithStack(s, ApplySignature(s.stack, sig, m.maxStack))
    else
      var ref := Entry(m.methodRefs, insn.cp.value).value;
      match ParseMethodDescriptor(ref.descriptor)
      case None => None
      case Some((params, ret)) =>
        if !NeedsMet(s.stack, ArgNeeds(params)) || |s.stack| == |params| then None
        else
          var receiver := Peek(s.stack, |params|);
          if !(receiver.UninitializedThis? || receiver.Uninitialized? || receiver.Reference?) then None
          else
            var rest := Initialized(s.stack[..|s.stack| - |params| - 1], receiver, ref.className);
            match PushAll(rest, if ret.Some? then [ret.value] else [], m.maxStack)
            case None => None
            case Some(stack) => Some(FrameState(Initialized(s.locals, receiver, ref.className), stack))
  }

  function WithStack(s: FrameState, stack: Option<seq<VerifyType>>): Option<FrameState> {
    match stack case None => None case Some(st) => Some(FrameState(s.locals, st))
  }

  function ApplyLoad(m: Method, insn: Insn, s: FrameState): Option<FrameState>
    requires insn.op.Load? || insn.op.LoadN?
  {
    if insn.local.None? then None
    else match LoadLocal(s.locals, insn.local.value)
      case None => None
      case Some(t) =>
        if !CanLoad(insn.op.k, t) then None
        else WithStack(s, PushAll(s.stack, [StoredType(insn.op.k, t)], m.maxStack))
  }

  function ApplyStore(insn: Insn, s: FrameState): Option<FrameState>
    requires insn.op.Store? || insn.op.StoreN?
  {
    if insn.local.None? || s.stack == [] || !CanStore(insn.op.k, Peek(s.stack, 0)) then None
    else match StoreLocal(s.locals, insn.local.value, StoredType(insn.op.k, Peek(s.stack, 0)))
      case None => None
      case Some(locals) => Some(FrameState(locals, s.stack[..|s.stack| - 1]))
  }

  /** The frame after an instruction; None when the verifier rejects it. */
  function Apply(m: Method, insn: Insn, s: FrameState): Option<FrameState> {
    match ParseMethodDescriptor(m.descriptor)
    case None => None
    case Some((_, ret)) =>
      if IsUniform(insn.op) then
        (match UniformSignature(m, insn)
         case None => None
         case Some(sig) => WithStack(s, ApplySignature(s.stack, sig, m.maxStack)))
      else
        var op := insn.op;
        if op.Load? || op.LoadN? then ApplyLoad(m, insn, s)
        else if op.Store? || op.StoreN? then ApplyStore(insn, s)
        else if op.Shuffle? then WithStack(s, ApplyShuffle(s.stack, op.s, m.maxStack))
        else if op.Iinc? then
          if insn.local.Some? && LoadLocal(s.locals, insn.local.value) == Some(Int) then Some(s) else None
        else if op.Ret? then if RetTarget(insn, s).Some? then Some(s) else None
        else if op.TypedReturn? then
          if s.stack != [] && CanReturn(op.k, Peek(s.stack, 0), ret) then Some(s.(stack := [])) else None
        else if op.Return? then if ret.None? then Some(s.(stack := [])) else None
        else if op.Athrow? then
          if s.stack != [] && IsRefLike(Peek(s.stack, 0)) then Some(s.(stack := [])) else None
        else if op.Invokespecial? then ApplyInvokespecial(m, insn, s)
        else None
  }

  function RetTarget(insn: Insn, s: FrameState): Option<nat> {
    if insn.local.None? then None
    else match LoadLocal(s.locals, insn.local.value)
      case Some(ReturnAddress(target)) => Some(target)
      case _ => None
  }

  predicate HasFallthrough(op: Opcode) {
    !(op.Goto? || op.GotoW? || op.Jsr? || op.JsrW? || op.Tableswitch? || op.Lookupswitch? ||
      op.Ret? || op.TypedReturn? || op.Return? || op.Athrow?)
  }

  /** A frame that flows from an instruction to the start of another. */
  datatype Flow = Flow(to: nat, state: FrameState)

  function CatchType(h: Handler): VerifyType {
    Reference(Some(if h.catchClass.Some? then h.catchClass.value else "java/lang/Throwable"))
  }

  /** Flows into the handlers that cover pc: the locals before the instruction, one reference on the stack. */
  function HandlerFlows(handlers: seq<Handler>, pc: nat, locals: seq<VerifyType>): seq<Flow> {
    if handlers == [] then []
    else
      var rest := HandlerFlows(handlers[1..], pc, locals);
      if Covers(handlers[0], pc)
      then [Flow(handlers[0].target, FrameState(locals, [CatchType(handlers[0])]))] + rest
      else rest
  }

  function BranchFlows(targets: seq<nat>, after: FrameState): (r: seq<Flow>)
    ensures |r| == |targets|
    ensures forall k :: 0 <= k < |r| ==> r[k] == Flow(targets[k], after)
  {
    seq(|targets|, k requires 0 <= k < |targets| => Flow(targets[k], after))
  }

  /** Everything that flows from an instruction, in the order the verifier merges it. */
  function Flows(m: Method, insn: Insn, s: FrameState): Option<seq<Flow>> {
    match Apply(m, insn, s)
    case None => None
    case Some(after) => Some(
      HandlerFlows(m.handlers, insn.pc, s.locals)
      + (if HasFallthrough(insn.op) then [Flow(insn.next, after)] else [])
      + (if insn.op.Ret? && RetTarget(insn, after).Some? then [Flow(RetTarget(insn, after).value, after)] else [])
      + BranchFlows(insn.targets, after))
  }

  /** Parameters laid into locals from a slot on; None when they do not fit. */
  function PlaceParams(locals: seq<VerifyType>, index: nat, params: seq<VerifyType>): (r: Option<seq<VerifyType>>)
    ensures r.Some? ==> |r.value| == |locals|
    decreases |params|
  {
    if params == [] then Some(locals)
    else if index >= |locals| then None
    else
      var placed := locals[index := params[0]];
      if !IsWide(params[0]) then PlaceParams(placed, index + 1, params[1..])
      else if index + 1 >= |locals| then None
      else PlaceParams(placed[index + 1 := Top], index + 2, params[1..])
  }

  function ThisType(m: Method): VerifyType {
    if m.name == "<init>" then UninitializedThis
    else Reference(if m.className == "" then None else Some(m.className))
  }

  function Overlay(locals: seq<VerifyType>, values: seq<Option<Value>>): (r: seq<VerifyType>)
    requires |values| <= |locals|
    ensures |r| == |locals|
  {
    seq(|locals|, i requires 0 <= i < |locals| =>
      if i < |values| && values[i].Some? then TypeOfValue(values[i].value) else locals[i])
  }

  /** The frame on entry to a method. */
  function InitialFrame(m: Method): (r: Option<FrameState>)
    ensures r.Some? ==> |r.value.locals| == m.maxLocals && r.value.stack == []
  {
    var empty := seq(m.maxLocals, _ => Top);
    var start := if m.isStatic || m.maxLocals == 0 then empty else empty[0 := ThisType(m)];
    match ParseMethodDescriptor(m.descriptor)
    case None => None
    case Some((params, _)) =>
      match PlaceParams(start, if m.isStatic then 0 else 1, params)
      case None => None
      case Some(locals) =>
        if |m.initialLocals| > m.maxLocals then None
        else Some(FrameState(Overlay(locals, m.initialLocals), []))
  }
}
