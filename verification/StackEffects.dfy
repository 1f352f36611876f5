/**
 The verifier's transfer against the operand stacks section 6.5 of the JVM specification
 draws: what an instruction needs on the stack and in the locals, what it leaves, and where
 execution goes on. An instruction is accepted exactly when its operands are there.
 */
module StackEffects {
  import opened Wrappers
  import opened Words
  import opened Bytecode
  import opened Program
  import opened VerifyTypes
  import opened Descriptors
  import opened Decoder
  import opened Transfer

  // ----- Operands drawn as letters -----

  /** I, J, F and D are the four numbers, A a reference and R a return address. */
  predicate OfLetter(t: VerifyType, c: char) {
    match c
    case 'I' => t == Int
    case 'J' => t == Long
    case 'F' => t == Float
    case 'D' => t == Double
    case 'A' => t.Null? || t.Reference? || t.UninitializedThis? || t.Uninitialized?
    case 'R' => t.ReturnAddress?
    case _ => false
  }

  function KindLetter(k: Kind): string {
    match k case KInt => "I" case KLong => "J" case KFloat => "F" case KDouble => "D" case KRef => "A"
  }

  function ElemLetter(e: Elem): string {
    match e case ELong => "J" case EFloat => "F" case EDouble => "D" case ERef => "A" case _ => "I"
  }

  datatype Effect = Effect(pops: string, pushes: string)

  /** The stack before and after, topmost last, of instructions for which it is always the same. */
  function EffectOf(op: Opcode): Option<Effect> {
    match op
    case AconstNull => Some(Effect("", "A"))
    case Const(k, _) => Some(Effect("", KindLetter(k)))
    case Bipush => Some(Effect("", "I"))
    case Sipush => Some(Effect("", "I"))
    case ArrayLoad(e) => Some(Effect("AI", ElemLetter(e)))
    case ArrayStore(e) => Some(Effect("AI" + ElemLetter(e), ""))
    case Binary(k, b) =>
      var shift := b.Shl? || b.Shr? || b.Ushr?;
      Some(Effect(KindLetter(k) + (if shift then "I" else KindLetter(k)), KindLetter(k)))
    case Neg(k) => Some(Effect(KindLetter(k), KindLetter(k)))
    case Lcmp => Some(Effect("JJ", "I"))
    case FloatCmp(k, _) => Some(Effect(KindLetter(k) + KindLetter(k), "I"))
    case If(_) => Some(Effect("I", ""))
    case IfIcmp(_) => Some(Effect("II", ""))
    case IfAcmp(_) => Some(Effect("AA", ""))
    case IfNull(_) => Some(Effect("A", ""))
    case Goto => Some(Effect("", ""))
    case GotoW => Some(Effect("", ""))
    case Jsr => Some(Effect("", "R"))
    case JsrW => Some(Effect("", "R"))
    case Tableswitch => Some(Effect("I", ""))
    case Lookupswitch => Some(Effect("I", ""))
    case New => Some(Effect("", "A"))
    case Newarray => Some(Effect("I", "A"))
    case Anewarray => Some(Effect("I", "A"))
    case Arraylength => Some(Effect("A", "I"))
    case Checkcast => Some(Effect("A", "A"))
    case Instanceof => Some(Effect("A", "I"))
    case Monitorenter => Some(Effect("A", ""))
    case Monitorexit => Some(Effect("A", ""))
    case _ => None
  }

  /** The types on top of the stack are of these letters. */
  predicate Offers(stack: seq<VerifyType>, letters: string) {
    |letters| <= |stack| &&
    forall i :: 0 <= i < |letters| ==> OfLetter(stack[|stack| - |letters| + i], letters[i])
  }

  /** The need is met by exactly the types of the letter. */
  ghost predicate NeedIs(need: Need, c: char) {
    forall t :: Meets(need, t) <==> OfLetter(t, c)
  }

  ghost predicate NeedsAre(needs: seq<Need>, letters: string) {
    |needs| == |letters| && forall k :: 0 <= k < |needs| ==> NeedIs(needs[k], letters[|letters| - 1 - k])
  }

  predicate AreOf(ts: seq<VerifyType>, letters: string) {
    |ts| == |letters| && forall k :: 0 <= k < |ts| ==> OfLetter(ts[k], letters[k])
  }

  lemma {:induction false} NeedsOffered(stack: seq<VerifyType>, needs: seq<Need>, letters: string)
    requires NeedsAre(needs, letters)
    ensures NeedsMet(stack, needs) <==> Offers(stack, letters)
  {
    var n := |letters|;
    if NeedsMet(stack, needs) {
      forall i | 0 <= i < n ensures OfLetter(stack[|stack| - n + i], letters[i]) {
        assert NeedIs(needs[n - 1 - i], letters[i]) && Meets(needs[n - 1 - i], Peek(stack, n - 1 - i));
      }
    }
    if Offers(stack, letters) {
      forall k | 0 <= k < n ensures Meets(needs[k], Peek(stack, k)) {
        assert NeedIs(needs[k], letters[n - 1 - k]) && OfLetter(stack[|stack| - n + (n - 1 - k)], letters[n - 1 - k]);
      }
    }
  }

  lemma {:induction false} KindNeedIs(k: Kind)
    requires !k.KRef?
    ensures NeedIs(Assign(KindType(k)), KindLetter(k)[0]) && OfLetter(KindType(k), KindLetter(k)[0])
  {
  }

  lemma {:induction false} SimpleNeeds()
    ensures NeedIs(Assign(Int), 'I') && NeedIs(Assign(Long), 'J') && NeedIs(RefLike, 'A')
  {
  }

  /** A signature is as drawn. */
  ghost predicate Drawn(sig: Option<Signature>, e: Effect) {
    sig.Some? && NeedsAre(sig.value.needs, e.pops) && AreOf(sig.value.pushes, e.pushes)
  }

  lemma {:induction false} ArithmeticDrawn(m: Method, insn: Insn)
    requires WellKinded(insn.op)
    requires insn.op.Binary? || insn.op.Neg? || insn.op.FloatCmp? || insn.op.Const? || insn.op.Lcmp?
    ensures Drawn(UniformSignature(m, insn), EffectOf(insn.op).value)
  {
    SimpleNeeds();
    if !insn.op.Lcmp? {
      KindNeedIs(insn.op.k);
    }
    hide NeedIs;
  }

  lemma {:induction false} ElemNeedIs(e: Elem)
    ensures NeedIs(if e.ERef? then RefLike else Assign(ElemType(e)), ElemLetter(e)[0])
    ensures OfLetter(ElemType(e), ElemLetter(e)[0])
  {
  }

  lemma {:induction false} ArrayDrawn(m: Method, insn: Insn)
    requires insn.op.ArrayLoad? || insn.op.ArrayStore?
    ensures Drawn(UniformSignature(m, insn), EffectOf(insn.op).value)
  {
    SimpleNeeds();
    ElemNeedIs(insn.op.e);
    hide NeedIs;
  }

  predicate IsJump(op: Opcode) {
    op.If? || op.IfIcmp? || op.IfAcmp? || op.IfNull? || op.Goto? || op.GotoW? || op.Jsr? || op.JsrW? ||
    op.Tableswitch? || op.Lookupswitch?
  }

  lemma {:induction false} JumpDrawn(m: Method, insn: Insn)
    requires IsJump(insn.op)
    ensures Drawn(UniformSignature(m, insn), EffectOf(insn.op).value)
  {
    SimpleNeeds();
    hide NeedIs;
  }

  lemma {:induction false} ObjectDrawn(m: Method, insn: Insn)
    requires EffectOf(insn.op).Some? && PoolOk(m, insn) && !IsJump(insn.op)
    requires !(insn.op.Binary? || insn.op.Neg? || insn.op.FloatCmp? || insn.op.Const? || insn.op.Lcmp?)
    requires !(insn.op.ArrayLoad? || insn.op.ArrayStore?)
    ensures IsUniform(insn.op) && Drawn(UniformSignature(m, insn), EffectOf(insn.op).value)
  {
    SimpleNeeds();
    hide NeedIs;
  }

  /** The signature the verifier has for an instruction is the one drawn. */
  lemma {:induction false} SignatureDrawn(m: Method, insn: Insn)
    requires EffectOf(insn.op).Some? && WellKinded(insn.op) && PoolOk(m, insn)
    ensures IsUniform(insn.op) && Drawn(UniformSignature(m, insn), EffectOf(insn.op).value)
  {
    hide Drawn, UniformSignature;
    var op := insn.op;
    if op.Binary? || op.Neg? || op.FloatCmp? || op.Const? || op.Lcmp? {
      ArithmeticDrawn(m, insn);
    } else if op.ArrayLoad? || op.ArrayStore? {
      ArrayDrawn(m, insn);
    } else if IsJump(op) {
      JumpDrawn(m, insn);
    } else {
      ObjectDrawn(m, insn);
    }
  }

  /**
   An instruction with a fixed effect is accepted if and only if its operands are on top of
   the stack and there is room for its results, which then take their place; the locals stay.
   */
  lemma {:induction false} EffectAccepted(m: Method, insn: Insn, s: FrameState)
    requires ParseMethodDescriptor(m.descriptor).Some?
    requires EffectOf(insn.op).Some? && WellKinded(insn.op) && PoolOk(m, insn)
    ensures var e := EffectOf(insn.op).value;
            && (Apply(m, insn, s).Some? <==>
                  Offers(s.stack, e.pops) && (e.pushes != "" ==> |s.stack| - |e.pops| + |e.pushes| <= m.maxStack))
            && (Apply(m, insn, s).Some? ==>
                  var after := Apply(m, insn, s).value; var kept := |s.stack| - |e.pops|;
                  && after.locals == s.locals
                  && |after.stack| == kept + |e.pushes| && after.stack[..kept] == s.stack[..kept]
                  && AreOf(after.stack[kept..], e.pushes))
  {
    SignatureDrawn(m, insn);
    var sig, e := UniformSignature(m, insn).value, EffectOf(insn.op).value;
    NeedsOffered(s.stack, sig.needs, e.pops);
    hide UniformSignature, EffectOf, ParseMethodDescriptor, NeedsMet, NeedIs, Offers, AreOf;
    assert |sig.pushes| == |e.pushes| && |sig.needs| == |e.pops| by { SameLengths(sig, e); }
    if NeedsMet(s.stack, sig.needs) && PushAll(s.stack[..|s.stack| - |sig.needs|], sig.pushes, m.maxStack).Some? {
      var kept := |s.stack| - |e.pops|;
      assert (s.stack[..kept] + sig.pushes)[kept..] == sig.pushes;
      assert sig.pushes == [] ==> s.stack[..kept][kept..] == sig.pushes;
    }
  }

  lemma {:induction false} SameLengths(sig: Signature, e: Effect)
    requires NeedsAre(sig.needs, e.pops) && AreOf(sig.pushes, e.pushes)
    ensures |sig.pushes| == |e.pushes| && |sig.needs| == |e.pops|
  {
  }

  /** What kind of reference or address is pushed. */
  lemma {:induction false} ReferencePushed(m: Method, insn: Insn, s: FrameState)
    requires EffectOf(insn.op).Some? && PoolOk(m, insn) && Apply(m, insn, s).Some?
    requires insn.op.AconstNull? || insn.op.New? || insn.op.Checkcast? || insn.op.Jsr? || insn.op.JsrW? ||
             insn.op.Newarray? || insn.op.Anewarray?
    ensures Apply(m, insn, s).value.stack != []
    ensures Peek(Apply(m, insn, s).value.stack, 0) ==
            if insn.op.AconstNull? then VerifyType.Null
            else if insn.op.New? then Uninitialized(insn.pc % 0x1_0000)
            else if insn.op.Checkcast? then Reference(m.referenceClasses[insn.cp.value])
            else if insn.op.Jsr? || insn.op.JsrW? then ReturnAddress(insn.next)
            else Reference(None)
  {
    hide ParseMethodDescriptor;
  }

  // ----- Conversions, constants and arrays of several dimensions -----

  predicate Numeric(t: VerifyType) {
    t == Int || t == Long || t == Float || t == Double
  }

  /**
   A conversion is accepted if and only if a number is on top; one to long, float or double
   refuses a number that is that already, but takes any other, whatever its name says.
   */
  lemma {:induction false} ConversionAccepted(m: Method, insn: Insn, s: FrameState)
    requires ParseMethodDescriptor(m.descriptor).Some? && insn.op.Convert?
    ensures var target := match insn.op.to case TLong => Long case TFloat => Float case TDouble => Double case _ => Int;
            && (Apply(m, insn, s).Some? <==>
                  s.stack != [] && Numeric(Peek(s.stack, 0)) && (target != Int ==> Peek(s.stack, 0) != target)
                  && |s.stack| <= m.maxStack)
            && (Apply(m, insn, s).Some? ==>
                  Apply(m, insn, s).value == FrameState(s.locals, s.stack[..|s.stack| - 1] + [target]))
  {
    hide ParseMethodDescriptor;
  }

  /** A constant is pushed with the type of its value; a reference is one to an unknown class. */
  lemma {:induction false} ConstantAccepted(m: Method, insn: Insn, s: FrameState)
    requires ParseMethodDescriptor(m.descriptor).Some? && PoolOk(m, insn)
    requires insn.op.Ldc? || insn.op.LdcW? || insn.op.Ldc2W?
    ensures Apply(m, insn, s).Some? <==> |s.stack| < m.maxStack
    ensures Apply(m, insn, s).Some? ==>
              var v := m.constants[insn.cp.value].value;
              var letter := match v case IntValue(_) => 'I' case LongValue(_) => 'J' case FloatValue(_) => 'F'
                                    case DoubleValue(_) => 'D' case AddressValue(_) => 'R' case RefValue(_) => 'A';
              && Apply(m, insn, s).value == FrameState(s.locals, s.stack + [TypeOfValue(v)])
              && OfLetter(TypeOfValue(v), letter)
  {
    hide ParseMethodDescriptor;
    assert s.stack[..|s.stack|] == s.stack;
  }

  lemma {:induction false} MultianewarrayAccepted(m: Method, insn: Insn, s: FrameState)
    requires ParseMethodDescriptor(m.descriptor).Some? && PoolOk(m, insn) && insn.op.Multianewarray? && insn.dims.Some?
    ensures var n := insn.dims.value;
            && (Apply(m, insn, s).Some? <==>
                  && n <= |s.stack| && (forall i :: |s.stack| - n <= i < |s.stack| ==> s.stack[i] == Int)
                  && |s.stack| - n + 1 <= m.maxStack)
            && (Apply(m, insn, s).Some? ==>
                  Apply(m, insn, s).value == FrameState(s.locals, s.stack[..|s.stack| - n] + [Reference(None)]))
  {
    hide ParseMethodDescriptor;
    var n := insn.dims.value;
    IntsNeeded(s.stack, n);
    hide NeedsMet, Meets;
  }

  lemma {:induction false} IntsNeeded(stack: seq<VerifyType>, n: nat)
    ensures NeedsMet(stack, seq(n, _ => Assign(Int))) <==>
            n <= |stack| && forall i :: |stack| - n <= i < |stack| ==> stack[i] == Int
  {
    var needs := seq(n, _ => Assign(Int));
    if NeedsMet(stack, needs) {
      forall i | |stack| - n <= i < |stack| ensures stack[i] == Int {
        assert Meets(needs[|stack| - 1 - i], Peek(stack, |stack| - 1 - i));
      }
    }
  }

  // ----- Fields and calls -----

  /** The values on top of the stack, in order, can be passed where these types are declared. */
  predicate Passes(stack: seq<VerifyType>, params: seq<VerifyType>) {
    |params| <= |stack| &&
    forall i :: 0 <= i < |params| ==> Compatible(stack[|stack| - |params| + i], params[i])
  }

  lemma {:induction false} ArgumentsPassed(stack: seq<VerifyType>, params: seq<VerifyType>)
    ensures NeedsMet(stack, ArgNeeds(params)) <==> Passes(stack, params)
  {
    var n, needs := |params|, ArgNeeds(params);
    if NeedsMet(stack, needs) {
      forall i | 0 <= i < n ensures Compatible(stack[|stack| - n + i], params[i]) {
        assert Meets(needs[n - 1 - i], Peek(stack, n - 1 - i));
      }
    }
    if Passes(stack, params) {
      forall k | 0 <= k < n ensures Meets(needs[k], Peek(stack, k)) {
        assert Compatible(stack[|stack| - n + (n - 1 - k)], params[n - 1 - k]);
      }
    }
  }

  lemma {:induction false} ReceiverPassed(stack: seq<VerifyType>, params: seq<VerifyType>)
    ensures NeedsMet(stack, ArgNeeds(params) + [RefLike]) <==>
            Passes(stack, params) && |params| < |stack| && OfLetter(stack[|stack| - |params| - 1], 'A')
  {
    ArgumentsPassed(stack, params);
    var needs := ArgNeeds(params) + [RefLike];
    if NeedsMet(stack, needs) {
      assert Meets(needs[|params|], Peek(stack, |params|));
      forall k | 0 <= k < |params| ensures Meets(ArgNeeds(params)[k], Peek(stack, k)) {
        assert Meets(needs[k], Peek(stack, k));
      }
    }
  }

  /** The descriptor a call goes by. */
  function CallDescriptor(m: Method, insn: Insn): string
    requires PoolOk(m, insn)
    requires insn.op.Invokestatic? || insn.op.Invokevirtual? || insn.op.Invokeinterface? || insn.op.Invokedynamic? ||
             insn.op.Invokespecial?
  {
    if insn.op.Invokedynamic? then Entry(m.dynamicSites, insn.cp.value).value
    else Entry(m.methodRefs, insn.cp.value).value.descriptor
  }

  /**
   A call other than a constructor's is accepted if and only if its descriptor can be read,
   the arguments are on top in order, a receiver is below them unless it is static or
   dynamic, and there is room for a result; then the result takes their place.
   */
  lemma {:induction false} CallAccepted(m: Method, insn: Insn, s: FrameState)
    requires ParseMethodDescriptor(m.descriptor).Some? && PoolOk(m, insn)
    requires insn.op.Invokestatic? || insn.op.Invokevirtual? || insn.op.Invokeinterface? || insn.op.Invokedynamic? ||
             (insn.op.Invokespecial? && !IsConstructorCall(m, insn))
    ensures var d := ParseMethodDescriptor(CallDescriptor(m, insn));
            var receivers := if insn.op.Invokestatic? || insn.op.Invokedynamic? then 0 else 1;
            && (Apply(m, insn, s).Some? <==>
                  && d.Some? && Passes(s.stack, d.value.0)
                  && (receivers == 1 ==> |d.value.0| < |s.stack| && OfLetter(s.stack[|s.stack| - |d.value.0| - 1], 'A'))
                  && (d.value.1.Some? ==> |s.stack| - |d.value.0| - receivers + 1 <= m.maxStack))
            && (Apply(m, insn, s).Some? ==>
                  Apply(m, insn, s).value ==
                  FrameState(s.locals, s.stack[..|s.stack| - |d.value.0| - receivers] +
                                         if d.value.1.Some? then [d.value.1.value] else []))
  {
    hide ParseMethodDescriptor, Passes, OfLetter, NeedsMet, Apply, ArgNeeds;
    CallSigned(m, insn, s);
    var d := ParseMethodDescriptor(CallDescriptor(m, insn));
    if d.Some? {
      ArgumentsPassed(s.stack, d.value.0);
      ReceiverPassed(s.stack, d.value.0);
      PassedFit(s.stack, d.value.0);
    }
  }

  /** The signature of a call. */
  lemma {:induction false} CallSigned(m: Method, insn: Insn, s: FrameState)
    requires ParseMethodDescriptor(m.descriptor).Some? && PoolOk(m, insn)
    requires insn.op.Invokestatic? || insn.op.Invokevirtual? || insn.op.Invokeinterface? || insn.op.Invokedynamic? ||
             (insn.op.Invokespecial? && !IsConstructorCall(m, insn))
    ensures var d := ParseMethodDescriptor(CallDescriptor(m, insn));
            Apply(m, insn, s) ==
              if d.None? then None
              else
                var args := ArgNeeds(d.value.0);
                var needs := if insn.op.Invokestatic? || insn.op.Invokedynamic? then args else args + [RefLike];
                var pushes := if d.value.1.Some? then [d.value.1.value] else [];
                WithStack(s, ApplySignature(s.stack, Signature(needs, pushes), m.maxStack))
  {
    hide ParseMethodDescriptor, NeedsMet, ArgNeeds, IsConstructorCall, PushAll, ApplySignature;
    var d := ParseMethodDescriptor(CallDescriptor(m, insn));
    assert d.Some? ==> ArgNeeds(d.value.0) + [] == ArgNeeds(d.value.0);
  }

  lemma {:induction false} PassedFit(stack: seq<VerifyType>, params: seq<VerifyType>)
    ensures Passes(stack, params) ==> |params| <= |stack|
  {
  }

  /** The type a field access goes by. */
  function FieldType(m: Method, insn: Insn): Option<VerifyType>
    requires PoolOk(m, insn) && (insn.op.Getstatic? || insn.op.Putstatic? || insn.op.Getfield? || insn.op.Putfield?)
  {
    ParseField(Entry(m.fieldRefs, insn.cp.value).value.descriptor)
  }

  /** A field access takes a value if it writes and an object if the field is not static, and pushes if it reads. */
  lemma {:induction false} FieldAccessAccepted(m: Method, insn: Insn, s: FrameState)
    requires ParseMethodDescriptor(m.descriptor).Some? && PoolOk(m, insn)
    requires insn.op.Getstatic? || insn.op.Putstatic? || insn.op.Getfield? || insn.op.Putfield?
    ensures var t := FieldType(m, insn);
            var values := if insn.op.Putstatic? || insn.op.Putfield? then 1 else 0;
            var objects := if insn.op.Getfield? || insn.op.Putfield? then 1 else 0;
            var n := |s.stack|;
            && (Apply(m, insn, s).Some? <==>
                  && t.Some? && values + objects <= n
                  && (values == 1 ==> Compatible(s.stack[n - 1], t.value))
                  && (objects == 1 ==> OfLetter(s.stack[n - values - 1], 'A'))
                  && (values == 0 ==> n - objects + 1 <= m.maxStack))
            && (Apply(m, insn, s).Some? ==>
                  Apply(m, insn, s).value ==
                  FrameState(s.locals, s.stack[..n - values - objects] + if values == 0 then [t.value] else []))
  {
    hide ParseMethodDescriptor, ParseField;
    FieldSigned(m, insn, s);
    hide NeedsMet, Compatible, OfLetter, Apply;
    if FieldType(m, insn).Some? {
      FieldNeeds(s.stack, FieldType(m, insn).value);
    }
  }

  /** The signature of a field access. */
  lemma {:induction false} FieldSigned(m: Method, insn: Insn, s: FrameState)
    requires ParseMethodDescriptor(m.descriptor).Some? && PoolOk(m, insn)
    requires insn.op.Getstatic? || insn.op.Putstatic? || insn.op.Getfield? || insn.op.Putfield?
    ensures var t := FieldType(m, insn);
            Apply(m, insn, s) ==
              if t.None? then None
              else
                var sig := match insn.op
                  case Getstatic => Signature([], [t.value])
                  case Putstatic => Signature([Assign(t.value)], [])
                  case Getfield => Signature([RefLike], [t.value])
                  case _ => Signature([Assign(t.value), RefLike], []);
                WithStack(s, ApplySignature(s.stack, sig, m.maxStack))
  {
    hide ParseMethodDescriptor, ParseField, NeedsMet;
  }

  lemma {:induction false} FieldNeeds(stack: seq<VerifyType>, t: VerifyType)
    ensures NeedsMet(stack, [])
    ensures NeedsMet(stack, [Assign(t)]) <==> |stack| >= 1 && Compatible(stack[|stack| - 1], t)
    ensures NeedsMet(stack, [RefLike]) <==> |stack| >= 1 && OfLetter(stack[|stack| - 1], 'A')
    ensures NeedsMet(stack, [Assign(t), RefLike]) <==>
            |stack| >= 2 && Compatible(stack[|stack| - 1], t) && OfLetter(stack[|stack| - 2], 'A')
  {
    hide Compatible;
    var needs := [Assign(t), RefLike];
    assert NeedsMet(stack, needs) ==> Meets(needs[0], Peek(stack, 0)) && Meets(needs[1], Peek(stack, 1));
    var one := [Assign(t)];
    assert NeedsMet(stack, one) ==> Meets(one[0], Peek(stack, 0));
    var object_ := [RefLike];
    assert NeedsMet(stack, object_) ==> Meets(object_[0], Peek(stack, 0));
  }

  /**
   A constructor call is accepted if and only if the arguments are on top in order and an
   object below them, initialised or not; afterwards every copy of that object's type, in
   the locals and on the stack, is the initialised one.
   */
  lemma {:induction false} ConstructorCallAccepted(m: Method, insn: Insn, s: FrameState)
    requires ParseMethodDescriptor(m.descriptor).Some? && PoolOk(m, insn) && IsConstructorCall(m, insn)
    ensures var d := ParseMethodDescriptor(CallDescriptor(m, insn));
            var class_ := Entry(m.methodRefs, insn.cp.value).value.className;
            && (Apply(m, insn, s).Some? <==>
                  && d.Some? && Passes(s.stack, d.value.0) && |d.value.0| < |s.stack|
                  && (var object_ := s.stack[|s.stack| - |d.value.0| - 1];
                      object_.UninitializedThis? || object_.Uninitialized? || object_.Reference?)
                  && (d.value.1.Some? ==> |s.stack| - |d.value.0| <= m.maxStack))
            && (Apply(m, insn, s).Some? ==>
                  var kept := |s.stack| - |d.value.0| - 1; var after := Apply(m, insn, s).value;
                  && |after.locals| == |s.locals| && |after.stack| == kept + (if d.value.1.Some? then 1 else 0)
                  && (forall i :: 0 <= i < |s.locals| ==>
                        after.locals[i] == if s.locals[i] == s.stack[kept] then Reference(Some(class_)) else s.locals[i])
                  && (forall i :: 0 <= i < kept ==>
                        after.stack[i] == if s.stack[i] == s.stack[kept] then Reference(Some(class_)) else s.stack[i])
                  && (d.value.1.Some? ==> after.stack[kept] == d.value.1.value))
  {
    hide ParseMethodDescriptor, Passes, NeedsMet;
    var d := ParseMethodDescriptor(CallDescriptor(m, insn));
    if d.Some? {
      ArgumentsPassed(s.stack, d.value.0);
      PassedFit(s.stack, d.value.0);
    }
  }

  // ----- Locals and returns -----

  /** A load is accepted if and only if the local holds a value of its kind and there is room for it. */
  lemma {:induction false} LoadAccepted(m: Method, insn: Insn, s: FrameState, i: nat)
    requires ParseMethodDescriptor(m.descriptor).Some?
    requires (insn.op.Load? || insn.op.LoadN?) && insn.local == Some(i)
    ensures Apply(m, insn, s).Some? <==>
            i < |s.locals| && OfLetter(s.locals[i], KindLetter(insn.op.k)[0]) && |s.stack| < m.maxStack
    ensures Apply(m, insn, s).Some? ==> Apply(m, insn, s).value == FrameState(s.locals, s.stack + [s.locals[i]])
  {
    hide ParseMethodDescriptor;
    SimpleNeeds();
    if !insn.op.k.KRef? {
      KindNeedIs(insn.op.k);
    }
  }

  /**
   A store is accepted if and only if a value of its kind is on top, or for astore a return
   address, and the local and the one behind a two-word value exist. It then holds the value;
   two-word values it cut in half are gone, and no other local changes.
   */
  lemma {:induction false} StoreAccepted(m: Method, insn: Insn, s: FrameState, i: nat)
    requires ParseMethodDescriptor(m.descriptor).Some?
    requires (insn.op.Store? || insn.op.StoreN?) && insn.local == Some(i)
    ensures Apply(m, insn, s).Some? <==>
            && s.stack != []
            && (OfLetter(Peek(s.stack, 0), KindLetter(insn.op.k)[0]) ||
                (insn.op.k.KRef? && OfLetter(Peek(s.stack, 0), 'R')))
            && i + (if insn.op.k.KLong? || insn.op.k.KDouble? then 1 else 0) < |s.locals|
    ensures Apply(m, insn, s).Some? ==>
              var after := Apply(m, insn, s).value; var wide := insn.op.k.KLong? || insn.op.k.KDouble?;
              && after.stack == s.stack[..|s.stack| - 1] && |after.locals| == |s.locals|
              && after.locals[i] == Peek(s.stack, 0)
              && (wide ==> after.locals[i + 1] == Top)
              && forall j :: 0 <= j < |s.locals| && j != i && !(wide && j == i + 1) ==>
                   after.locals[j] == if (j == i - 1 && IsWide(s.locals[j])) || (j == i + 1 && IsWide(s.locals[i]))
                                      then Top else s.locals[j]
  {
    hide ParseMethodDescriptor;
    if !insn.op.k.KRef? {
      KindNeedIs(insn.op.k);
    }
  }

  /** An iinc needs an int in its local, and ret a return address. */
  lemma {:induction false} LocalNeeded(m: Method, insn: Insn, s: FrameState, i: nat)
    requires ParseMethodDescriptor(m.descriptor).Some? && (insn.op.Iinc? || insn.op.Ret?) && insn.local == Some(i)
    ensures Apply(m, insn, s).Some? <==>
            i < |s.locals| && OfLetter(s.locals[i], if insn.op.Iinc? then 'I' else 'R')
    ensures Apply(m, insn, s).Some? ==> Apply(m, insn, s).value == s
  {
    hide ParseMethodDescriptor;
  }

  /**
   A return is accepted if and only if the method's own result is of its kind and a value of
   that kind is on top, or for return if the method has none; athrow needs a reference.
   */
  lemma {:induction false} ReturnAccepted(m: Method, insn: Insn, s: FrameState)
    requires ParseMethodDescriptor(m.descriptor).Some?
    requires insn.op.TypedReturn? || insn.op.Return? || insn.op.Athrow?
    ensures var ret := ParseMethodDescriptor(m.descriptor).value.1;
            Apply(m, insn, s).Some? <==>
              if insn.op.TypedReturn? then
                && s.stack != [] && OfLetter(Peek(s.stack, 0), KindLetter(insn.op.k)[0])
                && ret.Some? && OfLetter(ret.value, KindLetter(insn.op.k)[0])
              else if insn.op.Return? then ret.None?
              else s.stack != [] && OfLetter(Peek(s.stack, 0), 'A')
    ensures Apply(m, insn, s).Some? ==> Apply(m, insn, s).value == FrameState(s.locals, [])
  {
    ParsedTypesAreDescriptorTypes(m.descriptor);
    hide ParseMethodDescriptor;
    if insn.op.TypedReturn? && !insn.op.k.KRef? {
      KindNeedIs(insn.op.k);
    }
  }

  // ----- Where execution goes on -----

  /** By the opcode's byte: everything falls through but 0xa7 to 0xb1, athrow and the long jumps. */
  lemma {:induction false} FallthroughIff(b: byte)
    requires FromByte(b).Some?
    ensures HasFallthrough(FromByte(b).value) <==> !(0xa7 <= b <= 0xb1 || b == 0xbf || b == 0xc8 || b == 0xc9)
  {
    if b < 0x94 {
      LowFallsThrough(b);
    } else {
      HighInvertible(b);
      hide FromHighByte;
    }
  }

  lemma {:induction false} LowFallsThrough(b: byte)
    requires FromByte(b).Some? && b < 0x94
    ensures HasFallthrough(FromByte(b).value)
  {
    if 0x85 <= b <= 0x93 {
      ConversionInvertible(b - 0x85);
    }
  }

  /** An exception at an offset flows to the targets of exactly the handlers that cover it. */
  lemma {:induction false} HandlerFlowsAre(handlers: seq<Handler>, pc: nat, locals: seq<VerifyType>, f: Flow)
    ensures f in HandlerFlows(handlers, pc, locals) <==>
            exists h :: h in handlers && h.start <= pc < h.end && IsEntry(h, locals, f)
    decreases |handlers|
  {
    if handlers != [] {
      HandlerFlowsAre(handlers[1..], pc, locals, f);
      assert forall h :: h in handlers <==> h == handlers[0] || h in handlers[1..];
    }
  }

  /** A frame that enters a handler: the locals of the instruction, and the exception alone on the stack. */
  predicate IsEntry(h: Handler, locals: seq<VerifyType>, f: Flow) {
    f == Flow(h.target, FrameState(locals, [Reference(
      match h.catchClass case Some(c) => Some(c) case None => Some("java/lang/Throwable"))]))
  }

  /** Everything that flows from an instruction: into handlers, to the next one, to its targets and back from a subroutine. */
  lemma {:induction false} FlowsAre(m: Method, insn: Insn, s: FrameState, f: Flow)
    requires Flows(m, insn, s).Some?
    ensures f in Flows(m, insn, s).value <==>
            || f in HandlerFlows(m.handlers, insn.pc, s.locals)
            || (f.state == Apply(m, insn, s).value &&
                (|| (HasFallthrough(insn.op) && f.to == insn.next)
                 || f.to in insn.targets
                 || (insn.op.Ret? && insn.local.Some? && insn.local.value < |f.state.locals| &&
                     f.state.locals[insn.local.value] == ReturnAddress(f.to))))
  {
    hide Apply, HandlerFlows, HasFallthrough;
    var after := Apply(m, insn, s).value;
    var branches := BranchFlows(insn.targets, after);
    assert f in branches <==> f.state == after && f.to in insn.targets by {
      if f.state == after && f.to in insn.targets {
        var k :| 0 <= k < |insn.targets| && insn.targets[k] == f.to;
        assert branches[k] == f;
      }
    }
  }
}
