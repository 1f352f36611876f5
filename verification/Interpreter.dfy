/**
 The interpreter loop over mutable frames: one thread's call stack, exception delivery and
 calls, proved to take exactly the machine's steps.
 */
module Interpreter {
  import opened Wrappers
  import opened Words
  import opened Bytecode
  import opened Program
  import opened Descriptors
  import opened DescriptorScanners
  import opened Decoder
  import opened Fetch
  import opened Machine
  import opened Frames

  /** A thread's call stack, innermost frame last. */
  class CallStack {
    var frames: seq<Frame>

    ghost predicate Valid()
      reads this
    {
      frames != [] && forall i, j :: 0 <= i < j < |frames| ==> frames[i] != frames[j]
    }

    constructor (first: Frame)
      ensures Valid() && frames == [first]
    {
      frames := [first];
    }

    function Values(): (r: seq<FrameV>)
      reads this, frames
      ensures |r| == |frames|
    {
      seq(|frames|, i requires 0 <= i < |frames| reads this, frames => frames[i].Value())
    }

    function Depth(): nat
      reads this
    {
      |frames|
    }

    function CurrentFrame(): Frame
      requires frames != []
      reads this
    {
      frames[|frames| - 1]
    }

    method PushFrame(frame: Frame)
      requires Valid() && frame !in frames
      modifies this
      ensures Valid() && frames == old(frames) + [frame]
      ensures Values() == old(Values()) + [frame.Value()]
    {
      frames := frames + [frame];
    }

    method PopFrame() returns (frame: Frame)
      requires Valid() && |frames| > 1
      modifies this
      ensures Valid() && frames == old(frames[..|frames| - 1]) && frame == old(CurrentFrame())
      ensures Values() == old(Values())[..|old(frames)| - 1]
    {
      frame := frames[|frames| - 1];
      frames := frames[..|frames| - 1];
    }
  }

  /** How one iteration of the loop ended. */
  datatype Iteration = Continue | Finished(v: Option<Value>) | Failed(e: VmError)

  class Vm {
    const env: Env
    var heap: seq<string>

    constructor (env: Env)
      ensures this.env == env && heap == []
    {
      this.env := env;
      heap := [];
    }

    function State(stack: CallStack): Thread
      reads this, stack, stack.frames
    {
      Thread(stack.Values(), heap)
    }

    /** An iteration did what the machine does. */
    ghost predicate Follows(it: Iteration, stack: CallStack, spec: Outcome)
      reads this, stack, stack.frames
    {
      match spec
      case Running(t) => it.Continue? && stack.Valid() && State(stack) == t
      case Returned(v, final) => it == Finished(v) && heap == final
      case Failed(e) => it == Iteration.Failed(e)
    }

    /** Searches a frame's handlers in table order. */
    method FindCatcher(handlers: seq<Handler>, pc: nat, className: string) returns (h: Option<Handler>)
      ensures h == FindHandler(env, handlers, pc, className)
    {
      assert handlers[0..] == handlers;
      for k := 0 to |handlers|
        invariant FindHandler(env, handlers[k..], pc, className) == FindHandler(env, handlers, pc, className)
      {
        assert handlers[k..][0] == handlers[k] && handlers[k..][1..] == handlers[k + 1..];
        if Covers(handlers[k], pc) &&
           (handlers[k].catchClass.None? || env.instanceOf(className, handlers[k].catchClass.value))
        {
          return Some(handlers[k]);
        }
      }
      return None;
    }

    lemma {:induction false} UnwindSkips(frames: seq<FrameV>, className: string, r: Reference)
      requires |frames| > 1
      requires var f := frames[|frames| - 1]; FindHandler(env, f.m.handlers, ThrowPc(f), className).None?
      ensures Unwind(env, frames, className, r) == Unwind(env, frames[..|frames| - 1], className, r)
    {
    }

    lemma {:induction false} UnwindStops(frames: seq<FrameV>, className: string, r: Reference)
      requires frames != []
      ensures var f := frames[|frames| - 1];
              var h := FindHandler(env, f.m.handlers, ThrowPc(f), className);
              && (h.Some? && f.m.maxStack == 0 ==> Unwind(env, frames, className, r) == Err(StackOverflow))
              && (h.Some? && f.m.maxStack > 0 ==>
                    Unwind(env, frames, className, r)
                    == Ok(frames[..|frames| - 1] + [f.(pc := h.value.target, stack := [RefValue(r)])]))
              && (h.None? && |frames| == 1 ==> Unwind(env, frames, className, r) == Err(UnhandledException(className)))
    {
    }

    /**
     Unwinds to the innermost frame with a matching handler. When there is none the bottom
     frame is left, and it has no handler either.
     */
    method Deliver(stack: CallStack, className: string, r: Reference) returns (e: Option<VmError>)
      requires stack.Valid()
      modifies stack, stack.frames
      ensures stack.Valid() && stack.frames <= old(stack.frames)
      ensures match Unwind(env, old(stack.Values()), className, r)
              case Ok(frames) => e.None? && stack.Values() == frames
              case Err(x) => e == Some(x)
      ensures e.Some? ==> e.value.StackOverflow? || e.value == UnhandledException(className)
      ensures e == Some(UnhandledException(className)) ==> Uncaught(stack, className)
    {
      hide Unwind, FindHandler;
      ghost var was := stack.Values();
      assert was[..|stack.frames|] == was;
      while true
        invariant stack.Valid() && stack.frames <= old(stack.frames)
        invariant stack.Values() == was[..|stack.frames|]
        invariant Unwind(env, was[..|stack.frames|], className, r) == Unwind(env, was, className, r)
        decreases |stack.frames|
      {
        var frame := stack.CurrentFrame();
        var h := FindCatcher(frame.m.handlers, ThrowPc(frame.Value()), className);
        UnwindStops(was[..|stack.frames|], className, r);
        if h.Some? {
          e := Enter(stack, h.value, r);
          return;
        }
        if stack.Depth() == 1 {
          return Some(UnhandledException(className));
        }
        ghost var n := |stack.frames|;
        UnwindSkips(was[..n], className, r);
        var _ := stack.PopFrame();
        assert was[..n][..n - 1] == was[..n - 1];
      }
    }

    /** Clears the innermost frame's stack down to the exception and jumps to the handler. */
    method Enter(stack: CallStack, h: Handler, r: Reference) returns (e: Option<VmError>)
      requires stack.Valid()
      modifies stack.frames
      ensures stack.Valid()
      ensures var f := old(stack.CurrentFrame().Value());
              if f.m.maxStack == 0 then e == Some(StackOverflow)
              else e.None? && stack.Values() == old(stack.Values())[..|stack.frames| - 1]
                                                + [f.(pc := h.target, stack := [RefValue(r)])]
    {
      var frame := stack.CurrentFrame();
      frame.stack := [];
      var pushed := frame.Push(RefValue(r));
      if pushed.Err? {
        return Some(StackOverflow);
      }
      frame.pc := h.target;
      ghost var last := |stack.frames| - 1;
      assert forall i :: 0 <= i < last ==> stack.frames[i] != frame;
      assert frame.Value() == old(stack.CurrentFrame().Value()).(pc := h.target, stack := [RefValue(r)]);
      assert stack.Values() == old(stack.Values())[..last] + [frame.Value()];
      return None;
    }

    /** No handler of the bottom frame, the only one left, catches the class. */
    ghost predicate Uncaught(stack: CallStack, className: string)
      reads stack, stack.frames
    {
      && |stack.frames| == 1
      && FindHandler(env, stack.frames[0].m.handlers, ThrowPc(stack.frames[0].Value()), className).None?
    }

    /** What executing one opcode did, before the loop has turned errors into exceptions. */
    ghost predicate Pending(it: Iteration, stack: CallStack, spec: Outcome)
      reads this, stack, stack.frames
    {
      && (it.Continue? || (it.Failed? && it.e.NullReference?) ==> stack.Valid())
      && match it
         case Continue => spec == Running(State(stack))
         case Finished(v) => spec == Returned(v, heap)
         case Failed(e) =>
           if e.NullReference? then spec == ThrowNew(env, State(stack), NULL_POINTER_EXCEPTION)
           else spec == Outcome.Failed(e) && (e.UnhandledException? ==> stack.Valid() && Uncaught(stack, e.className))
    }

    method ThrowException(stack: CallStack, r: Reference) returns (it: Iteration)
      requires stack.Valid() && r.Heap?
      modifies stack, stack.frames
      ensures it.Failed? ==> !it.e.NullReference?
      ensures forall i :: 0 <= i < |stack.frames| ==> stack.frames[i] in old(stack.frames) || fresh(stack.frames[i])
      ensures stack.Valid() && Pending(it, stack, Throw(env, old(State(stack)), r))
    {
      hide Unwind, FindHandler;
      if r.index >= |heap| {
        return Iteration.Failed(InvalidHeapReference);
      }
      var e := Deliver(stack, heap[r.index], r);
      return if e.Some? then Iteration.Failed(e.value) else Continue;
    }

    method ThrowNewException(stack: CallStack, className: string) returns (it: Iteration)
      requires stack.Valid()
      modifies this, stack, stack.frames
      ensures it.Failed? ==> !it.e.NullReference?
      ensures forall i :: 0 <= i < |stack.frames| ==> stack.frames[i] in old(stack.frames) || fresh(stack.frames[i])
      ensures stack.Valid() && Pending(it, stack, ThrowNew(env, old(State(stack)), className))
    {
      hide Unwind, FindHandler;
      heap := heap + [className];
      it := ThrowException(stack, Heap(|heap| - 1));
    }

    // ----- Calls and returns -----

    /** Lays arguments out as locals: a long or double takes two slots. */
    method LayOutArguments(args: seq<Value>) returns (locals: seq<Option<Value>>)
      ensures locals == ArgsToLocals(args)
    {
      locals := [];
      assert args[0..] == args;
      for k := 0 to |args|
        invariant locals + ArgsToLocals(args[k..]) == ArgsToLocals(args)
      {
        assert args[k..][0] == args[k] && args[k..][1..] == args[k + 1..];
        var slots := if IsWideValue(args[k]) then [Some(args[k]), None] else [Some(args[k])];
        assert (locals + slots) + ArgsToLocals(args[k + 1..]) == locals + (slots + ArgsToLocals(args[k + 1..]));
        locals := locals + slots;
      }
    }

    /** Pops a call's arguments, last one first, and puts them back in order. */
    method PopArguments(frame: Frame, count: nat) returns (args: Option<seq<Value>>)
      modifies frame`stack
      ensures args.Some? <==> count <= old(|frame.stack|)
      ensures args.Some? ==> args.value == old(frame.stack[|frame.stack| - count..])
      ensures args.Some? ==> frame.stack == old(frame.stack[..|frame.stack| - count])
    {
      var popped: seq<Value> := [];
      while |popped| < count
        invariant |popped| <= count && |popped| <= old(|frame.stack|)
        invariant frame.stack == old(frame.stack)[..old(|frame.stack|) - |popped|]
        invariant popped == old(frame.stack)[old(|frame.stack|) - |popped|..]
      {
        var v := frame.Pop();
        if v.Err? {
          return None;
        }
        popped := [v.value] + popped;
      }
      return Some(popped);
    }

    /** A call, once its reference, its argument count and its callee are known. */
    lemma {:induction false} InvokeCases(t: Thread, index: nat)
      requires t.frames != []
      ensures var f := Current(t);
              match Entry(f.m.methodRefs, index)
              case None => Invoke(env, t, index) == Outcome.Failed(InvalidMethodRefIndex)
              case Some(ref) =>
                match ArgCount(ref.descriptor)
                case None => Invoke(env, t, index) == Outcome.Failed(InvalidDescriptor)
                case Some(n) =>
                  && (n > |f.stack| ==> Invoke(env, t, index) == Outcome.Failed(StackUnderflow))
                  && (n <= |f.stack| && ref !in env.table ==> Invoke(env, t, index) == Outcome.Failed(MethodNotFound))
                  && (n <= |f.stack| && ref in env.table ==>
                        Invoke(env, t, index) == Calling(t, env.table[ref], |f.stack| - n))
    {
      hide ArgCount, NewFrame;
    }

    /** The machine's state once a callee has taken its arguments from a stack height on. */
    function Calling(t: Thread, callee: Method, base: nat): Outcome
      requires t.frames != [] && base <= |Current(t).stack|
    {
      var f := Current(t);
      Running(t.(frames := WithCurrent(t, f.(stack := f.stack[..base])).frames + [NewFrame(callee, f.stack[base..])]))
    }

    /** Finds the callee and takes its arguments off the caller's stack. */
    method ResolveCall(frame: Frame, index: nat, ghost t: Thread) returns (r: Result<(Method, seq<Value>), Fault>)
      requires t.frames != [] && Current(t) == frame.Value()
      modifies frame`stack
      ensures r.Err? ==> Invoke(env, t, index) == Outcome.Failed(r.error)
      ensures r.Ok? ==> |r.value.1| <= old(|frame.stack|)
      ensures r.Ok? ==> Invoke(env, t, index) == Calling(t, r.value.0, old(|frame.stack|) - |r.value.1|)
      ensures r.Ok? ==> r.value.1 == old(frame.stack[|frame.stack| - |r.value.1|..])
      ensures r.Ok? ==> frame.stack == old(frame.stack)[..old(|frame.stack|) - |r.value.1|]
    {
      hide ArgCount, Invoke, Calling;
      InvokeCases(t, index);
      var ref := Entry(frame.m.methodRefs, index);
      if ref.None? {
        return Err(InvalidMethodRefIndex);
      }
      var count := ParseArgCount(ref.value.descriptor);
      if count.None? {
        return Err(InvalidDescriptor);
      }
      var args := PopArguments(frame, count.value);
      if args.None? {
        return Err(StackUnderflow);
      }
      return if ref.value in env.table then Ok((env.table[ref.value], args.value)) else Err(MethodNotFound);
    }

    method InvokeStatic(stack: CallStack, index: nat) returns (it: Iteration)
      requires stack.Valid()
      modifies stack, stack.frames
      ensures forall i :: 0 <= i < |stack.frames| ==> stack.frames[i] in old(stack.frames) || fresh(stack.frames[i])
      ensures Pending(it, stack, Invoke(env, old(State(stack)), index))
    {
      hide ArgsToLocals, ThrowNew, Uncaught, Invoke;
      ghost var was := State(stack);
      var call := ResolveCall(stack.CurrentFrame(), index, was);
      if call.Err? {
        return Iteration.Failed(call.error);
      }
      CurrentChanged(stack, was);
      var locals := LayOutArguments(call.value.1);
      var callee := new Frame(call.value.0, locals);
      assert callee.Value() == NewFrame(call.value.0, call.value.1);
      stack.PushFrame(callee);
      return Continue;
    }

    /** When only the innermost frame changed, the state is the old one with that frame replaced. */
    lemma {:induction false} CurrentChanged(stack: CallStack, was: Thread)
      requires stack.Valid() && was.frames != [] && |was.frames| == |stack.frames| && was.heap == heap
      requires forall i :: 0 <= i < |stack.frames| - 1 ==> stack.frames[i].Value() == was.frames[i]
      ensures State(stack) == WithCurrent(was, stack.CurrentFrame().Value())
    {
    }

    lemma {:induction false} ReturnCases(t: Thread)
      requires t.frames != []
      ensures var f := Current(t);
              var below := t.(frames := t.frames[..|t.frames| - 1]);
              && (f.stack == [] ==> ReturnValue(t) == Outcome.Failed(StackUnderflow))
              && (f.stack != [] && |t.frames| == 1 ==> ReturnValue(t) == Returned(Some(f.stack[|f.stack| - 1]), t.heap))
              && (f.stack != [] && |t.frames| > 1 ==>
                    ReturnValue(t) ==
                    match Machine.Push(Current(below), f.stack[|f.stack| - 1])
                    case Ok(g) => Running(WithCurrent(below, g))
                    case Err(stop) => Outcome.Failed(if stop.Error? then stop.e else Unmodelled))
    {
      hide Machine.Push;
    }

    method ReturnTyped(stack: CallStack) returns (it: Iteration)
      requires stack.Valid()
      modifies stack, stack.frames
      ensures forall i :: 0 <= i < |stack.frames| ==> stack.frames[i] in old(stack.frames) || fresh(stack.frames[i])
      ensures Pending(it, stack, ReturnValue(old(State(stack))))
    {
      hide ThrowNew, Uncaught, Machine.Push, ReturnValue;
      ReturnCases(State(stack));
      var v := stack.CurrentFrame().Pop();
      if v.Err? {
        return Iteration.Failed(StackUnderflow);
      }
      if stack.Depth() == 1 {
        return Finished(Some(v.value));
      }
      it := HandOver(stack, v.value);
    }

    /** Drops the innermost frame and gives its result to the one below. */
    method HandOver(stack: CallStack, v: Value) returns (it: Iteration)
      requires stack.Valid() && |stack.frames| > 1
      modifies stack, stack.frames
      ensures forall i :: 0 <= i < |stack.frames| ==> stack.frames[i] in old(stack.frames)
      ensures var was := old(State(stack));
              var below := was.(frames := was.frames[..|was.frames| - 1]);
              match Machine.Push(Current(below), v)
              case Ok(g) => it.Continue? && stack.Valid() && State(stack) == WithCurrent(below, g)
              case Err(stop) => stop.Error? && it == Iteration.Failed(stop.e)
    {
      ghost var was := State(stack);
      ghost var below := was.(frames := was.frames[..|was.frames| - 1]);
      var _ := stack.PopFrame();
      assert stack.Values() == below.frames;
      var pushed := stack.CurrentFrame().Push(v);
      if pushed.Err? {
        return Iteration.Failed(StackOverflow);
      }
      CurrentChanged(stack, below);
      return Continue;
    }

    method ReturnPlain(stack: CallStack) returns (it: Iteration)
      requires stack.Valid()
      modifies stack
      ensures forall i :: 0 <= i < |stack.frames| ==> stack.frames[i] in old(stack.frames) || fresh(stack.frames[i])
      ensures Pending(it, stack, ReturnVoid(old(State(stack))))
    {
      hide ThrowNew, Uncaught;
      if stack.Depth() == 1 {
        return Finished(None);
      }
      var _ := stack.PopFrame();
      return Continue;
    }

    method Raise(stack: CallStack) returns (it: Iteration)
      requires stack.Valid()
      modifies stack, stack.frames
      ensures forall i :: 0 <= i < |stack.frames| ==> stack.frames[i] in old(stack.frames) || fresh(stack.frames[i])
      ensures Pending(it, stack, ExecAthrow(env, old(State(stack))))
    {
      hide Unwind, FindHandler;
      var r := stack.CurrentFrame().PopRef();
      if r.Err? {
        return Iteration.Failed(if r.error.Error? then r.error.e else Unmodelled);
      }
      CurrentChanged(stack, old(State(stack)));
      if r.value.Null? {
        return Iteration.Failed(NullReference);
      }
      it := ThrowException(stack, r.value);
    }

    // ----- The loop -----

    /** What the machine does for the instructions that act on the call stack. */
    static lemma {:induction false} StackActions(code: seq<byte>, pc: nat, op: Opcode)
      requires WellKinded(op) && ActsOnStack(op)
      ensures !op.Invokestatic? ==> FetchOperands(code, pc, op) == Ok(Fetched(op, NoOperand, pc))
      ensures op.Invokestatic? ==> FetchOperands(code, pc, op) == FetchU16(code, pc, op)
    {
    }

    static lemma {:induction false} StackActionCases(env: Env, t: Thread, at: nat, x: Fetched)
      requires t.frames != [] && Fits(x) && ActsOnStack(x.op)
      ensures x.op.TypedReturn? ==> Machine.Execute(env, t, at, x) == ReturnValue(t)
      ensures x.op.Return? ==> Machine.Execute(env, t, at, x) == ReturnVoid(t)
      ensures x.op.Athrow? ==> Machine.Execute(env, t, at, x) == ExecAthrow(env, t)
      ensures x.op.Invokestatic? ==> x.arg.Index? && Machine.Execute(env, t, at, x) == Invoke(env, t, x.arg.i)
    {
    }

    /** Executes one opcode, its byte already read, in the innermost frame. */
    method ExecuteOpcode(stack: CallStack, op: Opcode, at: nat) returns (it: Iteration)
      requires stack.Valid() && WellKinded(op)
      modifies this, stack, stack.frames
      ensures forall i :: 0 <= i < |stack.frames| ==> stack.frames[i] in old(stack.frames) || fresh(stack.frames[i])
      ensures var was := old(State(stack));
              var f := Current(was);
              match FetchOperands(f.m.code, f.pc, op)
              case Err(e) => it == Iteration.Failed(e)
              case Ok(x) => Pending(it, stack, Machine.Execute(env, WithCurrent(was, f.(pc := x.next)), at, x))
    {
      if ActsOnStack(op) {
        it := ExecuteStackAction(stack, op, at);
      } else {
        it := ExecuteLocal(stack, op, at);
      }
    }

    method ExecuteStackAction(stack: CallStack, op: Opcode, at: nat) returns (it: Iteration)
      requires stack.Valid() && WellKinded(op) && ActsOnStack(op)
      modifies this, stack, stack.frames
      ensures forall i :: 0 <= i < |stack.frames| ==> stack.frames[i] in old(stack.frames) || fresh(stack.frames[i])
      ensures var was := old(State(stack));
              var f := Current(was);
              match FetchOperands(f.m.code, f.pc, op)
              case Err(e) => it == Iteration.Failed(e)
              case Ok(x) => Pending(it, stack, Machine.Execute(env, WithCurrent(was, f.(pc := x.next)), at, x))
    {
      hide FetchOperands, ReturnValue, ReturnVoid, ExecAthrow, Machine.Execute, Pending;
      if op.Invokestatic? {
        it := ExecuteCall(stack, op, at);
      } else {
        ghost var was := State(stack);
        ghost var f := Current(was);
        StackActions(f.m.code, f.pc, op);
        assert WithCurrent(was, f.(pc := f.pc)) == was;
        StackActionCases(env, was, at, Fetched(op, NoOperand, f.pc));
        it := ExecuteEnd(stack, op);
      }
    }

    method ExecuteCall(stack: CallStack, op: Opcode, at: nat) returns (it: Iteration)
      requires stack.Valid() && op.Invokestatic?
      modifies this, stack, stack.frames
      ensures forall i :: 0 <= i < |stack.frames| ==> stack.frames[i] in old(stack.frames) || fresh(stack.frames[i])
      ensures var was := old(State(stack));
              var f := Current(was);
              match FetchOperands(f.m.code, f.pc, op)
              case Err(e) => it == Iteration.Failed(e)
              case Ok(x) => Pending(it, stack, Machine.Execute(env, WithCurrent(was, f.(pc := x.next)), at, x))
    {
      hide FetchOperands, Invoke, Machine.Execute, Pending;
      ghost var was := State(stack);
      ghost var f := Current(was);
      StackActions(f.m.code, f.pc, op);
      ghost var fetched := FetchOperands(f.m.code, f.pc, op);
      var index := stack.CurrentFrame().ReadU16();
      if index.None? {
        return Iteration.Failed(UnexpectedEof);
      }
      CurrentChanged(stack, was);
      StackActionCases(env, WithCurrent(was, f.(pc := fetched.value.next)), at, fetched.value);
      it := InvokeStatic(stack, index.value);
    }

    /** A return or a throw, which have no operands. */
    method ExecuteEnd(stack: CallStack, op: Opcode) returns (it: Iteration)
      requires stack.Valid() && ActsOnStack(op) && !op.Invokestatic?
      modifies this, stack, stack.frames
      ensures forall i :: 0 <= i < |stack.frames| ==> stack.frames[i] in old(stack.frames) || fresh(stack.frames[i])
      ensures op.TypedReturn? ==> Pending(it, stack, ReturnValue(old(State(stack))))
      ensures op.Return? ==> Pending(it, stack, ReturnVoid(old(State(stack))))
      ensures op.Athrow? ==> Pending(it, stack, ExecAthrow(env, old(State(stack))))
    {
      hide ReturnValue, ReturnVoid, ExecAthrow, Pending;
      if op.TypedReturn? {
        it := ReturnTyped(stack);
      } else if op.Return? {
        it := ReturnPlain(stack);
      } else {
        it := Raise(stack);
      }
    }

    /** Throwing does not look at the operand stack of the frame that throws. */
    lemma {:induction false} ThrowIgnoresStack(t: Thread, f: FrameV, className: string)
      requires t.frames != [] && f.(stack := []) == Current(t).(stack := [])
      ensures ThrowNew(env, WithCurrent(t, f), className) == ThrowNew(env, t, className)
    {
      var u := WithCurrent(t, f);
      var r := Heap(|t.heap|);
      assert u.frames[..|u.frames| - 1] == t.frames[..|t.frames| - 1];
      assert Unwind(env, u.frames, className, r) == Unwind(env, t.frames, className, r);
    }

    static lemma {:induction false} LocalActionCases(env: Env, t: Thread, at: nat, x: Fetched)
      requires t.frames != [] && Fits(x) && !ActsOnStack(x.op)
      ensures Machine.Execute(env, t, at, x) ==
              match ExecFrame(env.floats, Current(t), at, x)
              case Ok(g) => Running(WithCurrent(t, g))
              case Err(Raise(c)) => ThrowNew(env, t, c)
              case Err(Error(e)) => Outcome.Failed(e)
    {
      hide ExecFrame, ThrowNew, Fits;
    }

    method ExecuteLocal(stack: CallStack, op: Opcode, at: nat) returns (it: Iteration)
      requires stack.Valid() && WellKinded(op) && !ActsOnStack(op)
      modifies this, stack, stack.frames
      ensures forall i :: 0 <= i < |stack.frames| ==> stack.frames[i] in old(stack.frames) || fresh(stack.frames[i])
      ensures var was := old(State(stack));
              var f := Current(was);
              match FetchOperands(f.m.code, f.pc, op)
              case Err(e) => it == Iteration.Failed(e)
              case Ok(x) => Pending(it, stack, Machine.Execute(env, WithCurrent(was, f.(pc := x.next)), at, x))
    {
      hide ExecFrame, FetchOperands, ThrowNew, Fits, Machine.Execute, Pending;
      var frame := stack.CurrentFrame();
      ghost var was := State(stack);
      ghost var f := Current(was);
      var r := frame.Execute(env.floats, op, at);
      CurrentChanged(stack, was);
      ghost var fetched := FetchOperands(f.m.code, f.pc, op);
      if fetched.Ok? {
        FetchedOpcode(f.m.code, f.pc, op);
        ghost var t := WithCurrent(was, f.(pc := fetched.value.next));
        LocalActionCases(env, t, at, fetched.value);
        assert WithCurrent(t, frame.Value()) == State(stack);
      }
      it := Conclude(stack, r, frame,
                     if fetched.Ok? then WithCurrent(was, f.(pc := fetched.value.next)) else was,
                     if fetched.Ok? then ExecFrame(env.floats, f.(pc := fetched.value.next), at, fetched.value)
                     else Fail(fetched.error));
    }

    /** Turns what an instruction did to the innermost frame into what it did to the thread. */
    method Conclude(stack: CallStack, r: Result<(), Stop>, frame: Frame, ghost t: Thread, ghost spec: FrameResult)
      returns (it: Iteration)
      requires stack.Valid() && stack.CurrentFrame() == frame && t.frames != []
      requires Did(r, Current(t), frame.Value(), spec)
      requires r.Ok? || r.error.Raise? ==> State(stack) == WithCurrent(t, frame.Value())
      modifies this, stack, stack.frames
      ensures forall i :: 0 <= i < |stack.frames| ==> stack.frames[i] in old(stack.frames) || fresh(stack.frames[i])
      ensures Pending(it, stack,
                      match spec
                      case Ok(g) => Running(WithCurrent(t, g))
                      case Err(Raise(c)) => ThrowNew(env, t, c)
                      case Err(Error(e)) => Outcome.Failed(e))
      ensures spec.Err? && spec.error.Error? ==> it == Iteration.Failed(spec.error.e)
    {
      hide ThrowNew, Uncaught;
      if r.Ok? {
        return Continue;
      }
      match r.error {
        case Error(e) => return Iteration.Failed(e);
        case Raise(className) =>
          ThrowIgnoresStack(t, frame.Value(), className);
          it := ThrowNewException(stack, className);
      }
    }

    lemma {:induction false} UncaughtFails(stack: CallStack, className: string)
      requires Uncaught(stack, className)
      ensures ThrowNew(env, State(stack), className) == Outcome.Failed(UnhandledException(className))
    {
    }

    /** Errors the loop turns into exceptions; one already unhandled fails again in the bottom frame. */
    method RaisePending(pending: Iteration, stack: CallStack, ghost spec: Outcome) returns (it: Iteration)
      requires Pending(pending, stack, spec)
      modifies this, stack, stack.frames
      ensures Follows(it, stack, spec)
      ensures forall i :: 0 <= i < |stack.frames| ==> stack.frames[i] in old(stack.frames) || fresh(stack.frames[i])
    {
      hide ThrowNew, Uncaught;
      it := pending;
      if it.Failed? && it.e.NullReference? {
        it := ThrowNewException(stack, NULL_POINTER_EXCEPTION);
      } else if it.Failed? && it.e.UnhandledException? {
        UncaughtFails(stack, it.e.className);
        it := ThrowNewException(stack, it.e.className);
      }
    }

    /** An error that no exception stands for is the outcome as it is. */
    lemma {:induction false} FaultPends(stack: CallStack, e: Fault)
      ensures Pending(Iteration.Failed(e), stack, Outcome.Failed(e))
    {
    }

    static lemma {:induction false} StepCases(env: Env, t: Thread)
      requires t.frames != [] && Current(t).pc < |Current(t).m.code|
      ensures var f := Current(t); var b := f.m.code[f.pc];
              && (FromByte(b).None? ==> Machine.Step(env, t) == Outcome.Failed(InvalidOpcode))
              && (FromByte(b).Some? ==>
                    && WellKinded(FromByte(b).value)
                    && Machine.Step(env, t) ==
                       match FetchOperands(f.m.code, f.pc + 1, FromByte(b).value)
                       case Err(e) => Outcome.Failed(e)
                       case Ok(x) => Machine.Execute(env, WithCurrent(t, f.(pc := x.next)), f.pc, x))
    {
      hide FromByte, FetchOperands, Machine.Execute;
      if FromByte(Current(t).m.code[Current(t).pc]).Some? {
        FromByteWellKinded(Current(t).m.code[Current(t).pc]);
      }
    }

    /** One iteration of the loop, including the exceptions it raises for errors of the VM. */
    method Iterate(stack: CallStack) returns (it: Iteration)
      requires stack.Valid()
      modifies this, stack, stack.frames
      ensures Follows(it, stack, Machine.Step(env, old(State(stack))))
      ensures forall i :: 0 <= i < |stack.frames| ==> stack.frames[i] in old(stack.frames) || fresh(stack.frames[i])
    {
      hide FromByte, FetchOperands, Machine.Execute, Machine.Step, ThrowNew, Uncaught, Pending;
      var frame := stack.CurrentFrame();
      ghost var was := State(stack);
      var at := frame.pc;
      if at >= |frame.m.code| {
        StepAtEnd(env, was);
        return Iteration.Failed(MissingReturn);
      }
      StepCases(env, was);
      var b := frame.ReadU8();
      var op := FromByte(b.value);
      if op.None? {
        return Iteration.Failed(InvalidOpcode);
      }
      CurrentChanged(stack, was);
      it := ExecuteOpcode(stack, op.value, at);
      ghost var read := FetchOperands(Current(was).m.code, at + 1, op.value);
      if read.Err? {
        FaultPends(stack, read.error);
      }
      it := RaisePending(it, stack, Machine.Step(env, was));
    }

    static lemma {:induction false} StepAtEnd(env: Env, t: Thread)
      requires t.frames != [] && Current(t).pc >= |Current(t).m.code|
      ensures Machine.Step(env, t) == Outcome.Failed(MissingReturn)
    {
    }

    /** The loop, stopped after a number of iterations. */
    method RunFor(stack: CallStack, n: nat) returns (it: Iteration)
      requires stack.Valid()
      modifies this, stack, stack.frames
      ensures Follows(it, stack, Run(env, old(State(stack)), n))
    {
      hide Machine.Step;
      it := Continue;
      ghost var was := State(stack);
      for k := 0 to n
        invariant stack.Valid()
        invariant forall i :: 0 <= i < |stack.frames| ==> stack.frames[i] in old(stack.frames) || fresh(stack.frames[i])
        invariant Run(env, was, n) == Run(env, State(stack), n - k)
      {
        it := Iterate(stack);
        if !it.Continue? {
          return;
        }
      }
      return Continue;
    }
  }
}
