/**
 What calls, returns and exceptions do to a call stack: which handler is entered, where the
 arguments and the result of a call go, and that a callee never touches the frames below it.
 */
module ThreadFacts {
  import opened Wrappers
  import opened Bytecode
  import opened Program
  import opened VerifyTypes
  import opened Descriptors
  import opened Fetch
  import opened Machine

  // ----- Which handler -----

  /** The handler's range holds the offset, and its class is one the exception is an instance of. */
  predicate Catches(env: Env, h: Handler, pc: nat, className: string) {
    h.start <= pc < h.end && (h.catchClass.Some? ==> env.instanceOf(className, h.catchClass.value))
  }

  /** The k-th handler is the first of the table that catches. */
  ghost predicate IsFirstHandler(env: Env, handlers: seq<Handler>, pc: nat, className: string, k: nat) {
    && k < |handlers| && Catches(env, handlers[k], pc, className)
    && forall j :: 0 <= j < k ==> !Catches(env, handlers[j], pc, className)
  }

  lemma {:induction false} FirstHandlerTaken(env: Env, handlers: seq<Handler>, pc: nat, className: string, k: nat)
    requires IsFirstHandler(env, handlers, pc, className, k)
    ensures FindHandler(env, handlers, pc, className) == Some(handlers[k])
    decreases |handlers|
  {
    if k > 0 {
      assert !Catches(env, handlers[0], pc, className);
      FirstHandlerTaken(env, handlers[1..], pc, className, k - 1);
    }
  }

  lemma {:induction false} NoHandlerTaken(env: Env, handlers: seq<Handler>, pc: nat, className: string)
    requires forall k :: 0 <= k < |handlers| ==> !Catches(env, handlers[k], pc, className)
    ensures FindHandler(env, handlers, pc, className) == None
    decreases |handlers|
  {
    if handlers != [] {
      assert !Catches(env, handlers[0], pc, className);
      NoHandlerTaken(env, handlers[1..], pc, className);
    }
  }

  /** No handler of the frame catches the class at the offset the exception is attributed to. */
  ghost predicate LetsThrough(env: Env, f: FrameV, className: string) {
    forall k :: 0 <= k < |f.m.handlers| ==>
      !Catches(env, f.m.handlers[k], if f.pc == 0 then 0 else f.pc - 1, className)
  }

  /**
   An exception goes to the innermost frame that has a handler for it, to the first such
   handler of its table; the frames above are gone, and of that frame only the locals stay.
   */
  lemma {:induction false} UnwoundToHandler(
      env: Env, frames: seq<FrameV>, className: string, r: Reference, d: nat, k: nat)
    requires d < |frames| && forall j :: d < j < |frames| ==> LetsThrough(env, frames[j], className)
    requires var f := frames[d];
             IsFirstHandler(env, f.m.handlers, if f.pc == 0 then 0 else f.pc - 1, className, k)
    ensures Unwind(env, frames, className, r) ==
            if frames[d].m.maxStack == 0 then Err(StackOverflow)
            else Ok(frames[..d] + [frames[d].(pc := frames[d].m.handlers[k].target, stack := [RefValue(r)])])
    decreases |frames|
  {
    var f := frames[|frames| - 1];
    if d == |frames| - 1 {
      FirstHandlerTaken(env, f.m.handlers, ThrowPc(f), className, k);
    } else {
      assert LetsThrough(env, f, className);
      NoHandlerTaken(env, f.m.handlers, ThrowPc(f), className);
      var rest := frames[..|frames| - 1];
      UnwoundToHandler(env, rest, className, r, d, k);
      assert rest[..d] == frames[..d];
    }
  }

  /** Without one in any frame the thread ends with the exception's class. */
  lemma {:induction false} UnwoundToNothing(env: Env, frames: seq<FrameV>, className: string, r: Reference)
    requires frames != [] && forall j :: 0 <= j < |frames| ==> LetsThrough(env, frames[j], className)
    ensures Unwind(env, frames, className, r) == Err(UnhandledException(className))
    decreases |frames|
  {
    var f := frames[|frames| - 1];
    assert LetsThrough(env, f, className);
    NoHandlerTaken(env, f.m.handlers, ThrowPc(f), className);
    if |frames| > 1 {
      UnwoundToNothing(env, frames[..|frames| - 1], className, r);
    }
  }

  /** What becomes of a thread whose exception is caught by the k-th handler of frame d. */
  function Caught(t: Thread, d: nat, k: nat, r: Reference): Outcome
    requires d < |t.frames| && k < |t.frames[d].m.handlers|
  {
    var f := t.frames[d];
    if f.m.maxStack == 0 then Failed(StackOverflow)
    else Running(t.(frames := t.frames[..d] + [f.(pc := f.m.handlers[k].target, stack := [RefValue(r)])]))
  }

  /** Where the exception of a class goes: the handler of UnwoundToHandler. */
  ghost predicate GoesToHandler(env: Env, frames: seq<FrameV>, className: string, d: nat, k: nat) {
    && d < |frames| && (forall j :: d < j < |frames| ==> LetsThrough(env, frames[j], className))
    && var f := frames[d]; IsFirstHandler(env, f.m.handlers, if f.pc == 0 then 0 else f.pc - 1, className, k)
  }

  /** An instruction that raises an exception makes a new object of its class, and that is what the handler gets. */
  lemma {:induction false} RaisedIsCaught(env: Env, t: Thread, at: nat, x: Fetched, className: string, d: nat, k: nat)
    requires t.frames != [] && Fits(x) && !ActsOnStack(x.op)
    requires ExecFrame(env.floats, Current(t), at, x) == Err(Raise(className))
    requires GoesToHandler(env, t.frames, className, d, k)
    ensures Execute(env, t, at, x) == Caught(t.(heap := t.heap + [className]), d, k, Heap(|t.heap|))
  {
    UnwoundToHandler(env, t.frames, className, Heap(|t.heap|), d, k);
    hide ExecFrame, Unwind;
    assert (t.heap + [className])[|t.heap|] == className;
  }

  /** An athrow throws the object on top of the stack, and a new NullPointerException where that is null. */
  lemma {:induction false} ThrownIsCaught(env: Env, t: Thread, rest: seq<Value>, r: Reference, d: nat, k: nat)
    requires t.frames != [] && Current(t).stack == rest + [RefValue(r)]
    requires r.Heap? ==> r.index < |t.heap|
    requires var className := if r.Null? then "java/lang/NullPointerException" else t.heap[r.index];
             GoesToHandler(env, WithCurrent(t, Current(t).(stack := rest)).frames, className, d, k)
    ensures var popped := WithCurrent(t, Current(t).(stack := rest));
            ExecAthrow(env, t) ==
              if r.Null? then
                Caught(popped.(heap := t.heap + ["java/lang/NullPointerException"]), d, k, Heap(|t.heap|))
              else Caught(popped, d, k, r)
  {
    var popped := WithCurrent(t, Current(t).(stack := rest));
    var className := if r.Null? then NULL_POINTER_EXCEPTION else t.heap[r.index];
    UnwoundToHandler(env, popped.frames, className, if r.Null? then Heap(|t.heap|) else r, d, k);
    assert Current(t).stack[..|rest|] == rest;
    hide Unwind;
    assert (t.heap + [className])[|t.heap|] == className;
  }

  // ----- Arguments -----

  /** The slot of the k-th argument: two-word arguments before it take two. */
  function ArgumentSlot(args: seq<Value>, k: nat): nat
    requires k <= |args|
  {
    if k == 0 then 0 else ArgumentSlot(args, k - 1) + if IsWideValue(args[k - 1]) then 2 else 1
  }

  lemma {:induction false} ArgumentSlotRest(args: seq<Value>, k: nat)
    requires args != [] && k < |args|
    ensures ArgumentSlot(args, k + 1) == (if IsWideValue(args[0]) then 2 else 1) + ArgumentSlot(args[1..], k)
    decreases k
  {
    if k > 0 {
      ArgumentSlotRest(args, k - 1);
    }
  }

  lemma {:induction false} ArgumentsCounted(args: seq<Value>)
    ensures |ArgsToLocals(args)| == ArgumentSlot(args, |args|)
    decreases |args|
  {
    if args != [] {
      ArgumentsCounted(args[1..]);
      ArgumentSlotRest(args, |args| - 1);
    }
  }

  lemma {:induction false} SlotsGrow(args: seq<Value>, k: nat, n: nat)
    requires k <= n <= |args|
    ensures ArgumentSlot(args, k) <= ArgumentSlot(args, n)
    decreases n
  {
    if k < n {
      SlotsGrow(args, k, n - 1);
    }
  }

  /** Every argument is in its own slot, with an empty one behind it if it takes two words. */
  lemma {:induction false} ArgumentInSlot(args: seq<Value>, k: nat)
    requires k < |args|
    ensures |ArgsToLocals(args)| == ArgumentSlot(args, |args|) >= ArgumentSlot(args, k + 1)
    ensures ArgsToLocals(args)[ArgumentSlot(args, k)] == Some(args[k])
    ensures IsWideValue(args[k]) ==> ArgsToLocals(args)[ArgumentSlot(args, k) + 1] == None
    decreases |args|
  {
    ArgumentsCounted(args);
    SlotsGrow(args, k + 1, |args|);
    if k > 0 {
      ArgumentInSlot(args[1..], k - 1);
      ArgumentSlotRest(args, k - 1);
      ArgumentSlotRest(args, k);
    }
  }

  /**
   A static call takes the arguments off the caller's stack, the last one from the top, and
   runs the method of the table in a new frame that has them in its first slots and nothing
   else; the caller is otherwise as it was.
   */
  lemma {:induction false} CallPassesArguments(env: Env, t: Thread, index: nat, ref: MethodRef, rest: seq<Value>, args: seq<Value>)
    requires t.frames != [] && Entry(Current(t).m.methodRefs, index) == Some(ref) && ref in env.table
    requires ParseMethodDescriptor(ref.descriptor).Some? && |ParseMethodDescriptor(ref.descriptor).value.0| == |args|
    requires Current(t).stack == rest + args
    ensures var f := Current(t); var callee := NewFrame(env.table[ref], args);
            && Invoke(env, t, index) == Running(t.(frames := t.frames[..|t.frames| - 1] + [f.(stack := rest), callee]))
            && callee.m == env.table[ref] && callee.pc == 0 && callee.stack == [] && |callee.locals| == callee.m.maxLocals
            && (forall k :: 0 <= k < |args| && ArgumentSlot(args, k) < |callee.locals| ==>
                  callee.locals[ArgumentSlot(args, k)] == Some(args[k]))
            && forall i :: ArgumentSlot(args, |args|) <= i < |callee.locals| ==> callee.locals[i] == None
  {
    ArgumentsAgree(ref.descriptor);
    hide ParseMethodDescriptor, ArgCount;
    var f := Current(t);
    assert f.stack[..|rest|] == rest && f.stack[|rest|..] == args;
    ArgumentsCounted(args);
    forall k | 0 <= k < |args| ensures
      && ArgumentSlot(args, k) < |ArgsToLocals(args)|
      && ArgsToLocals(args)[ArgumentSlot(args, k)] == Some(args[k])
    {
      ArgumentInSlot(args, k);
    }
    var caller := f.(stack := rest);
    assert WithCurrent(t, caller).frames + [NewFrame(env.table[ref], args)]
        == t.frames[..|t.frames| - 1] + [caller, NewFrame(env.table[ref], args)];
  }

  // ----- Frames below -----

  /** A return puts its value on the caller's stack and changes nothing else of the frames that are left. */
  lemma {:induction false} ReturnsToCaller(t: Thread)
    requires |t.frames| > 1 && Current(t).stack != []
    ensures var n := |t.frames|; var caller := t.frames[n - 2];
            && ReturnVoid(t) == Running(t.(frames := t.frames[..n - 1]))
            && (|caller.stack| < caller.m.maxStack ==>
                  ReturnValue(t) ==
                  Running(t.(frames := t.frames[..n - 2] +
                                       [caller.(stack := caller.stack + [Current(t).stack[|Current(t).stack| - 1]])])))
  {
    var n := |t.frames|;
    assert t.frames[..n - 1][..n - 2] == t.frames[..n - 2];
  }

  lemma {:induction false} UnwindKeepsBelow(env: Env, frames: seq<FrameV>, className: string, r: Reference)
    requires frames != [] && Unwind(env, frames, className, r).Ok?
    ensures var left := Unwind(env, frames, className, r).value;
            |left| <= |frames| && left[..|left| - 1] == frames[..|left| - 1] && left[|left| - 1].m == frames[|left| - 1].m
    decreases |frames|
  {
    hide FindHandler;
    var rest := frames[..|frames| - 1];
    if FindHandler(env, frames[|frames| - 1].m.handlers, ThrowPc(frames[|frames| - 1]), className).None? {
      UnwindKeepsBelow(env, rest, className, r);
      var left := Unwind(env, rest, className, r).value;
      assert rest[..|left| - 1] == frames[..|left| - 1];
    }
  }

  /** One iteration reaches no frame below the innermost one that is left. */
  ghost predicate KeepsBelow(t: Thread, o: Outcome) {
    o.Running? && o.t.frames != [] ==>
      var k := if |o.t.frames| <= |t.frames| then |o.t.frames| - 1 else |t.frames| - 1;
      k >= 0 && o.t.frames[..k] == t.frames[..k]
  }

  lemma {:induction false} ThrowKeepsBelow(env: Env, t: Thread, r: Reference)
    requires t.frames != []
    ensures KeepsBelow(t, Throw(env, t, r))
  {
    hide Unwind;
    if r.Heap? && r.index < |t.heap| && Unwind(env, t.frames, t.heap[r.index], r).Ok? {
      UnwindKeepsBelow(env, t.frames, t.heap[r.index], r);
    }
  }

  lemma {:induction false} ExecuteKeepsBelow(env: Env, t: Thread, at: nat, x: Fetched)
    requires t.frames != [] && Fits(x)
    ensures KeepsBelow(t, Execute(env, t, at, x))
  {
    hide ExecFrame, Throw, Unwind, NewFrame, ArgCount, KeepsBelow;
    if x.op.TypedReturn? || x.op.Return? {
      assert KeepsBelow(t, ReturnValue(t)) && KeepsBelow(t, ReturnVoid(t)) by { ReturnKeepsBelow(t); }
    } else if x.op.Athrow? {
      AthrowKeepsBelow(env, t);
    } else if x.op.Invokestatic? {
      InvokeKeepsBelow(env, t, x.arg.i);
    } else {
      LocalKeepsBelow(env, t, at, x);
    }
  }

  lemma {:induction false} ReturnKeepsBelow(t: Thread)
    requires t.frames != []
    ensures KeepsBelow(t, ReturnValue(t)) && KeepsBelow(t, ReturnVoid(t))
  {
    var n := |t.frames|;
    if n > 1 {
      assert t.frames[..n - 1][..n - 2] == t.frames[..n - 2];
    }
  }

  lemma {:induction false} AthrowKeepsBelow(env: Env, t: Thread)
    requires t.frames != []
    ensures KeepsBelow(t, ExecAthrow(env, t))
  {
    hide Throw;
    if PopRef(Current(t)).Ok? {
      var (r, g) := PopRef(Current(t)).value;
      var u := WithCurrent(t, g);
      assert u.frames[..|u.frames| - 1] == t.frames[..|t.frames| - 1];
      ThrowKeepsBelow(env, u, r);
      var v := u.(heap := u.heap + [NULL_POINTER_EXCEPTION]);
      ThrowKeepsBelow(env, v, Heap(|u.heap|));
      SameBelow(t, u, Throw(env, u, r));
      SameBelow(t, v, Throw(env, v, Heap(|u.heap|)));
    }
  }

  /** Threads that differ in their innermost frame only have the same frames below. */
  lemma {:induction false} SameBelow(t: Thread, u: Thread, o: Outcome)
    requires t.frames != [] && |u.frames| == |t.frames| && u.frames[..|u.frames| - 1] == t.frames[..|t.frames| - 1]
    requires KeepsBelow(u, o)
    ensures KeepsBelow(t, o)
  {
    if o.Running? && o.t.frames != [] {
      var k := if |o.t.frames| <= |t.frames| then |o.t.frames| - 1 else |t.frames| - 1;
      assert u.frames[..k] == u.frames[..|u.frames| - 1][..k] == t.frames[..|t.frames| - 1][..k] == t.frames[..k];
    }
  }

  lemma {:induction false} InvokeKeepsBelow(env: Env, t: Thread, index: nat)
    requires t.frames != []
    ensures KeepsBelow(t, Invoke(env, t, index))
  {
    hide ArgCount, NewFrame;
  }

  lemma {:induction false} LocalKeepsBelow(env: Env, t: Thread, at: nat, x: Fetched)
    requires t.frames != [] && Fits(x)
    requires !(x.op.TypedReturn? || x.op.Return? || x.op.Athrow? || x.op.Invokestatic?)
    ensures KeepsBelow(t, Execute(env, t, at, x))
  {
    hide ExecFrame, Throw, Fits;
    match ExecFrame(env.floats, Current(t), at, x) {
      case Err(Raise(c)) =>
        var v := t.(heap := t.heap + [c]);
        ThrowKeepsBelow(env, v, Heap(|t.heap|));
        SameBelow(t, v, Throw(env, v, Heap(|t.heap|)));
      case _ =>
    }
  }

  lemma {:induction false} StepKeepsBelow(env: Env, t: Thread)
    requires t.frames != []
    ensures KeepsBelow(t, Step(env, t))
  {
    hide Execute, FetchAt;
    var f := Current(t);
    if f.pc < |f.m.code| && FetchAt(f.m.code, f.pc).Ok? {
      var x := FetchAt(f.m.code, f.pc).value;
      var u := WithCurrent(t, f.(pc := x.next));
      assert u.frames[..|u.frames| - 1] == t.frames[..|t.frames| - 1];
      ExecuteKeepsBelow(env, u, f.pc, x);
      SameBelow(t, u, Execute(env, u, f.pc, x));
    }
  }

  /** Through n iterations the thread keeps running with more than d frames. */
  ghost predicate StaysAbove(env: Env, t: Thread, d: nat, n: nat)
    requires t.frames != []
  {
    forall i: nat :: i <= n ==> Run(env, t, i).Running? && |Run(env, t, i).t.frames| > d
  }

  /**
   Isolation: as long as a callee and what it calls have not returned, whatever they do and
   throw, the frames below are exactly what they were.
   */
  lemma {:induction false} CalleeIsolated(env: Env, t: Thread, d: nat, n: nat)
    requires t.frames != [] && d <= |t.frames| && StaysAbove(env, t, d, n)
    ensures Run(env, t, n).t.frames[..d] == t.frames[..d]
    decreases n
  {
    hide Step;
    assert Run(env, t, 0).Running? && |t.frames| > d;
    if n > 0 {
      assert Run(env, t, 1).Running?;
      var u := Step(env, t).t;
      StepKeepsBelow(env, t);
      assert |Run(env, t, 1).t.frames| > d;
      assert u.frames[..d] == t.frames[..d] by { PrefixKept(t, Step(env, t), d); }
      forall i: nat | i <= n - 1 ensures Run(env, u, i).Running? && |Run(env, u, i).t.frames| > d {
        assert Run(env, t, i + 1) == Run(env, u, i);
      }
      CalleeIsolated(env, u, d, n - 1);
    }
  }

  lemma {:induction false} PrefixKept(t: Thread, o: Outcome, d: nat)
    requires o.Running? && o.t.frames != [] && KeepsBelow(t, o) && d < |o.t.frames| && d < |t.frames|
    ensures o.t.frames[..d] == t.frames[..d]
  {
    var k := if |o.t.frames| <= |t.frames| then |o.t.frames| - 1 else |t.frames| - 1;
    assert o.t.frames[..d] == o.t.frames[..k][..d] == t.frames[..k][..d] == t.frames[..d];
  }
}
