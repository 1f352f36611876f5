/**
 Class initialisation: the table shared by all threads and the protocol by which one of
 them runs a class's initialiser while the others wait, over every interleaving.
 */
module ClassInit {
  import opened Wrappers

  type ThreadId = t: nat | t >= 1 witness 1

  datatype InitState = Initializing(owner: ThreadId) | Initialized

  type Table = map<string, InitState>

  /** What a thread that needs a class does next. */
  datatype Action = Proceed | WaitForOther | RunInitializer

  function Decide(table: Table, c: string, t: ThreadId): Action {
    if c !in table then RunInitializer
    else if table[c].Initialized? || table[c].owner == t then Proceed
    else WaitForOther
  }

  function Begun(table: Table, c: string, t: ThreadId): Table {
    if c in table then table else table[c := Initializing(t)]
  }

  function Ended(table: Table, c: string, success: bool): Table {
    if success then table[c := Initialized] else table - {c}
  }

  /** The critical sections of the protocol. */
  class RuntimeState {
    var initializedClasses: Table

    constructor ()
      ensures initializedClasses == map[]
    {
      initializedClasses := map[];
    }

    /** Looks a class up and, if nobody has started on it, claims it. */
    method Begin(c: string, t: ThreadId) returns (action: Action)
      modifies this
      ensures action == Decide(old(initializedClasses), c, t)
      ensures initializedClasses == Begun(old(initializedClasses), c, t)
    {
      if c in initializedClasses {
        match initializedClasses[c] {
          case Initialized => action := Proceed;
          case Initializing(owner) => action := if owner == t then Proceed else WaitForOther;
        }
      } else {
        initializedClasses := initializedClasses[c := Initializing(t)];
        action := RunInitializer;
      }
    }

    /** Records how the initialiser ended: success is final, failure forgets the attempt. */
    method End(c: string, success: bool)
      modifies this
      ensures initializedClasses == Ended(old(initializedClasses), c, success)
    {
      if success {
        initializedClasses := initializedClasses[c := Initialized];
      } else {
        initializedClasses := initializedClasses - {c};
      }
    }
  }

  // ----- All interleavings -----

  /** The table, the initialisers each thread is inside of, and how often each one succeeded. */
  datatype System = System(table: Table, running: ThreadId -> seq<string>, successes: string -> nat)

  datatype Event = Need(c: string) | Finish(success: bool)

  ghost function PutRunning(f: ThreadId -> seq<string>, t: ThreadId, v: seq<string>): ThreadId -> seq<string> {
    (u: ThreadId) => if u == t then v else f(u)
  }

  ghost function PutCount(f: string -> nat, c: string, v: nat): string -> nat {
    (d: string) => if d == c then v else f(d)
  }

  /**
   A thread asks for a class, from inside any number of initialisers of its own, or the
   innermost of them ends. One that has to wait changes nothing and asks again later.
   */
  ghost function Step(s: System, t: ThreadId, e: Event): System {
    match e
    case Need(c) =>
      s.(table := Begun(s.table, c, t),
         running := if Decide(s.table, c, t).RunInitializer? then PutRunning(s.running, t, s.running(t) + [c]) else s.running)
    case Finish(success) =>
      var mine := s.running(t);
      if mine == [] then s
      else
        var c := mine[|mine| - 1];
        s.(table := Ended(s.table, c, success),
           running := PutRunning(s.running, t, mine[..|mine| - 1]),
           successes := if success then PutCount(s.successes, c, s.successes(c) + 1) else s.successes)
  }

  ghost predicate NoRepeats(cs: seq<string>) {
    forall i, j :: 0 <= i < j < |cs| ==> cs[i] != cs[j]
  }

  /** A class is being initialised by a thread exactly when it is among that thread's initialisers. */
  ghost predicate OwnersOk(s: System) {
    forall t: ThreadId, c: string :: c in s.running(t) <==> c in s.table && s.table[c] == Initializing(t)
  }

  ghost predicate Inv(s: System) {
    && OwnersOk(s)
    && (forall t: ThreadId :: NoRepeats(s.running(t)))
    && forall c: string :: s.successes(c) == if c in s.table && s.table[c].Initialized? then 1 else 0
  }

  ghost predicate Initial(s: System) {
    && s.table == map[]
    && (forall t: ThreadId :: s.running(t) == [])
    && forall c: string :: s.successes(c) == 0
  }

  lemma {:induction false} NeedKeepsInv(s: System, t: ThreadId, c: string)
    requires Inv(s)
    ensures Inv(Step(s, t, Need(c)))
  {
    var d := Step(s, t, Need(c));
    if c !in s.table {
      assert c !in s.running(t);
      assert d.running(t) == s.running(t) + [c];
      forall u: ThreadId, b: string ensures b in d.running(u) <==> b in d.table && d.table[b] == Initializing(u) {
        assert b in s.running(u) <==> b in s.table && s.table[b] == Initializing(u);
      }
      forall u: ThreadId ensures NoRepeats(d.running(u)) {
        assert NoRepeats(s.running(u));
      }
    }
  }

  /** Ending the innermost initialiser removes its class, and only it, from what the thread runs. */
  lemma {:induction false} InnermostLeaves(mine: seq<string>, b: string)
    requires NoRepeats(mine) && mine != []
    ensures b in mine[..|mine| - 1] <==> b in mine && b != mine[|mine| - 1]
  {
  }

  lemma {:induction false} FinishKeepsOwner(s: System, t: ThreadId, success: bool, u: ThreadId, b: string)
    requires Inv(s) && s.running(t) != []
    ensures var d := Step(s, t, Finish(success));
            b in d.running(u) <==> b in d.table && d.table[b] == Initializing(u)
  {
    var mine := s.running(t);
    var c := mine[|mine| - 1];
    assert NoRepeats(mine) && c in mine;
    assert c in s.table && s.table[c] == Initializing(t);
    InnermostLeaves(mine, b);
    assert b in s.running(u) <==> b in s.table && s.table[b] == Initializing(u);
    assert c in s.running(u) <==> s.table[c] == Initializing(u);
  }

  lemma {:induction false} FinishKeepsOwners(s: System, t: ThreadId, success: bool)
    requires Inv(s) && s.running(t) != []
    ensures OwnersOk(Step(s, t, Finish(success)))
  {
    var d := Step(s, t, Finish(success));
    forall u: ThreadId, b: string ensures b in d.running(u) <==> b in d.table && d.table[b] == Initializing(u) {
      FinishKeepsOwner(s, t, success, u, b);
    }
  }

  lemma {:induction false} FinishKeepsInv(s: System, t: ThreadId, success: bool)
    requires Inv(s) && s.running(t) != []
    ensures Inv(Step(s, t, Finish(success)))
  {
    var d := Step(s, t, Finish(success));
    var c := s.running(t)[|s.running(t)| - 1];
    FinishKeepsOwners(s, t, success);
    forall u: ThreadId ensures NoRepeats(d.running(u)) {
      assert NoRepeats(s.running(u));
    }
    assert c in s.running(t);
    assert s.successes(c) == 0;
  }

  lemma {:induction false} StepKeepsInv(s: System, t: ThreadId, e: Event)
    requires Inv(s)
    ensures Inv(Step(s, t, e))
  {
    match e {
      case Need(c) => NeedKeepsInv(s, t, c);
      case Finish(success) => if s.running(t) != [] { FinishKeepsInv(s, t, success); }
    }
  }

  ghost predicate IsRun(trace: seq<System>, steps: seq<(ThreadId, Event)>) {
    && |trace| == |steps| + 1
    && Initial(trace[0])
    && forall k :: 0 <= k < |steps| ==> StepsTo(trace[k], steps[k], trace[k + 1])
  }

  ghost predicate StepsTo(s: System, step: (ThreadId, Event), d: System) {
    d == Step(s, step.0, step.1)
  }

  lemma {:induction false} RunInv(trace: seq<System>, steps: seq<(ThreadId, Event)>, k: nat)
    requires IsRun(trace, steps) && k < |trace|
    ensures Inv(trace[k])
  {
    hide Step;
    if k > 0 {
      RunInv(trace, steps, k - 1);
      assert StepsTo(trace[k - 1], steps[k - 1], trace[k - 1 + 1]);
      StepKeepsInv(trace[k - 1], steps[k - 1].0, steps[k - 1].1);
    }
  }

  /** At most one thread is inside a class's initialiser, once, and it succeeds at most once. */
  lemma {:induction false} OneInitializer(trace: seq<System>, steps: seq<(ThreadId, Event)>, k: nat, c: string)
    requires IsRun(trace, steps) && k < |trace|
    ensures forall t: ThreadId, u: ThreadId :: c in trace[k].running(t) && c in trace[k].running(u) ==> t == u
    ensures forall t: ThreadId :: NoRepeats(trace[k].running(t))
    ensures trace[k].successes(c) <= 1
    ensures trace[k].successes(c) == 1 <==> c in trace[k].table && trace[k].table[c].Initialized?
  {
    RunInv(trace, steps, k);
    forall t: ThreadId, u: ThreadId | c in trace[k].running(t) && c in trace[k].running(u) ensures t == u {
      assert trace[k].table[c] == Initializing(t) && trace[k].table[c] == Initializing(u);
    }
  }

  lemma {:induction false} StepKeepsInitialized(s: System, t: ThreadId, e: Event, c: string)
    requires Inv(s) && c in s.table && s.table[c].Initialized?
    ensures c in Step(s, t, e).table && Step(s, t, e).table[c].Initialized?
  {
    if e.Finish? && s.running(t) != [] {
      var ending := s.running(t)[|s.running(t)| - 1];
      assert ending in s.running(t);
    }
  }

  /** An initialised class stays initialised for the rest of every run. */
  lemma {:induction false} InitializedForGood(
      trace: seq<System>, steps: seq<(ThreadId, Event)>, k: nat, j: nat, c: string)
    requires IsRun(trace, steps) && k <= j < |trace|
    requires c in trace[k].table && trace[k].table[c].Initialized?
    ensures c in trace[j].table && trace[j].table[c].Initialized?
    decreases j
  {
    if k < j {
      InitializedForGood(trace, steps, k, j - 1, c);
      RunInv(trace, steps, j - 1);
      assert StepsTo(trace[j - 1], steps[j - 1], trace[j - 1 + 1]);
      StepKeepsInitialized(trace[j - 1], steps[j - 1].0, steps[j - 1].1, c);
    }
  }

  /**
   A thread may go on with a class if and only if the class is initialised or the thread
   is itself inside the class's initialiser.
   */
  lemma {:induction false} ProceedIff(trace: seq<System>, steps: seq<(ThreadId, Event)>, k: nat, t: ThreadId, c: string)
    requires IsRun(trace, steps) && k < |trace|
    ensures Decide(trace[k].table, c, t).Proceed? <==> trace[k].successes(c) == 1 || c in trace[k].running(t)
    ensures Decide(trace[k].table, c, t).WaitForOther? <==> exists u: ThreadId :: u != t && c in trace[k].running(u)
  {
    var s := trace[k];
    RunInv(trace, steps, k);
    if Decide(s.table, c, t).WaitForOther? {
      assert c in s.running(s.table[c].owner);
    }
  }

  /** A failed initialiser leaves the class as if never started: whoever asks next runs it again. */
  lemma {:induction false} FailureAllowsRetry(
      trace: seq<System>, steps: seq<(ThreadId, Event)>, k: nat, t: ThreadId, u: ThreadId)
    requires IsRun(trace, steps) && k < |trace| && trace[k].running(t) != []
    ensures var c := trace[k].running(t)[|trace[k].running(t)| - 1];
            var failed := Step(trace[k], t, Finish(false));
            && Decide(failed.table, c, u).RunInitializer?
            && c in Step(failed, u, Need(c)).running(u)
            && failed.successes(c) == 0
  {
    RunInv(trace, steps, k);
    var c := trace[k].running(t)[|trace[k].running(t)| - 1];
    assert c in trace[k].running(t);
    var failed := Step(trace[k], t, Finish(false));
    assert Step(failed, u, Need(c)).running(u) == failed.running(u) + [c];
  }
}
