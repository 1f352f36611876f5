/**
 Object monitors: the critical sections under the shared mutex, and the step system of any
 number of threads sleeping on the one condition variable all monitors share.
 */
module Monitors {
  import opened Wrappers

  type ObjectId = nat

  /** Thread numbers start at one; zero means nobody. */
  type ThreadId = t: nat | t >= 1 witness 1

  datatype MonitorState = MonitorState(lockCount: nat, owner: nat, waiting: nat, pending: nat)

  const UNUSED := MonitorState(0, 0, 0, 0)

  type Table = map<ObjectId, MonitorState>

  /** An object without an entry has an unused monitor. */
  function View(table: Table, m: ObjectId): MonitorState {
    if m in table then table[m] else UNUSED
  }

  predicate Free(s: MonitorState, t: ThreadId) {
    s.lockCount == 0 || s.owner == t
  }

  predicate Owns(s: MonitorState, t: ThreadId) {
    s.lockCount > 0 && s.owner == t
  }

  // ----- What each critical section does to a monitor -----

  function Entered(s: MonitorState, t: ThreadId): MonitorState {
    s.(owner := t, lockCount := s.lockCount + 1)
  }

  function Exited(s: MonitorState): MonitorState
    requires s.lockCount > 0
  {
    if s.lockCount == 1 then s.(lockCount := 0, owner := 0) else s.(lockCount := s.lockCount - 1)
  }

  function Released(s: MonitorState): MonitorState {
    s.(lockCount := 0, owner := 0, waiting := s.waiting + 1)
  }

  predicate CanResume(s: MonitorState, t: ThreadId) {
    s.pending > 0 && Free(s, t)
  }

  function Resumed(s: MonitorState, t: ThreadId, saved: nat): MonitorState
    requires s.pending > 0 && s.waiting > 0
  {
    MonitorState(saved, t, s.waiting - 1, s.pending - 1)
  }

  /** Notifications a call adds: never more than there are waiters without one. */
  function NewGrants(s: MonitorState, all: bool): nat {
    if s.waiting <= s.pending then 0 else if all then s.waiting - s.pending else 1
  }

  function Notified(s: MonitorState, all: bool): MonitorState {
    s.(pending := s.pending + NewGrants(s, all))
  }

  // ----- The shared table -----

  /** The table of monitors; a method is one critical section, and says whether it wakes all sleepers. */
  class SharedMonitors {
    var states: Table

    constructor ()
      ensures states == map[]
    {
      states := map[];
    }

    /** The entry for an object, made on demand. */
    method EntryOrDefault(m: ObjectId) returns (s: MonitorState)
      modifies this
      ensures s == View(old(states), m) && states == old(states)[m := s]
    {
      if m !in states {
        states := states[m := UNUSED];
      }
      s := states[m];
    }

    method TryEnter(m: ObjectId, t: ThreadId) returns (entered: bool)
      modifies this
      ensures entered <==> Free(View(old(states), m), t)
      ensures states == old(states)[m := if entered then Entered(View(old(states), m), t) else View(old(states), m)]
    {
      var s := EntryOrDefault(m);
      entered := s.lockCount == 0 || s.owner == t;
      if entered {
        states := states[m := s.(owner := t, lockCount := s.lockCount + 1)];
      }
    }

    /** Leaves a monitor; an entry nobody holds, waits on or was notified for is dropped. */
    method Exit(m: ObjectId, t: ThreadId) returns (legal: bool, wakes: bool)
      modifies this
      ensures legal <==> Owns(View(old(states), m), t)
      ensures wakes <==> legal && View(old(states), m).lockCount == 1
      ensures View(states, m) == if legal then Exited(View(old(states), m)) else View(old(states), m)
      ensures forall n :: n != m ==> (n in states <==> n in old(states)) && View(states, n) == View(old(states), n)
    {
      wakes := false;
      var s := EntryOrDefault(m);
      if s.lockCount == 0 || s.owner != t {
        return false, false;
      }
      s := s.(lockCount := s.lockCount - 1);
      states := states[m := s];
      if s.lockCount == 0 {
        s := s.(owner := 0);
        states := states[m := s];
        if s.waiting == 0 && s.pending == 0 {
          states := states - {m};
        }
        wakes := true;
      }
      legal := true;
    }

    /** Gives the monitor up to wait; the saved count is taken again by TryResume. */
    method BeginWait(m: ObjectId, t: ThreadId) returns (legal: bool, saved: nat)
      modifies this
      ensures legal <==> Owns(View(old(states), m), t)
      ensures legal ==> saved == View(old(states), m).lockCount
      ensures states == old(states)[m := if legal then Released(View(old(states), m)) else View(old(states), m)]
    {
      var s := EntryOrDefault(m);
      saved := s.lockCount;
      if s.lockCount == 0 || s.owner != t {
        return false, saved;
      }
      states := states[m := s.(lockCount := 0, owner := 0, waiting := s.waiting + 1)];
      legal := true;
    }

    method TryResume(m: ObjectId, t: ThreadId, saved: nat) returns (resumed: bool)
      requires View(states, m).waiting > 0
      modifies this
      ensures resumed <==> CanResume(View(old(states), m), t)
      ensures states == old(states)[m := if resumed then Resumed(View(old(states), m), t, saved) else View(old(states), m)]
    {
      var s := EntryOrDefault(m);
      resumed := s.pending > 0 && (s.lockCount == 0 || s.owner == t);
      if resumed {
        s := s.(pending := s.pending - 1);
        s := s.(waiting := s.waiting - 1);
        s := s.(owner := t);
        s := s.(lockCount := saved);
        states := states[m := s];
      }
    }

    method Notify(m: ObjectId, t: ThreadId, all: bool) returns (legal: bool, wakes: bool)
      modifies this
      ensures legal <==> Owns(View(old(states), m), t)
      ensures wakes <==> legal && NewGrants(View(old(states), m), all) > 0
      ensures states == old(states)[m := if legal then Notified(View(old(states), m), all) else View(old(states), m)]
    {
      wakes := false;
      var s := EntryOrDefault(m);
      if s.lockCount == 0 || s.owner != t {
        return false, false;
      }
      var available: nat;
      if all {
        available := if s.waiting >= s.pending then s.waiting - s.pending else 0;
      } else {
        available := if s.waiting > s.pending then 1 else 0;
      }
      states := states[m := s.(pending := s.pending + available)];
      legal, wakes := true, available > 0;
    }
  }

  // ----- Threads -----

  /** Signalled means woken since it last went to sleep, and not yet run. */
  datatype Status =
    | Running
    | Blocked(m: ObjectId, signalled: bool)
    | Waiting(m: ObjectId, saved: nat, signalled: bool)

  /**
   All monitors and threads, with what happened so far: enters minus exits per thread and
   object, and notifications granted and waits completed per object.
   */
  datatype System = System(
    monitors: ObjectId -> MonitorState,
    threads: map<ThreadId, Status>,
    depth: (ThreadId, ObjectId) -> nat,
    grants: ObjectId -> nat,
    completed: ObjectId -> nat)

  datatype Event =
    | Enter(m: ObjectId)
    | Retry                      // a blocked thread wakes up, signalled or not
    | Leave(m: ObjectId)
    | Wait(m: ObjectId)
    | Resume                     // a waiting thread wakes up, signalled or not
    | Notify(m: ObjectId, all: bool)

  ghost function Put<T(!new)>(f: ObjectId -> T, m: ObjectId, v: T): ObjectId -> T {
    (n: ObjectId) => if n == m then v else f(n)
  }

  ghost function PutDepth(f: (ThreadId, ObjectId) -> nat, t: ThreadId, m: ObjectId, v: nat): (ThreadId, ObjectId) -> nat {
    (u: ThreadId, n: ObjectId) => if u == t && n == m then v else f(u, n)
  }

  /** Everybody asleep on the condition variable becomes signalled, whatever it sleeps for. */
  function Signalled(s: Status): Status {
    if s.Running? then s else s.(signalled := true)
  }

  function WakeAll(threads: map<ThreadId, Status>): map<ThreadId, Status> {
    map t | t in threads :: Signalled(threads[t])
  }

  ghost function EnterOrBlock(s: System, t: ThreadId, m: ObjectId): System {
    if Free(s.monitors(m), t)
    then s.(monitors := Put<MonitorState>(s.monitors, m, Entered(s.monitors(m), t)),
            threads := s.threads[t := Running],
            depth := PutDepth(s.depth, t, m, s.depth(t, m) + 1))
    else s.(threads := s.threads[t := Blocked(m, false)])
  }

  /** One critical section of one thread. */
  ghost function Step(s: System, t: ThreadId, e: Event): System
    requires t in s.threads
  {
    match e
    case Enter(m) => if s.threads[t].Running? then EnterOrBlock(s, t, m) else s
    case Retry => if s.threads[t].Blocked? then EnterOrBlock(s, t, s.threads[t].m) else s
    case Leave(m) => if s.threads[t].Running? && Owns(s.monitors(m), t) then LeaveStep(s, t, m) else s
    case Wait(m) => if s.threads[t].Running? && Owns(s.monitors(m), t) then WaitStep(s, t, m) else s
    case Resume => if s.threads[t].Waiting? then ResumeStep(s, t, s.threads[t].m, s.threads[t].saved) else s
    case Notify(m, all) => if s.threads[t].Running? && Owns(s.monitors(m), t) then NotifyStep(s, m, all) else s
  }

  ghost function LeaveStep(s: System, t: ThreadId, m: ObjectId): System
    requires s.monitors(m).lockCount > 0
  {
    s.(monitors := Put<MonitorState>(s.monitors, m, Exited(s.monitors(m))),
       threads := if s.monitors(m).lockCount == 1 then WakeAll(s.threads) else s.threads,
       depth := PutDepth(s.depth, t, m, if s.depth(t, m) > 0 then s.depth(t, m) - 1 else 0))
  }

  /** The waiter wakes everybody else, and then sleeps without having looked for a notification. */
  ghost function WaitStep(s: System, t: ThreadId, m: ObjectId): System {
    s.(monitors := Put<MonitorState>(s.monitors, m, Released(s.monitors(m))),
       threads := WakeAll(s.threads)[t := Waiting(m, s.monitors(m).lockCount, false)])
  }

  ghost function ResumeStep(s: System, t: ThreadId, m: ObjectId, saved: nat): System {
    if CanResume(s.monitors(m), t) && s.monitors(m).waiting > 0
    then s.(monitors := Put<MonitorState>(s.monitors, m, Resumed(s.monitors(m), t, saved)),
            threads := s.threads[t := Running],
            completed := Put<nat>(s.completed, m, s.completed(m) + 1))
    else s.(threads := s.threads[t := Waiting(m, saved, false)])
  }

  ghost function NotifyStep(s: System, m: ObjectId, all: bool): System {
    s.(monitors := Put<MonitorState>(s.monitors, m, Notified(s.monitors(m), all)),
       threads := if NewGrants(s.monitors(m), all) > 0 then WakeAll(s.threads) else s.threads,
       grants := Put<nat>(s.grants, m, s.grants(m) + NewGrants(s.monitors(m), all)))
  }

  // ----- Invariants -----

  predicate WaitsOn(s: Status, m: ObjectId) {
    s.Waiting? && s.m == m
  }

  function Waiters(threads: map<ThreadId, Status>, m: ObjectId): set<ThreadId> {
    set t | t in threads && WaitsOn(threads[t], m)
  }

  function SignalledWaiters(threads: map<ThreadId, Status>, m: ObjectId): set<ThreadId> {
    set t | t in threads && WaitsOn(threads[t], m) && threads[t].signalled
  }

  /** A monitor is held exactly when it has an owner, and grants are waits completed or still pending. */
  ghost predicate MonitorOk(s: System, m: ObjectId) {
    && (s.monitors(m).lockCount == 0 <==> s.monitors(m).owner == 0)
    && (s.monitors(m).owner != 0 ==> s.monitors(m).owner in s.threads)
    && s.monitors(m).waiting == |Waiters(s.threads, m)|
    && s.monitors(m).pending <= s.monitors(m).waiting
    && s.grants(m) == s.completed(m) + s.monitors(m).pending
  }

  /** A thread's enters are the owner's count, a waiter's saved count, or none. */
  ghost predicate DepthOk(s: System, t: ThreadId, m: ObjectId)
    requires t in s.threads
  {
    if Owns(s.monitors(m), t) then s.depth(t, m) == s.monitors(m).lockCount && !WaitsOn(s.threads[t], m)
    else if WaitsOn(s.threads[t], m) then s.depth(t, m) == s.threads[t].saved > 0
    else s.depth(t, m) == 0
  }

  /** A thread asleep in enter and not signalled waits for a monitor somebody else holds. */
  ghost predicate BlockedOk(s: System, t: ThreadId)
    requires t in s.threads
  {
    s.threads[t].Blocked? && !s.threads[t].signalled ==>
      s.monitors(s.threads[t].m).lockCount > 0 && s.monitors(s.threads[t].m).owner != t
  }

  /** A free monitor's pending notifications all have a signalled waiter to take them. */
  ghost predicate GrantsReachable(s: System, m: ObjectId) {
    s.monitors(m).lockCount == 0 ==> s.monitors(m).pending <= |SignalledWaiters(s.threads, m)|
  }

  ghost predicate Inv(s: System) {
    && (forall m: ObjectId :: MonitorOk(s, m))
    && (forall t, m: ObjectId :: t in s.threads ==> DepthOk(s, t, m))
    && (forall t :: t in s.threads ==> BlockedOk(s, t))
    && (forall m: ObjectId :: GrantsReachable(s, m))
  }

  ghost predicate Initial(s: System) {
    && (forall m :: s.monitors(m) == UNUSED && s.grants(m) == 0 && s.completed(m) == 0)
    && (forall t, m :: s.depth(t, m) == 0)
    && (forall t :: t in s.threads ==> s.threads[t].Running?)
  }

  lemma {:induction false} InitialInv(s: System)
    requires Initial(s)
    ensures Inv(s)
  {
    forall m: ObjectId ensures MonitorOk(s, m) && GrantsReachable(s, m) {
      assert Waiters(s.threads, m) == {};
      assert SignalledWaiters(s.threads, m) == {};
    }
  }

  lemma {:induction false} WakeAllWaiters(threads: map<ThreadId, Status>, m: ObjectId)
    ensures Waiters(WakeAll(threads), m) == Waiters(threads, m)
    ensures SignalledWaiters(WakeAll(threads), m) == Waiters(threads, m)
  {
  }

  /** Changing one thread from and to states that do not wait on m changes none of m's waiters. */
  lemma {:induction false} WaitersUnaffected(threads: map<ThreadId, Status>, t: ThreadId, status: Status, m: ObjectId)
    requires t in threads && !WaitsOn(threads[t], m) && !WaitsOn(status, m)
    ensures Waiters(threads[t := status], m) == Waiters(threads, m)
    ensures SignalledWaiters(threads[t := status], m) == SignalledWaiters(threads, m)
  {
  }

  lemma {:induction false} EnterOrBlockKeeps(s: System, t: ThreadId, m: ObjectId)
    requires Inv(s) && t in s.threads && (s.threads[t].Running? || s.threads[t].Blocked?)
    ensures Inv(EnterOrBlock(s, t, m))
  {
    var d := EnterOrBlock(s, t, m);
    assert MonitorOk(s, m) && DepthOk(s, t, m);
    forall n: ObjectId ensures MonitorOk(d, n) && GrantsReachable(d, n) {
      assert MonitorOk(s, n) && GrantsReachable(s, n);
      WaitersUnaffected(s.threads, t, d.threads[t], n);
    }
    forall u, n: ObjectId | u in d.threads ensures DepthOk(d, u, n) {
      assert DepthOk(s, u, n);
    }
    forall u | u in d.threads ensures BlockedOk(d, u) {
      assert BlockedOk(s, u);
    }
  }

  lemma {:induction false} LeaveKeeps(s: System, t: ThreadId, m: ObjectId)
    requires Inv(s) && t in s.threads && s.threads[t].Running? && Owns(s.monitors(m), t)
    ensures Inv(LeaveStep(s, t, m))
  {
    var d := LeaveStep(s, t, m);
    assert MonitorOk(s, m) && DepthOk(s, t, m);
    forall n: ObjectId ensures MonitorOk(d, n) && GrantsReachable(d, n) {
      assert MonitorOk(s, n) && GrantsReachable(s, n);
      WakeAllWaiters(s.threads, n);
    }
    forall u, n: ObjectId | u in d.threads ensures DepthOk(d, u, n) {
      assert DepthOk(s, u, n);
    }
    forall u | u in d.threads ensures BlockedOk(d, u) {
      assert BlockedOk(s, u);
    }
  }

  lemma {:induction false} WaitersAfterWait(s: System, t: ThreadId, m: ObjectId, n: ObjectId)
    requires t in s.threads && s.threads[t].Running?
    ensures Waiters(WaitStep(s, t, m).threads, n) == Waiters(s.threads, n) + if n == m then {t} else {}
    ensures SignalledWaiters(WaitStep(s, t, m).threads, n) == Waiters(s.threads, n)
    ensures t !in Waiters(s.threads, n)
  {
  }

  lemma {:induction false} WaitKeeps(s: System, t: ThreadId, m: ObjectId)
    requires Inv(s) && t in s.threads && s.threads[t].Running? && Owns(s.monitors(m), t)
    ensures Inv(WaitStep(s, t, m))
  {
    var d := WaitStep(s, t, m);
    assert MonitorOk(s, m) && DepthOk(s, t, m);
    forall n: ObjectId ensures MonitorOk(d, n) && GrantsReachable(d, n) {
      assert MonitorOk(s, n);
      WaitersAfterWait(s, t, m, n);
    }
    forall u, n: ObjectId | u in d.threads ensures DepthOk(d, u, n) {
      assert DepthOk(s, u, n);
    }
  }

  lemma {:induction false} ResumeKeeps(s: System, t: ThreadId)
    requires Inv(s) && t in s.threads && s.threads[t].Waiting?
    ensures Inv(ResumeStep(s, t, s.threads[t].m, s.threads[t].saved))
  {
    var m := s.threads[t].m;
    var d := ResumeStep(s, t, m, s.threads[t].saved);
    assert MonitorOk(s, m) && DepthOk(s, t, m);
    assert t in Waiters(s.threads, m);
    forall n: ObjectId ensures MonitorOk(d, n) && GrantsReachable(d, n) {
      assert MonitorOk(s, n) && GrantsReachable(s, n);
      if n != m {
        WaitersUnaffected(s.threads, t, d.threads[t], n);
      } else if d.threads[t].Running? {
        assert Waiters(d.threads, m) == Waiters(s.threads, m) - {t};
      } else {
        assert Waiters(d.threads, m) == Waiters(s.threads, m);
      }
    }
    forall u, n: ObjectId | u in d.threads ensures DepthOk(d, u, n) {
      assert DepthOk(s, u, n);
    }
    forall u | u in d.threads ensures BlockedOk(d, u) {
      assert BlockedOk(s, u);
    }
  }

  lemma {:induction false} NotifyKeeps(s: System, t: ThreadId, m: ObjectId, all: bool)
    requires Inv(s) && t in s.threads && s.threads[t].Running? && Owns(s.monitors(m), t)
    ensures Inv(NotifyStep(s, m, all))
  {
    var d := NotifyStep(s, m, all);
    forall n: ObjectId ensures MonitorOk(d, n) && GrantsReachable(d, n) {
      assert MonitorOk(s, n) && GrantsReachable(s, n);
      WakeAllWaiters(s.threads, n);
      assert SignalledWaiters(s.threads, n) <= Waiters(s.threads, n);
      SubsetSize(SignalledWaiters(s.threads, n), Waiters(s.threads, n));
    }
    forall u, n: ObjectId | u in d.threads ensures DepthOk(d, u, n) {
      assert DepthOk(s, u, n);
    }
    forall u | u in d.threads ensures BlockedOk(d, u) {
      assert BlockedOk(s, u);
    }
  }

  lemma {:induction false} SubsetSize<T>(a: set<T>, b: set<T>)
    requires a <= b
    ensures |a| <= |b|
  {
    assert b == a + (b - a);
  }

  lemma {:induction false} StepKeepsInv(s: System, t: ThreadId, e: Event)
    requires Inv(s) && t in s.threads
    ensures Inv(Step(s, t, e))
  {
    hide Inv, EnterOrBlock, LeaveStep, WaitStep, ResumeStep, NotifyStep;
    match e {
      case Enter(m) => if s.threads[t].Running? { EnterOrBlockKeeps(s, t, m); }
      case Retry => if s.threads[t].Blocked? { EnterOrBlockKeeps(s, t, s.threads[t].m); }
      case Leave(m) => if s.threads[t].Running? && Owns(s.monitors(m), t) { LeaveKeeps(s, t, m); }
      case Wait(m) => if s.threads[t].Running? && Owns(s.monitors(m), t) { WaitKeeps(s, t, m); }
      case Resume => if s.threads[t].Waiting? { ResumeKeeps(s, t); }
      case Notify(m, all) => if s.threads[t].Running? && Owns(s.monitors(m), t) { NotifyKeeps(s, t, m, all); }
    }
  }

  // ----- All interleavings -----

  /** An interleaving: at each step some thread runs one critical section. */
  ghost predicate IsRun(trace: seq<System>, steps: seq<(ThreadId, Event)>) {
    && |trace| == |steps| + 1
    && Initial(trace[0])
    && forall k :: 0 <= k < |steps| ==> StepsTo(trace[k], steps[k], trace[k + 1])
  }

  ghost predicate StepsTo(s: System, step: (ThreadId, Event), d: System) {
    step.0 in s.threads && d == Step(s, step.0, step.1)
  }

  lemma {:induction false} RunInv(trace: seq<System>, steps: seq<(ThreadId, Event)>, k: nat)
    requires IsRun(trace, steps) && k < |trace|
    ensures Inv(trace[k])
  {
    hide Inv, Step;
    if k == 0 {
      InitialInv(trace[0]);
    } else {
      RunInv(trace, steps, k - 1);
      assert StepsTo(trace[k - 1], steps[k - 1], trace[k - 1 + 1]);
      StepKeepsInv(trace[k - 1], steps[k - 1].0, steps[k - 1].1);
    }
  }

  /** A thread is inside a monitor: it entered more often than it left, and is not waiting on it. */
  ghost predicate Inside(s: System, t: ThreadId, m: ObjectId) {
    t in s.threads && s.depth(t, m) > 0 && !WaitsOn(s.threads[t], m)
  }

  /** Mutual exclusion in every interleaving, with the lock count the holder's own enters. */
  lemma {:induction false} MutualExclusion(trace: seq<System>, steps: seq<(ThreadId, Event)>, k: nat, m: ObjectId)
    requires IsRun(trace, steps) && k < |trace|
    ensures forall t, u :: Inside(trace[k], t, m) && Inside(trace[k], u, m) ==> t == u
    ensures forall t :: Inside(trace[k], t, m) ==> trace[k].monitors(m).lockCount == trace[k].depth(t, m)
    ensures trace[k].monitors(m).lockCount == 0 <==> trace[k].monitors(m).owner == 0
  {
    RunInv(trace, steps, k);
    assert MonitorOk(trace[k], m);
    forall t | Inside(trace[k], t, m) ensures Owns(trace[k].monitors(m), t) && DepthOk(trace[k], t, m) {
      assert DepthOk(trace[k], t, m);
    }
  }

  /** The waiter count is exact, notifications never outnumber waiters, and none is lost or made up. */
  lemma {:induction false} NotificationsConserved(trace: seq<System>, steps: seq<(ThreadId, Event)>, k: nat, m: ObjectId)
    requires IsRun(trace, steps) && k < |trace|
    ensures var s := trace[k];
            && s.monitors(m).waiting == |Waiters(s.threads, m)|
            && s.monitors(m).pending <= s.monitors(m).waiting
            && s.grants(m) == s.completed(m) + s.monitors(m).pending
  {
    RunInv(trace, steps, k);
    assert MonitorOk(trace[k], m);
  }

  /**
   No lost wakeup: a thread asleep and unsignalled in enter is kept out by another holder,
   and a free monitor's pending notifications each have a signalled waiter.
   */
  lemma {:induction false} NoLostWakeup(trace: seq<System>, steps: seq<(ThreadId, Event)>, k: nat)
    requires IsRun(trace, steps) && k < |trace|
    ensures forall t :: t in trace[k].threads && trace[k].threads[t].Blocked? && !trace[k].threads[t].signalled ==>
              var holder := trace[k].monitors(trace[k].threads[t].m);
              holder.lockCount > 0 && holder.owner != t && holder.owner in trace[k].threads
    ensures forall m: ObjectId :: trace[k].monitors(m).lockCount == 0 ==>
              trace[k].monitors(m).pending <= |SignalledWaiters(trace[k].threads, m)|
  {
    var s := trace[k];
    RunInv(trace, steps, k);
    forall t | t in s.threads && s.threads[t].Blocked? && !s.threads[t].signalled
      ensures var holder := s.monitors(s.threads[t].m);
              holder.lockCount > 0 && holder.owner != t && holder.owner in s.threads
    {
      assert BlockedOk(s, t) && MonitorOk(s, s.threads[t].m);
    }
    forall m: ObjectId | s.monitors(m).lockCount == 0 ensures s.monitors(m).pending <= |SignalledWaiters(s.threads, m)| {
      assert GrantsReachable(s, m);
    }
  }

  /** In any run, notifyAll by the owner leaves a notification for every waiter, and wakes all that sleep. */
  lemma {:induction false} NotifyAllGrants(trace: seq<System>, steps: seq<(ThreadId, Event)>, k: nat, t: ThreadId, m: ObjectId)
    requires IsRun(trace, steps) && k < |trace| && t in trace[k].threads
    requires trace[k].threads[t].Running? && Owns(trace[k].monitors(m), t)
    ensures var s, d := trace[k], Step(trace[k], t, Notify(m, true));
            && d.monitors(m).pending == |Waiters(s.threads, m)|
            && d.grants(m) == s.completed(m) + |Waiters(s.threads, m)|
            && Waiters(d.threads, m) == Waiters(s.threads, m)
            && (s.monitors(m).pending < |Waiters(s.threads, m)| ==> AllSignalled(d))
  {
    RunInv(trace, steps, k);
    assert MonitorOk(trace[k], m);
    WakeAllWaiters(trace[k].threads, m);
  }

  /** And notify one more notification, if there is a waiter without one. */
  lemma {:induction false} NotifyGrantsOne(trace: seq<System>, steps: seq<(ThreadId, Event)>, k: nat, t: ThreadId, m: ObjectId)
    requires IsRun(trace, steps) && k < |trace| && t in trace[k].threads
    requires trace[k].threads[t].Running? && Owns(trace[k].monitors(m), t)
    ensures var s, d := trace[k], Step(trace[k], t, Notify(m, false));
            var more := if s.monitors(m).pending < |Waiters(s.threads, m)| then 1 else 0;
            && d.grants(m) == s.grants(m) + more && d.monitors(m).pending == s.monitors(m).pending + more
            && Waiters(d.threads, m) == Waiters(s.threads, m)
            && (more == 1 ==> AllSignalled(d))
  {
    RunInv(trace, steps, k);
    assert MonitorOk(trace[k], m);
    WakeAllWaiters(trace[k].threads, m);
  }

  /** Nobody sleeps without having been signalled. */
  ghost predicate AllSignalled(s: System) {
    forall t :: t in s.threads && !s.threads[t].Running? ==> s.threads[t].signalled
  }

  /** A call by a thread that does not own the monitor, or for another one, changes nothing of it. */
  lemma {:induction false} OnlyOwnersAct(s: System, t: ThreadId, e: Event, m: ObjectId)
    requires t in s.threads && (e.Leave? || e.Wait? || e.Notify?)
    requires e.m != m || !Owns(s.monitors(m), t)
    ensures Step(s, t, e).monitors(m) == s.monitors(m)
    ensures Step(s, t, e).grants(m) == s.grants(m) && Step(s, t, e).completed(m) == s.completed(m)
    ensures forall u :: Step(s, t, e).depth(u, m) == s.depth(u, m)
  {
  }

  /**
   A thread gets in if and only if nobody else is inside, and then its count is one more
   than before; otherwise it goes to sleep and nothing else changes.
   */
  lemma {:induction false} EnterIff(trace: seq<System>, steps: seq<(ThreadId, Event)>, k: nat, t: ThreadId, m: ObjectId)
    requires IsRun(trace, steps) && k < |trace| && t in trace[k].threads && trace[k].threads[t].Running?
    ensures var s, d := trace[k], Step(trace[k], t, Enter(m));
            && (d.threads[t].Running? <==> forall u :: Inside(s, u, m) ==> u == t)
            && (d.threads[t].Running? ==>
                  Owns(d.monitors(m), t) && d.monitors(m).lockCount == s.depth(t, m) + 1 == d.depth(t, m))
            && (!d.threads[t].Running? ==> d == s.(threads := s.threads[t := Blocked(m, false)]))
  {
    var s := trace[k];
    RunInv(trace, steps, k);
    assert MonitorOk(s, m) && DepthOk(s, t, m);
    var owner := s.monitors(m).owner;
    if owner != 0 {
      assert DepthOk(s, owner, m);
      assert Inside(s, owner, m);
    }
    forall u | Inside(s, u, m) ensures Owns(s.monitors(m), u) {
      assert DepthOk(s, u, m);
    }
  }

  /** A waiter resumes if and only if a notification is left and nobody is inside. */
  lemma {:induction false} ResumeIff(trace: seq<System>, steps: seq<(ThreadId, Event)>, k: nat, t: ThreadId)
    requires IsRun(trace, steps) && k < |trace| && t in trace[k].threads && trace[k].threads[t].Waiting?
    ensures var s, d := trace[k], Step(trace[k], t, Resume); var m := s.threads[t].m;
            && (d.threads[t].Running? <==> s.grants(m) > s.completed(m) && forall u :: !Inside(s, u, m))
            && (d.threads[t].Running? ==> d.completed(m) == s.completed(m) + 1 && d.grants(m) == s.grants(m))
            && (!d.threads[t].Running? ==> d == s.(threads := s.threads[t := Waiting(m, s.threads[t].saved, false)]))
  {
    var s := trace[k];
    var m := s.threads[t].m;
    RunInv(trace, steps, k);
    assert MonitorOk(s, m) && DepthOk(s, t, m);
    assert t in Waiters(s.threads, m);
    var owner := s.monitors(m).owner;
    if owner != 0 {
      assert DepthOk(s, owner, m);
      assert Inside(s, owner, m);
    }
    forall u | Inside(s, u, m) ensures Owns(s.monitors(m), u) {
      assert DepthOk(s, u, m);
    }
  }

  /** A wait that completes gives the thread back exactly the enters it had. */
  lemma {:induction false} WaitRestores(trace: seq<System>, steps: seq<(ThreadId, Event)>, k: nat, t: ThreadId)
    requires IsRun(trace, steps) && k < |trace| && t in trace[k].threads && trace[k].threads[t].Waiting?
    requires Step(trace[k], t, Resume).threads[t].Running?
    ensures var m := trace[k].threads[t].m; var d := Step(trace[k], t, Resume);
            Owns(d.monitors(m), t) && d.monitors(m).lockCount == trace[k].depth(t, m) > 0
  {
    RunInv(trace, steps, k);
    assert DepthOk(trace[k], t, trace[k].threads[t].m);
  }

  /** The table and the system agree on every object. */
  ghost predicate Represents(table: Table, s: System) {
    forall m: ObjectId :: View(table, m) == s.monitors(m)
  }

  /** Dropping an entry that is unused changes no monitor. */
  lemma {:induction false} DroppingIsHarmless(table: Table, s: System, m: ObjectId)
    requires Represents(table, s) && View(table, m) == UNUSED
    ensures Represents(table - {m}, s)
  {
  }

  // ----- The shared table takes the system's steps -----

  /** Running one critical section leaves the table and the threads as the system's step does. */
  ghost predicate Refines(table: Table, s: System, t: ThreadId, e: Event, next: Status, wakes: bool)
    requires t in s.threads
  {
    var d := Step(s, t, e);
    Represents(table, d) && d.threads == (if wakes then WakeAll(s.threads) else s.threads)[t := next]
  }

  /**
   One critical section of a thread, from its status before to its status after; `wakes`
   says that every thread asleep on the condition variable is signalled.
   */
  method Section(c: SharedMonitors, t: ThreadId, status: Status, e: Event, ghost s: System)
    returns (next: Status, wakes: bool)
    requires Inv(s) && Represents(c.states, s) && t in s.threads && s.threads[t] == status
    modifies c
    ensures Refines(c.states, s, t, e, next, wakes)
  {
    hide Inv;
    next, wakes := status, false;
    match e {
      case Enter(m) =>
        if status.Running? {
          next := EnterSection(c, t, m, s);
        }
      case Retry =>
        if status.Blocked? {
          next := EnterSection(c, t, status.m, s);
        }
      case Leave(m) =>
        if status.Running? {
          var legal;
          legal, wakes := c.Exit(m, t);
        }
      case Wait(m) =>
        if status.Running? {
          var legal, saved := c.BeginWait(m, t);
          if legal {
            next, wakes := Waiting(m, saved, false), true;
          }
        }
      case Resume =>
        if status.Waiting? {
          WaiterCounted(s, t);
          var resumed := c.TryResume(status.m, t, status.saved);
          next := if resumed then Running else Waiting(status.m, status.saved, false);
        }
      case Notify(m, all) =>
        if status.Running? {
          var legal;
          legal, wakes := c.Notify(m, t, all);
        }
    }
  }

  /** A first or renewed attempt to enter. */
  method EnterSection(c: SharedMonitors, t: ThreadId, m: ObjectId, ghost s: System) returns (next: Status)
    requires Represents(c.states, s) && t in s.threads
    modifies c
    ensures var d := EnterOrBlock(s, t, m); Represents(c.states, d) && d.threads == s.threads[t := next]
  {
    var entered := c.TryEnter(m, t);
    next := if entered then Running else Blocked(m, false);
  }

  lemma {:induction false} WaiterCounted(s: System, t: ThreadId)
    requires Inv(s) && t in s.threads && s.threads[t].Waiting?
    ensures s.monitors(s.threads[t].m).waiting > 0
  {
    assert MonitorOk(s, s.threads[t].m) && t in Waiters(s.threads, s.threads[t].m);
  }
}
