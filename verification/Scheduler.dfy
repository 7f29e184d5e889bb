/**
  Threads changing places: code/threads/scheduler.cc and Fork, Begin, Yield, Sleep and Finish of
  code/threads/thread.cc. Interrupts are off from the call of Sleep, or the body of Yield, to the
  end of CheckToBeDestroyed on the other side of SWITCH, except while Sleep idles.
 */
module Schedulers {
  import opened Threads
  import opened Wrappers

  /**
    What the processor is doing: running the current thread; looking for a thread in the Sleep of the
    current one, which is `finishing` or waits somewhere; or on the far side of SWITCH, before CheckToBeDestroyed.
   */
  datatype Mode = Running | Sleeping(finishing: bool) | Switched

  /**
    `readyList`, `toBeDestroyed` and `currentThread` are the fields. The other threads are newly
    created, on some wait queue, or destroyed. `queued` and `dispatched` record what went into the
    ready list and what came out, in order.
   */
  datatype Sched = Sched(readyList: seq<Thread>, toBeDestroyed: Option<Thread>, currentThread: Thread, mode: Mode,
                         newborn: set<Thread>, blocked: set<Thread>, destroyed: set<Thread>,
                         queued: seq<Thread>, dispatched: seq<Thread>)

  datatype Step = Create(t: Thread) | Fork(t: Thread) | Yield | Block | Finish | Wake(t: Thread) | Dispatch
                | CheckToBeDestroyed

  /** The threads there are or ever were. */
  function Known(s: Sched): (ts: set<Thread>)
  {
    Ready(s) + s.newborn + s.blocked + s.destroyed + {s.currentThread} + Doomed(s)
  }

  function Ready(s: Sched): (ts: set<Thread>)
  {
    set t | t in s.readyList
  }

  /** Finished and not yet destroyed: at the far side of SWITCH, the thread that was left. */
  function Doomed(s: Sched): (ts: set<Thread>)
  {
    if s.toBeDestroyed.Some? then {s.toBeDestroyed.value} else {}
  }

  predicate CanStep(s: Sched, e: Step)
  {
    match e
    case Create(t) => s.mode.Running? && t !in Known(s)
    case Fork(t) => s.mode.Running? && t in s.newborn
    case Yield => s.mode.Running?
    case Block => s.mode.Running?
    case Finish => s.mode.Running?
    case Wake(t) => !s.mode.Switched? && t in s.blocked
    case Dispatch => s.mode.Sleeping? && s.readyList != []
    case CheckToBeDestroyed => s.mode.Switched?
  }

  function Readied(s: Sched, t: Thread): (s': Sched)
  {
    s.(readyList := s.readyList + [t], queued := s.queued + [t])
  }

  /** FindNextToRun, on a list that is not empty. */
  function TakeNext(s: Sched): (s': Sched)
    requires s.readyList != []
  {
    s.(readyList := s.readyList[1..], dispatched := s.dispatched + [s.readyList[0]])
  }

  /** Run: to the far side of SWITCH. */
  function SwitchedTo(s: Sched, next: Thread, finishing: bool): (s': Sched)
  {
    s.(toBeDestroyed := if finishing then Some(s.currentThread) else s.toBeDestroyed, currentThread := next,
       mode := Switched)
  }

  function Stepped(s: Sched, e: Step): (s': Sched)
    requires CanStep(s, e)
  {
    match e
    case Create(t) => s.(newborn := s.newborn + {t})
    case Fork(t) => Readied(s, t).(newborn := s.newborn - {t})
    case Yield =>
      if s.readyList == [] then s else SwitchedTo(Readied(TakeNext(s), s.currentThread), s.readyList[0], false)
    case Block => s.(blocked := s.blocked + {s.currentThread}, mode := Sleeping(false))
    case Finish => s.(mode := Sleeping(true))
    case Wake(t) => Readied(s, t).(blocked := s.blocked - {t})
    case Dispatch => SwitchedTo(TakeNext(s), s.readyList[0], s.mode.finishing)
    case CheckToBeDestroyed => s.(destroyed := s.destroyed + Doomed(s), toBeDestroyed := None, mode := Running)
  }

  /**
    The ready list, the wait queues, the new, the doomed and the destroyed have no thread in common, and the
    ready list none twice.
   */
  ghost predicate Apart(s: Sched)
  {
    && (forall i, j :: 0 <= i < j < |s.readyList| ==> s.readyList[i] != s.readyList[j])
    && (forall t :: t in s.readyList ==> t !in s.newborn && t !in s.blocked && t !in s.destroyed && t !in Doomed(s))
    && s.newborn !! s.blocked && s.newborn !! s.destroyed && s.newborn !! Doomed(s)
    && s.blocked !! s.destroyed && s.blocked !! Doomed(s) && s.destroyed !! Doomed(s)
  }

  /** The current thread is nowhere else, except that one asleep without finishing waits, or is ready again. */
  ghost predicate CurrentOk(s: Sched)
  {
    && s.currentThread !in s.newborn && s.currentThread !in s.destroyed && s.currentThread !in Doomed(s)
    && if s.mode == Sleeping(false) then s.currentThread in s.readyList || s.currentThread in s.blocked
       else s.currentThread !in s.readyList && s.currentThread !in s.blocked
  }

  ghost predicate SchedInv(s: Sched)
  {
    && Apart(s) && CurrentOk(s)
    && (s.toBeDestroyed.Some? ==> s.mode.Switched?)
    && s.dispatched + s.readyList == s.queued
  }

  lemma ReadyKeeps(s: Sched, t: Thread)
    requires SchedInv(s) && t !in s.readyList && t !in s.destroyed && !s.mode.Switched?
    requires t in s.newborn || t in s.blocked
    ensures SchedInv(Readied(s, t).(newborn := s.newborn - {t}, blocked := s.blocked - {t}))
  {
  }

  lemma TakeKeeps(s: Sched)
    requires SchedInv(s) && s.readyList != []
    ensures var s' := TakeNext(s);
            && Apart(s') && s'.dispatched + s'.readyList == s'.queued
            && s.readyList[0] !in s'.readyList && (forall t :: t in s'.readyList ==> t in s.readyList)
            && forall t :: t in s.readyList ==> t == s.readyList[0] || t in s'.readyList
  {
  }

  lemma YieldKeeps(s: Sched)
    requires SchedInv(s) && s.mode.Running? && s.readyList != []
    ensures SchedInv(Stepped(s, Yield))
  {
    TakeKeeps(s);
    var s1, t := TakeNext(s), s.currentThread;
    assert s1.dispatched + (s1.readyList + [t]) == (s1.dispatched + s1.readyList) + [t];
  }

  lemma DispatchKeeps(s: Sched)
    requires SchedInv(s) && s.mode.Sleeping? && s.readyList != []
    ensures SchedInv(Stepped(s, Dispatch))
  {
    TakeKeeps(s);
  }

  /** No step breaks the invariant, a thread that switches to itself included. */
  lemma StepKeeps(s: Sched, e: Step)
    requires SchedInv(s) && CanStep(s, e)
    ensures SchedInv(Stepped(s, e))
  {
    match e
    case Fork(t) => ReadyKeeps(s, t); assert s.blocked - {t} == s.blocked;
    case Wake(t) => ReadyKeeps(s, t); assert s.newborn - {t} == s.newborn;
    case Yield => if s.readyList != [] { YieldKeeps(s); }
    case Dispatch => DispatchKeeps(s);
    case _ =>
  }

  ghost predicate IsRun(s: Sched, steps: seq<Step>, s': Sched)
    decreases |steps|
  {
    if steps == [] then s' == s
    else CanStep(s, steps[0]) && IsRun(Stepped(s, steps[0]), steps[1..], s')
  }

  /** In every run the invariant holds, and what has been destroyed stays so. */
  lemma {:induction false} EveryRun(s: Sched, steps: seq<Step>, s': Sched)
    requires SchedInv(s) && IsRun(s, steps, s')
    ensures SchedInv(s') && s.destroyed <= s'.destroyed && s.queued <= s'.queued && s.dispatched <= s'.dispatched
    decreases |steps|
  {
    if steps != [] {
      StepKeeps(s, steps[0]);
      EveryRun(Stepped(s, steps[0]), steps[1..], s');
    }
  }

  /** The kernel starts with one thread, which runs. */
  ghost predicate FirstSched(s: Sched)
  {
    && s.readyList == [] && s.toBeDestroyed == None && s.mode == Running && s.newborn == {} && s.blocked == {}
    && s.destroyed == {}
    && s.queued == [] && s.dispatched == []
  }

  function Count(b: bool): (n: nat)
  {
    if b then 1 else 0
  }

  /** In every run each thread is in exactly one place. */
  lemma {:induction false} OnePlace(first: Sched, steps: seq<Step>, s: Sched, t: Thread)
    requires FirstSched(first) && IsRun(first, steps, s) && t in Known(s)
    ensures Count(t in s.newborn) + Count(t in s.readyList) + Count(t in s.blocked) + Count(t in s.destroyed)
            + Count(s.toBeDestroyed == Some(t)) + Count(t == s.currentThread && s.mode != Sleeping(false)) == 1
  {
    EveryRun(first, steps, s);
  }

  /** In every run threads leave the ready list in the order in which they joined it. */
  lemma {:induction false} FirstComeFirstServed(first: Sched, steps: seq<Step>, s: Sched)
    requires FirstSched(first) && IsRun(first, steps, s)
    ensures s.dispatched + s.readyList == s.queued
  {
    EveryRun(first, steps, s);
  }

  /**
    In every run: when a finishing thread is left, no other waits to be destroyed; it is destroyed by
    another thread, once; and a destroyed thread is never current, ready or waiting again.
   */
  lemma {:induction false} DestroyedOnce(first: Sched, steps: seq<Step>, s: Sched)
    requires FirstSched(first) && IsRun(first, steps, s)
    ensures !s.mode.Switched? ==> s.toBeDestroyed == None
    ensures s.toBeDestroyed.Some? ==> s.toBeDestroyed.value != s.currentThread && s.toBeDestroyed.value !in s.destroyed
    ensures s.currentThread !in s.destroyed && Ready(s) !! s.destroyed && s.blocked !! s.destroyed
  {
    EveryRun(first, steps, s);
  }

  /** A thread that sleeps until it is itself the next one ready comes back from SWITCH as the current thread. */
  lemma SwitchToItself(s: Sched)
    requires SchedInv(s) && s.mode == Sleeping(false) && s.readyList != [] && s.readyList[0] == s.currentThread
    ensures var s' := Stepped(Stepped(s, Dispatch), CheckToBeDestroyed);
            && SchedInv(s') && s'.mode.Running? && s'.currentThread == s.currentThread && s'.destroyed == s.destroyed
  {
    StepKeeps(s, Dispatch);
    StepKeeps(Stepped(s, Dispatch), CheckToBeDestroyed);
    assert Doomed(Stepped(s, Dispatch)) == {};
    assert s.destroyed + {} == s.destroyed;
  }

  /** The class, with the record of where every thread is beside its fields. */
  class Scheduler {
    var readyList: seq<Thread>
    var toBeDestroyed: Option<Thread>
    var currentThread: Thread
    ghost var state: Sched

    /** The record agrees with the fields. */
    ghost predicate Recorded()
      reads this
    {
      readyList == state.readyList && toBeDestroyed == state.toBeDestroyed && currentThread == state.currentThread
    }

    constructor (mainThread: Thread)
      ensures Recorded() && SchedInv(state) && FirstSched(state) && currentThread == mainThread
    {
      readyList, toBeDestroyed, currentThread := [], None, mainThread;
      state := Sched([], None, mainThread, Running, {}, {}, {}, [], []);
    }

    method ReadyToRun(thread: Thread)
      requires Recorded()
      modifies this
      ensures Recorded() && state == Readied(old(state), thread)
    {
      readyList := readyList + [thread];
      state := Readied(state, thread);
    }

    method FindNextToRun() returns (next: Option<Thread>)
      requires Recorded()
      modifies this
      ensures Recorded() && (next == None <==> old(readyList) == [])
      ensures next == None ==> state == old(state)
      ensures next.Some? ==> next.value == old(readyList)[0] && state == TakeNext(old(state))
    {
      if readyList == [] {
        return None;
      }
      next := Some(readyList[0]);
      readyList := readyList[1..];
      state := TakeNext(state);
    }

    /** As far as the far side of SWITCH. */
    method Run(nextThread: Thread, finishing: bool)
      requires Recorded() && (finishing ==> toBeDestroyed == None)
      modifies this
      ensures Recorded() && state == SwitchedTo(old(state), nextThread, finishing)
    {
      state := SwitchedTo(state, nextThread, finishing);
      if finishing {
        toBeDestroyed := Some(currentThread);
      }
      currentThread := nextThread;
    }

    method CheckToBeDestroyed() returns (deleted: Option<Thread>)
      requires Recorded() && CanStep(state, Step.CheckToBeDestroyed)
      modifies this
      ensures Recorded() && state == Stepped(old(state), Step.CheckToBeDestroyed)
      ensures deleted == old(toBeDestroyed) && toBeDestroyed == None
    {
      state := Stepped(state, Step.CheckToBeDestroyed);
      deleted := toBeDestroyed;
      if toBeDestroyed.Some? {
        toBeDestroyed := None;
      }
    }

    /** Thread::Yield, as far as the other thread's first statement. */
    method Yield()
      requires Recorded() && SchedInv(state) && CanStep(state, Step.Yield)
      modifies this
      ensures Recorded() && SchedInv(state)
      ensures old(readyList) == [] ==> state == old(state)
      ensures old(readyList) != [] ==>
                currentThread == old(readyList)[0] && readyList == old(readyList)[1..] + [old(currentThread)]
                                       && state.destroyed == old(state).destroyed
    {
      StepKeeps(state, Step.Yield);
      var nextThread := FindNextToRun();
      if nextThread.Some? {
        ReadyToRun(currentThread);
        Run(nextThread.value, false);
        StepKeeps(state, Step.CheckToBeDestroyed);
        var none := CheckToBeDestroyed();
      }
    }

    /** The end of Thread::Sleep, once there is a thread to run, as far as that thread's first statement. */
    method SleepEnd(finishing: bool) returns (deleted: Option<Thread>)
      requires Recorded() && SchedInv(state) && state.mode == Sleeping(finishing) && readyList != []
      modifies this
      ensures Recorded() && SchedInv(state) && state.mode == Running
      ensures currentThread == old(readyList)[0] && readyList == old(readyList)[1..]
      ensures deleted == (if finishing then Some(old(currentThread)) else None)
      ensures finishing ==> old(currentThread) in state.destroyed && old(currentThread) !in old(state).destroyed
    {
      StepKeeps(state, Dispatch);
      var nextThread := FindNextToRun();
      Run(nextThread.value, finishing);
      StepKeeps(state, Step.CheckToBeDestroyed);
      deleted := CheckToBeDestroyed();
    }
  }
}
