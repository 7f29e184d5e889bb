/** Threads, as far as synchronisation goes: numbers. */
module Threads {
  type Thread = nat
}

/**
  The counting semaphore of code/threads/synch.cc. Interrupts are off from the test of `value`
  to the decrement or the call of Sleep, and throughout V, so each of those is one atomic step;
  between steps any other thread may run.
 */
module Semaphores {
  import opened Threads

  /**
    `value` and `queue` are the fields of the class. `woken` are the threads that V has made
    ready and that have not yet tested `value` again; `taken` and `given` count decrements and Vs.
   */
  datatype Sem = Sem(value: int, queue: seq<Thread>, woken: set<Thread>, taken: nat, given: nat)

  function NewSem(initial: int): (s: Sem)
  {
    Sem(initial, [], {}, 0, 0)
  }

  /** One turn of the loop in P by thread `t`: it takes a unit, or joins the queue and sleeps. */
  function Test(s: Sem, t: Thread): (s': Sem)
  {
    if s.value == 0 then s.(queue := s.queue + [t], woken := s.woken - {t})
    else s.(value := s.value - 1, woken := s.woken - {t}, taken := s.taken + 1)
  }

  /** V: makes the first sleeper ready, if there is one, and adds a unit. */
  function Give(s: Sem): (s': Sem)
  {
    var s1 := if s.queue == [] then s else s.(queue := s.queue[1..], woken := s.woken + {s.queue[0]});
    s1.(value := s1.value + 1, given := s1.given + 1)
  }

  /** Thread `t` is not inside P. */
  predicate Elsewhere(s: Sem, t: Thread)
  {
    !InP(s, t)
  }

  /** What holds in every state of every run of a semaphore created with `initial` units. */
  ghost predicate SemInv(s: Sem, initial: int)
  {
    && s.value >= 0
    && s.value == initial + s.given - s.taken
    && (forall i, j :: 0 <= i < j < |s.queue| ==> s.queue[i] != s.queue[j])
    && (forall t :: t in s.queue ==> t !in s.woken)
    && (s.queue != [] ==> s.value <= |s.woken|)
  }

  datatype Event = Enter(t: Thread) | Retest(t: Thread) | Up

  /** What may happen next: a thread outside P calls it, a thread made ready runs on, or someone calls V. */
  predicate Enabled(s: Sem, e: Event)
  {
    match e
    case Enter(t) => Elsewhere(s, t)
    case Retest(t) => t in s.woken
    case Up => true
  }

  function Next(s: Sem, e: Event): (s': Sem)
  {
    match e
    case Enter(t) => Test(s, t)
    case Retest(t) => Test(s, t)
    case Up => Give(s)
  }

  lemma StepKeeps(s: Sem, e: Event, initial: int)
    requires SemInv(s, initial) && Enabled(s, e)
    ensures SemInv(Next(s, e), initial)
  {
    if !e.Up? {
      WokenLeaves(s.woken, e.t);
    } else if s.queue != [] {
      assert s.queue[0] in s.queue;
      forall t | t in s.queue[1..]
        ensures t in s.queue && t != s.queue[0]
      {
      }
    }
  }

  lemma WokenLeaves(woken: set<Thread>, t: Thread)
    ensures |woken - {t}| == if t in woken then |woken| - 1 else |woken|
  {
  }

  /** A thread that has called P and not returned. */
  predicate InP(s: Sem, t: Thread)
  {
    t in s.queue || t in s.woken
  }

  /** A test moves the thread that makes it, into P or out of it. */
  lemma TestWaiters(s: Sem, t: Thread)
    requires t !in s.queue
    ensures forall u {:trigger InP(s, u)} {:trigger InP(Test(s, t), u)} :: InP(Test(s, t), u) <==>
              if u == t then s.value == 0 else InP(s, u)
  {
  }

  /** V moves at most one thread from the queue to the woken ones. */
  lemma SameWaiters(s: Sem)
    ensures forall u {:trigger InP(s, u)} {:trigger InP(Give(s), u)} :: InP(Give(s), u) <==> InP(s, u)
  {
  }

  /** A run: each event enabled in the state it meets. */
  ghost predicate IsRun(s: Sem, events: seq<Event>, s': Sem)
    decreases |events|
  {
    if events == [] then s' == s
    else Enabled(s, events[0]) && IsRun(Next(s, events[0]), events[1..], s')
  }

  /** In every interleaving of P and V the counts balance and no unit is left with only sleepers to take it. */
  lemma {:induction false} EveryRun(initial: int, s: Sem, events: seq<Event>, s': Sem)
    requires SemInv(s, initial) && IsRun(s, events, s')
    ensures SemInv(s', initial)
    decreases |events|
  {
    if events != [] {
      StepKeeps(s, events[0], initial);
      EveryRun(initial, Next(s, events[0]), events[1..], s');
    }
  }

  /** The counts balance whatever the initial value; the rest holds of those that are not negative. */
  lemma {:induction false} FirstRun(initial: int, events: seq<Event>, s: Sem)
    requires IsRun(NewSem(initial), events, s)
    ensures s.value == initial + s.given - s.taken
    ensures initial >= 0 ==> s.value >= 0 && (s.queue != [] ==> s.value <= |s.woken|)
  {
    Balance(NewSem(initial), events, s);
    if initial >= 0 {
      EveryRun(initial, NewSem(initial), events, s);
    }
  }

  lemma {:induction false} Balance(s: Sem, events: seq<Event>, s': Sem)
    requires IsRun(s, events, s')
    ensures s'.value - s'.given + s'.taken == s.value - s.given + s.taken && s.given <= s'.given
    decreases |events|
  {
    if events != [] {
      Balance(Next(s, events[0]), events[1..], s');
    }
  }

  /** In every run of a semaphore created with this value, the value stays out of the negative. */
  ghost predicate StaysUp(initial: int)
  {
    forall events, s :: IsRun(NewSem(initial), events, s) ==> s.value >= 0
  }

  lemma NeverNegative(initial: int)
    ensures StaysUp(initial) <==> initial >= 0
  {
    if initial >= 0 {
      forall events, s | IsRun(NewSem(initial), events, s)
        ensures s.value >= 0
      {
        FirstRun(initial, events, s);
      }
    } else {
      AtOnce(NewSem(initial), []);
    }
  }

  lemma {:induction false} AtOnce(s: Sem, none: seq<Event>)
    requires none == []
    ensures IsRun(s, none, s)
  {
  }

  /** From a negative value, P stops nobody until V has been called often enough to make up for it. */
  lemma {:induction false} NegativeStopsNobody(s: Sem, events: seq<Event>, s': Sem)
    requires IsRun(s, events, s') && s.queue == [] && s.value + s'.given - s.given < 0
    ensures s'.queue == []
    decreases |events|
  {
    if events != [] {
      Balance(s, events, s');
      Balance(Next(s, events[0]), events[1..], s');
      NegativeStopsNobody(Next(s, events[0]), events[1..], s');
    }
  }

  /** A unit is never out of reach: while threads sleep, a free unit has a thread awake to take it. */
  lemma UnitHasTaker(s: Sem, initial: int)
    requires SemInv(s, initial) && s.queue != [] && s.value > 0
    ensures exists t :: t in s.woken && Test(s, t).taken == s.taken + 1
  {
  }

  /** The class itself, one method per atomic step. */
  class Semaphore {
    var value: int
    var queue: seq<Thread>
    ghost var state: Sem

    ghost predicate Valid()
      reads this
    {
      value == state.value && queue == state.queue
    }

    constructor (initialValue: int)
      ensures Valid() && state == NewSem(initialValue) && (SemInv(state, initialValue) <==> initialValue >= 0)
    {
      value, queue, state := initialValue, [], NewSem(initialValue);
    }

    /** The loop test of P by the current thread, with the step it leads to. */
    method TestOnce(currentThread: Thread) returns (sleeps: bool)
      requires Valid()
      modifies this
      ensures Valid() && state == Test(old(state), currentThread)
      ensures sleeps <==> old(value) == 0
    {
      sleeps := value == 0;
      if sleeps {
        queue := queue + [currentThread];
      } else {
        value := value - 1;
      }
      state := Test(state, currentThread);
    }

    /** Returns the threads made ready: the first in the queue, or none. */
    method V() returns (readied: seq<Thread>)
      requires Valid()
      modifies this
      ensures Valid() && state == Give(old(state))
      ensures readied == old(queue)[..if old(queue) == [] then 0 else 1] && readied + queue == old(queue)
    {
      readied := [];
      if queue != [] {
        readied, queue := [queue[0]], queue[1..];
      }
      value := value + 1;
      state := Give(state);
    }
  }
}
