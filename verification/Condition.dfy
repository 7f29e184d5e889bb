/**
  The condition variable of code/threads/synch.cc: each call of Wait queues a semaphore of its
  own and sleeps on it. The lock is the variable that Locks.RunRefines shows it to be.
 */
module Conditions {
  import opened Threads
  import opened Wrappers
  import opened Semaphores

  type Waiter = nat

  /**
    Where a thread is: without the lock; with it, in user code; in Wait with its semaphore queued,
    with the lock given back, in the loop of P, or past P; or in Signal with a semaphore taken off the queue.
   */
  datatype At = Outside | Inside | Appended(w: Waiter) | Released(w: Waiter) | Sleeping(w: Waiter)
              | Reacquiring(w: Waiter)
              | Signalling(w: Waiter)

  datatype Monitor = Monitor(owner: Option<Thread>, waitQueue: seq<Waiter>, sems: map<Waiter, Sem>,
                             who: map<Waiter, Thread>, at: map<Thread, At>)

  datatype Move = Acquire(t: Thread) | Release(t: Thread) | WaitBegin(t: Thread, w: Waiter) | WaitRelease(t: Thread)
                | WaitP(t: Thread) | WaitRetest(t: Thread) | Reacquire(t: Thread) | SignalPop(t: Thread)
                | SignalV(t: Thread)

  predicate CanMove(m: Monitor, e: Move)
  {
    && e.t in m.at
    && match e
       case Acquire(t) => m.at[t] == Outside && m.owner == None
       case Release(t) => m.at[t] == Inside
       case WaitBegin(t, w) => m.at[t] == Inside && w !in m.sems
       case WaitRelease(t) => m.at[t].Appended?
       case WaitP(t) => m.at[t].Released? && m.at[t].w in m.sems
       case WaitRetest(t) => m.at[t].Sleeping? && m.at[t].w in m.sems && t in m.sems[m.at[t].w].woken
       case Reacquire(t) => m.at[t].Reacquiring? && m.owner == None
       case SignalPop(t) => m.at[t] == Inside && m.waitQueue != []
       case SignalV(t) => m.at[t].Signalling? && m.at[t].w in m.sems
  }

  /** The loop test of P on the waiter's own semaphore. */
  function Tested(m: Monitor, t: Thread, w: Waiter): (m': Monitor)
    requires w in m.sems
  {
    m.(sems := m.sems[w := Test(m.sems[w], t)],
       at := m.at[t := if m.sems[w].value == 0 then Sleeping(w) else Reacquiring(w)])
  }

  function Moved(m: Monitor, e: Move): (m': Monitor)
    requires CanMove(m, e)
  {
    match e
    case Acquire(t) => m.(owner := Some(t), at := m.at[t := Inside])
    case Release(t) => m.(owner := None, at := m.at[t := Outside])
    case WaitBegin(t, w) => m.(waitQueue := m.waitQueue + [w], sems := m.sems[w := NewSem(0)], who := m.who[w := t],
                               at := m.at[t := Appended(w)])
    case WaitRelease(t) => m.(owner := None, at := m.at[t := Released(m.at[t].w)])
    case WaitP(t) => Tested(m, t, m.at[t].w)
    case WaitRetest(t) => Tested(m, t, m.at[t].w)
    case Reacquire(t) =>
      m.(owner := Some(t), sems := m.sems - {m.at[t].w}, who := m.who - {m.at[t].w}, at := m.at[t := Inside])
    case SignalPop(t) => m.(waitQueue := m.waitQueue[1..], at := m.at[t := Signalling(m.waitQueue[0])])
    case SignalV(t) => m.(sems := m.sems[m.at[t].w := Give(m.sems[m.at[t].w])], at := m.at[t := Inside])
  }

  /** The semaphore of the Wait that a thread is in. */
  function WaiterOf(a: At): (w: Option<Waiter>)
  {
    match a
    case Appended(w) => Some(w)
    case Released(w) => Some(w)
    case Sleeping(w) => Some(w)
    case Reacquiring(w) => Some(w)
    case _ => None
  }

  predicate HasLock(a: At)
  {
    a == Inside || a.Appended? || a.Signalling?
  }

  /** Still to be signalled: in the queue, or taken off it by the thread that is about to call V. */
  predicate Pending(m: Monitor, w: Waiter)
  {
    w in m.waitQueue || (m.owner.Some? && m.owner.value in m.at && m.at[m.owner.value] == Signalling(w))
  }

  /** The state of a waiter's semaphore, from where its thread is and whether the signal has come. */
  function Expected(a: At, t: Thread, pending: bool): (s: Sem)
  {
    var g := if pending then 0 else 1;
    match a
    case Sleeping(_) => if pending then Sem(0, [t], {}, 0, 0) else Sem(1, [], {t}, 0, 1)
    case Reacquiring(_) => Sem(0, [], {}, 1, 1)
    case _ => Sem(g, [], {}, 0, g)
  }

  ghost predicate WaiterInv(m: Monitor, w: Waiter)
  {
    && w in m.sems && w in m.who && m.who[w] in m.at
    && var t := m.who[w];
       && WaiterOf(m.at[t]) == Some(w)
       && (m.at[t].Appended? ==> Pending(m, w))
       && (m.at[t].Reacquiring? ==> !Pending(m, w))
       && m.sems[w] == Expected(m.at[t], t, Pending(m, w))
  }

  ghost predicate ThreadInv(m: Monitor, t: Thread)
  {
    && t in m.at
    && (m.owner == Some(t) <==> HasLock(m.at[t]))
    && (WaiterOf(m.at[t]).Some? ==> var w := WaiterOf(m.at[t]).value; w in m.sems && w in m.who && m.who[w] == t)
    && (m.at[t].Signalling? ==> m.at[t].w in m.sems && m.at[t].w !in m.waitQueue)
  }

  ghost predicate MonitorInv(m: Monitor)
  {
    && (m.owner.Some? ==> m.owner.value in m.at)
    && (forall t {:trigger ThreadInv(m, t)} :: t in m.at ==> ThreadInv(m, t))
    && (forall w {:trigger WaiterInv(m, w)} :: w in m.sems ==> WaiterInv(m, w))
    && (forall i :: 0 <= i < |m.waitQueue| ==> m.waitQueue[i] in m.sems)
    && (forall i, j :: 0 <= i < j < |m.waitQueue| ==> m.waitQueue[i] != m.waitQueue[j])
  }

  /** No move of any thread breaks the invariant. */
  lemma MoveKeeps(m: Monitor, e: Move)
    requires MonitorInv(m) && CanMove(m, e)
    ensures MonitorInv(Moved(m, e))
  {
    assert ThreadInv(m, e.t);
    match e
    case Acquire(t) => AcquireKeeps(m, t);
    case Release(t) => ReleaseKeeps(m, t);
    case WaitBegin(t, w) => WaitBeginKeeps(m, t, w);
    case WaitRelease(t) => WaitReleaseKeeps(m, t);
    case WaitP(t) => TestKeeps(m, e);
    case WaitRetest(t) => TestKeeps(m, e);
    case Reacquire(t) => ReacquireKeeps(m, t);
    case SignalPop(t) => SignalPopKeeps(m, t);
    case SignalV(t) => SignalVKeeps(m, t);
  }

  lemma AcquireKeeps(m: Monitor, t: Thread)
    requires MonitorInv(m) && CanMove(m, Acquire(t))
    ensures MonitorInv(Moved(m, Acquire(t)))
  {
    var m' := Moved(m, Acquire(t));
    assert ThreadInv(m, t);
    forall u | u in m.at
      ensures ThreadInv(m', u)
    {
      assert ThreadInv(m, u);
    }
    forall w | w in m.sems
      ensures WaiterInv(m', w)
    {
      assert WaiterInv(m, w);
    }
  }

  lemma ReleaseKeeps(m: Monitor, t: Thread)
    requires MonitorInv(m) && CanMove(m, Release(t))
    ensures MonitorInv(Moved(m, Release(t)))
  {
    var m' := Moved(m, Release(t));
    assert ThreadInv(m, t);
    forall u | u in m.at
      ensures ThreadInv(m', u)
    {
      assert ThreadInv(m, u);
    }
    forall w | w in m.sems
      ensures WaiterInv(m', w)
    {
      assert WaiterInv(m, w);
    }
  }

  lemma WaitBeginKeeps(m: Monitor, t: Thread, w: Waiter)
    requires MonitorInv(m) && CanMove(m, WaitBegin(t, w))
    ensures MonitorInv(Moved(m, WaitBegin(t, w)))
  {
    var m' := Moved(m, WaitBegin(t, w));
    assert ThreadInv(m, t);
    forall u | u in m.at
      ensures ThreadInv(m', u)
    {
      assert ThreadInv(m, u);
    }
    forall x | x in m'.sems
      ensures WaiterInv(m', x)
    {
      if x != w {
        assert WaiterInv(m, x);
      }
    }
  }

  lemma WaitReleaseKeeps(m: Monitor, t: Thread)
    requires MonitorInv(m) && CanMove(m, WaitRelease(t))
    ensures MonitorInv(Moved(m, WaitRelease(t)))
  {
    var m' := Moved(m, WaitRelease(t));
    assert ThreadInv(m, t);
    forall u | u in m.at
      ensures ThreadInv(m', u)
    {
      assert ThreadInv(m, u);
    }
    forall x | x in m'.sems
      ensures WaiterInv(m', x)
    {
      assert WaiterInv(m, x);
    }
  }

  lemma TestKeeps(m: Monitor, e: Move)
    requires MonitorInv(m) && CanMove(m, e) && (e.WaitP? || e.WaitRetest?)
    ensures MonitorInv(Moved(m, e))
  {
    var m' := Moved(m, e);
    assert ThreadInv(m, e.t);
    forall u | u in m.at
      ensures ThreadInv(m', u)
    {
      assert ThreadInv(m, u);
    }
    forall x | x in m'.sems
      ensures WaiterInv(m', x)
    {
      assert WaiterInv(m, x);
    }
  }

  lemma ReacquireKeeps(m: Monitor, t: Thread)
    requires MonitorInv(m) && CanMove(m, Reacquire(t))
    ensures MonitorInv(Moved(m, Reacquire(t)))
  {
    var m' := Moved(m, Reacquire(t));
    assert ThreadInv(m, t);
    assert WaiterInv(m, m.at[t].w);
    forall u | u in m.at
      ensures ThreadInv(m', u)
    {
      assert ThreadInv(m, u);
    }
    forall x | x in m'.sems
      ensures WaiterInv(m', x)
    {
      assert WaiterInv(m, x);
    }
  }

  lemma SignalPopKeeps(m: Monitor, t: Thread)
    requires MonitorInv(m) && CanMove(m, SignalPop(t))
    ensures MonitorInv(Moved(m, SignalPop(t)))
  {
    var m' := Moved(m, SignalPop(t));
    assert ThreadInv(m, t);
    forall u | u in m.at
      ensures ThreadInv(m', u)
    {
      assert ThreadInv(m, u);
    }
    forall x | x in m'.sems
      ensures WaiterInv(m', x)
    {
      assert WaiterInv(m, x);
    }
  }

  lemma SignalVKeeps(m: Monitor, t: Thread)
    requires MonitorInv(m) && CanMove(m, SignalV(t))
    ensures MonitorInv(Moved(m, SignalV(t)))
  {
    var m' := Moved(m, SignalV(t));
    assert ThreadInv(m, t);
    forall u | u in m.at
      ensures ThreadInv(m', u)
    {
      assert ThreadInv(m, u);
    }
    forall x | x in m'.sems
      ensures WaiterInv(m', x)
    {
      assert WaiterInv(m, x);
    }
  }

  /** A monitor before any thread has used it. */
  ghost predicate NewMonitor(m: Monitor)
  {
    m.owner == None && m.waitQueue == [] && m.sems == map[] && forall t :: t in m.at ==> m.at[t] == Outside
  }

  ghost predicate IsRun(m: Monitor, moves: seq<Move>, m': Monitor)
    decreases |moves|
  {
    if moves == [] then m' == m
    else CanMove(m, moves[0]) && IsRun(Moved(m, moves[0]), moves[1..], m')
  }

  lemma {:induction false} EveryRun(m: Monitor, moves: seq<Move>, m': Monitor)
    requires MonitorInv(m) && IsRun(m, moves, m')
    ensures MonitorInv(m')
    decreases |moves|
  {
    if moves != [] {
      MoveKeeps(m, moves[0]);
      EveryRun(Moved(m, moves[0]), moves[1..], m');
    }
  }

  lemma FirstState(m: Monitor)
    requires NewMonitor(m)
    ensures MonitorInv(m)
  {
  }

  /** In every run: a waiter is signalled at most once, and only waiters not yet signalled are in the queue. */
  lemma {:induction false} SignalledOnce(first: Monitor, moves: seq<Move>, m: Monitor, w: Waiter)
    requires NewMonitor(first) && IsRun(first, moves, m) && w in m.sems
    ensures m.sems[w].given <= 1 && 0 <= m.sems[w].value <= 1
    ensures w in m.waitQueue ==> m.sems[w].given == 0
    ensures forall i, j :: 0 <= i < |m.waitQueue| && 0 <= j < |m.waitQueue| && m.waitQueue[i] == m.waitQueue[j] ==>
              i == j
  {
    FirstState(first);
    EveryRun(first, moves, m);
    assert WaiterInv(m, w);
  }

  /**
    In every run: once its semaphore has been signalled, a waiting thread is not left asleep. Whether
    the signal came before P or after, its next test of the semaphore takes the unit.
   */
  lemma {:induction false} NoLostSignal(first: Monitor, moves: seq<Move>, m: Monitor, w: Waiter)
    requires NewMonitor(first) && IsRun(first, moves, m) && w in m.sems && m.sems[w].given == 1 && m.sems[w].taken == 0
    ensures w in m.who && m.sems[w].value == 1 && m.who[w] !in m.sems[w].queue
    ensures exists e: Move :: e.t == m.who[w] && CanMove(m, e) && Moved(m, e).at[e.t] == Reacquiring(w)
  {
    FirstState(first);
    EveryRun(first, moves, m);
    assert WaiterInv(m, w);
    var t := m.who[w];
    assert ThreadInv(m, t);
    var e := if m.at[t].Released? then WaitP(t) else WaitRetest(t);
    assert CanMove(m, e) && Moved(m, e).at[e.t] == Reacquiring(w);
  }

  /** When the loop of Broadcast ends, every thread that was waiting has been signalled. */
  lemma {:induction false} BroadcastDone(first: Monitor, moves: seq<Move>, m: Monitor, t: Thread, w: Waiter)
    requires NewMonitor(first) && IsRun(first, moves, m)
    requires t in m.at && m.at[t] == Inside && m.waitQueue == [] && w in m.sems
    ensures m.sems[w].given == 1
  {
    FirstState(first);
    EveryRun(first, moves, m);
    assert ThreadInv(m, t);
    assert WaiterInv(m, w);
  }
}
