/**
  The lock of code/threads/synch.cc: a semaphore of one unit and a field naming the holder.
  The field is assigned after P has returned and cleared before V is called, each with
  interrupts on, so other threads can run in between.
 */
module Locks {
  import opened Threads
  import opened Wrappers
  import opened Semaphores

  /** Where a thread is: outside, in P, past P, with the field naming it, or with the field cleared and V to come. */
  datatype Place = Out | Waiting | Got | Held | Freed

  /** A lock is a semaphore with this many units. */
  const ONE: nat := 1

  datatype LockState = LockState(sem: Sem, lockHolder: Option<Thread>, place: map<Thread, Place>)

  /** A lock just created, free, with every thread elsewhere. */
  ghost predicate NewLock(l: LockState)
  {
    && l.sem.value == ONE && l.sem.queue == [] && l.sem.woken == {} && l.sem.taken == l.sem.given
    && l.lockHolder == None && forall t :: t in l.place ==> l.place[t] == Out
  }

  datatype Step = Begin(t: Thread) | Retry(t: Thread) | Assign(t: Thread) | Clear(t: Thread) | GiveBack(t: Thread)

  predicate Enabled(l: LockState, e: Step)
  {
    && e.t in l.place
    && match e
       case Begin(t) => l.place[t] == Out
       case Retry(t) => l.place[t] == Waiting && t in l.sem.woken
       case Assign(t) => l.place[t] == Got
       case Clear(t) => l.place[t] == Held
       case GiveBack(t) => l.place[t] == Freed
  }

  /** Where thread `t` is once it has tested the semaphore. */
  function AfterTest(s: Sem): (p: Place)
  {
    if s.value == 0 then Waiting else Got
  }

  function Next(l: LockState, e: Step): (l': LockState)
    requires Enabled(l, e)
  {
    match e
    case Begin(t) => l.(sem := Test(l.sem, t), place := l.place[t := AfterTest(l.sem)])
    case Retry(t) => l.(sem := Test(l.sem, t), place := l.place[t := AfterTest(l.sem)])
    case Assign(t) => l.(lockHolder := Some(t), place := l.place[t := Held])
    case Clear(t) => l.(lockHolder := None, place := l.place[t := Freed])
    case GiveBack(t) => l.(sem := Give(l.sem), place := l.place[t := Out])
  }

  /** The threads between the decrement in P and the increment in V. */
  ghost function Inside(l: LockState): (s: set<Thread>)
  {
    set t | t in l.place && (l.place[t] == Got || l.place[t] == Held || l.place[t] == Freed)
  }

  ghost predicate LockInv(l: LockState)
  {
    && SemInv(l.sem, ONE)
    && (forall t {:trigger InP(l.sem, t)} :: t in l.place ==> (l.place[t] == Waiting <==> InP(l.sem, t)))
    && l.sem.value + |Inside(l)| == 1
    && (forall t :: t in l.place ==> (l.lockHolder == Some(t) <==> l.place[t] == Held))
    && (l.lockHolder.Some? ==> l.lockHolder.value in l.place)
  }

  /** Only thread `t` moved. */
  lemma PlaceMoved(l: LockState, t: Thread, p: Place, l': LockState)
    requires t in l.place && l'.place == l.place[t := p]
    ensures |Inside(l')| - (if t in Inside(l') then 1 else 0) == |Inside(l)| - (if t in Inside(l) then 1 else 0)
  {
    forall u | u in l.place && u != t
      ensures u in Inside(l') <==> u in Inside(l)
    {
    }
    WokenLeaves(Inside(l), t);
    WokenLeaves(Inside(l'), t);
    assert Inside(l') - {t} == Inside(l) - {t};
  }

  lemma TestKeeps(l: LockState, e: Step)
    requires LockInv(l) && Enabled(l, e) && (e.Begin? || e.Retry?)
    ensures LockInv(Next(l, e))
  {
    var l' := Next(l, e);
    Semaphores.StepKeeps(l.sem, if e.Begin? then Enter(e.t) else Retest(e.t), ONE);
    PlaceMoved(l, e.t, AfterTest(l.sem), l');
    assert InP(l.sem, e.t) <==> l.place[e.t] == Waiting;
    TestWaiters(l.sem, e.t);
  }

  lemma GiveKeeps(l: LockState, t: Thread)
    requires LockInv(l) && Enabled(l, GiveBack(t))
    ensures LockInv(Next(l, GiveBack(t)))
  {
    var l' := Next(l, GiveBack(t));
    Semaphores.StepKeeps(l.sem, Up, ONE);
    PlaceMoved(l, t, Out, l');
    SameWaiters(l.sem);
  }

  /** No step breaks the invariant, preemption between P and the assignment included. */
  lemma StepKeeps(l: LockState, e: Step)
    requires LockInv(l) && Enabled(l, e)
    ensures LockInv(Next(l, e))
  {
    match e
    case Begin(t) => TestKeeps(l, e);
    case Retry(t) => TestKeeps(l, e);
    case Assign(t) => PlaceMoved(l, t, Held, Next(l, e)); NoOtherHolder(l, t);
    case Clear(t) => PlaceMoved(l, t, Freed, Next(l, e)); NoOtherHolder(l, t);
    case GiveBack(t) => GiveKeeps(l, t);
  }

  /** A thread inside is the only one. */
  lemma AloneInside(l: LockState, t: Thread)
    requires LockInv(l) && t in Inside(l)
    ensures Inside(l) == {t} && l.sem.value == 0
  {
    WokenLeaves(Inside(l), t);
    assert Inside(l) - {t} == {};
  }

  lemma NoOtherHolder(l: LockState, t: Thread)
    requires LockInv(l) && t in Inside(l)
    ensures forall u :: u in l.place && u != t ==> l.place[u] != Held
  {
    AloneInside(l, t);
    forall u | u in l.place && u != t
      ensures l.place[u] != Held
    {
      assert u !in Inside(l);
    }
  }

  /** At most one thread is between P and V; the holder, when there is one, is that thread. */
  lemma Exclusive(l: LockState)
    requires LockInv(l)
    ensures forall t, u :: t in Inside(l) && u in Inside(l) ==> t == u
    ensures l.lockHolder.Some? ==> l.lockHolder.value in Inside(l)
  {
    forall t | t in Inside(l)
      ensures Inside(l) == {t}
    {
      AloneInside(l, t);
    }
  }

  ghost predicate IsRun(l: LockState, steps: seq<Step>, l': LockState)
    decreases |steps|
  {
    if steps == [] then l' == l
    else Enabled(l, steps[0]) && IsRun(Next(l, steps[0]), steps[1..], l')
  }

  lemma {:induction false} EveryRun(l: LockState, steps: seq<Step>, l': LockState)
    requires LockInv(l) && IsRun(l, steps, l')
    ensures LockInv(l')
    decreases |steps|
  {
    if steps != [] {
      StepKeeps(l, steps[0]);
      EveryRun(Next(l, steps[0]), steps[1..], l');
    }
  }

  /** In every run at most one thread is between P and V, and the holder, once set, is that thread. */
  lemma {:induction false} MutualExclusion(first: LockState, steps: seq<Step>, l: LockState)
    requires NewLock(first) && IsRun(first, steps, l)
    ensures forall t, u :: t in Inside(l) && u in Inside(l) ==> t == u
    ensures forall t :: t in l.place && l.place[t] == Held ==> l.lockHolder == Some(t)
    ensures l.lockHolder.Some? ==> l.lockHolder.value in Inside(l)
  {
    FirstState(first);
    EveryRun(first, steps, l);
    Exclusive(l);
  }

  lemma FirstState(l: LockState)
    requires NewLock(l)
    ensures LockInv(l)
  {
  }

  /** What users of the lock see of a step: the lock is taken, given back, or untouched. */
  ghost predicate Owns(l: LockState, o: Option<Thread>)
  {
    match o
    case None => Inside(l) == {}
    case Some(t) => Inside(l) == {t}
  }

  /**
    Users may think of the lock as a variable: a step takes it when it is free, gives it back when it is
    theirs, or leaves it.
   */
  lemma StepRefines(l: LockState, e: Step)
    requires LockInv(l) && Enabled(l, e)
    ensures var l' := Next(l, e);
            || (Owns(l, None) && Owns(l', Some(e.t)) && l.place[e.t] in {Out, Waiting} && l'.place[e.t] == Got)
            || (Owns(l, Some(e.t)) && Owns(l', None) && l.place[e.t] == Freed && l'.place[e.t] == Out)
            || (&& Inside(l') == Inside(l) && !e.GiveBack?
                && (l.place[e.t] in {Out, Waiting} <==> l'.place[e.t] == Waiting))
  {
    var l' := Next(l, e);
    StepKeeps(l, e);
    PlaceMoved(l, e.t, l'.place[e.t], l');
    if e.t in Inside(l) {
      AloneInside(l, e.t);
    }
    if e.t in Inside(l') {
      AloneInside(l', e.t);
    }
  }

  /** The lock as a variable: a thread takes it when nobody has it, and frees it when it has it itself. */
  datatype OwnerMove = Take(t: Thread) | Free(t: Thread)

  ghost predicate IsOwnerRun(o: Option<Thread>, moves: seq<OwnerMove>, o': Option<Thread>)
    decreases |moves|
  {
    if moves == [] then o' == o
    else match moves[0]
      case Take(t) => o == None && IsOwnerRun(Some(t), moves[1..], o')
      case Free(t) => o == Some(t) && IsOwnerRun(None, moves[1..], o')
  }

  /**
    What a step is to the variable: taking it when the semaphore's unit is had, freeing it when the unit is
    given back, or nothing.
   */
  function MoveOf(l: LockState, e: Step): (moves: seq<OwnerMove>)
    requires Enabled(l, e)
  {
    if (e.Begin? || e.Retry?) && l.sem.value != 0 then [Take(e.t)]
    else if e.GiveBack? then [Free(e.t)]
    else []
  }

  ghost function MovesOf(l: LockState, steps: seq<Step>, l': LockState): (moves: seq<OwnerMove>)
    requires IsRun(l, steps, l')
    decreases |steps|
  {
    if steps == [] then [] else MoveOf(l, steps[0]) + MovesOf(Next(l, steps[0]), steps[1..], l')
  }

  lemma StepMoves(l: LockState, e: Step, o: Option<Thread>) returns (o': Option<Thread>)
    requires LockInv(l) && Enabled(l, e) && Owns(l, o)
    ensures Owns(Next(l, e), o')
    ensures MoveOf(l, e) == [] ==> o' == o
    ensures MoveOf(l, e) == [Take(e.t)] ==> o == None && o' == Some(e.t)
    ensures MoveOf(l, e) == [Free(e.t)] ==> o == Some(e.t) && o' == None
  {
    StepRefines(l, e);
    o' := if MoveOf(l, e) == [] then o else if o == None then Some(e.t) else None;
  }

  /** Every run of the lock is, to its users, a run of the variable. */
  lemma RunRefines(l: LockState, steps: seq<Step>, l': LockState, o: Option<Thread>) returns (o': Option<Thread>)
    requires LockInv(l) && IsRun(l, steps, l') && Owns(l, o)
    ensures Owns(l', o') && IsOwnerRun(o, MovesOf(l, steps, l'), o')
    decreases |steps|
  {
    if steps == [] {
      o' := o;
    } else {
      var mid := StepMoves(l, steps[0], o);
      StepKeeps(l, steps[0]);
      o' := RunRefines(Next(l, steps[0]), steps[1..], l', mid);
      var moves, rest := MovesOf(l, steps, l'), MovesOf(Next(l, steps[0]), steps[1..], l');
      assert moves == MoveOf(l, steps[0]) + rest;
      if MoveOf(l, steps[0]) != [] {
        assert moves[1..] == rest;
      } else {
        assert moves == rest;
      }
    }
  }
}
