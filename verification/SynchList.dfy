/** The synchronized list of code/threads/synchlist.cc, for any number of producers and consumers. */
module SynchLists {
  import opened Threads
  import opened Wrappers
  import opened Semaphores
  import opened Conditions

  /**
    What a thread is doing: appending an item, which is not yet on the list, is, or is and Signal is over; or
    removing one, before or after.
   */
  datatype Task<T> = Idle | Put(item: T) | PutDone | PutSignalled | Take | TakeDone

  /**
    `appended` and `removed` are the items in the order of the calls. `owed` are the consumers
    whose semaphore has been taken off the queue and who have neither removed an item nor waited again.
   */
  datatype SynchList<T> = SynchList(m: Monitor, list: seq<T>, appended: seq<T>, removed: seq<T>,
                                    task: map<Thread, Task<T>>, owed: set<Thread>)

  datatype Action<T> = CallAppend(t: Thread, item: T) | CallRemove(t: Thread) | AppendItem(t: Thread)
                     | SignalNobody(t: Thread)
                     | RemoveItem(t: Thread) | Monitored(move: Move)

  /** The moves of the lock and the condition that the two operations make, and when. */
  predicate Allowed<T>(s: SynchList<T>, e: Move)
  {
    && e.t in s.task && CanMove(s.m, e)
    && match e
       case Acquire(t) => s.task[t].Put? || s.task[t].Take?
       case Release(t) => s.task[t].PutSignalled? || s.task[t].TakeDone?
       case WaitBegin(t, _) => s.task[t].Take? && s.list == []
       case SignalPop(t) => s.task[t].PutDone?
       case _ => true
  }

  predicate CanAct<T>(s: SynchList<T>, a: Action<T>)
  {
    match a
    case CallAppend(t, _) => t in s.task && s.task[t].Idle?
    case CallRemove(t) => t in s.task && s.task[t].Idle?
    case AppendItem(t) => t in s.task && t in s.m.at && s.task[t].Put? && s.m.at[t].Inside?
    case SignalNobody(t) => t in s.task && t in s.m.at && s.task[t].PutDone? && s.m.at[t].Inside? && s.m.waitQueue == []
    case RemoveItem(t) => t in s.task && t in s.m.at && s.task[t].Take? && s.m.at[t].Inside? && s.list != []
    case Monitored(e) => Allowed(s, e)
  }

  /** What a move of the monitor means for the task of the thread that makes it. */
  function TaskAfter<T>(task: Task<T>, e: Move): (r: Task<T>)
  {
    match e
    case Release(_) => Idle
    case SignalV(_) => PutSignalled
    case _ => task
  }

  function OwedAfter<T>(s: SynchList<T>, e: Move): (r: set<Thread>)
    requires CanMove(s.m, e)
  {
    match e
    case WaitBegin(t, _) => s.owed - {t}
    case SignalPop(_) => if s.m.waitQueue[0] in s.m.who then s.owed + {s.m.who[s.m.waitQueue[0]]} else s.owed
    case _ => s.owed
  }

  function Acted<T>(s: SynchList<T>, a: Action<T>): (s': SynchList<T>)
    requires CanAct(s, a)
  {
    match a
    case CallAppend(t, item) => s.(task := s.task[t := Put(item)])
    case CallRemove(t) => s.(task := s.task[t := Take])
    case AppendItem(t) =>
      s.(list := s.list + [s.task[t].item], appended := s.appended + [s.task[t].item], task := s.task[t := PutDone])
    case SignalNobody(t) => s.(task := s.task[t := PutSignalled])
    case RemoveItem(t) =>
      s.(list := s.list[1..], removed := s.removed + [s.list[0]], task := s.task[t := TakeDone], owed := s.owed - {t})
    case Monitored(e) =>
      s.(m := Moved(s.m, e), task := s.task[e.t := TaskAfter(s.task[e.t], e)], owed := OwedAfter(s, e))
  }

  /** Where in the monitor a thread may be at each point of its operation. */
  predicate TaskFits<T>(task: Task<T>, a: At)
  {
    match task
    case Idle => a.Outside?
    case Put(_) => a.Outside? || a.Inside?
    case PutDone => a.Inside? || a.Signalling?
    case PutSignalled => a.Inside?
    case Take => !a.Signalling?
    case TakeDone => a.Inside?
  }

  /** A consumer that has been signalled and has not yet looked at the list since. */
  ghost predicate IsOwed<T>(s: SynchList<T>, t: Thread)
  {
    && t in s.m.at && t in s.task && s.task[t].Take?
    && (s.m.at[t].Inside? || (WaiterOf(s.m.at[t]).Some? && WaiterOf(s.m.at[t]).value !in s.m.waitQueue))
  }

  /** One while a producer has appended its item and not yet signalled. */
  function Unsignalled<T>(s: SynchList<T>): (n: nat)
  {
    if s.m.owner.Some? && s.m.owner.value in s.task && s.task[s.m.owner.value].PutDone?
       && s.m.owner.value in s.m.at && s.m.at[s.m.owner.value].Inside? then 1 else 0
  }

  ghost predicate ListInv<T>(s: SynchList<T>)
  {
    && MonitorInv(s.m) && s.task.Keys == s.m.at.Keys
    && s.removed + s.list == s.appended
    && (forall t :: t in s.task ==> TaskFits(s.task[t], s.m.at[t]))
    && (forall t {:trigger IsOwed(s, t)} :: t in s.owed ==> IsOwed(s, t))
    && (s.m.waitQueue != [] ==> |s.list| <= |s.owed| + Unsignalled(s))
  }

  /** No action of any thread breaks the invariant. */
  lemma ActionKeeps<T>(s: SynchList<T>, a: Action<T>)
    requires ListInv(s) && CanAct(s, a)
    ensures ListInv(Acted(s, a))
  {
    match a
    case CallAppend(t, _) => CallKeeps(s, a, t);
    case CallRemove(t) => CallKeeps(s, a, t);
    case AppendItem(t) => AppendKeeps(s, t);
    case SignalNobody(t) => assert ThreadInv(s.m, t); SameOwed(s, Acted(s, a), t);
    case RemoveItem(t) => RemoveKeeps(s, t);
    case Monitored(e) => MoveKeepsList(s, e);
  }

  /** A change of task of a thread that is not owed leaves the others owed. */
  lemma SameOwed<T>(s: SynchList<T>, s': SynchList<T>, t: Thread)
    requires ListInv(s) && t in s.task && t in s'.task && s'.m == s.m && s'.owed <= s.owed
    requires s'.task == s.task[t := s'.task[t]]
    requires !s.task[t].Take? || t !in s'.owed
    ensures forall u :: u in s'.owed ==> IsOwed(s', u)
  {
    forall u | u in s'.owed
      ensures IsOwed(s', u)
    {
      assert IsOwed(s, u);
    }
  }

  lemma CallKeeps<T>(s: SynchList<T>, a: Action<T>, t: Thread)
    requires ListInv(s) && CanAct(s, a) && (a.CallAppend? || a.CallRemove?) && t == a.t
    ensures ListInv(Acted(s, a))
  {
    assert ThreadInv(s.m, t);
    SameOwed(s, Acted(s, a), t);
  }

  lemma AppendKeeps<T>(s: SynchList<T>, t: Thread)
    requires ListInv(s) && CanAct(s, AppendItem(t))
    ensures ListInv(Acted(s, AppendItem(t)))
  {
    assert ThreadInv(s.m, t);
    SameOwed(s, Acted(s, AppendItem(t)), t);
    assert s.removed + (s.list + [s.task[t].item]) == (s.removed + s.list) + [s.task[t].item];
  }

  lemma RemoveKeeps<T>(s: SynchList<T>, t: Thread)
    requires ListInv(s) && CanAct(s, RemoveItem(t))
    ensures ListInv(Acted(s, RemoveItem(t)))
  {
    assert ThreadInv(s.m, t);
    assert (s.removed + [s.list[0]]) + s.list[1..] == s.removed + s.list;
    WokenLeaves(s.owed, t);
    SameOwed(s, Acted(s, RemoveItem(t)), t);
  }

  lemma MoveKeepsList<T>(s: SynchList<T>, e: Move)
    requires ListInv(s) && CanAct(s, Monitored(e))
    ensures ListInv(Acted(s, Monitored(e)))
  {
    MoveKeeps(s.m, e);
    assert ThreadInv(s.m, e.t);
    match e
    case WaitBegin(t, w) => WaitKeepsList(s, t, w);
    case SignalPop(t) => PopKeepsList(s, t);
    case _ => OtherKeepsList(s, e);
  }

  lemma WaitKeepsList<T>(s: SynchList<T>, t: Thread, w: Waiter)
    requires ListInv(s) && CanAct(s, Monitored(WaitBegin(t, w))) && MonitorInv(Moved(s.m, WaitBegin(t, w)))
    ensures ListInv(Acted(s, Monitored(WaitBegin(t, w))))
  {
    var s' := Acted(s, Monitored(WaitBegin(t, w)));
    forall u | u in s'.owed
      ensures IsOwed(s', u)
    {
      assert IsOwed(s, u);
      assert ThreadInv(s.m, u);
    }
  }

  lemma PopKeepsList<T>(s: SynchList<T>, t: Thread)
    requires ListInv(s) && CanAct(s, Monitored(SignalPop(t))) && MonitorInv(Moved(s.m, SignalPop(t)))
    ensures ListInv(Acted(s, Monitored(SignalPop(t))))
  {
    var s' := Acted(s, Monitored(SignalPop(t)));
    var w := s.m.waitQueue[0];
    assert WaiterInv(s.m, w);
    var u := s.m.who[w];
    assert ThreadInv(s.m, t);
    assert u in s.owed ==> IsOwed(s, u);
    forall x | x in s'.owed
      ensures IsOwed(s', x)
    {
      if x != u {
        assert IsOwed(s, x);
      }
    }
  }

  lemma OtherKeepsList<T>(s: SynchList<T>, e: Move)
    requires ListInv(s) && CanAct(s, Monitored(e)) && MonitorInv(Moved(s.m, e)) && !e.WaitBegin? && !e.SignalPop?
    ensures ListInv(Acted(s, Monitored(e)))
  {
    var s' := Acted(s, Monitored(e));
    assert ThreadInv(s.m, e.t);
    forall u | u in s'.owed
      ensures IsOwed(s', u)
    {
      assert IsOwed(s, u);
      assert ThreadInv(s.m, u);
    }
  }

  ghost predicate NewList<T>(s: SynchList<T>)
  {
    && NewMonitor(s.m) && s.list == [] && s.appended == [] && s.removed == [] && s.owed == {}
    && s.task.Keys == s.m.at.Keys && forall t :: t in s.task ==> s.task[t].Idle?
  }

  ghost predicate IsRun<T>(s: SynchList<T>, actions: seq<Action<T>>, s': SynchList<T>)
    decreases |actions|
  {
    if actions == [] then s' == s
    else CanAct(s, actions[0]) && IsRun(Acted(s, actions[0]), actions[1..], s')
  }

  lemma {:induction false} EveryRun<T>(s: SynchList<T>, actions: seq<Action<T>>, s': SynchList<T>)
    requires ListInv(s) && IsRun(s, actions, s')
    ensures ListInv(s')
    decreases |actions|
  {
    if actions != [] {
      ActionKeeps(s, actions[0]);
      EveryRun(Acted(s, actions[0]), actions[1..], s');
    }
  }

  /** In every run the items removed, followed by those on the list, are the items appended, in order. */
  lemma {:induction false} NothingLost<T>(first: SynchList<T>, actions: seq<Action<T>>, s: SynchList<T>)
    requires NewList(first) && IsRun(first, actions, s)
    ensures s.removed + s.list == s.appended
  {
    Conditions.FirstState(first.m);
    EveryRun(first, actions, s);
  }

  /** A consumer inside Wait whose semaphore has had its unit. */
  ghost predicate OnItsWay<T>(s: SynchList<T>, t: Thread)
  {
    && t in s.task && s.task[t].Take? && t in s.m.at && WaiterOf(s.m.at[t]).Some?
    && var w := WaiterOf(s.m.at[t]).value; w in s.m.sems && w !in s.m.waitQueue && s.m.sems[w].given == 1
  }

  /**
    In every run, whenever the lock is free and a consumer waits, every item on the list has a
    consumer that has been signalled for it and is on its way.
   */
  lemma {:induction false} NoItemStranded<T>(first: SynchList<T>, actions: seq<Action<T>>, s: SynchList<T>)
    requires NewList(first) && IsRun(first, actions, s) && s.m.owner == None && s.m.waitQueue != []
    ensures |s.list| <= |s.owed|
    ensures forall t :: t in s.owed ==> OnItsWay(s, t)
  {
    Conditions.FirstState(first.m);
    EveryRun(first, actions, s);
    forall t | t in s.owed
      ensures OnItsWay(s, t)
    {
      assert IsOwed(s, t);
      assert ThreadInv(s.m, t);
      assert WaiterInv(s.m, WaiterOf(s.m.at[t]).value);
    }
  }
}
