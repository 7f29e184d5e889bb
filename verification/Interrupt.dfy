/**
  Simulated time: the pending interrupts and the clock of code/machine/interrupt.cc, with the
  sorted list of code/lib/list.cc.
 */
module Interrupts {

  const USER_TICK: nat := 1
  const SYSTEM_TICK: nat := 10

  /** An interrupt to come. Numbers in the order of scheduling tell interrupts apart. */
  datatype Pending = Pending(when: int, id: nat)

  /** An interrupt that has come, and at what time. */
  datatype Fired = Fired(p: Pending, time: int)

  datatype Status = IdleMode | SystemMode | UserMode

  /** Due earlier, or at the same time and scheduled earlier. */
  predicate Before(p: Pending, q: Pending)
  {
    p.when < q.when || (p.when == q.when && p.id < q.id)
  }

  /** The first `n` interrupts are in order. */
  ghost predicate Sorted(s: seq<Pending>, n: nat)
    requires n <= |s|
  {
    n < 2 || (Sorted(s, n - 1) && Before(s[n - 2], s[n - 1]))
  }

  /** The first `n` interrupts have numbers below `id`. */
  ghost predicate Numbered(s: seq<Pending>, n: nat, id: nat)
    requires n <= |s|
  {
    n == 0 || (Numbered(s, n - 1, id) && s[n - 1].id < id)
  }

  /** Each interrupt has come after the one before, none early, none later than now. */
  ghost predicate FiredInOrder(fired: seq<Fired>, now: int)
  {
    fired == [] ||
    var n := |fired| - 1;
    && fired[n].p.when <= fired[n].time <= now && FiredInOrder(fired[..n], fired[n].time)
    && (n > 0 ==> Before(fired[n - 1].p, fired[n].p))
  }

  /** The next to come should not have come before the last. */
  ghost predicate NoneOvertaken(fired: seq<Fired>, pending: seq<Pending>)
  {
    fired == [] || pending == [] || Before(fired[|fired| - 1].p, pending[0])
  }

  /** What that means for any two interrupts: come in order of due time, ties in order of scheduling, none early. */
  ghost predicate InOrder(fired: seq<Fired>, pending: seq<Pending>, now: int)
  {
    && (forall i :: 0 <= i < |fired| ==> fired[i].p.when <= fired[i].time <= now)
    && (forall i, j :: 0 <= i < j < |fired| ==> Before(fired[i].p, fired[j].p) && fired[i].time <= fired[j].time)
    && (forall i, j :: 0 <= i < |fired| && 0 <= j < |pending| ==> Before(fired[i].p, pending[j]))
  }

  lemma {:induction false} SortedFrom(s: seq<Pending>, n: nat, i: nat)
    requires i < n <= |s| && Sorted(s, n)
    ensures i > 0 ==> Before(s[0], s[i])
  {
    if i < n - 1 {
      SortedFrom(s, n - 1, i);
    } else if i > 0 {
      SortedFrom(s, n - 1, i - 1);
    }
  }

  lemma {:induction false} FiredUpTo(fired: seq<Fired>, now: int)
    requires FiredInOrder(fired, now)
    ensures InOrder(fired, [], now)
  {
    if fired != [] {
      var n := |fired| - 1;
      FiredUpTo(fired[..n], fired[n].time);
    }
  }

  lemma {:induction false} Ordered(fired: seq<Fired>, pending: seq<Pending>, now: int)
    requires FiredInOrder(fired, now) && Sorted(pending, |pending|) && NoneOvertaken(fired, pending)
    ensures InOrder(fired, pending, now)
  {
    FiredUpTo(fired, now);
    forall i, j | 0 <= i < |fired| && 0 <= j < |pending|
      ensures Before(fired[i].p, pending[j])
    {
      SortedFrom(pending, |pending|, j);
    }
  }

  /** How many interrupts from position `i` on are due before one that is not. */
  function DueCount(s: seq<Pending>, i: nat, now: int): (n: nat)
    decreases |s| - i
  {
    if i >= |s| || s[i].when > now then 0 else 1 + DueCount(s, i + 1, now)
  }

  lemma {:induction false} DueShift(s: seq<Pending>, i: nat, now: int)
    requires s != []
    ensures DueCount(s[1..], i, now) == DueCount(s, i + 1, now)
    decreases |s| - i
  {
    if i + 1 < |s| {
      DueShift(s, i + 1, now);
    }
  }

  /** SortedList::Insert at position `k`. */
  function Inserted(s: seq<Pending>, k: nat, p: Pending): (t: seq<Pending>)
    requires k <= |s|
    ensures |t| == |s| + 1
  {
    s[..k] + [p] + s[k..]
  }

  /** Behind what is not later, in front of what is. */
  predicate Fits(s: seq<Pending>, k: nat, p: Pending)
  {
    k <= |s| && (k > 0 ==> s[k - 1].when <= p.when) && (k < |s| ==> s[k].when > p.when)
  }

  lemma {:induction false} DueAfterInsert(s: seq<Pending>, k: nat, p: Pending, now: int, i: nat)
    requires Fits(s, k, p) && p.when > now && i <= k
    ensures DueCount(Inserted(s, k, p), i, now) == DueCount(s, i, now)
    decreases k - i
  {
    if i < k {
      DueAfterInsert(s, k, p, now, i + 1);
    }
  }

  lemma {:induction false} Neighbours(s: seq<Pending>, n: nat, id: nat, i: nat)
    requires i < n <= |s| && Sorted(s, n) && Numbered(s, n, id)
    ensures s[i].id < id && (i > 0 ==> Before(s[i - 1], s[i]))
  {
    if i < n - 1 {
      Neighbours(s, n - 1, id, i);
    }
  }

  /** An interrupt scheduled after all that are pending, put behind everything that is not later, keeps the order. */
  lemma {:induction false} InsertKeeps(s: seq<Pending>, k: nat, p: Pending, n: nat)
    requires n <= |s| + 1 && Sorted(s, |s|) && Numbered(s, |s|, p.id) && Fits(s, k, p)
    ensures Sorted(Inserted(s, k, p), n) && Numbered(Inserted(s, k, p), n, p.id + 1)
  {
    if n > 0 {
      InsertKeeps(s, k, p, n - 1);
      if k < n - 1 {
        Neighbours(s, |s|, p.id, n - 2);
      } else if n - 1 < |s| {
        Neighbours(s, |s|, p.id, n - 1);
      }
      if 0 < k <= |s| {
        Neighbours(s, |s|, p.id, k - 1);
      }
    }
  }

  lemma DropKeeps(s: seq<Pending>, n: nat, id: nat)
    requires 0 < n <= |s| && Sorted(s, n) && Numbered(s, n, id)
    ensures Sorted(s[1..], n - 1) && Numbered(s[1..], n - 1, id)
  {
    if n > 1 {
      DropKeeps(s, n - 1, id);
    }
  }

  /** An interrupt in the future comes after all that have come. */
  lemma {:induction false} NotOvertaken(s: seq<Pending>, k: nat, p: Pending, fired: seq<Fired>, now: int)
    requires FiredInOrder(fired, now) && NoneOvertaken(fired, s) && k <= |s| && p.when > now
    ensures NoneOvertaken(fired, Inserted(s, k, p))
  {
  }

  lemma {:induction false} FiredLater(fired: seq<Fired>, now: int, later: int)
    requires FiredInOrder(fired, now) && now <= later
    ensures FiredInOrder(fired, later)
  {
  }

  lemma {:induction false} FiredNext(fired: seq<Fired>, pending: seq<Pending>, now: int)
    requires FiredInOrder(fired, now) && NoneOvertaken(fired, pending) && pending != [] && pending[0].when <= now
    requires Sorted(pending, |pending|)
    ensures FiredInOrder(fired + [Fired(pending[0], now)], now)
    ensures NoneOvertaken(fired + [Fired(pending[0], now)], pending[1..])
  {
    assert (fired + [Fired(pending[0], now)])[..|fired|] == fired;
    assert |pending| > 1 ==> Before(pending[0], pending[1]) by {
      if |pending| > 1 {
        SortedFrom(pending, |pending|, 1);
      }
    }
  }

  /** Since `before`, interrupts have come at time `now`, `first` being the first of them. */
  ghost predicate CameNow(before: seq<Fired>, first: Pending, fired: seq<Fired>, now: int)
  {
    && |before| < |fired| && fired[|before|].p == first
    && forall i :: |before| <= i < |fired| ==> fired[i].time == now
  }

  lemma {:induction false} AllLater(pending: seq<Pending>, now: int)
    requires Sorted(pending, |pending|) && (pending == [] || pending[0].when > now)
    ensures NothingDue(pending, now)
  {
    forall i | 0 <= i < |pending|
      ensures pending[i].when > now
    {
      SortedFrom(pending, |pending|, i);
    }
  }

  /** The interrupts that a handler called at time `now` asks for, numbered from `id` on. */
  ghost function Asked(now: int, id: nat, requests: seq<int>): (ps: seq<Pending>)
  {
    if requests == [] then [] else
      var n := |requests| - 1;
      Asked(now, id, requests[..n]) + [Pending(now + requests[n], id + n)]
  }

  lemma {:induction false} AskedNext(log: seq<Pending>, now: int, id: nat, requests: seq<int>, n: nat)
    requires n < |requests|
    ensures (log + Asked(now, id, requests[..n])) + [Pending(now + requests[n], id + n)] ==
              log + Asked(now, id, requests[..n + 1])
  {
    assert requests[..n + 1][..n] == requests[..n];
  }

  /** Every interrupt that was scheduled has come or is pending, once: putting back what has come gives the log. */
  ghost predicate Accounted(log: seq<Pending>, pending: seq<Pending>, fired: seq<Fired>)
    decreases |fired|
  {
    if fired == [] then multiset(pending) == multiset(log)
    else Accounted(log, [fired[|fired| - 1].p] + pending, fired[..|fired| - 1])
  }

  /** The interrupts that have come. */
  ghost function Come(fired: seq<Fired>): (ps: multiset<Pending>)
  {
    if fired == [] then multiset{} else Come(fired[..|fired| - 1]) + multiset{fired[|fired| - 1].p}
  }

  /** Those that have come and those that are pending are, together, those that were scheduled. */
  lemma {:induction false} AllAccounted(log: seq<Pending>, pending: seq<Pending>, fired: seq<Fired>)
    requires Accounted(log, pending, fired)
    ensures Come(fired) + multiset(pending) == multiset(log)
    decreases |fired|
  {
    if fired != [] {
      var n := |fired| - 1;
      AllAccounted(log, [fired[n].p] + pending, fired[..n]);
      assert multiset([fired[n].p] + pending) == multiset{fired[n].p} + multiset(pending);
    }
  }

  lemma {:induction false} OneMorePending(log: seq<Pending>, pending: seq<Pending>, fired: seq<Fired>, k: nat,
                                          p: Pending)
    requires Accounted(log, pending, fired) && k <= |pending|
    ensures Accounted(log + [p], Inserted(pending, k, p), fired)
    decreases |fired|
  {
    if fired == [] {
      assert pending == pending[..k] + pending[k..];
    } else {
      var f := [fired[|fired| - 1].p];
      OneMorePending(log, f + pending, fired[..|fired| - 1], k + 1, p);
      assert f + Inserted(pending, k, p) == Inserted(f + pending, k + 1, p);
    }
  }

  lemma {:induction false} OneMoreFired(log: seq<Pending>, pending: seq<Pending>, fired: seq<Fired>, time: int)
    requires Accounted(log, pending, fired) && pending != []
    ensures Accounted(log, pending[1..], fired + [Fired(pending[0], time)])
  {
    assert (fired + [Fired(pending[0], time)])[..|fired|] == fired;
    assert pending == [pending[0]] + pending[1..];
  }

  /** The queue is in order, numbered, behind what has come, and complete with it. */
  ghost predicate QueueOk(pending: seq<Pending>, fired: seq<Fired>, log: seq<Pending>, scheduled: nat)
  {
    && Sorted(pending, |pending|) && Numbered(pending, |pending|, scheduled)
    && NoneOvertaken(fired, pending) && Accounted(log, pending, fired)
  }

  /** One interrupt more, in the future. */
  lemma {:induction false} ScheduleKeeps(pending: seq<Pending>, fired: seq<Fired>, log: seq<Pending>, now: int, k: nat,
                                         p: Pending)
    requires QueueOk(pending, fired, log, p.id) && FiredInOrder(fired, now) && Fits(pending, k, p) && p.when > now
    ensures QueueOk(Inserted(pending, k, p), fired, log + [p], p.id + 1)
    ensures DueCount(Inserted(pending, k, p), 0, now) == DueCount(pending, 0, now)
  {
    DueAfterInsert(pending, k, p, now, 0);
    InsertKeeps(pending, k, p, |pending| + 1);
    NotOvertaken(pending, k, p, fired, now);
    OneMorePending(log, pending, fired, k, p);
  }

  class Interrupt {
    var pending: seq<Pending>
    var status: Status
    var inHandler: bool
    var totalTicks: int
    var idleTicks: int
    var systemTicks: int
    var userTicks: int
    var scheduled: nat
    ghost var fired: seq<Fired>
    /** Every interrupt ever scheduled, in that order. */
    ghost var log: seq<Pending>

    ghost predicate Valid()
      reads this
    {
      && totalTicks == idleTicks + systemTicks + userTicks
      && QueueOk(pending, fired, log, scheduled) && FiredInOrder(fired, totalTicks) && scheduled == |log|
    }

    constructor ()
      ensures Valid() && pending == [] && fired == [] && log == [] && totalTicks == 0
    {
      pending, status, inHandler := [], SystemMode, false;
      totalTicks, idleTicks, systemTicks, userTicks, scheduled, fired, log := 0, 0, 0, 0, 0, [], [];
    }

    /** The position SortedList::Insert finds: behind everything that is not later. */
    method FindPlace(item: Pending) returns (k: nat)
      ensures Fits(pending, k, item)
    {
      if pending == [] || item.when < pending[0].when {
        return 0;
      }
      k := 1;
      while k < |pending| && !(item.when < pending[k].when)
        invariant 1 <= k <= |pending| && pending[k - 1].when <= item.when
      {
        k := k + 1;
      }
    }

    /** Puts off an interrupt to a later time; it comes after those already due then. */
    method Schedule(fromNow: int)
      requires Valid() && fromNow > 0
      modifies this`pending, this`scheduled, this`log
      ensures Valid() && scheduled == old(scheduled) + 1
      ensures log == old(log) + [Pending(totalTicks + fromNow, old(scheduled))]
      ensures DueCount(pending, 0, totalTicks) == DueCount(old(pending), 0, totalTicks)
    {
      var toOccur := Pending(totalTicks + fromNow, scheduled);
      var k := FindPlace(toOccur);
      ScheduleKeeps(pending, fired, log, totalTicks, k, toOccur);
      log, pending := log + [toOccur], Inserted(pending, k, toOccur);
      scheduled := scheduled + 1;
    }

    /** A handler may schedule any number of interrupts. */
    method CallBack(requests: seq<int>)
      requires Valid() && forall i :: 0 <= i < |requests| ==> requests[i] > 0
      modifies this`pending, this`scheduled, this`log
      ensures Valid() && DueCount(pending, 0, totalTicks) == DueCount(old(pending), 0, totalTicks)
      ensures log == old(log) + Asked(totalTicks, old(scheduled), requests)
    {
      for i := 0 to |requests|
        invariant Valid() && DueCount(pending, 0, totalTicks) == DueCount(old(pending), 0, totalTicks)
        invariant scheduled == old(scheduled) + i
        invariant log == old(log) + Asked(totalTicks, old(scheduled), requests[..i])
      {
        AskedNext(old(log), totalTicks, old(scheduled), requests, i);
        Schedule(requests[i]);
      }
      assert requests[..|requests|] == requests;
    }

    /** The first interrupt comes; its handler may schedule others. */
    method FireFirst(requests: seq<int>)
      requires Valid() && pending != [] && pending[0].when <= totalTicks
      requires forall i :: 0 <= i < |requests| ==> requests[i] > 0
      modifies this`pending, this`scheduled, this`log, this`fired
      ensures Valid() && fired == old(fired) + [Fired(old(pending[0]), totalTicks)]
      ensures DueCount(pending, 0, totalTicks) == DueCount(old(pending), 0, totalTicks) - 1
      ensures log == old(log) + Asked(totalTicks, old(scheduled), requests)
    {
      OneMoreFired(log, pending, fired, totalTicks);
      DropKeeps(pending, |pending|, scheduled);
      DueShift(pending, 0, totalTicks);
      FiredNext(fired, pending, totalTicks);
      fired := fired + [Fired(pending[0], totalTicks)];
      pending := pending[1..];
      CallBack(requests);
    }

    /** Time in which nothing happens counts as idle. */
    method AdvanceClock(when: int)
      requires Valid() && when > totalTicks
      modifies this`totalTicks, this`idleTicks
      ensures Valid() && totalTicks == when
    {
      FiredLater(fired, totalTicks, when);
      idleTicks := idleTicks + (when - totalTicks);
      totalTicks := when;
    }

    /** Lets every interrupt that is due come; with `advanceClock`, first moves the clock to the next one. */
    method CheckIfDue(advanceClock: bool, script: seq<seq<int>>) returns (any: bool)
      requires Valid() && Later(script)
      modifies this
      ensures Valid() && NothingDue(pending, totalTicks) && status == old(status)
      ensures inHandler == (if any then false else old(inHandler))
      ensures any <==> old(pending) != [] && (advanceClock || old(pending)[0].when <= old(totalTicks))
      ensures totalTicks ==
                if any && old(pending)[0].when > old(totalTicks) then old(pending)[0].when else old(totalTicks)
      ensures systemTicks == old(systemTicks) && userTicks == old(userTicks)
      ensures old(fired) <= fired && old(log) <= log
      ensures any ==> CameNow(old(fired), old(pending)[0], fired, totalTicks)
      ensures !any ==> fired == old(fired) && pending == old(pending)
    {
      if pending == [] {
        return false;
      }
      var next := pending[0];
      if next.when > totalTicks {
        if !advanceClock {
          AllLater(pending, totalTicks);
          return false;
        }
        AdvanceClock(next.when);
      }
      inHandler := true;
      FireDue(script);
      inHandler := false;
      return true;
    }

    /** The loop of CheckIfDue. It ends because handlers schedule strictly later interrupts only. */
    method FireDue(script: seq<seq<int>>)
      requires Valid() && Later(script) && pending != [] && pending[0].when <= totalTicks
      modifies this`pending, this`scheduled, this`log, this`fired
      ensures Valid() && NothingDue(pending, totalTicks)
      ensures old(fired) <= fired && old(log) <= log && CameNow(old(fired), old(pending)[0], fired, totalTicks)
    {
      var requests := if script == [] then [] else script[0];
      FireFirst(requests);
      var k := 1;
      while pending != [] && pending[0].when <= totalTicks
        invariant Valid() && k >= 1
        invariant old(fired) <= fired && old(log) <= log && CameNow(old(fired), old(pending)[0], fired, totalTicks)
        decreases DueCount(pending, 0, totalTicks)
      {
        requests := if k < |script| then script[k] else [];
        FireFirst(requests);
        k := k + 1;
      }
      AllLater(pending, totalTicks);
    }

    /** Time advances by one user instruction, or one return to interrupts enabled. */
    method OneTick(script: seq<seq<int>>)
      requires Valid() && Later(script)
      modifies this
      ensures Valid() && NothingDue(pending, totalTicks) && status == old(status) && idleTicks == old(idleTicks)
      ensures totalTicks == old(totalTicks) + if status == SystemMode then SYSTEM_TICK else USER_TICK
      ensures systemTicks == old(systemTicks) + if status == SystemMode then SYSTEM_TICK else 0
      ensures old(fired) <= fired && old(log) <= log
    {
      FiredLater(fired, totalTicks, totalTicks + if status == SystemMode then SYSTEM_TICK else USER_TICK);
      if status == SystemMode {
        totalTicks := totalTicks + SYSTEM_TICK;
        systemTicks := systemTicks + SYSTEM_TICK;
      } else {
        totalTicks := totalTicks + USER_TICK;
        userTicks := userTicks + USER_TICK;
      }
      var any := CheckIfDue(false, script);
    }

    /** With no thread to run: on to the next interrupt, or halt when there is none. */
    method Idle(script: seq<seq<int>>) returns (halt: bool)
      requires Valid() && Later(script)
      modifies this
      ensures Valid() && NothingDue(pending, totalTicks) && old(fired) <= fired && old(log) <= log
      ensures halt <==> old(pending) == []
      ensures status == if halt then IdleMode else SystemMode
      ensures totalTicks ==
                if old(pending) != [] && old(pending)[0].when > old(totalTicks) then old(pending)[0].when
                else old(totalTicks)
      ensures systemTicks == old(systemTicks) && userTicks == old(userTicks)
    {
      status := IdleMode;
      var any := CheckIfDue(true, script);
      if any {
        status := SystemMode;
      }
      halt := !any;
    }
  }

  /** Every delay that a handler asks for is positive, as Schedule insists. */
  predicate Later(script: seq<seq<int>>)
  {
    forall i, j :: 0 <= i < |script| && 0 <= j < |script[i]| ==> script[i][j] > 0
  }

  ghost predicate NothingDue(pending: seq<Pending>, now: int)
  {
    forall i :: 0 <= i < |pending| ==> pending[i].when > now
  }

  /** What may happen to the clock: a tick in either mode, idling, or a device scheduling an interrupt. */
  datatype Event = Tick(mode: Status, script: seq<seq<int>>) | Idling(script: seq<seq<int>>) | Device(fromNow: int)

  predicate Legal(e: Event)
  {
    match e
    case Tick(_, script) => Later(script)
    case Idling(script) => Later(script)
    case Device(fromNow) => fromNow > 0
  }

  /**
    Any run: the clock never goes back, its parts add up, and interrupts come in order, each once, none early
    and none lost.
   */
  method Run(interrupt: Interrupt, events: seq<Event>)
    requires interrupt.Valid() && forall i :: 0 <= i < |events| ==> Legal(events[i])
    modifies interrupt
    ensures interrupt.Valid() && interrupt.totalTicks >= old(interrupt.totalTicks)
    ensures old(interrupt.fired) <= interrupt.fired
    ensures interrupt.totalTicks == interrupt.idleTicks + interrupt.systemTicks + interrupt.userTicks
    ensures old(interrupt.log) <= interrupt.log
    ensures Come(interrupt.fired) + multiset(interrupt.pending) == multiset(interrupt.log)
    ensures InOrder(interrupt.fired, interrupt.pending, interrupt.totalTicks)
  {
    for i := 0 to |events|
      invariant interrupt.Valid() && interrupt.totalTicks >= old(interrupt.totalTicks)
      invariant old(interrupt.fired) <= interrupt.fired
      invariant old(interrupt.log) <= interrupt.log
    {
      match events[i]
      case Tick(mode, script) =>
        interrupt.status := mode;
        interrupt.OneTick(script);
      case Idling(script) =>
        var halt := interrupt.Idle(script);
      case Device(fromNow) =>
        interrupt.Schedule(fromNow);
    }
    Ordered(interrupt.fired, interrupt.pending, interrupt.totalTicks);
    AllAccounted(interrupt.log, interrupt.pending, interrupt.fired);
  }
}
