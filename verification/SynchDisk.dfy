/**
  Threads sharing one disk through code/filesys/synchdisk.cc, with the device of
  code/machine/disk.cc interrupting when a request is complete. The lock is the variable that
  Locks.RunRefines shows it to be.
 */
module SynchDisks {
  import opened Threads
  import opened Wrappers
  import opened Semaphores

  /** Where a thread is in ReadSector or WriteSector; a number identifies its request. */
  datatype Stage = Outside | Entered | Requested(id: nat) | Sleeping(id: nat) | Served(id: nat)

  /** `active` and `serving` are the device's; `done` are the requests whose interrupt has come. */
  datatype Shared = Shared(owner: Option<Thread>, sem: Sem, active: bool, serving: nat, done: set<nat>, next: nat,
                           at: map<Thread, Stage>)

  datatype Step = Enter(t: Thread) | Request(t: Thread) | WaitP(t: Thread) | Retest(t: Thread) | Leave(t: Thread)
                | Interrupt

  predicate CanStep(s: Shared, e: Step)
  {
    match e
    case Enter(t) => t in s.at && s.at[t] == Outside && s.owner == None
    case Request(t) => t in s.at && s.at[t] == Entered
    case WaitP(t) => t in s.at && s.at[t].Requested?
    case Retest(t) => t in s.at && s.at[t].Sleeping? && t in s.sem.woken
    case Leave(t) => t in s.at && s.at[t].Served?
    case Interrupt => s.active
  }

  function Tested(s: Shared, t: Thread, id: nat): (s': Shared)
  {
    s.(sem := Test(s.sem, t), at := s.at[t := if s.sem.value == 0 then Sleeping(id) else Served(id)])
  }

  function Stepped(s: Shared, e: Step): (s': Shared)
    requires CanStep(s, e)
  {
    match e
    case Enter(t) => s.(owner := Some(t), at := s.at[t := Entered])
    case Request(t) => s.(active := true, serving := s.next, next := s.next + 1, at := s.at[t := Requested(s.next)])
    case WaitP(t) => Tested(s, t, s.at[t].id)
    case Retest(t) => Tested(s, t, s.at[t].id)
    case Leave(t) => s.(owner := None, at := s.at[t := Outside])
    case Interrupt => s.(active := false, done := s.done + {s.serving}, sem := Give(s.sem))
  }

  /** The semaphore has `value` units, `queue` asleep and `woken` about to test again. */
  predicate SemIs(s: Sem, value: int, queue: seq<Thread>, woken: set<Thread>)
  {
    s.value == value && s.queue == queue && s.woken == woken
  }

  /** Request `id` is with the device, or its interrupt has come. */
  predicate InService(s: Shared, id: nat)
  {
    if s.active then s.serving == id else id in s.done
  }

  ghost predicate DiskInv(s: Shared)
  {
    && (forall t :: t in s.at ==> (s.owner == Some(t) <==> s.at[t] != Outside))
    && (s.owner.Some? ==> s.owner.value in s.at)
    && (forall id :: id in s.done ==> id < s.next) && (s.active ==> s.serving < s.next && s.serving !in s.done)
    && match s.owner {
         case None => !s.active && SemIs(s.sem, 0, [], {})
         case Some(t) => StageInv(s, t, s.at[t])
       }
  }

  predicate StageInv(s: Shared, t: Thread, stage: Stage)
  {
    match stage
    case Outside => false
    case Entered => !s.active && SemIs(s.sem, 0, [], {})
    case Requested(id) => InService(s, id) && SemIs(s.sem, if s.active then 0 else 1, [], {})
    case Sleeping(id) => InService(s, id) && if s.active then SemIs(s.sem, 0, [t], {}) else SemIs(s.sem, 1, [], {t})
    case Served(id) => !s.active && id in s.done && SemIs(s.sem, 0, [], {})
  }

  lemma StepKeeps(s: Shared, e: Step)
    requires DiskInv(s) && CanStep(s, e)
    ensures DiskInv(Stepped(s, e))
  {
  }

  ghost predicate IsRun(s: Shared, steps: seq<Step>, s': Shared)
    decreases |steps|
  {
    if steps == [] then s' == s
    else CanStep(s, steps[0]) && IsRun(Stepped(s, steps[0]), steps[1..], s')
  }

  lemma {:induction false} EveryRun(s: Shared, steps: seq<Step>, s': Shared)
    requires DiskInv(s) && IsRun(s, steps, s')
    ensures DiskInv(s')
    decreases |steps|
  {
    if steps != [] {
      StepKeeps(s, steps[0]);
      EveryRun(Stepped(s, steps[0]), steps[1..], s');
    }
  }

  /** A disk nobody uses yet. */
  ghost predicate NewDisk(s: Shared)
  {
    && s.owner == None && !s.active && s.done == {} && SemIs(s.sem, 0, [], {})
    && forall t :: t in s.at ==> s.at[t] == Outside
  }

  /** In every run the device is idle whenever a request is made, so its assertion holds; the request is a new one. */
  lemma {:induction false} NeverBusy(first: Shared, steps: seq<Step>, s: Shared, t: Thread)
    requires NewDisk(first) && IsRun(first, steps, s) && CanStep(s, Request(t))
    ensures !s.active && s.next !in s.done
  {
    EveryRun(first, steps, s);
  }

  /** In every run a call returns only after the interrupt for its own request. */
  lemma {:induction false} OwnInterrupt(first: Shared, steps: seq<Step>, s: Shared, t: Thread)
    requires NewDisk(first) && IsRun(first, steps, s) && CanStep(s, Leave(t))
    ensures s.at[t].id in s.done
  {
    EveryRun(first, steps, s);
  }
}
