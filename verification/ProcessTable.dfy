/**
  Processes creating, joining and leaving each other through code/threads/ptable.cc and
  code/threads/pcb.cc. A step is what one process does between two points where interrupts
  come back on: the ends of P, V and Fork, and somewhere in the loading of a program.
 */
module ProcessTables {
  import opened Semaphores

  const NUM_PROCESSES: nat := 10

  /** A process, and its PCB. Numbers are not used again, unlike process ids. */
  type Process = nat

  datatype Pcb = Pcb(pid: nat, parentId: int, exitCode: int, joinSem: Sem, exitSem: Sem)

  /**
    Where a process is: not started yet; in user code; in ExecV waiting for the mutex, past P, loading `child`,
    or about to call V; in Join waiting for `child`, or past P; in Exit with its parent notified, waiting to be
    released, or past P.
   */
  datatype Stage = Born(parent: Process) | Running | ExecWaiting | ExecIn | ExecLoading(pid: nat, child: Process)
                 | ExecOut
                 | JoinWaiting(pid: nat, child: Process) | Joined(pid: nat, child: Process) | Exiting | ExitWaiting
                 | ExitDone

  /**
    `bitmap`, `bitmapMutex` and `table` are the fields of the class, `pcbs` the PCBs not yet deleted.
    The rest records the run: `joiner` who has called Join on whom, `released` whose exit has been
    allowed, `exitArg` what each gave to Exit, `leaks` how often ExecV returned with the mutex taken.
   */
  datatype Table = Table(bitmap: set<nat>, bitmapMutex: Sem, table: map<nat, Process>, pcbs: map<Process, Pcb>,
                         at: map<Process, Stage>, next: Process, joiner: map<Process, Process>, released: set<Process>,
                         exitArg: map<Process, int>, leaks: nat)

  datatype Step = ExecBegin(p: Process) | ExecRetest(p: Process) | ExecTake(p: Process)
                | ExecLoad(p: Process, loads: bool)
                | ExecRelease(p: Process)
                | JoinBegin(p: Process, pid: nat) | JoinRetest(p: Process) | JoinFinish(p: Process)
                | ExitBegin(p: Process, code: int) | ExitP(p: Process) | ExitRetest(p: Process) | ExitRemove(p: Process)

  /** The smallest free process id from `i` on, or -1. */
  function FirstFree(bitmap: set<nat>, i: nat): (pid: int)
    requires i <= NUM_PROCESSES
    ensures pid == -1 || (i <= pid < NUM_PROCESSES && pid !in bitmap)
    ensures pid == -1 <==> forall k: nat :: i <= k < NUM_PROCESSES ==> k in bitmap
    ensures forall k: nat :: i <= k < pid ==> k in bitmap
    decreases NUM_PROCESSES - i
  {
    if i == NUM_PROCESSES then -1 else if i !in bitmap then i else FirstFree(bitmap, i + 1)
  }

  /** The caller of Join finds a valid process id whose PCB names it as the parent. */
  predicate MayJoin(s: Table, p: Process, pid: nat)
  {
    && pid in s.table && s.table[pid] in s.pcbs && p in s.pcbs
    && s.pcbs[s.table[pid]].parentId == s.pcbs[p].pid
  }

  /** Semaphore `sem` has made process `p` ready to test it again. */
  predicate Readied(s: Table, c: Process, p: Process, exiting: bool)
  {
    c in s.pcbs && p in (if exiting then s.pcbs[c].exitSem else s.pcbs[c].joinSem).woken
  }

  /** A process takes the steps of its operation in order; process id 0 does not exit but halt. */
  predicate CanStep(s: Table, e: Step)
  {
    && e.p in s.at
    && match e
       case ExecBegin(p) => s.at[p] == Running
       case ExecRetest(p) => s.at[p] == ExecWaiting && p in s.bitmapMutex.woken
       case ExecTake(p) => s.at[p] == ExecIn
       case ExecLoad(p, _) => s.at[p].ExecLoading?
       case ExecRelease(p) => s.at[p] == ExecOut
       case JoinBegin(p, pid) => s.at[p] == Running && MayJoin(s, p, pid)
       case JoinRetest(p) => s.at[p].JoinWaiting? && Readied(s, s.at[p].child, p, false)
       case JoinFinish(p) => s.at[p].Joined?
       case ExitBegin(p, _) => s.at[p] == Running && !(p in s.pcbs && s.pcbs[p].pid == 0)
       case ExitP(p) => s.at[p] == Exiting
       case ExitRetest(p) => s.at[p] == ExitWaiting && Readied(s, p, p, true)
       case ExitRemove(p) => s.at[p] == ExitDone
  }

  /** The step is not a second Join on the same child. */
  predicate FirstJoin(s: Table, e: Step)
  {
    e.JoinBegin? && e.pid in s.table ==> s.table[e.pid] !in s.joiner
  }

  /**
    The PCBs that a step uses exist: its own, and in ExecV and Join the one now in the table under the child's
    process id.
   */
  predicate Live(s: Table, e: Step)
  {
    && e.p in s.pcbs
    && match e
       case ExecLoad(p, _) =>
         p in s.at && s.at[p].ExecLoading? && s.at[p].pid in s.table && s.table[s.at[p].pid] in s.pcbs
       case JoinFinish(p) => p in s.at && s.at[p].Joined? && s.at[p].pid in s.table && s.table[s.at[p].pid] in s.pcbs
       case _ => true
  }

  /** JoinWait by `p` on child `c`: one test of the semaphore. */
  function JoinTested(s: Table, p: Process, pid: nat, c: Process): (s': Table)
    requires c in s.pcbs
  {
    s.(pcbs := s.pcbs[c := s.pcbs[c].(joinSem := Test(s.pcbs[c].joinSem, p))],
       at := s.at[p := if s.pcbs[c].joinSem.value == 0 then JoinWaiting(pid, c) else Joined(pid, c)],
       joiner := s.joiner[c := p])
  }

  function ExitTested(s: Table, p: Process): (s': Table)
    requires p in s.pcbs
  {
    s.(pcbs := s.pcbs[p := s.pcbs[p].(exitSem := Test(s.pcbs[p].exitSem, p))],
       at := s.at[p := if s.pcbs[p].exitSem.value == 0 then ExitWaiting else ExitDone])
  }

  /** Process `p` moves on in ExecV, leaving the mutex as `mutex`. */
  function ExecMoved(s: Table, p: Process, mutex: Sem, stage: Stage): (s': Table)
  {
    s.(bitmapMutex := mutex, at := s.at[p := stage])
  }

  function MutexTested(s: Table, p: Process): (s': Table)
  {
    ExecMoved(s, p, Test(s.bitmapMutex, p), if s.bitmapMutex.value == 0 then ExecWaiting else ExecIn)
  }

  /** Process `p` makes a PCB for a child under the free process id `pid`. */
  function Taken(s: Table, p: Process, pid: nat): (s': Table)
    requires p in s.pcbs
  {
    s.(bitmap := s.bitmap + {pid}, table := s.table[pid := s.next],
       pcbs := s.pcbs[s.next := Pcb(pid, s.pcbs[p].pid, 0, NewSem(0), NewSem(0))],
       at := s.at[s.next := Born(p)][p := ExecLoading(pid, s.next)], next := s.next + 1)
  }

  /** ExecV past P: takes a process id, or returns at once when the table is full. */
  function ExecTaken(s: Table, p: Process): (s': Table)
    requires p in s.pcbs
  {
    var pid := FirstFree(s.bitmap, 0);
    if pid == -1 then s.(leaks := s.leaks + 1, at := s.at[p := Running]) else Taken(s, p, pid)
  }

  /** The child has been loaded, and runs. */
  function Loaded(s: Table, p: Process, c: Process): (s': Table)
  {
    s.(at := s.at[c := Running][p := ExecOut])
  }

  /** It has not, and is removed. */
  function Unloaded(s: Table, p: Process, pid: nat, c: Process): (s': Table)
  {
    s.(bitmap := s.bitmap - {pid}, table := s.table - {pid}, pcbs := s.pcbs - {c}, at := s.at[p := ExecOut] - {c})
  }

  /** Join past P: reads the exit code out of the table and lets the child go. */
  function JoinFinished(s: Table, p: Process, c: Process): (s': Table)
    requires c in s.pcbs
  {
    s.(pcbs := s.pcbs[c := s.pcbs[c].(exitSem := Give(s.pcbs[c].exitSem))], released := s.released + {c},
       at := s.at[p := Running])
  }

  function ExitBegun(s: Table, p: Process, code: int): (s': Table)
    requires p in s.pcbs
  {
    s.(pcbs := s.pcbs[p := s.pcbs[p].(exitCode := code, joinSem := Give(s.pcbs[p].joinSem))],
       exitArg := s.exitArg[p := code], at := s.at[p := Exiting])
  }

  function ExitRemoved(s: Table, p: Process): (s': Table)
    requires p in s.pcbs
  {
    s.(bitmap := s.bitmap - {s.pcbs[p].pid}, table := s.table - {s.pcbs[p].pid}, pcbs := s.pcbs - {p}, at := s.at - {p})
  }

  function Stepped(s: Table, e: Step): (s': Table)
    requires CanStep(s, e) && Live(s, e)
  {
    match e
    case ExecBegin(p) => MutexTested(s, p)
    case ExecRetest(p) => MutexTested(s, p)
    case ExecTake(p) => ExecTaken(s, p)
    case ExecLoad(p, loads) =>
      var pid := s.at[p].pid; if loads then Loaded(s, p, s.table[pid]) else Unloaded(s, p, pid, s.table[pid])
    case ExecRelease(p) => ExecMoved(s, p, Give(s.bitmapMutex), Running)
    case JoinBegin(p, pid) => JoinTested(s, p, pid, s.table[pid])
    case JoinRetest(p) => JoinTested(s, p, s.at[p].pid, s.at[p].child)
    case JoinFinish(p) => JoinFinished(s, p, s.table[s.at[p].pid])
    case ExitBegin(p, code) => ExitBegun(s, p, code)
    case ExitP(p) => ExitTested(s, p)
    case ExitRetest(p) => ExitTested(s, p)
    case ExitRemove(p) => ExitRemoved(s, p)
  }

  /** How far the join of a process has come. */
  datatype Joining = NotJoined | Waits(who: Process) | Passed | Over

  function JoiningOf(s: Table, c: Process): (j: Joining)
  {
    if c !in s.joiner then NotJoined
    else if c in s.released then Over
    else if s.joiner[c] in s.at && s.at[s.joiner[c]].JoinWaiting? then Waits(s.joiner[c])
    else Passed
  }

  predicate Left(stage: Stage)
  {
    stage == Exiting || stage == ExitWaiting || stage == ExitDone
  }

  /** The child's semaphores, from where it is and how far its join has come. */
  function JoinSemOf(left: bool, j: Joining): (sem: Sem)
  {
    var given := if left then 1 else 0;
    match j
    case NotJoined => Sem(given, [], {}, 0, given)
    case Waits(who) => if left then Sem(1, [], {who}, 0, 1) else Sem(0, [who], {}, 0, 0)
    case _ => Sem(0, [], {}, 1, 1)
  }

  /** Once the join is over, whoever joins again sleeps on the semaphore. */
  ghost predicate JoinSemOk(sem: Sem, left: bool, j: Joining)
  {
    if j.Over? then sem == Sem(0, sem.queue, {}, 1, 1) else sem == JoinSemOf(left, j)
  }

  function ExitSemOf(stage: Stage, c: Process, released: bool): (sem: Sem)
  {
    var given := if released then 1 else 0;
    match stage
    case ExitWaiting => if released then Sem(1, [], {c}, 0, 1) else Sem(0, [c], {}, 0, 0)
    case ExitDone => Sem(0, [], {}, 1, 1)
    case _ => Sem(given, [], {}, 0, given)
  }

  ghost predicate ChildInv(s: Table, c: Process)
  {
    && c in s.pcbs && c in s.at && c < s.next && s.pcbs[c].parentId != s.pcbs[c].pid
    && s.pcbs[c].pid in s.table && s.table[s.pcbs[c].pid] == c
    && JoinSemOk(s.pcbs[c].joinSem, Left(s.at[c]), JoiningOf(s, c))
    && s.pcbs[c].exitSem == ExitSemOf(s.at[c], c, c in s.released)
    && (JoiningOf(s, c).Passed? || JoiningOf(s, c).Over? ==> Left(s.at[c]))
    && (s.at[c] == ExitDone ==> c in s.released)
    && (c in s.released ==> c in s.joiner)
    && (Left(s.at[c]) ==> c in s.exitArg && s.pcbs[c].exitCode == s.exitArg[c])
    && (c in s.joiner && c !in s.released ==> s.joiner[c] in s.at && WaitsFor(s.at[s.joiner[c]], c))
    && (s.at[c].Born? ==> c !in s.joiner && c !in s.released && LoadedBy(s, c, s.at[c].parent))
  }

  /** Process `q` is in ExecV loading its child `c`. */
  ghost predicate LoadedBy(s: Table, c: Process, q: Process)
  {
    && c in s.pcbs && q in s.at && q in s.pcbs && q != c
    && s.at[q] == ExecLoading(s.pcbs[c].pid, c) && s.pcbs[q].pid == s.pcbs[c].parentId
  }

  predicate WaitsFor(stage: Stage, c: Process)
  {
    (stage.JoinWaiting? || stage.Joined?) && stage.child == c
  }

  ghost predicate ProcessInv(s: Table, p: Process)
  {
    && p in s.at && p in s.pcbs
    && (s.at[p].JoinWaiting? || s.at[p].Joined? ==>
          var c := s.at[p].child;
          && c != p && (c in s.released ==> s.at[p].JoinWaiting?)
          && (c !in s.released ==> c in s.pcbs && s.pcbs[c].pid == s.at[p].pid && c in s.joiner && s.joiner[c] == p
                                   && s.pcbs[c].parentId == s.pcbs[p].pid))
    && (s.at[p].ExecLoading? ==>
          var c := s.at[p].child; c in s.pcbs && c in s.at && s.pcbs[c].pid == s.at[p].pid && s.at[c] == Born(p))
  }

  /** The bitmap, the table and the PCBs agree on which process ids are taken and by whom. */
  ghost predicate Shape(s: Table)
  {
    && s.bitmap == s.table.Keys && s.at.Keys == s.pcbs.Keys
    && (forall pid {:trigger s.table[pid]} :: pid in s.table ==>
          s.table[pid] in s.pcbs && s.pcbs[s.table[pid]].pid == pid)
    && (forall c :: c in s.joiner ==> c < s.next && (c in s.released || c in s.pcbs))
    && (forall c :: c in s.released ==> c < s.next)
  }

  ghost predicate TableInv(s: Table)
  {
    && Shape(s)
    && (forall c {:trigger ChildInv(s, c)} :: c in s.pcbs ==> ChildInv(s, c))
    && (forall p {:trigger ProcessInv(s, p)} :: p in s.at ==> ProcessInv(s, p))
  }

  /**
    Every step open to a process finds the PCBs it uses; in Join the table still holds the PCB that was waited
    on, in ExecV the new one.
   */
  lemma StepIsLive(s: Table, e: Step)
    requires TableInv(s) && CanStep(s, e)
    ensures Live(s, e)
    ensures e.JoinFinish? || e.ExecLoad? ==> s.table[s.at[e.p].pid] == s.at[e.p].child
  {
    assert ProcessInv(s, e.p);
    if e.JoinFinish? || e.ExecLoad? {
      assert ChildInv(s, s.at[e.p].child);
    }
  }

  /** Nothing that a process's part of the invariant speaks of has changed. */
  lemma SameChild(s: Table, s': Table, c: Process)
    requires ChildInv(s, c) && c in s'.pcbs && s'.pcbs[c] == s.pcbs[c] && s.next <= s'.next
    requires s.pcbs[c].pid in s'.table && s'.table[s.pcbs[c].pid] == c
    requires c in s'.at
    requires s'.at[c] == s.at[c]
             || (ExitSemOf(s'.at[c], c, false) == ExitSemOf(s.at[c], c, false) && !Left(s.at[c]) && !Left(s'.at[c]))
    requires s'.at[c].Born? ==> s'.at[c] == s.at[c] && LoadedBy(s', c, s.at[c].parent)
    requires (c in s'.joiner <==> c in s.joiner) && (c in s.joiner ==> s'.joiner[c] == s.joiner[c])
    requires c in s'.released <==> c in s.released
    requires c in s.exitArg ==> c in s'.exitArg && s'.exitArg[c] == s.exitArg[c]
    requires c in s.joiner && c !in s.released ==>
               s.joiner[c] in s'.at && s.joiner[c] in s.at && s'.at[s.joiner[c]] == s.at[s.joiner[c]]
    ensures ChildInv(s', c)
  {
  }

  lemma SameProcess(s: Table, s': Table, p: Process)
    requires ProcessInv(s, p) && p in s'.pcbs && s'.pcbs[p].pid == s.pcbs[p].pid && p in s'.at && s'.at[p] == s.at[p]
    requires s.at[p].JoinWaiting? || s.at[p].Joined? ==>
      var c := s.at[p].child;
      || (c in s.released && c in s'.released)
      || (&& c in s'.pcbs && c in s.pcbs && s'.pcbs[c].pid == s.pcbs[c].pid && s'.pcbs[c].parentId == s.pcbs[c].parentId
          && c in s'.joiner && c in s.joiner && s'.joiner[c] == s.joiner[c] && c !in s'.released && c !in s.released)
    requires s.at[p].ExecLoading? ==>
      var c := s.at[p].child;
      c in s'.pcbs && c in s.pcbs && s'.pcbs[c].pid == s.pcbs[c].pid && c in s'.at && s'.at[c] == Born(p)
    ensures ProcessInv(s', p)
  {
  }

  /** A process that is not in Join is nobody's pending joiner. */
  lemma NotJoining(s: Table, p: Process, c: Process)
    requires ChildInv(s, c) && p in s.at && !WaitsFor(s.at[p], c)
    ensures c in s.joiner && c !in s.released ==> s.joiner[c] != p
  {
  }

  predicate IsExec(stage: Stage)
  {
    stage == Running || stage == ExecWaiting || stage == ExecIn || stage == ExecOut
  }

  lemma ExecMoveOther(s: Table, p: Process, mutex: Sem, stage: Stage, c: Process)
    requires ChildInv(s, p) && ProcessInv(s, p) && ChildInv(s, c)
    requires p in s.at && IsExec(s.at[p]) && IsExec(stage)
    ensures ChildInv(ExecMoved(s, p, mutex, stage), c)
  {
    NotJoining(s, p, c);
    SameChild(s, ExecMoved(s, p, mutex, stage), c);
  }

  lemma ExecMoveRest(s: Table, p: Process, mutex: Sem, stage: Stage, q: Process)
    requires ProcessInv(s, p) && ProcessInv(s, q) && q != p
    requires p in s.at && IsExec(s.at[p]) && IsExec(stage)
    ensures ProcessInv(ExecMoved(s, p, mutex, stage), q)
  {
  }

  lemma ExecMoveChild(s: Table, p: Process, mutex: Sem, stage: Stage, c: Process)
    requires TableInv(s) && p in s.at && IsExec(s.at[p]) && IsExec(stage) && c in s.pcbs
    ensures ChildInv(ExecMoved(s, p, mutex, stage), c)
  {
    assert ProcessInv(s, p) && ChildInv(s, p) && ChildInv(s, c);
    ExecMoveOther(s, p, mutex, stage, c);
  }

  lemma ExecMoveProcess(s: Table, p: Process, mutex: Sem, stage: Stage, q: Process)
    requires TableInv(s) && p in s.at && IsExec(s.at[p]) && IsExec(stage) && q in s.at
    ensures ProcessInv(ExecMoved(s, p, mutex, stage), q)
  {
    assert ProcessInv(s, p) && ProcessInv(s, q);
    if q != p {
      ExecMoveRest(s, p, mutex, stage, q);
    }
  }

  lemma ExecMoveShape(s: Table, p: Process, mutex: Sem, stage: Stage)
    requires Shape(s) && p in s.at
    ensures Shape(ExecMoved(s, p, mutex, stage))
  {
  }

  lemma ExecMoveKeeps(s: Table, p: Process, mutex: Sem, stage: Stage)
    requires TableInv(s) && p in s.at && IsExec(s.at[p]) && IsExec(stage)
    ensures TableInv(ExecMoved(s, p, mutex, stage))
  {
    var s' := ExecMoved(s, p, mutex, stage);
    ExecMoveShape(s, p, mutex, stage);
    forall c | c in s'.pcbs
      ensures ChildInv(s', c)
    {
      ExecMoveChild(s, p, mutex, stage, c);
    }
    forall q | q in s'.at
      ensures ProcessInv(s', q)
    {
      ExecMoveProcess(s, p, mutex, stage, q);
    }
  }

  /** The record of lost units has no part in the invariant. */
  lemma LeakKeeps(s: Table, leaks: nat)
    requires TableInv(s)
    ensures TableInv(s.(leaks := leaks))
  {
    var s' := s.(leaks := leaks);
    forall c | c in s.pcbs
      ensures ChildInv(s', c)
    {
      assert ChildInv(s, c);
      SameChild(s, s', c);
    }
    forall q | q in s.at
      ensures ProcessInv(s', q)
    {
      assert ProcessInv(s, q);
      SameProcess(s, s', q);
    }
  }

  lemma TakeOther(s: Table, p: Process, pid: nat, c: Process)
    requires ChildInv(s, p) && ProcessInv(s, p) && ChildInv(s, c)
    requires p in s.at && p in s.pcbs && s.at[p] == ExecIn && pid !in s.bitmap && s.pcbs[c].pid != pid
    requires s.next !in s.at
    ensures ChildInv(Taken(s, p, pid), c)
  {
    NotJoining(s, p, c);
    SameChild(s, Taken(s, p, pid), c);
  }

  lemma TakeRest(s: Table, p: Process, pid: nat, q: Process)
    requires ProcessInv(s, p) && ProcessInv(s, q) && q != p
    requires p in s.at && p in s.pcbs && s.at[p] == ExecIn && pid !in s.bitmap && s.next !in s.pcbs && s.next !in s.at
    ensures ProcessInv(Taken(s, p, pid), q)
  {
    SameProcess(s, Taken(s, p, pid), q);
  }

  lemma TakePair(s: Table, p: Process, pid: nat)
    requires ProcessInv(s, p) && p in s.at && p in s.pcbs && s.at[p] == ExecIn && pid !in s.bitmap
    requires s.pcbs[p].pid != pid && p < s.next
    requires s.next !in s.pcbs && s.next !in s.at && s.next !in s.joiner && s.next !in s.released
    ensures ChildInv(Taken(s, p, pid), s.next) && ProcessInv(Taken(s, p, pid), s.next)
    ensures ProcessInv(Taken(s, p, pid), p)
  {
  }

  lemma TakeShape(s: Table, p: Process, pid: nat)
    requires Shape(s) && p in s.at && p in s.pcbs && pid !in s.bitmap && s.next !in s.pcbs
    ensures Shape(Taken(s, p, pid))
  {
  }

  lemma TakeKeeps(s: Table, p: Process, pid: nat)
    requires TableInv(s) && p in s.at && p in s.pcbs && s.at[p] == ExecIn && pid !in s.bitmap
    ensures TableInv(Taken(s, p, pid))
  {
    var s' := Taken(s, p, pid);
    assert ProcessInv(s, p) && ChildInv(s, p);
    assert s.next in s.pcbs ==> ChildInv(s, s.next);
    TakeShape(s, p, pid);
    TakePair(s, p, pid);
    forall c | c in s'.pcbs
      ensures ChildInv(s', c)
    {
      if c in s.pcbs {
        assert ChildInv(s, c);
        TakeOther(s, p, pid, c);
      }
    }
    forall q | q in s'.at
      ensures ProcessInv(s', q)
    {
      if q in s.at && q != p {
        assert ProcessInv(s, q);
        TakeRest(s, p, pid, q);
      }
    }
  }

  lemma LoadOther(s: Table, p: Process, child: Process, c: Process)
    requires ChildInv(s, p) && ProcessInv(s, p) && ChildInv(s, child) && ChildInv(s, c)
    requires p in s.at && s.at[p].ExecLoading? && child == s.at[p].child
    ensures ChildInv(Loaded(s, p, child), c)
  {
    NotJoining(s, p, c);
    NotJoining(s, child, c);
    SameChild(s, Loaded(s, p, child), c);
  }

  lemma LoadRest(s: Table, p: Process, child: Process, q: Process)
    requires ProcessInv(s, p) && ProcessInv(s, q) && q != p
    requires p in s.at && s.at[p].ExecLoading? && child == s.at[p].child
    ensures ProcessInv(Loaded(s, p, child), q)
  {
    assert q != child ==> ProcessInv(Loaded(s, p, child), q) by {
      if q != child {
        SameProcess(s, Loaded(s, p, child), q);
      }
    }
  }

  lemma LoadShape(s: Table, p: Process, child: Process)
    requires Shape(s) && p in s.at && child in s.at
    ensures Shape(Loaded(s, p, child))
  {
  }

  lemma LoadKeeps(s: Table, p: Process, child: Process)
    requires TableInv(s) && p in s.at && s.at[p].ExecLoading? && child == s.at[p].child
    ensures TableInv(Loaded(s, p, child))
  {
    var s' := Loaded(s, p, child);
    assert ProcessInv(s, p) && ChildInv(s, p);
    assert ChildInv(s, child);
    LoadShape(s, p, child);
    forall c | c in s'.pcbs
      ensures ChildInv(s', c)
    {
      assert ChildInv(s, c);
      LoadOther(s, p, child, c);
    }
    forall q | q in s'.at
      ensures ProcessInv(s', q)
    {
      if q in s.at && q != p {
        assert ProcessInv(s, q);
        LoadRest(s, p, child, q);
      }
    }
  }

  lemma UnloadOther(s: Table, p: Process, child: Process, c: Process)
    requires ChildInv(s, p) && ProcessInv(s, p) && ChildInv(s, child) && ChildInv(s, c) && c != child
    requires s.pcbs[c].pid != s.pcbs[child].pid
    requires p in s.at && s.at[p].ExecLoading? && child == s.at[p].child
    ensures ChildInv(Unloaded(s, p, s.at[p].pid, child), c)
  {
    NotJoining(s, p, c);
    NotJoining(s, child, c);
    SameChild(s, Unloaded(s, p, s.at[p].pid, child), c);
  }

  lemma UnloadRest(s: Table, p: Process, child: Process, q: Process)
    requires ProcessInv(s, p) && ChildInv(s, child) && ProcessInv(s, q) && q != p && q != child
    requires p in s.at && s.at[p].ExecLoading? && child == s.at[p].child
    ensures ProcessInv(Unloaded(s, p, s.at[p].pid, child), q)
  {
    SameProcess(s, Unloaded(s, p, s.at[p].pid, child), q);
  }

  lemma UnloadKeeps(s: Table, p: Process, child: Process)
    requires TableInv(s) && p in s.at && s.at[p].ExecLoading? && child == s.at[p].child
    ensures TableInv(Unloaded(s, p, s.at[p].pid, child))
  {
    var s' := Unloaded(s, p, s.at[p].pid, child);
    assert ProcessInv(s, p) && ChildInv(s, p);
    assert ChildInv(s, child);
    forall c | c in s'.pcbs
      ensures ChildInv(s', c)
    {
      assert ChildInv(s, c);
      UnloadOther(s, p, child, c);
    }
    forall q | q in s'.at
      ensures ProcessInv(s', q)
    {
      if q in s.at && q != p {
        assert ProcessInv(s, q);
        UnloadRest(s, p, child, q);
      }
    }
  }

  /**
    A child that is still being loaded cannot be joined: its parent is busy, and no other process has its
    parent's process id.
   */
  lemma NotBorn(s: Table, p: Process, pid: nat)
    requires TableInv(s) && p in s.at && s.at[p] == Running && MayJoin(s, p, pid)
    ensures s.table[pid] in s.at && !s.at[s.table[pid]].Born? && s.table[pid] != p
  {
    var child := s.table[pid];
    assert ChildInv(s, child) && ChildInv(s, p);
    assert s.at[child].Born? ==> ChildInv(s, s.at[child].parent);
  }

  /** The child has not been joined, or its join is over. */
  predicate MayTest(s: Table, c: Process)
  {
    c in s.joiner ==> c in s.released
  }

  /** A child that has been joined has been let go, and its semaphore has no unit left. */
  lemma JoinOver(s: Table, p: Process, pid: nat, c: Process)
    requires TableInv(s) && p in s.at && s.at[p] == Running && MayJoin(s, p, pid) && c == s.table[pid]
    ensures MayTest(s, c) && (c in s.joiner ==> s.pcbs[c].joinSem.value == 0)
  {
    assert ChildInv(s, c) && ChildInv(s, p);
    if c in s.joiner {
      var q := s.joiner[c];
      assert q in s.at ==> ProcessInv(s, q) && ChildInv(s, q);
    }
  }

  lemma JoinBeginOther(s: Table, p: Process, pid: nat, child: Process, c: Process)
    requires ChildInv(s, p) && ProcessInv(s, p) && ChildInv(s, c)
    requires p in s.at && s.at[p] == Running && child in s.pcbs && s.pcbs[child].pid == pid && MayTest(s, child)
    requires child != p && c != child
    ensures ChildInv(JoinTested(s, p, pid, child), c)
  {
    NotJoining(s, p, c);
    SameChild(s, JoinTested(s, p, pid, child), c);
  }

  lemma JoinBeginRest(s: Table, p: Process, pid: nat, child: Process, q: Process)
    requires ProcessInv(s, p) && ProcessInv(s, q) && q != p
    requires p in s.at && s.at[p] == Running && child in s.pcbs && s.pcbs[child].pid == pid && MayTest(s, child)
    requires child != p
    ensures ProcessInv(JoinTested(s, p, pid, child), q)
  {
  }

  lemma JoinBeginPair(s: Table, p: Process, pid: nat, child: Process)
    requires ChildInv(s, child) && ProcessInv(s, p)
    requires p in s.at && s.at[p] == Running && child in s.pcbs && s.pcbs[child].pid == pid && MayTest(s, child)
    requires child != p
    requires child in s.at && !s.at[child].Born? && s.pcbs[child].parentId == s.pcbs[p].pid
    ensures ChildInv(JoinTested(s, p, pid, child), child) && ProcessInv(JoinTested(s, p, pid, child), p)
  {
  }

  lemma JoinBeginChild(s: Table, p: Process, pid: nat, child: Process, c: Process)
    requires TableInv(s) && p in s.at && s.at[p] == Running && child in s.pcbs && s.pcbs[child].pid == pid
    requires MayTest(s, child) && child != p
    requires child in s.at && !s.at[child].Born? && c in s.pcbs && p in s.pcbs
    requires s.pcbs[child].parentId == s.pcbs[p].pid
    ensures ChildInv(JoinTested(s, p, pid, child), c)
  {
    assert ProcessInv(s, p) && ChildInv(s, p) && ChildInv(s, c);
    if c == child {
      JoinBeginPair(s, p, pid, child);
    } else {
      JoinBeginOther(s, p, pid, child, c);
    }
  }

  lemma JoinBeginProcess(s: Table, p: Process, pid: nat, child: Process, q: Process)
    requires TableInv(s) && p in s.at && s.at[p] == Running && child in s.pcbs && s.pcbs[child].pid == pid
    requires MayTest(s, child) && child != p
    requires child in s.at && !s.at[child].Born? && q in s.at && p in s.pcbs && s.pcbs[child].parentId == s.pcbs[p].pid
    ensures ProcessInv(JoinTested(s, p, pid, child), q)
  {
    assert ProcessInv(s, p) && ChildInv(s, child) && ProcessInv(s, q);
    if q == p {
      JoinBeginPair(s, p, pid, child);
    } else {
      JoinBeginRest(s, p, pid, child, q);
    }
  }

  lemma JoinBeginKeeps(s: Table, p: Process, pid: nat, child: Process)
    requires TableInv(s) && p in s.at && s.at[p] == Running && child in s.pcbs && s.pcbs[child].pid == pid
    requires MayTest(s, child) && child != p
    requires child in s.at && !s.at[child].Born? && p in s.pcbs && s.pcbs[child].parentId == s.pcbs[p].pid
    ensures TableInv(JoinTested(s, p, pid, child))
  {
    forall c | c in s.pcbs {
      JoinBeginChild(s, p, pid, child, c);
    }
    forall q | q in s.at {
      JoinBeginProcess(s, p, pid, child, q);
    }
    assert ChildInv(s, child);
    JoinBeginShape(s, p, pid, child);
  }

  lemma JoinBeginShape(s: Table, p: Process, pid: nat, child: Process)
    requires Shape(s) && p in s.at && child in s.pcbs && child < s.next
    ensures Shape(JoinTested(s, p, pid, child))
  {
  }

  lemma JoinRetestOther(s: Table, p: Process, child: Process, c: Process)
    requires ChildInv(s, p) && ProcessInv(s, p) && ChildInv(s, c)
    requires p in s.at && s.at[p].JoinWaiting? && child == s.at[p].child && child in s.pcbs
    requires p in s.pcbs[child].joinSem.woken && c != child
    ensures ChildInv(JoinTested(s, p, s.at[p].pid, child), c)
  {
    NotJoining(s, p, c);
    SameChild(s, JoinTested(s, p, s.at[p].pid, child), c);
  }

  lemma JoinRetestRest(s: Table, p: Process, child: Process, q: Process)
    requires ProcessInv(s, p) && ProcessInv(s, q) && q != p
    requires p in s.at && s.at[p].JoinWaiting? && child == s.at[p].child && child in s.pcbs
    requires p in s.pcbs[child].joinSem.woken
    ensures ProcessInv(JoinTested(s, p, s.at[p].pid, child), q)
  {
  }

  lemma JoinRetestPair(s: Table, p: Process, child: Process)
    requires ChildInv(s, child) && ProcessInv(s, p)
    requires p in s.at && s.at[p].JoinWaiting? && child == s.at[p].child && child in s.pcbs
    requires p in s.pcbs[child].joinSem.woken
    ensures ChildInv(JoinTested(s, p, s.at[p].pid, child), child) && ProcessInv(JoinTested(s, p, s.at[p].pid, child), p)
  {
  }

  lemma JoinRetestKeeps(s: Table, p: Process, child: Process)
    requires TableInv(s) && p in s.at && s.at[p].JoinWaiting? && child == s.at[p].child && child in s.pcbs
    requires p in s.pcbs[child].joinSem.woken
    ensures TableInv(JoinTested(s, p, s.at[p].pid, child))
  {
    var s' := JoinTested(s, p, s.at[p].pid, child);
    assert ProcessInv(s, p) && ChildInv(s, p);
    assert ChildInv(s, child) && ProcessInv(s, child);
    JoinRetestPair(s, p, child);
    forall c | c in s'.pcbs
      ensures ChildInv(s', c)
    {
      if c in s.pcbs {
        assert ChildInv(s, c);
        if c != child {
          JoinRetestOther(s, p, child, c);
        }
      }
    }
    forall q | q in s'.at
      ensures ProcessInv(s', q)
    {
      if q in s.at && q != p {
        assert ProcessInv(s, q);
        JoinRetestRest(s, p, child, q);
      }
    }
  }

  lemma JoinFinishOther(s: Table, p: Process, child: Process, c: Process)
    requires ChildInv(s, p) && ProcessInv(s, p) && ChildInv(s, c)
    requires p in s.at && s.at[p].Joined? && child == s.at[p].child && child in s.pcbs && c != child
    ensures ChildInv(JoinFinished(s, p, child), c)
  {
    NotJoining(s, p, c);
    SameChild(s, JoinFinished(s, p, child), c);
  }

  lemma JoinFinishRest(s: Table, p: Process, child: Process, q: Process)
    requires ProcessInv(s, p) && ProcessInv(s, q) && q != p
    requires p in s.at && s.at[p].Joined? && child == s.at[p].child && child in s.pcbs
    ensures ProcessInv(JoinFinished(s, p, child), q)
  {
  }

  lemma JoinFinishPair(s: Table, p: Process, child: Process)
    requires ChildInv(s, child) && ProcessInv(s, p)
    requires p in s.at && s.at[p].Joined? && child == s.at[p].child && child in s.pcbs
    ensures ChildInv(JoinFinished(s, p, child), child) && ProcessInv(JoinFinished(s, p, child), p)
  {
  }

  lemma JoinFinishShape(s: Table, p: Process, child: Process)
    requires Shape(s) && p in s.at && child in s.pcbs && child < s.next
    ensures Shape(JoinFinished(s, p, child))
  {
  }

  lemma JoinFinishKeeps(s: Table, p: Process, child: Process)
    requires TableInv(s) && p in s.at && s.at[p].Joined? && child == s.at[p].child && child in s.pcbs
    ensures TableInv(JoinFinished(s, p, child))
  {
    var s' := JoinFinished(s, p, child);
    assert ProcessInv(s, p) && ChildInv(s, p);
    assert ChildInv(s, child) && ProcessInv(s, child);
    JoinFinishShape(s, p, child);
    JoinFinishPair(s, p, child);
    forall c | c in s'.pcbs
      ensures ChildInv(s', c)
    {
      if c in s.pcbs {
        assert ChildInv(s, c);
        if c != child {
          JoinFinishOther(s, p, child, c);
        }
      }
    }
    forall q | q in s'.at
      ensures ProcessInv(s', q)
    {
      if q in s.at && q != p {
        assert ProcessInv(s, q);
        JoinFinishRest(s, p, child, q);
      }
    }
  }

  lemma ExitBeginOther(s: Table, p: Process, code: int, c: Process)
    requires ChildInv(s, p) && ProcessInv(s, p) && ChildInv(s, c)
    requires p in s.at && p in s.pcbs && s.at[p] == Running && c != p
    ensures ChildInv(ExitBegun(s, p, code), c)
  {
    NotJoining(s, p, c);
    SameChild(s, ExitBegun(s, p, code), c);
  }

  lemma ExitBeginRest(s: Table, p: Process, code: int, q: Process)
    requires ProcessInv(s, p) && ProcessInv(s, q) && q != p
    requires p in s.at && p in s.pcbs && s.at[p] == Running
    ensures ProcessInv(ExitBegun(s, p, code), q)
  {
  }

  lemma ExitBeginPair(s: Table, p: Process, code: int)
    requires ChildInv(s, p) && ProcessInv(s, p)
    requires p in s.at && p in s.pcbs && s.at[p] == Running
    ensures ChildInv(ExitBegun(s, p, code), p) && ProcessInv(ExitBegun(s, p, code), p)
  {
  }

  lemma ExitBeginKeeps(s: Table, p: Process, code: int)
    requires TableInv(s) && p in s.at && p in s.pcbs && s.at[p] == Running
    ensures TableInv(ExitBegun(s, p, code))
  {
    var s' := ExitBegun(s, p, code);
    assert ProcessInv(s, p) && ChildInv(s, p);
    ExitBeginPair(s, p, code);
    forall c | c in s'.pcbs
      ensures ChildInv(s', c)
    {
      if c in s.pcbs {
        assert ChildInv(s, c);
        if c != p {
          ExitBeginOther(s, p, code, c);
        }
      }
    }
    forall q | q in s'.at
      ensures ProcessInv(s', q)
    {
      if q in s.at && q != p {
        assert ProcessInv(s, q);
        ExitBeginRest(s, p, code, q);
      }
    }
  }

  lemma ExitTestOther(s: Table, p: Process, c: Process)
    requires ChildInv(s, p) && ProcessInv(s, p) && ChildInv(s, c)
    requires p in s.at && p in s.pcbs
    requires (s.at[p] == Exiting || (s.at[p] == ExitWaiting && p in s.pcbs[p].exitSem.woken)) && c != p
    ensures ChildInv(ExitTested(s, p), c)
  {
  }

  lemma ExitTestRest(s: Table, p: Process, q: Process)
    requires ProcessInv(s, p) && ProcessInv(s, q) && q != p
    requires p in s.at && p in s.pcbs
    requires s.at[p] == Exiting || (s.at[p] == ExitWaiting && p in s.pcbs[p].exitSem.woken)
    ensures ProcessInv(ExitTested(s, p), q)
  {
  }

  lemma ExitTestPair(s: Table, p: Process)
    requires ChildInv(s, p) && ProcessInv(s, p)
    requires p in s.at && p in s.pcbs
    requires s.at[p] == Exiting || (s.at[p] == ExitWaiting && p in s.pcbs[p].exitSem.woken)
    ensures ChildInv(ExitTested(s, p), p) && ProcessInv(ExitTested(s, p), p)
  {
  }

  lemma ExitTestKeeps(s: Table, p: Process)
    requires TableInv(s) && p in s.at && p in s.pcbs
    requires s.at[p] == Exiting || (s.at[p] == ExitWaiting && p in s.pcbs[p].exitSem.woken)
    ensures TableInv(ExitTested(s, p))
  {
    var s' := ExitTested(s, p);
    assert ProcessInv(s, p) && ChildInv(s, p);
    ExitTestPair(s, p);
    forall c | c in s'.pcbs
      ensures ChildInv(s', c)
    {
      if c in s.pcbs {
        assert ChildInv(s, c);
        if c != p {
          ExitTestOther(s, p, c);
        }
      }
    }
    forall q | q in s'.at
      ensures ProcessInv(s', q)
    {
      if q in s.at && q != p {
        assert ProcessInv(s, q);
        ExitTestRest(s, p, q);
      }
    }
  }

  lemma ExitRemoveOther(s: Table, p: Process, c: Process)
    requires ChildInv(s, p) && ProcessInv(s, p) && ChildInv(s, c)
    requires p in s.at && p in s.pcbs && s.at[p] == ExitDone && c != p && s.pcbs[c].pid != s.pcbs[p].pid
    ensures ChildInv(ExitRemoved(s, p), c)
  {
    NotJoining(s, p, c);
    SameChild(s, ExitRemoved(s, p), c);
  }

  lemma ExitRemoveRest(s: Table, p: Process, q: Process)
    requires ChildInv(s, p) && ProcessInv(s, p) && ProcessInv(s, q) && q != p
    requires p in s.at && p in s.pcbs && s.at[p] == ExitDone
    ensures ProcessInv(ExitRemoved(s, p), q)
  {
  }

  lemma ExitRemoveKeeps(s: Table, p: Process)
    requires TableInv(s) && p in s.at && p in s.pcbs && s.at[p] == ExitDone
    ensures TableInv(ExitRemoved(s, p))
  {
    var s' := ExitRemoved(s, p);
    assert ProcessInv(s, p) && ChildInv(s, p);
    forall c | c in s'.pcbs
      ensures ChildInv(s', c)
    {
      if c in s.pcbs {
        assert ChildInv(s, c);
        ExitRemoveOther(s, p, c);
      }
    }
    forall q | q in s'.at
      ensures ProcessInv(s', q)
    {
      if q in s.at && q != p {
        assert ProcessInv(s, q);
        ExitRemoveRest(s, p, q);
      }
    }
  }

  /** No step breaks the invariant. */
  lemma StepKeeps(s: Table, e: Step)
    requires TableInv(s) && CanStep(s, e)
    ensures Live(s, e) && TableInv(Stepped(s, e))
  {
    StepIsLive(s, e);
    match e
    case ExecBegin(p) =>
      ExecMoveKeeps(s, p, Test(s.bitmapMutex, p), if s.bitmapMutex.value == 0 then ExecWaiting else ExecIn);
    case ExecRetest(p) =>
      ExecMoveKeeps(s, p, Test(s.bitmapMutex, p), if s.bitmapMutex.value == 0 then ExecWaiting else ExecIn);
    case ExecTake(p) => ExecTakeKeeps(s, p);
    case ExecLoad(p, loads) => if loads { LoadKeeps(s, p, s.at[p].child); } else { UnloadKeeps(s, p, s.at[p].child); }
    case ExecRelease(p) => ExecMoveKeeps(s, p, Give(s.bitmapMutex), Running);
    case JoinBegin(p, pid) =>
      NotBorn(s, p, pid);
      JoinOver(s, p, pid, s.table[pid]);
      JoinBeginKeeps(s, p, pid, s.table[pid]);
    case JoinRetest(p) => JoinRetestKeeps(s, p, s.at[p].child);
    case JoinFinish(p) => JoinFinishKeeps(s, p, s.at[p].child);
    case ExitBegin(p, code) => ExitBeginKeeps(s, p, code);
    case ExitP(p) => ExitTestKeeps(s, p);
    case ExitRetest(p) => ExitTestKeeps(s, p);
    case ExitRemove(p) => ExitRemoveKeeps(s, p);
  }

  lemma ExecTakeKeeps(s: Table, p: Process)
    requires TableInv(s) && p in s.at && p in s.pcbs && s.at[p] == ExecIn
    ensures TableInv(ExecTaken(s, p))
  {
    var pid := FirstFree(s.bitmap, 0);
    if pid == -1 {
      ExecMoveKeeps(s, p, s.bitmapMutex, Running);
      LeakKeeps(ExecMoved(s, p, s.bitmapMutex, Running), s.leaks + 1);
    } else {
      TakeKeeps(s, p, pid);
    }
  }

  /** Between P and V on the mutex. */
  predicate Critical(stage: Stage)
  {
    stage == ExecIn || stage.ExecLoading? || stage == ExecOut
  }

  ghost function InExec(at: map<Process, Stage>): (ps: set<Process>)
  {
    set p | p in at && Critical(at[p])
  }

  /** The mutex's unit is free, with a process in ExecV, or lost. */
  ghost predicate MutexOk(m: Sem, at: map<Process, Stage>, leaks: nat)
  {
    && SemInv(m, UNIT)
    && (forall p {:trigger InP(m, p)} :: InP(m, p) <==> p in at && at[p] == ExecWaiting)
    && m.value + |InExec(at)| + leaks == UNIT
  }

  const UNIT: nat := 1

  lemma InExecMoved(at: map<Process, Stage>, p: Process, stage: Stage)
    requires p in at
    ensures |InExec(at[p := stage])| ==
              |InExec(at)| - (if Critical(at[p]) then 1 else 0) + (if Critical(stage) then 1 else 0)
  {
    var before, after := InExec(at), InExec(at[p := stage]);
    assert after - {p} == before - {p};
    WokenLeaves(before, p);
    WokenLeaves(after, p);
  }

  lemma TestOk(m: Sem, at: map<Process, Stage>, leaks: nat, p: Process)
    requires MutexOk(m, at, leaks) && p in at && (at[p] == Running || (at[p] == ExecWaiting && p in m.woken))
    ensures MutexOk(Test(m, p), at[p := if m.value == 0 then ExecWaiting else ExecIn], leaks)
  {
    Semaphores.StepKeeps(m, if at[p] == Running then Enter(p) else Retest(p), UNIT);
    InExecMoved(at, p, if m.value == 0 then ExecWaiting else ExecIn);
    TestWaiters(m, p);
  }

  lemma GiveOk(m: Sem, at: map<Process, Stage>, leaks: nat, p: Process)
    requires MutexOk(m, at, leaks) && p in at && at[p] == ExecOut
    ensures MutexOk(Give(m), at[p := Running], leaks)
  {
    Semaphores.StepKeeps(m, Up, UNIT);
    InExecMoved(at, p, Running);
    SameWaiters(m);
  }

  /** The mutex is untouched by a process that is not in ExecV, or moves within its critical part. */
  lemma ElsewhereOk(m: Sem, at: map<Process, Stage>, leaks: nat, p: Process, stage: Stage)
    requires MutexOk(m, at, leaks) && p in at && at[p] != ExecWaiting && stage != ExecWaiting
    requires Critical(at[p]) == Critical(stage)
    ensures MutexOk(m, at[p := stage], leaks)
  {
    InExecMoved(at, p, stage);
  }

  lemma LeakOk(m: Sem, at: map<Process, Stage>, leaks: nat, p: Process)
    requires MutexOk(m, at, leaks) && p in at && at[p] == ExecIn
    ensures MutexOk(m, at[p := Running], leaks + 1)
  {
    InExecMoved(at, p, Running);
  }

  lemma BornOk(m: Sem, at: map<Process, Stage>, leaks: nat, p: Process, c: Process)
    requires MutexOk(m, at, leaks) && c !in at
    ensures MutexOk(m, at[c := Born(p)], leaks)
  {
    assert InExec(at[c := Born(p)]) == InExec(at);
  }

  lemma GoneOk(m: Sem, at: map<Process, Stage>, leaks: nat, p: Process)
    requires MutexOk(m, at, leaks) && p in at && (at[p] == ExitDone || at[p].Born?)
    ensures MutexOk(m, at - {p}, leaks)
  {
    assert InExec(at - {p}) == InExec(at);
  }

  ghost predicate MutexInv(s: Table)
  {
    MutexOk(s.bitmapMutex, s.at, s.leaks)
  }

  lemma MutexKeeps(s: Table, e: Step)
    requires TableInv(s) && MutexInv(s) && CanStep(s, e) && Live(s, e)
    ensures MutexInv(Stepped(s, e))
  {
    if e.ExecBegin? || e.ExecRetest? {
      TestOk(s.bitmapMutex, s.at, s.leaks, e.p);
    } else if e.ExecTake? {
      TakeOk(s, e.p);
    } else if e.ExecLoad? {
      LoadOk(s, e.p, e.loads);
    } else if e.ExecRelease? {
      GiveOk(s.bitmapMutex, s.at, s.leaks, e.p);
    } else {
      MutexUntouched(s, e);
    }
  }

  lemma MutexUntouched(s: Table, e: Step)
    requires MutexInv(s) && CanStep(s, e) && Live(s, e)
    requires e.JoinBegin? || e.JoinRetest? || e.JoinFinish?
             || e.ExitBegin? || e.ExitP? || e.ExitRetest? || e.ExitRemove?
    ensures MutexInv(Stepped(s, e))
  {
    if e.ExitRemove? {
      GoneOk(s.bitmapMutex, s.at, s.leaks, e.p);
    } else {
      ElsewhereOk(s.bitmapMutex, s.at, s.leaks, e.p, Stepped(s, e).at[e.p]);
    }
  }

  /** ExecV past P keeps the unit of the mutex in play exactly when the table has a free process id. */
  lemma TakeOk(s: Table, p: Process)
    requires TableInv(s) && MutexInv(s) && p in s.at && p in s.pcbs && s.at[p] == ExecIn
    ensures MutexInv(ExecTaken(s, p))
    ensures ExecTaken(s, p).leaks == s.leaks <==> exists pid: nat :: pid < NUM_PROCESSES && pid !in s.bitmap
  {
    var m, at, leaks, pid := s.bitmapMutex, s.at, s.leaks, FirstFree(s.bitmap, 0);
    if pid == -1 {
      LeakOk(m, at, leaks, p);
    } else {
      assert s.next in s.pcbs ==> ChildInv(s, s.next);
      BornOk(m, at, leaks, p, s.next);
      ElsewhereOk(m, at[s.next := Born(p)], leaks, p, ExecLoading(pid, s.next));
    }
  }

  lemma LoadOk(s: Table, p: Process, loads: bool)
    requires TableInv(s) && MutexInv(s) && CanStep(s, ExecLoad(p, loads)) && Live(s, ExecLoad(p, loads))
    ensures MutexInv(Stepped(s, ExecLoad(p, loads)))
  {
    var m, at, leaks, c := s.bitmapMutex, s.at, s.leaks, s.at[p].child;
    StepIsLive(s, ExecLoad(p, loads));
    assert ProcessInv(s, p);
    if loads {
      ElsewhereOk(m, at, leaks, c, Running);
      ElsewhereOk(m, at[c := Running], leaks, p, ExecOut);
    } else {
      ElsewhereOk(m, at, leaks, p, ExecOut);
      GoneOk(m, at[p := ExecOut], leaks, c);
    }
  }

  /** Only the initial process exists. */
  ghost predicate FirstTable(s: Table)
  {
    && s.bitmap == {0} && s.table.Keys == {0} && s.table[0] == 0 && s.pcbs.Keys == {0} && s.at.Keys == {0}
    && s.at[0] == Running
    && s.pcbs[0].pid == 0 && s.pcbs[0].parentId == -1 && s.pcbs[0].joinSem == Sem(0, [], {}, 0, 0)
    && s.pcbs[0].exitSem == Sem(0, [], {}, 0, 0)
    && s.next == 1 && s.joiner == map[] && s.released == {} && s.leaks == 0
    && s.bitmapMutex.value == UNIT && s.bitmapMutex.queue == [] && s.bitmapMutex.woken == {}
    && s.bitmapMutex.taken == s.bitmapMutex.given
  }

  lemma FirstProcess(s: Table)
    requires FirstTable(s)
    ensures ChildInv(s, 0) && ProcessInv(s, 0)
  {
  }

  lemma FirstTableOk(s: Table)
    requires FirstTable(s) && ChildInv(s, 0) && ProcessInv(s, 0)
    ensures TableInv(s)
  {
  }

  lemma FirstMutex(m: Sem, at: map<Process, Stage>)
    requires m.value == UNIT && m.queue == [] && m.woken == {} && m.taken == m.given
    requires forall p :: p in at ==> at[p] == Running
    ensures MutexOk(m, at, 0)
  {
  }

  lemma FirstState(s: Table)
    requires FirstTable(s)
    ensures TableInv(s) && MutexInv(s)
  {
    FirstProcess(s);
    FirstTableOk(s);
    FirstMutex(s.bitmapMutex, s.at);
  }

  ghost predicate IsRun(s: Table, steps: seq<Step>, s': Table)
    decreases |steps|
  {
    if steps == [] then s' == s
    else CanStep(s, steps[0]) && Live(s, steps[0]) && IsRun(Stepped(s, steps[0]), steps[1..], s')
  }

  /** In this run no child is joined twice. */
  ghost predicate JoinsOnce(s: Table, steps: seq<Step>)
    decreases |steps|
  {
    || steps == []
    || (&& CanStep(s, steps[0]) && Live(s, steps[0]) && FirstJoin(s, steps[0])
        && JoinsOnce(Stepped(s, steps[0]), steps[1..]))
  }

  /** In every run, whatever is joined, the invariants of the table and of the mutex hold. */
  lemma {:induction false} EveryRun(s: Table, steps: seq<Step>, s': Table)
    requires TableInv(s) && MutexInv(s) && IsRun(s, steps, s')
    ensures TableInv(s') && MutexInv(s') && s.leaks <= s'.leaks
    decreases |steps|
  {
    if steps != [] {
      StepKeeps(s, steps[0]);
      MutexKeeps(s, steps[0]);
      EveryRun(Stepped(s, steps[0]), steps[1..], s');
    }
  }

  /** Process `p` waits in Join for a child whose join is over. */
  predicate Lost(s: Table, p: Process)
  {
    p in s.at && s.at[p].JoinWaiting? && s.at[p].child in s.released
  }

  /** A Join that may go ahead loses its caller if and only if the child has been joined before. */
  lemma JoinAgain(s: Table, p: Process, pid: nat)
    requires TableInv(s) && p in s.at && s.at[p] == Running && MayJoin(s, p, pid)
    ensures Lost(JoinTested(s, p, pid, s.table[pid]), p) <==> s.table[pid] in s.joiner
  {
    JoinOver(s, p, pid, s.table[pid]);
    assert ChildInv(s, s.table[pid]);
  }

  /** No step of it can follow, as the semaphore wakes nobody any more. */
  lemma LostSleeps(s: Table, p: Process, e: Step)
    requires TableInv(s) && Lost(s, p) && CanStep(s, e)
    ensures e.p != p
  {
    assert ProcessInv(s, p);
    assert s.at[p].child in s.pcbs ==> ChildInv(s, s.at[p].child);
  }

  lemma StaysLost(s: Table, p: Process, e: Step)
    requires TableInv(s) && Lost(s, p) && CanStep(s, e) && Live(s, e) && e.p != p
    ensures Lost(Stepped(s, e), p) && Stepped(s, e).at[p] == s.at[p]
  {
    if e.ExecLoad? {
      StepIsLive(s, e);
      assert ProcessInv(s, e.p);
    } else if e.ExecTake? {
      assert s.next in s.pcbs ==> ChildInv(s, s.next);
    }
  }

  /** In no run does its Join return, or any other step of it follow. */
  lemma {:induction false} LostForever(s: Table, p: Process, steps: seq<Step>, s': Table)
    requires TableInv(s) && Lost(s, p) && IsRun(s, steps, s')
    ensures Lost(s', p) && s'.at[p] == s.at[p] && forall e: Step :: e.p == p ==> !CanStep(s', e)
    decreases |steps|
  {
    if steps == [] {
      forall e: Step | e.p == p
        ensures !CanStep(s, e)
      {
        if CanStep(s, e) {
          LostSleeps(s, p, e);
        }
      }
    } else {
      StepKeeps(s, steps[0]);
      LostSleeps(s, p, steps[0]);
      StaysLost(s, p, steps[0]);
      LostForever(Stepped(s, steps[0]), p, steps[1..], s');
    }
  }

  ghost predicate NobodyLost(s: Table)
  {
    forall p :: p in s.at ==> !Lost(s, p)
  }

  /** In no state of this run is a process lost. */
  ghost predicate LosesNobody(s: Table, steps: seq<Step>)
    decreases |steps|
  {
    && NobodyLost(s)
    && (steps == [] || (CanStep(s, steps[0]) && Live(s, steps[0]) && LosesNobody(Stepped(s, steps[0]), steps[1..])))
  }

  lemma StepLosesSelf(s: Table, e: Step)
    requires TableInv(s) && CanStep(s, e) && Live(s, e) && FirstJoin(s, e) && !Lost(s, e.p)
    ensures !Lost(Stepped(s, e), e.p)
  {
    if e.JoinBegin? {
      JoinAgain(s, e.p, e.pid);
    }
  }

  lemma StepLosesOther(s: Table, e: Step, q: Process)
    requires TableInv(s) && CanStep(s, e) && Live(s, e) && !Lost(s, q) && q != e.p
    ensures !Lost(Stepped(s, e), q)
  {
    if e.JoinFinish? {
      StepIsLive(s, e);
      assert ProcessInv(s, e.p);
      assert q in s.at ==> ProcessInv(s, q);
    }
  }

  /** A run loses nobody if and only if it joins no child twice. */
  lemma {:induction false} LosesNobodyIffJoinsOnce(s: Table, steps: seq<Step>, s': Table)
    requires TableInv(s) && NobodyLost(s) && IsRun(s, steps, s')
    ensures LosesNobody(s, steps) <==> JoinsOnce(s, steps)
    decreases |steps|
  {
    if steps != [] {
      var e, next := steps[0], Stepped(s, steps[0]);
      StepKeeps(s, e);
      if FirstJoin(s, e) {
        forall q | q in next.at
          ensures !Lost(next, q)
        {
          if q == e.p {
            StepLosesSelf(s, e);
          } else {
            StepLosesOther(s, e, q);
          }
        }
        LosesNobodyIffJoinsOnce(next, steps[1..], s');
      } else {
        JoinAgain(s, e.p, e.pid);
        assert !NobodyLost(next);
      }
    }
  }

  /** Every state of a run from the start of the kernel satisfies the invariant. */
  lemma {:induction false} Reached(first: Table, steps: seq<Step>, s: Table)
    requires FirstTable(first) && IsRun(first, steps, s)
    ensures TableInv(s)
  {
    FirstState(first);
    EveryRun(first, steps, s);
  }

  /**
    In every run, whatever step comes next finds the PCBs it uses, and whoever waits for a child has its PCB
    there or is lost.
   */
  lemma {:induction false} NeverStale(first: Table, steps: seq<Step>, s: Table, e: Step)
    requires FirstTable(first) && IsRun(first, steps, s) && CanStep(s, e)
    ensures Live(s, e)
    ensures forall p :: p in s.at && (s.at[p].JoinWaiting? || s.at[p].Joined?) ==> s.at[p].child in s.pcbs || Lost(s, p)
  {
    Reached(first, steps, s);
    StepIsLive(s, e);
    forall p | p in s.at && (s.at[p].JoinWaiting? || s.at[p].Joined?)
      ensures s.at[p].child in s.pcbs || Lost(s, p)
    {
      assert ProcessInv(s, p);
    }
  }

  /** In every run, Join returns what the child it waited for gave to Exit. */
  lemma {:induction false} JoinReturnsExitCode(first: Table, steps: seq<Step>, s: Table, p: Process)
    requires FirstTable(first) && IsRun(first, steps, s) && CanStep(s, JoinFinish(p))
    ensures var c := s.at[p].child;
            && s.at[p].pid in s.table && s.table[s.at[p].pid] == c && c in s.pcbs
            && c in s.exitArg && s.pcbs[c].exitCode == s.exitArg[c]
  {
    Reached(first, steps, s);
    CodeReady(s, p);
  }

  lemma CodeReady(s: Table, p: Process)
    requires TableInv(s) && CanStep(s, JoinFinish(p))
    ensures var c := s.at[p].child;
            && s.at[p].pid in s.table && s.table[s.at[p].pid] == c && c in s.pcbs
            && c in s.exitArg && s.pcbs[c].exitCode == s.exitArg[c]
  {
    StepIsLive(s, JoinFinish(p));
    assert ProcessInv(s, p);
    assert ChildInv(s, s.at[p].child);
  }

  /**
    In every run, the process id of a child that has been joined is not given out again before the joiner has
    let it go.
   */
  lemma {:induction false} PidKept(first: Table, steps: seq<Step>, s: Table, c: Process)
    requires FirstTable(first) && IsRun(first, steps, s) && c in s.joiner && c !in s.released
    ensures c in s.pcbs && s.pcbs[c].pid in s.bitmap && FirstFree(s.bitmap, 0) != s.pcbs[c].pid
    ensures !CanStep(s, ExitRemove(c))
  {
    Reached(first, steps, s);
    PidTaken(s, c);
  }

  lemma PidTaken(s: Table, c: Process)
    requires TableInv(s) && c in s.joiner && c !in s.released
    ensures c in s.pcbs && s.pcbs[c].pid in s.bitmap && FirstFree(s.bitmap, 0) != s.pcbs[c].pid
    ensures !CanStep(s, ExitRemove(c))
  {
    assert ChildInv(s, c);
  }

  /** In every run, the mutex is free or with a process in ExecV if and only if ExecV has never met a full table. */
  lemma {:induction false} MutexInPlay(first: Table, steps: seq<Step>, s: Table)
    requires FirstTable(first) && IsRun(first, steps, s)
    ensures s.bitmapMutex.value + |InExec(s.at)| == 1 <==> s.leaks == 0
  {
    FirstState(first);
    EveryRun(first, steps, s);
  }

  /** After that, no process gets past P in ExecV again. */
  lemma {:induction false} LockedOut(first: Table, steps: seq<Step>, s: Table, more: seq<Step>, s': Table)
    requires FirstTable(first) && IsRun(first, steps, s) && s.leaks > 0 && IsRun(s, more, s')
    ensures s'.bitmapMutex.value == 0 && forall p :: p in s'.at ==> s'.at[p] != ExecIn
  {
    FirstState(first);
    EveryRun(first, steps, s);
    EveryRun(s, more, s');
    assert InExec(s'.at) == {};
    forall p | p in s'.at
      ensures s'.at[p] != ExecIn
    {
      assert p !in InExec(s'.at);
    }
  }

  /** The initial process is in user code, the mutex is free, and process ids below `k` are taken. */
  ghost predicate Ready(s: Table, k: nat)
  {
    && 0 in s.at && s.at[0] == Running && 0 in s.pcbs && s.leaks == 0
    && s.bitmapMutex.value == 1 && s.bitmapMutex.queue == []
    && (forall i: nat :: i in s.bitmap <==> i < k)
  }

  /** The first two steps of a successful call of ExecV. */
  lemma ExecTakes(s: Table, k: nat, s1: Table, s2: Table)
    requires Ready(s, k) && k < NUM_PROCESSES && s.next !in s.at && s.next != 0 && s.next !in s.joiner
    requires s1 == MutexTested(s, 0) && 0 in s1.pcbs && s2 == ExecTaken(s1, 0)
    ensures CanStep(s, ExecBegin(0)) && CanStep(s1, ExecTake(0)) && HalfWay(s2, k, s.next)
  {
    assert FirstFree(s1.bitmap, 0) == k;
  }

  /** The initial process is loading `c`, with the mutex taken. */
  ghost predicate HalfWay(s: Table, k: nat, c: Process)
  {
    && 0 in s.at && s.at[0] == ExecLoading(k, c) && 0 in s.pcbs && s.leaks == 0 && c != 0
    && s.bitmapMutex.value == 0 && s.bitmapMutex.queue == []
    && (forall i: nat :: i in s.bitmap <==> i < k + 1)
    && k in s.table && s.table[k] == c && c in s.pcbs && s.pcbs[c].pid == k && s.pcbs[c].parentId == s.pcbs[0].pid
    && c in s.at && c !in s.joiner
  }

  /** Child `c` of the initial process runs under process id `k` and has not been joined. */
  ghost predicate HasChild(s: Table, k: nat, c: Process)
  {
    && 0 in s.pcbs && k in s.table && s.table[k] == c && c in s.pcbs && s.pcbs[c].pid == k
    && s.pcbs[c].parentId == s.pcbs[0].pid
    && c in s.at && s.at[c] == Running && c !in s.joiner && c != 0
  }

  /** The last two. */
  lemma ExecLoads(s2: Table, k: nat, c: Process, s3: Table, s4: Table)
    requires HalfWay(s2, k, c) && s3 == Loaded(s2, 0, c) && s4 == ExecMoved(s3, 0, Give(s3.bitmapMutex), Running)
    ensures CanStep(s2, ExecLoad(0, true)) && Live(s2, ExecLoad(0, true)) && Stepped(s2, ExecLoad(0, true)) == s3
    ensures CanStep(s3, ExecRelease(0)) && 0 in s3.pcbs && Ready(s4, k + 1) && HasChild(s4, k, c)
  {
  }

  lemma NextIsNew(s: Table)
    requires TableInv(s) && 0 in s.pcbs
    ensures s.next !in s.at && s.next != 0 && s.next !in s.joiner
  {
    assert s.next in s.pcbs ==> ChildInv(s, s.next);
    assert ChildInv(s, 0);
  }

  /** One child more. */
  lemma OneMore(s: Table, k: nat) returns (steps: seq<Step>, s': Table)
    requires TableInv(s) && Ready(s, k) && k < NUM_PROCESSES
    ensures IsRun(s, steps, s') && TableInv(s') && Ready(s', k + 1) && HasChild(s', k, s.next)
  {
    NextIsNew(s);
    var s1 := MutexTested(s, 0);
    var s2 := ExecTaken(s1, 0);
    var s3 := Loaded(s2, 0, s.next);
    s' := ExecMoved(s3, 0, Give(s3.bitmapMutex), Running);
    ExecTakes(s, k, s1, s2);
    ExecLoads(s2, k, s.next, s3, s');
    ExecOnceKeeps(s, s1, s2, s3, s');
    steps := [ExecBegin(0), ExecTake(0), ExecLoad(0, true), ExecRelease(0)];
    FourSteps(s, steps[0], s1, steps[1], s2, steps[2], s3, steps[3], s');
  }

  lemma ExecOnceKeeps(s: Table, s1: Table, s2: Table, s3: Table, s4: Table)
    requires TableInv(s) && CanStep(s, ExecBegin(0)) && s1 == MutexTested(s, 0)
    requires CanStep(s1, ExecTake(0)) && 0 in s1.pcbs && s2 == ExecTaken(s1, 0)
    requires CanStep(s2, ExecLoad(0, true)) && Live(s2, ExecLoad(0, true)) && s3 == Stepped(s2, ExecLoad(0, true))
    requires CanStep(s3, ExecRelease(0)) && s4 == ExecMoved(s3, 0, Give(s3.bitmapMutex), Running)
    ensures TableInv(s4)
  {
    StepKeeps(s, ExecBegin(0));
    StepKeeps(s1, ExecTake(0));
    StepKeeps(s2, ExecLoad(0, true));
    StepKeeps(s3, ExecRelease(0));
  }

  /** One step of a run. */
  ghost predicate StepsTo(s: Table, e: Step, s': Table)
  {
    CanStep(s, e) && Live(s, e) && s' == Stepped(s, e)
  }

  lemma {:induction false} OneStep(s: Table, e: Step, s1: Table, rest: seq<Step>, s': Table)
    requires StepsTo(s, e, s1) && IsRun(s1, rest, s')
    ensures IsRun(s, [e] + rest, s')
  {
    assert ([e] + rest)[1..] == rest;
  }

  lemma {:induction false} FourSteps(s: Table, a: Step, s1: Table, b: Step, s2: Table, c: Step, s3: Table, d: Step,
                                     s4: Table)
    requires StepsTo(s, a, s1) && StepsTo(s1, b, s2) && StepsTo(s2, c, s3) && StepsTo(s3, d, s4)
    ensures IsRun(s, [a, b, c, d], s4)
  {
    OneStep(s3, d, s4, [], s4);
    OneStep(s2, c, s3, [d], s4);
    OneStep(s1, b, s2, [c, d], s4);
    OneStep(s, a, s1, [b, c, d], s4);
    assert [d] + [] == [d] && [c] + [d] == [c, d] && [b] + [c, d] == [b, c, d] && [a] + [b, c, d] == [a, b, c, d];
  }

  lemma {:induction false} RunsJoin(s: Table, steps: seq<Step>, s1: Table, more: seq<Step>, s2: Table)
    requires IsRun(s, steps, s1) && IsRun(s1, more, s2)
    ensures IsRun(s, steps + more, s2)
    decreases |steps|
  {
    if steps == [] {
      assert steps + more == more;
    } else {
      RunsJoin(Stepped(s, steps[0]), steps[1..], s1, more, s2);
      assert (steps + more)[1..] == steps[1..] + more;
    }
  }

  lemma TableFills(s: Table, k: nat) returns (steps: seq<Step>, s': Table)
    requires TableInv(s) && Ready(s, k) && k <= NUM_PROCESSES
    ensures IsRun(s, steps, s') && Ready(s', NUM_PROCESSES)
    decreases NUM_PROCESSES - k
  {
    if k == NUM_PROCESSES {
      steps, s' := [], s;
    } else {
      var first, s1 := OneMore(s, k);
      var rest, s2 := TableFills(s1, k + 1);
      RunsJoin(s, first, s1, rest, s2);
      steps, s' := first + rest, s2;
    }
  }

  /** One call of ExecV too many. */
  lemma LastCall(s: Table) returns (steps: seq<Step>, s': Table)
    requires Ready(s, NUM_PROCESSES)
    ensures IsRun(s, steps, s') && s'.leaks == 1
  {
    var s1 := MutexTested(s, 0);
    s' := ExecTaken(s1, 0);
    steps := [ExecBegin(0), ExecTake(0)];
    assert FirstFree(s1.bitmap, 0) == -1;
    assert CanStep(s, steps[0]) && CanStep(s1, steps[1]);
    assert steps[1..] == [ExecTake(0)] && steps[1..][1..] == [];
    assert IsRun(s', [], s');
    assert IsRun(s1, steps[1..], s');
  }

  lemma FirstReady(s: Table)
    requires FirstTable(s)
    ensures TableInv(s) && Ready(s, 1)
  {
    FirstProcess(s);
    FirstTableOk(s);
  }

  /** The mutex is lost in a real run: nine children that load and do not exit, and one more call of ExecV. */
  lemma {:induction false} LeakHappens(first: Table)
    requires FirstTable(first)
    ensures exists steps, s :: IsRun(first, steps, s) && s.leaks == 1
  {
    FirstReady(first);
    var steps, s := TableFills(first, 1);
    var last, s' := LastCall(s);
    RunsJoin(first, steps, s, last, s');
  }

  /** The initial process has passed P in the join of child `c`, which is leaving. */
  ghost predicate HalfJoined(s: Table, k: nat, c: Process)
  {
    && 0 in s.pcbs && k in s.table && s.table[k] == c && c in s.pcbs && s.pcbs[c].pid == k
    && s.pcbs[c].parentId == s.pcbs[0].pid && c != 0
    && 0 in s.at && s.at[0] == Joined(k, c) && c in s.at && s.at[c] == Exiting
    && s.pcbs[c].joinSem == Sem(0, [], {}, 1, 1) && s.pcbs[c].exitSem == Sem(0, [], {}, 0, 0)
  }

  lemma ExitsAndJoins(s: Table, k: nat, c: Process, code: int, s1: Table, s2: Table)
    requires ChildInv(s, c) && HasChild(s, k, c) && k != 0 && 0 in s.at && s.at[0] == Running && c !in s.released
    requires s1 == ExitBegun(s, c, code) && c in s1.pcbs && s2 == JoinTested(s1, 0, k, c)
    ensures StepsTo(s, ExitBegin(c, code), s1) && StepsTo(s1, JoinBegin(0, k), s2) && HalfJoined(s2, k, c)
  {
  }

  lemma JoinsAgain(s2: Table, k: nat, c: Process, s3: Table, s4: Table)
    requires HalfJoined(s2, k, c) && s3 == JoinFinished(s2, 0, c) && c in s3.pcbs && s4 == JoinTested(s3, 0, k, c)
    ensures StepsTo(s2, JoinFinish(0), s3) && StepsTo(s3, JoinBegin(0, k), s4)
    ensures s4.at[0] == JoinWaiting(k, c) && s4.pcbs[c].joinSem.queue == [0] && c in s4.released
    ensures c in s4.at && s4.at[c] == Exiting && s4.pcbs[c].exitSem.value == 1 && s4.pcbs[c].pid == k
  {
  }

  /** The child exits, its parent joins it, and joins it again before it is gone. */
  lemma JoinTwice(s: Table, k: nat, c: Process, code: int) returns (steps: seq<Step>, s': Table)
    requires TableInv(s) && HasChild(s, k, c) && k != 0 && 0 in s.at && s.at[0] == Running
    ensures IsRun(s, steps, s') && 0 in s'.at && s'.at[0] == JoinWaiting(k, c) && c in s'.pcbs
    ensures s'.pcbs[c].joinSem.queue == [0]
    ensures c in s'.at && s'.at[c] == Exiting && s'.pcbs[c].exitSem.value == 1 && s'.pcbs[c].pid == k
    ensures c in s'.released
  {
    assert ChildInv(s, c);
    var s1 := ExitBegun(s, c, code);
    var s2 := JoinTested(s1, 0, k, c);
    ExitsAndJoins(s, k, c, code, s1, s2);
    var s3 := JoinFinished(s2, 0, c);
    s' := JoinTested(s3, 0, k, c);
    JoinsAgain(s2, k, c, s3, s');
    steps := [ExitBegin(c, code), JoinBegin(0, k), JoinFinish(0), JoinBegin(0, k)];
    FourSteps(s, steps[0], s1, steps[1], s2, steps[2], s3, steps[3], s');
  }

  /** Nothing keeps the child from going; its PCB goes with it. */
  lemma ChildGoes(s: Table, c: Process) returns (steps: seq<Step>, s': Table)
    requires c != 0 && c in s.pcbs && c in s.at && s.at[c] == Exiting && s.pcbs[c].exitSem.value == 1 && 0 in s.at
    requires s.at[0].JoinWaiting?
    ensures IsRun(s, steps, s') && c !in s'.pcbs && 0 in s'.at && s'.at[0] == s.at[0] && s'.released == s.released
  {
    var s1 := ExitTested(s, c);
    s' := ExitRemoved(s1, c);
    steps := [ExitP(c), ExitRemove(c)];
    assert steps[1..] == [ExitRemove(c)] && steps[1..][1..] == [];
    assert IsRun(s', [], s');
    assert IsRun(s1, steps[1..], s');
  }

  /** Process 0 is lost on the semaphore of a PCB that has been deleted, and no step of it can follow. */
  ghost predicate Stranded(s: Table)
  {
    && Lost(s, 0) && s.at[0].child !in s.pcbs
    && forall e: Step :: e.p == 0 ==> !CanStep(s, e)
  }

  lemma StrandedRun(first: Table) returns (steps: seq<Step>, s: Table)
    requires FirstTable(first)
    ensures IsRun(first, steps, s) && Stranded(s)
  {
    FirstReady(first);
    var born, s0 := OneMore(first, 1);
    var again, s1 := JoinTwice(s0, 1, first.next, 0);
    var gone, s2 := ChildGoes(s1, first.next);
    RunsJoin(first, born, s0, again, s1);
    RunsJoin(first, born + again, s1, gone, s2);
    Stuck(s2, 1, first.next);
    steps, s := born + again + gone, s2;
  }

  /** A second Join does harm in a real run. */
  lemma {:induction false} SecondJoinHappens(first: Table)
    requires FirstTable(first)
    ensures exists steps, s :: IsRun(first, steps, s) && Stranded(s)
  {
    var steps, s := StrandedRun(first);
  }

  lemma Stuck(s: Table, k: nat, c: Process)
    requires 0 in s.at && s.at[0] == JoinWaiting(k, c) && c !in s.pcbs
    ensures forall e: Step :: e.p == 0 ==> !CanStep(s, e)
  {
  }
}
