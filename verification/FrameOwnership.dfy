/** Physical memory shared by the address spaces of code/userprog/addrspace.cc, over whole runs. */
module FrameOwnership {
  import opened Bitmaps
  import opened Wrappers
  import opened Bytes
  import opened DiskLayout
  import opened VirtualMemory
  import opened AddrSpaces
  import opened Ownership

  /** The bitmap of frames, the page tables of the live address spaces, and memory. */
  datatype Physical = Physical(marks: set<nat>, spaces: map<int, seq<nat>>, memory: Memory)

  /**
    What may happen: a load, the end of an address space, a program writing to its memory, or, when a load or
    a store fails, nothing.
   */
  datatype Event = Load(id: int) | Nothing | Teardown(id: int) | Write(id: int, position: nat, bytes: seq<Byte>)

  /** Events have the effects that AddrSpace.Load, AddrSpace.Free and AddrSpace.StoreAt promise. */
  ghost predicate Happens(p: Physical, e: Event, p': Physical)
  {
    match e
    case Load(id) =>
      && id !in p.spaces && id in p'.spaces && p'.spaces == p.spaces[id := p'.spaces[id]]
      && Acquired(p.marks, p'.spaces[id], p'.marks) && OthersKept(FrameSet(p'.spaces[id]), p.memory, p'.memory)
    case Nothing => p' == p
    case Teardown(id) =>
      && id in p.spaces && p'.spaces == p.spaces - {id} && p'.memory == p.memory
      && Released(p.marks, p.spaces[id], p'.marks)
    case Write(id, position, bytes) =>
      && id in p.spaces && p'.spaces == p.spaces && p'.marks == p.marks && FramesOk(p.spaces[id])
      && position + |bytes| <= |p.spaces[id]| * PAGE_SIZE
      && OthersKept(FrameSet(p.spaces[id]), p.memory, p'.memory)
      && View(p'.memory, p.spaces[id]) == Splice(View(p.memory, p.spaces[id]), position, bytes)
  }

  ghost function Owners(spaces: map<int, seq<nat>>): (m: map<int, set<nat>>)
  {
    map id | id in spaces :: FrameSet(spaces[id])
  }

  /** A frame is marked exactly when one page of one live address space is in it. */
  ghost predicate PhysicalInv(p: Physical)
  {
    && (forall id :: id in p.spaces ==> FramesOk(p.spaces[id]))
    && Disjoint(Owners(p.spaces)) && p.marks == Union(Owners(p.spaces))
  }

  lemma EventKeeps(p: Physical, e: Event, p': Physical)
    requires PhysicalInv(p) && Happens(p, e, p')
    ensures PhysicalInv(p')
  {
    match e
    case Load(id) =>
      AddOwner(Owners(p.spaces), id, FrameSet(p'.spaces[id]));
      assert Owners(p'.spaces) == Owners(p.spaces)[id := FrameSet(p'.spaces[id])];
    case Teardown(id) =>
      RemoveOwner(Owners(p.spaces), id);
      assert Owners(p'.spaces) == Owners(p.spaces) - {id};
    case _ =>
  }

  lemma {:induction false} NotSeen(own: set<nat>, m: Memory, m': Memory, pt: seq<nat>)
    requires FramesOk(pt) && OthersKept(own, m, m') && FrameSet(pt) !! own
    ensures View(m', pt) == View(m, pt)
  {
    forall f: nat | f in FrameSet(pt) && f < NUM_PHYS_PAGES
      ensures m'[f] == m[f]
    {
      KeptAt(own, m, m', NUM_PHYS_PAGES, f);
    }
    ViewFrame(m, m', pt);
  }

  /** Nothing that happens to one address space is seen by another. */
  lemma Isolation(p: Physical, e: Event, p': Physical, id: int)
    requires PhysicalInv(p) && Happens(p, e, p') && id in p.spaces && id in p'.spaces
    requires e.Write? ==> e.id != id
    ensures p'.spaces[id] == p.spaces[id] && View(p'.memory, p.spaces[id]) == View(p.memory, p.spaces[id])
  {
    var owners := Owners(p.spaces);
    match e
    case Load(other) =>
      InUnion(owners, id);
      NotSeen(FrameSet(p'.spaces[other]), p.memory, p'.memory, p.spaces[id]);
    case Write(other, _, _) =>
      assert owners[other] !! owners[id];
      NotSeen(FrameSet(p.spaces[other]), p.memory, p'.memory, p.spaces[id]);
    case _ =>
  }

  /** A run of events, with the states between them. */
  ghost predicate IsRun(states: seq<Physical>, events: seq<Event>)
  {
    |states| == |events| + 1 && forall i :: 0 <= i < |events| ==> Happens(states[i], events[i], states[i + 1])
  }

  lemma EveryRun(states: seq<Physical>, events: seq<Event>, n: nat)
    requires IsRun(states, events) && PhysicalInv(states[0]) && n <= |events|
    ensures PhysicalInv(states[n])
  {
    if n > 0 {
      EveryRun(states, events, n - 1);
      EventKeeps(states[n - 1], events[n - 1], states[n]);
    }
  }

  /** What an event makes of the memory that one address space sees. */
  ghost function OwnWrite(v: seq<Byte>, e: Event, id: int): (r: seq<Byte>)
    ensures |r| == |v|
  {
    if e.Write? && e.id == id && e.position + |e.bytes| <= |v| then Splice(v, e.position, e.bytes) else v
  }

  ghost function OwnWrites(v: seq<Byte>, events: seq<Event>, n: nat, id: int): (r: seq<Byte>)
    requires n <= |events|
    ensures |r| == |v|
  {
    if n == 0 then v else OwnWrite(OwnWrites(v, events, n - 1, id), events[n - 1], id)
  }

  lemma OneEvent(p: Physical, e: Event, p': Physical, id: int)
    requires PhysicalInv(p) && Happens(p, e, p') && id in p.spaces && e != Teardown(id)
    ensures id in p'.spaces && p'.spaces[id] == p.spaces[id]
    ensures View(p'.memory, p.spaces[id]) == OwnWrite(View(p.memory, p.spaces[id]), e, id)
  {
    if !(e.Write? && e.id == id) {
      Isolation(p, e, p', id);
    }
  }

  lemma RunEvent(states: seq<Physical>, events: seq<Event>, n: nat, next: nat, id: int)
    requires IsRun(states, events) && PhysicalInv(states[0]) && n + 1 == next <= |events|
    requires id in states[n].spaces && FramesOk(states[n].spaces[id]) && events[n] != Teardown(id)
    ensures id in states[next].spaces && states[next].spaces[id] == states[n].spaces[id]
    ensures View(states[next].memory, states[n].spaces[id]) ==
              OwnWrite(View(states[n].memory, states[n].spaces[id]), events[n], id)
  {
    EveryRun(states, events, n);
    OneEvent(states[n], events[n], states[next], id);
  }

  /** Over any run, an address space keeps its frames and sees its own writes, one after another, and nothing else. */
  lemma {:induction false} RunIsolation(states: seq<Physical>, events: seq<Event>, n: nat, id: int)
    requires IsRun(states, events) && PhysicalInv(states[0]) && n <= |events| && id in states[0].spaces
    requires forall i :: 0 <= i < n ==> events[i] != Teardown(id)
    ensures id in states[n].spaces && states[n].spaces[id] == states[0].spaces[id]
    ensures View(states[n].memory, states[0].spaces[id]) ==
              OwnWrites(View(states[0].memory, states[0].spaces[id]), events, n, id)
  {
    if n > 0 {
      RunIsolation(states, events, n - 1, id);
      RunEvent(states, events, n - 1, n, id);
    }
  }

  /** Over any run from an empty memory: every marked frame has exactly one owner, and every frame owned is marked. */
  lemma OneOwner(states: seq<Physical>, events: seq<Event>, n: nat, f: nat)
    requires IsRun(states, events) && states[0].spaces == map[] && states[0].marks == {} && n <= |events|
    ensures var p := states[n];
            f in p.marks <==> exists id :: id in p.spaces && f in FrameSet(p.spaces[id])
    ensures var p := states[n];
            forall id, other ::
              id in p.spaces && other in p.spaces && f in FrameSet(p.spaces[id]) && f in FrameSet(p.spaces[other]) ==>
                id == other
    ensures var p := states[n];
            forall id, i, j ::
              && id in p.spaces && 0 <= i < |p.spaces[id]| && 0 <= j < |p.spaces[id]|
              && p.spaces[id][i] == f == p.spaces[id][j]
              ==> i == j
  {
    assert Union(Owners(states[0].spaces)) == {};
    EveryRun(states, events, n);
    var p := states[n];
    var owners := Owners(p.spaces);
    if f in p.marks {
      var id :| id in owners && f in owners[id];
      assert f in FrameSet(p.spaces[id]);
    }
    forall id | id in p.spaces
      ensures owners[id] <= p.marks
    {
      InUnion(owners, id);
    }
    forall id, other |
      && id in p.spaces && other in p.spaces && f in FrameSet(p.spaces[id]) && f in FrameSet(p.spaces[other])
      ensures id == other
    {
      assert f in owners[id] && f in owners[other];
    }
    forall id, i, j |
      && id in p.spaces && 0 <= i < |p.spaces[id]| && 0 <= j < |p.spaces[id]| && p.spaces[id][i] == f == p.spaces[id][j]
      ensures i == j
    {
      FramesOkAt(p.spaces[id], i);
    }
  }

  /** AddrSpace.Load is such an event: a success or a failure. */
  method LoadEvent(space: AddrSpace, bitmap: Bitmap, machine: Machine, executable: Option<seq<Byte>>,
                   segments: seq<Segment>, uninitSize: Int32, args: seq<seq<Byte>>, ghost spaces: map<int, seq<nat>>,
                   ghost id: int)
    returns (r: Outcome<bool>)
    requires space.physicalPage == [] && space.flags == [] && bitmap.Valid() && bitmap.numBits == NUM_PHYS_PAGES
    requires id !in spaces
    requires PagesFor(segments, uninitSize, args) <= NUM_PHYS_PAGES
    modifies space, bitmap.words, machine
    ensures r == Done(true) ==> Happens(Physical(old(bitmap.Marks()), spaces, old(machine.mainMemory)), Load(id),
                                        Physical(bitmap.Marks(), spaces[id := space.physicalPage], machine.mainMemory))
    ensures r == Done(false) ==> Happens(Physical(old(bitmap.Marks()), spaces, old(machine.mainMemory)), Nothing,
                                         Physical(bitmap.Marks(), spaces, machine.mainMemory))
  {
    r := space.Load(bitmap, machine, executable, segments, uninitSize, args);
  }

  /** So is the destructor. */
  method TeardownEvent(space: AddrSpace, bitmap: Bitmap, machine: Machine, ghost spaces: map<int, seq<nat>>,
                       ghost id: int)
    requires space.Valid() && bitmap.Valid() && bitmap.numBits == NUM_PHYS_PAGES && id in spaces
    requires spaces[id] == space.physicalPage
    modifies bitmap.words
    ensures Happens(Physical(old(bitmap.Marks()), spaces, machine.mainMemory), Teardown(id),
                    Physical(bitmap.Marks(), spaces - {id}, machine.mainMemory))
  {
    space.Free(bitmap);
  }

  /** So is a store by the program, and one that fails is nothing. */
  method WriteEvent(space: AddrSpace, machine: Machine, position: nat, bytes: seq<Byte>, ghost marks: set<nat>,
                    ghost spaces: map<int, seq<nat>>, ghost id: int)
    returns (ok: bool)
    requires space.Valid() && id in spaces && spaces[id] == space.physicalPage
    requires |bytes| == 1 || |bytes| == 2 || |bytes| == 4
    modifies space`flags, machine
    ensures Happens(Physical(marks, spaces, old(machine.mainMemory)),
                    if ok then Write(id, position, bytes) else Nothing,
                    Physical(marks, spaces, machine.mainMemory))
  {
    ok := space.WriteMem(machine, position, bytes);
  }
}
