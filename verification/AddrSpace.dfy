/** The address spaces of code/userprog/addrspace.cc. */
module AddrSpaces {
  import opened Bytes
  import opened Wrappers
  import opened Bitmaps
  import opened DiskLayout
  import opened VirtualMemory
  import opened Ownership
  import opened Arguments

  const USER_STACK_SIZE: nat := 1024

  /** What a page table entry holds besides its physical page. */
  datatype Flags = Flags(valid: bool, readOnly: bool, use: bool, dirty: bool)

  datatype ExceptionType = NoException | ReadOnlyException | BusErrorException | AddressErrorException

  /** Among the first `n` frames, those outside `own` are the same. */
  ghost predicate KeptBelow(own: set<nat>, m: Memory, m': Memory, n: nat)
    requires n <= NUM_PHYS_PAGES
  {
    n == 0 || (KeptBelow(own, m, m', n - 1) && (n - 1 in own || m'[n - 1] == m[n - 1]))
  }

  /** Memory outside the frames `own` is the same. */
  ghost predicate OthersKept(own: set<nat>, m: Memory, m': Memory)
  {
    KeptBelow(own, m, m', |m|)
  }

  lemma {:induction false} KeptAt(own: set<nat>, m: Memory, m': Memory, n: nat, f: nat)
    requires f < n <= NUM_PHYS_PAGES && KeptBelow(own, m, m', n) && f !in own
    ensures m'[f] == m[f]
  {
    if f < n - 1 {
      KeptAt(own, m, m', n - 1, f);
    }
  }

  lemma {:induction false} IsKept(own: set<nat>, m: Memory, m': Memory, n: nat)
    requires n <= NUM_PHYS_PAGES && forall f: nat :: f < n && f !in own ==> m'[f] == m[f]
    ensures KeptBelow(own, m, m', n)
  {
    if n > 0 {
      IsKept(own, m, m', n - 1);
    }
  }

  lemma {:induction false} KeptThrough(own: set<nat>, m: Memory, m1: Memory, m2: Memory, n: nat)
    requires n <= NUM_PHYS_PAGES && KeptBelow(own, m, m1, n) && KeptBelow(own, m1, m2, n)
    ensures KeptBelow(own, m, m2, n)
  {
    if n > 0 {
      KeptThrough(own, m, m1, m2, n - 1);
    }
  }

  /** Free frames have been taken for the pages of one address space. */
  ghost predicate Acquired(marks: set<nat>, frames: seq<nat>, marks': set<nat>)
  {
    FramesOk(frames) && FrameSet(frames) !! marks && marks' == marks + FrameSet(frames)
  }

  /** They have been given back. */
  ghost predicate Released(marks: set<nat>, frames: seq<nat>, marks': set<nat>)
  {
    marks' == marks - FrameSet(frames)
  }

  class Machine {
    var mainMemory: Memory

    constructor (contents: Memory)
      ensures mainMemory == contents
    {
      mainMemory := contents;
    }
  }

  class AddrSpace {
    /** The page table, by columns: entry `i` is for virtual page `i`. */
    var physicalPage: seq<nat>
    var flags: seq<Flags>
    var numPages: nat
    var argCount: nat
    var argSize: nat

    ghost predicate Valid()
      reads this
    {
      |physicalPage| == numPages && |flags| == numPages && FramesOk(physicalPage) && Writable(flags)
    }

    /** What the program sees. */
    ghost function Space(machine: Machine): (bytes: seq<Byte>)
      requires Valid()
      reads this, machine
      ensures |bytes| == numPages * PAGE_SIZE
    {
      View(machine.mainMemory, physicalPage)
    }

    constructor ()
      ensures Valid() && physicalPage == [] && numPages == 0
    {
      physicalPage, flags, numPages, argCount, argSize := [], [], 0, 0, 0;
    }

    /** The body of the loop of InitPageTable: a frame for the next page. */
    method TakePage(bitmap: Bitmap, machine: Machine, ghost marks: set<nat>, ghost m: Memory)
      requires bitmap.Valid() && bitmap.numBits == NUM_PHYS_PAGES && |physicalPage| == |flags| && Writable(flags)
      requires Taking(marks, m, physicalPage, bitmap.Marks(), machine.mainMemory)
      requires (forall f: nat :: f in marks ==> f < NUM_PHYS_PAGES) && |marks| + |physicalPage| < NUM_PHYS_PAGES
      modifies this`physicalPage, this`flags, bitmap.words, machine
      ensures |physicalPage| == |flags| == |old(physicalPage)| + 1 && Writable(flags)
      ensures Taking(marks, m, physicalPage, bitmap.Marks(), machine.mainMemory)
    {
      ghost var taken, memory := bitmap.Marks(), machine.mainMemory;
      RoomLeft(marks, physicalPage, taken);
      var pfn := FindFrame(bitmap);
      TakeNextFrame(marks, m, physicalPage, taken, memory, pfn);
      WritableAppend(flags, Flags(true, false, false, false));
      physicalPage := physicalPage + [pfn];
      flags := flags + [Flags(true, false, false, false)];
      machine.mainMemory := machine.mainMemory[pfn := BlankPage()];
    }

    /** The loop of InitPageTable. */
    method TakePages(bitmap: Bitmap, machine: Machine)
      requires physicalPage == [] && flags == [] && bitmap.Valid() && bitmap.numBits == NUM_PHYS_PAGES
      requires |bitmap.Marks()| + numPages <= NUM_PHYS_PAGES
      modifies this`physicalPage, this`flags, bitmap.words, machine
      ensures Valid()
      ensures Taking(old(bitmap.Marks()), old(machine.mainMemory), physicalPage, bitmap.Marks(), machine.mainMemory)
    {
      ghost var marks, m := bitmap.Marks(), machine.mainMemory;
      MarkedBelow(bitmap.words[..], NUM_PHYS_PAGES);
      for i := 0 to numPages
        invariant |physicalPage| == i && |flags| == i && Writable(flags)
        invariant Taking(marks, m, physicalPage, bitmap.Marks(), machine.mainMemory)
      {
        TakePage(bitmap, machine, marks, m);
      }
    }

    /** Takes a free frame for every page and zeroes it, or takes nothing when there are too few. */
    method InitPageTable(bitmap: Bitmap, machine: Machine) returns (ok: bool)
      requires physicalPage == [] && flags == [] && bitmap.Valid() && bitmap.numBits == NUM_PHYS_PAGES
      modifies this`physicalPage, this`flags, bitmap.words, machine
      ensures ok <==> |old(bitmap.Marks())| + numPages <= NUM_PHYS_PAGES
      ensures !ok ==> physicalPage == [] && flags == []
      ensures !ok ==> bitmap.Marks() == old(bitmap.Marks()) && machine.mainMemory == old(machine.mainMemory)
      ensures ok ==> Valid() && Acquired(old(bitmap.Marks()), physicalPage, bitmap.Marks())
      ensures ok ==> OthersKept(FrameSet(physicalPage), old(machine.mainMemory), machine.mainMemory)
      ensures ok ==> Space(machine) == BlankSpace(numPages * PAGE_SIZE)
    {
      var clear := bitmap.NumClear();
      if numPages > clear {
        return false;
      }
      TakePages(bitmap, machine);
      TakenBlank(old(machine.mainMemory), physicalPage, machine.mainMemory);
      BlankIs(Space(machine));
      return true;
    }

    /** The destructor: gives every frame back. */
    method Free(bitmap: Bitmap)
      requires Valid() && bitmap.Valid() && bitmap.numBits == NUM_PHYS_PAGES
      modifies bitmap.words
      ensures Released(old(bitmap.Marks()), physicalPage, bitmap.Marks())
    {
      for i := 0 to numPages
        invariant bitmap.Marks() == old(bitmap.Marks()) - FrameSet(physicalPage[..i])
      {
        FramesOkAt(physicalPage, i);
        WritableAt(flags, i, flags[i]);
        if flags[i].valid {
          bitmap.Clear(physicalPage[i]);
        }
        FrameSetNext(physicalPage, i);
      }
      assert physicalPage[..numPages] == physicalPage;
    }

    /** Finds the frame and the offset of a virtual address, and sets the use and dirty bits. */
    method Translate(vaddr: nat, isReadWrite: bool) returns (e: ExceptionType, pfn: nat, offset: nat)
      requires Valid()
      modifies this`flags
      ensures Valid()
      ensures e == if vaddr < numPages * PAGE_SIZE then NoException else AddressErrorException
      ensures e == NoException ==>
                pfn < NUM_PHYS_PAGES && pfn == physicalPage[vaddr / PAGE_SIZE] && offset == vaddr % PAGE_SIZE
      ensures e != NoException ==> flags == old(flags)
      ensures e == NoException ==>
                |flags| == |old(flags)| && flags == old(flags)[vaddr / PAGE_SIZE := flags[vaddr / PAGE_SIZE]]
      ensures e == NoException ==>
                && flags[vaddr / PAGE_SIZE].use
                && flags[vaddr / PAGE_SIZE].dirty == (isReadWrite || old(flags)[vaddr / PAGE_SIZE].dirty)
    {
      var vpn := vaddr / PAGE_SIZE;
      offset, pfn := vaddr % PAGE_SIZE, 0;
      if vpn >= numPages {
        return AddressErrorException, pfn, offset;
      }
      FramesOkAt(physicalPage, vpn);
      var pte := flags[vpn];
      WritableAt(flags, vpn, pte.(use := true, dirty := pte.dirty || isReadWrite));
      if isReadWrite && pte.readOnly {
        return ReadOnlyException, pfn, offset;
      }
      pfn := physicalPage[vpn];
      if pfn >= NUM_PHYS_PAGES {
        return BusErrorException, pfn, offset;
      }
      flags := flags[vpn := pte.(use := true, dirty := pte.dirty || isReadWrite)];
      return NoException, pfn, offset;
    }

    /** Writes bytes that stay within one page. */
    method WriteInPage(machine: Machine, bytes: seq<Byte>, vpn: nat, offset: nat)
      requires Valid() && vpn < numPages && offset + |bytes| <= PAGE_SIZE
      modifies this`flags, machine
      ensures Valid() && OthersKept(FrameSet(physicalPage), old(machine.mainMemory), machine.mainMemory)
      ensures Space(machine) == Splice(old(Space(machine)), vpn * PAGE_SIZE + offset, bytes)
    {
      FramesOkAt(physicalPage, vpn);
      ViewWrite(machine.mainMemory, physicalPage, vpn, offset, bytes);
      var pfn := physicalPage[vpn];
      WritableAt(flags, vpn, flags[vpn].(use := true, dirty := true));
      flags := flags[vpn := flags[vpn].(use := true, dirty := true)];
      IsKept(FrameSet(physicalPage), machine.mainMemory,
             machine.mainMemory[pfn := Splice(machine.mainMemory[pfn], offset, bytes)], NUM_PHYS_PAGES);
      machine.mainMemory := machine.mainMemory[pfn := Splice(machine.mainMemory[pfn], offset, bytes)];
    }

    /**
      The next part of a copy that started at `virtualAddr` in `space` and has come as far as `copied`, taking
      it to `next`.
     */
    method CopyOn(machine: Machine, bytes: seq<Byte>, vpn: nat, offset: nat, ghost space: seq<Byte>,
                  ghost virtualAddr: nat, ghost done: nat, ghost copied: seq<Byte>, ghost next: seq<Byte>)
      requires Valid() && vpn < numPages && offset + |bytes| <= PAGE_SIZE
      requires vpn * PAGE_SIZE + offset == virtualAddr + done
      requires |copied| <= done && (|copied| < done ==> bytes == []) && virtualAddr + done + |bytes| <= |space|
      requires next == copied + bytes
      requires Space(machine) == Overlay(space, virtualAddr, copied)
      modifies this`flags, machine
      ensures Valid() && OthersKept(FrameSet(physicalPage), old(machine.mainMemory), machine.mainMemory)
      ensures Space(machine) == Overlay(space, virtualAddr, next)
    {
      OverlayIsSplice(space, virtualAddr, copied);
      OverlayIsSplice(space, virtualAddr, next);
      SpliceOn(space, virtualAddr, done, copied, bytes);
      WriteInPage(machine, bytes, vpn, offset);
    }

    /** The loop of CopyFromBuffer. */
    method CopyPages(machine: Machine, buf: seq<Byte>, virtualAddr: nat)
      requires Valid() && virtualAddr + |buf| <= numPages * PAGE_SIZE
      modifies this`flags, machine
      ensures Valid() && OthersKept(FrameSet(physicalPage), old(machine.mainMemory), machine.mainMemory)
      ensures Space(machine) == Overlay(old(Space(machine)), virtualAddr, buf)
    {
      ghost var own, m, space := FrameSet(physicalPage), machine.mainMemory, Space(machine);
      IsKept(own, m, m, NUM_PHYS_PAGES);
      var done := 0;
      while done < |buf|
        invariant done <= |buf| && Valid()
        invariant OthersKept(own, m, machine.mainMemory)
        invariant Space(machine) == Overlay(space, virtualAddr, buf[..done])
      {
        var vpn, offset, amount := Chunk(virtualAddr + done, |buf| - done);
        ghost var m1 := machine.mainMemory;
        SliceJoin(buf, done, done + amount);
        CopyOn(machine, buf[done..done + amount], vpn, offset, space, virtualAddr, done, buf[..done],
               buf[..done + amount]);
        KeptThrough(own, m, m1, machine.mainMemory, NUM_PHYS_PAGES);
        done := done + amount;
      }
      WholeSlice(buf);
    }

    /** Copies a buffer page by page: in the address space, one flat write. */
    method CopyFromBuffer(machine: Machine, buf: seq<Byte>, virtualAddr: nat)
      requires Valid() && virtualAddr + |buf| <= numPages * PAGE_SIZE
      modifies this`flags, machine
      ensures Valid() && OthersKept(FrameSet(physicalPage), old(machine.mainMemory), machine.mainMemory)
      ensures Space(machine) == Splice(old(Space(machine)), virtualAddr, buf)
    {
      OverlayIsSplice(Space(machine), virtualAddr, buf);
      CopyPages(machine, buf, virtualAddr);
    }

    /** One turn of the loop of CopyFromFile; it overruns where the page is not in the table. */
    method CopyFileChunk(machine: Machine, file: seq<Byte>, inFileAddr: nat, size: nat, virtualAddr: nat, done: nat,
                         ghost space: seq<Byte>)
      returns (ok: bool, amount: nat)
      requires Valid() && done < size && |space| == numPages * PAGE_SIZE && (done == 0 || virtualAddr + done <= |space|)
      requires Space(machine) == Overlay(space, virtualAddr, Available(file, inFileAddr, done))
      modifies this`flags, machine
      ensures Valid() && OthersKept(FrameSet(physicalPage), old(machine.mainMemory), machine.mainMemory)
      ensures !ok ==> virtualAddr + size > |space|
      ensures ok ==> 0 < amount <= size - done && virtualAddr + done + amount <= |space|
      ensures ok ==> Space(machine) == Overlay(space, virtualAddr, Available(file, inFileAddr, done + amount))
    {
      var vpn, offset;
      vpn, offset, amount := Chunk(virtualAddr + done, size - done);
      if vpn >= numPages {
        IsKept(FrameSet(physicalPage), machine.mainMemory, machine.mainMemory, NUM_PHYS_PAGES);
        return false, amount;
      }
      var data := Available(file, inFileAddr + done, amount);
      AvailableNext(file, inFileAddr, done, amount);
      CopyOn(machine, data, vpn, offset, space, virtualAddr, done, Available(file, inFileAddr, done),
             Available(file, inFileAddr, done + amount));
      return true, amount;
    }

    /** The loop of CopyFromFile. */
    method CopyFilePages(machine: Machine, file: seq<Byte>, inFileAddr: nat, size: nat, virtualAddr: nat)
      returns (ok: bool)
      requires Valid()
      modifies this`flags, machine
      ensures Valid() && OthersKept(FrameSet(physicalPage), old(machine.mainMemory), machine.mainMemory)
      ensures ok <==> size == 0 || virtualAddr + size <= numPages * PAGE_SIZE
      ensures ok ==> Space(machine) == Overlay(old(Space(machine)), virtualAddr, Available(file, inFileAddr, size))
    {
      ghost var own, m, space := FrameSet(physicalPage), machine.mainMemory, Space(machine);
      IsKept(own, m, m, NUM_PHYS_PAGES);
      var done := 0;
      while done < size
        invariant done <= size && Valid() && (done == 0 || virtualAddr + done <= |space|)
        invariant OthersKept(own, m, machine.mainMemory)
        invariant Space(machine) == Overlay(space, virtualAddr, Available(file, inFileAddr, done))
      {
        ghost var m1 := machine.mainMemory;
        var inside, amount := CopyFileChunk(machine, file, inFileAddr, size, virtualAddr, done, space);
        KeptThrough(own, m, m1, machine.mainMemory, NUM_PHYS_PAGES);
        if !inside {
          return false;
        }
        done := done + amount;
      }
      return true;
    }

    /**
      The same from a file, as far as the file goes. It overruns exactly when it reaches outside the address
      space or in front of the file; where it would start there, its first access does.
     */
    method CopyFromFile(machine: Machine, file: seq<Byte>, inFileAddr: Int32, size: Int32, virtualAddr: Int32)
      returns (r: Outcome<()>)
      requires Valid()
      modifies this`flags, machine
      ensures Valid() && OthersKept(FrameSet(physicalPage), old(machine.mainMemory), machine.mainMemory)
      ensures r.Done? <==> InRange(inFileAddr, size, virtualAddr, numPages * PAGE_SIZE)
      ensures r.Done? && size > 0 ==>
                Space(machine) == Splice(old(Space(machine)), virtualAddr, Available(file, inFileAddr, size))
      ensures r.Done? && size <= 0 ==> Space(machine) == old(Space(machine))
    {
      IsKept(FrameSet(physicalPage), machine.mainMemory, machine.mainMemory, NUM_PHYS_PAGES);
      if size <= 0 {
        return Done(());
      }
      if inFileAddr < 0 || virtualAddr < 0 {
        return Overrun;
      }
      ghost var space := Space(machine);
      var ok := CopyFilePages(machine, file, inFileAddr, size, virtualAddr);
      if !ok {
        return Overrun;
      }
      OverlayIsSplice(space, virtualAddr, Available(file, inFileAddr, size));
      return Done(());
    }

    /** A store through Translate, of bytes that stay within one page. */
    method StoreAt(machine: Machine, bytes: seq<Byte>, virtualAddr: nat)
      requires Valid() && virtualAddr % PAGE_SIZE + |bytes| <= PAGE_SIZE && virtualAddr < numPages * PAGE_SIZE
      modifies this`flags, machine
      ensures Valid() && OthersKept(FrameSet(physicalPage), old(machine.mainMemory), machine.mainMemory)
      ensures virtualAddr + |bytes| <= numPages * PAGE_SIZE
      ensures Space(machine) == Splice(old(Space(machine)), virtualAddr, bytes)
    {
      var e, pfn, offset := Translate(virtualAddr, true);
      assert e == NoException;
      FramesOkAt(physicalPage, virtualAddr / PAGE_SIZE);
      ViewWrite(machine.mainMemory, physicalPage, virtualAddr / PAGE_SIZE, offset, bytes);
      IsKept(FrameSet(physicalPage), machine.mainMemory,
             machine.mainMemory[pfn := Splice(machine.mainMemory[pfn], offset, bytes)], NUM_PHYS_PAGES);
      machine.mainMemory := machine.mainMemory[pfn := Splice(machine.mainMemory[pfn], offset, bytes)];
    }

    /** Copies the segments of a program, up to one that overruns. */
    method CopySegments(machine: Machine, file: seq<Byte>, segments: seq<Segment>) returns (r: Outcome<()>)
      requires Valid()
      modifies this`flags, machine
      ensures Valid() && OthersKept(FrameSet(physicalPage), old(machine.mainMemory), machine.mainMemory)
      ensures r.Done? <==> SegmentsFit(segments, |segments|, numPages * PAGE_SIZE)
      ensures r.Done? ==> Space(machine) == Image(old(Space(machine)), file, segments, |segments|)
    {
      ghost var own, m, space := FrameSet(physicalPage), machine.mainMemory, Space(machine);
      IsKept(own, m, m, NUM_PHYS_PAGES);
      for i := 0 to |segments|
        invariant Valid() && SegmentsFit(segments, i, |space|)
        invariant OthersKept(own, m, machine.mainMemory)
        invariant Space(machine) == Image(space, file, segments, i)
      {
        if segments[i].size > 0 {
          ghost var m1 := machine.mainMemory;
          var copied := CopyFromFile(machine, file, segments[i].inFileAddr, segments[i].size, segments[i].virtualAddr);
          KeptThrough(own, m, m1, machine.mainMemory, NUM_PHYS_PAGES);
          if copied.Overrun? {
            NoneFit(segments, i + 1, |segments|, |space|);
            return Overrun;
          }
        }
      }
      return Done(());
    }

    /** One turn of the loop of PlaceArgs, from the memory `m` and the address space `v` that the loop began with. */
    method PlaceArg(machine: Machine, args: seq<seq<Byte>>, i: nat, argAddr: nat, strAddr: nat, ghost base: nat,
                    ghost m: Memory, ghost v: seq<Byte>)
      returns (nextArg: nat, nextStr: nat)
      requires Valid() && i < |args| && WordAligned(base) && argAddr == base + 4 * i
      requires strAddr == ArgumentAddress(base, args, i)
      requires OthersKept(FrameSet(physicalPage), m, machine.mainMemory)
      requires Placed(Space(machine), base, args, i) && SameRange(v, Space(machine), 0, base)
      requires SameRange(v, Space(machine), base + 4 * i, StringsAt(base, |args|))
      modifies this`flags, machine
      ensures Valid() && nextArg == base + 4 * (i + 1) && nextStr == ArgumentAddress(base, args, i + 1)
      ensures OthersKept(FrameSet(physicalPage), m, machine.mainMemory)
      ensures Placed(Space(machine), base, args, i + 1) && SameRange(v, Space(machine), 0, base)
      ensures SameRange(v, Space(machine), base + 4 * (i + 1), StringsAt(base, |args|))
    {
      ghost var m1, v1 := machine.mainMemory, Space(machine);
      NextAddress(base, args, i);
      AlignedWord(base, i);
      WriteArg(machine, AddressBytes(strAddr), argAddr, args[i] + [0], strAddr);
      KeptThrough(FrameSet(physicalPage), m, m1, machine.mainMemory, NUM_PHYS_PAGES);
      ArgWritten(v, v1, base, args, i, strAddr, Space(machine));
      return argAddr + 4, strAddr + |args[i]| + 1;
    }

    /** Writes one argument: its address into the table, then its bytes. */
    method WriteArg(machine: Machine, word: seq<Byte>, argAddr: nat, str: seq<Byte>, strAddr: nat)
      requires Valid() && |word| == 4 && argAddr % PAGE_SIZE + 4 <= PAGE_SIZE && argAddr < numPages * PAGE_SIZE
      requires strAddr + |str| <= numPages * PAGE_SIZE
      modifies this`flags, machine
      ensures Valid() && OthersKept(FrameSet(physicalPage), old(machine.mainMemory), machine.mainMemory)
      ensures argAddr + 4 <= numPages * PAGE_SIZE
      ensures Space(machine) == Splice(Splice(old(Space(machine)), argAddr, word), strAddr, str)
    {
      ghost var m := machine.mainMemory;
      StoreAt(machine, word, argAddr);
      ghost var m1 := machine.mainMemory;
      CopyFromBuffer(machine, str, strAddr);
      KeptThrough(FrameSet(physicalPage), m, m1, machine.mainMemory, NUM_PHYS_PAGES);
    }

    /** Writes the table and the strings of the arguments, and the first byte of the word that ends the table. */
    method PlaceArgs(machine: Machine, args: seq<seq<Byte>>, base: nat)
      requires Valid() && WordAligned(base) && ArgumentAddress(base, args, |args|) <= numPages * PAGE_SIZE
      modifies this`flags, machine
      ensures Valid() && OthersKept(FrameSet(physicalPage), old(machine.mainMemory), machine.mainMemory)
      ensures Placed(Space(machine), base, args, |args|) && SameRange(old(Space(machine)), Space(machine), 0, base)
      ensures Ended(old(Space(machine)), Space(machine), base, |args|)
    {
      ghost var own, m, v := FrameSet(physicalPage), machine.mainMemory, Space(machine);
      IsKept(own, m, m, NUM_PHYS_PAGES);
      var argAddr, strAddr := base, StringsAt(base, |args|);
      for i := 0 to |args|
        invariant Valid()
        invariant OthersKept(own, m, machine.mainMemory)
        invariant argAddr == base + 4 * i && strAddr == ArgumentAddress(base, args, i)
        invariant Placed(Space(machine), base, args, i) && SameRange(v, Space(machine), 0, base)
        invariant SameRange(v, Space(machine), base + 4 * i, StringsAt(base, |args|))
      {
        argAddr, strAddr := PlaceArg(machine, args, i, argAddr, strAddr, base, m, v);
      }
      ghost var m2, v2 := machine.mainMemory, Space(machine);
      EndTable(machine, argAddr, args, base);
      KeptThrough(own, m, m2, machine.mainMemory, NUM_PHYS_PAGES);
      SameThrough(v, v2, Space(machine), 0, base);
      SameThrough(v, v2, Space(machine), argAddr + 1, argAddr + 4);
    }

    /** Writes one zero byte where the word that ends the table is. */
    method EndTable(machine: Machine, argAddr: nat, ghost args: seq<seq<Byte>>, ghost base: nat)
      requires Valid() && WordAligned(base) && argAddr == base + 4 * |args|
      requires Placed(Space(machine), base, args, |args|)
      requires StringsAt(base, |args|) <= numPages * PAGE_SIZE
      modifies this`flags, machine
      ensures Valid() && OthersKept(FrameSet(physicalPage), old(machine.mainMemory), machine.mainMemory)
      ensures Placed(Space(machine), base, args, |args|) && SameRange(old(Space(machine)), Space(machine), 0, base)
      ensures Ended(old(Space(machine)), Space(machine), base, |args|)
    {
      ghost var v := Space(machine);
      AlignedWord(base, |args|);
      StoreAt(machine, [0], argAddr);
      EndKeeps(v, base, args, argAddr, Space(machine));
    }

    /**
      Makes an address space for a program and its arguments; a load that fails takes no frames. The
      segments are those of the program's header, which nothing checks: one that reaches outside the
      address space overruns, one that reaches into the arguments is overwritten by them. Sizes may be
      negative; the sum of all sizes wraps around, and may then leave no room for the arguments, which
      overruns too.
     */
    method Load(bitmap: Bitmap, machine: Machine, executable: Option<seq<Byte>>, segments: seq<Segment>,
                uninitSize: Int32, args: seq<seq<Byte>>)
      returns (r: Outcome<bool>)
      requires physicalPage == [] && flags == [] && bitmap.Valid() && bitmap.numBits == NUM_PHYS_PAGES
      requires PagesFor(segments, uninitSize, args) <= NUM_PHYS_PAGES
      modifies this, bitmap.words, machine
      ensures r == Done(false) <==>
                executable.None? || |old(bitmap.Marks())| + PagesFor(segments, uninitSize, args) > NUM_PHYS_PAGES
      ensures r.Overrun? <==>
                && executable.Some? && |old(bitmap.Marks())| + PagesFor(segments, uninitSize, args) <= NUM_PHYS_PAGES
                && !Loadable(segments, args, PagesFor(segments, uninitSize, args) * PAGE_SIZE)
      ensures r == Done(false) ==>
                && physicalPage == [] && bitmap.Marks() == old(bitmap.Marks())
                && machine.mainMemory == old(machine.mainMemory)
      ensures r == Done(true) ==>
                && Valid() && numPages == PagesFor(segments, uninitSize, args) && argSize == ArgSize(args)
                && argCount == |args|
      ensures r == Done(true) ==> Acquired(old(bitmap.Marks()), physicalPage, bitmap.Marks())
      ensures r == Done(true) ==> OthersKept(FrameSet(physicalPage), old(machine.mainMemory), machine.mainMemory)
      ensures r == Done(true) ==> ArgBase() >= 0 && WordAligned(ArgBase())
      ensures r == Done(true) ==> Loaded(Space(machine), executable.value, segments, ArgBase(), args)
    {
      if executable.None? {
        return Done(false);
      }
      argCount, argSize := |args|, ArgSize(args);
      numPages := PagesFor(segments, uninitSize, args);
      r := Make(bitmap, machine, executable.value, segments, args);
    }

    /** The part of Load that follows the computation of the sizes. */
    method Make(bitmap: Bitmap, machine: Machine, file: seq<Byte>, segments: seq<Segment>, args: seq<seq<Byte>>)
      returns (r: Outcome<bool>)
      requires physicalPage == [] && flags == [] && bitmap.Valid() && bitmap.numBits == NUM_PHYS_PAGES
      requires argSize == ArgSize(args)
      modifies this`physicalPage, this`flags, this`numPages, bitmap.words, machine
      ensures r == Done(false) <==> |old(bitmap.Marks())| + old(numPages) > NUM_PHYS_PAGES
      ensures r.Overrun? <==>
                && |old(bitmap.Marks())| + old(numPages) <= NUM_PHYS_PAGES
                && !Loadable(segments, args, old(numPages) * PAGE_SIZE)
      ensures r == Done(false) ==>
                && physicalPage == [] && bitmap.Marks() == old(bitmap.Marks())
                && machine.mainMemory == old(machine.mainMemory)
      ensures r == Done(true) ==> Valid() && numPages == old(numPages)
      ensures r == Done(true) ==> Acquired(old(bitmap.Marks()), physicalPage, bitmap.Marks())
      ensures r == Done(true) ==> OthersKept(FrameSet(physicalPage), old(machine.mainMemory), machine.mainMemory)
      ensures r == Done(true) ==> ArgBase() >= 0 && WordAligned(ArgBase())
      ensures r == Done(true) ==> Loaded(Space(machine), file, segments, ArgBase(), args)
    {
      var ok := InitPageTable(bitmap, machine);
      if !ok {
        numPages := 0;
        return Done(false);
      }
      ghost var m, m1 := old(machine.mainMemory), machine.mainMemory;
      var filled := Fill(machine, file, segments, args);
      KeptThrough(FrameSet(physicalPage), m, m1, machine.mainMemory, NUM_PHYS_PAGES);
      return if filled.Done? then Done(true) else Overrun;
    }

    /** The rest of Load, on zeroed pages. */
    method Fill(machine: Machine, file: seq<Byte>, segments: seq<Segment>, args: seq<seq<Byte>>)
      returns (r: Outcome<()>)
      requires Valid() && Space(machine) == BlankSpace(numPages * PAGE_SIZE) && argSize == ArgSize(args)
      modifies this`flags, machine
      ensures Valid() && OthersKept(FrameSet(physicalPage), old(machine.mainMemory), machine.mainMemory)
      ensures r.Done? <==> Loadable(segments, args, numPages * PAGE_SIZE)
      ensures r.Done? ==> ArgBase() >= 0 && WordAligned(ArgBase())
      ensures r.Done? ==> Loaded(Space(machine), file, segments, ArgBase(), args)
    {
      ghost var m := machine.mainMemory;
      AlignedBase(numPages, args);
      r := CopySegments(machine, file, segments);
      if r.Done? && |args| > 0 {
        if ArgBase() < 0 {
          // The first address of the table does not translate.
          return Overrun;
        }
        ghost var m1 := machine.mainMemory;
        WholeSlice(args);
        PlaceArgs(machine, args, ArgBase());
        KeptThrough(FrameSet(physicalPage), m, m1, machine.mainMemory, NUM_PHYS_PAGES);
      }
    }

    /** Where the arguments begin; InitRegisters passes this address in register 5. */
    function ArgBase(): (a: int)
      reads this
    {
      numPages * PAGE_SIZE - argSize
    }

    /** A load by the machine: bytes of the address space, or nothing when the address is not aligned or not mapped. */
    method ReadMem(machine: Machine, addr: nat, size: nat) returns (ok: bool, bytes: seq<Byte>)
      requires Valid() && (size == 1 || size == 2 || size == 4)
      modifies this`flags
      ensures Valid()
      ensures ok <==> addr % size == 0 && addr < numPages * PAGE_SIZE
      ensures ok ==>
                addr + size <= numPages * PAGE_SIZE && |bytes| == size && bytes == Space(machine)[addr..addr + size]
    {
      if (size == 4 && addr % 4 != 0) || (size == 2 && addr % 2 != 0) {
        return false, [];
      }
      var e, pfn, offset := Translate(addr, false);
      if e != NoException {
        return false, [];
      }
      WordFits(addr, size);
      ViewAt(machine.mainMemory, physicalPage, addr / PAGE_SIZE, offset, size);
      return true, machine.mainMemory[pfn][offset..offset + size];
    }

    /**
      A store by the machine: one flat write in the address space, or nothing when the address is not aligned
      or not mapped.
     */
    method WriteMem(machine: Machine, addr: nat, bytes: seq<Byte>) returns (ok: bool)
      requires Valid() && (|bytes| == 1 || |bytes| == 2 || |bytes| == 4)
      modifies this`flags, machine
      ensures Valid() && OthersKept(FrameSet(physicalPage), old(machine.mainMemory), machine.mainMemory)
      ensures ok <==> addr % |bytes| == 0 && addr < numPages * PAGE_SIZE
      ensures ok ==>
                addr + |bytes| <= numPages * PAGE_SIZE && Space(machine) == Splice(old(Space(machine)), addr, bytes)
      ensures !ok ==> machine.mainMemory == old(machine.mainMemory)
    {
      IsKept(FrameSet(physicalPage), machine.mainMemory, machine.mainMemory, NUM_PHYS_PAGES);
      if (|bytes| == 4 && addr % 4 != 0) || (|bytes| == 2 && addr % 2 != 0) || addr / PAGE_SIZE >= numPages {
        return false;
      }
      WordFits(addr, |bytes|);
      StoreAt(machine, bytes, addr);
      return true;
    }

    /** The length of a string in user memory, with its terminator. */
    method StringLength(machine: Machine, virtAddr: nat) returns (len: Option<nat>)
      requires Valid()
      modifies this`flags
      ensures Valid() && (len.None? <==> StringFrom(Space(machine), virtAddr).None?)
      ensures len.Some? ==> virtAddr + len.value <= numPages * PAGE_SIZE
      ensures len.Some? ==> StringFrom(Space(machine), virtAddr) == Some(Space(machine)[virtAddr..virtAddr + len.value])
    {
      ghost var v := Space(machine);
      var n := 0;
      while true
        invariant Valid() && NonZero(v, virtAddr, n) && (n > 0 ==> virtAddr + n <= |v|)
        decreases |v| - n
      {
        StringOn(v, virtAddr, n);
        var ok, tmp := ReadMem(machine, virtAddr + n, 1);
        if !ok {
          return None;
        }
        n := n + 1;
        if tmp == [0] {
          return Some(n);
        }
      }
    }

    /**
      Reads a string out of user memory: first its length, then its bytes with the terminator. A read that
      fails ends the process.
     */
    method StringUser2System(machine: Machine, virtAddr: nat) returns (r: Option<seq<Byte>>)
      requires Valid()
      modifies this`flags
      ensures Valid() && r == StringFrom(Space(machine), virtAddr)
    {
      ghost var v := Space(machine);
      var len := StringLength(machine, virtAddr);
      if len.None? {
        return None;
      }
      var buffer := [];
      for i := 0 to len.value
        invariant Valid() && buffer == v[virtAddr..virtAddr + i]
      {
        var ok, tmp := ReadMem(machine, virtAddr + i, 1);
        SliceOn(v, virtAddr, i);
        buffer := buffer + tmp;
      }
      return Some(buffer);
    }

    /** The way the system call ExecV reads the table and the strings. A read that fails ends the process. */
    method ReadArgv(machine: Machine, argc: nat, argvUser: nat) returns (r: Option<seq<seq<Byte>>>)
      requires Valid()
      modifies this`flags
      ensures Valid() && r == ArgvFrom(Space(machine), argvUser, argc)
    {
      ghost var v := Space(machine);
      r := Some([]);
      for i := 0 to argc
        invariant Valid() && r == ArgvFrom(v, argvUser, i) && r.Some?
      {
        r := ReadNext(machine, argvUser, i, r.value);
        if r.None? {
          NoneAfter(v, argvUser, i + 1, argc);
          return;
        }
      }
    }

    /** One turn of the loop. */
    method ReadNext(machine: Machine, argvUser: nat, i: nat, argv: seq<seq<Byte>>)
      returns (next: Option<seq<seq<Byte>>>)
      requires Valid() && ArgvFrom(Space(machine), argvUser, i) == Some(argv)
      modifies this`flags
      ensures Valid() && next == ArgvFrom(Space(machine), argvUser, i + 1)
    {
      var str := ReadArg(machine, argvUser, i);
      return if str.None? then None else Some(argv + [str.value]);
    }

    /** Reads one argument through the table. */
    method ReadArg(machine: Machine, argvUser: nat, i: nat) returns (str: Option<seq<Byte>>)
      requires Valid()
      modifies this`flags
      ensures Valid() && str == ArgFrom(Space(machine), argvUser, i)
    {
      var ok, word := ReadMem(machine, argvUser + i * 4, 4);
      if !ok {
        return None;
      }
      FourOf(Space(machine), argvUser + i * 4);
      str := StringUser2System(machine, DecodeWord(word));
    }
  }

  /** No zero among the first `n` bytes from `a` on. */
  ghost predicate NonZero(v: seq<Byte>, a: nat, n: nat)
  {
    n == 0 || (NonZero(v, a, n - 1) && a + n <= |v| && v[a + n - 1] != 0)
  }

  /** The bytes from `a` on, up to the first zero. */
  ghost function StringFrom(v: seq<Byte>, a: nat): (r: Option<seq<Byte>>)
    decreases |v| - a
  {
    if a >= |v| then None
    else if v[a] == 0 then Some([0])
    else if StringFrom(v, a + 1).None? then None
    else Some([v[a]] + StringFrom(v, a + 1).value)
  }

  /** What is left to find behind bytes that are not zero. */
  lemma {:induction false} StringOn(v: seq<Byte>, a: nat, n: nat)
    requires NonZero(v, a, n) && (n > 0 ==> a + n <= |v|)
    ensures StringFrom(v, a).None? <==> StringFrom(v, a + n).None?
    ensures n > 0 && StringFrom(v, a + n).Some? ==> StringFrom(v, a).value == v[a..a + n] + StringFrom(v, a + n).value
    ensures a + n < |v| && v[a + n] == 0 ==> StringFrom(v, a) == Some(v[a..a + n + 1])
  {
    if n > 0 {
      StringOn(v, a, n - 1);
      assert v[a..a + n] == v[a..a + n - 1] + [v[a + n - 1]];
    }
    if a + n < |v| && v[a + n] == 0 {
      assert v[a..a + n + 1] == v[a..a + n] + [0];
      assert n == 0 ==> v[a..a + n + 1] == [0];
    }
  }

  lemma SliceOn<T>(v: seq<T>, a: nat, i: nat)
    requires a + i < |v|
    ensures v[a..a + i + 1] == v[a..a + i] + v[a + i..a + i + 1]
  {
  }

  lemma FourOf<T>(v: seq<T>, a: nat)
    requires a + 4 <= |v|
    ensures v[a..a + 4] == [v[a], v[a + 1], v[a + 2], v[a + 3]]
  {
  }

  /** What word `i` of a table points to. */
  ghost function ArgFrom(v: seq<Byte>, table: nat, i: nat): (r: Option<seq<Byte>>)
  {
    var a := table + i * 4;
    if a % 4 != 0 || a + 4 > |v| then None else StringFrom(v, DecodeWord([v[a], v[a + 1], v[a + 2], v[a + 3]]))
  }

  /** What the first `n` words point to, when all of them do. */
  ghost function ArgvFrom(v: seq<Byte>, table: nat, n: nat): (r: Option<seq<seq<Byte>>>)
  {
    if n == 0 then Some([])
    else if ArgvFrom(v, table, n - 1).None? || ArgFrom(v, table, n - 1).None? then None
    else Some(ArgvFrom(v, table, n - 1).value + [ArgFrom(v, table, n - 1).value])
  }

  lemma {:induction false} NoneAfter(v: seq<Byte>, table: nat, i: nat, n: nat)
    requires i <= n && ArgvFrom(v, table, i).None?
    ensures ArgvFrom(v, table, n).None?
  {
    if i < n {
      NoneAfter(v, table, i, n - 1);
    }
  }

  /** A terminated string is found from its first byte on. */
  lemma {:induction false} StringIs(v: seq<Byte>, a: nat, str: seq<Byte>, n: nat)
    requires StringAt(v, a, str) && n <= |str| && forall k :: 0 <= k < |str| ==> str[k] != 0
    ensures NonZero(v, a, n) && (n > 0 ==> a + n <= |v|) && StringFrom(v, a + |str|) == Some([0])
  {
    StringByteAt(v, a, str, |str|);
    if n > 0 {
      StringByteAt(v, a, str, n - 1);
      StringIs(v, a, str, n - 1);
    }
  }

  lemma {:induction false} StringRead(v: seq<Byte>, a: nat, str: seq<Byte>)
    requires StringAt(v, a, str) && forall k :: 0 <= k < |str| ==> str[k] != 0
    ensures StringFrom(v, a) == Some(str + [0])
  {
    StringIs(v, a, str, |str|);
    StringOn(v, a, |str|);
    forall k | 0 <= k <= |str|
      ensures a + k < |v| && v[a + k] == (str + [0])[k]
    {
      StringByteAt(v, a, str, k);
    }
    assert v[a..a + |str| + 1] == str + [0];
  }

  /** The arguments, each with its terminator. */
  function Terminated(args: seq<seq<Byte>>): (r: seq<seq<Byte>>)
    ensures |r| == |args|
  {
    if args == [] then [] else Terminated(args[..|args| - 1]) + [args[|args| - 1] + [0]]
  }

  /** What was placed is what is read. */
  lemma {:induction false} ArgvIs(v: seq<Byte>, base: nat, args: seq<seq<Byte>>, n: nat)
    requires Placed(v, base, args, |args|) && NoZeros(args) && n <= |args| && |v| < WORD_VALUES && WordAligned(base)
    ensures ArgvFrom(v, base, n) == Some(Terminated(args[..n]))
  {
    if n > 0 {
      ArgvIs(v, base, args, n - 1);
      ArgIs(v, base, args, n - 1);
      assert args[..n][..n - 1] == args[..n - 1];
    }
  }

  lemma {:induction false} ArgIs(v: seq<Byte>, base: nat, args: seq<seq<Byte>>, i: nat)
    requires Placed(v, base, args, |args|) && NoZeros(args) && i < |args| && |v| < WORD_VALUES && WordAligned(base)
    ensures ArgFrom(v, base, i) == Some(args[i] + [0])
  {
    WordAlignedIs(base);
    ArgumentFound(v, base, args, i, base + i * 4);
    FourOf(v, base + i * 4);
    StringRead(v, ArgumentAddress(base, args, i), args[i]);
  }

  /** A program that hands its own arguments to ExecV passes on exactly what it was given, wherever its segments lie. */
  method ArgumentsRoundTrip(space: AddrSpace, bitmap: Bitmap, machine: Machine, executable: Option<seq<Byte>>,
                            segments: seq<Segment>, uninitSize: Int32, args: seq<seq<Byte>>)
    returns (r: Outcome<bool>, argv: Option<seq<seq<Byte>>>)
    requires space.physicalPage == [] && space.flags == [] && bitmap.Valid() && bitmap.numBits == NUM_PHYS_PAGES
    requires NoZeros(args)
    requires PagesFor(segments, uninitSize, args) <= NUM_PHYS_PAGES
    modifies space, bitmap.words, machine
    ensures r == Done(true) ==> argv == Some(Terminated(args))
  {
    argv := None;
    r := space.Load(bitmap, machine, executable, segments, uninitSize, args);
    if r == Done(true) {
      argv := space.ReadArgv(machine, space.argCount, space.ArgBase());
      if args != [] {
        ArgvIs(space.Space(machine), space.ArgBase(), args, |args|);
        WholeSlice(args);
      }
    }
  }

  /** The arguments are C strings. */
  ghost predicate NoZeros(args: seq<seq<Byte>>)
  {
    forall i, k :: 0 <= i < |args| && 0 <= k < |args[i]| ==> args[i][k] != 0
  }

  /** A terminated string at an address. */
  ghost predicate StringAt(v: seq<Byte>, a: nat, str: seq<Byte>)
  {
    HasBytes(v, a, str + [0], |str| + 1)
  }

  /** Byte `i` of a string in memory, the terminator being the last. */
  lemma StringByteAt(v: seq<Byte>, a: nat, str: seq<Byte>, i: nat)
    requires StringAt(v, a, str) && i <= |str| && forall k :: 0 <= k < |str| ==> str[k] != 0
    ensures a + i < |v| && v[a + i] == (str + [0])[i] && (v[a + i] == 0 <==> i == |str|)
    ensures v[a + i..a + i + 1] == [v[a + i]]
  {
    ByteFound(v, a, str + [0], |str| + 1, i);
  }

  /** Argument `i` is found by following word `i` of the table. */
  lemma ArgumentFound(v: seq<Byte>, base: nat, args: seq<seq<Byte>>, i: nat, a: nat)
    requires Placed(v, base, args, |args|) && i < |args| && |v| < WORD_VALUES && a == base + i * 4
    ensures a + 4 <= |v| && a % 4 == base % 4 && DecodeWord(v[a..a + 4]) == ArgumentAddress(base, args, i)
    ensures StringAt(v, ArgumentAddress(base, args, i), args[i])
  {
    Found(v, base, args, |args|, i);
    NextAddress(base, args, i);
    SameAlignment(base, i);
    AddressFound(v, a, ArgumentAddress(base, args, i));
  }

  lemma SameAlignment(base: nat, i: nat)
    ensures (base + i * 4) % 4 == base % 4
  {
  }

  lemma {:induction false} AddressFound(v: seq<Byte>, a: nat, address: nat)
    requires HasBytes(v, a, AddressBytes(address), 4) && address < WORD_VALUES
    ensures a + 4 <= |v| && DecodeWord(v[a..a + 4]) == address
  {
    SmallAddress(address);
    WordFound(v, a, AddressBytes(address));
  }

  lemma {:induction false} WordFound(v: seq<Byte>, a: nat, word: seq<Byte>)
    requires |word| == 4 && HasBytes(v, a, word, 4)
    ensures a + 4 <= |v| && v[a..a + 4] == word
  {
    ByteFound(v, a, word, 4, 0);
    ByteFound(v, a, word, 4, 1);
    ByteFound(v, a, word, 4, 2);
    ByteFound(v, a, word, 4, 3);
  }

  lemma WordFits(addr: nat, size: nat)
    requires (size == 1 || size == 2 || size == 4) && addr % size == 0
    ensures addr % PAGE_SIZE + size <= PAGE_SIZE
  {
  }

  lemma SmallAddress(a: nat)
    requires a < WORD_VALUES
    ensures DecodeWord(AddressBytes(a)) == a
  {
    WordRoundTrip(a);
  }

  /** The words that the arguments take. */
  function ArgWords(args: seq<seq<Byte>>): (n: nat)
    ensures args != [] ==> 4 * (|args| + 1) + |Strings(args)| <= n * 4
  {
    DivRoundUp(if args == [] then 0 else 4 * (|args| + 1) + |Strings(args)|, 4)
  }

  /** The room that the arguments take, rounded up to words. */
  function ArgSize(args: seq<seq<Byte>>): (n: nat)
    ensures args != [] ==> 4 * (|args| + 1) + |Strings(args)| <= n
  {
    ArgWords(args) * 4
  }

  function SegmentsSize(segments: seq<Segment>): (n: int)
  {
    if segments == [] then 0 else SegmentsSize(segments[..|segments| - 1]) + segments[|segments| - 1].size
  }

  /** The number of pages for the segments, the stack and the arguments, from a sum that is an unsigned integer. */
  function PagesFor(segments: seq<Segment>, uninitSize: Int32, args: seq<seq<Byte>>): (n: nat)
  {
    DivRoundUp((SegmentsSize(segments) + uninitSize + USER_STACK_SIZE + ArgSize(args)) % WORD_VALUES, PAGE_SIZE)
  }

  /** A multiple of the size of a word. */
  ghost predicate WordAligned(a: nat)
  {
    a == 0 || (a >= 4 && WordAligned(a - 4))
  }

  lemma {:induction false} WordAlignedIs(a: nat)
    ensures WordAligned(a) <==> a % 4 == 0
  {
    if a >= 4 {
      WordAlignedIs(a - 4);
    }
  }

  lemma {:induction false} WordMultiple(k: nat)
    ensures WordAligned(4 * k)
  {
    if k > 0 {
      WordMultiple(k - 1);
    }
  }

  lemma {:induction false} AlignedBase(numPages: nat, args: seq<seq<Byte>>)
    ensures numPages * PAGE_SIZE >= ArgSize(args) ==> WordAligned(numPages * PAGE_SIZE - ArgSize(args))
  {
    var k := 32 * numPages - ArgWords(args);
    if k >= 0 {
      WordMultiple(k);
    }
  }

  /** A part of a program, as its header gives it. */
  datatype Segment = Segment(inFileAddr: Int32, size: Int32, virtualAddr: Int32)

  /** A copy of so many bytes reaches neither outside an address space of `limit` bytes nor before the file. */
  predicate InRange(inFileAddr: int, size: int, virtualAddr: int, limit: int)
  {
    size <= 0 || (0 <= inFileAddr && 0 <= virtualAddr && virtualAddr + size <= limit)
  }

  /** The first `n` segments are in range. */
  predicate SegmentsFit(segments: seq<Segment>, n: nat, limit: int)
    requires n <= |segments|
  {
    || n == 0
    || (&& SegmentsFit(segments, n - 1, limit)
        && InRange(segments[n - 1].inFileAddr, segments[n - 1].size, segments[n - 1].virtualAddr, limit))
  }

  lemma {:induction false} NoneFit(segments: seq<Segment>, i: nat, n: nat, limit: int)
    requires i <= n <= |segments| && !SegmentsFit(segments, i, limit)
    ensures !SegmentsFit(segments, n, limit)
  {
    if i < n {
      NoneFit(segments, i, n - 1, limit);
    }
  }

  /** The segments are in range, and there is room for the arguments. */
  predicate Loadable(segments: seq<Segment>, args: seq<seq<Byte>>, size: nat)
  {
    SegmentsFit(segments, |segments|, size) && (args == [] || ArgSize(args) <= size)
  }

  /** All bytes from `base` on are zero. */
  ghost predicate ZeroFrom(v: seq<Byte>, base: nat)
  {
    ZeroRange(v, base, |v|)
  }

  /** An address space with one segment copied in. */
  ghost function Over(v: seq<Byte>, file: seq<Byte>, segment: Segment): (r: seq<Byte>)
    requires InRange(segment.inFileAddr, segment.size, segment.virtualAddr, |v|)
    ensures |r| == |v|
  {
    if segment.size <= 0 then v else Splice(v, segment.virtualAddr, Available(file, segment.inFileAddr, segment.size))
  }

  /** With the first `n` segments copied in, one after another. */
  ghost function Image(v: seq<Byte>, file: seq<Byte>, segments: seq<Segment>, n: nat): (r: seq<Byte>)
    requires n <= |segments| && SegmentsFit(segments, n, |v|)
    ensures |r| == |v|
  {
    if n == 0 then v else Over(Image(v, file, segments, n - 1), file, segments[n - 1])
  }

  ghost function BlankSpace(size: nat): (v: seq<Byte>)
    ensures |v| == size
  {
    if size == 0 then [] else BlankSpace(size - 1) + [0]
  }

  lemma {:induction false} BlankIs(v: seq<Byte>)
    requires ZeroFrom(v, 0)
    ensures v == BlankSpace(|v|)
  {
    BlankPrefix(v, |v|);
    WholeSlice(v);
  }

  lemma {:induction false} BlankPrefix(v: seq<Byte>, n: nat)
    requires n <= |v| && ZeroRange(v, 0, n)
    ensures v[..n] == BlankSpace(n)
  {
    if n > 0 {
      BlankPrefix(v, n - 1);
      assert v[..n] == v[..n - 1] + [v[n - 1]];
    }
  }

  lemma {:induction false} BlankZero(size: nat, n: nat)
    requires n <= size
    ensures ZeroRange(BlankSpace(size), 0, n)
  {
    if n > 0 {
      BlankZero(size, n - 1);
      BlankAt(size, n - 1);
    }
  }

  lemma {:induction false} BlankAt(size: nat, k: nat)
    requires k < size
    ensures BlankSpace(size)[k] == 0
  {
    if k < size - 1 {
      BlankAt(size - 1, k);
    }
  }

  /** The program alone, over zeros. */
  ghost function Program(file: seq<Byte>, segments: seq<Segment>, size: nat): (v: seq<Byte>)
    requires SegmentsFit(segments, |segments|, size)
    ensures |v| == size
  {
    Image(BlankSpace(size), file, segments, |segments|)
  }

  /**
    Below `base` the address space holds the program; from there on, if there are any, the arguments, whose
    table ends in what the program leaves there.
   */
  ghost predicate Loaded(v: seq<Byte>, file: seq<Byte>, segments: seq<Segment>, base: int, args: seq<seq<Byte>>)
  {
    && 0 <= base <= |v| && SegmentsFit(segments, |segments|, |v|) && SameRange(Program(file, segments, |v|), v, 0, base)
    && (args != [] ==> Placed(v, base, args, |args|) && Ended(Program(file, segments, |v|), v, base, |args|))
  }

  /** Where the segments end below the arguments, the table ends in a zero word. */
  lemma {:induction false} ZeroWord(v: seq<Byte>, file: seq<Byte>, segments: seq<Segment>, base: nat,
                                    args: seq<seq<Byte>>)
    requires Loaded(v, file, segments, base, args) && args != [] && SegmentsFit(segments, |segments|, base)
    ensures var end := base + 4 * |args|;
            end + 4 <= |v| && v[end..end + 4] == [0, 0, 0, 0]
  {
    var image, end := Program(file, segments, |v|), base + 4 * |args|;
    BlankZero(|v|, |v|);
    ImageZero(BlankSpace(|v|), file, segments, |segments|, base);
    ZeroThree(image, base, end + 1);
    TableEnds(image, v, base, args);
  }

  /** And where one byte of a segment lies in that word, behind its first byte, the table does not end. */
  lemma WordNotZero(v: seq<Byte>, file: seq<Byte>, segments: seq<Segment>, base: nat, args: seq<seq<Byte>>)
    requires file != [] && file[0] != 0 && args != [] && |segments| == 1
    requires segments[0].inFileAddr == 0 && segments[0].size == 1 && segments[0].virtualAddr == base + 4 * |args| + 1
    requires Loaded(v, file, segments, base, args)
    ensures var end := base + 4 * |args|;
            end + 4 <= |v| && v[end..end + 4] != [0, 0, 0, 0]
  {
    var end := base + 4 * |args|;
    var image, blank := Program(file, segments, |v|), BlankSpace(|v|);
    assert Available(file, 0, 1) == [file[0]];
    assert Image(blank, file, segments, 0) == blank;
    assert image == Over(blank, file, segments[0]);
    assert image[end + 1..end + 4][0] == file[0];
    TableEnds(image, v, base, args);
  }

  /** A program whose only byte lies behind the nine pages that its size leads to: loading it overruns. */
  method OutsideHappens(space: AddrSpace, bitmap: Bitmap, machine: Machine) returns (r: Outcome<bool>)
    requires space.physicalPage == [] && space.flags == [] && bitmap.Valid() && bitmap.numBits == NUM_PHYS_PAGES
    requires bitmap.Marks() == {}
    modifies space, bitmap.words, machine
    ensures r == Overrun
  {
    var segments := [Segment(0, 1, 1152)];
    OneByte(segments, [[65]], 1152);
    r := space.Load(bitmap, machine, Some([7]), segments, 0, []);
  }

  /** Sizes that add up to nothing, one of them being negative: the argument finds no room, and loading overruns. */
  method NoRoomHappens(space: AddrSpace, bitmap: Bitmap, machine: Machine) returns (r: Outcome<bool>)
    requires space.physicalPage == [] && space.flags == [] && bitmap.Valid() && bitmap.numBits == NUM_PHYS_PAGES
    requires bitmap.Marks() == {}
    modifies space, bitmap.words, machine
    ensures r == Overrun
  {
    OneArgument([[65]]);
    assert SegmentsSize([]) == 0;
    r := space.Load(bitmap, machine, Some([]), [], -1036, [[65]]);
  }

  /**
    A program whose only byte lies in the word behind the table: it is loaded, and the table of its one
    argument does not end.
   */
  method EndlessHappens(space: AddrSpace, bitmap: Bitmap, machine: Machine) returns (r: Outcome<bool>)
    requires space.physicalPage == [] && space.flags == [] && bitmap.Valid() && bitmap.numBits == NUM_PHYS_PAGES
    requires bitmap.Marks() == {}
    modifies space, bitmap.words, machine
    ensures r == Done(true) && space.Valid() && space.numPages == 9 && space.argCount == 1 && space.ArgBase() == 1140
    ensures space.Space(machine)[1144..1148] != [0, 0, 0, 0]
  {
    var segments, args := [Segment(0, 1, 1145)], [[65]];
    OneByte(segments, args, 1145);
    assert Loadable(segments, args, 9 * PAGE_SIZE);
    r := space.Load(bitmap, machine, Some([7]), segments, 0, args);
    assert r.Done? && r == Done(r.value) && r.value;
    WordNotZero(space.Space(machine), [7], segments, 1140, args);
  }

  lemma {:induction false} OneByte(segments: seq<Segment>, arg: seq<seq<Byte>>, virtualAddr: Int32)
    requires segments == [Segment(0, 1, virtualAddr)] && virtualAddr >= 0 && arg == [[65]]
    ensures PagesFor(segments, 0, []) == PagesFor(segments, 0, arg) == 9 && ArgSize([]) == 0 && ArgSize(arg) == 12
    ensures SegmentsFit(segments, 1, 1152) <==> virtualAddr < 1152
  {
    OneSize(segments);
    OneArgument(arg);
    NinePages(1, 0);
    NinePages(1, 12);
    assert SegmentsFit(segments, 0, 1152);
  }

  lemma {:induction false} OneSize(segments: seq<Segment>)
    requires |segments| == 1
    ensures SegmentsSize(segments) == segments[0].size
  {
    assert segments[..0] == [] && SegmentsSize(segments[..0]) == 0;
  }

  lemma OneArgument(arg: seq<seq<Byte>>)
    requires |arg| == 1 && |arg[0]| == 1
    ensures ArgSize([]) == 0 && ArgSize(arg) == 12
  {
    assert arg[..0] == [] && Strings(arg[..0]) == [];
    assert |Strings(arg)| == 2;
  }

  lemma NinePages(size: nat, argSize: nat)
    requires 0 < size + argSize <= PAGE_SIZE
    ensures DivRoundUp((size + 0 + USER_STACK_SIZE + argSize) % WORD_VALUES, PAGE_SIZE) == 9
  {
  }

  lemma ZeroThree(v: seq<Byte>, base: nat, i: nat)
    requires ZeroFrom(v, base) && base <= i && i + 3 <= |v|
    ensures v[i..i + 3] == [0, 0, 0]
  {
    ZeroShorter(v, base, i, i + 3, |v|);
    assert ZeroRange(v, i, i + 2) && ZeroRange(v, i, i + 1);
  }

  /** Segments below `base` leave zero what lies from there on. */
  lemma {:induction false} ImageZero(v: seq<Byte>, file: seq<Byte>, segments: seq<Segment>, n: nat, base: nat)
    requires n <= |segments| && SegmentsFit(segments, n, base) && base <= |v| && ZeroFrom(v, 0)
    requires SegmentsFit(segments, n, |v|)
    ensures ZeroFrom(Image(v, file, segments, n), base)
  {
    if n == 0 {
      ZeroPart(v, 0, base, |v|);
    } else {
      ImageZero(v, file, segments, n - 1, base);
      OverZero(Image(v, file, segments, n - 1), file, segments[n - 1], base);
    }
  }

  lemma OverZero(v: seq<Byte>, file: seq<Byte>, segment: Segment, base: nat)
    requires ZeroFrom(v, base) && base <= |v| && InRange(segment.inFileAddr, segment.size, segment.virtualAddr, base)
    ensures ZeroFrom(Over(v, file, segment), base)
  {
    if segment.size > 0 {
      ZeroStays(v, base, segment.virtualAddr, Available(file, segment.inFileAddr, segment.size));
    }
  }

  lemma SameThrough(v: seq<Byte>, v1: seq<Byte>, v2: seq<Byte>, i: nat, j: nat)
    requires SameRange(v, v1, i, j) && SameRange(v1, v2, i, j)
    ensures SameRange(v, v2, i, j)
  {
  }

  /** The two writes for argument `i`, to an address space `v1` that was `v` when the loop began. */
  lemma ArgWritten(v: seq<Byte>, v1: seq<Byte>, base: nat, args: seq<seq<Byte>>, i: nat, strAddr: nat, v2: seq<Byte>)
    requires i < |args| && Placed(v1, base, args, i) && strAddr == ArgumentAddress(base, args, i)
    requires base + 4 * i + 4 <= |v1| && strAddr + |args[i]| + 1 <= |v1|
    requires v2 == Splice(Splice(v1, base + 4 * i, AddressBytes(strAddr)), strAddr, args[i] + [0])
    requires SameRange(v, v1, 0, base) && SameRange(v, v1, base + 4 * i, StringsAt(base, |args|))
    ensures Placed(v2, base, args, i + 1) && SameRange(v, v2, 0, base)
    ensures SameRange(v, v2, base + 4 * (i + 1), StringsAt(base, |args|))
  {
    var word, str := AddressBytes(strAddr), args[i] + [0];
    var mid := Splice(v1, base + 4 * i, word);
    PlaceNext(v1, base, args, i, strAddr, word, str, mid, v2);
    SameBelow(v1, base, base + 4 * i, word, mid, strAddr, str, v2);
    SameThrough(v, v1, v2, 0, base);
    SameThrough(v, v1, v2, base + 4 * (i + 1), StringsAt(base, |args|));
  }

  lemma SameBelow(v: seq<Byte>, base: nat, a: nat, bytes: seq<Byte>, v1: seq<Byte>, b: nat, more: seq<Byte>,
                  v2: seq<Byte>)
    requires base <= a && base <= b && a + |bytes| <= |v| && b + |more| <= |v|
    requires v1 == Splice(v, a, bytes) && v2 == Splice(v1, b, more)
    ensures SameRange(v, v2, 0, base)
  {
  }

  /** A write in front of them does not touch them. */
  lemma ZeroStays(v: seq<Byte>, base: nat, position: nat, bytes: seq<Byte>)
    requires ZeroFrom(v, base) && position + |bytes| <= base <= |v|
    ensures ZeroFrom(Splice(v, position, bytes), base)
  {
    ZeroFrame(v, Splice(v, position, bytes), base, |v|);
  }

  /** An aligned word does not cross a page. */
  lemma {:induction false} AlignedWord(base: nat, i: nat)
    requires WordAligned(base)
    ensures (base + 4 * i) % PAGE_SIZE + 4 <= PAGE_SIZE
  {
    var k := Words(base);
    PageRest(base + 4 * i, k + i);
  }

  lemma Words(a: nat) returns (k: nat)
    requires WordAligned(a)
    ensures a == 4 * k
  {
    if a == 0 {
      k := 0;
    } else {
      k := Words(a - 4);
      k := k + 1;
    }
  }

  lemma PageRest(a: nat, k: nat)
    requires a == 4 * k
    ensures a % PAGE_SIZE + 4 <= PAGE_SIZE
  {
    assert a == k / 32 * PAGE_SIZE + k % 32 * 4;
  }

  lemma {:induction false} ZeroShorter(v: seq<Byte>, i: nat, i': nat, j: nat, j': nat)
    requires ZeroRange(v, i, j') && i <= i' && j <= j'
    ensures ZeroRange(v, i', j)
  {
    if j < j' {
      ZeroShorter(v, i, i', j, if j' > i then j' - 1 else j);
    } else {
      ZeroPart(v, i, i', j);
    }
  }

  lemma {:induction false} IsZero(v: seq<Byte>, j: nat)
    requires j <= |v| && forall k :: 0 <= k < |v| ==> v[k] == 0
    ensures ZeroRange(v, 0, j)
  {
    if j > 0 {
      IsZero(v, j - 1);
    }
  }

  /** The part of a copy of `size` bytes at `virtualAddr` that stays within one page. */
  method Chunk(virtualAddr: nat, size: nat) returns (vpn: nat, offset: nat, amount: nat)
    requires size > 0
    ensures vpn * PAGE_SIZE + offset == virtualAddr && offset < PAGE_SIZE
    ensures 0 < amount <= size && offset + amount <= PAGE_SIZE && (amount == size || offset + amount == PAGE_SIZE)
  {
    vpn := virtualAddr / PAGE_SIZE;
    offset := virtualAddr % PAGE_SIZE;
    amount := if PAGE_SIZE - offset < size then PAGE_SIZE - offset else size;
  }

  lemma WholeSlice<T>(s: seq<T>)
    ensures s[..|s|] == s
  {
  }

  /** Bytes written one by one from `position` on. */
  ghost function Overlay(s: seq<Byte>, position: nat, bytes: seq<Byte>): (r: seq<Byte>)
    requires bytes == [] || position + |bytes| <= |s|
    ensures |r| == |s|
  {
    if bytes == [] then s else Overlay(s, position, bytes[..|bytes| - 1])[position + |bytes| - 1 := bytes[|bytes| - 1]]
  }

  lemma {:induction false} OverlayIsSplice(s: seq<Byte>, position: nat, bytes: seq<Byte>)
    requires position + |bytes| <= |s|
    ensures Overlay(s, position, bytes) == Splice(s, position, bytes)
  {
    if bytes != [] {
      OverlayIsSplice(s, position, bytes[..|bytes| - 1]);
    }
  }

  /** What ReadAt delivers of `n` bytes from `at` on: those that are there. */
  function Available(file: seq<Byte>, at: nat, n: nat): (s: seq<Byte>)
    ensures |s| <= n
  {
    if n == 0 then []
    else if at + n > |file| then Available(file, at, n - 1)
    else Available(file, at, n - 1) + [file[at + n - 1]]
  }

  lemma AvailableNext(file: seq<Byte>, at: nat, n: nat, more: nat)
    ensures Available(file, at, n + more) == Available(file, at, n) + Available(file, at + n, more)
    ensures |Available(file, at, n)| < n ==> Available(file, at + n, more) == []
  {
    if more > 0 {
      AvailableNext(file, at, n, more - 1);
      if at + n + more <= |file| {
        AvailableAll(file, at, n);
      }
    }
  }

  lemma {:induction false} AvailableAll(file: seq<Byte>, at: nat, n: nat)
    requires at + n <= |file|
    ensures |Available(file, at, n)| == n
  {
    if n > 0 {
      AvailableAll(file, at, n - 1);
    }
  }

  lemma SpliceOn<T>(s: seq<T>, position: nat, n: nat, a: seq<T>, b: seq<T>)
    requires |a| <= n && position + n + |b| <= |s| && (|a| < n ==> b == [])
    ensures Splice(Splice(s, position, a), position + n, b) == Splice(s, position, a + b)
  {
  }

  lemma FrameSetNext(pt: seq<nat>, i: nat)
    requires i < |pt|
    ensures FrameSet(pt[..i + 1]) == FrameSet(pt[..i]) + {pt[i]}
  {
    assert pt[..i + 1][..i] == pt[..i];
  }

  predicate Writable(pt: seq<Flags>)
  {
    pt == [] || (Writable(pt[..|pt| - 1]) && pt[|pt| - 1].valid && !pt[|pt| - 1].readOnly)
  }

  lemma {:induction false} WritableAppend(pt: seq<Flags>, e: Flags)
    requires Writable(pt) && e.valid && !e.readOnly
    ensures Writable(pt + [e])
  {
  }

  lemma WritableAt(pt: seq<Flags>, i: nat, e: Flags)
    requires Writable(pt) && i < |pt|
    ensures pt[i].valid && !pt[i].readOnly
    ensures e.valid && !e.readOnly ==> Writable(pt[i := e])
  {
    var n, pt' := |pt| - 1, pt[i := e];
    if i < n {
      WritableAt(pt[..n], i, e);
      assert pt'[..n] == pt[..n][i := e];
    } else {
      assert pt'[..n] == pt[..n];
    }
  }

  /** Taken frames are zeroed and the others are as they were. */
  lemma {:induction false} TakenBlank(m: Memory, frames: seq<nat>, m': Memory)
    requires FramesOk(frames) && m' == Zeroed(m, frames)
    ensures ZeroFrom(View(m', frames), 0) && OthersKept(FrameSet(frames), m, m')
  {
    forall f: nat | f < NUM_PHYS_PAGES
      ensures f in FrameSet(frames) ==> Blank(m'[f])
      ensures f !in FrameSet(frames) ==> m'[f] == m[f]
    {
      ZeroedAt(m, frames, f);
    }
    BlankView(m', frames);
    IsZero(View(m', frames), |View(m', frames)|);
    IsKept(FrameSet(frames), m, m', |m|);
  }

  /** FindAndSet, when there is a free frame. */
  method FindFrame(bitmap: Bitmap) returns (pfn: nat)
    requires bitmap.Valid() && bitmap.numBits == NUM_PHYS_PAGES
    requires exists f: nat :: f < NUM_PHYS_PAGES && f !in bitmap.Marks()
    modifies bitmap.words
    ensures pfn < NUM_PHYS_PAGES && pfn !in old(bitmap.Marks()) && bitmap.Marks() == old(bitmap.Marks()) + {pfn}
  {
    var found := bitmap.FindAndSet();
    pfn := found;
  }

  /** While fewer frames have been taken than were free, one is left. */
  lemma {:induction false} RoomLeft(marks: set<nat>, frames: seq<nat>, marks': set<nat>)
    requires FramesOk(frames) && FrameSet(frames) !! marks && marks' == marks + FrameSet(frames)
    requires (forall f: nat :: f in marks ==> f < NUM_PHYS_PAGES) && |marks| + |frames| < NUM_PHYS_PAGES
    ensures exists f: nat :: f < NUM_PHYS_PAGES && f !in marks'
  {
    FrameSetSize(frames);
    if forall f: nat :: f < NUM_PHYS_PAGES ==> f in marks' {
      SubsetSize(Below(NUM_PHYS_PAGES), marks');
    }
  }
}
