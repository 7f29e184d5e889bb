/** What each file system operation promises, in terms of names, bytes and the free map. */
module FileSystemContract {
  import opened Bytes
  import opened Bitmaps
  import opened DiskLayout
  import opened Directories
  import opened Bookkeeping
  import opened FileSystemSpec

  /** The sectors the free map on the disk marks as taken. */
  ghost function FreeMap(d: Disk): (s: set<nat>)
    requires FsInv(d)
  {
    ViewOf(d).marks
  }

  /** The header sector of each file in the directory on the disk. */
  ghost function Dir(d: Disk): (m: map<Name, int>)
    requires FsInv(d)
  {
    DirMap(ViewOf(d).table)
  }

  /** The sectors of one file: its header and its data. */
  ghost function OwnedBy(d: Disk, key: Name): (s: set<nat>)
    requires FsInv(d) && key in Dir(d) && RootOk(HeadersOf(d), Dir(d)[key])
  {
    Owned(HeadersOf(d), Dir(d)[key])
  }

  /** What a disk shows is a function of the disk. */
  lemma Seen(d: Disk, v: FsView)
    requires Shows(d, v) && Sound(v)
    ensures FsInv(d) && ViewOf(d) == v
    ensures Dir(d) == DirMap(v.table) && FreeMap(d) == v.marks && Files(d) == FilesIn(d, v)
  {
  }

  /** Every file listed has a sound header and is among the files. */
  lemma Listed(d: Disk, key: Name)
    requires FsInv(d) && key in Dir(d)
    ensures DIRECTORY_SECTOR < Dir(d)[key] < NUM_SECTORS && RootOk(HeadersOf(d), Dir(d)[key])
    ensures key in Files(d) && Files(d)[key] == Content(d, HeadersOf(d)[Dir(d)[key]])
    ensures OwnedBy(d, key) <= FreeMap(d)
  {
    var v := ViewOf(d);
    SoundIffBalanced(v);
    FewerRoots(Dir(d), key);
    RootMarked(v.hs, Dir(d), v.marks, Dir(d)[key]);
  }

  lemma SameNames(d: Disk)
    requires FsInv(d)
    ensures Files(d).Keys == Dir(d).Keys
  {
  }

  /** Files in the directory both before and after kept their headers, so handles on them stay good. */
  ghost predicate HeadersKept(d: Disk, d': Disk)
    requires FsInv(d) && FsInv(d')
  {
    forall key :: key in Dir(d) && key in Dir(d') && 0 <= Dir(d)[key] < NUM_SECTORS
      ==> Dir(d')[key] == Dir(d)[key] && HeadersOf(d')[Dir(d)[key]] == HeadersOf(d)[Dir(d)[key]]
  }

  /** A file of `size` bytes was added on sectors that were free; every other file is as it was. */
  ghost predicate Created(d: Disk, key: Name, size: int, d': Disk)
    requires FsInv(d)
  {
    && FsInv(d') && HeadersKept(d, d')
    && key !in Dir(d) && key in Dir(d') && Dir(d') == Dir(d)[key := Dir(d')[key]]
    && RootOk(HeadersOf(d'), Dir(d')[key]) && HeadersOf(d')[Dir(d')[key]].numBytes == size
    && OwnedBy(d', key) !! FreeMap(d) && FreeMap(d') == FreeMap(d) + OwnedBy(d', key)
    && key in Files(d') && Files(d') == Files(d)[key := Files(d')[key]] && |Files(d')[key]| == Positive(size)
  }

  /** The file is gone and its sectors are free; every other file is as it was. */
  ghost predicate Removed(d: Disk, key: Name, d': Disk)
    requires FsInv(d)
  {
    && FsInv(d') && HeadersKept(d, d')
    && key in Dir(d) && Dir(d') == Dir(d) - {key}
    && RootOk(HeadersOf(d), Dir(d)[key]) && FreeMap(d') == FreeMap(d) - OwnedBy(d, key)
    && Files(d') == Files(d) - {key}
  }

  /** A run of bytes of one file was replaced; nothing else changed. */
  ghost predicate Wrote(d: Disk, key: Name, position: int, bytes: seq<Byte>, d': Disk)
    requires FsInv(d)
  {
    && FsInv(d') && HeadersKept(d, d')
    && Dir(d') == Dir(d) && FreeMap(d') == FreeMap(d) && key in Files(d)
    && (bytes == [] ==> d' == d)
    && (bytes != [] ==>
          && 0 <= position && position + |bytes| <= |Files(d)[key]|
          && Files(d') == Files(d)[key := Splice(Files(d)[key], position, bytes)])
  }

  /** Create does not fail: the name is new, the directory has an entry left, and the sectors are there. */
  ghost predicate CanCreate(d: Disk, key: Name, size: Int32)
    requires FsInv(d)
  {
    && key !in Files(d) && |Files(d)| < NUM_DIR_ENTRIES
    && |FreeMap(d)| + 1 + Positive(DivRoundUp(size, SECTOR_SIZE)) <= NUM_SECTORS
  }

  /** The size each file was created with, which may be negative. */
  ghost function Sizes(d: Disk): (m: map<Name, int>)
    requires FsInv(d)
  {
    map key | key in Dir(d) :: SizeIn(HeadersOf(d), Dir(d)[key])
  }

  ghost function SizeIn(hs: Headers, r: int): (n: int)
  {
    if 0 <= r < NUM_SECTORS then hs[r].numBytes else 0
  }

  /** Removing a file just created restores the free map, the directory and every file. */
  lemma RemoveUndoesCreate(d: Disk, key: Name, size: int, d': Disk, d'': Disk)
    requires FsInv(d) && Created(d, key, size, d') && Removed(d', key, d'')
    ensures FreeMap(d'') == FreeMap(d) && Dir(d'') == Dir(d) && Files(d'') == Files(d)
  {
    SameNames(d);
    PutThenTake(Dir(d), key, Dir(d')[key]);
    PutThenTake(Files(d), key, Files(d')[key]);
    JoinThenDrop(FreeMap(d), OwnedBy(d', key));
  }

  lemma JoinThenDrop<T>(a: set<T>, b: set<T>)
    requires a !! b
    ensures (a + b) - b == a
  {
  }

  /** What a successful Create writes amounts to. */
  lemma CreateMeets(d: Disk, v: FsView, sector: nat, h: Header, i: int, e: Entry, ws: seq<Word>, d': Disk)
    requires Shows(d, v) && Sound(v) && CreateWrites(d, v, sector, h, i, e, ws, d')
    ensures FsInv(d) && Created(d, Key(e.name), h.numBytes, d')
    ensures SameRoots(v.hs, HeadersOf(d'), DirMap(v.table))
  {
    SoundIffBalanced(v);
    CreateShows(d, v, sector, h, i, e, ws, d');
    CreateFiles(d, v, sector, h, i, e, ws, d');
    SoundIffBalanced(FsView(HeadersOf(d'), v.table[i := e], Marked(ws, NUM_SECTORS)));
    ViewsMeet(d, v, Key(e.name), sector, h, d', FsView(HeadersOf(d'), v.table[i := e], Marked(ws, NUM_SECTORS)),
              Owned(HeadersOf(d'), sector));
  }

  lemma {:induction false} CreateShows(d: Disk, v: FsView, sector: nat, h: Header, i: int, e: Entry, ws: seq<Word>,
                                       d': Disk)
    requires Shows(d, v) && Balanced(v) && CreateWrites(d, v, sector, h, i, e, ws, d')
    ensures var v' := FsView(HeadersOf(d'), v.table[i := e], Marked(ws, NUM_SECTORS));
            && Shows(d', v') && Balanced(v') && SameRoots(v.hs, v'.hs, DirMap(v.table))
            && DirMap(v'.table) == DirMap(v.table)[Key(e.name) := sector]
            && RootOk(v'.hs, sector) && v'.hs[sector] == h && Owned(v'.hs, sector) !! v.marks
            && v'.marks == v.marks + Owned(v'.hs, sector)
  {
    HeadersAfterCreate(d, v.hs, DirMap(v.table), v.marks, sector, h, d', v.table[i := e], ws);
    TableAfterCreate(v, HeadersOf(d'), sector, h, i, e);
    OwnedSum(HeadersOf(d'), v.marks, sector);
  }

  lemma ViewsMeet(d: Disk, v: FsView, key: Name, sector: nat, h: Header, d': Disk, v': FsView, owned: set<nat>)
    requires Shows(d, v) && Sound(v) && Shows(d', v') && Sound(v') && SameRoots(v.hs, v'.hs, DirMap(v.table))
    requires key !in DirMap(v.table) && DirMap(v'.table) == DirMap(v.table)[key := sector]
    requires RootOk(v'.hs, sector) && v'.hs[sector] == h && owned == Owned(v'.hs, sector) && owned !! v.marks
    requires v'.marks == v.marks + owned
    requires HeaderOk(h) && FilesIn(d', v') == FilesIn(d, v)[key := Content(d, h)]
    ensures FsInv(d) && Created(d, key, h.numBytes, d')
  {
    Seen(d, v);
    Seen(d', v');
    KeptRoots(d, d');
    CreatedIs(d, key, h, d', owned);
  }

  lemma OwnedSum(hs: Headers, marks: set<nat>, sector: nat)
    requires sector < NUM_SECTORS && HeaderOk(hs[sector]) && sector !in marks && DataSet(hs[sector]) !! marks + {sector}
    ensures RootOk(hs, sector) && Owned(hs, sector) !! marks
    ensures marks + {sector} + DataSet(hs[sector]) == marks + Owned(hs, sector)
  {
  }

  lemma CreatedIs(d: Disk, key: Name, h: Header, d': Disk, owned: set<nat>)
    requires FsInv(d) && FsInv(d') && HeadersKept(d, d')
    requires key !in Dir(d) && key in Dir(d') && RootOk(HeadersOf(d'), Dir(d')[key]) && HeadersOf(d')[Dir(d')[key]] == h
    requires owned == OwnedBy(d', key) && owned !! FreeMap(d)
    requires Dir(d') == Dir(d)[key := Dir(d')[key]]
    requires FreeMap(d') == FreeMap(d) + owned
    requires Files(d') == Files(d)[key := Content(d, h)]
    ensures Created(d, key, h.numBytes, d')
  {
  }

  lemma KeptRoots(d: Disk, d': Disk)
    requires FsInv(d) && FsInv(d') && SameRoots(HeadersOf(d), HeadersOf(d'), Dir(d))
    requires forall key :: key in Dir(d) && key in Dir(d') ==> Dir(d')[key] == Dir(d)[key]
    ensures HeadersKept(d, d')
  {
  }

  /** What a successful Remove writes amounts to. */
  lemma RemoveMeets(d: Disk, v: FsView, key: Name, i: int, ws: seq<Word>, d': Disk)
    requires Shows(d, v) && Sound(v) && RemoveWrites(d, v, key, i, ws, d')
    ensures FsInv(d) && Removed(d, key, d')
    ensures SameRoots(v.hs, HeadersOf(d'), DirMap(v.table))
  {
    SoundIffBalanced(v);
    HeadersAfterRewrite(d, v.hs, DirMap(v.table), v.marks, d', v.table[i := v.table[i].(inUse := false)], ws);
    SoundIffBalanced(FsView(HeadersOf(d'), v.table[i := v.table[i].(inUse := false)], Marked(ws, NUM_SECTORS)));
    RemoveKeeps(d, v, key, i, ws, d');
    RemoveFiles(d, v, key, i, ws, d');
    EntryInMap(v.table, key, i);
    Seen(d, v);
    Seen(d', FsView(HeadersOf(d'), v.table[i := v.table[i].(inUse := false)], Marked(ws, NUM_SECTORS)));
    KeptRoots(d, d');
  }

  /** What a write through a handle on a listed file amounts to. */
  lemma WriteMeets(d: Disk, key: Name, h: Header, position: int, bytes: seq<Byte>, d': Disk)
    requires FsInv(d) && key in Dir(d) && 0 <= Dir(d)[key] < NUM_SECTORS && h == HeadersOf(d)[Dir(d)[key]]
    requires HeaderOk(h) && Written(d, h, position, bytes, d')
    ensures Wrote(d, key, position, bytes, d')
    ensures SameRoots(HeadersOf(d), HeadersOf(d'), Dir(d))
  {
    var v := ViewOf(d);
    SoundIffBalanced(v);
    Listed(d, key);
    FewerRoots(Dir(d), key);
    SoundIffBalanced(FsView(HeadersOf(d'), v.table, v.marks));
    WriteKeeps(d, v, key, d');
    WriteFiles(d, v, key, d');
    HeadersAfterWrite(d, v.hs, Dir(d), v.marks, Dir(d)[key], d');
    Seen(d', FsView(HeadersOf(d'), v.table, v.marks));
    KeptRoots(d, d');
  }
}

/** The operations of the disk half of code/filesys/filesys.cc. */
module FileSystems {
  import opened Bytes
  import opened Bitmaps
  import opened DiskLayout
  import opened Wrappers
  import opened OpenFiles
  import opened Directories
  import opened Bookkeeping
  import opened FileSystemSpec
  import opened FileSystemContract
  import opened Ownership
  import PersistentBitmaps

  class FileSystem {
    const disk: SynchDisk
    const freeMapFile: OpenFile
    const directoryFile: OpenFile

    /** The disk is sound, and the two files kept open still have the headers they were opened with. */
    ghost predicate Valid()
      reads disk, freeMapFile.hdr, directoryFile.hdr
    {
      FsInv(disk.sectors) && FilesOpen(HeadersOf(disk.sectors))
    }

    /** The free map and the directory are open, with the headers that `hs` has for them. */
    ghost predicate FilesOpen(hs: Headers)
      reads freeMapFile.hdr, directoryFile.hdr
    {
      && freeMapFile.disk == disk && directoryFile.disk == disk
      && |freeMapFile.hdr.dataSectors| == NUM_DIRECT && freeMapFile.hdr.Value() == hs[FREE_MAP_SECTOR]
      && |directoryFile.hdr.dataSectors| == NUM_DIRECT && directoryFile.hdr.Value() == hs[DIRECTORY_SECTOR]
    }

    /** Finds the free map and the directory of a disk that was formatted before. */
    constructor (disk: SynchDisk)
      requires FsInv(disk.sectors)
      ensures this.disk == disk && Valid() && fresh(freeMapFile.hdr) && fresh(directoryFile.hdr)
    {
      ghost var d := disk.sectors;
      ghost var v := ViewOf(d);
      HeaderIn(d, NUM_SECTORS, FREE_MAP_SECTOR);
      HeaderIn(d, NUM_SECTORS, DIRECTORY_SECTOR);
      this.disk := disk;
      freeMapFile := new OpenFile(disk, FREE_MAP_SECTOR);
      directoryFile := new OpenFile(disk, DIRECTORY_SECTOR);
    }

    /** In memory: takes sectors for the headers and the data of the free map and the directory. */
    static method LayOut() returns (freeMap: Bitmap, mapHdr: FileHeader, dirHdr: FileHeader)
      ensures fresh(freeMap) && fresh(freeMap.words) && fresh(mapHdr) && fresh(dirHdr)
      ensures freeMap.Valid() && freeMap.numBits == NUM_SECTORS
      ensures |mapHdr.dataSectors| == NUM_DIRECT && |dirHdr.dataSectors| == NUM_DIRECT
      ensures LaidOut(mapHdr.Value(), dirHdr.Value(), freeMap.Marks())
    {
      freeMap := new Bitmap(NUM_SECTORS);
      mapHdr := new FileHeader(BLANK_HEADER);
      dirHdr := new FileHeader(BLANK_HEADER);
      freeMap.Mark(FREE_MAP_SECTOR);
      freeMap.Mark(DIRECTORY_SECTOR);
      ghost var first := freeMap.Marks();
      TwoMarks(first);
      var mapFits := mapHdr.Allocate(freeMap, FREE_MAP_FILE_SIZE);
      assert mapFits.Done? && mapFits.value;
      SmallUnion(first, DataSet(mapHdr.Value()), mapHdr.Value());
      var dirFits := dirHdr.Allocate(freeMap, DIRECTORY_FILE_SIZE);
      assert dirFits.Done? && dirFits.value;
    }

    /** Makes an empty file system of a disk that may hold anything. */
    constructor Format(disk: SynchDisk)
      modifies disk
      ensures this.disk == disk && Valid() && fresh(freeMapFile.hdr) && fresh(directoryFile.hdr)
      ensures Files(disk.sectors) == map[]
    {
      var freeMap, mapHdr, dirHdr := LayOut();
      this.disk := disk;
      var mapFile, dirFile := FlushFormat(disk, freeMap, mapHdr, dirHdr);
      freeMapFile := mapFile;
      directoryFile := dirFile;
    }

    /** Writes the two headers, opens the files they describe, and writes the free map and an empty directory. */
    static method FlushFormat(disk: SynchDisk, freeMap: Bitmap, mapHdr: FileHeader, dirHdr: FileHeader)
      returns (mapFile: OpenFile, dirFile: OpenFile)
      requires freeMap.Valid() && freeMap.numBits == NUM_SECTORS
      requires |mapHdr.dataSectors| == NUM_DIRECT && |dirHdr.dataSectors| == NUM_DIRECT
      requires LaidOut(mapHdr.Value(), dirHdr.Value(), freeMap.Marks())
      modifies disk
      ensures FsInv(disk.sectors) && Files(disk.sectors) == map[]
      ensures mapFile.disk == disk && |mapFile.hdr.dataSectors| == NUM_DIRECT && fresh(mapFile.hdr)
      ensures mapFile.hdr.Value() == HeadersOf(disk.sectors)[FREE_MAP_SECTOR]
      ensures dirFile.disk == disk && |dirFile.hdr.dataSectors| == NUM_DIRECT && fresh(dirFile.hdr)
      ensures dirFile.hdr.Value() == HeadersOf(disk.sectors)[DIRECTORY_SECTOR]
    {
      ghost var d := disk.sectors;
      mapFile, dirFile := FlushHeaders(disk, mapHdr, dirHdr);
      FlushContents(freeMap, mapFile, dirFile, d);
    }

    /** Writes the two headers and opens the files. */
    static method FlushHeaders(disk: SynchDisk, mapHdr: FileHeader, dirHdr: FileHeader)
      returns (mapFile: OpenFile, dirFile: OpenFile)
      requires |mapHdr.dataSectors| == NUM_DIRECT && |dirHdr.dataSectors| == NUM_DIRECT
      requires HeaderOk(mapHdr.Value()) && HeaderOk(dirHdr.Value())
      modifies disk
      ensures disk.sectors == WithHeader(WithHeader(old(disk.sectors), FREE_MAP_SECTOR, mapHdr.Value()),
                                         DIRECTORY_SECTOR, dirHdr.Value())
      ensures mapFile.disk == disk && mapFile.Valid() && fresh(mapFile.hdr) && mapFile.hdr.Value() == mapHdr.Value()
      ensures dirFile.disk == disk && dirFile.Valid() && fresh(dirFile.hdr) && dirFile.hdr.Value() == dirHdr.Value()
      ensures mapFile.hdr != dirFile.hdr
    {
      mapHdr.WriteBack(disk, FREE_MAP_SECTOR);
      dirHdr.WriteBack(disk, DIRECTORY_SECTOR);
      mapFile := new OpenFile(disk, FREE_MAP_SECTOR);
      dirFile := new OpenFile(disk, DIRECTORY_SECTOR);
    }

    /** Writes the free map and an empty directory to a disk `d` that the headers have been written to. */
    static method FlushContents(freeMap: Bitmap, mapFile: OpenFile, dirFile: OpenFile, ghost d: Disk)
      requires freeMap.Valid() && freeMap.numBits == NUM_SECTORS && mapFile.Valid() && dirFile.Valid()
      requires mapFile.disk == dirFile.disk && LaidOut(mapFile.hdr.Value(), dirFile.hdr.Value(), freeMap.Marks())
      requires mapFile.disk.sectors ==
                 WithHeader(WithHeader(d, FREE_MAP_SECTOR, mapFile.hdr.Value()), DIRECTORY_SECTOR, dirFile.hdr.Value())
      modifies mapFile.disk
      ensures FsInv(mapFile.disk.sectors) && Files(mapFile.disk.sectors) == map[]
      ensures mapFile.hdr.Value() == HeadersOf(mapFile.disk.sectors)[FREE_MAP_SECTOR]
      ensures dirFile.hdr.Value() == HeadersOf(mapFile.disk.sectors)[DIRECTORY_SECTOR]
    {
      var directory := new Directory(NUM_DIR_ENTRIES);
      ghost var d2 := mapFile.disk.sectors;
      PersistentBitmaps.WriteBack(freeMap, mapFile);
      ghost var d3 := mapFile.disk.sectors;
      directory.WriteBack(dirFile);
      FormatMeets(d, mapFile.hdr.Value(), dirFile.hdr.Value(), d2, d3, directory.table, freeMap.words[..],
                  mapFile.disk.sectors);
    }

    /** Reads the directory off the disk. */
    method FetchDirectory(ghost v: FsView) returns (directory: Directory)
      requires FilesOpen(v.hs) && Shows(disk.sectors, v)
      ensures fresh(directory) && directory.table == v.table
    {
      directory := new Directory(NUM_DIR_ENTRIES);
      directory.FetchFrom(directoryFile);
    }

    /** Reads the free map off the disk. */
    method FetchFreeMap(ghost v: FsView) returns (freeMap: Bitmap)
      requires FilesOpen(v.hs) && Shows(disk.sectors, v)
      ensures fresh(freeMap) && fresh(freeMap.words) && freeMap.Valid() && freeMap.numBits == NUM_SECTORS
      ensures freeMap.Marks() == v.marks
    {
      freeMap := new Bitmap(NUM_SECTORS);
      PersistentBitmaps.FetchFrom(freeMap, freeMapFile);
    }

    /** Writes a new file's header, then the directory, then the free map. */
    method FlushCreate(hdr: FileHeader, sector: nat, directory: Directory, freeMap: Bitmap, ghost v: FsView)
      requires FilesOpen(v.hs) && Shows(disk.sectors, v) && DIRECTORY_SECTOR < sector < NUM_SECTORS
      requires DataSet(v.hs[FREE_MAP_SECTOR]) !! DataSet(v.hs[DIRECTORY_SECTOR])
      requires |hdr.dataSectors| == NUM_DIRECT && |directory.table| == NUM_DIR_ENTRIES
      requires freeMap.Valid() && freeMap.numBits == NUM_SECTORS
      modifies disk
      ensures FlushedCreate(old(disk.sectors), v.hs, sector, hdr.Value(), directory.table, freeMap.words[..],
                            disk.sectors)
    {
      hdr.WriteBack(disk, sector);
      ghost var d0 := disk.sectors;
      directory.WriteBack(directoryFile);
      ghost var d1 := disk.sectors;
      PersistentBitmaps.WriteBack(freeMap, freeMapFile);
      DirThenMap(d0, WithRoot(v.hs, sector, hdr.Value()), d1, disk.sectors, directory.table, freeMap.words[..]);
    }

    /** In memory: takes a sector for the header, a directory entry and the data sectors, or reports -1. */
    method Reserve(name: seq<Byte>, initialSize: Int32, directory: Directory, freeMap: Bitmap, hdr: FileHeader)
      returns (r: Outcome<int>, ghost i: int)
      requires freeMap.Valid() && freeMap.numBits == NUM_SECTORS && |hdr.dataSectors| == NUM_DIRECT
      requires forall j :: !IsEntry(directory.table, Key(name), j)
      modifies directory, freeMap.words, hdr
      ensures |hdr.dataSectors| == NUM_DIRECT && (r.Done? ==> r.value >= -1)
      ensures r == Done(-1) <==> !CanReserve(old(directory.table), old(freeMap.Marks()), initialSize)
      ensures r.Overrun? <==>
                CanReserve(old(directory.table), old(freeMap.Marks()), initialSize) && initialSize > MAX_FILE_SIZE
      ensures r.Done? && r.value != -1 ==>
                hdr.numBytes == initialSize && 0 <= i < |old(directory.table)| == |directory.table|
      ensures r.Done? && r.value != -1 ==> Key(directory.table[i].name) == Key(name)
      ensures r.Done? && r.value != -1 ==>
                Reserved(old(directory.table), old(freeMap.Marks()), r.value, hdr.Value(), i, directory.table,
                         freeMap.Marks())
    {
      ghost var t, marks := directory.table, freeMap.Marks();
      MarkedBelow(freeMap.words[..], NUM_SECTORS);
      FullWhenAllMarked(marks);
      var sector := freeMap.FindAndSet();
      MarkedBelow(freeMap.words[..], NUM_SECTORS);
      FullBound(freeMap.Marks());
      r, i := Done(-1), 0;
      if sector != -1 {
        var added := directory.Add(name, sector);
        if added {
          i :| 0 <= i < |t| && !t[i].inUse && AddedAt(t, i, name, sector, directory.table);
          var fits := hdr.Allocate(freeMap, initialSize);
          r := if fits.Overrun? then Overrun else if fits.value then Done(sector) else Done(-1);
        }
      }
    }

    /** Flushes what Reserve has taken. */
    method Commit(ghost key: Name, hdr: FileHeader, sector: int, directory: Directory, freeMap: Bitmap, ghost v: FsView,
                  ghost i: int)
      requires FilesOpen(v.hs) && Shows(disk.sectors, v) && Sound(v)
      requires |hdr.dataSectors| == NUM_DIRECT && freeMap.Valid() && freeMap.numBits == NUM_SECTORS
      requires Reserved(v.table, v.marks, sector, hdr.Value(), i, directory.table, freeMap.Marks())
      requires Key(directory.table[i].name) == key && key !in DirMap(v.table)
      modifies disk
      ensures Valid() && FsInv(old(disk.sectors)) && Created(old(disk.sectors), key, hdr.numBytes, disk.sectors)
    {
      ghost var d := disk.sectors;
      CreateRoom(d, v, key);
      FreeSector(v.marks, sector);
      FlushCreate(hdr, sector, directory, freeMap, v);
      ReserveMeets(d, v, key, sector, hdr.Value(), i, directory.table, freeMap.words[..], disk.sectors);
    }

    /** The part of Create that follows the search for the name. */
    method CreateNew(name: seq<Byte>, initialSize: Int32, directory: Directory, ghost v: FsView)
      returns (r: Outcome<bool>)
      requires FilesOpen(v.hs) && Shows(disk.sectors, v) && Sound(v) && directory.table == v.table
      requires Key(name) !in DirMap(v.table) && forall i :: !IsEntry(v.table, Key(name), i)
      modifies disk, directory
      ensures r == Done(false) <==> !CanReserve(v.table, v.marks, initialSize)
      ensures r.Overrun? <==> CanReserve(v.table, v.marks, initialSize) && initialSize > MAX_FILE_SIZE
      ensures r.Done? ==> Valid()
      ensures r == Done(true) ==>
                FsInv(old(disk.sectors)) && Created(old(disk.sectors), Key(name), initialSize, disk.sectors)
      ensures r == Done(false) ==> disk.sectors == old(disk.sectors)
    {
      var freeMap := FetchFreeMap(v);
      var hdr := new FileHeader(BLANK_HEADER);
      var sector, i := Reserve(name, initialSize, directory, freeMap, hdr);
      if sector.Overrun? {
        return Overrun;
      }
      if sector.value == -1 {
        return Done(false);
      }
      Commit(Key(name), hdr, sector.value, directory, freeMap, v, i);
      return Done(true);
    }

    /** Adds a file, unless its name is taken or there is no room; a call that fails writes nothing. */
    method Create(name: seq<Byte>, initialSize: Int32) returns (r: Outcome<bool>)
      requires Valid()
      modifies disk
      ensures r.Overrun? <==> CanCreate(old(disk.sectors), Key(name), initialSize) && initialSize > MAX_FILE_SIZE
      ensures r == Done(false) <==> !CanCreate(old(disk.sectors), Key(name), initialSize)
      ensures r.Done? ==> Valid()
      ensures r == Done(true) ==> Created(old(disk.sectors), Key(name), initialSize, disk.sectors)
      ensures r == Done(false) ==> disk.sectors == old(disk.sectors)
    {
      ghost var v := ViewOf(disk.sectors);
      CreateRoom(disk.sectors, v, Key(name));
      var directory := FetchDirectory(v);
      var found := directory.Find(name);
      if found != -1 {
        return Done(false);
      }
      r := CreateNew(name, initialSize, directory, v);
    }

    /** Writes the free map, then the directory. */
    method FlushRemove(directory: Directory, freeMap: Bitmap, ghost v: FsView)
      requires FilesOpen(v.hs) && Shows(disk.sectors, v)
      requires DataSet(v.hs[FREE_MAP_SECTOR]) !! DataSet(v.hs[DIRECTORY_SECTOR])
      requires |directory.table| == NUM_DIR_ENTRIES && freeMap.Valid() && freeMap.numBits == NUM_SECTORS
      modifies disk
      ensures MetaRewritten(old(disk.sectors), v.hs, disk.sectors, directory.table, freeMap.words[..])
    {
      ghost var d := disk.sectors;
      PersistentBitmaps.WriteBack(freeMap, freeMapFile);
      ghost var d1 := disk.sectors;
      directory.WriteBack(directoryFile);
      MapThenDir(d, v.hs, d1, disk.sectors, directory.table, freeMap.words[..]);
    }

    /** In memory: gives back the data sectors of the file whose header is in `sector`, then that sector. */
    method Release(sector: nat, freeMap: Bitmap)
      requires sector < NUM_SECTORS && RootOk(HeadersOf(disk.sectors), sector)
      requires freeMap.Valid() && freeMap.numBits == NUM_SECTORS
      requires Owned(HeadersOf(disk.sectors), sector) <= freeMap.Marks()
      modifies freeMap.words
      ensures freeMap.Marks() == old(freeMap.Marks()) - Owned(HeadersOf(disk.sectors), sector)
    {
      HeaderIn(disk.sectors, NUM_SECTORS, sector);
      var fileHdr := new FileHeader(BLANK_HEADER);
      fileHdr.FetchFrom(disk, sector);
      fileHdr.Deallocate(freeMap);
      freeMap.Clear(sector);
    }

    /** The part of Remove that follows the search for the name. */
    method RemoveFound(name: seq<Byte>, sector: nat, directory: Directory, ghost v: FsView)
      requires FilesOpen(v.hs) && Shows(disk.sectors, v) && Sound(v) && directory.table == v.table
      requires exists i :: IsEntry(v.table, Key(name), i) && v.table[i].sector == sector
      modifies disk, directory
      ensures Valid() && FsInv(old(disk.sectors)) && Removed(old(disk.sectors), Key(name), disk.sectors)
    {
      ghost var d := disk.sectors;
      FileListed(d, v, Key(name), sector);
      var freeMap := FetchFreeMap(v);
      Release(sector, freeMap);
      Unlist(name, sector, directory, freeMap, v);
    }

    /** Takes the entry out of the directory, and writes both back. */
    method Unlist(name: seq<Byte>, ghost sector: nat, directory: Directory, freeMap: Bitmap, ghost v: FsView)
      requires FilesOpen(v.hs) && Shows(disk.sectors, v) && Sound(v) && directory.table == v.table
      requires DataSet(v.hs[FREE_MAP_SECTOR]) !! DataSet(v.hs[DIRECTORY_SECTOR])
      requires (exists i :: IsEntry(v.table, Key(name), i)) && Key(name) in DirMap(v.table)
      requires DirMap(v.table)[Key(name)] == sector && sector < NUM_SECTORS && RootOk(v.hs, sector)
      requires freeMap.Valid() && freeMap.numBits == NUM_SECTORS && freeMap.Marks() == v.marks - Owned(v.hs, sector)
      modifies disk, directory
      ensures Valid() && FsInv(old(disk.sectors)) && Removed(old(disk.sectors), Key(name), disk.sectors)
    {
      ghost var d := disk.sectors;
      var gone := directory.Remove(name);
      ghost var i :| IsEntry(v.table, Key(name), i) && directory.table == v.table[i := v.table[i].(inUse := false)];
      FlushRemove(directory, freeMap, v);
      ReleaseMeets(d, v, Key(name), i, sector, freeMap.words[..], disk.sectors);
    }

    /** Takes a file away, if it is there. */
    method Remove(name: seq<Byte>) returns (success: bool)
      requires Valid()
      modifies disk
      ensures Valid()
      ensures success <==> Key(name) in old(Files(disk.sectors))
      ensures success ==> Removed(old(disk.sectors), Key(name), disk.sectors)
      ensures !success ==> disk.sectors == old(disk.sectors)
    {
      ghost var v := ViewOf(disk.sectors);
      CreateRoom(disk.sectors, v, Key(name));
      var directory := FetchDirectory(v);
      var sector := directory.Find(name);
      if sector == -1 {
        success := false;
      } else {
        RemoveFound(name, sector, directory, v);
        success := true;
      }
    }

    /** Opens the file of this name, or returns null when there is none. */
    method Open(name: seq<Byte>) returns (openFile: OpenFile?)
      requires Valid()
      ensures openFile != null <==> Key(name) in Files(disk.sectors)
      ensures openFile != null ==>
                fresh(openFile) && fresh(openFile.hdr) && openFile.disk == disk && openFile.seekPosition == 0
      ensures openFile != null ==> OpenOn(openFile, Key(name))
    {
      ghost var v := ViewOf(disk.sectors);
      CreateRoom(disk.sectors, v, Key(name));
      var directory := FetchDirectory(v);
      var sector := directory.Find(name);
      openFile := null;
      if sector >= 0 {
        FileListed(disk.sectors, v, Key(name), sector);
        HeaderIn(disk.sectors, NUM_SECTORS, sector);
        openFile := new OpenFile(disk, sector);
      }
    }

    /** The handle holds the header of the file known as `key`. */
    ghost predicate OpenOn(file: OpenFile, key: Name)
      requires FsInv(disk.sectors)
      reads disk, file.hdr
    {
      && file.disk == disk && file.Valid()
      && key in Dir(disk.sectors) && 0 <= Dir(disk.sectors)[key] < NUM_SECTORS
      && file.hdr.Value() == HeadersOf(disk.sectors)[Dir(disk.sectors)[key]]
    }
  }

  /** The sectors of the two well-known files are taken, and no others. */
  ghost predicate LaidOut(mapHdr: Header, dirHdr: Header, marks: set<nat>)
  {
    && HeaderOk(mapHdr) && mapHdr.numBytes == FREE_MAP_FILE_SIZE
    && DataSet(mapHdr) !! {FREE_MAP_SECTOR, DIRECTORY_SECTOR}
    && HeaderOk(dirHdr) && dirHdr.numBytes == DIRECTORY_FILE_SIZE
    && DataSet(dirHdr) !! {FREE_MAP_SECTOR, DIRECTORY_SECTOR} + DataSet(mapHdr)
    && marks == {FREE_MAP_SECTOR, DIRECTORY_SECTOR} + DataSet(mapHdr) + DataSet(dirHdr)
  }

  lemma TwoMarks(marks: set<nat>)
    requires marks == {} + {FREE_MAP_SECTOR} + {DIRECTORY_SECTOR}
    ensures marks == {FREE_MAP_SECTOR, DIRECTORY_SECTOR} && |marks| == 2
  {
  }

  lemma SmallUnion(a: set<nat>, b: set<nat>, h: Header)
    requires HeaderOk(h) && b == DataSet(h)
    ensures |a + b| <= |a| + NUM_DIRECT
  {
    TableEntries(h.dataSectors, SectorCount(h));
  }

  /** The two headers, then the free map, then the directory, have been written. */
  lemma {:induction false} FormatMeets(d: Disk, mapHdr: Header, dirHdr: Header, d2: Disk, d3: Disk, t: seq<Entry>,
                                       ws: seq<Word>, d': Disk)
    requires d2 == WithHeader(WithHeader(d, FREE_MAP_SECTOR, mapHdr), DIRECTORY_SECTOR, dirHdr)
    requires |t| == NUM_DIR_ENTRIES && |ws| == FREE_MAP_WORDS && LaidOut(mapHdr, dirHdr, Marked(ws, NUM_SECTORS))
    requires Written(d2, mapHdr, 0, EncodeWords(ws), d3) && DecodeWords(Content(d3, mapHdr)) == ws
    requires Written(d3, dirHdr, 0, EncodeTable(t), d') && Content(d', dirHdr) == EncodeTable(t)
    requires forall i :: 0 <= i < |t| ==> !t[i].inUse
    ensures FsInv(d') && Files(d') == map[]
    ensures HeadersOf(d')[FREE_MAP_SECTOR] == mapHdr && HeadersOf(d')[DIRECTORY_SECTOR] == dirHdr
  {
    var hs2 := WithRoot(WithRoot(HeadersOf(d), FREE_MAP_SECTOR, mapHdr), DIRECTORY_SECTOR, dirHdr);
    MapThenDir(d2, hs2, d3, d', t, ws);
    assert FormatWrites(d, mapHdr, dirHdr, t, ws, d');
    FormatSound(d, mapHdr, dirHdr, t, ws, d');
    SoundIffBalanced(FsView(HeadersOf(d'), t, Marked(ws, NUM_SECTORS)));
    Seen(d', FsView(HeadersOf(d'), t, Marked(ws, NUM_SECTORS)));
  }

  /** A file found in the directory has its sectors marked. */
  lemma FileListed(d: Disk, v: FsView, key: Name, sector: nat)
    requires Shows(d, v) && Sound(v) && exists i :: IsEntry(v.table, key, i) && v.table[i].sector == sector
    ensures FsInv(d) && Dir(d) == DirMap(v.table) && key in Dir(d) && Dir(d)[key] == sector
    ensures sector < NUM_SECTORS && RootOk(v.hs, sector) && Owned(v.hs, sector) <= v.marks
    ensures DataSet(v.hs[FREE_MAP_SECTOR]) !! DataSet(v.hs[DIRECTORY_SECTOR])
  {
    SoundIffBalanced(v);
    Seen(d, v);
    var i :| IsEntry(v.table, key, i) && v.table[i].sector == sector;
    EntryInMap(v.table, key, i);
    Listed(d, key);
    MetaApart(v.hs, Dir(d), v.marks);
  }

  /** What was released in memory and then written is a removed file. */
  lemma {:induction false} ReleaseMeets(d: Disk, v: FsView, key: Name, i: int, sector: nat, ws: seq<Word>, d': Disk)
    requires Shows(d, v) && Sound(v) && |ws| == FREE_MAP_WORDS
    requires IsEntry(v.table, key, i) && key in DirMap(v.table) && DirMap(v.table)[key] == sector
    requires RootOk(v.hs, sector) && Marked(ws, NUM_SECTORS) == v.marks - Owned(v.hs, sector)
    requires MetaRewritten(d, v.hs, d', v.table[i := v.table[i].(inUse := false)], ws)
    ensures FsInv(d) && Removed(d, key, d')
    ensures HeadersOf(d')[FREE_MAP_SECTOR] == v.hs[FREE_MAP_SECTOR]
    ensures HeadersOf(d')[DIRECTORY_SECTOR] == v.hs[DIRECTORY_SECTOR]
  {
    SoundIffBalanced(v);
    EntryInMap(v.table, key, i);
    RemoveMeets(d, v, key, i, ws, d');
  }

  /** A header sector, an entry and enough data sectors are free. */
  ghost predicate CanReserve(t: seq<Entry>, marks: set<nat>, size: Int32)
  {
    && |marks| + 1 + Positive(DivRoundUp(size, SECTOR_SIZE)) <= NUM_SECTORS
    && exists j :: 0 <= j < |t| && !t[j].inUse
  }

  /** A header sector, entry `i` and the data sectors of `h` have been taken from a directory and a free map. */
  ghost predicate Reserved(t: seq<Entry>, marks: set<nat>, sector: int, h: Header, i: int, t': seq<Entry>,
                           marks': set<nat>)
  {
    && 0 <= sector < NUM_SECTORS && sector !in marks && HeaderOk(h) && DataSet(h) !! marks + {sector}
    && 0 <= i < |t| == |t'| && !t[i].inUse && t' == t[i := t'[i]] && t'[i].inUse && t'[i].sector == sector
    && marks' == marks + {sector} + DataSet(h)
  }

  /** A header in sector `sector`, then the directory `t` and the free map `ws`, have been written. */
  ghost predicate FlushedCreate(d: Disk, hs: Headers, sector: int, h: Header, t: seq<Entry>, ws: seq<Word>, d': Disk)
  {
    && 0 <= sector < NUM_SECTORS && Booted(WithRoot(hs, sector, h))
    && MetaRewritten(WithHeader(d, sector, h), WithRoot(hs, sector, h), d', t, ws)
  }

  /** What was reserved in memory and then written is a created file. */
  lemma {:induction false} ReserveMeets(d: Disk, v: FsView, key: Name, sector: int, h: Header, i: int, t: seq<Entry>,
                                        ws: seq<Word>, d': Disk)
    requires Shows(d, v) && Sound(v) && |ws| == FREE_MAP_WORDS
    requires Reserved(v.table, v.marks, sector, h, i, t, Marked(ws, NUM_SECTORS))
    requires Key(t[i].name) == key && key !in DirMap(v.table)
    requires FlushedCreate(d, v.hs, sector, h, t, ws, d')
    ensures FsInv(d) && Created(d, key, h.numBytes, d')
    ensures HeadersOf(d')[FREE_MAP_SECTOR] == v.hs[FREE_MAP_SECTOR]
    ensures HeadersOf(d')[DIRECTORY_SECTOR] == v.hs[DIRECTORY_SECTOR]
  {
    assert CreateWrites(d, v, sector, h, i, t[i], ws, d');
    CreateMeets(d, v, sector, h, i, t[i], ws, d');
  }

  lemma FreeSector(marks: set<nat>, sector: nat)
    requires FREE_MAP_SECTOR in marks && DIRECTORY_SECTOR in marks && sector !in marks
    ensures sector > DIRECTORY_SECTOR
  {
  }

  lemma FullBound(marks: set<nat>)
    requires forall x: nat :: x in marks ==> x < NUM_SECTORS
    ensures |marks| <= NUM_SECTORS
  {
    SubsetSize(marks, Below(NUM_SECTORS));
  }

  /** When Create can go ahead. */
  lemma CreateRoom(d: Disk, v: FsView, key: Name)
    requires Shows(d, v) && Sound(v)
    ensures FsInv(d) && (key in Files(d) <==> exists i :: IsEntry(v.table, key, i))
    ensures key in Files(d) <==> key in DirMap(v.table)
    ensures |v.marks| + 1 + NUM_DIRECT < NUM_SECTORS
    ensures |Files(d)| < NUM_DIR_ENTRIES <==> exists i :: 0 <= i < |v.table| && !v.table[i].inUse
    ensures forall i :: IsEntry(v.table, key, i) ==> DIRECTORY_SECTOR < v.table[i].sector < NUM_SECTORS
    ensures FREE_MAP_SECTOR in v.marks && DIRECTORY_SECTOR in v.marks && FreeMap(d) == v.marks
    ensures DataSet(v.hs[FREE_MAP_SECTOR]) !! DataSet(v.hs[DIRECTORY_SECTOR])
  {
    SoundIffBalanced(v);
    Seen(d, v);
    SameNames(d);
    assert |Files(d)| == |Files(d).Keys| == |Dir(d).Keys| == |Dir(d)|;
    RoomForOneMore(v);
    MetaApart(v.hs, Dir(d), v.marks);
    RootMarked(v.hs, Dir(d), v.marks, FREE_MAP_SECTOR);
    RootMarked(v.hs, Dir(d), v.marks, DIRECTORY_SECTOR);
    if key in Dir(d) {
      MapHasEntry(v.table, key);
    }
    forall i | IsEntry(v.table, key, i)
      ensures key in Dir(d) && DIRECTORY_SECTOR < v.table[i].sector < NUM_SECTORS
    {
      EntryInMap(v.table, key, i);
    }
  }
}

/** Whole runs of the file system against the map from names to bytes that users see. */
module FileSystemRuns {
  import opened Bytes
  import opened DiskLayout
  import opened Wrappers
  import opened OpenFiles
  import opened Directories
  import opened Bookkeeping
  import opened FileSystemSpec
  import opened FileSystemContract
  import opened FileSystems

  type FileMap = map<Name, seq<Byte>>

  /** What a user sees: the bytes of each file, the sizes they were created with, and how many sectors are free. */
  datatype State = State(files: FileMap, sizes: map<Name, int>, free: int)

  /** A buffer in memory, whose length is a C `int`. */
  type Buffer = s: seq<Byte> | |s| <= MAX_INT

  datatype Op = Create(name: seq<Byte>, size: Int32) | Remove(name: seq<Byte>)
              | Write(name: seq<Byte>, position: Int32, bytes: Buffer)

  ghost function StateOf(d: Disk): (s: State)
    requires FsInv(d)
  {
    State(Files(d), Sizes(d), NUM_SECTORS - |FreeMap(d)|)
  }

  /** The sectors that a file of this size takes, with its header. */
  function Takes(size: int): (n: nat)
  {
    1 + Positive(DivRoundUp(size, SECTOR_SIZE))
  }

  predicate Fits(s: State, key: Name, size: int)
  {
    key !in s.files && |s.files| < NUM_DIR_ENTRIES && Takes(size) <= s.free
  }

  /**
    The calls that reach outside an array: too large a file for which there is room, or a write that breaks
    the rule.
   */
  predicate Overruns(s: State, op: Op)
  {
    var key := Key(op.name);
    match op
    case Create(_, size) => Fits(s, key, size) && size > MAX_FILE_SIZE
    case Remove(_) => false
    case Write(_, position, bytes) =>
      && key in s.files && key in s.sizes && bytes != [] && position < s.sizes[key]
      && !(0 <= position && position + |bytes| <= MAX_INT)
  }

  /** The other calls: when they succeed. */
  predicate Succeeds(s: State, op: Op)
  {
    match op
    case Create(name, size) => Fits(s, Key(name), size)
    case _ => Key(op.name) in s.files && Key(op.name) in s.sizes
  }

  /** And what a user sees then: the one file named has come, gone or changed. */
  ghost function After(s: State, op: Op, content: seq<Byte>): (s': State)
    requires Succeeds(s, op)
  {
    var key := Key(op.name);
    match op
    case Create(_, size) => State(s.files[key := content], s.sizes[key := size], s.free - Takes(size))
    case Remove(_) => State(s.files - {key}, s.sizes - {key}, s.free + Takes(s.sizes[key]))
    case Write(_, position, bytes) => s.(files := s.files[key := Overwrite(s.files[key], position, bytes)])
  }

  /** What a new file may hold: anything, in the size asked for. */
  ghost predicate MayHold(op: Op, content: seq<Byte>)
  {
    op.Create? ==> |content| == Positive(op.size)
  }

  /**
    What a user may rely on in every call that does not overrun: it succeeds exactly when it should, and changes
    the one file it names.
   */
  ghost predicate AbsStep(s: State, op: Op, ok: bool, s': State)
  {
    && !Overruns(s, op) && (ok <==> Succeeds(s, op)) && (!ok ==> s' == s)
    && (ok ==> exists content :: MayHold(op, content) && s' == After(s, op, content))
  }

  /** The bytes of a file after as much of `bytes` as fits has been written at `position`. */
  ghost function Overwrite(file: seq<Byte>, position: int, bytes: seq<Byte>): (r: seq<Byte>)
    ensures |r| == |file|
  {
    var n := Clamp(|file|, |bytes|, position);
    if n == 0 then file else Splice(file, position, bytes[..n])
  }

  ghost predicate AbsRun(s: State, ops: seq<Op>, oks: seq<bool>, s': State)
    requires |oks| == |ops|
  {
    if ops == [] then s' == s else
      var n := |ops| - 1;
      exists mid :: AbsRun(s, ops[..n], oks[..n], mid) && AbsStep(mid, ops[n], oks[n], s')
  }

  /** A sound disk records a size for every file and no other name. */
  lemma SizeRecorded(d: Disk, key: Name)
    requires FsInv(d)
    ensures key in Files(d) <==> key in Sizes(d)
    ensures key in Files(d) ==> 0 <= Dir(d)[key] < NUM_SECTORS && Sizes(d)[key] == HeadersOf(d)[Dir(d)[key]].numBytes
  {
    SameNames(d);
    if key in Dir(d) {
      Listed(d, key);
    }
  }

  lemma SizesKept(d: Disk, d': Disk, key: Name)
    requires FsInv(d) && FsInv(d') && HeadersKept(d, d') && key in Dir(d) && key in Dir(d')
    ensures Sizes(d')[key] == Sizes(d)[key]
  {
    Listed(d, key);
  }

  lemma SizesAfterCreate(d: Disk, key: Name, size: Int32, d': Disk)
    requires FsInv(d) && FsInv(d') && HeadersKept(d, d') && key in Dir(d') && Dir(d') == Dir(d)[key := Dir(d')[key]]
    requires key !in Dir(d) && RootOk(HeadersOf(d'), Dir(d')[key]) && HeadersOf(d')[Dir(d')[key]].numBytes == size
    ensures Sizes(d') == Sizes(d)[key := size as int]
  {
    forall k | k in Dir(d)
      ensures Sizes(d')[k] == Sizes(d)[k]
    {
      SizesKept(d, d', k);
    }
  }

  lemma SizesAfterRemove(d: Disk, key: Name, d': Disk)
    requires FsInv(d) && FsInv(d') && HeadersKept(d, d') && Dir(d') == Dir(d) - {key}
    ensures Sizes(d') == Sizes(d) - {key}
  {
    forall k | k in Dir(d')
      ensures Sizes(d')[k] == Sizes(d)[k]
    {
      SizesKept(d, d', k);
    }
  }

  lemma SizesAfterWrite(d: Disk, d': Disk)
    requires FsInv(d) && FsInv(d') && HeadersKept(d, d') && Dir(d') == Dir(d)
    ensures Sizes(d') == Sizes(d)
  {
    forall k | k in Dir(d)
      ensures Sizes(d')[k] == Sizes(d)[k]
    {
      SizesKept(d, d', k);
    }
  }

  lemma FreeAfterCreate(d: Disk, key: Name, size: Int32, d': Disk)
    requires FsInv(d) && FsInv(d') && key in Dir(d') && RootOk(HeadersOf(d'), Dir(d')[key])
    requires HeadersOf(d')[Dir(d')[key]].numBytes == size
    requires OwnedBy(d', key) !! FreeMap(d) && FreeMap(d') == FreeMap(d) + OwnedBy(d', key)
    ensures |FreeMap(d')| == |FreeMap(d)| + Takes(size)
  {
    OwnedSize(HeadersOf(d'), Dir(d')[key]);
    Apart(FreeMap(d), OwnedBy(d', key));
  }

  lemma CreateStep(d: Disk, name: seq<Byte>, size: Int32, d': Disk)
    requires FsInv(d) && Created(d, Key(name), size, d') && CanCreate(d, Key(name), size) && size <= MAX_FILE_SIZE
    ensures AbsStep(StateOf(d), Create(name, size), true, StateOf(d'))
  {
    SizesAfterCreate(d, Key(name), size, d');
    FreeAfterCreate(d, Key(name), size, d');
    StepOf(StateOf(d), Create(name, size), Files(d')[Key(name)], StateOf(d'));
  }

  lemma StepOf(s: State, op: Op, content: seq<Byte>, s': State)
    requires !Overruns(s, op) && Succeeds(s, op) && MayHold(op, content) && s' == After(s, op, content)
    ensures AbsStep(s, op, true, s')
  {
  }

  lemma Apart<T>(a: set<T>, b: set<T>)
    requires a !! b
    ensures |a + b| == |a| + |b|
  {
  }

  lemma Inside<T>(a: set<T>, b: set<T>)
    requires b <= a
    ensures |a - b| == |a| - |b|
  {
    assert (a - b) + b == a;
  }

  lemma RemoveStep(d: Disk, name: seq<Byte>, d': Disk)
    requires FsInv(d) && Removed(d, Key(name), d')
    ensures AbsStep(StateOf(d), Remove(name), true, StateOf(d'))
  {
    var key := Key(name);
    SizesAfterRemove(d, key, d');
    Listed(d, key);
    OwnedSize(HeadersOf(d), Dir(d)[key]);
    Inside(FreeMap(d), OwnedBy(d, key));
    SizeRecorded(d, key);
    StepOf(StateOf(d), Remove(name), [], StateOf(d'));
  }

  lemma WriteStep(d: Disk, name: seq<Byte>, position: Int32, bytes: Buffer, n: nat, d': Disk)
    requires FsInv(d) && Key(name) in Files(d) && n == Clamp(|Files(d)[Key(name)]|, |bytes|, position)
    requires Wrote(d, Key(name), position, bytes[..n], d')
    requires !Overruns(StateOf(d), Write(name, position, bytes))
    ensures AbsStep(StateOf(d), Write(name, position, bytes), true, StateOf(d'))
  {
    SizesAfterWrite(d, d');
    SameAgain(Files(d), Key(name));
    SizeRecorded(d, Key(name));
    StepOf(StateOf(d), Write(name, position, bytes), [], StateOf(d'));
  }

  /** A write is served exactly when it does not overrun. */
  lemma WriteServed(d: Disk, name: seq<Byte>, h: Header, position: Int32, bytes: Buffer)
    requires FsInv(d) && Key(name) in Dir(d) && 0 <= Dir(d)[Key(name)] < NUM_SECTORS
    requires h == HeadersOf(d)[Dir(d)[Key(name)]]
    ensures Served(h.numBytes, |bytes|, position) <==> !Overruns(StateOf(d), Write(name, position, bytes))
  {
    SizeRecorded(d, Key(name));
    Listed(d, Key(name));
  }

  lemma WriteDone(d: Disk, name: seq<Byte>, h: Header, position: Int32, bytes: Buffer, d': Disk)
    requires FsInv(d) && Key(name) in Dir(d) && 0 <= Dir(d)[Key(name)] < NUM_SECTORS
    requires h == HeadersOf(d)[Dir(d)[Key(name)]]
    requires HeaderOk(h) && Written(d, h, position, bytes[..Clamp(Length(h), |bytes|, position)], d')
    requires !Overruns(StateOf(d), Write(name, position, bytes))
    ensures Survive(d, Write(name, position, bytes), d')
    ensures AbsStep(StateOf(d), Write(name, position, bytes), true, StateOf(d'))
    ensures HeadersOf(d')[FREE_MAP_SECTOR] == HeadersOf(d)[FREE_MAP_SECTOR]
    ensures HeadersOf(d')[DIRECTORY_SECTOR] == HeadersOf(d)[DIRECTORY_SECTOR]
  {
    var n := Clamp(Length(h), |bytes|, position);
    Listed(d, Key(name));
    WriteMeets(d, Key(name), h, position, bytes[..n], d');
    WriteStep(d, name, position, bytes, n, d');
  }

  lemma SameAgain<K, V>(m: map<K, V>, key: K)
    requires key in m
    ensures m[key := m[key]] == m
  {
  }

  /** Every file that is not removed is still there, with the header it had. */
  ghost predicate Survive(d: Disk, op: Op, d': Disk)
    requires FsInv(d)
  {
    && FsInv(d') && HeadersKept(d, d')
    && forall key :: key in Dir(d) && (op.Remove? ==> key != Key(op.name)) ==> key in Dir(d')
  }

  /** Writes to a file through a handle that holds its header. */
  method WriteHeld(fs: FileSystem, file: OpenFile, name: seq<Byte>, position: Int32, bytes: Buffer)
    returns (r: Outcome<bool>)
    requires fs.Valid() && fs.OpenOn(file, Key(name))
    modifies fs.disk
    ensures r.Overrun? <==> Overruns(old(StateOf(fs.disk.sectors)), Write(name, position, bytes))
    ensures r.Done? ==> fs.Valid() && Survive(old(fs.disk.sectors), Write(name, position, bytes), fs.disk.sectors)
    ensures r.Done? ==>
              AbsStep(old(StateOf(fs.disk.sectors)), Write(name, position, bytes), r.value, StateOf(fs.disk.sectors))
  {
    ghost var d := fs.disk.sectors;
    WriteServed(d, name, file.hdr.Value(), position, bytes);
    var n := file.WriteAt(bytes, |bytes|, position);
    if n.Overrun? {
      return Overrun;
    }
    WriteDone(d, name, file.hdr.Value(), position, bytes, fs.disk.sectors);
    return Done(true);
  }

  /** Opens a file and writes to it. */
  method WriteFile(fs: FileSystem, name: seq<Byte>, position: Int32, bytes: Buffer) returns (r: Outcome<bool>)
    requires fs.Valid()
    modifies fs.disk
    ensures r.Overrun? <==> Overruns(old(StateOf(fs.disk.sectors)), Write(name, position, bytes))
    ensures r.Done? ==> fs.Valid() && Survive(old(fs.disk.sectors), Write(name, position, bytes), fs.disk.sectors)
    ensures r.Done? ==>
              AbsStep(old(StateOf(fs.disk.sectors)), Write(name, position, bytes), r.value, StateOf(fs.disk.sectors))
  {
    var file := fs.Open(name);
    if file == null {
      return Done(false);
    }
    r := WriteHeld(fs, file, name, position, bytes);
  }

  /** Opens a file and reads from it: the bytes that exist, if and only if the request keeps to the rule. */
  method ReadFile(fs: FileSystem, name: seq<Byte>, position: Int32, numBytes: Int32)
    returns (found: bool, r: Outcome<seq<Byte>>)
    requires fs.Valid()
    ensures found <==> Key(name) in Files(fs.disk.sectors)
    ensures found ==> Key(name) in Sizes(fs.disk.sectors) && MIN_INT <= Sizes(fs.disk.sectors)[Key(name)] <= MAX_INT
    ensures found ==> if Served(Sizes(fs.disk.sectors)[Key(name)], numBytes, position)
                      then r.Done? && Delivers(Files(fs.disk.sectors)[Key(name)], numBytes, position, r.value)
                      else r.Overrun? || |r.value| > |Files(fs.disk.sectors)[Key(name)]|
  {
    SizeRecorded(fs.disk.sectors, Key(name));
    var file := fs.Open(name);
    if file == null {
      return false, Done([]);
    }
    Listed(fs.disk.sectors, Key(name));
    r := file.ReadAt(numBytes, position);
    return true, r;
  }

  method CreateFile(fs: FileSystem, name: seq<Byte>, size: Int32) returns (r: Outcome<bool>)
    requires fs.Valid()
    modifies fs.disk
    ensures r.Overrun? <==> Overruns(old(StateOf(fs.disk.sectors)), Create(name, size))
    ensures r.Done? ==> fs.Valid() && Survive(old(fs.disk.sectors), Create(name, size), fs.disk.sectors)
    ensures r.Done? ==> AbsStep(old(StateOf(fs.disk.sectors)), Create(name, size), r.value, StateOf(fs.disk.sectors))
  {
    ghost var d := fs.disk.sectors;
    r := fs.Create(name, size);
    match r
    case Done(ok) =>
      if ok {
        CreateStep(d, name, size, fs.disk.sectors);
        CreateSurvives(d, name, size, fs.disk.sectors);
      } else {
        AllSurvive(d, Create(name, size));
      }
    case Overrun =>
  }

  lemma CreateSurvives(d: Disk, name: seq<Byte>, size: Int32, d': Disk)
    requires FsInv(d) && Created(d, Key(name), size, d')
    ensures Survive(d, Create(name, size), d')
  {
    assert forall key :: key in Dir(d) ==> key in Dir(d');
  }

  lemma RemoveSurvives(d: Disk, name: seq<Byte>, d': Disk)
    requires FsInv(d) && Removed(d, Key(name), d')
    ensures Survive(d, Remove(name), d')
  {
    assert forall key :: key in Dir(d) && key != Key(name) ==> key in Dir(d');
  }

  lemma AllSurvive(d: Disk, op: Op)
    requires FsInv(d)
    ensures Survive(d, op, d)
  {
  }

  method RemoveFile(fs: FileSystem, name: seq<Byte>) returns (ok: bool)
    requires fs.Valid()
    modifies fs.disk
    ensures fs.Valid() && Survive(old(fs.disk.sectors), Remove(name), fs.disk.sectors)
    ensures AbsStep(old(StateOf(fs.disk.sectors)), Remove(name), ok, StateOf(fs.disk.sectors))
  {
    ghost var d := fs.disk.sectors;
    ok := fs.Remove(name);
    if ok {
      RemoveStep(d, name, fs.disk.sectors);
      RemoveSurvives(d, name, fs.disk.sectors);
    } else {
      AllSurvive(d, Remove(name));
    }
  }

  method Step(fs: FileSystem, op: Op) returns (r: Outcome<bool>)
    requires fs.Valid()
    modifies fs.disk
    ensures r.Overrun? <==> Overruns(old(StateOf(fs.disk.sectors)), op)
    ensures r.Done? ==> fs.Valid() && Survive(old(fs.disk.sectors), op, fs.disk.sectors)
    ensures r.Done? ==> AbsStep(old(StateOf(fs.disk.sectors)), op, r.value, StateOf(fs.disk.sectors))
  {
    match op
    case Create(name, size) => r := CreateFile(fs, name, size);
    case Remove(name) =>
      var ok := RemoveFile(fs, name);
      r := Done(ok);
    case Write(name, position, bytes) => r := WriteFile(fs, name, position, bytes);
  }

  /** The calls made, their results, and where that leaves the user: at the end, or at a call that overruns. */
  ghost predicate RunsTo(s: State, ops: seq<Op>, oks: seq<bool>, s': State)
  {
    && |oks| <= |ops| && AbsRun(s, ops[..|oks|], oks, s')
    && (|oks| < |ops| ==> Overruns(s', ops[|oks|]))
  }

  /** A run that has ended at a call that overruns. */
  lemma RunEnded(s: State, ops: seq<Op>, n: nat, oks: seq<bool>, s': State)
    requires |oks| < n <= |ops| && RunsTo(s, ops[..n], oks, s')
    ensures RunsTo(s, ops, oks, s')
  {
    assert ops[..n][..|oks|] == ops[..|oks|];
  }

  /** One more call. */
  lemma RunNext(s: State, ops: seq<Op>, n: nat, oks: seq<bool>, mid: State)
    requires |oks| == n < |ops| && RunsTo(s, ops[..n], oks, mid)
    ensures Overruns(mid, ops[n]) ==> RunsTo(s, ops, oks, mid)
    ensures forall ok, s' :: n + 1 == |ops| && AbsStep(mid, ops[n], ok, s') ==> RunsTo(s, ops, oks + [ok], s')
  {
    assert ops[..n][..n] == ops[..n];
    forall ok, s' | n + 1 == |ops| && AbsStep(mid, ops[n], ok, s')
      ensures RunsTo(s, ops, oks + [ok], s')
    {
      var oks' := oks + [ok];
      assert ops[..n + 1] == ops && oks'[..n] == oks && oks'[n] == ok;
      assert AbsRun(s, ops[..n], oks'[..n], mid) && AbsStep(mid, ops[n], oks'[n], s');
    }
  }

  /**
    Any run, from any sound disk: up to the first call that overruns, the disk stays sound and the files are
    those the user expects.
   */
  method Run(fs: FileSystem, ops: seq<Op>) returns (oks: seq<bool>)
    requires fs.Valid()
    modifies fs.disk
    ensures |oks| == |ops| ==> fs.Valid() && RunsTo(old(StateOf(fs.disk.sectors)), ops, oks, StateOf(fs.disk.sectors))
    ensures |oks| != |ops| ==> exists s :: RunsTo(old(StateOf(fs.disk.sectors)), ops, oks, s)
    decreases |ops|
  {
    if ops == [] {
      return [];
    }
    ghost var s := StateOf(fs.disk.sectors);
    var n := |ops| - 1;
    oks := Run(fs, ops[..n]);
    if |oks| != n {
      ghost var s' :| RunsTo(s, ops[..n], oks, s');
      RunEnded(s, ops, n, oks, s');
      return;
    }
    RunNext(s, ops, n, oks, StateOf(fs.disk.sectors));
    var r := Step(fs, ops[n]);
    if r.Done? {
      oks := oks + [r.value];
    }
  }

  /** A call on the file system, or a write through one of the handles kept open. */
  datatype Act = Call(op: Op) | WriteTo(handle: nat, position: Int32, bytes: Buffer)

  /** Each handle is open on the file of its name. */
  ghost predicate Held(fs: FileSystem, handles: seq<OpenFile>, names: seq<seq<Byte>>)
    requires FsInv(fs.disk.sectors) && |handles| == |names|
    reads fs.disk, set i | 0 <= i < |handles| :: handles[i].hdr
  {
    forall i :: 0 <= i < |handles| ==> fs.OpenOn(handles[i], Key(names[i]))
  }

  /** None of the first `n` names is `key`. */
  ghost predicate NoneNamed(names: seq<seq<Byte>>, key: Name, n: nat)
    requires n <= |names|
  {
    n == 0 || (NoneNamed(names, key, n - 1) && Key(names[n - 1]) != key)
  }

  lemma {:induction false} NotNamed(names: seq<seq<Byte>>, key: Name, n: nat, i: nat)
    requires i < n <= |names| && NoneNamed(names, key, n)
    ensures Key(names[i]) != key
  {
    if i < n - 1 {
      NotNamed(names, key, n - 1, i);
    }
  }

  /** The act uses a handle that there is, and does not remove a file that one is open on. */
  ghost predicate Keeps(names: seq<seq<Byte>>, act: Act)
  {
    match act
    case Call(op) => op.Remove? ==> NoneNamed(names, Key(op.name), |names|)
    case WriteTo(handle, _, _) => handle < |names|
  }

  /** The call that opens the file anew. */
  ghost function AsOp(names: seq<seq<Byte>>, act: Act): (op: Op)
    requires Keeps(names, act)
  {
    match act
    case Call(op) => op
    case WriteTo(handle, position, bytes) => Write(names[handle], position, bytes)
  }

  ghost function AsOps(names: seq<seq<Byte>>, acts: seq<Act>): (ops: seq<Op>)
    requires forall i :: 0 <= i < |acts| ==> Keeps(names, acts[i])
    ensures |ops| == |acts| && forall i :: 0 <= i < |acts| ==> ops[i] == AsOp(names, acts[i])
  {
    if acts == [] then [] else AsOps(names, acts[..|acts| - 1]) + [AsOp(names, acts[|acts| - 1])]
  }

  /** A header stays good through every step that does not remove its file. */
  lemma HeaderStays(d: Disk, op: Op, d': Disk, key: Name)
    requires FsInv(d) && Survive(d, op, d') && key in Dir(d) && 0 <= Dir(d)[key] < NUM_SECTORS
    requires op.Remove? ==> key != Key(op.name)
    ensures key in Dir(d') && Dir(d')[key] == Dir(d)[key] && HeadersOf(d')[Dir(d)[key]] == HeadersOf(d)[Dir(d)[key]]
  {
  }

  method CallHeld(fs: FileSystem, handles: seq<OpenFile>, names: seq<seq<Byte>>, op: Op) returns (r: Outcome<bool>)
    requires fs.Valid() && |handles| == |names| && Held(fs, handles, names) && Keeps(names, Call(op))
    modifies fs.disk
    ensures r.Overrun? <==> Overruns(old(StateOf(fs.disk.sectors)), op)
    ensures r.Done? ==> fs.Valid() && Held(fs, handles, names)
    ensures r.Done? ==> AbsStep(old(StateOf(fs.disk.sectors)), op, r.value, StateOf(fs.disk.sectors))
  {
    ghost var d := fs.disk.sectors;
    r := Step(fs, op);
    if r.Done? {
      forall i | 0 <= i < |handles|
        ensures fs.OpenOn(handles[i], Key(names[i]))
      {
        if op.Remove? {
          NotNamed(names, Key(op.name), |names|, i);
        }
        HeaderStays(d, op, fs.disk.sectors, Key(names[i]));
      }
    }
  }

  method WriteThrough(fs: FileSystem, handles: seq<OpenFile>, names: seq<seq<Byte>>, handle: nat, position: Int32,
                      bytes: Buffer)
    returns (r: Outcome<bool>)
    requires fs.Valid() && handle < |handles| == |names| && Held(fs, handles, names)
    modifies fs.disk
    ensures r.Overrun? <==> Overruns(old(StateOf(fs.disk.sectors)), Write(names[handle], position, bytes))
    ensures r.Done? ==> fs.Valid() && Held(fs, handles, names)
    ensures r.Done? ==> AbsStep(old(StateOf(fs.disk.sectors)), Write(names[handle], position, bytes), r.value,
                                StateOf(fs.disk.sectors))
  {
    ghost var d := fs.disk.sectors;
    r := WriteHeld(fs, handles[handle], names[handle], position, bytes);
    if r.Done? {
      forall i | 0 <= i < |handles|
        ensures fs.OpenOn(handles[i], Key(names[i]))
      {
        HeaderStays(d, Write(names[handle], position, bytes), fs.disk.sectors, Key(names[i]));
      }
    }
  }

  method DoAct(fs: FileSystem, handles: seq<OpenFile>, names: seq<seq<Byte>>, act: Act) returns (r: Outcome<bool>)
    requires fs.Valid() && |handles| == |names| && Held(fs, handles, names) && Keeps(names, act)
    modifies fs.disk
    ensures r.Overrun? <==> Overruns(old(StateOf(fs.disk.sectors)), AsOp(names, act))
    ensures r.Done? ==> fs.Valid() && Held(fs, handles, names)
    ensures r.Done? ==> AbsStep(old(StateOf(fs.disk.sectors)), AsOp(names, act), r.value, StateOf(fs.disk.sectors))
  {
    match act
    case Call(op) => r := CallHeld(fs, handles, names, op);
    case WriteTo(handle, position, bytes) => r := WriteThrough(fs, handles, names, handle, position, bytes);
  }

  /**
    Any run in which files are kept open while others come and go: writing through a handle is writing to the
    file of that name.
   */
  method RunHeld(fs: FileSystem, handles: seq<OpenFile>, names: seq<seq<Byte>>, acts: seq<Act>) returns (oks: seq<bool>)
    requires fs.Valid() && |handles| == |names| && Held(fs, handles, names)
    requires forall i :: 0 <= i < |acts| ==> Keeps(names, acts[i])
    modifies fs.disk
    ensures |oks| == |acts| ==> fs.Valid() && Held(fs, handles, names)
    ensures |oks| == |acts| ==> RunsTo(old(StateOf(fs.disk.sectors)), AsOps(names, acts), oks, StateOf(fs.disk.sectors))
    ensures |oks| != |acts| ==> exists s :: RunsTo(old(StateOf(fs.disk.sectors)), AsOps(names, acts), oks, s)
    decreases |acts|
  {
    if acts == [] {
      return [];
    }
    ghost var s, ops := StateOf(fs.disk.sectors), AsOps(names, acts);
    var n := |acts| - 1;
    oks := RunHeld(fs, handles, names, acts[..n]);
    AsOpsPrefix(names, acts, n);
    if |oks| != n {
      ghost var s' :| RunsTo(s, ops[..n], oks, s');
      RunEnded(s, ops, n, oks, s');
      return;
    }
    RunNext(s, ops, n, oks, StateOf(fs.disk.sectors));
    var r := DoAct(fs, handles, names, acts[n]);
    if r.Done? {
      oks := oks + [r.value];
    }
  }

  lemma {:induction false} AsOpsPrefix(names: seq<seq<Byte>>, acts: seq<Act>, n: nat)
    requires n <= |acts| && forall i :: 0 <= i < |acts| ==> Keeps(names, acts[i])
    ensures AsOps(names, acts[..n]) == AsOps(names, acts)[..n]
  {
  }

  /**
    On every file system with an entry left, a file one byte too large for its header finds room, and overruns
    the header.
   */
  method TooLargeHappens(fs: FileSystem, name: seq<Byte>) returns (r: Outcome<bool>)
    requires fs.Valid() && Key(name) !in Files(fs.disk.sectors) && |Files(fs.disk.sectors)| < NUM_DIR_ENTRIES
    modifies fs.disk
    ensures r == Overrun
  {
    CreateRoom(fs.disk.sectors, ViewOf(fs.disk.sectors), Key(name));
    r := CreateFile(fs, name, MAX_FILE_SIZE + 1);
  }
}
