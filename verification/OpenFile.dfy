/**
  Reading and writing the bytes of one file: code/filesys/synchdisk.h as a store of sectors,
  code/filesys/filehdr.cc and the disk half of code/filesys/openfile.cc.
 */
module OpenFiles {
  import opened Bytes
  import opened Bitmaps
  import opened DiskLayout
  import opened Wrappers

  /** The disk as the file system uses it: whole sectors, one caller at a time. */
  class SynchDisk {
    var sectors: Disk

    constructor (contents: Disk)
      ensures sectors == contents
    {
      sectors := contents;
    }

    method ReadSector(sector: nat) returns (data: Sector)
      requires sector < NUM_SECTORS
      ensures data == sectors[sector]
    {
      data := sectors[sector];
    }

    method WriteSector(sector: nat, data: Sector)
      requires sector < NUM_SECTORS
      modifies this
      ensures sectors == old(sectors)[sector := data]
    {
      sectors := sectors[sector := data];
    }
  }

  class FileHeader {
    var numBytes: Int32
    var numSectors: Int32
    var dataSectors: seq<Int32>

    /** The structure's current fields. */
    function Value(): (h: Header)
      requires |dataSectors| == NUM_DIRECT
      reads this
    {
      Header(numBytes, numSectors, dataSectors)
    }

    /** The fields start out as whatever memory held. */
    constructor (garbage: Header)
      ensures |dataSectors| == NUM_DIRECT && Value() == garbage
    {
      numBytes, numSectors, dataSectors := garbage.numBytes, garbage.numSectors, garbage.dataSectors;
    }

    /**
      Takes one free sector per sector of data, or nothing when too few are free; a file too large for its
      header overruns the table.
     */
    method Allocate(freeMap: Bitmap, fileSize: Int32) returns (r: Outcome<bool>)
      requires |dataSectors| == NUM_DIRECT && freeMap.Valid() && freeMap.numBits == NUM_SECTORS
      modifies this, freeMap.words
      ensures |dataSectors| == NUM_DIRECT
      ensures r == Done(false) <==> |old(freeMap.Marks())| + DivRoundUp(fileSize, SECTOR_SIZE) > NUM_SECTORS
      ensures r.Overrun? <==>
                |old(freeMap.Marks())| + DivRoundUp(fileSize, SECTOR_SIZE) <= NUM_SECTORS && fileSize > MAX_FILE_SIZE
      ensures r == Done(false) ==> freeMap.Marks() == old(freeMap.Marks())
      ensures r == Done(true) ==> HeaderOk(Value()) && numBytes == fileSize
      ensures r == Done(true) ==> DataSet(Value()) !! old(freeMap.Marks())
      ensures r == Done(true) ==> freeMap.Marks() == old(freeMap.Marks()) + DataSet(Value())
    {
      numBytes := fileSize;
      numSectors := DivRoundUp(fileSize, SECTOR_SIZE);
      var clear := freeMap.NumClear();
      if clear < numSectors {
        return Done(false);
      }
      var ok := TakeSectors(freeMap);
      if !ok {
        return Overrun;
      }
      SizeFits(Value());
      return Done(true);
    }

    /** The loop of Allocate: fills the table with free sectors, until the table overruns. */
    method TakeSectors(freeMap: Bitmap) returns (ok: bool)
      requires |dataSectors| == NUM_DIRECT
      requires freeMap.Valid() && freeMap.numBits == NUM_SECTORS && |freeMap.Marks()| + numSectors <= NUM_SECTORS
      modifies this`dataSectors, freeMap.words
      ensures |dataSectors| == NUM_DIRECT
      ensures ok <==> numSectors <= NUM_DIRECT
      ensures ok ==> Taken(old(freeMap.Marks()), dataSectors, Positive(numSectors), freeMap.Marks())
    {
      ghost var marks := freeMap.Marks();
      MarkedBelow(freeMap.words[..], NUM_SECTORS);
      var i := 0;
      while i < numSectors
        invariant 0 <= i <= Positive(numSectors) && i <= NUM_DIRECT == |dataSectors|
        invariant Taken(marks, dataSectors, i, freeMap.Marks())
      {
        var inside := TakeSector(freeMap, i, marks);
        if !inside {
          return false;
        }
        i := i + 1;
      }
      return true;
    }

    /** One turn of the loop: a free sector for entry `i`, if there is such an entry. */
    method TakeSector(freeMap: Bitmap, i: nat, ghost marks: set<nat>) returns (ok: bool)
      requires i <= NUM_DIRECT == |dataSectors| && freeMap.Valid() && freeMap.numBits == NUM_SECTORS
      requires Taken(marks, dataSectors, i, freeMap.Marks()) && |marks| + i < NUM_SECTORS
      requires forall m: nat :: m in marks ==> m < NUM_SECTORS
      modifies this`dataSectors, freeMap.words
      ensures |dataSectors| == NUM_DIRECT && (ok <==> i < NUM_DIRECT)
      ensures ok ==> Taken(marks, dataSectors, i + 1, freeMap.Marks())
    {
      var sector := freeMap.FindAndSet();
      if i >= |dataSectors| {
        return false;
      }
      TakeNext(marks, dataSectors, i, sector);
      dataSectors := dataSectors[i := sector];
      return true;
    }

    /** Gives a file's data sectors back; each one ought to be marked. */
    method Deallocate(freeMap: Bitmap)
      requires |dataSectors| == NUM_DIRECT && HeaderOk(Value())
      requires freeMap.Valid() && freeMap.numBits == NUM_SECTORS && DataSet(Value()) <= freeMap.Marks()
      modifies freeMap.words
      ensures freeMap.Marks() == old(freeMap.Marks()) - DataSet(Value())
    {
      TableEntries(dataSectors, SectorCount(Value()));
      var i := 0;
      while i < numSectors
        invariant 0 <= i <= SectorCount(Value())
        invariant freeMap.Marks() == old(freeMap.Marks()) - Entries(dataSectors, i)
      {
        EntriesNext(dataSectors, i, SectorCount(Value()));
        var marked := freeMap.Test(dataSectors[i]);
        assert marked;
        freeMap.Clear(dataSectors[i]);
        i := i + 1;
      }
    }

    method FetchFrom(disk: SynchDisk, sector: nat)
      requires sector < NUM_SECTORS
      modifies this
      ensures |dataSectors| == NUM_DIRECT && Value() == DecodeHeader(disk.sectors[sector])
    {
      var data := disk.ReadSector(sector);
      var h := DecodeHeader(data);
      numBytes, numSectors, dataSectors := h.numBytes, h.numSectors, h.dataSectors;
    }

    method WriteBack(disk: SynchDisk, sector: nat)
      requires |dataSectors| == NUM_DIRECT && sector < NUM_SECTORS
      modifies disk
      ensures disk.sectors == old(disk.sectors)[sector := EncodeHeader(Value())]
      ensures DecodeHeader(disk.sectors[sector]) == Value()
    {
      HeaderRoundTrip(Value());
      disk.WriteSector(sector, EncodeHeader(Value()));
    }

    /** The sector that holds a byte of the file, whatever is on the disk. */
    method ByteToSector(offset: nat, ghost d: Disk) returns (sector: nat)
      requires |dataSectors| == NUM_DIRECT && HeaderOk(Value()) && offset < Length(Value())
      ensures sector in DataSet(Value()) && sector < NUM_SECTORS
      ensures d[sector][offset % SECTOR_SIZE] == Content(d, Value())[offset]
      ensures offset / SECTOR_SIZE < NUM_DIRECT && sector == dataSectors[offset / SECTOR_SIZE]
    {
      ByteIsThere(d, Value(), offset);
      sector := dataSectors[offset / SECTOR_SIZE];
    }
  }

  /**
    What ReadAt and WriteAt work out from a request: what to transfer, which sectors, through how large a
    buffer, from where in it.
   */
  datatype Transfer = Transfer(numBytes: Int32, firstSector: Int32, lastSector: Int32, bufferSize: Int32, skip: Int32)

  /** The arithmetic is that of C integers, for a file of `length` bytes and a request that is not refused. */
  function Plan(length: Int32, numBytes: Int32, position: Int32): (t: Transfer)
  {
    var n := if Wrap(position + numBytes) > length then Wrap(length - position) else numBytes;
    var first, last := TruncDiv(position, SECTOR_SIZE), LastSector(position, n);
    Transfer(n, first, last, Wrap((1 + last - first) * SECTOR_SIZE), Wrap(position - first * SECTOR_SIZE))
  }

  function LastSector(position: Int32, n: Int32): (last: Int32)
  {
    TruncDiv(Wrap(Wrap(position + n) - 1), SECTOR_SIZE)
  }

  /** The sectors are in the table of the header, and what is copied is in the buffer. */
  predicate InBounds(t: Transfer)
  {
    && (t.firstSector <= t.lastSector ==> 0 <= t.firstSector && t.lastSector < NUM_DIRECT)
    && 0 <= t.numBytes && 0 <= t.skip && t.skip + t.numBytes <= t.bufferSize
  }

  /**
    What a caller must keep to: the request is refused at once, or neither starts before the file nor ends
    beyond the integers.
   */
  predicate Served(length: Int32, numBytes: Int32, position: Int32)
  {
    numBytes <= 0 || position >= length || (0 <= position && position + numBytes <= MAX_INT)
  }

  /** `bytes` are those that exist in the requested range. */
  ghost predicate Delivers(content: seq<Byte>, numBytes: int, position: int, bytes: seq<Byte>)
  {
    && |bytes| == Clamp(|content|, numBytes, position)
    && (bytes != [] ==> bytes == content[position..position + |bytes|])
  }

  /**
    A request that keeps to the rule is clamped to the file and stays in bounds. One that does not
    reaches outside, unless its end has wrapped around so far that no sector at all is transferred.
   */
  lemma PlanCases(length: Int32, numBytes: Int32, position: Int32, t: Transfer)
    requires length <= MAX_FILE_SIZE && 0 < numBytes && position < length && t == Plan(length, numBytes, position)
    ensures Served(length, numBytes, position) ==> PlanServes(length, numBytes, position, t)
    ensures !Served(length, numBytes, position) && InBounds(t) ==> PlanStrays(length, position, t)
  {
    if Served(length, numBytes, position) {
      PlanInFile(length, numBytes, position, t);
    } else if position < 0 {
      PlanBefore(length, numBytes, position, t);
    } else {
      PlanWraps(length, numBytes, position, t);
    }
  }

  /** The transfer is that of the clamped range. */
  predicate PlanServes(length: Int32, numBytes: Int32, position: Int32, t: Transfer)
  {
    && 0 <= position && 0 < t.numBytes == Clamp(Positive(length), numBytes, position) && InBounds(t)
    && 0 <= t.firstSector <= t.lastSector && t.skip == position - t.firstSector * SECTOR_SIZE
    && t.firstSector * SECTOR_SIZE <= position < (t.firstSector + 1) * SECTOR_SIZE
    && t.lastSector * SECTOR_SIZE < position + t.numBytes <= (t.lastSector + 1) * SECTOR_SIZE
  }

  /** More bytes than the file has, and no sectors; the last of them is not aligned and lies before the file. */
  predicate PlanStrays(length: Int32, position: Int32, t: Transfer)
  {
    && 0 <= position && t.lastSector < t.firstSector && t.numBytes > length
    && MIN_INT <= t.lastSector * SECTOR_SIZE < 0
    && Wrap(position + t.numBytes) != Wrap((t.lastSector + 1) * SECTOR_SIZE)
  }

  lemma PlanInFile(length: Int32, numBytes: Int32, position: Int32, t: Transfer)
    requires length <= MAX_FILE_SIZE && 0 < numBytes && 0 <= position < length && position + numBytes <= MAX_INT
    requires t == Plan(length, numBytes, position)
    ensures PlanServes(length, numBytes, position, t)
  {
  }

  lemma PlanBefore(length: Int32, numBytes: Int32, position: Int32, t: Transfer)
    requires length <= MAX_FILE_SIZE && 0 < numBytes && position < length && position < 0
    requires t == Plan(length, numBytes, position)
    ensures !InBounds(t)
  {
  }

  lemma PlanWraps(length: Int32, numBytes: Int32, position: Int32, t: Transfer)
    requires length <= MAX_FILE_SIZE && 0 <= position < length && position + numBytes > MAX_INT
    requires t == Plan(length, numBytes, position)
    ensures InBounds(t) ==> PlanStrays(length, position, t)
  {
    WrapOnce(position + numBytes);
    LastWraps(position, numBytes);
  }

  lemma LastWraps(position: Int32, n: Int32)
    requires 0 <= position < MAX_FILE_SIZE && position + n > MAX_INT
    ensures var last := LastSector(position, n);
            || last == 0xff_ffff
            || (last < 0 && MIN_INT <= last * SECTOR_SIZE < 0 && Wrap(position + n) != Wrap((last + 1) * SECTOR_SIZE))
  {
    var end := position + n - WORD_VALUES;
    WrapOnce(position + n);
    if end == MIN_INT {
      assert Wrap(end - 1) == MAX_INT;
    } else {
      LastBeforeFile(end, LastSector(position, n));
    }
  }

  lemma LastBeforeFile(end: int, last: int)
    requires MIN_INT < end < 0 && last == TruncDiv(end - 1, SECTOR_SIZE)
    ensures end - 1 <= last * SECTOR_SIZE < end - 1 + SECTOR_SIZE && last <= 0
    ensures (last + 1) * SECTOR_SIZE != end
  {
  }

  lemma WrapOnce(n: int)
    requires MAX_INT < n <= MAX_INT + WORD_VALUES
    ensures Wrap(n) == n - WORD_VALUES
  {
  }

  /** The part that ReadAt and WriteAt have in common. */
  method Arrange(hdr: FileHeader, numBytes: Int32, position: Int32) returns (t: Transfer)
    requires |hdr.dataSectors| == NUM_DIRECT && HeaderOk(hdr.Value()) && 0 < numBytes && position < hdr.numBytes
    ensures Served(hdr.numBytes, numBytes, position) ==> PlanServes(hdr.numBytes, numBytes, position, t)
    ensures !Served(hdr.numBytes, numBytes, position) && InBounds(t) ==> PlanStrays(hdr.numBytes, position, t)
  {
    t := Plan(hdr.numBytes, numBytes, position);
    PlanCases(hdr.numBytes, numBytes, position, t);
  }

  /** A buffer fresh from `new char[n]`: its contents are not specified. */
  method NewBuffer(n: nat) returns (buf: seq<Byte>)
    ensures |buf| == n
  {
    buf := seq(n, _ => 0);
  }

  class OpenFile {
    const disk: SynchDisk
    const hdr: FileHeader
    var seekPosition: Int32

    ghost predicate Valid()
      reads hdr
    {
      |hdr.dataSectors| == NUM_DIRECT && HeaderOk(hdr.Value())
    }

    constructor (disk: SynchDisk, sector: nat)
      requires sector < NUM_SECTORS && HeaderOk(DecodeHeader(disk.sectors[sector]))
      ensures Valid() && fresh(hdr)
      ensures this.disk == disk && seekPosition == 0
      ensures hdr.Value() == DecodeHeader(disk.sectors[sector])
    {
      this.disk := disk;
      hdr := new FileHeader(BLANK_HEADER);
      seekPosition := 0;
      new;
      hdr.FetchFrom(disk, sector);
    }

    /** Where sector `i` of the file is on the disk. */
    method SectorOf(i: nat) returns (sector: nat)
      requires Valid() && i * SECTOR_SIZE < Length(hdr.Value())
      ensures sector < NUM_SECTORS && i < |hdr.dataSectors| && sector == hdr.dataSectors[i]
    {
      sector := hdr.ByteToSector(i * SECTOR_SIZE, disk.sectors);
    }

    /** Brings consecutive sectors of the file into a buffer. */
    method ReadSectors(firstSector: nat, lastSector: nat, ghost ss: seq<Sector>) returns (buf: seq<Byte>)
      requires Valid() && lastSector * SECTOR_SIZE < Length(hdr.Value())
      requires firstSector <= lastSector < |ss| && Holds(disk.sectors, hdr.dataSectors, ss)
      ensures buf == Flat(ss[firstSector..lastSector + 1])
    {
      buf := [];
      for i := firstSector to lastSector + 1
        invariant buf == Flat(ss[firstSector..i])
      {
        var sector := SectorOf(i);
        var data := disk.ReadSector(sector);
        FlatNext(ss, firstSector, i);
        buf := buf + data;
      }
    }

    /** Returns the bytes that exist in the requested range if and only if the request keeps to the rule. */
    method ReadAt(numBytes: Int32, position: Int32) returns (r: Outcome<seq<Byte>>)
      requires Valid()
      ensures Served(hdr.numBytes, numBytes, position) ==>
                r.Done? && Delivers(Content(disk.sectors, hdr.Value()), numBytes, position, r.value)
      ensures !Served(hdr.numBytes, numBytes, position) ==> r.Overrun? || |r.value| > Length(hdr.Value())
      ensures !Served(hdr.numBytes, numBytes, position) && position < 0 ==> r.Overrun?
    {
      var fileLength := hdr.numBytes;
      if numBytes <= 0 || position >= fileLength {
        return Done([]);
      }
      var t := Arrange(hdr, numBytes, position);
      if !InBounds(t) {
        return Overrun;
      }
      if t.lastSector < t.firstSector {
        var junk := NewBuffer(t.numBytes);
        return Done(junk);
      }
      var into := ReadRange(t.firstSector, t.lastSector, position, t.numBytes);
      return Done(into);
    }

    /** Reads the sectors of a range of the file, and copies the range. */
    method ReadRange(firstSector: nat, lastSector: nat, position: nat, n: nat) returns (into: seq<Byte>)
      requires Valid() && 0 < n && position + n <= Length(hdr.Value())
      requires firstSector * SECTOR_SIZE <= position < (firstSector + 1) * SECTOR_SIZE
      requires lastSector * SECTOR_SIZE < position + n <= (lastSector + 1) * SECTOR_SIZE
      ensures into == Content(disk.sectors, hdr.Value())[position..position + n]
    {
      RangeOfFile(disk.sectors, hdr.Value(), firstSector, lastSector, position, n);
      var buf := ReadSectors(firstSector, lastSector, DataSectors(disk.sectors, hdr.Value()));
      var skip := position - firstSector * SECTOR_SIZE;
      into := buf[skip..skip + n];
    }

    /** Writes a buffer of whole sectors over consecutive sectors of the file. */
    method WriteSectors(buf: seq<Byte>, firstSector: nat, lastSector: nat)
      requires Valid() && lastSector * SECTOR_SIZE < Length(hdr.Value())
      requires firstSector <= lastSector < |hdr.dataSectors| && |buf| == (1 + lastSector - firstSector) * SECTOR_SIZE
      requires forall i :: firstSector <= i <= lastSector ==> 0 <= hdr.dataSectors[i] < NUM_SECTORS
      modifies disk
      ensures disk.sectors ==
                PutSectors(old(disk.sectors), hdr.dataSectors, firstSector, buf, 1 + lastSector - firstSector)
    {
      for i := firstSector to lastSector + 1
        invariant disk.sectors == PutSectors(old(disk.sectors), hdr.dataSectors, firstSector, buf, i - firstSector)
      {
        var start := (i - firstSector) * SECTOR_SIZE;
        var sector := SectorOf(i);
        disk.WriteSector(sector, buf[start..start + SECTOR_SIZE]);
      }
    }

    /** Reads the part of one sector that belongs to the file. */
    method ReadInSector(start: nat) returns (into: seq<Byte>)
      requires Valid() && start < Length(hdr.Value())
      ensures into == InSector(Content(disk.sectors, hdr.Value()), start)
    {
      var r := ReadAt(SECTOR_SIZE, start);
      into := r.value;
    }

    /** A buffer for the sectors of a write, with the sectors that are only partly overwritten read in. */
    method ReadAround(firstSector: nat, lastSector: nat, position: nat, n: nat) returns (buf: seq<Byte>)
      requires Valid() && 0 < n && position + n <= Length(hdr.Value())
      requires firstSector * SECTOR_SIZE <= position < (firstSector + 1) * SECTOR_SIZE
      requires lastSector * SECTOR_SIZE < position + n <= (lastSector + 1) * SECTOR_SIZE
      ensures |buf| == (1 + lastSector - firstSector) * SECTOR_SIZE
      ensures Surrounds(buf, firstSector * SECTOR_SIZE, Content(disk.sectors, hdr.Value()), position, n)
    {
      buf := ReadEnds(firstSector * SECTOR_SIZE, lastSector * SECTOR_SIZE, position, n);
    }

    /** The same, by the offsets of the first and the last sector. */
    method ReadEnds(start: nat, lastStart: nat, position: nat, n: nat) returns (buf: seq<Byte>)
      requires Valid() && 0 < n && position + n <= Length(hdr.Value())
      requires start == lastStart || start + SECTOR_SIZE <= lastStart
      requires start <= position < start + SECTOR_SIZE && lastStart < position + n <= lastStart + SECTOR_SIZE
      ensures |buf| == lastStart + SECTOR_SIZE - start
      ensures Surrounds(buf, start, Content(disk.sectors, hdr.Value()), position, n)
    {
      buf := NewBuffer(lastStart + SECTOR_SIZE - start);
      ghost var content, buf0 := Content(disk.sectors, hdr.Value()), buf;
      var firstAligned := position == start;
      var lastAligned := position + n == lastStart + SECTOR_SIZE;
      if !firstAligned {
        var into := ReadInSector(start);
        buf := Splice(buf, 0, into);
      }
      ghost var buf1 := buf;
      if !lastAligned && (start != lastStart || firstAligned) {
        var into := ReadInSector(lastStart);
        buf := Splice(buf, lastStart - start, into);
      }
      ReadsSurround(content, start, lastStart, position, n, buf0, buf1, buf);
    }

    /**
      Replaces the part of the file that exists at `position` by the start of `from`, if and only if the
      request keeps to the rule.
     */
    method WriteAt(from: seq<Byte>, numBytes: Int32, position: Int32) returns (r: Outcome<nat>)
      requires Valid() && Clamp(Length(hdr.Value()), numBytes, position) <= |from|
      modifies disk
      ensures r.Done? <==> Served(hdr.numBytes, numBytes, position)
      ensures r.Done? ==> r.value == Clamp(Length(hdr.Value()), numBytes, position)
      ensures r.Done? ==> Written(old(disk.sectors), hdr.Value(), position, from[..r.value], disk.sectors)
    {
      var fileLength := hdr.numBytes;
      if numBytes <= 0 || position >= fileLength {
        return Done(0);
      }
      var t := Arrange(hdr, numBytes, position);
      if !InBounds(t) {
        return Overrun;
      }
      if t.lastSector < t.firstSector {
        // The last sector is not aligned, so it is read in, from before the file.
        var into := ReadAt(SECTOR_SIZE, t.lastSector * SECTOR_SIZE);
        assert into.Overrun?;
        return Overrun;
      }
      WriteRange(from[..t.numBytes], t.firstSector, t.lastSector, position);
      return Done(t.numBytes);
    }

    /** Replaces a range of the file, by reading in what is around it and writing whole sectors. */
    method WriteRange(bytes: seq<Byte>, firstSector: nat, lastSector: nat, position: nat)
      requires Valid() && bytes != [] && position + |bytes| <= Length(hdr.Value())
      requires firstSector * SECTOR_SIZE <= position < (firstSector + 1) * SECTOR_SIZE
      requires lastSector * SECTOR_SIZE < position + |bytes| <= (lastSector + 1) * SECTOR_SIZE
      modifies disk
      ensures Written(old(disk.sectors), hdr.Value(), position, bytes, disk.sectors)
    {
      var around := ReadAround(firstSector, lastSector, position, |bytes|);
      var buf := Splice(around, position - firstSector * SECTOR_SIZE, bytes);
      PutIsWritten(disk.sectors, hdr.Value(), firstSector, lastSector, around, position, bytes);
      WriteSectors(buf, firstSector, lastSector);
    }

    method Seek(position: Int32)
      modifies this`seekPosition
      ensures seekPosition == position
    {
      seekPosition := position;
    }

    /** Reads on from where the last call stopped. */
    method Read(numBytes: Int32) returns (r: Outcome<seq<Byte>>)
      requires Valid()
      modifies this`seekPosition
      ensures Served(hdr.numBytes, numBytes, old(seekPosition)) ==>
                && r.Done? && Delivers(Content(disk.sectors, hdr.Value()), numBytes, old(seekPosition), r.value)
                && seekPosition == old(seekPosition) + |r.value|
      ensures !Served(hdr.numBytes, numBytes, old(seekPosition)) ==> r.Overrun? || |r.value| > Length(hdr.Value())
    {
      r := ReadAt(numBytes, seekPosition);
      if r.Done? {
        seekPosition := Wrap(seekPosition + |r.value|);
      }
    }

    /** Writes on from where the last call stopped. */
    method Write(from: seq<Byte>, numBytes: Int32) returns (r: Outcome<nat>)
      requires Valid() && Clamp(Length(hdr.Value()), numBytes, seekPosition) <= |from|
      modifies this`seekPosition, disk
      ensures r.Done? <==> Served(hdr.numBytes, numBytes, old(seekPosition))
      ensures r.Done? ==>
                && r.value == Clamp(Length(hdr.Value()), numBytes, old(seekPosition))
                && seekPosition == old(seekPosition) + r.value
      ensures r.Done? ==> Written(old(disk.sectors), hdr.Value(), old(seekPosition), from[..r.value], disk.sectors)
    {
      r := WriteAt(from, numBytes, seekPosition);
      if r.Done? {
        seekPosition := Wrap(seekPosition + r.value);
      }
    }
  }

  /** Each byte of a file is in the sector that its table names. */
  lemma ByteIsThere(d: Disk, h: Header, offset: nat)
    requires HeaderOk(h) && offset < Length(h)
    ensures var i := offset / SECTOR_SIZE;
            && i < SectorCount(h) <= NUM_DIRECT && 0 <= h.dataSectors[i] < NUM_SECTORS && h.dataSectors[i] in DataSet(h)
            && d[h.dataSectors[i]][offset % SECTOR_SIZE] == Content(d, h)[offset]
  {
    var i := offset / SECTOR_SIZE;
    EntryIn(h.dataSectors, i, SectorCount(h));
    RangeOfFile(d, h, i, i, offset, 1);
    var ss := DataSectors(d, h);
    assert ss[i..i + 1] == [ss[i]];
    FlatOne(ss[i]);
  }

  /**
    The arithmetic at fault: one byte into a file of the greatest size, the largest request reaches for a
    sector far outside the table.
   */
  lemma OverrunHappens()
    ensures !Served(MAX_FILE_SIZE, MAX_INT, 1) && Plan(MAX_FILE_SIZE, MAX_INT, 1).lastSector == 0xff_ffff
    ensures !InBounds(Plan(MAX_FILE_SIZE, MAX_INT, 1))
  {
  }

  /**
    And in its last sector, a request that wraps further transfers no sector, and is answered with a buffer
    that nothing was read into.
   */
  lemma JunkHappens()
    ensures !Served(MAX_FILE_SIZE, 0x7fff_f102, 3839) && InBounds(Plan(MAX_FILE_SIZE, 0x7fff_f102, 3839))
    ensures Plan(MAX_FILE_SIZE, 0x7fff_f102, 3839).lastSector < Plan(MAX_FILE_SIZE, 0x7fff_f102, 3839).firstSector
  {
  }

  /** A byte range of a file is found in the sectors that cover it. */
  lemma RangeOfFile(d: Disk, h: Header, first: nat, last: nat, position: nat, n: nat)
    requires HeaderOk(h) && 0 < n && position + n <= Length(h)
    requires first * SECTOR_SIZE <= position < (first + 1) * SECTOR_SIZE
    requires last * SECTOR_SIZE < position + n <= (last + 1) * SECTOR_SIZE
    ensures first <= last < SectorCount(h) && Holds(d, h.dataSectors, DataSectors(d, h))
    ensures var skip := position - first * SECTOR_SIZE;
            Flat(DataSectors(d, h)[first..last + 1])[skip..skip + n] == Content(d, h)[position..position + n]
  {
    GatherIsHeld(d, h.dataSectors, SectorCount(h));
    RangeInSectors(DataSectors(d, h), Length(h), first, last, position, n);
  }

  /** The disk after the first `k` sectors of `buf` have been written to the table's sectors from `first` on. */
  function PutSectors(d: Disk, table: seq<Int32>, first: nat, buf: seq<Byte>, k: nat): (d': Disk)
    requires first + k <= |table| && k * SECTOR_SIZE <= |buf|
    requires forall i :: first <= i < first + k ==> 0 <= table[i] < NUM_SECTORS
  {
    if k == 0 then d else
      PutSectors(d, table, first, buf, k - 1)[table[first + k - 1] := buf[(k - 1) * SECTOR_SIZE..k * SECTOR_SIZE]]
  }

  /** Writing sectors one by one replaces one run of bytes of the file. */
  lemma {:induction false} PutIsSplice(d: Disk, table: seq<Int32>, n: nat, first: nat, buf: seq<Byte>, k: nat)
    requires first + k <= n <= |table| && TableOk(table, n) && k * SECTOR_SIZE <= |buf|
    requires forall i :: first <= i < first + k ==> 0 <= table[i] < NUM_SECTORS
    ensures Flat(Gather(PutSectors(d, table, first, buf, k), table, n))
         == Splice(Flat(Gather(d, table, n)), first * SECTOR_SIZE, buf[..k * SECTOR_SIZE])
  {
    if k == 0 {
      SpliceNothing(Flat(Gather(d, table, n)), first * SECTOR_SIZE, buf[..k * SECTOR_SIZE]);
    } else {
      PutIsSplice(d, table, n, first, buf, k - 1);
      var mid, i := PutSectors(d, table, first, buf, k - 1), first + k - 1;
      var done, data := buf[..(k - 1) * SECTOR_SIZE], buf[(k - 1) * SECTOR_SIZE..k * SECTOR_SIZE];
      PutOne(mid, table, n, i, data);
      SliceJoin(buf, (k - 1) * SECTOR_SIZE, k * SECTOR_SIZE);
      SpliceTwice(Flat(Gather(d, table, n)), first * SECTOR_SIZE, i * SECTOR_SIZE, done, data,
                  buf[..k * SECTOR_SIZE], Flat(Gather(mid, table, n)), Flat(Gather(mid[table[i] := data], table, n)));
    }
  }

  /** It touches no sector outside the file. */
  lemma {:induction false} PutFrame(d: Disk, table: seq<Int32>, n: nat, first: nat, buf: seq<Byte>, k: nat)
    requires first + k <= n <= |table| && TableOk(table, n) && k * SECTOR_SIZE <= |buf|
    requires forall i :: first <= i < first + k ==> 0 <= table[i] < NUM_SECTORS
    ensures forall x: nat :: x < NUM_SECTORS && x !in Entries(table, n) ==>
              PutSectors(d, table, first, buf, k)[x] == d[x]
  {
    if k > 0 {
      PutFrame(d, table, n, first, buf, k - 1);
      EntriesNext(table, first + k - 1, n);
    }
  }

  lemma PutOne(d: Disk, table: seq<Int32>, n: nat, i: nat, data: Sector)
    requires i < n <= |table| && TableOk(table, n)
    ensures 0 <= table[i] < NUM_SECTORS && table[i] in Entries(table, n)
    ensures Flat(Gather(d[table[i] := data], table, n)) == Splice(Flat(Gather(d, table, n)), i * SECTOR_SIZE, data)
  {
    EntriesNext(table, i, n);
    var was := Gather(d, table, n);
    var now := was[i := data];
    GatherIsHeld(d, table, n);
    HoldsUpdate(d, table, was, i, data);
    HeldIsGathered(d[table[i] := data], table, n, now);
    FlatSplice(was, now, i, i + 1);
    assert now[i..i + 1] == [data];
    FlatOne(data);
  }

  lemma SpliceNothing<T>(s: seq<T>, position: nat, nothing: seq<T>)
    requires position <= |s| && nothing == []
    ensures Splice(s, position, nothing) == s
  {
  }

  lemma SpliceTwice<T>(s: seq<T>, position: nat, next: nat, a: seq<T>, b: seq<T>, both: seq<T>, s1: seq<T>, s2: seq<T>)
    requires next == position + |a| && next + |b| <= |s| && both == a + b
    requires s1 == Splice(s, position, a) && s2 == Splice(s1, next, b)
    ensures s2 == Splice(s, position, both)
  {
  }

  /**
    A buffer starting at offset `start` of a file holds the file's own bytes around a range of `n` bytes at
    `position`.
   */
  ghost predicate Surrounds(buf: seq<Byte>, start: nat, content: seq<Byte>, position: nat, n: nat)
  {
    forall k :: start <= k < start + |buf| && !(position <= k < position + n) && k < |content| ==>
      buf[k - start] == content[k]
  }

  /** The file's bytes in one sector, as far as the file goes. */
  ghost function InSector(content: seq<Byte>, start: nat): (bytes: seq<Byte>)
    requires start < |content|
    ensures |bytes| <= SECTOR_SIZE
  {
    content[start..if start + SECTOR_SIZE <= |content| then start + SECTOR_SIZE else |content|]
  }

  /** Reading in the first and the last sector, when they are partly overwritten, is enough. */
  lemma ReadsSurround(content: seq<Byte>, start: nat, lastStart: nat, position: nat, n: nat, buf0: seq<Byte>,
                      buf1: seq<Byte>, buf2: seq<Byte>)
    requires start <= position < start + SECTOR_SIZE && lastStart < position + n <= lastStart + SECTOR_SIZE
    requires 0 < n && position + n <= |content| && (start == lastStart || start + SECTOR_SIZE <= lastStart)
    requires |buf0| == lastStart + SECTOR_SIZE - start
    requires buf1 == if position == start then buf0 else Splice(buf0, 0, InSector(content, start))
    requires buf2 == if position + n == lastStart + SECTOR_SIZE || (start == lastStart && position != start) then buf1
                     else Splice(buf1, lastStart - start, InSector(content, lastStart))
    ensures Surrounds(buf2, start, content, position, n)
  {
    forall k | start <= k < start + |buf2| && !(position <= k < position + n) && k < |content|
      ensures buf2[k - start] == content[k]
    {
      if k < position {
        assert buf1[k - start] == InSector(content, start)[k - start];
      } else if start == lastStart && position != start {
        assert buf1[k - start] == InSector(content, start)[k - start];
      } else {
        assert buf2[k - start] == InSector(content, lastStart)[k - lastStart];
      }
    }
  }

  /** Writing whole sectors that surround a range changes, within the file, only that range. */
  lemma SpliceAround(was: seq<Byte>, length: nat, start: nat, around: seq<Byte>, position: nat, bytes: seq<Byte>,
                     buf: seq<Byte>, after: seq<Byte>)
    requires position + |bytes| <= length <= |was|
    requires start <= position && position + |bytes| <= start + |around| <= |was|
    requires Surrounds(around, start, was[..length], position, |bytes|)
    requires buf == Splice(around, position - start, bytes) && after == Splice(was, start, buf)
    ensures after[..length] == Splice(was[..length], position, bytes)
  {
  }

  /** Writing back the sectors of a range, with the range replaced and the rest read in, writes exactly the range. */
  lemma PutIsWritten(d: Disk, h: Header, first: nat, last: nat, around: seq<Byte>, position: nat, bytes: seq<Byte>)
    requires HeaderOk(h) && bytes != [] && position + |bytes| <= Length(h)
    requires first * SECTOR_SIZE <= position < (first + 1) * SECTOR_SIZE
    requires last * SECTOR_SIZE < position + |bytes| <= (last + 1) * SECTOR_SIZE
    requires |around| == (1 + last - first) * SECTOR_SIZE
    requires Surrounds(around, first * SECTOR_SIZE, Content(d, h), position, |bytes|)
    ensures first <= last < SectorCount(h)
    ensures forall i :: first <= i <= last ==> 0 <= h.dataSectors[i] < NUM_SECTORS
    ensures Written(d, h, position, bytes,
                    PutSectors(d, h.dataSectors, first, Splice(around, position - first * SECTOR_SIZE, bytes),
                               1 + last - first))
  {
    var n, k := SectorCount(h), 1 + last - first;
    var buf := Splice(around, position - first * SECTOR_SIZE, bytes);
    TableEntries(h.dataSectors, n);
    PutIsSplice(d, h.dataSectors, n, first, buf, k);
    PutFrame(d, h.dataSectors, n, first, buf, k);
    assert buf[..k * SECTOR_SIZE] == buf;
    var d' := PutSectors(d, h.dataSectors, first, buf, k);
    SpliceAround(Flat(DataSectors(d, h)), Length(h), first * SECTOR_SIZE, around, position, bytes, buf,
                 Flat(DataSectors(d', h)));
  }
}
