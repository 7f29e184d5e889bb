/**
  What the sectors of a Nachos disk hold: file headers (code/filesys/filehdr.h) and the
  flat byte sequence a header describes.
 */
module DiskLayout {
  import opened Bytes
  import opened Bitmaps

  const SECTOR_SIZE: nat := 128
  const NUM_SECTORS: nat := 1024
  /** Sector numbers that fit in one header after its two counters. */
  const NUM_DIRECT: nat := 30
  const MAX_FILE_SIZE: nat := 3840

  const ZERO_SECTOR: seq<Byte> := seq(SECTOR_SIZE, _ => 0)

  type Sector = s: seq<Byte> | |s| == SECTOR_SIZE witness ZERO_SECTOR
  type Disk = d: seq<Sector> | |d| == NUM_SECTORS witness BLANK_DISK

  const BLANK_SECTOR: Sector := ZERO_SECTOR
  const BLANK_DISK: seq<Sector> := seq(NUM_SECTORS, _ => BLANK_SECTOR)

  datatype RawHeader = Header(numBytes: Int32, numSectors: Int32, dataSectors: seq<Int32>)

  type Header = h: RawHeader | |h.dataSectors| == NUM_DIRECT
    witness Header(0, 0, seq(NUM_DIRECT, _ => 0))

  const BLANK_HEADER: Header := Header(0, 0, seq(NUM_DIRECT, _ => 0))

  /** The header as the fields of its structure, in order. */
  function HeaderWords(h: Header): (ws: seq<Word>)
    ensures |ws| == NUM_DIRECT + 2
  {
    [ToWord(h.numBytes), ToWord(h.numSectors)] +
    seq(NUM_DIRECT, i requires 0 <= i < NUM_DIRECT => ToWord(h.dataSectors[i]))
  }

  function EncodeHeader(h: Header): (s: Sector)
  {
    EncodeWords(HeaderWords(h))
  }

  function DecodeHeader(s: Sector): (h: Header)
  {
    var ws := DecodeWords(s);
    Header(FromWord(ws[0]), FromWord(ws[1]),
           seq(NUM_DIRECT, i requires 0 <= i < NUM_DIRECT => FromWord(ws[i + 2])))
  }

  lemma HeaderRoundTrip(h: Header)
    ensures DecodeHeader(EncodeHeader(h)) == h
  {
    WordsRoundTrip(HeaderWords(h));
    var r := DecodeHeader(EncodeHeader(h));
    assert DecodeWords(EncodeHeader(h)) == HeaderWords(h);
    forall i | 0 <= i < NUM_DIRECT
      ensures r.dataSectors[i] == h.dataSectors[i]
    {
      assert HeaderWords(h)[i + 2] == ToWord(h.dataSectors[i]);
      assert r.dataSectors[i] == FromWord(ToWord(h.dataSectors[i]));
    }
    assert r.dataSectors == h.dataSectors;
  }

  /** The sectors among the first `n` entries of a table. */
  ghost function Entries(table: seq<Int32>, n: nat): (s: set<nat>)
    requires n <= |table|
  {
    if n == 0 then {}
    else if table[n - 1] >= 0 then Entries(table, n - 1) + {table[n - 1] as nat}
    else Entries(table, n - 1)
  }

  /** The first `n` entries of a sector table are distinct sectors of the disk. */
  ghost predicate TableOk(table: seq<Int32>, n: nat)
    requires n <= |table|
  {
    n == 0 || (TableOk(table, n - 1) && 0 <= table[n - 1] < NUM_SECTORS && table[n - 1] !in Entries(table, n - 1))
  }

  lemma {:induction false} EntryIn(table: seq<Int32>, i: nat, n: nat)
    requires i < n <= |table| && TableOk(table, n)
    ensures 0 <= table[i] < NUM_SECTORS && table[i] in Entries(table, n)
  {
    if i < n - 1 {
      EntryIn(table, i, n - 1);
    }
  }

  lemma {:induction false} TableEntries(table: seq<Int32>, n: nat)
    requires n <= |table| && TableOk(table, n)
    ensures forall i :: 0 <= i < n ==> 0 <= table[i] < NUM_SECTORS
    ensures forall i, j :: 0 <= i < j < n ==> table[i] != table[j]
    ensures forall x :: x in Entries(table, n) ==> x < NUM_SECTORS
    ensures |Entries(table, n)| == n
  {
    if n > 0 {
      TableEntries(table, n - 1);
      forall i | 0 <= i < n - 1
        ensures table[i] != table[n - 1]
      {
        EntryIn(table, i, n - 1);
      }
    }
  }

  lemma TableExtend(table: seq<Int32>, n: nat, sector: nat)
    requires n < |table| && TableOk(table, n) && sector < NUM_SECTORS && sector !in Entries(table, n)
    ensures TableOk(table[n := sector], n + 1)
    ensures Entries(table[n := sector], n + 1) == Entries(table, n) + {sector}
  {
    TableSame(table, table[n := sector], n);
  }

  lemma {:induction false} TableSame(table: seq<Int32>, other: seq<Int32>, n: nat)
    requires n <= |table| && n <= |other| && (forall i :: 0 <= i < n ==> other[i] == table[i]) && TableOk(table, n)
    ensures TableOk(other, n) && Entries(other, n) == Entries(table, n)
  {
    if n > 0 {
      TableSame(table, other, n - 1);
    }
  }

  lemma EntriesNext(table: seq<Int32>, i: nat, n: nat)
    requires i < n <= |table| && TableOk(table, n)
    ensures 0 <= table[i] < NUM_SECTORS && TableOk(table, i)
    ensures table[i] !in Entries(table, i) && table[i] in Entries(table, n)
    ensures Entries(table, i + 1) == Entries(table, i) + {table[i]}
  {
    EntryIn(table, i, n);
    if i < n - 1 {
      EntriesNext(table, i, n - 1);
    }
  }

  /** `i` free sectors have been taken and recorded at the start of `table`. */
  ghost predicate Taken(marks: set<nat>, table: seq<Int32>, i: nat, marks': set<nat>)
  {
    && i <= |table| && TableOk(table, i)
    && Entries(table, i) !! marks
    && marks' == marks + Entries(table, i)
    && |marks'| == |marks| + i
    && forall x: nat :: x in marks' ==> x < NUM_SECTORS
  }

  /** Taking one more sector cannot fail while the count says that one is free. */
  lemma {:induction false} TakeNext(marks: set<nat>, table: seq<Int32>, i: nat, sector: int)
    requires i < |table| && Taken(marks, table, i, marks + Entries(table, i)) && |marks| + i < NUM_SECTORS
    requires LeastFree(marks + Entries(table, i), NUM_SECTORS, sector)
    ensures sector >= 0
    ensures Taken(marks, table[i := sector], i + 1, marks + Entries(table, i) + {sector})
  {
    FullWhenAllMarked(marks + Entries(table, i));
    TableExtend(table, i, sector);
  }

  /** A set holding every sector has as many elements as the disk has sectors. */
  lemma FullWhenAllMarked(marks: set<nat>)
    requires forall i: nat :: i in marks ==> i < NUM_SECTORS
    ensures (forall i: nat :: i < NUM_SECTORS ==> i in marks) ==> |marks| == NUM_SECTORS
  {
    if forall i: nat :: i < NUM_SECTORS ==> i in marks {
      assert marks == Below(NUM_SECTORS);
    }
  }

  ghost function Below(n: nat): (s: set<nat>)
    ensures |s| == n
    ensures forall i: nat :: i in s <==> i < n
  {
    if n == 0 then {} else Below(n - 1) + {n - 1}
  }

  /** Number of bytes a file holds; a negative size means an empty file. */
  function Length(h: Header): (n: nat)
  {
    Positive(h.numBytes)
  }

  /** Number of data sectors; a header of negative size has none. */
  function SectorCount(h: Header): (n: nat)
  {
    Positive(h.numSectors)
  }

  function Positive(n: int): nat
  {
    if n > 0 then n else 0
  }

  /** A header whose sector table covers its length. */
  ghost predicate HeaderOk(h: Header)
  {
    && h.numBytes <= MAX_FILE_SIZE
    && h.numSectors == DivRoundUp(h.numBytes, SECTOR_SIZE)
    && SectorCount(h) <= NUM_DIRECT
    && Length(h) <= SectorCount(h) * SECTOR_SIZE
    && TableOk(h.dataSectors, SectorCount(h))
  }

  /** A size within the limit needs no more sectors than a header can name. */
  lemma SizeFits(h: Header)
    requires h.numBytes <= MAX_FILE_SIZE && h.numSectors == DivRoundUp(h.numBytes, SECTOR_SIZE)
    ensures SectorCount(h) <= NUM_DIRECT && Length(h) <= SectorCount(h) * SECTOR_SIZE
  {
  }

  /** The sectors holding a file's data. */
  ghost function DataSet(h: Header): (s: set<nat>)
    requires HeaderOk(h)
  {
    Entries(h.dataSectors, SectorCount(h))
  }

  /** What the first `n` sectors of a table hold. */
  ghost function Gather(d: Disk, table: seq<Int32>, n: nat): (ss: seq<Sector>)
    requires n <= |table| && TableOk(table, n)
    ensures |ss| == n
  {
    if n == 0 then [] else Gather(d, table, n - 1) + [d[table[n - 1]]]
  }

  /** The sectors named by the start of `table` hold `ss`. */
  ghost predicate Holds(d: Disk, table: seq<Int32>, ss: seq<Sector>)
  {
    && |ss| <= |table|
    && forall i :: 0 <= i < |ss| ==> 0 <= table[i] < NUM_SECTORS && d[table[i]] == ss[i]
  }

  lemma {:induction false} GatherIsHeld(d: Disk, table: seq<Int32>, n: nat)
    requires n <= |table| && TableOk(table, n)
    ensures Holds(d, table, Gather(d, table, n))
  {
    if n > 0 {
      GatherIsHeld(d, table, n - 1);
    }
  }

  lemma {:induction false} HeldIsGathered(d: Disk, table: seq<Int32>, n: nat, ss: seq<Sector>)
    requires n <= |table| && TableOk(table, n) && n == |ss| && Holds(d, table, ss)
    ensures ss == Gather(d, table, n)
  {
    if n > 0 {
      HeldIsGathered(d, table, n - 1, ss[..n - 1]);
    }
  }

  /** The file's data sectors in file order. */
  ghost function DataSectors(d: Disk, h: Header): (ss: seq<Sector>)
    requires HeaderOk(h)
    ensures |ss| == SectorCount(h)
  {
    Gather(d, h.dataSectors, SectorCount(h))
  }

  /** Sectors laid end to end. */
  ghost function Flat(ss: seq<Sector>): (bytes: seq<Byte>)
    ensures |bytes| == |ss| * SECTOR_SIZE
  {
    if ss == [] then [] else ss[0] + Flat(ss[1..])
  }

  lemma {:induction false} FlatConcat(ss: seq<Sector>, ts: seq<Sector>)
    ensures Flat(ss + ts) == Flat(ss) + Flat(ts)
  {
    if ss == [] {
      assert ss + ts == ts;
    } else {
      FlatConcat(ss[1..], ts);
      assert (ss + ts)[1..] == ss[1..] + ts;
      assert (ss + ts)[0] == ss[0];
      Regroup(ss[0], Flat(ss[1..]), Flat(ts));
    }
  }

  lemma Regroup<T>(a: seq<T>, b: seq<T>, c: seq<T>)
    ensures a + (b + c) == (a + b) + c
  {
  }

  lemma FlatOne(s: Sector)
    ensures Flat([s]) == s
  {
  }

  lemma MiddleSlice<T>(a: seq<T>, b: seq<T>, c: seq<T>, i: nat, j: nat)
    requires i == |a| && j == |a| + |b|
    ensures (a + b + c)[i..j] == b
    ensures (a + b + c)[..i] == a
    ensures (a + b + c)[j..] == c
  {
  }

  /** Cutting a run of sectors out of a file cuts out their bytes. */
  lemma {:induction false} FlatCut(ss: seq<Sector>, i: nat, j: nat)
    requires i <= j <= |ss|
    ensures Flat(ss) == Flat(ss[..i]) + Flat(ss[i..j]) + Flat(ss[j..])
  {
    assert ss == ss[..i] + ss[i..j] + ss[j..];
    FlatConcat(ss[..i] + ss[i..j], ss[j..]);
    FlatConcat(ss[..i], ss[i..j]);
  }

  lemma {:induction false} FlatSlice(ss: seq<Sector>, i: nat, j: nat)
    requires i <= j <= |ss|
    ensures Flat(ss[i..j]) == Flat(ss)[i * SECTOR_SIZE..j * SECTOR_SIZE]
    ensures Flat(ss[..i]) == Flat(ss)[..i * SECTOR_SIZE]
    ensures Flat(ss[j..]) == Flat(ss)[j * SECTOR_SIZE..]
  {
    FlatCut(ss, i, j);
    MiddleSlice(Flat(ss[..i]), Flat(ss[i..j]), Flat(ss[j..]), i * SECTOR_SIZE, j * SECTOR_SIZE);
  }

  lemma FlatNext(ss: seq<Sector>, i: nat, j: nat)
    requires i <= j < |ss|
    ensures Flat(ss[i..j + 1]) == Flat(ss[i..j]) + ss[j]
  {
    assert ss[i..j + 1] == ss[i..j] + [ss[j]];
    FlatConcat(ss[i..j], [ss[j]]);
    FlatOne(ss[j]);
  }

  /** How many bytes a request of `numBytes` at `position` can transfer. */
  function Clamp(length: nat, numBytes: int, position: int): (n: nat)
    ensures n > 0 ==> 0 <= position && position + n <= length
    ensures n <= if numBytes > 0 then numBytes else 0
  {
    if numBytes <= 0 || position < 0 || position >= length then 0
    else if position + numBytes > length then length - position
    else numBytes
  }

  /** `s` with the bytes from `position` on replaced by `bytes`. */
  function Splice<T>(s: seq<T>, position: nat, bytes: seq<T>): (r: seq<T>)
    requires position + |bytes| <= |s|
    ensures |r| == |s|
    ensures forall k :: 0 <= k < |s| ==>
              r[k] == if position <= k < position + |bytes| then bytes[k - position] else s[k]
  {
    s[..position] + bytes + s[position + |bytes|..]
  }

  lemma SliceJoin<T>(s: seq<T>, i: nat, j: nat)
    requires i <= j <= |s|
    ensures s[..i] + s[i..j] == s[..j]
  {
  }

  /** A range of a sequence, found in a part of it that covers the range. */
  lemma RangeInPart<T>(s: seq<T>, part: seq<T>, a: nat, b: nat, length: nat, position: nat, n: nat)
    requires a <= position && position + n <= length <= |s| && position + n <= b <= |s|
    requires part == s[a..b]
    ensures part[position - a..position - a + n] == s[..length][position..position + n]
  {
    var x, y := part[position - a..position - a + n], s[..length][position..position + n];
    forall k | 0 <= k < n
      ensures x[k] == y[k]
    {
      assert x[k] == part[position - a + k] == s[position + k];
    }
  }

  /** A byte range of a file, found in the sectors that cover it. */
  lemma {:induction false} RangeInSectors(ss: seq<Sector>, length: nat, first: nat, last: nat, position: nat, n: nat)
    requires first <= last < |ss| && length <= |ss| * SECTOR_SIZE && position + n <= length
    requires first * SECTOR_SIZE <= position && position + n <= (last + 1) * SECTOR_SIZE
    ensures var skip := position - first * SECTOR_SIZE;
            Flat(ss[first..last + 1])[skip..skip + n] == Flat(ss)[..length][position..position + n]
  {
    FlatSlice(ss, first, last + 1);
    RangeInPart(Flat(ss), Flat(ss[first..last + 1]), first * SECTOR_SIZE, (last + 1) * SECTOR_SIZE, length,
                position, n);
  }

  /** Replacing whole sectors replaces their bytes. */
  lemma {:induction false} FlatSplice(was: seq<Sector>, now: seq<Sector>, i: nat, j: nat)
    requires i <= j <= |was| == |now| && now[..i] == was[..i] && now[j..] == was[j..]
    ensures Flat(now) == Splice(Flat(was), i * SECTOR_SIZE, Flat(now[i..j]))
  {
    FlatCut(now, i, j);
    FlatSlice(was, i, j);
  }

  lemma {:induction false} HoldsUpdate(d: Disk, table: seq<Int32>, ss: seq<Sector>, i: nat, data: Sector)
    requires Holds(d, table, ss) && i < |ss|
    requires TableOk(table, |ss|)
    ensures Holds(d[table[i] := data], table, ss[i := data])
  {
    TableEntries(table, |ss|);
  }

  /** The file described by `h`, as one flat sequence. */
  ghost function Content(d: Disk, h: Header): (s: seq<Byte>)
    requires HeaderOk(h)
    ensures |s| == Length(h)
  {
    Flat(DataSectors(d, h))[..Length(h)]
  }

  /**
    `after` is `before` with, in the file of `h`, the bytes at `position` replaced; only slack past the end of
    the file may also differ.
   */
  ghost predicate Written(before: Disk, h: Header, position: int, bytes: seq<Byte>, after: Disk)
    requires HeaderOk(h)
  {
    && (bytes == [] ==> after == before)
    && (forall x: nat :: x < NUM_SECTORS && x !in DataSet(h) ==> after[x] == before[x])
    && (bytes != [] ==> 0 <= position && position + |bytes| <= Length(h)
                        && Content(after, h) == Splice(Content(before, h), position, bytes))
  }

  lemma {:induction false} GatherFrame(d: Disk, d': Disk, table: seq<Int32>, n: nat)
    requires n <= |table| && TableOk(table, n)
    requires forall x: nat :: x in Entries(table, n) && x < NUM_SECTORS ==> d'[x] == d[x]
    ensures Gather(d', table, n) == Gather(d, table, n)
  {
    if n > 0 {
      GatherFrame(d, d', table, n - 1);
    }
  }

  /** A file's content depends only on its data sectors. */
  lemma ContentFrame(d: Disk, d': Disk, h: Header)
    requires HeaderOk(h)
    requires forall x: nat :: x in DataSet(h) && x < NUM_SECTORS ==> d'[x] == d[x]
    ensures Content(d', h) == Content(d, h)
  {
    GatherFrame(d, d', h.dataSectors, SectorCount(h));
  }
}
