/** Who owns which sector, for any set of owners. */
module Ownership {

  /** No sector has two owners. */
  ghost predicate Disjoint(m: map<int, set<nat>>)
  {
    forall r, q :: r in m && q in m && r != q ==> m[r] !! m[q]
  }

  /** The sectors that have an owner. */
  ghost function Union(m: map<int, set<nat>>): (s: set<nat>)
  {
    set r, x | r in m && x in m[r] :: x
  }

  lemma InUnion(m: map<int, set<nat>>, r: int)
    requires r in m
    ensures m[r] <= Union(m)
  {
  }

  lemma AddOwner(m: map<int, set<nat>>, r: int, s: set<nat>)
    requires Disjoint(m) && r !in m && s !! Union(m)
    ensures Disjoint(m[r := s])
    ensures Union(m[r := s]) == Union(m) + s
  {
    var m' := m[r := s];
    forall q | q in m
      ensures m[q] !! s
    {
      InUnion(m, q);
    }
    assert Union(m') <= Union(m) + s;
    forall x | x in Union(m)
      ensures x in Union(m')
    {
      var q :| q in m && x in m[q];
      assert m'[q] == m[q];
    }
    InUnion(m', r);
  }

  lemma RemoveOwner(m: map<int, set<nat>>, r: int)
    requires Disjoint(m) && r in m
    ensures Disjoint(m - {r})
    ensures Union(m - {r}) == Union(m) - m[r]
  {
    var m' := m - {r};
    forall x | x in Union(m) - m[r]
      ensures x in Union(m')
    {
      var q :| q in m && x in m[q];
      assert q in m' && m'[q] == m[q];
    }
    forall x | x in Union(m')
      ensures x in Union(m) - m[r]
    {
      var q :| q in m' && x in m'[q];
      assert m[q] !! m[r];
    }
  }

  lemma UnionStep(m: map<int, set<nat>>, r: int)
    requires r in m
    ensures |m - {r}| == |m| - 1
    ensures |Union(m)| <= |Union(m - {r})| + |m[r]|
  {
    var m' := m - {r};
    assert m'.Keys == m.Keys - {r};
    forall x | x in Union(m)
      ensures x in Union(m') + m[r]
    {
      var q :| q in m && x in m[q];
      if q != r {
        assert q in m' && m'[q] == m[q];
      }
    }
    SubsetSize(Union(m), Union(m') + m[r]);
  }

  /** Owners of at most `k` sectors each own at most `k` times their number. */
  lemma UnionSize(m: map<int, set<nat>>, k: nat, n: nat)
    requires n == |m| && forall r :: r in m ==> |m[r]| <= k
    ensures |Union(m)| <= k * n
    decreases n
  {
    if r :| r in m {
      UnionStep(m, r);
      UnionSize(m - {r}, k, n - 1);
      assert k * n == k * (n - 1) + k;
    } else {
      assert Union(m) == {};
    }
  }

  lemma SubsetSize<T>(a: set<T>, b: set<T>)
    requires a <= b
    ensures |a| <= |b|
  {
    if a != {} {
      var x :| x in a;
      SubsetSize(a - {x}, b - {x});
    }
  }
}

/**
  The bookkeeping of the file system as plain values: the header found in each sector, the
  header sector of each file, and the sectors marked as taken.
 */
module Bookkeeping {
  import opened Bytes
  import opened DiskLayout
  import opened Ownership

  type Name = seq<Byte>

  /** Where the headers of the free map and of the directory are found. */
  const FREE_MAP_SECTOR: nat := 0
  const DIRECTORY_SECTOR: nat := 1

  type Headers = hs: seq<Header> | |hs| == NUM_SECTORS witness seq(NUM_SECTORS, _ => BLANK_HEADER)

  /** Different files have different header sectors, none of them a well-known one. */
  ghost predicate SectorsOk(m: map<Name, int>)
  {
    && (forall k :: k in m ==> DIRECTORY_SECTOR < m[k] < NUM_SECTORS)
    && (forall k, l :: k in m && l in m && k != l ==> m[k] != m[l])
  }

  /** The sectors that hold a header. */
  ghost function Roots(m: map<Name, int>): (s: set<int>)
  {
    {FREE_MAP_SECTOR, DIRECTORY_SECTOR} + m.Values
  }

  /** The header in sector `r` is sound and does not count its own sector as data. */
  ghost predicate RootOk(hs: Headers, r: int)
  {
    0 <= r < NUM_SECTORS && HeaderOk(hs[r]) && r !in DataSet(hs[r])
  }

  /** The sectors owned through the header in sector `r`: its own and its data. */
  ghost function Owned(hs: Headers, r: int): (s: set<nat>)
    requires RootOk(hs, r)
  {
    {r as nat} + DataSet(hs[r])
  }

  ghost function Owners(hs: Headers, roots: set<int>): (m: map<int, set<nat>>)
    requires forall r :: r in roots ==> RootOk(hs, r)
  {
    map r | r in roots :: Owned(hs, r)
  }

  /** The marks are exactly the sectors with an owner, and no sector has two owners. */
  ghost predicate Consistent(hs: Headers, m: map<Name, int>, marks: set<nat>)
  {
    && SectorsOk(m)
    && (forall r :: r in Roots(m) ==> RootOk(hs, r))
    && Disjoint(Owners(hs, Roots(m)))
    && marks == Union(Owners(hs, Roots(m)))
  }

  /** The headers of the files `m` are the same in both. */
  ghost predicate SameRoots(hs: Headers, hs': Headers, m: map<Name, int>)
  {
    forall r :: r in Roots(m) && 0 <= r < NUM_SECTORS ==> hs'[r] == hs[r]
  }

  lemma RootMarked(hs: Headers, m: map<Name, int>, marks: set<nat>, r: int)
    requires Consistent(hs, m, marks) && r in Roots(m)
    ensures RootOk(hs, r) && Owned(hs, r) <= marks
  {
    InUnion(Owners(hs, Roots(m)), r);
  }

  lemma RootsApart(hs: Headers, m: map<Name, int>, marks: set<nat>, r: int, q: int)
    requires Consistent(hs, m, marks) && r in Roots(m) && q in Roots(m) && r != q
    ensures RootOk(hs, r) && RootOk(hs, q) && Owned(hs, r) !! Owned(hs, q)
  {
    var owners := Owners(hs, Roots(m));
    assert owners[r] !! owners[q];
  }

  lemma ValuesAfterAdd(m: map<Name, int>, key: Name, sector: int)
    requires key !in m
    ensures m[key := sector].Values == m.Values + {sector}
  {
    var m' := m[key := sector];
    assert m'[key] == sector;
    forall x | x in m.Values
      ensures x in m'.Values
    {
      var k :| k in m && m[k] == x;
      assert m'[k] == x;
    }
  }

  lemma ValuesAfterRemove(m: map<Name, int>, key: Name)
    requires SectorsOk(m) && key in m
    ensures (m - {key}).Values == m.Values - {m[key]}
  {
    var m' := m - {key};
    forall x | x in m'.Values
      ensures x in m.Values - {m[key]}
    {
      var k :| k in m' && m'[k] == x;
      assert m[k] == x;
    }
    forall x | x in m.Values - {m[key]}
      ensures x in m'.Values
    {
      var k :| k in m && m[k] == x;
      assert m'[k] == x;
    }
  }

  lemma RootsNot(hs: Headers, m: map<Name, int>, marks: set<nat>, sector: nat)
    requires Consistent(hs, m, marks) && sector !in marks
    ensures sector as int !in Roots(m)
  {
    if sector as int in Roots(m) {
      RootMarked(hs, m, marks, sector);
    }
  }

  lemma FreshSector(hs: Headers, m: map<Name, int>, marks: set<nat>, key: Name, sector: nat)
    requires Consistent(hs, m, marks) && key !in m && sector < NUM_SECTORS && sector !in marks
    ensures SectorsOk(m[key := sector]) && sector as int !in Roots(m)
    ensures Roots(m[key := sector]) == Roots(m) + {sector as int}
  {
    RootsNot(hs, m, marks, sector);
    forall k | k in m
      ensures m[k] != sector
    {
      assert m[k] in m.Values;
    }
    ValuesAfterAdd(m, key, sector);
  }

  lemma OneMoreOwner(hs: Headers, hs': Headers, roots: set<int>, sector: int)
    requires forall r :: r in roots ==> RootOk(hs, r) && hs'[r] == hs[r]
    requires sector !in roots && RootOk(hs', sector)
    ensures forall r :: r in roots + {sector} ==> RootOk(hs', r)
    ensures Owners(hs', roots + {sector}) == Owners(hs, roots)[sector := Owned(hs', sector)]
  {
  }

  /** A new file on sectors nobody owned. */
  lemma AddFile(hs: Headers, m: map<Name, int>, marks: set<nat>, hs': Headers, key: Name, sector: nat)
    requires Consistent(hs, m, marks) && SameRoots(hs, hs', m) && key !in m
    requires RootOk(hs', sector) && Owned(hs', sector) !! marks
    ensures Consistent(hs', m[key := sector], marks + Owned(hs', sector))
  {
    FreshSector(hs, m, marks, key, sector);
    OneMoreOwner(hs, hs', Roots(m), sector);
    AddOwner(Owners(hs, Roots(m)), sector, Owned(hs', sector));
  }

  lemma OwnedSize(hs: Headers, r: int)
    requires RootOk(hs, r)
    ensures |Owned(hs, r)| == 1 + SectorCount(hs[r]) <= 1 + NUM_DIRECT
  {
    TableEntries(hs[r].dataSectors, SectorCount(hs[r]));
  }

  lemma FewValues(m: map<Name, int>, n: nat)
    requires n == |m|
    ensures |m.Values| <= n
    decreases n
  {
  }

  /** Each file takes at most one header and as many sectors as a header can name. */
  lemma MarksBound(hs: Headers, m: map<Name, int>, marks: set<nat>)
    requires Consistent(hs, m, marks)
    ensures |marks| <= (1 + NUM_DIRECT) * (2 + |m|)
  {
    var owners := Owners(hs, Roots(m));
    forall r | r in owners
      ensures |owners[r]| <= 1 + NUM_DIRECT
    {
      OwnedSize(hs, r);
    }
    FewValues(m, |m|);
    assert owners.Keys == Roots(m);
    UnionSize(owners, 1 + NUM_DIRECT, |owners|);
    MulMonotonic(1 + NUM_DIRECT, |owners|, 2 + |m|);
  }

  /** The data of the two well-known files. */
  ghost function MetaData(hs: Headers): (s: set<nat>)
    requires HeaderOk(hs[FREE_MAP_SECTOR]) && HeaderOk(hs[DIRECTORY_SECTOR])
  {
    DataSet(hs[FREE_MAP_SECTOR]) + DataSet(hs[DIRECTORY_SECTOR])
  }

  /** It is marked, holds no header, and is apart from all other files; and the two files are apart. */
  lemma MetaApart(hs: Headers, m: map<Name, int>, marks: set<nat>)
    requires Consistent(hs, m, marks)
    ensures HeaderOk(hs[FREE_MAP_SECTOR]) && HeaderOk(hs[DIRECTORY_SECTOR])
    ensures DataSet(hs[FREE_MAP_SECTOR]) !! DataSet(hs[DIRECTORY_SECTOR])
    ensures MetaData(hs) <= marks
    ensures forall r: int :: r in Roots(m) ==> r !in MetaData(hs)
    ensures forall k :: k in m ==> RootOk(hs, m[k]) && Owned(hs, m[k]) !! MetaData(hs)
  {
    RootMarked(hs, m, marks, FREE_MAP_SECTOR);
    RootMarked(hs, m, marks, DIRECTORY_SECTOR);
    RootsApart(hs, m, marks, FREE_MAP_SECTOR, DIRECTORY_SECTOR);
    forall r | r in Roots(m)
      ensures RootOk(hs, r) && r !in MetaData(hs)
      ensures r > DIRECTORY_SECTOR ==> Owned(hs, r) !! MetaData(hs)
    {
      RootMarked(hs, m, marks, r);
      if r != FREE_MAP_SECTOR {
        RootsApart(hs, m, marks, r, FREE_MAP_SECTOR);
      }
      if r != DIRECTORY_SECTOR {
        RootsApart(hs, m, marks, r, DIRECTORY_SECTOR);
      }
    }
    forall k | k in m
      ensures m[k] in Roots(m)
    {
      assert m[k] in m.Values;
    }
  }

  /** A file gone, with all it owned. */
  lemma DropFile(hs: Headers, m: map<Name, int>, marks: set<nat>, hs': Headers, key: Name)
    requires Consistent(hs, m, marks) && SameRoots(hs, hs', m - {key}) && key in m && m[key] in Roots(m)
    ensures Consistent(hs', m - {key}, marks - Owned(hs, m[key]))
  {
    var roots, sector := Roots(m), m[key];
    RootsAfterRemove(m, key);
    OneOwnerLess(hs, hs', roots, sector);
    RemoveOwner(Owners(hs, roots), sector);
    FewerNames(m, key);
  }

  lemma FewerNames(m: map<Name, int>, key: Name)
    requires SectorsOk(m)
    ensures SectorsOk(m - {key})
  {
  }

  lemma RootsAfterRemove(m: map<Name, int>, key: Name)
    requires SectorsOk(m) && key in m
    ensures Roots(m - {key}) == Roots(m) - {m[key]}
  {
    ValuesAfterRemove(m, key);
  }

  lemma OneOwnerLess(hs: Headers, hs': Headers, roots: set<int>, sector: int)
    requires sector in roots && (forall r :: r in roots ==> RootOk(hs, r))
    requires forall r :: r in roots && r != sector ==> RootOk(hs, r) && hs'[r] == hs[r]
    ensures forall r :: r in roots - {sector} ==> RootOk(hs', r)
    ensures Owners(hs', roots - {sector}) == Owners(hs, roots) - {sector}
  {
  }

  /** A freshly formatted disk: only the two well-known files. */
  lemma NoFiles(hs: Headers)
    requires RootOk(hs, FREE_MAP_SECTOR) && RootOk(hs, DIRECTORY_SECTOR)
    requires Owned(hs, FREE_MAP_SECTOR) !! Owned(hs, DIRECTORY_SECTOR)
    ensures Consistent(hs, map[], Owned(hs, FREE_MAP_SECTOR) + Owned(hs, DIRECTORY_SECTOR))
  {
    var none: map<int, set<nat>> := map[];
    var one := none[FREE_MAP_SECTOR as int := Owned(hs, FREE_MAP_SECTOR)];
    var both := one[DIRECTORY_SECTOR as int := Owned(hs, DIRECTORY_SECTOR)];
    assert Union(none) == {};
    AddOwner(none, FREE_MAP_SECTOR, Owned(hs, FREE_MAP_SECTOR));
    AddOwner(one, DIRECTORY_SECTOR, Owned(hs, DIRECTORY_SECTOR));
    assert Roots(map[]) == {FREE_MAP_SECTOR as int, DIRECTORY_SECTOR as int};
    assert Owners(hs, Roots(map[])) == both;
  }

  /** The same files with the same headers. */
  lemma KeepFiles(hs: Headers, m: map<Name, int>, marks: set<nat>, hs': Headers)
    requires Consistent(hs, m, marks) && SameRoots(hs, hs', m)
    ensures Consistent(hs', m, marks)
  {
  }
}

/**
  What the disk of code/filesys/filesys.cc holds between operations: the free map and the
  directory, both files of that same disk, agree on who owns which sector.
 */
module FileSystemSpec {
  import opened Bytes
  import opened Bitmaps
  import opened DiskLayout
  import opened Directories
  import opened Bookkeeping

  const FREE_MAP_FILE_SIZE: nat := 128
  const DIRECTORY_FILE_SIZE: nat := 200
  const FREE_MAP_WORDS: nat := 32

  /** The first `n` sectors read as headers. */
  ghost function HeadersUpTo(d: Disk, n: nat): (hs: seq<Header>)
    requires n <= NUM_SECTORS
    ensures |hs| == n
  {
    if n == 0 then [] else HeadersUpTo(d, n - 1) + [DecodeHeader(d[n - 1])]
  }

  ghost function HeadersOf(d: Disk): (hs: Headers)
  {
    HeadersUpTo(d, NUM_SECTORS)
  }

  lemma {:induction false} HeaderIn(d: Disk, n: nat, x: nat)
    requires x < n <= NUM_SECTORS
    ensures HeadersUpTo(d, n)[x] == DecodeHeader(d[x])
  {
    if x < n - 1 {
      HeaderIn(d, n - 1, x);
    }
  }

  /** The free map and the directory have the sizes they are created with. */
  ghost predicate Booted(hs: Headers)
  {
    && HeaderOk(hs[FREE_MAP_SECTOR]) && hs[FREE_MAP_SECTOR].numBytes == FREE_MAP_FILE_SIZE
    && HeaderOk(hs[DIRECTORY_SECTOR]) && hs[DIRECTORY_SECTOR].numBytes == DIRECTORY_FILE_SIZE
  }

  /** The directory on the disk. */
  ghost function Table(d: Disk, hs: Headers): (t: seq<Entry>)
    requires Booted(hs)
    ensures |t| == NUM_DIR_ENTRIES
  {
    DecodeTable(Content(d, hs[DIRECTORY_SECTOR]))
  }

  /** The words of the free map on the disk. */
  ghost function MapWords(d: Disk, hs: Headers): (ws: seq<Word>)
    requires Booted(hs)
    ensures |ws| == FREE_MAP_WORDS
  {
    DecodeWords(Content(d, hs[FREE_MAP_SECTOR]))
  }

  /** What an operation reads off the disk: headers, directory and marks. */
  datatype FsView = FsView(hs: Headers, table: seq<Entry>, marks: set<nat>)

  /** `v` is what disk `d` says. */
  ghost predicate Shows(d: Disk, v: FsView)
  {
    && v.hs == HeadersOf(d) && Booted(v.hs)
    && v.table == Table(d, v.hs)
    && v.marks == Marked(MapWords(d, v.hs), NUM_SECTORS)
  }

  /** The directory is well formed, and the free map marks exactly the sectors with an owner, each with one owner. */
  ghost predicate Balanced(v: FsView)
  {
    && EntriesOk(v.table)
    && Consistent(v.hs, DirMap(v.table), v.marks)
  }

  /** The sectors owned by the two well-known files and by the files that the entries of `t` name. */
  ghost function TableOwns(hs: Headers, t: seq<Entry>): (s: set<nat>)
    requires TableApart(hs, t)
    decreases |t|, 1
  {
    if t == [] then Owned(hs, FREE_MAP_SECTOR) + Owned(hs, DIRECTORY_SECTOR)
    else if t[|t| - 1].inUse then TableOwns(hs, t[..|t| - 1]) + Owned(hs, t[|t| - 1].sector)
    else TableOwns(hs, t[..|t| - 1])
  }

  /** Each file has a name of its own, a sound header and sectors of its own. */
  ghost predicate TableApart(hs: Headers, t: seq<Entry>)
    decreases |t|, 0
  {
    if t == [] then
      && RootOk(hs, FREE_MAP_SECTOR) && RootOk(hs, DIRECTORY_SECTOR)
      && Owned(hs, FREE_MAP_SECTOR) !! Owned(hs, DIRECTORY_SECTOR)
    else
      var s, e := t[..|t| - 1], t[|t| - 1];
      && TableApart(hs, s)
      && (e.inUse ==> Key(e.name) !in DirMap(s) && RootOk(hs, e.sector) && Owned(hs, e.sector) !! TableOwns(hs, s))
  }

  /** Balanced, entry by entry. */
  ghost predicate Sound(v: FsView)
  {
    TableApart(v.hs, v.table) && v.marks == TableOwns(v.hs, v.table)
  }

  lemma {:induction false} ApartIsConsistent(hs: Headers, t: seq<Entry>)
    requires TableApart(hs, t)
    ensures EntriesOk(t) && Consistent(hs, DirMap(t), TableOwns(hs, t))
  {
    if t == [] {
      NoFiles(hs);
    } else {
      var s, e := t[..|t| - 1], t[|t| - 1];
      ApartIsConsistent(hs, s);
      if e.inUse {
        AddFile(hs, DirMap(s), TableOwns(hs, s), hs, Key(e.name), e.sector);
        FreshSector(hs, DirMap(s), TableOwns(hs, s), Key(e.name), e.sector);
      }
    }
  }

  lemma {:induction false} ConsistentIsApart(hs: Headers, t: seq<Entry>, marks: set<nat>)
    requires EntriesOk(t) && Consistent(hs, DirMap(t), marks)
    ensures TableApart(hs, t) && TableOwns(hs, t) == marks
  {
    if t == [] {
      RootMarked(hs, DirMap(t), marks, FREE_MAP_SECTOR);
      RootMarked(hs, DirMap(t), marks, DIRECTORY_SECTOR);
      RootsApart(hs, DirMap(t), marks, FREE_MAP_SECTOR, DIRECTORY_SECTOR);
      OnlyRoots(hs, marks);
    } else {
      var s, e := t[..|t| - 1], t[|t| - 1];
      if e.inUse {
        var m, key := DirMap(t), Key(e.name);
        FewerRoots(m, key);
        RootMarked(hs, m, marks, e.sector);
        PutThenTake(DirMap(s), key, e.sector);
        DropFile(hs, m, marks, hs, key);
        ConsistentIsApart(hs, s, marks - Owned(hs, e.sector));
      } else {
        ConsistentIsApart(hs, s, marks);
      }
    }
  }

  lemma OnlyRoots(hs: Headers, marks: set<nat>)
    requires Consistent(hs, map[], marks) && RootOk(hs, FREE_MAP_SECTOR) && RootOk(hs, DIRECTORY_SECTOR)
    requires Owned(hs, FREE_MAP_SECTOR) !! Owned(hs, DIRECTORY_SECTOR)
    ensures marks == Owned(hs, FREE_MAP_SECTOR) + Owned(hs, DIRECTORY_SECTOR)
  {
    NoFiles(hs);
  }

  lemma PutThenTake<K, V>(m: map<K, V>, key: K, value: V)
    requires key !in m
    ensures m[key := value] - {key} == m
  {
  }

  /** The invariant of a disk: what its directory, headers and free map say is sound. */
  ghost predicate FsInv(d: Disk)
  {
    exists v :: Shows(d, v) && Sound(v)
  }

  /** On every sound disk the marked sectors are exactly those with an owner, and no sector has two owners. */
  lemma SoundIffBalanced(v: FsView)
    ensures Sound(v) <==> Balanced(v)
  {
    if Sound(v) {
      ApartIsConsistent(v.hs, v.table);
    }
    if Balanced(v) {
      ConsistentIsApart(v.hs, v.table, v.marks);
    }
  }

  ghost function ViewOf(d: Disk): (v: FsView)
    requires FsInv(d)
    ensures Shows(d, v) && Sound(v)
  {
    var v :| Shows(d, v) && Sound(v);
    v
  }

  /** The files whose headers `m` points to, by name. */
  ghost function FilesOf(d: Disk, hs: Headers, m: map<Name, int>): (fs: map<Name, seq<Byte>>)
  {
    map key | key in m :: Stored(d, hs, m[key])
  }

  /** What is stored under header sector `r`. */
  ghost function Stored(d: Disk, hs: Headers, r: int): (bytes: seq<Byte>)
  {
    if RootOk(hs, r) then Content(d, hs[r]) else []
  }

  /** The files of a sound disk, by name. */
  ghost function FilesIn(d: Disk, v: FsView): (fs: map<Name, seq<Byte>>)
  {
    FilesOf(d, v.hs, DirMap(v.table))
  }

  ghost function Files(d: Disk): (fs: map<Name, seq<Byte>>)
    requires FsInv(d)
  {
    FilesIn(d, ViewOf(d))
  }

  /** `d'` differs from `d` at most in the sectors `changed`. */
  ghost predicate Agree(d: Disk, d': Disk, changed: set<nat>)
  {
    forall x: nat :: x < NUM_SECTORS && x !in changed ==> d'[x] == d[x]
  }

  lemma SameHeaders(d: Disk, d': Disk, changed: set<nat>)
    requires Agree(d, d', changed)
    ensures forall x: nat :: x < NUM_SECTORS && x !in changed ==> HeadersOf(d')[x] == HeadersOf(d)[x]
  {
    forall x: nat | x < NUM_SECTORS && x !in changed
      ensures HeadersOf(d')[x] == HeadersOf(d)[x]
    {
      HeaderIn(d, NUM_SECTORS, x);
      HeaderIn(d', NUM_SECTORS, x);
    }
  }

  /** The disk after FileHeader::WriteBack. */
  ghost function WithHeader(d: Disk, x: nat, h: Header): (d': Disk)
    requires x < NUM_SECTORS
  {
    d[x := EncodeHeader(h)]
  }

  ghost function WithRoot(hs: Headers, x: nat, h: Header): (hs': Headers)
    requires x < NUM_SECTORS
  {
    hs[x := h]
  }

  /** Writing one header changes what is read as header in one sector. */
  lemma HeaderWritten(d: Disk, x: nat, h: Header)
    requires x < NUM_SECTORS
    ensures HeadersOf(WithHeader(d, x, h)) == WithRoot(HeadersOf(d), x, h)
    ensures Agree(d, WithHeader(d, x, h), {x})
  {
    var d' := WithHeader(d, x, h);
    HeaderRoundTrip(h);
    HeaderIn(d', NUM_SECTORS, x);
    SameHeaders(d, d', {x});
  }

  /** `d'` is `d` with the directory rewritten to `t` and the free map to `ws`. */
  ghost predicate MetaRewritten(d: Disk, hs: Headers, d': Disk, t: seq<Entry>, ws: seq<Word>)
    requires Booted(hs)
  {
    && |t| == NUM_DIR_ENTRIES && |ws| == FREE_MAP_WORDS
    && Agree(d, d', MetaData(hs))
    && Content(d', hs[DIRECTORY_SECTOR]) == EncodeTable(t)
    && DecodeWords(Content(d', hs[FREE_MAP_SECTOR])) == ws
  }

  /** The directory written first, then the free map. */
  lemma {:induction false} DirThenMap(d: Disk, hs: Headers, d1: Disk, d2: Disk, t: seq<Entry>, ws: seq<Word>)
    requires Booted(hs) && DataSet(hs[FREE_MAP_SECTOR]) !! DataSet(hs[DIRECTORY_SECTOR])
    requires |t| == NUM_DIR_ENTRIES && |ws| == FREE_MAP_WORDS
    requires Written(d, hs[DIRECTORY_SECTOR], 0, EncodeTable(t), d1)
    requires Content(d1, hs[DIRECTORY_SECTOR]) == EncodeTable(t)
    requires Written(d1, hs[FREE_MAP_SECTOR], 0, EncodeWords(ws), d2)
    requires DecodeWords(Content(d2, hs[FREE_MAP_SECTOR])) == ws
    ensures MetaRewritten(d, hs, d2, t, ws)
  {
    ContentFrame(d1, d2, hs[DIRECTORY_SECTOR]);
  }

  /** The free map written first, then the directory. */
  lemma {:induction false} MapThenDir(d: Disk, hs: Headers, d1: Disk, d2: Disk, t: seq<Entry>, ws: seq<Word>)
    requires Booted(hs) && DataSet(hs[FREE_MAP_SECTOR]) !! DataSet(hs[DIRECTORY_SECTOR])
    requires |t| == NUM_DIR_ENTRIES && |ws| == FREE_MAP_WORDS
    requires Written(d, hs[FREE_MAP_SECTOR], 0, EncodeWords(ws), d1)
    requires DecodeWords(Content(d1, hs[FREE_MAP_SECTOR])) == ws
    requires Written(d1, hs[DIRECTORY_SECTOR], 0, EncodeTable(t), d2)
    requires Content(d2, hs[DIRECTORY_SECTOR]) == EncodeTable(t)
    ensures MetaRewritten(d, hs, d2, t, ws)
  {
    ContentFrame(d1, d2, hs[FREE_MAP_SECTOR]);
  }

  lemma {:induction false} MetaAfter(d: Disk, hs: Headers, d': Disk, t: seq<Entry>, ws: seq<Word>)
    requires Booted(hs) && hs == HeadersOf(d) && FREE_MAP_SECTOR !in MetaData(hs) && DIRECTORY_SECTOR !in MetaData(hs)
    requires MetaRewritten(d, hs, d', t, ws)
    ensures Shows(d', FsView(HeadersOf(d'), t, Marked(ws, NUM_SECTORS)))
    ensures forall x: nat :: x < NUM_SECTORS && x !in MetaData(hs) ==> HeadersOf(d')[x] == hs[x]
  {
    SameHeaders(d, d', MetaData(hs));
    TableRoundTrip(t);
  }

  /** A header written to a free sector, then directory and free map rewritten: the other headers stay. */
  lemma {:induction false} HeadersAfterCreate(d: Disk, hs: Headers, m: map<Name, int>, marks: set<nat>, sector: nat,
                                              h: Header, d': Disk, t: seq<Entry>, ws: seq<Word>)
    requires hs == HeadersOf(d) && Booted(hs) && Consistent(hs, m, marks)
    requires sector < NUM_SECTORS && sector !in marks && Booted(WithRoot(hs, sector, h))
    requires MetaRewritten(WithHeader(d, sector, h), WithRoot(hs, sector, h), d', t, ws)
    ensures Shows(d', FsView(HeadersOf(d'), t, Marked(ws, NUM_SECTORS)))
    ensures SameRoots(hs, HeadersOf(d'), m) && HeadersOf(d')[sector] == h
    ensures Agree(d, d', MetaData(hs) + {sector})
  {
    HeaderWritten(d, sector, h);
    MetaApart(hs, m, marks);
    RootsNot(hs, m, marks, sector);
    AfterHeader(d, hs, sector, WithHeader(d, sector, h), WithRoot(hs, sector, h), d', t, ws);
    RootsStay(hs, m, sector, h, WithRoot(hs, sector, h), HeadersOf(d'));
  }

  /** Directory and free map rewritten on a disk that differs from `d` in one sector, which holds neither. */
  lemma {:induction false} AfterHeader(d: Disk, hs: Headers, sector: nat, d1: Disk, hs1: Headers, d': Disk,
                                       t: seq<Entry>, ws: seq<Word>)
    requires Booted(hs) && Booted(hs1) && hs1 == HeadersOf(d1) && Agree(d, d1, {sector})
    requires hs1[FREE_MAP_SECTOR] == hs[FREE_MAP_SECTOR] && hs1[DIRECTORY_SECTOR] == hs[DIRECTORY_SECTOR]
    requires FREE_MAP_SECTOR !in MetaData(hs) && DIRECTORY_SECTOR !in MetaData(hs) && MetaRewritten(d1, hs1, d', t, ws)
    ensures Shows(d', FsView(HeadersOf(d'), t, Marked(ws, NUM_SECTORS)))
    ensures Agree(d, d', MetaData(hs) + {sector})
    ensures forall x: nat :: x < NUM_SECTORS && x !in MetaData(hs) ==> HeadersOf(d')[x] == hs1[x]
  {
    assert MetaData(hs1) == MetaData(hs);
    MetaAfter(d1, hs1, d', t, ws);
  }

  lemma RootsStay(hs: Headers, m: map<Name, int>, sector: nat, h: Header, hs1: Headers, hs': Headers)
    requires HeaderOk(hs[FREE_MAP_SECTOR]) && HeaderOk(hs[DIRECTORY_SECTOR])
    requires sector < NUM_SECTORS && hs1 == hs[sector := h] && sector as int !in Roots(m) && sector !in MetaData(hs)
    requires forall r: int :: r in Roots(m) ==> r !in MetaData(hs)
    requires forall x: nat :: x < NUM_SECTORS && x !in MetaData(hs) ==> hs'[x] == hs1[x]
    ensures SameRoots(hs, hs', m) && hs'[sector] == h
  {
  }

  /** What a successful Create leaves on the disk: a header in a free sector, then directory and free map. */
  ghost predicate CreateWrites(d: Disk, v: FsView, sector: nat, h: Header, i: int, e: Entry, ws: seq<Word>, d': Disk)
  {
    && sector < NUM_SECTORS && sector !in v.marks
    && HeaderOk(h) && DataSet(h) !! v.marks + {sector}
    && 0 <= i < |v.table| && !v.table[i].inUse
    && e.inUse && e.sector == sector && Key(e.name) !in DirMap(v.table)
    && |ws| == FREE_MAP_WORDS && Marked(ws, NUM_SECTORS) == v.marks + {sector} + DataSet(h)
    && Booted(WithRoot(v.hs, sector, h))
    && MetaRewritten(WithHeader(d, sector, h), WithRoot(v.hs, sector, h), d', v.table[i := e], ws)
  }

  /** Create keeps the file system sound. */
  lemma {:induction false} CreateKeeps(d: Disk, v: FsView, sector: nat, h: Header, i: int, e: Entry, ws: seq<Word>,
                                       d': Disk)
    requires Shows(d, v) && Balanced(v) && CreateWrites(d, v, sector, h, i, e, ws, d')
    ensures var v' := FsView(HeadersOf(d'), v.table[i := e], Marked(ws, NUM_SECTORS));
            Shows(d', v') && Balanced(v')
  {
    HeadersAfterCreate(d, v.hs, DirMap(v.table), v.marks, sector, h, d', v.table[i := e], ws);
    TableAfterCreate(v, HeadersOf(d'), sector, h, i, e);
  }

  lemma TableAfterCreate(v: FsView, hs': Headers, sector: nat, h: Header, i: int, e: Entry)
    requires Balanced(v) && SameRoots(v.hs, hs', DirMap(v.table))
    requires sector < NUM_SECTORS && sector !in v.marks && hs'[sector] == h && HeaderOk(h)
    requires DataSet(h) !! v.marks + {sector}
    requires 0 <= i < |v.table| && !v.table[i].inUse && e.inUse && e.sector == sector && Key(e.name) !in DirMap(v.table)
    ensures Balanced(FsView(hs', v.table[i := e], v.marks + {sector} + DataSet(h)))
    ensures DirMap(v.table[i := e]) == DirMap(v.table)[Key(e.name) := sector]
  {
    var m := DirMap(v.table);
    FreshSector(v.hs, m, v.marks, Key(e.name), sector);
    MapAfterAdd(v.table, i, e);
    AddFile(v.hs, m, v.marks, hs', Key(e.name), sector);
    assert v.marks + {sector} + DataSet(h) == v.marks + Owned(hs', sector);
  }

  /** The files of `m` have the same content in both. */
  ghost predicate SameFiles(d: Disk, hs: Headers, d': Disk, hs': Headers, m: map<Name, int>)
  {
    forall key :: key in m ==> Stored(d', hs', m[key]) == Stored(d, hs, m[key])
  }

  /** Files keep their content when only free sectors and the two well-known files change. */
  lemma FilesKept(d: Disk, hs: Headers, m: map<Name, int>, marks: set<nat>, d': Disk, hs': Headers, extra: set<nat>)
    requires Consistent(hs, m, marks) && SameRoots(hs, hs', m)
    requires HeaderOk(hs[FREE_MAP_SECTOR]) && HeaderOk(hs[DIRECTORY_SECTOR])
    requires Agree(d, d', MetaData(hs) + extra) && extra !! marks
    ensures SameFiles(d, hs, d', hs', m)
  {
    MetaApart(hs, m, marks);
    forall key | key in m
      ensures Stored(d', hs', m[key]) == Stored(d, hs, m[key])
    {
      assert m[key] in m.Values;
      RootMarked(hs, m, marks, m[key]);
      ContentFrame(d, d', hs[m[key]]);
    }
  }

  lemma FilesAdded(d: Disk, hs: Headers, d': Disk, hs': Headers, m: map<Name, int>, key: Name, sector: int)
    requires SameFiles(d, hs, d', hs', m) && key !in m
    ensures FilesOf(d', hs', m[key := sector]) == FilesOf(d, hs, m)[key := Stored(d', hs', sector)]
  {
  }

  /** Create adds one file, holding whatever its new sectors held, and leaves the others as they are. */
  lemma {:induction false} CreateFiles(d: Disk, v: FsView, sector: nat, h: Header, i: int, e: Entry, ws: seq<Word>,
                                       d': Disk)
    requires Shows(d, v) && Balanced(v) && CreateWrites(d, v, sector, h, i, e, ws, d')
    ensures FilesIn(d', FsView(HeadersOf(d'), v.table[i := e], Marked(ws, NUM_SECTORS))) ==
              FilesIn(d, v)[Key(e.name) := Content(d, h)]
  {
    var m, hs' := DirMap(v.table), HeadersOf(d');
    HeadersAfterCreate(d, v.hs, m, v.marks, sector, h, d', v.table[i := e], ws);
    TableAfterCreate(v, hs', sector, h, i, e);
    FilesKept(d, v.hs, m, v.marks, d', hs', {sector});
    NewContent(d, v.hs, m, v.marks, sector, h, d');
    FilesAdded(d, v.hs, d', hs', m, Key(e.name), sector);
  }

  lemma NewContent(d: Disk, hs: Headers, m: map<Name, int>, marks: set<nat>, sector: nat, h: Header, d': Disk)
    requires Consistent(hs, m, marks) && HeaderOk(hs[FREE_MAP_SECTOR]) && HeaderOk(hs[DIRECTORY_SECTOR])
    requires HeaderOk(h) && DataSet(h) !! marks + {sector} && Agree(d, d', MetaData(hs) + {sector})
    ensures Content(d', h) == Content(d, h)
  {
    MetaApart(hs, m, marks);
    ContentFrame(d, d', h);
  }

  /** What Remove leaves on the disk: the entry out of use, the file's header and data sectors unmarked. */
  ghost predicate RemoveWrites(d: Disk, v: FsView, key: Name, i: int, ws: seq<Word>, d': Disk)
  {
    && IsEntry(v.table, key, i) && RootOk(v.hs, v.table[i].sector)
    && |ws| == FREE_MAP_WORDS && Marked(ws, NUM_SECTORS) == v.marks - Owned(v.hs, v.table[i].sector)
    && Booted(v.hs) && MetaRewritten(d, v.hs, d', v.table[i := v.table[i].(inUse := false)], ws)
  }

  /** Directory and free map rewritten: all headers stay. */
  lemma {:induction false} HeadersAfterRewrite(d: Disk, hs: Headers, m: map<Name, int>, marks: set<nat>, d': Disk,
                                               t: seq<Entry>, ws: seq<Word>)
    requires hs == HeadersOf(d) && Booted(hs) && Consistent(hs, m, marks) && MetaRewritten(d, hs, d', t, ws)
    ensures Shows(d', FsView(HeadersOf(d'), t, Marked(ws, NUM_SECTORS)))
    ensures SameRoots(hs, HeadersOf(d'), m)
  {
    MetaApart(hs, m, marks);
    MetaAfter(d, hs, d', t, ws);
  }

  /** Remove keeps the file system sound. */
  lemma {:induction false} RemoveKeeps(d: Disk, v: FsView, key: Name, i: int, ws: seq<Word>, d': Disk)
    requires Shows(d, v) && Balanced(v) && RemoveWrites(d, v, key, i, ws, d')
    ensures var v' := FsView(HeadersOf(d'), v.table[i := v.table[i].(inUse := false)], Marked(ws, NUM_SECTORS));
            Shows(d', v') && Balanced(v') && DirMap(v'.table) == DirMap(v.table) - {key}
  {
    var m, hs' := DirMap(v.table), HeadersOf(d');
    HeadersAfterRewrite(d, v.hs, m, v.marks, d', v.table[i := v.table[i].(inUse := false)], ws);
    EntryInMap(v.table, key, i);
    MapAfterRemove(v.table, i);
    FewerRoots(m, key);
    DropFile(v.hs, m, v.marks, hs', key);
  }

  lemma FewerRoots(m: map<Name, int>, key: Name)
    requires key in m
    ensures Roots(m - {key}) <= Roots(m) && m[key] in Roots(m)
  {
  }

  /** Remove takes one file away and leaves the others as they are. */
  lemma {:induction false} RemoveFiles(d: Disk, v: FsView, key: Name, i: int, ws: seq<Word>, d': Disk)
    requires Shows(d, v) && Balanced(v) && RemoveWrites(d, v, key, i, ws, d')
    ensures FilesIn(d', FsView(HeadersOf(d'), v.table[i := v.table[i].(inUse := false)], Marked(ws, NUM_SECTORS))) ==
              FilesIn(d, v) - {key}
  {
    var m, hs' := DirMap(v.table), HeadersOf(d');
    HeadersAfterRewrite(d, v.hs, m, v.marks, d', v.table[i := v.table[i].(inUse := false)], ws);
    RemoveKeeps(d, v, key, i, ws, d');
    FilesKept(d, v.hs, m, v.marks, d', hs', {});
    FilesDropped(d, v.hs, d', hs', m, key);
  }

  lemma FilesDropped(d: Disk, hs: Headers, d': Disk, hs': Headers, m: map<Name, int>, key: Name)
    requires SameFiles(d, hs, d', hs', m)
    ensures FilesOf(d', hs', m - {key}) == FilesOf(d, hs, m) - {key}
  {
  }

  /** A write to the data of one file leaves every header where it was. */
  lemma HeadersAfterWrite(d: Disk, hs: Headers, m: map<Name, int>, marks: set<nat>, r: int, d': Disk)
    requires hs == HeadersOf(d) && Consistent(hs, m, marks) && r in Roots(m) && RootOk(hs, r)
    requires Agree(d, d', DataSet(hs[r]))
    ensures SameRoots(hs, HeadersOf(d'), m)
  {
    SameHeaders(d, d', DataSet(hs[r]));
    forall q | q in Roots(m)
      ensures 0 <= q < NUM_SECTORS && q !in DataSet(hs[r])
    {
      RootMarked(hs, m, marks, q);
      if q != r {
        RootsApart(hs, m, marks, q, r);
      }
    }
  }

  /** It leaves the content of every other file as it was. */
  lemma OthersAfterWrite(d: Disk, hs: Headers, m: map<Name, int>, marks: set<nat>, r: int, q: int, d': Disk)
    requires Consistent(hs, m, marks) && r in Roots(m) && q in Roots(m) && r != q
    requires RootOk(hs, r) && RootOk(hs, q) && Agree(d, d', DataSet(hs[r]))
    ensures Content(d', hs[q]) == Content(d, hs[q])
  {
    RootsApart(hs, m, marks, r, q);
    ContentFrame(d, d', hs[q]);
  }

  /** It leaves the directory and the free map as they were. */
  lemma ShowsAfterWrite(d: Disk, v: FsView, m: map<Name, int>, r: int, d': Disk)
    requires Shows(d, v) && Consistent(v.hs, m, v.marks) && r in Roots(m) && r > DIRECTORY_SECTOR
    requires RootOk(v.hs, r) && Agree(d, d', DataSet(v.hs[r]))
    ensures Shows(d', FsView(HeadersOf(d'), v.table, v.marks))
  {
    HeadersAfterWrite(d, v.hs, m, v.marks, r, d');
    RootMarked(v.hs, m, v.marks, FREE_MAP_SECTOR);
    RootMarked(v.hs, m, v.marks, DIRECTORY_SECTOR);
    OthersAfterWrite(d, v.hs, m, v.marks, r, FREE_MAP_SECTOR, d');
    OthersAfterWrite(d, v.hs, m, v.marks, r, DIRECTORY_SECTOR, d');
  }

  /** Writing to a file keeps the file system sound. */
  lemma WriteKeeps(d: Disk, v: FsView, key: Name, d': Disk)
    requires Shows(d, v) && Balanced(v) && key in DirMap(v.table)
    requires RootOk(v.hs, DirMap(v.table)[key]) && Agree(d, d', DataSet(v.hs[DirMap(v.table)[key]]))
    ensures Shows(d', FsView(HeadersOf(d'), v.table, v.marks)) && Balanced(FsView(HeadersOf(d'), v.table, v.marks))
  {
    var m := DirMap(v.table);
    FewerRoots(m, key);
    ShowsAfterWrite(d, v, m, m[key], d');
    HeadersAfterWrite(d, v.hs, m, v.marks, m[key], d');
    KeepFiles(v.hs, m, v.marks, HeadersOf(d'));
  }

  /** The files of `m` other than `key` have the same content in both. */
  ghost predicate SameButOne(d: Disk, hs: Headers, d': Disk, hs': Headers, m: map<Name, int>, key: Name)
  {
    forall k :: k in m && k != key ==> Stored(d', hs', m[k]) == Stored(d, hs, m[k])
  }

  lemma FilesWritten(d: Disk, hs: Headers, d': Disk, hs': Headers, m: map<Name, int>, key: Name)
    requires key in m && SameButOne(d, hs, d', hs', m, key)
    ensures FilesOf(d', hs', m) == FilesOf(d, hs, m)[key := Stored(d', hs', m[key])]
  {
  }

  /** Writing to a file changes that file only. */
  lemma WriteFiles(d: Disk, v: FsView, key: Name, d': Disk)
    requires Shows(d, v) && Balanced(v) && key in DirMap(v.table)
    requires RootOk(v.hs, DirMap(v.table)[key]) && Agree(d, d', DataSet(v.hs[DirMap(v.table)[key]]))
    ensures FilesIn(d', FsView(HeadersOf(d'), v.table, v.marks))
         == FilesIn(d, v)[key := Content(d', v.hs[DirMap(v.table)[key]])]
  {
    var m, hs' := DirMap(v.table), HeadersOf(d');
    OneFileWritten(d, v.hs, m, v.marks, key, d');
    FilesWritten(d, v.hs, d', hs', m, key);
  }

  lemma OneFileWritten(d: Disk, hs: Headers, m: map<Name, int>, marks: set<nat>, key: Name, d': Disk)
    requires hs == HeadersOf(d) && Consistent(hs, m, marks) && key in m
    requires RootOk(hs, m[key]) && Agree(d, d', DataSet(hs[m[key]]))
    ensures HeadersOf(d')[m[key]] == hs[m[key]]
    ensures SameButOne(d, hs, d', HeadersOf(d'), m, key)
  {
    FewerRoots(m, key);
    HeadersAfterWrite(d, hs, m, marks, m[key], d');
    forall k | k in m
      ensures RootOk(hs, m[k]) && HeadersOf(d')[m[k]] == hs[m[k]]
      ensures k != key ==> Content(d', hs[m[k]]) == Content(d, hs[m[k]])
    {
      FewerRoots(m, k);
      RootMarked(hs, m, marks, m[k]);
      if k != key {
        OthersAfterWrite(d, hs, m, marks, m[key], m[k], d');
      }
    }
  }

  /** What formatting leaves on a disk that held anything: two headers, an empty directory and a free map. */
  ghost predicate FormatWrites(d: Disk, mapHdr: Header, dirHdr: Header, t: seq<Entry>, ws: seq<Word>, d': Disk)
  {
    && HeaderOk(mapHdr) && mapHdr.numBytes == FREE_MAP_FILE_SIZE
    && DataSet(mapHdr) !! {FREE_MAP_SECTOR, DIRECTORY_SECTOR}
    && HeaderOk(dirHdr) && dirHdr.numBytes == DIRECTORY_FILE_SIZE
    && DataSet(dirHdr) !! {FREE_MAP_SECTOR, DIRECTORY_SECTOR} + DataSet(mapHdr)
    && (forall i :: 0 <= i < |t| ==> !t[i].inUse)
    && |ws| == FREE_MAP_WORDS
    && Marked(ws, NUM_SECTORS) == {FREE_MAP_SECTOR, DIRECTORY_SECTOR} + DataSet(mapHdr) + DataSet(dirHdr)
    && var d2 := WithHeader(WithHeader(d, FREE_MAP_SECTOR, mapHdr), DIRECTORY_SECTOR, dirHdr);
       var hs2 := WithRoot(WithRoot(HeadersOf(d), FREE_MAP_SECTOR, mapHdr), DIRECTORY_SECTOR, dirHdr);
       MetaRewritten(d2, hs2, d', t, ws)
  }

  lemma {:induction false} BlankTable(t: seq<Entry>)
    requires forall i :: 0 <= i < |t| ==> !t[i].inUse
    ensures EntriesOk(t) && DirMap(t) == map[]
  {
    if t != [] {
      BlankTable(t[..|t| - 1]);
    }
  }

  /** Formatting makes a sound, empty file system of any disk. */
  lemma {:induction false} FormatSound(d: Disk, mapHdr: Header, dirHdr: Header, t: seq<Entry>, ws: seq<Word>, d': Disk)
    requires FormatWrites(d, mapHdr, dirHdr, t, ws, d')
    ensures var v' := FsView(HeadersOf(d'), t, Marked(ws, NUM_SECTORS));
            Shows(d', v') && Balanced(v') && FilesIn(d', v') == map[]
    ensures HeadersOf(d')[FREE_MAP_SECTOR] == mapHdr && HeadersOf(d')[DIRECTORY_SECTOR] == dirHdr
  {
    FormatShows(d, mapHdr, dirHdr, t, ws, d');
    BlankTable(t);
    FormatBalanced(HeadersOf(d'), mapHdr, dirHdr, t, Marked(ws, NUM_SECTORS));
  }

  lemma {:induction false} FormatBalanced(hs: Headers, mapHdr: Header, dirHdr: Header, t: seq<Entry>, marks: set<nat>)
    requires hs[FREE_MAP_SECTOR] == mapHdr && hs[DIRECTORY_SECTOR] == dirHdr && HeaderOk(mapHdr) && HeaderOk(dirHdr)
    requires DataSet(mapHdr) !! {FREE_MAP_SECTOR, DIRECTORY_SECTOR}
    requires DataSet(dirHdr) !! {FREE_MAP_SECTOR, DIRECTORY_SECTOR} + DataSet(mapHdr)
    requires marks == {FREE_MAP_SECTOR, DIRECTORY_SECTOR} + DataSet(mapHdr) + DataSet(dirHdr)
    requires EntriesOk(t) && DirMap(t) == map[]
    ensures Balanced(FsView(hs, t, marks))
  {
    NoFiles(hs);
    assert marks == Owned(hs, FREE_MAP_SECTOR) + Owned(hs, DIRECTORY_SECTOR);
  }

  lemma {:induction false} FormatShows(d: Disk, mapHdr: Header, dirHdr: Header, t: seq<Entry>, ws: seq<Word>, d': Disk)
    requires FormatWrites(d, mapHdr, dirHdr, t, ws, d')
    ensures Shows(d', FsView(HeadersOf(d'), t, Marked(ws, NUM_SECTORS)))
    ensures HeadersOf(d')[FREE_MAP_SECTOR] == mapHdr && HeadersOf(d')[DIRECTORY_SECTOR] == dirHdr
  {
    var d1 := WithHeader(d, FREE_MAP_SECTOR, mapHdr);
    var hs2 := WithRoot(WithRoot(HeadersOf(d), FREE_MAP_SECTOR, mapHdr), DIRECTORY_SECTOR, dirHdr);
    HeaderWritten(d, FREE_MAP_SECTOR, mapHdr);
    HeaderWritten(d1, DIRECTORY_SECTOR, dirHdr);
    MetaAfter(WithHeader(d1, DIRECTORY_SECTOR, dirHdr), hs2, d', t, ws);
  }

  /** The disk is never full: ten files of the greatest size leave room, so only the directory limits their number. */
  lemma RoomForOneMore(v: FsView)
    requires Balanced(v) && |v.table| == NUM_DIR_ENTRIES
    ensures |v.marks| + 1 + NUM_DIRECT < NUM_SECTORS
    ensures |DirMap(v.table)| < NUM_DIR_ENTRIES <==> exists i :: 0 <= i < |v.table| && !v.table[i].inUse
  {
    UsedIsSize(v.table);
    UsedIsFull(v.table);
    MarksBound(v.hs, DirMap(v.table), v.marks);
  }
}
