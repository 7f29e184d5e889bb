/** The directory of code/filesys/directory.cc: a fixed table of names and header sectors. */
module Directories {
  import opened Bytes
  import opened DiskLayout
  import opened OpenFiles

  const FILE_NAME_MAX_LEN: nat := 9
  const NUM_DIR_ENTRIES: nat := 10
  /** One byte for the flag, padded to a word; the sector; ten bytes of name, padded to a word. */
  const ENTRY_SIZE: nat := 20

  datatype RawEntry = Entry(inUse: bool, sector: Int32, name: seq<Byte>)

  type Entry = e: RawEntry | |e.name| == FILE_NAME_MAX_LEN + 1
    witness Entry(false, 0, [0, 0, 0, 0, 0, 0, 0, 0, 0, 0])

  const BLANK_ENTRY: Entry := Entry(false, 0, [0, 0, 0, 0, 0, 0, 0, 0, 0, 0])

  function EncodeEntry(e: Entry): (s: seq<Byte>)
    ensures |s| == ENTRY_SIZE
  {
    [if e.inUse then 1 else 0, 0, 0, 0] + EncodeWord(ToWord(e.sector)) + e.name + [0, 0]
  }

  function DecodeEntry(s: seq<Byte>): (e: Entry)
    requires |s| == ENTRY_SIZE
  {
    Entry(s[0] != 0, FromWord(DecodeWord(s[4..8])), s[8..18])
  }

  lemma EntryRoundTrip(e: Entry)
    ensures DecodeEntry(EncodeEntry(e)) == e
  {
    var s, sector := EncodeEntry(e), EncodeWord(ToWord(e.sector));
    assert s[4..8] == sector && s[8..18] == e.name;
    WordRoundTrip(ToWord(e.sector));
  }

  function EncodeTable(t: seq<Entry>): (s: seq<Byte>)
    ensures |s| == |t| * ENTRY_SIZE
  {
    if t == [] then [] else EncodeEntry(t[0]) + EncodeTable(t[1..])
  }

  function DecodeTable(s: seq<Byte>): (t: seq<Entry>)
    requires |s| % ENTRY_SIZE == 0
    ensures |t| == |s| / ENTRY_SIZE
  {
    if s == [] then [] else [DecodeEntry(s[..ENTRY_SIZE])] + DecodeTable(s[ENTRY_SIZE..])
  }

  lemma {:induction false} TableRoundTrip(t: seq<Entry>)
    ensures |EncodeTable(t)| % ENTRY_SIZE == 0
    ensures DecodeTable(EncodeTable(t)) == t
  {
    if t != [] {
      var s := EncodeTable(t);
      assert s[..ENTRY_SIZE] == EncodeEntry(t[0]);
      assert s[ENTRY_SIZE..] == EncodeTable(t[1..]);
      EntryRoundTrip(t[0]);
      TableRoundTrip(t[1..]);
    }
  }

  /** The bytes of a C string that `strncmp` and `strncpy` look at: up to its end or the limit. */
  function CString(s: seq<Byte>, limit: nat): (r: seq<Byte>)
    ensures |r| <= limit
  {
    if limit == 0 || s == [] || s[0] == 0 then [] else [s[0]] + CString(s[1..], limit - 1)
  }

  lemma {:induction false} CStringBytes(s: seq<Byte>, limit: nat)
    ensures var r := CString(s, limit);
            && |r| <= |s|
            && (forall i :: 0 <= i < |r| ==> r[i] == s[i] && r[i] != 0)
            && (|r| < limit && |r| < |s| ==> s[|r|] == 0)
  {
    if limit > 0 && s != [] && s[0] != 0 {
      CStringBytes(s[1..], limit - 1);
    }
  }

  /** What identifies a file: its name cut to the length the directory keeps. */
  function Key(name: seq<Byte>): (k: seq<Byte>)
  {
    CString(name, FILE_NAME_MAX_LEN)
  }

  /** The byte at `i`, or the terminator beyond the last one. */
  function CharAt(s: seq<Byte>, i: nat): Byte
  {
    if i < |s| then s[i] else 0
  }

  /** `strncmp(a, b, n) == 0` from index `i` on. */
  predicate SamePrefix(a: seq<Byte>, b: seq<Byte>, i: nat, n: nat)
    decreases n - i
  {
    if i >= n then true
    else if CharAt(a, i) != CharAt(b, i) then false
    else if CharAt(a, i) == 0 then true
    else SamePrefix(a, b, i + 1, n)
  }

  /** `strncpy(into, from, n)`: the name, then zeros up to `n`; bytes beyond keep their old value. */
  function CopyName(into: seq<Byte>, from: seq<Byte>, n: nat): (r: seq<Byte>)
    requires n <= |into|
    ensures |r| == |into|
  {
    var s := CString(from, n);
    s + seq(n - |s|, _ => 0) + into[n..]
  }

  lemma {:induction false} CStringUnique(s: seq<Byte>, limit: nat, r: seq<Byte>)
    requires |r| <= limit && |r| <= |s|
    requires forall i :: 0 <= i < |r| ==> r[i] == s[i] && r[i] != 0
    requires |r| < limit && |r| < |s| ==> s[|r|] == 0
    ensures r == CString(s, limit)
  {
    CStringBytes(s, limit);
    assert |r| == |CString(s, limit)|;
  }

  lemma {:induction false} SamePrefixIff(a: seq<Byte>, b: seq<Byte>, i: nat, n: nat)
    requires i <= n && i <= |CString(a, n)| && i <= |CString(b, n)|
    requires CString(a, n)[..i] == CString(b, n)[..i]
    ensures SamePrefix(a, b, i, n) <==> CString(a, n) == CString(b, n)
    decreases n - i
  {
    var s, t := CString(a, n), CString(b, n);
    CStringBytes(a, n);
    CStringBytes(b, n);
    if i < n && CharAt(a, i) == CharAt(b, i) != 0 {
      assert i < |s| && i < |t|;
      assert s[..i + 1] == s[..i] + [s[i]] && t[..i + 1] == t[..i] + [t[i]];
      SamePrefixIff(a, b, i + 1, n);
    } else if i < n && CharAt(a, i) == 0 && CharAt(b, i) == 0 {
      assert |s| == i && |t| == i;
      assert s == s[..i] && t == t[..i];
    } else if i == n {
      assert s == s[..i] && t == t[..i];
    }
  }

  lemma CopyNameKey(into: seq<Byte>, from: seq<Byte>)
    requires |into| == FILE_NAME_MAX_LEN + 1
    ensures Key(CopyName(into, from, FILE_NAME_MAX_LEN)) == Key(from)
  {
    CStringBytes(from, FILE_NAME_MAX_LEN);
    CStringUnique(CopyName(into, from, FILE_NAME_MAX_LEN), FILE_NAME_MAX_LEN, Key(from));
  }

  /** Entry `i` is in use and holds the file known as `key`. */
  predicate IsEntry(t: seq<Entry>, key: seq<Byte>, i: int)
  {
    0 <= i < |t| && t[i].inUse && Key(t[i].name) == key
  }

  class Directory {
    var table: seq<Entry>

    constructor (size: nat)
      ensures |table| == size && forall i :: 0 <= i < size ==> !table[i].inUse
    {
      table := seq(size, _ => BLANK_ENTRY);
    }

    /** Reads the table from the file that holds it. */
    method FetchFrom(file: OpenFile)
      requires file.Valid() && Length(file.hdr.Value()) == |table| * ENTRY_SIZE && |table| > 0
      modifies this
      ensures table == DecodeTable(Content(file.disk.sectors, file.hdr.Value())) && |table| == old(|table|)
    {
      var r := file.ReadAt(|table| * ENTRY_SIZE, 0);
      assert r.value == Content(file.disk.sectors, file.hdr.Value());
      table := DecodeTable(r.value);
    }

    /** Writes the table to the file that holds it, replacing the whole content. */
    method WriteBack(file: OpenFile)
      requires file.Valid() && Length(file.hdr.Value()) == |table| * ENTRY_SIZE && |table| > 0
      modifies file.disk
      ensures Written(old(file.disk.sectors), file.hdr.Value(), 0, EncodeTable(table), file.disk.sectors)
      ensures Content(file.disk.sectors, file.hdr.Value()) == EncodeTable(table)
    {
      var bytes := EncodeTable(table);
      var r := file.WriteAt(bytes, |table| * ENTRY_SIZE, 0);
      assert bytes[..r.value] == bytes;
    }

    /** The first entry in use under this name, or -1. */
    method FindIndex(name: seq<Byte>) returns (i: int)
      ensures i == -1 ==> forall j :: !IsEntry(table, Key(name), j)
      ensures i != -1 ==> IsEntry(table, Key(name), i) && forall j :: 0 <= j < i ==> !IsEntry(table, Key(name), j)
    {
      for k := 0 to |table|
        invariant forall j :: 0 <= j < k ==> !IsEntry(table, Key(name), j)
      {
        SamePrefixIff(table[k].name, name, 0, FILE_NAME_MAX_LEN);
        if table[k].inUse && SamePrefix(table[k].name, name, 0, FILE_NAME_MAX_LEN) {
          return k;
        }
      }
      return -1;
    }

    method Find(name: seq<Byte>) returns (sector: int)
      ensures (exists i :: IsEntry(table, Key(name), i)) ==>
                exists i :: IsEntry(table, Key(name), i) && sector == table[i].sector
      ensures (forall i :: !IsEntry(table, Key(name), i)) ==> sector == -1
    {
      var i := FindIndex(name);
      return if i != -1 then table[i].sector else -1;
    }

    /** Takes the first unused entry; refuses a name that is there and a full table. */
    method Add(name: seq<Byte>, newSector: Int32) returns (ok: bool)
      modifies this
      ensures ok <==>
                && (forall i :: !old(IsEntry(table, Key(name), i)))
                && exists i :: 0 <= i < old(|table|) && !old(table[i].inUse)
      ensures !ok ==> table == old(table)
      ensures ok ==>
                exists i ::
                  0 <= i < old(|table|) && !old(table[i].inUse) && AddedAt(old(table), i, name, newSector, table)
    {
      var found := FindIndex(name);
      if found != -1 {
        return false;
      }
      for i := 0 to |table|
        invariant table == old(table)
        invariant forall j :: 0 <= j < i ==> table[j].inUse
      {
        if !table[i].inUse {
          CopyNameKey(table[i].name, name);
          table := table[i := Entry(true, newSector, CopyName(table[i].name, name, FILE_NAME_MAX_LEN))];
          assert AddedAt(old(table), i, name, newSector, table);
          return true;
        }
      }
      return false;
    }

    method Remove(name: seq<Byte>) returns (ok: bool)
      modifies this
      ensures ok <==> exists i :: old(IsEntry(table, Key(name), i))
      ensures !ok ==> table == old(table)
      ensures ok ==>
                exists i ::
                  old(IsEntry(table, Key(name), i)) && table == old(table)[i := old(table)[i].(inUse := false)]
    {
      var i := FindIndex(name);
      if i == -1 {
        return false;
      }
      table := table[i := table[i].(inUse := false)];
      return true;
    }
  }

  /** The directory as a map from names to header sectors. */
  ghost function DirMap(t: seq<Entry>): (m: map<seq<Byte>, int>)
  {
    if t == [] then map[] else
      var m, e := DirMap(t[..|t| - 1]), t[|t| - 1];
      if e.inUse then m[Key(e.name) := e.sector] else m
  }

  /** Entries in use name different files, in different sectors, none of them one of the two well-known ones. */
  ghost predicate EntriesOk(t: seq<Entry>)
  {
    t == [] ||
    var m, e := DirMap(t[..|t| - 1]), t[|t| - 1];
    EntriesOk(t[..|t| - 1]) && (e.inUse ==> 1 < e.sector < NUM_SECTORS && Key(e.name) !in m && e.sector !in m.Values)
  }

  /** The number of entries in use. */
  ghost function Used(t: seq<Entry>): (n: nat)
    ensures n <= |t|
  {
    if t == [] then 0 else Used(t[..|t| - 1]) + if t[|t| - 1].inUse then 1 else 0
  }

  lemma {:induction false} SectorsOk(t: seq<Entry>)
    requires EntriesOk(t)
    ensures forall k :: k in DirMap(t) ==> 1 < DirMap(t)[k] < NUM_SECTORS
    ensures forall k, l :: k in DirMap(t) && l in DirMap(t) && k != l ==> DirMap(t)[k] != DirMap(t)[l]
  {
    if t != [] {
      SectorsOk(t[..|t| - 1]);
    }
  }

  lemma {:induction false} UsedIsSize(t: seq<Entry>)
    requires EntriesOk(t)
    ensures Used(t) == |DirMap(t)|
  {
    if t != [] {
      UsedIsSize(t[..|t| - 1]);
    }
  }

  lemma {:induction false} UsedIsFull(t: seq<Entry>)
    ensures Used(t) == |t| <==> forall i :: 0 <= i < |t| ==> t[i].inUse
  {
    if t != [] {
      var s := t[..|t| - 1];
      UsedIsFull(s);
      assert forall i :: 0 <= i < |s| ==> s[i] == t[i];
    }
  }

  /** A name is in the map exactly when an entry holds it. */
  lemma {:induction false} EntryInMap(t: seq<Entry>, key: seq<Byte>, i: int)
    requires EntriesOk(t) && IsEntry(t, key, i)
    ensures key in DirMap(t) && DirMap(t)[key] == t[i].sector
  {
    if i < |t| - 1 {
      EntryInMap(t[..|t| - 1], key, i);
    }
  }

  lemma {:induction false} MapHasEntry(t: seq<Entry>, key: seq<Byte>)
    requires key in DirMap(t)
    ensures exists i :: IsEntry(t, key, i)
  {
    var s := t[..|t| - 1];
    if t[|t| - 1].inUse && Key(t[|t| - 1].name) == key {
      assert IsEntry(t, key, |t| - 1);
    } else {
      MapHasEntry(s, key);
      var i :| IsEntry(s, key, i);
      assert IsEntry(t, key, i);
    }
  }

  lemma MapAfterAdd(t: seq<Entry>, i: int, e: Entry)
    requires EntriesOk(t) && 0 <= i < |t| && !t[i].inUse && e.inUse
    requires 1 < e.sector < NUM_SECTORS && Key(e.name) !in DirMap(t) && e.sector !in DirMap(t).Values
    ensures EntriesOk(t[i := e]) && DirMap(t[i := e]) == DirMap(t)[Key(e.name) := e.sector]
  {
    var n, t' := |t| - 1, t[i := e];
    if i < n {
      assert t'[..n] == t[..n][i := e];
      if t[n].inUse {
        var m := DirMap(t[..n]);
        assert DirMap(t) == m[Key(t[n].name) := t[n].sector];
        assert Key(t[n].name) in DirMap(t);
        assert t[n].sector in DirMap(t).Values;
        forall k | k in m
          ensures k in DirMap(t) && DirMap(t)[k] == m[k]
        {
        }
        assert e.sector !in m.Values;
        MapAfterAdd(t[..n], i, e);
        assert t[n].sector !in m[Key(e.name) := e.sector].Values;
      } else {
        MapAfterAdd(t[..n], i, e);
      }
    } else {
      assert t'[..n] == t[..n];
    }
  }

  lemma MapAfterRemove(t: seq<Entry>, i: int)
    requires EntriesOk(t) && 0 <= i < |t| && t[i].inUse
    ensures var t' := t[i := t[i].(inUse := false)];
            EntriesOk(t') && DirMap(t') == DirMap(t) - {Key(t[i].name)}
  {
    var n, t' := |t| - 1, t[i := t[i].(inUse := false)];
    if i < n {
      assert t'[..n] == t[..n][i := t[i].(inUse := false)];
      MapAfterRemove(t[..n], i);
      EntryInMap(t[..n], Key(t[i].name), i);
      assert DirMap(t'[..n]).Values <= DirMap(t[..n]).Values by {
        forall x | x in DirMap(t'[..n]).Values
          ensures x in DirMap(t[..n]).Values
        {
          var k :| k in DirMap(t'[..n]) && DirMap(t'[..n])[k] == x;
          assert DirMap(t[..n])[k] == x;
        }
      }
    } else {
      assert t'[..n] == t[..n];
    }
  }

  /** `after` is `before` with entry `i` now holding `name` at `sector`. */
  ghost predicate AddedAt(before: seq<Entry>, i: int, name: seq<Byte>, sector: Int32, after: seq<Entry>)
  {
    && 0 <= i < |before| == |after|
    && after == before[i := after[i]]
    && after[i].inUse && after[i].sector == sector && Key(after[i].name) == Key(name)
  }
}
