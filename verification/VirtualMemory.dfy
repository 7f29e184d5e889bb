/**
  Main memory as the frames it is divided into, and what a page table makes of it: the memory of
  code/machine/machine.h and code/machine/translate.cc as plain values.
 */
module VirtualMemory {
  import opened Bytes
  import opened DiskLayout

  /** A page has the size of a disk sector. */
  const PAGE_SIZE: nat := 128
  const NUM_PHYS_PAGES: nat := 128

  /** Physical address `pfn * PAGE_SIZE + offset` is byte `offset` of frame `pfn`. */
  type Memory = m: seq<Sector> | |m| == NUM_PHYS_PAGES witness BLANK_MEMORY

  const BLANK_MEMORY: seq<Sector> := seq(NUM_PHYS_PAGES, _ => BLANK_SECTOR)

  /** The frames of a page table as a set. */
  ghost function FrameSet(pt: seq<nat>): (s: set<nat>)
  {
    if pt == [] then {} else FrameSet(pt[..|pt| - 1]) + {pt[|pt| - 1]}
  }

  /** A page table uses each of its frames once. */
  ghost predicate FramesOk(pt: seq<nat>)
  {
    pt == [] || (FramesOk(pt[..|pt| - 1]) && pt[|pt| - 1] < NUM_PHYS_PAGES && pt[|pt| - 1] !in FrameSet(pt[..|pt| - 1]))
  }

  lemma {:induction false} FrameIn(pt: seq<nat>, i: nat)
    requires i < |pt|
    ensures pt[i] in FrameSet(pt)
  {
    if i < |pt| - 1 {
      FrameIn(pt[..|pt| - 1], i);
    }
  }

  lemma {:induction false} FramesOkAt(pt: seq<nat>, i: nat)
    requires FramesOk(pt) && i < |pt|
    ensures pt[i] < NUM_PHYS_PAGES && pt[i] in FrameSet(pt) && forall j :: 0 <= j < |pt| && j != i ==> pt[j] != pt[i]
  {
    var n := |pt| - 1;
    if i < n {
      FramesOkAt(pt[..n], i);
    }
    FrameIn(pt, i);
    forall j | 0 <= j < n
      ensures pt[j] != pt[n]
    {
      FrameIn(pt[..n], j);
    }
  }

  /** The pages of an address space, in order. */
  ghost function Pages(m: Memory, pt: seq<nat>): (ps: seq<Sector>)
    requires FramesOk(pt)
    ensures |ps| == |pt|
  {
    if pt == [] then [] else Pages(m, pt[..|pt| - 1]) + [m[pt[|pt| - 1]]]
  }

  lemma {:induction false} PageAt(m: Memory, pt: seq<nat>, i: nat)
    requires FramesOk(pt) && i < |pt|
    ensures pt[i] < NUM_PHYS_PAGES && Pages(m, pt)[i] == m[pt[i]]
  {
    var n := |pt| - 1;
    if i < n {
      PageAt(m, pt[..n], i);
    }
  }

  /** An address space as one run of bytes. */
  ghost function View(m: Memory, pt: seq<nat>): (bytes: seq<Byte>)
    requires FramesOk(pt)
    ensures |bytes| == |pt| * PAGE_SIZE
  {
    if pt == [] then [] else View(m, pt[..|pt| - 1]) + m[pt[|pt| - 1]]
  }

  /** It is the pages laid end to end. */
  lemma {:induction false} ViewIsFlat(m: Memory, pt: seq<nat>)
    requires FramesOk(pt)
    ensures View(m, pt) == Flat(Pages(m, pt))
  {
    if pt != [] {
      var n := |pt| - 1;
      ViewIsFlat(m, pt[..n]);
      FlatConcat(Pages(m, pt[..n]), [m[pt[n]]]);
      FlatOne(m[pt[n]]);
    }
  }

  /** Changing one frame changes one page. */
  lemma PagesUpdate(m: Memory, pt: seq<nat>, i: nat, page: Sector)
    requires FramesOk(pt) && i < |pt| && pt[i] < NUM_PHYS_PAGES
    ensures Pages(m[pt[i] := page], pt) == Pages(m, pt)[i := page]
  {
    var m' := m[pt[i] := page];
    forall j | 0 <= j < |pt|
      ensures Pages(m', pt)[j] == Pages(m, pt)[i := page][j]
    {
      PageAt(m, pt, j);
      PageAt(m', pt, j);
      FramesOkAt(pt, i);
    }
  }

  /** An address space does not see changes to frames that are not its own. */
  lemma {:induction false} ViewFrame(m: Memory, m': Memory, pt: seq<nat>)
    requires FramesOk(pt) && forall f: nat :: f in FrameSet(pt) && f < NUM_PHYS_PAGES ==> m'[f] == m[f]
    ensures View(m', pt) == View(m, pt)
  {
    forall j | 0 <= j < |pt|
      ensures Pages(m', pt)[j] == Pages(m, pt)[j]
    {
      PageAt(m, pt, j);
      PageAt(m', pt, j);
      FrameIn(pt, j);
    }
    assert Pages(m', pt) == Pages(m, pt);
    ViewIsFlat(m, pt);
    ViewIsFlat(m', pt);
  }

  /** A write within one of several pages laid end to end. */
  lemma FlatWrite(was: seq<Sector>, i: nat, offset: nat, bytes: seq<Byte>)
    requires i < |was| && offset + |bytes| <= PAGE_SIZE
    ensures Flat(was[i := Splice(was[i], offset, bytes)]) == Splice(Flat(was), i * PAGE_SIZE + offset, bytes)
  {
    var page := Splice(was[i], offset, bytes);
    var now := was[i := page];
    FlatSplice(was, now, i, i + 1);
    assert now[i..i + 1] == [page];
    FlatOne(page);
    FlatSlice(was, i, i + 1);
    assert was[i..i + 1] == [was[i]];
    FlatOne(was[i]);
    SpliceInner(Flat(was), i * PAGE_SIZE, was[i], offset, bytes);
  }

  /** A write within a page, seen through the page table. */
  lemma ViewWrite(m: Memory, pt: seq<nat>, vpn: nat, offset: nat, bytes: seq<Byte>)
    requires FramesOk(pt) && vpn < |pt| && pt[vpn] < NUM_PHYS_PAGES && offset + |bytes| <= PAGE_SIZE
    ensures View(m[pt[vpn] := Splice(m[pt[vpn]], offset, bytes)], pt) ==
              Splice(View(m, pt), vpn * PAGE_SIZE + offset, bytes)
  {
    var page := Splice(m[pt[vpn]], offset, bytes);
    ViewIsFlat(m, pt);
    ViewIsFlat(m[pt[vpn] := page], pt);
    PageAt(m, pt, vpn);
    PagesUpdate(m, pt, vpn, page);
    FlatWrite(Pages(m, pt), vpn, offset, bytes);
  }

  /** Replacing part of a part. */
  lemma SpliceInner<T>(s: seq<T>, start: nat, part: seq<T>, offset: nat, bytes: seq<T>)
    requires start + |part| <= |s| && s[start..start + |part|] == part && offset + |bytes| <= |part|
    ensures Splice(s, start, Splice(part, offset, bytes)) == Splice(s, start + offset, bytes)
  {
  }

  lemma {:induction false} FrameSetSize(pt: seq<nat>)
    requires FramesOk(pt)
    ensures |FrameSet(pt)| == |pt|
  {
    if pt != [] {
      FrameSetSize(pt[..|pt| - 1]);
    }
  }

  /** A range of an address space that lies within one page. */
  lemma {:induction false} ViewAt(m: Memory, pt: seq<nat>, vpn: nat, offset: nat, n: nat)
    requires FramesOk(pt) && vpn < |pt| && offset + n <= PAGE_SIZE
    ensures pt[vpn] < NUM_PHYS_PAGES
    ensures m[pt[vpn]][offset..offset + n] == View(m, pt)[vpn * PAGE_SIZE + offset..vpn * PAGE_SIZE + offset + n]
  {
    var ps := Pages(m, pt);
    ViewIsFlat(m, pt);
    PageAt(m, pt, vpn);
    FlatSlice(ps, vpn, vpn + 1);
    assert ps[vpn..vpn + 1] == [ps[vpn]];
    FlatOne(ps[vpn]);
    RangeInPart(Flat(ps), ps[vpn], vpn * PAGE_SIZE, (vpn + 1) * PAGE_SIZE, |Flat(ps)|, vpn * PAGE_SIZE + offset, n);
    assert Flat(ps)[..|Flat(ps)|] == Flat(ps);
  }

  predicate Blank(page: Sector)
  {
    forall k :: 0 <= k < PAGE_SIZE ==> page[k] == 0
  }

  /** Memory with some frames zeroed. */
  ghost function Zeroed(m: Memory, frames: seq<nat>): (m': Memory)
    requires FramesOk(frames)
  {
    if frames == [] then m else Zeroed(m, frames[..|frames| - 1])[frames[|frames| - 1] := BlankPage()]
  }

  function BlankPage(): (page: Sector)
    ensures Blank(page)
  {
    seq(PAGE_SIZE, _ => 0)
  }

  lemma {:induction false} ZeroedAt(m: Memory, frames: seq<nat>, f: nat)
    requires FramesOk(frames) && f < NUM_PHYS_PAGES
    ensures f in FrameSet(frames) ==> Blank(Zeroed(m, frames)[f])
    ensures f !in FrameSet(frames) ==> Zeroed(m, frames)[f] == m[f]
  {
    if frames != [] {
      ZeroedAt(m, frames[..|frames| - 1], f);
    }
  }

  /** `frames` have been taken from those not in `marks` and zeroed; other frames are as they were. */
  ghost predicate Taking(marks: set<nat>, m: Memory, frames: seq<nat>, marks': set<nat>, m': Memory)
  {
    FramesOk(frames) && FrameSet(frames) !! marks && marks' == marks + FrameSet(frames) && m' == Zeroed(m, frames)
  }

  lemma TakeNextFrame(marks: set<nat>, m: Memory, frames: seq<nat>, marks': set<nat>, m': Memory, f: nat)
    requires Taking(marks, m, frames, marks', m') && f < NUM_PHYS_PAGES && f !in marks'
    ensures Taking(marks, m, frames + [f], marks' + {f}, m'[f := BlankPage()])
  {
  }

  /** Zeroed pages make a zeroed address space. */
  lemma {:induction false} BlankView(m: Memory, pt: seq<nat>)
    requires FramesOk(pt) && forall f: nat :: f in FrameSet(pt) && f < NUM_PHYS_PAGES ==> Blank(m[f])
    ensures forall k :: 0 <= k < |View(m, pt)| ==> View(m, pt)[k] == 0
  {
    forall j | 0 <= j < |pt|
      ensures Blank(Pages(m, pt)[j])
    {
      PageAt(m, pt, j);
      FrameIn(pt, j);
    }
    BlankFlat(Pages(m, pt));
    ViewIsFlat(m, pt);
  }

  lemma {:induction false} BlankFlat(ps: seq<Sector>)
    requires forall j :: 0 <= j < |ps| ==> Blank(ps[j])
    ensures forall k :: 0 <= k < |Flat(ps)| ==> Flat(ps)[k] == 0
  {
    if ps != [] {
      BlankFlat(ps[1..]);
    }
  }
}
