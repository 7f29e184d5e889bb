/** The timing of the simulated disk of code/machine/disk.cc. */
module Disks {
  import opened Bytes
  import opened DiskLayout

  const SECTORS_PER_TRACK: nat := 32
  const NUM_TRACKS: nat := 32
  const ROTATION_TIME: nat := 500
  const SEEK_TIME: nat := 500

  /** At time `time` the head is at the start of the place of sector `sector` on its track. */
  predicate HeadAt(time: int, sector: nat)
  {
    time % ROTATION_TIME == 0 && (time / ROTATION_TIME) % SECTORS_PER_TRACK == sector % SECTORS_PER_TRACK
  }

  /** The whole sector passes under the head between two times. */
  ghost predicate PassesBetween(from: int, to: int, sector: nat)
  {
    exists start :: from <= start && start + ROTATION_TIME <= to && HeadAt(start, sector)
  }

  function Track(sector: nat): (t: nat)
  {
    sector / SECTORS_PER_TRACK
  }

  /** The time to move the head from the track of one sector to that of another. */
  function SeekTime(from: nat, to: nat): (time: nat)
  {
    SEEK_TIME * (if Track(to) >= Track(from) then Track(to) - Track(from) else Track(from) - Track(to))
  }

  /** Sectors to rotate from position `from` to position `to`. */
  function ModuloDiff(to: nat, from: nat): (d: nat)
    ensures d < SECTORS_PER_TRACK
  {
    ((to % SECTORS_PER_TRACK - from % SECTORS_PER_TRACK) + SECTORS_PER_TRACK) % SECTORS_PER_TRACK
  }

  /** Rotating that far is rotating to the first place at or after `from` where the head is at `to`. */
  lemma ModuloDiffIsFirst(to: nat, from: nat)
    ensures (from + ModuloDiff(to, from)) % SECTORS_PER_TRACK == to % SECTORS_PER_TRACK
    ensures forall k: nat :: from <= k && k % SECTORS_PER_TRACK == to % SECTORS_PER_TRACK ==>
              from + ModuloDiff(to, from) <= k
  {
    var q, r, a, d := from / SECTORS_PER_TRACK, from % SECTORS_PER_TRACK, to % SECTORS_PER_TRACK, ModuloDiff(to, from);
    assert d == if a >= r then a - r else a - r + SECTORS_PER_TRACK;
    RemainderIs(if a >= r then q else q + 1, a);
    assert from + d == SECTORS_PER_TRACK * (if a >= r then q else q + 1) + a;
    forall k: nat | from <= k && k % SECTORS_PER_TRACK == a
      ensures from + d <= k
    {
      NextPlace(q, r, a, k / SECTORS_PER_TRACK);
    }
  }

  lemma RemainderIs(q: nat, a: nat)
    requires a < SECTORS_PER_TRACK
    ensures (SECTORS_PER_TRACK * q + a) % SECTORS_PER_TRACK == a
  {
  }

  lemma NextPlace(q: nat, r: nat, a: nat, p: nat)
    requires r < SECTORS_PER_TRACK && a < SECTORS_PER_TRACK && SECTORS_PER_TRACK * q + r <= SECTORS_PER_TRACK * p + a
    ensures SECTORS_PER_TRACK * q + r + (if a >= r then a - r else a - r + SECTORS_PER_TRACK) <=
              SECTORS_PER_TRACK * p + a
  {
  }

  /** The test for the track buffer, on sector boundaries, says whether the whole sector has passed. */
  lemma BufferTest(timeAfter: nat, bufferInit: nat, sector: nat)
    requires timeAfter % ROTATION_TIME == 0 && bufferInit % ROTATION_TIME == 0
    ensures TruncDiv(timeAfter - bufferInit, ROTATION_TIME) > ModuloDiff(sector, bufferInit / ROTATION_TIME)
            <==> PassesBetween(bufferInit, timeAfter, sector)
  {
    var t, b := timeAfter / ROTATION_TIME, bufferInit / ROTATION_TIME;
    var d := ModuloDiff(sector, b);
    ModuloDiffIsFirst(sector, b);
    TruncExact(t, b);
    if t - b > d {
      var start := (b + d) * ROTATION_TIME;
      assert HeadAt(start, sector);
    }
    if PassesBetween(bufferInit, timeAfter, sector) {
      var start :| bufferInit <= start && start + ROTATION_TIME <= timeAfter && HeadAt(start, sector);
      var k := start / ROTATION_TIME;
      assert b <= k && k % SECTORS_PER_TRACK == sector % SECTORS_PER_TRACK;
      assert k + 1 <= t;
    }
  }

  lemma TruncExact(t: nat, b: nat)
    ensures TruncDiv(t * ROTATION_TIME - b * ROTATION_TIME, ROTATION_TIME) == t - b
  {
  }

  /** From a sector boundary, the head is at the sector for the first time after so many sectors. */
  lemma RotationIsFirst(timeAfter: nat, sector: nat)
    requires timeAfter % ROTATION_TIME == 0
    ensures var start := timeAfter + ModuloDiff(sector, timeAfter / ROTATION_TIME) * ROTATION_TIME;
            HeadAt(start, sector) && forall t: nat :: timeAfter - ROTATION_TIME < t < start ==> !HeadAt(t, sector)
  {
    var h := timeAfter / ROTATION_TIME;
    var d := ModuloDiff(sector, h);
    ModuloDiffIsFirst(sector, h);
    var start := timeAfter + d * ROTATION_TIME;
    assert start == (h + d) * ROTATION_TIME;
    assert start / ROTATION_TIME == h + d;
    forall t: nat | timeAfter - ROTATION_TIME < t < start
      ensures !HeadAt(t, sector)
    {
    }
  }

  /** The first sector boundary at or after a time. */
  predicate IsBoundary(boundary: nat, time: nat)
  {
    boundary % ROTATION_TIME == 0 && time <= boundary < time + ROTATION_TIME
  }

  lemma SameBoundary(a: nat, b: nat, time: nat)
    requires IsBoundary(b, time)
    ensures IsBoundary(a, time) <==> a == b
  {
  }

  /** The sector can be read from the track buffer: same track, and all of it has passed by the next sector boundary. */
  ghost predicate Buffered(last: nat, bufferInit: nat, boundary: nat, newSector: nat, writing: bool)
  {
    !writing && Track(newSector) == Track(last) && PassesBetween(bufferInit, boundary, newSector)
  }

  /**
    Without the track buffer, the transfer starts at the first moment after the seek when the head
    is at the sector; with it, the transfer is all there is.
   */
  ghost predicate Takes(last: nat, bufferInit: nat, now: nat, newSector: nat, writing: bool, boundary: nat, ticks: nat)
  {
    && IsBoundary(boundary, now + SeekTime(last, newSector))
    && if Buffered(last, bufferInit, boundary, newSector, writing) then ticks == ROTATION_TIME else
         var start := now + ticks - ROTATION_TIME;
         && start >= boundary && HeadAt(start, newSector)
         && forall t: nat :: now + SeekTime(last, newSector) <= t < start ==> !HeadAt(t, newSector)
  }

  class Disk {
    var lastSector: nat
    var bufferInit: nat
    var active: bool

    /** The track buffer starts filling at a sector boundary. */
    ghost predicate Valid()
      reads this
    {
      lastSector < NUM_SECTORS && bufferInit % ROTATION_TIME == 0
    }

    constructor ()
      ensures Valid() && !active && bufferInit == 0
    {
      lastSector, bufferInit, active := 0, 0, false;
    }

    /** The time to reach the track, and the time from there to the next sector boundary. */
    method TimeToSeek(now: nat, newSector: nat) returns (seek: nat, rotation: nat)
      ensures seek == SeekTime(lastSector, newSector)
      ensures rotation < ROTATION_TIME && (now + seek + rotation) % ROTATION_TIME == 0
    {
      var newTrack, oldTrack := Track(newSector), Track(lastSector);
      seek := (if newTrack >= oldTrack then newTrack - oldTrack else oldTrack - newTrack) * SEEK_TIME;
      var over := (now + seek) % ROTATION_TIME;
      rotation := 0;
      if over > 0 {
        rotation := ROTATION_TIME - over;
      }
    }

    /** The time until the interrupt of a request, within a fixed bound. */
    method ComputeLatency(now: nat, newSector: nat, writing: bool) returns (ticks: nat, ghost boundary: nat)
      requires Valid() && newSector < NUM_SECTORS
      ensures Takes(lastSector, bufferInit, now, newSector, writing, boundary, ticks)
      ensures ROTATION_TIME <= ticks
      ensures ticks <
                (NUM_TRACKS - 1) * SEEK_TIME + ROTATION_TIME + (SECTORS_PER_TRACK - 1) * ROTATION_TIME + ROTATION_TIME
    {
      var seek, rotation := TimeToSeek(now, newSector);
      var timeAfter := now + seek + rotation;
      boundary := timeAfter;
      BufferTest(timeAfter, bufferInit, newSector);
      RotationIsFirst(timeAfter, newSector);
      if !writing && seek == 0
         && TruncDiv(timeAfter - bufferInit, ROTATION_TIME) > ModuloDiff(newSector, bufferInit / ROTATION_TIME) {
        return ROTATION_TIME, boundary;
      }
      rotation := rotation + ModuloDiff(newSector, timeAfter / ROTATION_TIME) * ROTATION_TIME;
      ticks := seek + rotation + ROTATION_TIME;
    }

    /** A seek empties the track buffer, which fills again from the first sector boundary after it. */
    method UpdateLast(now: nat, newSector: nat)
      requires Valid() && newSector < NUM_SECTORS
      modifies this`lastSector, this`bufferInit
      ensures Valid() && lastSector == newSector
      ensures Track(newSector) == Track(old(lastSector)) ==> bufferInit == old(bufferInit)
      ensures Track(newSector) != Track(old(lastSector)) ==>
                IsBoundary(bufferInit, now + SeekTime(old(lastSector), newSector))
    {
      var seek, rotate := TimeToSeek(now, newSector);
      if seek != 0 {
        bufferInit := now + seek + rotate;
      }
      lastSector := newSector;
    }

    /** A request, to an idle device: how long until its interrupt. */
    method Request(now: nat, newSector: nat, writing: bool) returns (ticks: nat, ghost boundary: nat)
      requires Valid() && !active && newSector < NUM_SECTORS
      modifies this
      ensures Valid() && active && lastSector == newSector
      ensures Takes(old(lastSector), old(bufferInit), now, newSector, writing, boundary, ticks)
      ensures bufferInit == (if Track(newSector) == Track(old(lastSector)) then old(bufferInit) else boundary)
    {
      ticks, boundary := ComputeLatency(now, newSector, writing);
      active := true;
      UpdateLast(now, newSector);
      SameBoundary(bufferInit, boundary, now + SeekTime(old(lastSector), newSector));
    }

    method CallBack()
      modifies this`active
      ensures !active
    {
      active := false;
    }
  }
}
