/** How long the disk takes: seek, rotation, and the track buffer. Times are ticks; one sector passes the head in
    RotationTime. */
module DiskTiming {
  const ROTATION_TIME := 500
  const SEEK_TIME := 500
  const SECTORS_PER_TRACK := 32
  const NUM_TRACKS := 32
  const NUM_SECTORS := SECTORS_PER_TRACK * NUM_TRACKS

  function Track(sector: nat): (t: nat) { sector / SECTORS_PER_TRACK }

  // ---- what the disk does ----

  /** Sector `s` begins to pass the head at time `t`: times are cut at multiples of RotationTime, and the sectors of
      a track pass in turn. */
  predicate PassStarts(s: nat, t: nat) {
    t % ROTATION_TIME == 0 && (t / ROTATION_TIME) % SECTORS_PER_TRACK == s % SECTORS_PER_TRACK
  }

  /** `t` starts the first full pass of `s` that starts no earlier than `from`. */
  ghost predicate FirstPass(s: nat, from: nat, t: nat) {
    PassStarts(s, t) && t >= from && forall u :: from <= u < t ==> !PassStarts(s, u)
  }

  /** Sector `s` passes the head in full between the two times. */
  ghost predicate Passed(s: nat, from: nat, until: nat) {
    exists t :: from <= t && t + ROTATION_TIME <= until && PassStarts(s, t)
  }

  // ---- what the simulation computes ----

  function SeekTicks(newSector: nat, lastSector: nat): (n: nat) {
    var d := Track(newSector) - Track(lastSector);
    (if d < 0 then -d else d) * SEEK_TIME
  }

  /** How long from `t` to the next sector boundary. */
  function ToBoundary(t: nat): (n: nat)
    ensures n < ROTATION_TIME && (t + n) % ROTATION_TIME == 0
  {
    if t % ROTATION_TIME > 0 then ROTATION_TIME - t % ROTATION_TIME else 0
  }

  function ModuloDiff(toSector: nat, fromSector: nat): (n: nat)
    ensures n < SECTORS_PER_TRACK
    ensures (fromSector + n) % SECTORS_PER_TRACK == toSector % SECTORS_PER_TRACK
  {
    ((toSector % SECTORS_PER_TRACK - fromSector % SECTORS_PER_TRACK) + SECTORS_PER_TRACK) % SECTORS_PER_TRACK
  }

  class DiskArm {
    var lastSector: nat
    /** When the track buffer started being loaded. */
    var bufferInit: nat

    constructor ()
      ensures lastSector == 0 && bufferInit == 0
    {
      lastSector, bufferInit := 0, 0;
    }

    method TimeToSeek(now: nat, newSector: nat) returns (seek: nat, rotation: nat)
      ensures seek == SeekTicks(newSector, lastSector) && rotation == ToBoundary(now + seek)
    {
      var newTrack := newSector / SECTORS_PER_TRACK;
      var oldTrack := lastSector / SECTORS_PER_TRACK;
      seek := (if newTrack < oldTrack then oldTrack - newTrack else newTrack - oldTrack) * SEEK_TIME;
      var over := (now + seek) % ROTATION_TIME;
      rotation := 0;
      if over > 0 {
        rotation := ROTATION_TIME - over;
      }
    }

    /** A read on the track the head is on, of a sector that passes in full between the start of the loading of the
        track buffer and the next boundary. */
    ghost predicate BufferHit(now: nat, newSector: nat, writing: bool)
      reads this
    {
      !writing && Track(newSector) == Track(lastSector) && Passed(newSector, bufferInit, now + ToBoundary(now))
    }

    /** A buffer hit takes one sector time. Otherwise the request completes at the end of the first full pass of the
        sector that starts no earlier than the end of the seek. */
    method ComputeLatency(now: nat, newSector: nat, writing: bool) returns (latency: nat)
      requires bufferInit % ROTATION_TIME == 0 && bufferInit <= now
      ensures if BufferHit(now, newSector, writing) then latency == ROTATION_TIME
              else latency >= ROTATION_TIME
                   && FirstPass(newSector, now + SeekTicks(newSector, lastSector), now + latency - ROTATION_TIME)
    {
      var seek, rotation := TimeToSeek(now, newSector);
      var timeAfter := now + seek + rotation;
      PassedIff(newSector, bufferInit, timeAfter);
      SeekZero(newSector, lastSector);
      if !writing && seek == 0 && (timeAfter - bufferInit) / ROTATION_TIME > ModuloDiff(newSector, bufferInit / ROTATION_TIME) {
        return ROTATION_TIME;
      }
      rotation := rotation + ModuloDiff(newSector, timeAfter / ROTATION_TIME) * ROTATION_TIME;
      FirstPassFrom(newSector, now + seek);
      latency := seek + rotation + ROTATION_TIME;
    }

    method UpdateLast(now: nat, newSector: nat)
      modifies this
      ensures lastSector == newSector
      ensures bufferInit == if Track(newSector) == Track(old(lastSector)) then old(bufferInit)
        else now + SeekTicks(newSector, old(lastSector)) + ToBoundary(now + SeekTicks(newSector, old(lastSector)))
    {
      var seek, rotate := TimeToSeek(now, newSector);
      SeekZero(newSector, lastSector);
      if seek != 0 {
        bufferInit := now + seek + rotate;
      }
      lastSector := newSector;
    }

    /** A read or write request. The next one comes when this one is done, and finds the buffer's start behind it. */
    method Request(now: nat, sector: nat, writing: bool) returns (latency: nat)
      requires bufferInit % ROTATION_TIME == 0 && bufferInit <= now && sector < NUM_SECTORS && lastSector < NUM_SECTORS
      modifies this
      ensures bufferInit % ROTATION_TIME == 0 && bufferInit <= now + latency && lastSector == sector
      ensures latency <= MAX_LATENCY
      ensures old(BufferHit(now, sector, writing)) ==> Passed(sector, old(bufferInit), now + latency)
    {
      latency := ComputeLatency(now, sector, writing);
      ghost var seekEnd := now + SeekTicks(sector, lastSector);
      if BufferHit(now, sector, writing) {
        PassedLater(sector, bufferInit, now + ToBoundary(now), now + latency);
      } else {
        FirstPassFrom(sector, seekEnd);
        FirstPassUnique(sector, seekEnd, now + latency - ROTATION_TIME,
                        seekEnd + ToBoundary(seekEnd) + Turn(sector, seekEnd) * ROTATION_TIME);
      }
      UpdateLast(now, sector);
    }
  }

  // ---- why it is right ----

  /** How many sectors go by between the boundary after `from` and the sector's pass. */
  function Turn(s: nat, from: nat): (n: nat)
    ensures n < SECTORS_PER_TRACK
  {
    ModuloDiff(s, (from + ToBoundary(from)) / ROTATION_TIME)
  }

  lemma SeekZero(newSector: nat, lastSector: nat)
    ensures SeekTicks(newSector, lastSector) == 0 <==> Track(newSector) == Track(lastSector)
  {
  }

  /** A seek takes one seek time for each track between, in either direction. */
  lemma SeekIsDistance(newSector: nat, lastSector: nat)
    ensures Track(lastSector) <= Track(newSector) ==>
      SeekTicks(newSector, lastSector) == (Track(newSector) - Track(lastSector)) * SEEK_TIME
    ensures SeekTicks(lastSector, newSector) == SeekTicks(newSector, lastSector)
  {
  }

  lemma PassAtTurn(s: nat, k: nat, n: nat)
    ensures PassStarts(s, (k + n) * ROTATION_TIME) <==> (k + n) % SECTORS_PER_TRACK == s % SECTORS_PER_TRACK
  {
    assert (k + n) * ROTATION_TIME / ROTATION_TIME == k + n;
  }

  /** Among the sectors that follow position `k`, the first match is ModuloDiff away. */
  lemma FirstMatch(s: nat, k: nat, n: nat)
    requires n < ModuloDiff(s, k)
    ensures (k + n) % SECTORS_PER_TRACK != s % SECTORS_PER_TRACK
  {
    var a, b := s % SECTORS_PER_TRACK, k % SECTORS_PER_TRACK;
    assert k + n == SECTORS_PER_TRACK * (k / SECTORS_PER_TRACK) + (b + n);
    assert ModuloDiff(s, k) == if a >= b then a - b else a - b + SECTORS_PER_TRACK;
    assert (k + n) % SECTORS_PER_TRACK == if b + n < SECTORS_PER_TRACK then b + n else b + n - SECTORS_PER_TRACK;
  }

  /** The sum the code computes starts the first full pass. */
  lemma FirstPassFrom(s: nat, from: nat)
    ensures FirstPass(s, from, from + ToBoundary(from) + Turn(s, from) * ROTATION_TIME)
  {
    var k, n := (from + ToBoundary(from)) / ROTATION_TIME, Turn(s, from);
    var t := (k + n) * ROTATION_TIME;
    assert from + ToBoundary(from) == k * ROTATION_TIME;
    assert t == from + ToBoundary(from) + n * ROTATION_TIME;
    PassAtTurn(s, k, n);
    forall u | from <= u < t && u % ROTATION_TIME == 0 ensures !PassStarts(s, u) {
      var m := u / ROTATION_TIME - k;
      assert 0 <= m < n;
      FirstMatch(s, k, m);
    }
  }

  lemma FirstPassUnique(s: nat, from: nat, t: nat, u: nat)
    requires FirstPass(s, from, t) && FirstPass(s, from, u)
    ensures t == u
  {
  }

  /** From a boundary, a sector passes in full by a later boundary exactly when more sectors go by than lie before it. */
  lemma PassedIff(s: nat, from: nat, until: nat)
    requires from % ROTATION_TIME == 0 && from <= until
    ensures Passed(s, from, until) <==> (until - from) / ROTATION_TIME > ModuloDiff(s, from / ROTATION_TIME)
  {
    FirstPassFrom(s, from);
    var t := from + Turn(s, from) * ROTATION_TIME;
    assert ToBoundary(from) == 0;
    if Passed(s, from, until) {
      var u :| from <= u && u + ROTATION_TIME <= until && PassStarts(s, u);
      assert u >= t;
    }
    if t + ROTATION_TIME <= until {
      assert from <= t && PassStarts(s, t);
    }
  }

  lemma PassedLater(s: nat, from: nat, until: nat, later: nat)
    requires Passed(s, from, until) && until <= later
    ensures Passed(s, from, later)
  {
    var t :| from <= t && t + ROTATION_TIME <= until && PassStarts(s, t);
  }

  /** The longest seek, almost a sector to the next boundary, almost a turn to the sector, and the sector. */
  const MAX_LATENCY := (NUM_TRACKS - 1) * SEEK_TIME + (ROTATION_TIME - 1) + (SECTORS_PER_TRACK - 1) * ROTATION_TIME + ROTATION_TIME

  /** The bound is reached: from track 0 at time 1 to the sector of the last track that has just passed. */
  lemma MaxLatencyReached()
    ensures var s, now := NUM_SECTORS - 1, 1;
            FirstPass(s, now + SeekTicks(s, 0), now + MAX_LATENCY - ROTATION_TIME)
  {
    FirstPassFrom(NUM_SECTORS - 1, 1 + SeekTicks(NUM_SECTORS - 1, 0));
  }

  /** A hit looks ahead to the next boundary: a sector counts as buffered by now exactly when its first pass did
      not end at a boundary still to come. */
  lemma HitByNowIff(s: nat, bufferInit: nat, now: nat)
    requires bufferInit % ROTATION_TIME == 0 && bufferInit <= now && Passed(s, bufferInit, now + ToBoundary(now))
    ensures Passed(s, bufferInit, now) <==>
      bufferInit + (Turn(s, bufferInit) + 1) * ROTATION_TIME <= now
  {
    FirstPassFrom(s, bufferInit);
    var t := bufferInit + Turn(s, bufferInit) * ROTATION_TIME;
    if Passed(s, bufferInit, now) {
      var u :| bufferInit <= u && u + ROTATION_TIME <= now && PassStarts(s, u);
      assert u >= t;
    }
    assert PassStarts(s, t);
  }

  /** In the middle of a sector's first pass a read of it is already a hit. */
  lemma HitDuringPass()
    ensures Passed(1, 500, 750 + ToBoundary(750)) && !Passed(1, 500, 750)
  {
    assert PassStarts(1, 500);
  }
}
