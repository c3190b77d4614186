/** The timing of the simulated disk (machine/disk.cc): seeks, rotation and the
    track buffer.  Time is cut in slots of RotationTime ticks; in slot k, sector
    k mod SectorsPerTrack of the current track passes under the head. */
module DiskTiming {
  import opened Disks
  import Words

  const RotationTime := 500
  const SeekTime := 500

  /** The time to move the head from the last sector's track to the new one's. */
  function Seek(lastSector: nat, newSector: nat): nat {
    Words.Abs(newSector / SectorsPerTrack - lastSector / SectorsPerTrack) * SeekTime
  }

  /** The time from then to the next slot boundary. */
  function Rotation(time: nat): nat {
    var over := time % RotationTime;
    if over > 0 then RotationTime - over else 0
  }

  /** When the head is over the new track and at a slot boundary. */
  function Settled(lastSector: nat, newSector: nat, now: nat): nat {
    var t := now + Seek(lastSector, newSector);
    t + Rotation(t)
  }

  function ModuloDiff(to: nat, from: nat): nat {
    ((to % SectorsPerTrack - from % SectorsPerTrack) + SectorsPerTrack) % SectorsPerTrack
  }

  /** The track buffer has the sector. */
  predicate Hit(lastSector: nat, bufferInit: nat, newSector: nat, writing: bool, now: nat)
    requires bufferInit <= now
  {
    && !writing && Seek(lastSector, newSector) == 0
    && (Settled(lastSector, newSector, now) - bufferInit) / RotationTime >
      ModuloDiff(newSector, bufferInit / RotationTime)
  }

  function Latency(lastSector: nat, bufferInit: nat, newSector: nat, writing: bool, now: nat): nat
    requires bufferInit <= now
  {
    if Hit(lastSector, bufferInit, newSector, writing, now) then RotationTime
    else
      var settled := Settled(lastSector, newSector, now);
      settled - now + ModuloDiff(newSector, settled / RotationTime) * RotationTime + RotationTime
  }

  // -------------------------------------------------------------------- slots

  /** Sector passes under the head during slot k. */
  predicate Under(sector: nat, k: nat) { k % SectorsPerTrack == sector % SectorsPerTrack }

  lemma SettledIsBoundary(lastSector: nat, newSector: nat, now: nat)
    ensures var s := Settled(lastSector, newSector, now);
      s % RotationTime == 0 && now <= now + Seek(lastSector, newSector)
        <= s < now + Seek(lastSector, newSector) + RotationTime
  {
    var t := now + Seek(lastSector, newSector);
    var q, over := t / RotationTime, t % RotationTime;
    assert t == RotationTime * q + over;
    if over > 0 {
      assert t + Rotation(t) == RotationTime * (q + 1);
    }
  }

  lemma DiffIs(to: nat, from: nat)
    ensures var r, f := to % SectorsPerTrack, from % SectorsPerTrack;
      ModuloDiff(to, from) == if f <= r then r - f else r - f + SectorsPerTrack
  {
    var r, f := to % SectorsPerTrack, from % SectorsPerTrack;
    if f <= r {
      Words.ModUnique(r - f + SectorsPerTrack, SectorsPerTrack, 1, r - f);
    } else {
      Words.ModUnique(r - f + SectorsPerTrack, SectorsPerTrack, 0, r - f + SectorsPerTrack);
    }
  }

  /** ModuloDiff counts the slots to the first one that the sector is under. */
  lemma NextSlot(to: nat, from: nat)
    ensures var m := ModuloDiff(to, from);
      m < SectorsPerTrack && Under(to, from + m) && forall k | from <= k < from + m :: !Under(to, k)
  {
    hide ModuloDiff;
    DiffIs(to, from);
    var r, f, q := to % SectorsPerTrack, from % SectorsPerTrack, from / SectorsPerTrack;
    var m := ModuloDiff(to, from);
    assert from == SectorsPerTrack * q + f;
    Words.ModUnique(from + m, SectorsPerTrack, if f <= r then q else q + 1, r);
    forall k | from <= k < from + m ensures !Under(to, k) {
      var i := k - from;
      if f + i < SectorsPerTrack {
        Words.ModUnique(k, SectorsPerTrack, q, f + i);
      } else {
        Words.ModUnique(k, SectorsPerTrack, q + 1, f + i - SectorsPerTrack);
      }
    }
  }

  /** A buffer hit is exactly a whole slot, with the sector under the head, between
      the time the buffer started on this track and the current time rounded up. */
  lemma HitExact(lastSector: nat, bufferInit: nat, newSector: nat, now: nat)
    requires bufferInit <= now && bufferInit % RotationTime == 0 && Seek(lastSector, newSector) == 0
    ensures var end := Settled(lastSector, newSector, now);
      Hit(lastSector, bufferInit, newSector, false, now) <==>
      exists k: nat :: Under(newSector, k) && bufferInit <= k * RotationTime && (k + 1) * RotationTime <= end
  {
    var end := Settled(lastSector, newSector, now);
    SettledIsBoundary(lastSector, newSector, now);
    var b, e := bufferInit / RotationTime, end / RotationTime;
    assert bufferInit == b * RotationTime && end == e * RotationTime;
    assert (end - bufferInit) / RotationTime == e - b;
    NextSlot(newSector, b);
    var m := ModuloDiff(newSector, b);
    if e - b > m {
      assert Under(newSector, b + m) && (b + m + 1) * RotationTime <= end;
    } else {
      forall k: nat | Under(newSector, k) && bufferInit <= k * RotationTime ensures (k + 1) * RotationTime > end {
        assert k >= b;
      }
    }
  }

  /** A request that misses the buffer completes at the end of the first slot, from
      when the head settles, that the sector is under. */
  lemma MissExact(lastSector: nat, bufferInit: nat, newSector: nat, writing: bool, now: nat)
    requires bufferInit <= now && !Hit(lastSector, bufferInit, newSector, writing, now)
    ensures var done := now + Latency(lastSector, bufferInit, newSector, writing, now);
      exists k: nat ::
        && Under(newSector, k) && done == (k + 1) * RotationTime
        && Settled(lastSector, newSector, now) <= k * RotationTime
        && forall j: nat | Settled(lastSector, newSector, now) <= j * RotationTime && j < k :: !Under(newSector, j)
  {
    var settled := Settled(lastSector, newSector, now);
    SettledIsBoundary(lastSector, newSector, now);
    var from := settled / RotationTime;
    assert settled == from * RotationTime;
    NextSlot(newSector, from);
    var k := from + ModuloDiff(newSector, from);
    assert Under(newSector, k);
    forall j: nat | settled <= j * RotationTime && j < k ensures !Under(newSector, j) {
      assert from <= j;
    }
  }

  /** The head moves one track in 500 ticks. */
  lemma SeekExact(lastSector: nat, newSector: nat, d: nat)
    requires newSector / SectorsPerTrack == lastSector / SectorsPerTrack + d
      || newSector / SectorsPerTrack + d == lastSector / SectorsPerTrack
    ensures Seek(lastSector, newSector) == 500 * d
  {}

  predicate SameTrack(a: nat, b: nat) { a / SectorsPerTrack == b / SectorsPerTrack }

  /** A whole slot with the sector under the head, since the buffer started and before
      the present slot ends. */
  ghost predicate PassedBy(bufferInit: nat, sector: nat, now: nat) {
    exists k: nat :: Under(sector, k) && bufferInit <= k * RotationTime && (k + 1) * RotationTime < now + RotationTime
  }

  /** The first slot, from when the head is over the track, that the sector is under. */
  ghost predicate FirstSlot(lastSector: nat, sector: nat, now: nat, k: nat) {
    var there := now + Seek(lastSector, sector);
    && Under(sector, k) && there <= k * RotationTime
    && forall j: nat | j < k && there <= j * RotationTime :: !Under(sector, j)
  }

  /** A read from the current track that has passed by takes one slot; any other request
      is done at the end of the first slot that has the sector. */
  lemma LatencyExact(lastSector: nat, bufferInit: nat, newSector: nat, writing: bool, now: nat)
    requires bufferInit <= now && bufferInit % RotationTime == 0
    ensures var ticks := Latency(lastSector, bufferInit, newSector, writing, now);
      if !writing && SameTrack(lastSector, newSector) && PassedBy(bufferInit, newSector, now)
      then ticks == RotationTime
      else exists k: nat :: FirstSlot(lastSector, newSector, now, k) && now + ticks == (k + 1) * RotationTime
  {
    hide Latency, Hit, Settled;
    SettledIsBoundary(lastSector, newSector, now);
    OnTrack(lastSector, newSector);
    if Seek(lastSector, newSector) == 0 {
      HitExact(lastSector, bufferInit, newSector, now);
      forall k: nat | Under(newSector, k)
        ensures (k + 1) * RotationTime <= Settled(lastSector, newSector, now)
          <==> (k + 1) * RotationTime < now + RotationTime
      {
        RoundedUp(Settled(lastSector, newSector, now), now, k);
      }
    }
    HitOnlyReads(lastSector, bufferInit, newSector, writing, now);
    if !Hit(lastSector, bufferInit, newSector, writing, now) {
      MissExact(lastSector, bufferInit, newSector, writing, now);
      var done := now + Latency(lastSector, bufferInit, newSector, writing, now);
      var k: nat :|
        && Under(newSector, k) && done == (k + 1) * RotationTime
        && Settled(lastSector, newSector, now) <= k * RotationTime
        && forall j: nat | Settled(lastSector, newSector, now) <= j * RotationTime && j < k :: !Under(newSector, j);
      forall j: nat | j < k && now + Seek(lastSector, newSector) <= j * RotationTime ensures !Under(newSector, j) {
        NoneBetween(Settled(lastSector, newSector, now), now + Seek(lastSector, newSector), j);
      }
      assert FirstSlot(lastSector, newSector, now, k);
    }
  }

  lemma OnTrack(a: nat, b: nat)
    ensures Seek(a, b) == 0 <==> SameTrack(a, b)
  {}

  lemma HitOnlyReads(lastSector: nat, bufferInit: nat, newSector: nat, writing: bool, now: nat)
    requires bufferInit <= now
    ensures Hit(lastSector, bufferInit, newSector, writing, now) <==>
      !writing && Seek(lastSector, newSector) == 0 && Hit(lastSector, bufferInit, newSector, false, now)
    ensures Hit(lastSector, bufferInit, newSector, writing, now) ==>
      Latency(lastSector, bufferInit, newSector, writing, now) == RotationTime
  {}

  /** Slots that end by the rounded time are those that end within a slot of now. */
  lemma RoundedUp(end: nat, now: nat, k: nat)
    requires end % RotationTime == 0 && now <= end < now + RotationTime
    ensures (k + 1) * RotationTime <= end <==> (k + 1) * RotationTime < now + RotationTime
  {}

  /** No slot starts between a time and the next boundary. */
  lemma NoneBetween(end: nat, there: nat, j: nat)
    requires end % RotationTime == 0 && there <= end < there + RotationTime && there <= j * RotationTime
    ensures end <= j * RotationTime
  {}

  lemma LatencyBounds(lastSector: nat, bufferInit: nat, newSector: nat, writing: bool, now: nat)
    requires bufferInit <= now && lastSector < NumSectors && newSector < NumSectors
    ensures RotationTime <= Latency(lastSector, bufferInit, newSector, writing, now) <= 31999
    ensures Seek(lastSector, newSector) != 0 ==>
      Settled(lastSector, newSector, now) + RotationTime
        <= now + Latency(lastSector, bufferInit, newSector, writing, now)
  {
    SettledIsBoundary(lastSector, newSector, now);
    NextSlot(newSector, Settled(lastSector, newSector, now) / RotationTime);
  }

  // --------------------------------------------------------------------- device

  /** UpdateLast: the track buffer starts again when the head changes track. */
  function BufferAfter(lastSector: nat, bufferInit: nat, newSector: nat, now: nat): nat {
    if Seek(lastSector, newSector) != 0 then Settled(lastSector, newSector, now) else bufferInit
  }

  /** That is the first slot boundary at which the head is there. */
  lemma BufferExact(lastSector: nat, bufferInit: nat, newSector: nat, now: nat)
    ensures var b, there := BufferAfter(lastSector, bufferInit, newSector, now), now + Seek(lastSector, newSector);
      if SameTrack(lastSector, newSector) then b == bufferInit
      else b % RotationTime == 0 && there <= b < there + RotationTime
  {
    hide Settled;
    OnTrack(lastSector, newSector);
    SettledIsBoundary(lastSector, newSector, now);
  }

  class Disk {
    var active: bool
    var lastSector: nat
    var bufferInit: nat

    constructor ()
      ensures !active && lastSector == 0 && bufferInit == 0
    {
      active, lastSector, bufferInit := false, 0, 0;
    }

    method TimeToSeek(newSector: nat, now: nat) returns (seek: nat, rotation: nat)
      ensures seek == Seek(lastSector, newSector) && now + seek + rotation == Settled(lastSector, newSector, now)
    {
      var newTrack, oldTrack := newSector / SectorsPerTrack, lastSector / SectorsPerTrack;
      seek := Words.Abs(newTrack - oldTrack) * SeekTime;
      var over := (now + seek) % RotationTime;
      rotation := 0;
      if over > 0 { rotation := RotationTime - over; }
    }

    method ComputeLatency(newSector: nat, writing: bool, now: nat) returns (ticks: nat)
      requires bufferInit <= now
      ensures ticks == Latency(lastSector, bufferInit, newSector, writing, now)
    {
      var seek, rotation := TimeToSeek(newSector, now);
      var timeAfter := now + seek + rotation;
      if !writing && seek == 0
        && (timeAfter - bufferInit) / RotationTime > ModuloDiff(newSector, bufferInit / RotationTime) {
        return RotationTime;
      }
      rotation := rotation + ModuloDiff(newSector, timeAfter / RotationTime) * RotationTime;
      return seek + rotation + RotationTime;
    }

    method UpdateLast(newSector: nat, now: nat)
      modifies this
      ensures lastSector == newSector && active == old(active)
      ensures bufferInit == BufferAfter(old(lastSector), old(bufferInit), newSector, now)
    {
      var seek, rotate := TimeToSeek(newSector, now);
      if seek != 0 { bufferInit := now + seek + rotate; }
      lastSector := newSector;
    }

    /** ReadRequest and WriteRequest: the ticks after which the interrupt is due. */
    method Request(sectorNumber: nat, writing: bool, now: nat) returns (ticks: nat)
      requires !active && sectorNumber < NumSectors && bufferInit <= now
      modifies this
      ensures active && lastSector == sectorNumber
      ensures ticks == Latency(old(lastSector), old(bufferInit), sectorNumber, writing, now)
      ensures bufferInit == BufferAfter(old(lastSector), old(bufferInit), sectorNumber, now)
    {
      ticks := ComputeLatency(sectorNumber, writing, now);
      active := true;
      UpdateLast(sectorNumber, now);
    }

    method CallBack()
      modifies this
      ensures !active && lastSector == old(lastSector) && bufferInit == old(bufferInit)
    {
      active := false;
    }
  }

  // ----------------------------------------------------------------------- runs

  /** The device and the clock, with when the interrupt is due, and every request so
      far with its time. */
  datatype State = State(now: nat, active: bool, lastSector: nat, bufferInit: nat, due: nat, log: seq<Issued>)
  datatype Issued = Issued(time: nat, sector: nat)

  datatype Event = Wait(ticks: nat) | Request(sector: nat, writing: bool) | Interrupt

  const Initial := State(0, false, 0, 0, 0, [])

  /** Interrupts are never early; there is one request at a time. */
  predicate Enabled(s: State, e: Event) {
    match e
    case Wait(_) => true
    case Request(sector, _) => !s.active && sector < NumSectors
    case Interrupt => s.active && s.now >= s.due
  }

  ghost predicate Inv(s: State) {
    && s.lastSector < NumSectors && s.bufferInit % RotationTime == 0
    && (if s.active then s.bufferInit <= s.due else s.bufferInit <= s.now)
    && (forall i | 0 <= i < |s.log| :: s.log[i].time <= s.now)
    && (forall i | 0 <= i < |s.log| && s.log[i].time >= s.bufferInit ::
          s.log[i].sector / SectorsPerTrack == s.lastSector / SectorsPerTrack)
  }

  function Do(s: State, e: Event): State
    requires Enabled(s, e) && (e.Request? ==> s.bufferInit <= s.now)
  {
    match e
    case Wait(ticks) => s.(now := s.now + ticks)
    case Request(sector, writing) =>
      State(s.now, true, sector, BufferAfter(s.lastSector, s.bufferInit, sector, s.now),
        s.now + Latency(s.lastSector, s.bufferInit, sector, writing, s.now), s.log + [Issued(s.now, sector)])
    case Interrupt => s.(active := false)
  }

  lemma StepKeeps(s: State, e: Event)
    requires Inv(s) && Enabled(s, e)
    ensures (e.Request? ==> s.bufferInit <= s.now) && Inv(Do(s, e))
  {
    hide Settled, Latency, ModuloDiff;
    if e.Request? {
      SettledIsBoundary(s.lastSector, e.sector, s.now);
      LatencyBounds(s.lastSector, s.bufferInit, e.sector, e.writing, s.now);
    }
  }

  /** A request starts the device at once and leaves the head at its sector; the
      interrupt is due when the sector has been transferred. */
  lemma RequestExact(s: State, sector: nat, writing: bool)
    requires Inv(s) && Enabled(s, Request(sector, writing))
    ensures s.bufferInit <= s.now
    ensures var s' := Do(s, Request(sector, writing));
      && s'.active && s'.now == s.now && s'.lastSector == sector && s'.log == s.log + [Issued(s.now, sector)]
      && (SameTrack(s.lastSector, sector) ==> s'.bufferInit == s.bufferInit)
      && (!SameTrack(s.lastSector, sector) ==>
            && s'.bufferInit % RotationTime == 0
            && 0 <= s'.bufferInit - s.now - Seek(s.lastSector, sector) < RotationTime)
      && if !writing && SameTrack(s.lastSector, sector) && PassedBy(s.bufferInit, sector, s.now)
         then s'.due == s.now + RotationTime
         else exists k: nat :: FirstSlot(s.lastSector, sector, s.now, k) && s'.due == (k + 1) * RotationTime
  {
    hide Latency, BufferAfter, PassedBy, FirstSlot, Seek;
    LatencyExact(s.lastSector, s.bufferInit, sector, writing, s.now);
    BufferExact(s.lastSector, s.bufferInit, sector, s.now);
  }

  /** Waiting lets time pass, and the interrupt makes the device idle. */
  lemma OtherEvents(s: State, ticks: nat)
    ensures Do(s, Wait(ticks)) == State(s.now + ticks, s.active, s.lastSector, s.bufferInit, s.due, s.log)
    ensures s.active && s.now >= s.due ==>
      Do(s, Interrupt) == State(s.now, false, s.lastSector, s.bufferInit, s.due, s.log)
  {}

  /** The run of a sequence of events from the start; its first disabled event, if
      any, stops it. */
  ghost function Run(events: seq<Event>): (s: State)
    ensures Inv(s)
  {
    if events == [] then Initial
    else
      var s := Run(events[..|events| - 1]);
      var e := events[|events| - 1];
      if Enabled(s, e) then
        StepKeeps(s, e);
        Do(s, e)
      else s
  }

  /** Whenever the disk can take a request: the buffer started at a slot boundary, in
      the past, and the head has not been sent elsewhere since; a hit means that the
      sector went by in a whole slot since then; and the interrupt is due between
      500 and 31999 ticks ahead. */
  lemma RequestSound(events: seq<Event>, sector: nat, writing: bool)
    requires !Run(events).active && sector < NumSectors
    ensures var s := Run(events);
      && s.bufferInit <= s.now && s.bufferInit % RotationTime == 0
      && RotationTime <= Latency(s.lastSector, s.bufferInit, sector, writing, s.now) <= 31999
      && (forall i | 0 <= i < |s.log| && s.log[i].time >= s.bufferInit ::
            s.log[i].sector / SectorsPerTrack == s.lastSector / SectorsPerTrack)
      && (Hit(s.lastSector, s.bufferInit, sector, writing, s.now) ==>
            sector / SectorsPerTrack == s.lastSector / SectorsPerTrack
            && exists k: nat :: Under(sector, k) && s.bufferInit <= k * RotationTime
                && (k + 1) * RotationTime <= Settled(s.lastSector, sector, s.now))
  {
    hide Run, Latency;
    var s := Run(events);
    LatencyBounds(s.lastSector, s.bufferInit, sector, writing, s.now);
    if Hit(s.lastSector, s.bufferInit, sector, writing, s.now) {
      HitExact(s.lastSector, s.bufferInit, sector, s.now);
    }
  }
}
