/** The viewer's frame transport: a ring of FRAMES frame slots passed from the
    reader thread to the frame-rate thread, the shared "current frame" the GUI
    locks while drawing, and the frame-rate thread's pacing decision.
    Each blocking wait of the threaded original is a precondition here: an
    operation is only called in a state where its wait would have ended. */
module FrameTransport {
  import opened Common
  import opened FrameLayout

  /** Number of slots in the ring. */
  const FRAMES: int := 4

  /** The three shared counters of the ring. */
  datatype Ring = Ring(numReady: int, firstFree: int, lastFree: int)

  /** The counters' initial values. */
  const InitRing: Ring := Ring(0, 0, FRAMES - 1)

  /** The counters stay in range, and the two cursors are numReady apart
      (modulo FRAMES). */
  predicate CursorInv(s: Ring)
  {
    && 0 <= s.numReady <= FRAMES
    && 0 <= s.firstFree < FRAMES
    && 0 <= s.lastFree < FRAMES
    && (s.firstFree - s.lastFree - 1) % FRAMES == s.numReady % FRAMES
  }

  /** get_free_slot's answer: the slot the producer fills next. */
  function FreeSlot(s: Ring): int
  {
    s.firstFree
  }

  /** get_ready_slot's answer: the oldest published slot. */
  function ReadySlot(s: Ring): int
  {
    (s.lastFree + 1) % FRAMES
  }

  /** slot_ready: one more published slot, the producer cursor moves on. */
  function SlotReadyStep(s: Ring): Ring
  {
    Ring(s.numReady + 1, (s.firstFree + 1) % FRAMES, s.lastFree)
  }

  /** release_slot: one fewer published slot, the consumer cursor moves on. */
  function ReleaseStep(s: Ring): Ring
  {
    Ring(s.numReady - 1, s.firstFree, (s.lastFree + 1) % FRAMES)
  }

  /** The published slots, oldest first: numReady slots starting after lastFree. */
  function PendingSlots(s: Ring): (slots: seq<int>)
    requires s.numReady >= 0
    ensures |slots| == s.numReady
    ensures forall i :: 0 <= i < |slots| ==> 0 <= slots[i] < FRAMES
  {
    seq(s.numReady, i => (s.lastFree + 1 + i) % FRAMES)
  }

  /** The initial counters satisfy the cursor invariant with nothing published. */
  lemma InitRingValid()
    ensures CursorInv(InitRing) && PendingSlots(InitRing) == []
  {
  }

  /** Under the cursor invariant the producer cursor is numReady slots past the
      oldest published one. */
  lemma FirstFreeAfterPending(s: Ring)
    requires CursorInv(s)
    ensures s.firstFree == (s.lastFree + 1 + s.numReady) % FRAMES
  {
    var k := s.firstFree - s.lastFree - 1;
    assert -FRAMES <= k < FRAMES;
    assert k % FRAMES == s.numReady % FRAMES;
    if s.numReady == FRAMES {
      assert k == 0 || k == -FRAMES;
    }
  }

  /** Both answers name a slot of the ring. */
  lemma SlotsInRange(s: Ring)
    requires CursorInv(s)
    ensures 0 <= FreeSlot(s) < FRAMES && 0 <= ReadySlot(s) < FRAMES
  {
  }

  /** While the ring is neither empty nor full, the producer and the consumer
      work on different slots. */
  lemma {:induction false} ProducerConsumerDisjoint(s: Ring)
    requires CursorInv(s) && 0 < s.numReady < FRAMES
    ensures FreeSlot(s) != ReadySlot(s)
    ensures FreeSlot(s) !in PendingSlots(s)
  {
    FirstFreeAfterPending(s);
    var base := s.lastFree + 1;
    forall i | 0 <= i < s.numReady
      ensures PendingSlots(s)[i] != FreeSlot(s)
    {
      assert (base + i) % FRAMES != (base + s.numReady) % FRAMES by {
        var d := s.numReady - i;
        assert 0 < d < FRAMES;
        if (base + i) % FRAMES == (base + s.numReady) % FRAMES {
          assert (base + s.numReady) - (base + i) == d;
          ModDiffZero(base + s.numReady, base + i);
        }
      }
    }
  }

  /** Two numbers with equal remainders differ by a multiple of FRAMES. */
  lemma ModDiffZero(a: int, b: int)
    requires a % FRAMES == b % FRAMES
    ensures (a - b) % FRAMES == 0
  {
    assert a == FRAMES * (a / FRAMES) + a % FRAMES;
    assert b == FRAMES * (b / FRAMES) + b % FRAMES;
    assert a - b == FRAMES * (a / FRAMES - b / FRAMES);
  }

  /** slot_ready after get_free_slot keeps the invariant and appends the filled
      slot to the published ones. */
  lemma {:induction false} SlotReadyAppends(s: Ring)
    requires CursorInv(s) && s.numReady < FRAMES
    ensures CursorInv(SlotReadyStep(s))
    ensures PendingSlots(SlotReadyStep(s)) == PendingSlots(s) + [FreeSlot(s)]
    ensures SlotReadyStep(s).lastFree == s.lastFree
  {
    FirstFreeAfterPending(s);
    var t := SlotReadyStep(s);
    assert t.firstFree == (s.lastFree + 1 + t.numReady) % FRAMES;
    assert (t.firstFree - t.lastFree - 1) % FRAMES == t.numReady % FRAMES by {
      ModShift(s.lastFree + 1 + t.numReady, s.lastFree + 1);
    }
  }

  /** (a % FRAMES - b) and (a - b) leave the same remainder. */
  lemma ModShift(a: int, b: int)
    ensures (a % FRAMES - b) % FRAMES == (a - b) % FRAMES
  {
    assert a == FRAMES * (a / FRAMES) + a % FRAMES;
    ModAddMultiple(a % FRAMES - b, a / FRAMES);
  }

  lemma ModAddMultiple(x: int, k: int)
    ensures (x + FRAMES * k) % FRAMES == x % FRAMES
  {
    var q, r := x / FRAMES, x % FRAMES;
    assert x + FRAMES * k == FRAMES * (q + k) + r;
  }

  /** release_slot after get_ready_slot keeps the invariant and drops the oldest
      published slot, which is the one get_ready_slot handed out. */
  lemma {:induction false} ReleaseDropsOldest(s: Ring)
    requires CursorInv(s) && s.numReady > 0
    ensures CursorInv(ReleaseStep(s))
    ensures PendingSlots(s) == [ReadySlot(s)] + PendingSlots(ReleaseStep(s))
    ensures ReleaseStep(s).firstFree == s.firstFree
  {
    var t := ReleaseStep(s);
    var wrapped := s.lastFree == FRAMES - 1;
    assert t.lastFree == if wrapped then 0 else s.lastFree + 1;
    var p, q := PendingSlots(s), PendingSlots(t);
    forall i | 0 <= i < |q|
      ensures q[i] == p[i + 1]
    {
      if wrapped {
        assert t.lastFree + 1 + i + FRAMES == s.lastFree + 1 + (i + 1);
      }
    }
  }

  /** One step of a schedule: the reader publishes a frame, or the frame-rate
      thread takes one. */
  datatype Op = Produce | Consume

  /** Runs a schedule from s: the final counters, the slots published in order
      and the slots taken in order; None when a step would wait forever because
      the other thread never runs again. */
  function Run(s: Ring, ops: seq<Op>): Option<(Ring, seq<int>, seq<int>)>
    decreases |ops|
  {
    if ops == [] then Some((s, [], []))
    else if ops[0] == Produce then
      if s.numReady == FRAMES then None
      else match Run(SlotReadyStep(s), ops[1..])
        case None => None
        case Some((t, produced, consumed)) => Some((t, [FreeSlot(s)] + produced, consumed))
    else
      if s.numReady == 0 then None
      else match Run(ReleaseStep(s), ops[1..])
        case None => None
        case Some((t, produced, consumed)) => Some((t, produced, [ReadySlot(s)] + consumed))
  }

  /** FIFO: over any schedule, what was pending plus what was published equals
      what was taken plus what is pending at the end. */
  lemma {:induction false} RunIsFifo(s: Ring, ops: seq<Op>)
    requires CursorInv(s)
    ensures Run(s, ops).Some? ==>
      var (t, produced, consumed) := Run(s, ops).value;
      CursorInv(t) && PendingSlots(s) + produced == consumed + PendingSlots(t)
    decreases |ops|
  {
    if ops != [] && Run(s, ops).Some? {
      if ops[0] == Produce {
        SlotReadyAppends(s);
        RunIsFifo(SlotReadyStep(s), ops[1..]);
        var (t, produced, consumed) := Run(SlotReadyStep(s), ops[1..]).value;
        assert PendingSlots(s) + ([FreeSlot(s)] + produced)
            == (PendingSlots(s) + [FreeSlot(s)]) + produced;
      } else {
        ReleaseDropsOldest(s);
        RunIsFifo(ReleaseStep(s), ops[1..]);
        var (t, produced, consumed) := Run(ReleaseStep(s), ops[1..]).value;
        assert PendingSlots(s) + produced
            == [ReadySlot(s)] + (PendingSlots(ReleaseStep(s)) + produced);
      }
    }
  }

  /** From the initial counters, the slots taken are always a prefix of the
      slots published, and the rest are exactly the pending ones. */
  lemma FifoFromStart(ops: seq<Op>)
    ensures Run(InitRing, ops).Some? ==>
      var (t, produced, consumed) := Run(InitRing, ops).value;
      CursorInv(t) && produced == consumed + PendingSlots(t)
  {
    InitRingValid();
    RunIsFifo(InitRing, ops);
  }

  // ---------------------------------------------------------------------
  // Pacing

  /** Frames per second shown. */
  const FRAMERATE: int := 25

  /** Microseconds per frame, 1000000 / FRAMERATE. */
  const USEC_PER_FRAME: int := 1000000 / FRAMERATE

  /** How far behind schedule the display may fall before pacing restarts. */
  const MAX_BEHIND: int := 500000

  /** A gettimeofday reading. */
  datatype TimeVal = TimeVal(sec: int, usec: int)

  predicate ValidTime(t: TimeVal)
  {
    0 <= t.usec < 1000000
  }

  /** usec_passed as computed in uint64_t: the seconds difference scaled by
      10^6, plus now.usec, minus start.usec, each step modulo 2^64. */
  function UsecPassed(start: TimeVal, now: TimeVal): (e: int)
    ensures 0 <= e < U64
  {
    var scaled := (1000000 * ((now.sec - start.sec) % U64)) % U64;
    ((scaled + now.usec % U64) % U64 - start.usec % U64) % U64
  }

  /** The true number of microseconds between two readings. */
  function Microseconds(start: TimeVal, now: TimeVal): int
  {
    1000000 * (now.sec - start.sec) + now.usec - start.usec
  }

  lemma ModU64Add(a: int, b: int)
    ensures (a % U64 + b) % U64 == (a + b) % U64
  {
    var q := a / U64;
    assert a == U64 * q + a % U64;
    var x := a % U64 + b;
    assert a + b == x + U64 * q;
    var qx := x / U64;
    assert x == U64 * qx + x % U64;
    DivModU64(a + b, qx + q, x % U64);
  }

  lemma ModU64Mul(c: int, a: int)
    ensures (c * (a % U64)) % U64 == (c * a) % U64
  {
    var q := a / U64;
    assert a == U64 * q + a % U64;
    assert c * a == c * (a % U64) + U64 * (c * q);
    var y := c * (a % U64);
    var qy := y / U64;
    assert y == U64 * qy + y % U64;
    DivModU64(c * a, qy + c * q, y % U64);
  }

  lemma DivModU64(a: int, q: int, r: int)
    requires 0 <= r < U64 && a == U64 * q + r
    ensures a % U64 == r
  {
    DivModUnique(a, U64, q, r);
  }

  /** The wrapped computation equals the true time difference whenever that
      difference is non-negative and below 2^64 microseconds. */
  lemma {:induction false} UsecPassedExact(start: TimeVal, now: TimeVal)
    requires ValidTime(start) && ValidTime(now)
    requires 0 <= Microseconds(start, now) < U64
    ensures UsecPassed(start, now) == Microseconds(start, now)
  {
    var ds := now.sec - start.sec;
    var x := 1000000 * ds;
    ModU64Mul(1000000, ds);
    DivModU64(now.usec, 0, now.usec);
    DivModU64(start.usec, 0, start.usec);
    ModU64Add(x, now.usec);
    ModU64Add(x + now.usec, -start.usec);
    DivModU64(Microseconds(start, now), 0, Microseconds(start, now));
  }

  /** usec_target = frame * (1000000 / FRAMERATE) in uint64_t. */
  function UsecTarget(frame: int): (t: int)
    ensures 0 <= t < U64
    ensures 0 <= frame && frame * USEC_PER_FRAME < U64 ==> t == frame * USEC_PER_FRAME
  {
    (frame * USEC_PER_FRAME) % U64
  }

  /** What the frame-rate thread does after showing a frame. */
  datatype PaceAction =
    | Sleep(usec: int)   // ahead of schedule: usleep this long
    | OnTime             // behind, but by at most MAX_BEHIND: go straight on
    | Resync             // too far behind: restart counting from now

  /** The pacing decision for elapsed time `passed` against deadline `target`. */
  function PaceDecision(passed: int, target: int): (a: PaceAction)
    ensures a.Sleep? <==> passed < target
    ensures a.Sleep? ==> a.usec > 0 && passed + a.usec == target
    ensures a.Resync? <==> passed > target + MAX_BEHIND
    ensures a.OnTime? <==> target <= passed <= target + MAX_BEHIND
  {
    if passed < target then Sleep(target - passed)
    else if passed - target > MAX_BEHIND then Resync
    else OnTime
  }

  /** After a resynchronisation the next frame's deadline is one frame period
      after the new start, and showing it on time needs no further reset. */
  lemma ResyncRestartsSchedule(now: TimeVal, later: TimeVal)
    requires ValidTime(now) && ValidTime(later)
    requires 0 <= Microseconds(now, later) <= USEC_PER_FRAME + MAX_BEHIND
    ensures UsecTarget(1) == USEC_PER_FRAME
    ensures !PaceDecision(UsecPassed(now, later), UsecTarget(1)).Resync?
  {
    UsecPassedExact(now, later);
  }

  /** The shared transport state: the ring counters, the frame slots, the
      current frame shown by the GUI and the pacing clock. */
  class Transport {
    /** Bytes in one frame, 3 * LEDS_X * LEDS_Y * LEDS_TANG. */
    const frameBytes: nat

    var numReady: int
    var firstFree: int
    var lastFree: int
    /** frames[FRAMES][frameBytes]: one row per slot. */
    const frames: array<seq<byte>>
    /** The frame the GUI draws. */
    var current: seq<byte>
    /** Whether the GUI holds current_frame_mutex. */
    var locked: bool
    /** The frame-rate thread's frame counter (uint64_t) and time origin. */
    var frame: int
    var timeStart: TimeVal

    /** The contents of the published frames, oldest first. */
    ghost var pending: seq<seq<byte>>

    function State(): Ring
      reads this
    {
      Ring(numReady, firstFree, lastFree)
    }

    ghost predicate Valid()
      reads this, frames
    {
      && frames.Length == FRAMES
      && CursorInv(State())
      && (forall k :: 0 <= k < FRAMES ==> |frames[k]| == frameBytes)
      && |current| == frameBytes
      && |pending| == numReady
      && (forall i :: 0 <= i < numReady ==> frames[PendingSlots(State())[i]] == pending[i])
      && 0 <= frame < U64
    }

    /** The initial state: an empty ring, zeroed frames, the clock started at
        the given reading. */
    constructor (d: Dims, start: TimeVal)
      ensures Valid() && fresh(frames)
      ensures frameBytes == FrameBytes(d)
      ensures State() == InitRing && pending == [] && !locked
      ensures frame == 0 && timeStart == start
      ensures current == seq(FrameBytes(d), _ => 0)
    {
      frameBytes := FrameBytes(d);
      numReady, firstFree, lastFree := 0, 0, FRAMES - 1;
      var zero: seq<byte> := seq(FrameBytes(d), _ => 0);
      frames := new seq<byte>[FRAMES](_ => zero);
      current := zero;
      locked := false;
      frame := 0;
      timeStart := start;
      pending := [];
    }

    /** get_free_slot, called once the ring has room. */
    method GetFreeSlot() returns (slot: int)
      requires Valid() && numReady < FRAMES
      ensures slot == FreeSlot(State()) && 0 <= slot < FRAMES
      ensures 0 < numReady ==> slot != ReadySlot(State())
    {
      slot := firstFree;
      if 0 < numReady {
        ProducerConsumerDisjoint(State());
      }
    }

    /** get_ready_slot, called once a frame is pending. */
    method GetReadySlot() returns (slot: int)
      requires Valid() && numReady > 0
      ensures slot == ReadySlot(State()) && slot == PendingSlots(State())[0]
      ensures 0 <= slot < FRAMES
    {
      slot := (lastFree + 1) % FRAMES;
    }

    /** slot_ready: publishes the slot get_free_slot handed out. */
    method SlotReady()
      requires Valid() && numReady < FRAMES
      modifies this
      ensures State() == SlotReadyStep(old(State()))
      ensures CursorInv(State())
      ensures PendingSlots(State()) == PendingSlots(old(State())) + [old(firstFree)]
      ensures current == old(current) && locked == old(locked)
      ensures frame == old(frame) && timeStart == old(timeStart) && pending == old(pending)
    {
      SlotReadyAppends(State());
      firstFree := (firstFree + 1) % FRAMES;
      numReady := numReady + 1;
    }

    /** release_slot: gives the slot get_ready_slot handed out back to the producer. */
    method ReleaseSlot()
      requires Valid() && numReady > 0
      modifies this
      ensures State() == ReleaseStep(old(State()))
      ensures CursorInv(State())
      ensures old(PendingSlots(State())) == [old(ReadySlot(State()))] + PendingSlots(State())
      ensures current == old(current) && locked == old(locked)
      ensures frame == old(frame) && timeStart == old(timeStart) && pending == old(pending)
    {
      ReleaseDropsOldest(State());
      lastFree := (lastFree + 1) % FRAMES;
      numReady := numReady - 1;
    }

    /** The reader's hand-over of one gathered buffer: take a free slot, copy
        the first frameBytes bytes into it, publish it. */
    method Publish(buf: seq<byte>)
      requires Valid() && numReady < FRAMES && |buf| >= frameBytes
      modifies this, frames
      ensures Valid()
      ensures pending == old(pending) + [buf[..frameBytes]]
      ensures State() == SlotReadyStep(old(State()))
      ensures current == old(current) && locked == old(locked)
      ensures frame == old(frame) && timeStart == old(timeStart)
    {
      var slot := GetFreeSlot();
      ghost var oldSlots := PendingSlots(State());
      if 0 < numReady {
        ProducerConsumerDisjoint(State());
      }
      frames[slot] := buf[..frameBytes];
      assert forall i :: 0 <= i < numReady ==> frames[oldSlots[i]] == pending[i];
      SlotReady();
      pending := pending + [buf[..frameBytes]];
      assert PendingSlots(State()) == oldSlots + [slot];
    }

    /** One turn of the frame-rate thread: copy the oldest published frame to
        the current frame (under the GUI's lock, so the GUI must not hold it),
        release its slot, count the frame and decide how to pace. */
    method FrameTick(now: TimeVal) returns (action: PaceAction)
      requires Valid() && numReady > 0 && !locked
      modifies this
      ensures Valid()
      ensures current == old(pending)[0] && pending == old(pending)[1..]
      ensures State() == ReleaseStep(old(State())) && !locked
      ensures action == PaceDecision(UsecPassed(old(timeStart), now),
                                     UsecTarget((old(frame) + 1) % U64))
      ensures action.Resync? ==> frame == 0 && timeStart == now
      ensures !action.Resync? ==> frame == (old(frame) + 1) % U64 && timeStart == old(timeStart)
    {
      var slot := GetReadySlot();
      current := frames[slot];
      ghost var oldSlots := PendingSlots(State());
      ReleaseSlot();
      pending := pending[1..];
      assert forall i :: 0 <= i < numReady ==> PendingSlots(State())[i] == oldSlots[i + 1];
      frame := (frame + 1) % U64;
      var passed := UsecPassed(timeStart, now);
      var target := UsecTarget(frame);
      if passed < target {
        action := Sleep(target - passed);
      } else {
        var delta := passed - target;
        if delta > MAX_BEHIND {
          action := Resync;
          frame := 0;
          timeStart := now;
        } else {
          action := OnTime;
        }
      }
    }

    /** get_current_frame: the GUI takes the lock and reads the current frame. */
    method GetCurrentFrame() returns (f: seq<byte>)
      requires Valid() && !locked
      modifies this
      ensures locked && f == current && Valid()
      ensures State() == old(State()) && current == old(current) && pending == old(pending)
      ensures frame == old(frame) && timeStart == old(timeStart)
    {
      locked := true;
      f := current;
    }

    /** release_frame: the GUI gives the lock back. */
    method ReleaseFrame()
      requires Valid() && locked
      modifies this
      ensures !locked && Valid()
      ensures State() == old(State()) && current == old(current) && pending == old(pending)
      ensures frame == old(frame) && timeStart == old(timeStart)
    {
      locked := false;
    }
  }
}
