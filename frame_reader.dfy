/** The viewer's reader thread: it gathers one padded frame from standard input
    into a buffer of whole 512-byte blocks, rewinding the input at end of file
    when it can, and hands the frame to the ring. */
module FrameReader {
  import opened Common
  import opened FrameLayout
  import opened FrameTransport

  /** The reader's buffer size: the frame size rounded up to a multiple of 512. */
  function BufSize(d: Dims): (n: nat)
    ensures n % 512 == 0 && FrameBytes(d) <= n < FrameBytes(d) + 512
  {
    PaddedSizeIsRoundUp(FrameBytes(d));
    (FrameBytes(d) + 511) / 512 * 512
  }

  /** The generators' padded frame and the reader's buffer have the same size. */
  lemma BufferHoldsOnePaddedFrame(d: Dims)
    ensures BufSize(d) == FrameBytes(d) + FramePadding(FrameBytes(d))
  {
    PaddedSizeIsRoundUp(FrameBytes(d));
  }

  /** What the generators write for a list of frames of n bytes each: every
      frame followed by its zero padding. */
  function PaddedStream(fs: seq<seq<byte>>, n: nat): (s: seq<byte>)
    requires forall i :: 0 <= i < |fs| ==> |fs[i]| == n
    ensures |s| == |fs| * (n + FramePadding(n))
  {
    if fs == [] then []
    else fs[0] + seq(FramePadding(n), _ => 0) + PaddedStream(fs[1..], n)
  }

  /** Reading the k-th buffer of a padded stream and keeping its first n bytes
      gives back the k-th frame. */
  lemma {:induction false} PaddedStreamRoundTrip(fs: seq<seq<byte>>, n: nat, k: nat)
    requires forall i :: 0 <= i < |fs| ==> |fs[i]| == n
    requires k < |fs|
    ensures var b := n + FramePadding(n);
      k * b + b <= |PaddedStream(fs, n)| &&
      PaddedStream(fs, n)[k * b .. k * b + n] == fs[k]
  {
    var b := n + FramePadding(n);
    var rest := PaddedStream(fs[1..], n);
    var head := fs[0] + seq(FramePadding(n), _ => 0);
    assert PaddedStream(fs, n) == head + rest;
    assert |head| == b;
    if k == 0 {
      assert PaddedStream(fs, n)[0 .. n] == head[..n];
    } else {
      PaddedStreamRoundTrip(fs[1..], n, k - 1);
      assert k * b == b + (k - 1) * b;
      assert (k - 1) * b + b <= |rest|;
      assert PaddedStream(fs, n)[k * b .. k * b + n] == rest[(k - 1) * b .. (k - 1) * b + n];
    }
  }

  /** What one read() call on standard input does, as decided by the world: it
      delivers up to n bytes (at least one, fewer when the request or the input
      is shorter), is interrupted by a signal (EINTR), or fails. */
  datatype ReadAnswer = Data(n: nat) | Interrupted | Failure

  /** read()'s return value for a request of req bytes with rem bytes left
      before end of file: 0 at end of file, -1 on interruption. Failure is
      handled by the caller before this value matters. */
  function ReadResult(ans: ReadAnswer, req: nat, rem: nat): (res: int)
    ensures ans.Data? ==> 0 <= res <= req && res <= rem && (res == 0 <==> req == 0 || rem == 0)
    ensures !ans.Data? ==> res == -1
  {
    match ans
    case Data(n) =>
      var m := if n == 0 then 1 else n;
      var a := if m < req then m else req;
      if a < rem then a else rem
    case _ => -1
  }

  /** How a fill ends: a whole buffer was gathered from input[start..], the
      process exits with a status, or the world's answers ran out while the
      thread still waits in read(). */
  datatype FillOutcome = Filled(start: nat) | Exit(status: int) | Starved

  // ---------------------------------------------------------------------
  // The loop as written: `sofar += res` on an unsigned counter.

  /** The update of the unsigned sofar counter by read()'s result as written:
      -1 from an interrupted read is converted to unsigned and added. */
  function SofarAfterRead(sofar: u32, res: int): (r: u32)
    requires -1 <= res
    ensures res >= 0 && sofar + res < U32 ==> r == sofar + res
  {
    (sofar + res) % U32
  }

  /** A read interrupted before the first byte of a frame makes sofar wrap to
      2^32 - 1, which ends the loop: a frame is published although no byte of
      it was read. */
  lemma InterruptAtFrameStartPublishesStale(d: Dims)
    requires BufSize(d) < U32
    ensures SofarAfterRead(0, ReadResult(Interrupted, BufSize(d), 0)) == U32 - 1
    ensures !(SofarAfterRead(0, ReadResult(Interrupted, BufSize(d), 0)) < BufSize(d))
  {
  }

  /** A read interrupted in mid-frame steps sofar back by one, so the next read
      overwrites the last byte already gathered and the frame loses a byte. */
  lemma InterruptMidFrameLosesByte(sofar: u32)
    requires 0 < sofar
    ensures SofarAfterRead(sofar, ReadResult(Interrupted, 1, 0)) == sofar - 1
  {
  }

  /** For the displays of the generators, the wrapped value is past the buffer. */
  lemma DisplayBuffersBelowWrap()
    ensures BufSize(TORUS1) == 34816 && BufSize(TORUS1) < U32
    ensures BufSize(TORUS2) < U32
  {
  }

  // ---------------------------------------------------------------------
  // The reader with an interrupted read retried: the model used below.

  /** Standard input and the reader's buffer. */
  class StdinReader {
    /** The bytes of standard input, from its beginning. */
    const input: seq<byte>
    /** Whether lseek(0, 0, SEEK_SET) succeeds (a regular file, not a pipe). */
    const seekable: bool
    /** The offset the next read starts at. */
    var pos: nat
    /** buf[(3*LEDS_X*LEDS_Y*LEDS_TANG + 511) / 512 * 512]. */
    const buf: array<byte>

    constructor (d: Dims, input: seq<byte>, seekable: bool)
      ensures this.input == input && this.seekable == seekable && pos == 0
      ensures buf.Length == BufSize(d) && fresh(buf)
    {
      this.input := input;
      this.seekable := seekable;
      pos := 0;
      buf := new byte[BufSize(d)](_ => 0);
    }

    /** Gathers one whole buffer. An end of file rewinds to the start of the
        input and starts the buffer over, or exits with status 0 when the input
        cannot be rewound; a failed read exits with status 1; an interrupted
        read is retried. */
    method Fill(answers: seq<ReadAnswer>) returns (outcome: FillOutcome)
      requires pos <= |input|
      modifies this, buf
      ensures pos <= |input|
      ensures outcome.Filled? ==>
        && (outcome.start == old(pos) || (seekable && outcome.start == 0))
        && pos == outcome.start + buf.Length
        && buf[..] == input[outcome.start .. pos]
      ensures outcome.Exit? ==> outcome.status == 1 || (outcome.status == 0 && !seekable)
      ensures outcome == Exit(0) ==> pos == |input|
      ensures outcome.Exit? && outcome.status == 1 ==> Failure in answers
    {
      var sofar := 0;
      var start := pos;
      var k := 0;
      while sofar < buf.Length
        invariant 0 <= sofar <= buf.Length && 0 <= k <= |answers|
        invariant start == old(pos) || (seekable && start == 0)
        invariant pos == start + sofar <= |input|
        invariant buf[..sofar] == input[start .. pos]
        decreases |answers| - k
      {
        if k == |answers| {
          return Starved;
        }
        var ans := answers[k];
        k := k + 1;
        if ans.Failure? {
          return Exit(1);
        }
        var res := ReadResult(ans, buf.Length - sofar, |input| - pos);
        if res == 0 {
          if !seekable {
            return Exit(0);
          }
          pos, start, sofar := 0, 0, 0;
        } else if res > 0 {
          ghost var before := buf[..];
          forall j | 0 <= j < res {
            buf[sofar + j] := input[pos + j];
          }
          forall t | 0 <= t < sofar + res
            ensures buf[t] == input[start + t]
          {
            if t < sofar {
              assert buf[t] == before[t] == input[start .. pos][t];
            }
          }
          assert buf[..sofar + res] == input[start .. pos + res];
          pos := pos + res;
          sofar := sofar + res;
        }
      }
      return Filled(start);
    }

    /** One turn of the reader thread: gather a buffer, then publish its first
        frameBytes bytes through a free slot (the ring must have one). */
    method ReaderTurn(t: Transport, answers: seq<ReadAnswer>) returns (outcome: FillOutcome)
      requires pos <= |input| && t.Valid() && t.numReady < FRAMES
      requires t.frameBytes <= buf.Length
      modifies this, buf, t, t.frames
      ensures t.Valid() && pos <= |input|
      ensures outcome.Filled? ==>
        && (outcome.start == old(pos) || (seekable && outcome.start == 0))
        && outcome.start + t.frameBytes <= |input|
        && t.pending == old(t.pending) + [input[outcome.start .. outcome.start + t.frameBytes]]
        && t.State() == SlotReadyStep(old(t.State()))
      ensures !outcome.Filled? ==> t.pending == old(t.pending) && t.State() == old(t.State())
    {
      outcome := Fill(answers);
      if outcome.Filled? {
        assert buf[..][..t.frameBytes] == input[outcome.start .. outcome.start + t.frameBytes];
        t.Publish(buf[..]);
      }
    }
  }
}
