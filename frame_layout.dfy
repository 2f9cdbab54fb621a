/** The layout of one colour frame: the (radial, vertical, angular) to slot map
    used by setpix in both animation generators, the three-byte write itself,
    and the zero padding the generators put after every frame. */
module FrameLayout {
  import opened Common

  /** Display dimensions: LEDS_X radial positions, LEDS_Y vertical positions,
      LEDS_TANG angular steps. */
  datatype Dims = Dims(x: nat, y: nat, tang: nat)

  predicate ValidDims(d: Dims)
  {
    d.x > 0 && d.y > 0 && d.tang > 0
  }

  /** The first display: 7 x 8 LEDs turning through 205 angular steps. */
  const TORUS1: Dims := Dims(7, 8, 205)

  /** The second display: 14 x 16 LEDs turning through 205 angular steps. */
  const TORUS2: Dims := Dims(14, 16, 205)

  /** Number of LED slots in a frame (the first dimension of frame_t). */
  function Leds(d: Dims): nat
  {
    d.x * d.y * d.tang
  }

  /** sizeof(frame_t): three colour bytes per slot. */
  function FrameBytes(d: Dims): nat
  {
    3 * Leds(d)
  }

  predicate InBox(d: Dims, x: int, y: int, a: int)
  {
    0 <= x < d.x && 0 <= y < d.y && 0 <= a < d.tang
  }

  /** The slot setpix addresses: y + x*LEDS_Y + a*(LEDS_Y*LEDS_X). */
  function SlotIndex(d: Dims, x: int, y: int, a: int): int
  {
    y + x * d.y + a * (d.y * d.x)
  }

  /** The inverse of SlotIndex: the coordinates stored at a slot. */
  function SlotCoords(d: Dims, idx: int): (int, int, int)
    requires ValidDims(d)
  {
    (idx / d.y % d.x, idx % d.y, idx / (d.y * d.x))
  }

  /** Multiplying by a nonnegative factor keeps an order. */
  lemma MulLe(a: int, b: int, n: int)
    requires a <= b && n >= 0
    ensures a * n <= b * n
  {
    var k := b - a;
    assert b * n == a * n + k * n;
  }

  /** Euclidean division is determined by quotient and in-range remainder. */
  lemma DivModUnique(a: int, n: int, q: int, r: int)
    requires n > 0 && 0 <= r < n && a == q * n + r
    ensures a / n == q && a % n == r
  {
    var q', r' := a / n, a % n;
    assert a == q' * n + r';
    if q' > q {
      MulLe(q + 1, q', n);
    } else if q' < q {
      MulLe(q' + 1, q, n);
    }
  }

  /** Within one angular plane, (x, y) addresses one of LEDS_Y*LEDS_X slots. */
  lemma PlaneOffsetInRange(d: Dims, x: int, y: int)
    requires ValidDims(d) && 0 <= x < d.x && 0 <= y < d.y
    ensures 0 <= y + x * d.y < d.y * d.x
  {
    MulLe(0, x, d.y);
    MulLe(x, d.x - 1, d.y);
    assert (d.x - 1) * d.y == d.y * d.x - d.y;
  }

  /** Every in-range coordinate triple addresses a slot of the frame. */
  lemma SlotIndexInRange(d: Dims, x: int, y: int, a: int)
    requires ValidDims(d) && InBox(d, x, y, a)
    ensures 0 <= SlotIndex(d, x, y, a) < Leds(d)
  {
    var plane := d.y * d.x;
    PlaneOffsetInRange(d, x, y);
    MulLe(0, a, plane);
    MulLe(a, d.tang - 1, plane);
    assert (d.tang - 1) * plane == plane * d.tang - plane;
    assert Leds(d) == plane * d.tang;
  }

  /** Decoding the slot of (x, y, a) gives back (x, y, a): the map is injective. */
  lemma SlotCoordsOfIndex(d: Dims, x: int, y: int, a: int)
    requires ValidDims(d) && InBox(d, x, y, a)
    ensures SlotCoords(d, SlotIndex(d, x, y, a)) == (x, y, a)
  {
    var idx := SlotIndex(d, x, y, a);
    var plane := d.y * d.x;
    assert idx == (x + a * d.x) * d.y + y;
    DivModUnique(idx, d.y, x + a * d.x, y);
    DivModUnique(x + a * d.x, d.x, a, x);
    PlaneOffsetInRange(d, x, y);
    DivModUnique(idx, plane, a, y + x * d.y);
  }

  /** Every slot of the frame is addressed by exactly the coordinates SlotCoords
      gives: the map is onto [0, Leds). */
  lemma IndexOfSlotCoords(d: Dims, idx: int)
    requires ValidDims(d) && 0 <= idx < Leds(d)
    ensures var (x, y, a) := SlotCoords(d, idx);
      InBox(d, x, y, a) && SlotIndex(d, x, y, a) == idx
  {
    var (x, y, a) := SlotCoords(d, idx);
    var plane := d.y * d.x;
    var q := idx / d.y;
    var a' := q / d.x;
    assert idx == q * d.y + y;
    assert q == a' * d.x + x;
    assert q >= 0;
    assert idx == a' * plane + (y + x * d.y) by {
      assert q * d.y == (a' * d.x + x) * d.y == a' * plane + x * d.y;
    }
    PlaneOffsetInRange(d, x, y);
    DivModUnique(idx, plane, a', y + x * d.y);
    assert a == a';
    assert Leds(d) == d.tang * plane;
    assert a < d.tang by {
      if a >= d.tang {
        MulLe(d.tang, a, plane);
      }
    }
  }

  /** Two in-range triples share a slot only when they are the same triple. */
  lemma SlotIndexInjective(d: Dims, x: int, y: int, a: int, x': int, y': int, a': int)
    requires ValidDims(d) && InBox(d, x, y, a) && InBox(d, x', y', a')
    requires SlotIndex(d, x, y, a) == SlotIndex(d, x', y', a')
    ensures x == x' && y == y' && a == a'
  {
    SlotCoordsOfIndex(d, x, y, a);
    SlotCoordsOfIndex(d, x', y', a');
  }

  /** setpix: stores r, g, b in components 0, 1, 2 of the slot of (x, y, a);
      the frame is frame_t flattened, component c of slot s at 3*s + c. */
  method SetPix(f: array<byte>, d: Dims, x: int, y: int, a: int, r: byte, g: byte, b: byte)
    requires ValidDims(d) && f.Length == FrameBytes(d) && InBox(d, x, y, a)
    modifies f
    ensures var s := SlotIndex(d, x, y, a);
      0 <= s < Leds(d) && f[3 * s] == r && f[3 * s + 1] == g && f[3 * s + 2] == b
    ensures forall k :: 0 <= k < f.Length && k / 3 != SlotIndex(d, x, y, a) ==> f[k] == old(f[k])
  {
    SlotIndexInRange(d, x, y, a);
    var p := 3 * SlotIndex(d, x, y, a);
    f[p] := r;
    f[p + 1] := g;
    f[p + 2] := b;
  }

  /** The slot a given byte of the flattened frame belongs to, and which component. */
  lemma ByteOfSlot(s: int, c: int)
    requires 0 <= c < 3
    ensures (3 * s + c) / 3 == s && (3 * s + c) % 3 == c
  {
  }

  /** cls: memset of the whole frame to zero. */
  method Cls(f: array<byte>)
    modifies f
    ensures forall k :: 0 <= k < f.Length ==> f[k] == 0
  {
    var k := 0;
    while k < f.Length
      invariant 0 <= k <= f.Length
      invariant forall j :: 0 <= j < k ==> f[j] == 0
    {
      f[k] := 0;
      k := k + 1;
    }
  }

  /** The zero bytes main writes after each frame of len bytes:
      512 - len % 512 of them when len % 512 != 0, none otherwise. */
  function FramePadding(len: nat): (pad: nat)
    ensures pad < 512
    ensures (len + pad) % 512 == 0
    ensures (len % 512 == 0) == (pad == 0)
  {
    if len % 512 != 0 then 512 - len % 512 else 0
  }

  /** A padded frame is the frame rounded up to the next multiple of 512:
      the same size the reader's buffer has, (len + 511) / 512 * 512. */
  lemma {:induction false} PaddedSizeIsRoundUp(len: nat)
    ensures len + FramePadding(len) == (len + 511) / 512 * 512
  {
    var q, r := len / 512, len % 512;
    assert len == q * 512 + r;
    if r == 0 {
      DivModUnique(len + 511, 512, q, 511);
    } else {
      DivModUnique(len + 511, 512, q + 1, r - 1);
    }
  }

  /** The first generator stores sizeof(frame_t) in a uint16_t: for its display
      the value fits, so the whole frame is written. */
  lemma Torus1FrameFitsU16()
    ensures FrameBytes(TORUS1) == 34440 && FrameBytes(TORUS1) < U16
    ensures FrameBytes(TORUS1) + FramePadding(FrameBytes(TORUS1)) == 34816
  {
  }

  /** Slot bounds for the two displays of the generators. */
  lemma DisplaySlotBounds(x: int, y: int, a: int)
    ensures InBox(TORUS1, x, y, a) ==> SlotIndex(TORUS1, x, y, a) < 7 * 8 * 205
    ensures InBox(TORUS2, x, y, a) ==> SlotIndex(TORUS2, x, y, a) < 16 * 14 * 205
  {
    if InBox(TORUS1, x, y, a) {
      SlotIndexInRange(TORUS1, x, y, a);
    }
    if InBox(TORUS2, x, y, a) {
      SlotIndexInRange(TORUS2, x, y, a);
    }
  }
}
