/** Small frame painters of the animation generators: the scrolling text of
    g_text, the envelope outline of the second display, the colour-rotation
    test pattern an_test3 and the clamped plot of an_graphs. */
module AnimHelpers {
  import opened Common
  import opened FrameLayout

  /** Component c of the colour (r, g, b) as setpix stores it. */
  function Component(r: byte, g: byte, b: byte, c: int): byte
  {
    if c == 0 then r else if c == 1 then g else b
  }

  /** The slot of (x, y, a) on the second display, its constants written out. */
  function Slot2(x: int, y: int, a: int): int
  {
    y + x * 16 + a * 224
  }

  /** Slot2 is the slot setpix computes on the second display. */
  lemma Slot2Index(x: int, y: int, a: int)
    ensures Slot2(x, y, a) == SlotIndex(TORUS2, x, y, a)
  {
  }

  /** On the second display, the slot at (x, y, a) holds exactly the colour
      (r, g, b). */
  ghost predicate SlotHolds(f: seq<byte>, x: int, y: int, a: int, r: byte, g: byte, b: byte)
  {
    var s := Slot2(x, y, a);
    0 <= 3 * s && 3 * s + 2 < |f| && f[3 * s] == r && f[3 * s + 1] == g && f[3 * s + 2] == b
  }

  // ---------------------------------------------------------------------
  // g_text: a string drawn column by column backwards round the torus.

  /** Number of bytes in the font table: 8 rows for each of the 96 printable
      characters from ' ' to DEL. */
  const FONT_BYTES: int := 8 * 96

  /** Offset of a character's glyph in the font table. Characters outside
      32..127 are drawn as '?'. */
  function GlyphBase(ch: byte): (i: int)
    ensures 0 <= i && i + 8 <= FONT_BYTES && i % 8 == 0
    ensures 32 <= ch <= 127 ==> i == 8 * (ch - 32)
    ensures !(32 <= ch <= 127) ==> i == 8 * ('?' as int - 32)
  {
    var c := if ch < 32 || ch > 127 then '?' as int else ch;
    8 * c - 8 * 32
  }

  /** Whether bit_pos = 0x80 >> bit is set in a font row. */
  predicate FontBit(row: byte, bit: int)
    requires 0 <= bit < 8
  {
    (row as bv8) & ((0x80 as bv8) >> bit) != 0
  }

  /** The angular position one column further on: it decreases and wraps from
      0 to LEDS_TANG - 1. */
  function StepBack(a: int, tang: int): (a': int)
    requires 0 <= a < tang
    ensures 0 <= a' < tang
    ensures a' == (a - 1) % tang
  {
    if a == 0 then
      DivModUnique(a - 1, tang, -1, tang - 1);
      tang - 1
    else
      DivModUnique(a - 1, tang, 0, a - 1);
      a - 1
  }

  /** n columns after a0, one more StepBack gives the position n + 1 columns
      after a0. */
  lemma StepBackCounts(a0: int, n: int, tang: int)
    requires tang > 0 && 0 <= a0 < tang
    ensures 0 <= (a0 - n) % tang < tang
    ensures StepBack((a0 - n) % tang, tang) == (a0 - (n + 1)) % tang
  {
    var cur := (a0 - n) % tang;
    var q := (a0 - n) / tang;
    assert a0 - n == q * tang + cur;
    if cur == 0 {
      DivModUnique(a0 - (n + 1), tang, q - 1, tang - 1);
    } else {
      DivModUnique(a0 - (n + 1), tang, q, cur - 1);
    }
  }

  /** Slot s lies in radial plane x, in one of the eight text rows. */
  ghost predicate InTextBand(d: Dims, x: int, s: int)
    requires ValidDims(d)
  {
    SlotCoords(d, s).0 == x && 0 <= SlotCoords(d, s).1 < 8
  }

  /** Every byte of f1 is the byte of f0 or the colour component of a slot
      in the text band of plane x. */
  ghost predicate TextPainted(d: Dims, x: int, r: byte, g: byte, b: byte, f0: seq<byte>, f1: seq<byte>)
    requires ValidDims(d)
  {
    |f1| == |f0| &&
    forall k :: 0 <= k < |f1| ==>
      f1[k] == f0[k] || (InTextBand(d, x, k / 3) && f1[k] == Component(r, g, b, k % 3))
  }

  /** Painting in the band twice is painting in the band. */
  lemma TextPaintedTrans(d: Dims, x: int, r: byte, g: byte, b: byte,
                         f0: seq<byte>, f1: seq<byte>, f2: seq<byte>)
    requires ValidDims(d)
    requires TextPainted(d, x, r, g, b, f0, f1) && TextPainted(d, x, r, g, b, f1, f2)
    ensures TextPainted(d, x, r, g, b, f0, f2)
  {
  }

  /** The termination measure of the column loop drops by one per column. */
  lemma AccumulatorStep(u: real, s: real)
    requires s > 0.0
    ensures (u - s) / s == u / s - 1.0
  {
    var q := u / s;
    DivExact(u, s, q);
    assert (q - 1.0) * s == u - s;
    DivExact(u - s, s, q - 1.0);
  }

  /** Real division by a positive number undoes multiplication. */
  lemma DivExact(u: real, s: real, m: real)
    requires s > 0.0 && m * s == u
    ensures u / s == m
  {
  }

  /** Slot s is lit by one column: it is row y < 8 of plane x at angle a and
      bit `bit` of glyph row y is set. */
  ghost predicate ColumnLit(d: Dims, font: seq<byte>, base: int, bit: int, x: int, a: int, s: int)
    requires 0 <= base && base + 8 <= |font| && 0 <= bit < 8
  {
    var y := s - SlotIndex(d, x, 0, a);
    0 <= y < 8 && FontBit(font[base + y], bit)
  }

  /** The inner loop of g_text: one column of one glyph, the rows whose font
      bit is set painted in (r, g, b). */
  method DrawColumn(f: array<byte>, d: Dims, font: seq<byte>, base: int, bit: int,
                    x: int, a: int, r: byte, g: byte, b: byte)
    requires ValidDims(d) && d.y >= 8 && f.Length == FrameBytes(d)
    requires 0 <= base && base + 8 <= |font| && 0 <= bit < 8
    requires 0 <= x < d.x && 0 <= a < d.tang
    modifies f
    ensures forall k :: 0 <= k < f.Length ==>
      f[k] == (if ColumnLit(d, font, base, bit, x, a, k / 3) then Component(r, g, b, k % 3) else old(f[k]))
  {
    var y := 0;
    while y < 8
      invariant 0 <= y <= 8
      invariant forall k :: 0 <= k < f.Length ==>
        f[k] == (if ColumnLit(d, font, base, bit, x, a, k / 3) && k / 3 - SlotIndex(d, x, 0, a) < y
                 then Component(r, g, b, k % 3) else old(f[k]))
    {
      if FontBit(font[base + y], bit) {
        SetPix(f, d, x, y, a, r, g, b);
      }
      y := y + 1;
    }
  }

  /** A lit slot of a column lies in the text band of its plane. */
  lemma ColumnLitInBand(d: Dims, font: seq<byte>, base: int, bit: int, x: int, a: int, s: int)
    requires ValidDims(d) && d.y >= 8 && 0 <= x < d.x && 0 <= a < d.tang
    requires 0 <= base && base + 8 <= |font| && 0 <= bit < 8
    requires ColumnLit(d, font, base, bit, x, a, s)
    ensures InTextBand(d, x, s)
  {
    var y := s - SlotIndex(d, x, 0, a);
    assert s == SlotIndex(d, x, y, a);
    SlotCoordsOfIndex(d, x, y, a);
  }

  /** One column's painting stays inside the text band. */
  lemma ColumnPaintsBand(d: Dims, font: seq<byte>, base: int, bit: int, x: int, a: int,
                         r: byte, g: byte, b: byte, f0: seq<byte>, f1: seq<byte>)
    requires ValidDims(d) && d.y >= 8 && 0 <= x < d.x && 0 <= a < d.tang
    requires 0 <= base && base + 8 <= |font| && 0 <= bit < 8
    requires |f1| == |f0|
    requires forall k :: 0 <= k < |f1| ==>
      f1[k] == (if ColumnLit(d, font, base, bit, x, a, k / 3) then Component(r, g, b, k % 3) else f0[k])
    ensures TextPainted(d, x, r, g, b, f0, f1)
  {
    forall k | 0 <= k < |f1| && ColumnLit(d, font, base, bit, x, a, k / 3)
      ensures InTextBand(d, x, k / 3)
    {
      ColumnLitInBand(d, font, base, bit, x, a, k / 3);
    }
  }

  /** The middle loop of g_text: the columns of one glyph. After each column
      the angle steps back with wrap-around and the stretch accumulator grows
      by s; bit_pos moves to the next font bit when the accumulator reaches 1.
      With no stretching (s == 1 and the accumulator at its start value 1/2)
      a glyph takes exactly eight columns. */
  method DrawGlyph(f: array<byte>, d: Dims, font: seq<byte>, base: int, x: int, a: int,
                   r: byte, g: byte, b: byte, s: real, sofar: real)
    returns (a': int, sofar': real, ghost cols: nat)
    requires ValidDims(d) && d.y >= 8 && f.Length == FrameBytes(d)
    requires 0 <= base && base + 8 <= |font|
    requires 0 <= x < d.x && 0 <= a < d.tang
    requires 0.0 < s <= 1.0 && 0.0 <= sofar < 1.0
    modifies f
    ensures 0 <= a' < d.tang && a' == (a - cols) % d.tang
    ensures 0.0 <= sofar' < 1.0 && cols >= 8
    ensures s == 1.0 && sofar == 0.5 ==> cols == 8 && sofar' == 0.5
    ensures TextPainted(d, x, r, g, b, old(f[..]), f[..])
  {
    DivModUnique(a, d.tang, 0, a);
    a', sofar', cols := a, sofar, 0;
    var bit := 0;
    while bit < 8
      invariant 0 <= bit <= 8 && cols >= bit
      invariant 0.0 <= sofar' < 1.0
      invariant 0 <= a' < d.tang && a' == (a - cols) % d.tang
      invariant s == 1.0 && sofar == 0.5 ==> cols == bit && sofar' == 0.5
      invariant TextPainted(d, x, r, g, b, old(f[..]), f[..])
      decreases ((8 - bit) as real - sofar') / s
    {
      ghost var before := f[..];
      DrawColumn(f, d, font, base, bit, x, a', r, g, b);
      ColumnPaintsBand(d, font, base, bit, x, a', r, g, b, before, f[..]);
      TextPaintedTrans(d, x, r, g, b, old(f[..]), before, f[..]);
      StepBackCounts(a, cols, d.tang);
      a' := StepBack(a', d.tang);
      cols := cols + 1;
      AccumulatorStep((8 - bit) as real - sofar', s);
      sofar' := sofar' + s;
      if sofar' >= 1.0 {
        sofar' := sofar' - 1.0;
        bit := bit + 1;
      }
    }
  }

  /** g_text: draws the characters of text (the bytes before its NUL) in
      radial plane x, starting at angle a and moving backwards, and returns
      the angle after the last column. A scale below 0.01 draws nothing; a
      scale below 1 is treated as 1; a larger scale stretches each glyph
      column over several angular steps. */
  method GText(f: array<byte>, d: Dims, font: seq<byte>, text: seq<byte>, x: int, a: int,
               r: byte, g: byte, b: byte, sFact: real)
    returns (a': int, ghost cols: nat)
    requires ValidDims(d) && d.y >= 8 && f.Length == FrameBytes(d) && |font| == FONT_BYTES
    requires 0 <= x < d.x && 0 <= a < d.tang
    requires forall i :: 0 <= i < |text| ==> text[i] != 0
    modifies f
    ensures 0 <= a' < d.tang && a' == (a - cols) % d.tang
    ensures sFact < 0.01 ==> cols == 0 && f[..] == old(f[..])
    ensures sFact >= 0.01 ==> cols >= 8 * |text|
    ensures 0.01 <= sFact <= 1.0 ==> cols == 8 * |text|
    ensures TextPainted(d, x, r, g, b, old(f[..]), f[..])
  {
    DivModUnique(a, d.tang, 0, a);
    if sFact < 0.01 {
      return a, 0;
    }
    var stretch := if sFact < 1.0 then 1.0 else sFact;
    var s := 1.0 / stretch;
    var sofar := s * 0.5;
    a', cols := a, 0;
    var i := 0;
    while i < |text|
      invariant 0 <= i <= |text|
      invariant 0 <= a' < d.tang && a' == (a - cols) % d.tang
      invariant 0.0 <= sofar < 1.0 && cols >= 8 * i
      invariant sFact <= 1.0 ==> s == 1.0 && sofar == 0.5 && cols == 8 * i
      invariant TextPainted(d, x, r, g, b, old(f[..]), f[..])
    {
      ghost var before := f[..];
      ghost var n: nat;
      var a2;
      a2, sofar, n := DrawGlyph(f, d, font, GlyphBase(text[i]), x, a', r, g, b, s, sofar);
      TextPaintedTrans(d, x, r, g, b, old(f[..]), before, f[..]);
      ghost var c2 := cols + n;
      assert (a' - n) % d.tang == (a - c2) % d.tang by {
        var q := (a - cols) / d.tang;
        assert a' - n == (a - c2) - q * d.tang;
        var q2 := (a' - n) / d.tang;
        assert a' - n == q2 * d.tang + (a' - n) % d.tang;
        DivModUnique(a - c2, d.tang, q + q2, (a' - n) % d.tang);
      }
      a', cols := a2, c2;
      i := i + 1;
    }
  }

  // ---------------------------------------------------------------------
  // envelope: the outline of the second display's cross-section.

  /** The radial position of the inner edge in row i: the distance from the
      middle of the column, pulled in by one (distance 1 or 2) or by two
      (distance 3 or more). */
  function InnerEdge(i: int): (x0: int)
    requires 0 <= i < 16
    ensures 0 <= x0 <= 5
    ensures i == 7 || i == 8 ==> x0 == 0
    ensures i == 0 || i == 15 ==> x0 == 5
  {
    var e := if i < 16 / 2 then (16 / 2 - 1) - i else i - 16 / 2;
    if e >= 3 then e - 2 else if e >= 1 then e - 1 else e
  }

  /** The outline is symmetric about the middle of the column. */
  lemma InnerEdgeMirror(i: int)
    requires 0 <= i < 16
    ensures InnerEdge(i) == InnerEdge(15 - i)
  {
  }

  /** Cell (x, y) is written by the first n passes of envelope's inner loop:
      the inner edge and the outer edge (x = 13) of rows below n, and the
      top and bottom rows from x = 12 down to x = 12 - (n - 1), at most seven
      cells. */
  predicate EnvelopeCell(x: int, y: int, n: int)
  {
    (0 <= y < n && y < 16 && (x == InnerEdge(y) || x == 13)) ||
    ((y == 0 || y == 15) && 6 <= x <= 12 && 12 - x < n)
  }

  /** Every outline cell lies on the second display. */
  lemma EnvelopeCellInBox(x: int, y: int, a: int)
    requires EnvelopeCell(x, y, 16) && 0 <= a < TORUS2.tang
    ensures InBox(TORUS2, x, y, a)
  {
  }

  /** The blue level of the outline: 17 + 30 * fact truncated, where fact is
      sin(c2 * pi / 32) for c2 = c % 128 below 32 and 0 otherwise; sine is the
      value of that sine, in [0, 1] for those angles. */
  function EnvelopeBlue(c: nat, sine: real): (cb: byte)
    requires 0.0 <= sine <= 1.0
    ensures 17 <= cb <= 47
    ensures c % 128 >= 32 ==> cb == 17
  {
    var fact := if c % 128 < 32 then sine else 0.0;
    (17.0 + 30.0 * fact).Floor
  }

  /** The slots envelope has written before pass (a, i) of its loops: the
      outline cells of every angle below a and of the first i rows at
      angle a. */
  ghost function OutlineSlots(a: int, i: int): set<int>
  {
    set x, y, t | 0 <= x < 14 && 0 <= y < 16 && 0 <= t < 205 &&
      ((t < a && EnvelopeCell(x, y, 16)) || (t == a && EnvelopeCell(x, y, i)))
      :: Slot2(x, y, t)
  }

  /** The slots of the whole outline at every angle. */
  ghost function Outline(): set<int>
  {
    OutlineSlots(TORUS2.tang, 0)
  }

  /** The frame holds blue cb in the slots of w and zero everywhere else. */
  ghost predicate BlueOn(f: seq<byte>, w: set<int>, cb: byte)
  {
    forall k :: 0 <= k < |f| ==> f[k] == (if k % 3 == 2 && k / 3 in w then cb else 0)
  }

  /** setpix(f, x, y, a, 0, 0, cb) adds the slot of (x, y, a) to the blue slots. */
  method PaintBlue(f: array<byte>, x: int, y: int, a: int, cb: byte, ghost w: set<int>)
    requires f.Length == FrameBytes(TORUS2) && InBox(TORUS2, x, y, a)
    requires BlueOn(f[..], w, cb)
    modifies f
    ensures BlueOn(f[..], w + {Slot2(x, y, a)}, cb)
  {
    ghost var f0 := f[..];
    var s := Slot2(x, y, a);
    Slot2Index(x, y, a);
    SetPix(f, TORUS2, x, y, a, 0, 0, cb);
    assert f[3 * s] == 0 && f[3 * s + 1] == 0 && f[3 * s + 2] == cb;
    assert forall k :: 0 <= k < f.Length && k / 3 != s ==> f[k] == f0[k];
    forall k | 0 <= k < f.Length
      ensures f[k] == (if k % 3 == 2 && k / 3 in w + {s} then cb else 0)
    {
      if k / 3 == s {
        assert k == 3 * s + k % 3;
      } else {
        assert f[k] == f0[k];
      }
    }
  }

  /** The cells pass (a, i) writes. */
  function PassSlots(a: int, i: int): set<int>
    requires 0 <= i < 16
  {
    {Slot2(InnerEdge(i), i, a), Slot2(13, i, a)} +
    (if i < 7 then {Slot2(12 - i, 0, a), Slot2(12 - i, 15, a)} else {})
  }

  /** Pass (a, i) adds the inner and the outer edge of row i and, for i < 7,
      cell 12 - i of the bottom and the top row. */
  lemma OutlineStep(a: int, i: int)
    requires 0 <= a < 205 && 0 <= i < 16
    ensures OutlineSlots(a, i + 1) == OutlineSlots(a, i) + PassSlots(a, i)
  {
    OutlineStepNew(a, i);
    OutlineStepOld(a, i);
    OutlineStepPass(a, i);
  }

  lemma OutlineStepNew(a: int, i: int)
    requires 0 <= a < 205 && 0 <= i < 16
    ensures OutlineSlots(a, i + 1) <= OutlineSlots(a, i) + PassSlots(a, i)
  {
    forall s | s in OutlineSlots(a, i + 1)
      ensures s in OutlineSlots(a, i) + PassSlots(a, i)
    {
      var x, y, t :| 0 <= x < 14 && 0 <= y < 16 && 0 <= t < 205 &&
        ((t < a && EnvelopeCell(x, y, 16)) || (t == a && EnvelopeCell(x, y, i + 1))) &&
        s == Slot2(x, y, t);
      if t == a && !EnvelopeCell(x, y, i) {
        if y == i && (x == InnerEdge(y) || x == 13) {
          assert s in PassSlots(a, i);
        } else {
          assert x == 12 - i && i < 7 && (y == 0 || y == 15);
          assert s in PassSlots(a, i);
        }
      } else {
        assert s in OutlineSlots(a, i);
      }
    }
  }

  lemma OutlineStepOld(a: int, i: int)
    requires 0 <= a < 205 && 0 <= i < 16
    ensures OutlineSlots(a, i) <= OutlineSlots(a, i + 1)
  {
    forall s | s in OutlineSlots(a, i)
      ensures s in OutlineSlots(a, i + 1)
    {
      var x, y, t :| 0 <= x < 14 && 0 <= y < 16 && 0 <= t < 205 &&
        ((t < a && EnvelopeCell(x, y, 16)) || (t == a && EnvelopeCell(x, y, i))) &&
        s == Slot2(x, y, t);
      assert EnvelopeCell(x, y, i) ==> EnvelopeCell(x, y, i + 1);
    }
  }

  lemma OutlineStepPass(a: int, i: int)
    requires 0 <= a < 205 && 0 <= i < 16
    ensures PassSlots(a, i) <= OutlineSlots(a, i + 1)
  {
    assert Slot2(InnerEdge(i), i, a) in OutlineSlots(a, i + 1);
    assert Slot2(13, i, a) in OutlineSlots(a, i + 1);
    if i < 7 {
      assert Slot2(12 - i, 0, a) in OutlineSlots(a, i + 1);
      assert Slot2(12 - i, 15, a) in OutlineSlots(a, i + 1);
    }
  }

  /** The last row of angle a leads to the first row of angle a + 1. */
  lemma OutlineNextAngle(a: int)
    requires 0 <= a < 205
    ensures OutlineSlots(a, 16) == OutlineSlots(a + 1, 0)
  {
  }

  /** The slot of an in-range cell belongs to the outline exactly when the
      cell is an outline cell. */
  lemma OutlineMembers(x: int, y: int, t: int)
    requires InBox(TORUS2, x, y, t)
    ensures Slot2(x, y, t) in Outline() <==> EnvelopeCell(x, y, 16)
  {
    if Slot2(x, y, t) in Outline() {
      var x', y', t' :| 0 <= x' < 14 && 0 <= y' < 16 && 0 <= t' < 205 &&
        ((t' < 205 && EnvelopeCell(x', y', 16)) || (t' == 205 && EnvelopeCell(x', y', 0))) &&
        Slot2(x', y', t') == Slot2(x, y, t);
      SlotIndexInjective(TORUS2, x, y, t, x', y', t');
    }
  }

  /** Pass (a, i) of envelope's loops. */
  method EnvelopePass(f: array<byte>, a: int, i: int, cb: byte)
    requires f.Length == FrameBytes(TORUS2) && 0 <= a < TORUS2.tang && 0 <= i < 16
    requires BlueOn(f[..], OutlineSlots(a, i), cb)
    modifies f
    ensures BlueOn(f[..], OutlineSlots(a, i + 1), cb)
  {
    OutlineStep(a, i);
    var x0 := InnerEdge(i);
    PaintBlue(f, x0, i, a, cb, OutlineSlots(a, i));
    PaintBlue(f, 13, i, a, cb, OutlineSlots(a, i) + {Slot2(x0, i, a)});
    ghost var w := OutlineSlots(a, i) + {Slot2(x0, i, a), Slot2(13, i, a)};
    assert w == OutlineSlots(a, i) + {Slot2(x0, i, a)} + {Slot2(13, i, a)};
    if i < 7 {
      PaintBlue(f, 12 - i, 0, a, cb, w);
      PaintBlue(f, 12 - i, 15, a, cb, w + {Slot2(12 - i, 0, a)});
      assert OutlineSlots(a, i + 1) ==
        w + {Slot2(12 - i, 0, a)} + {Slot2(12 - i, 15, a)};
    }
  }

  /** envelope(f, c): clears the frame, then draws the outline of the
      cross-section at every angle in blue EnvelopeBlue(c, sine): the slots
      of the outline hold (0, 0, cb) and every other byte is 0. */
  method Envelope(f: array<byte>, c: nat, sine: real) returns (cb: byte)
    requires f.Length == FrameBytes(TORUS2) && 0.0 <= sine <= 1.0
    modifies f
    ensures cb == EnvelopeBlue(c, sine)
    ensures BlueOn(f[..], Outline(), cb)
  {
    cb := EnvelopeBlue(c, sine);
    Cls(f);
    var a := 0;
    while a < TORUS2.tang
      invariant 0 <= a <= TORUS2.tang
      invariant BlueOn(f[..], OutlineSlots(a, 0), cb)
    {
      var i := 0;
      while i < 16
        invariant 0 <= i <= 16
        invariant BlueOn(f[..], OutlineSlots(a, i), cb)
      {
        EnvelopePass(f, a, i, cb);
        i := i + 1;
      }
      OutlineNextAngle(a);
      a := a + 1;
    }
  }

  // ---------------------------------------------------------------------
  // an_test3: three pure colours rotating along the outer edge.

  /** One step of the colour rotation (r, g, b) <- (b, r, g). */
  function Rotate(c: (byte, byte, byte)): (byte, byte, byte)
  {
    (c.2, c.0, c.1)
  }

  /** The colour after n rotations of c. */
  function RotateN(c: (byte, byte, byte), n: nat): (byte, byte, byte)
  {
    if n == 0 then c else Rotate(RotateN(c, n - 1))
  }

  /** Full 255 on channel m of three and 0 on the other two. */
  function Pure(m: int): (c: (byte, byte, byte))
    ensures (c.0 == 255) == (m == 0) && (c.1 == 255) == (m == 1) && (c.2 == 255) == (m == 2)
    ensures c.0 + c.1 + c.2 == (if 0 <= m < 3 then 255 else 0)
  {
    (if m == 0 then 255 else 0, if m == 1 then 255 else 0, if m == 2 then 255 else 0)
  }

  /** After n rotations pure red has become pure red, green or blue by n % 3:
      every triple is a permutation of (255, 0, 0), and the rotation repeats
      every three steps. */
  lemma {:induction false} RotatePure(n: nat)
    ensures RotateN(Pure(0), n) == Pure(n % 3)
    ensures RotateN(Pure(0), n + 3) == RotateN(Pure(0), n)
  {
    if n > 0 {
      RotatePure(n - 1);
      assert RotateN(Pure(0), n) == Rotate(Pure((n - 1) % 3));
    }
    assert RotateN(Pure(0), n + 3) == Rotate(Rotate(Rotate(RotateN(Pure(0), n))));
  }

  /** One rotation moves the pure channel on by one. */
  lemma PureRotates(m: nat)
    ensures Rotate(Pure(m % 3)) == Pure((m + 1) % 3)
  {
  }

  /** The slots of the first n passes of an_test3: plane LEDS_X - 1 = 13,
      rows j * LEDS_Y / 4 for j = 1, 2, 3, angles 3 * t for t < n. */
  ghost function Test3Slots(n: int): set<int>
  {
    set t, j | 0 <= t < n && 1 <= j <= 3 :: Slot2(13, 4 * j, 3 * t)
  }

  /** Row j * 4 at angle 3 * t holds pure colour (t + j - 1) % 3. */
  ghost predicate Test3Holds(f: seq<byte>, t: int, j: int)
  {
    var c := Pure((t + j - 1) % 3);
    SlotHolds(f, 13, 4 * j, 3 * t, c.0, c.1, c.2)
  }

  /** The lit slots of the first n passes hold their pure colours. */
  ghost predicate Test3Lit(f: seq<byte>, n: int)
  {
    forall t, j :: 0 <= t < n && 1 <= j <= 3 ==> Test3Holds(f, t, j)
  }

  /** Every byte outside the slots of the first n passes is 0. */
  ghost predicate Test3Dark(f: seq<byte>, n: int)
  {
    forall k :: 0 <= k < |f| && k / 3 !in Test3Slots(n) ==> f[k] == 0
  }

  /** The frame after n passes of an_test3: the lit slots hold their pure
      colours and every other byte is 0. */
  ghost predicate Test3Drawn(f: seq<byte>, n: int)
  {
    Test3Lit(f, n) && Test3Dark(f, n)
  }

  /** Pass n adds three slots. */
  lemma Test3SlotsStep(n: int)
    requires 0 <= n
    ensures Test3Slots(n + 1) == Test3Slots(n) +
      {Slot2(13, 4, 3 * n), Slot2(13, 8, 3 * n), Slot2(13, 12, 3 * n)}
  {
    assert Slot2(13, 4 * 1, 3 * n) in Test3Slots(n + 1);
    assert Slot2(13, 4 * 2, 3 * n) in Test3Slots(n + 1);
    assert Slot2(13, 4 * 3, 3 * n) in Test3Slots(n + 1);
  }

  /** f1 is f0 after the three writes of one pass at angle i with colour
      (r, g, b): (r, g, b) in row 4, (b, r, g) in row 8, (g, b, r) in row 12
      of plane 13, and no other byte changed. */
  ghost predicate Test3PassWritten(f0: seq<byte>, f1: seq<byte>, i: int, r: byte, g: byte, b: byte)
  {
    && |f1| == |f0|
    && SlotHolds(f1, 13, 4, i, r, g, b)
    && SlotHolds(f1, 13, 8, i, b, r, g)
    && SlotHolds(f1, 13, 12, i, g, b, r)
    && forall k :: 0 <= k < |f1| ==>
         k / 3 == Slot2(13, 4, i) || k / 3 == Slot2(13, 8, i) || k / 3 == Slot2(13, 12, i) || f1[k] == f0[k]
  }

  /** The writes of pass n with the pure colour of pass n extend the picture
      of the first n passes to n + 1 passes. */
  lemma Test3Extend(f0: seq<byte>, f1: seq<byte>, n: int, r: byte, g: byte, b: byte)
    requires 0 <= n < 4 && Test3Drawn(f0, n) && (r, g, b) == Pure(n % 3)
    requires Test3PassWritten(f0, f1, 3 * n, r, g, b)
    ensures Test3Drawn(f1, n + 1)
  {
    Test3ExtendLit(f0, f1, n, r, g, b);
    Test3ExtendDark(f0, f1, n, r, g, b);
  }

  lemma Test3ExtendLit(f0: seq<byte>, f1: seq<byte>, n: int, r: byte, g: byte, b: byte)
    requires 0 <= n < 4 && Test3Lit(f0, n) && (r, g, b) == Pure(n % 3)
    requires Test3PassWritten(f0, f1, 3 * n, r, g, b)
    ensures Test3Lit(f1, n + 1)
  {
    PureRotates(n);
    PureRotates(n + 1);
    assert Test3Holds(f1, n, 1) && Test3Holds(f1, n, 2) && Test3Holds(f1, n, 3);
    forall t, j | 0 <= t < n && 1 <= j <= 3
      ensures Test3Holds(f1, t, j)
    {
      var s := Slot2(13, 4 * j, 3 * t);
      assert Test3Holds(f0, t, j);
      assert f1[3 * s] == f0[3 * s] && f1[3 * s + 1] == f0[3 * s + 1] && f1[3 * s + 2] == f0[3 * s + 2];
    }
  }

  lemma Test3ExtendDark(f0: seq<byte>, f1: seq<byte>, n: int, r: byte, g: byte, b: byte)
    requires 0 <= n < 4 && Test3Dark(f0, n)
    requires Test3PassWritten(f0, f1, 3 * n, r, g, b)
    ensures Test3Dark(f1, n + 1)
  {
    Test3SlotsStep(n);
  }

  /** an_test3: clears the frame and, at angles 0, 3, 6 and 9, writes the
      current colour (r, g, b) to row 4, (b, r, g) to row 8 and (g, b, r) to
      row 12 of plane 13, rotating the colour after each angle. */
  method Test3(f: array<byte>)
    requires f.Length == FrameBytes(TORUS2)
    modifies f
    ensures Test3Drawn(f[..], 4)
  {
    Cls(f);
    var r: byte, g: byte, b: byte := 255, 0, 0;
    var i := 0;
    ghost var n := 0;
    while i < 12
      invariant 0 <= n <= 4 && i == 3 * n
      invariant (r, g, b) == RotateN(Pure(0), n)
      invariant Test3Drawn(f[..], n)
    {
      ghost var f0 := f[..];
      RotatePure(n);
      Test3Angle(f, i, r, g, b);
      Test3Extend(f0, f[..], n, r, g, b);
      r, g, b := b, r, g;
      i, n := i + 3, n + 1;
    }
  }

  /** The three writes of one pass of an_test3, at angle i. */
  method Test3Angle(f: array<byte>, i: int, r: byte, g: byte, b: byte)
    requires f.Length == FrameBytes(TORUS2) && 0 <= i < TORUS2.tang
    modifies f
    ensures Test3PassWritten(old(f[..]), f[..], i, r, g, b)
  {
    ghost var f0 := f[..];
    Slot2Index(13, 1 * 16 / 4, i);
    SetPix(f, TORUS2, 13, 1 * 16 / 4, i, r, g, b);
    assert SlotHolds(f[..], 13, 4, i, r, g, b);
    assert forall k :: 0 <= k < f.Length && k / 3 != Slot2(13, 4, i) ==> f[k] == f0[k];
    ghost var f1 := f[..];
    Slot2Index(13, 2 * 16 / 4, i);
    SetPix(f, TORUS2, 13, 2 * 16 / 4, i, b, r, g);
    assert SlotHolds(f[..], 13, 8, i, b, r, g);
    assert forall k :: 0 <= k < f.Length && k / 3 != Slot2(13, 8, i) ==> f[k] == f1[k];
    ghost var f2 := f[..];
    Slot2Index(13, 3 * 16 / 4, i);
    SetPix(f, TORUS2, 13, 3 * 16 / 4, i, g, b, r);
    assert forall k :: 0 <= k < f.Length && k / 3 != Slot2(13, 12, i) ==> f[k] == f2[k];
  }

  // ---------------------------------------------------------------------
  // an_graphs: one point of the plotted surface, drawn anti-aliased.

  /** y clamped to [0, LEDS_Y - 1] before it is truncated. */
  function ClampRow(y: real): (c: real)
    ensures 0.0 <= c <= 15.0
    ensures 0.0 <= y <= 15.0 ==> c == y
    ensures y < 0.0 ==> c == 0.0
    ensures y > 15.0 ==> c == 15.0
  {
    if y < 0.0 then 0.0 else if y > 16.0 - 1.0 then 16.0 - 1.0 else y
  }

  /** y_int: the clamped height truncated to an unsigned row. */
  function GraphRow(y: real): (yi: int)
    ensures 0 <= yi < 16
    ensures yi as real <= ClampRow(y) < yi as real + 1.0
  {
    ClampRow(y).Floor
  }

  /** One anti-aliased point of an_graphs at (x, a): the row above y_int gets
      the upper colour when y_int < LEDS_Y - 1, then row y_int gets the lower
      colour; nothing else changes. */
  method GraphPoint(f: array<byte>, x: int, a: int, y: real,
                    ur: byte, ug: byte, ub: byte, lr: byte, lg: byte, lb: byte)
    requires f.Length == FrameBytes(TORUS2) && 0 <= x < TORUS2.x && 0 <= a < TORUS2.tang
    modifies f
    ensures SlotHolds(f[..], x, GraphRow(y), a, lr, lg, lb)
    ensures GraphRow(y) < 15 ==> SlotHolds(f[..], x, GraphRow(y) + 1, a, ur, ug, ub)
    ensures forall k :: 0 <= k < f.Length ==>
      k / 3 == Slot2(x, GraphRow(y), a) ||
      (GraphRow(y) < 15 && k / 3 == Slot2(x, GraphRow(y) + 1, a)) ||
      f[k] == old(f[k])
  {
    var yc := ClampRow(y);
    var yInt := yc.Floor;
    if yInt < 16 - 1 {
      ghost var f0 := f[..];
      Slot2Index(x, yInt + 1, a);
      SetPix(f, TORUS2, x, yInt + 1, a, ur, ug, ub);
      assert forall k :: 0 <= k < f.Length && k / 3 != Slot2(x, yInt + 1, a) ==> f[k] == f0[k];
    }
    ghost var f1 := f[..];
    Slot2Index(x, yInt, a);
    SetPix(f, TORUS2, x, yInt, a, lr, lg, lb);
    assert forall k :: 0 <= k < f.Length && k / 3 != Slot2(x, yInt, a) ==> f[k] == f1[k];
  }
}

