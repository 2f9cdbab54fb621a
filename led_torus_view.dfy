/** The viewer's scene: the red base built from twelve triangles, and the LED
    torus as one line segment per LED and angular step, with a colour buffer
    laid out like a frame and doubled so that both ends of a segment find
    their colour. */
module LedTorusView {
  import opened Common
  import opened FrameLayout
  import opened FrameTransport

  /** The viewer's display: 7 x 8 LEDs, 335 angular steps. */
  const VIEW: Dims := Dims(7, 8, 335)

  /** LEDS_X * LEDS_Y * LEDS_TANG. */
  const N: int := 7 * 8 * 335

  /** The LED shape leaves out the corners of the 7 x 8 cross-section: LED
      (i, j) (radial i, height j) does not exist when this holds. */
  predicate Skipped(i: int, j: int)
  {
    (i == 0 && (j < 2 || j > 5)) || ((i == 1 || i == 6) && (j == 0 || j == 7))
  }

  /** Whether the LED at slot q (the frame's slot order) exists. */
  predicate Kept(q: int)
  {
    !Skipped(q / 8 % 7, q % 8)
  }

  /** The LEDs of column i that exist: rows 2..5 of the innermost column,
      1..6 of columns 1 and 6, all eight elsewhere. */
  function KeptInColumn(i: int): (n: nat)
    requires 0 <= i < 7
    ensures n == |set j | 0 <= j < 8 && !Skipped(i, j)|
  {
    var s := set j | 0 <= j < 8 && !Skipped(i, j);
    if i == 0 then
      assert s == {2, 3, 4, 5};
      4
    else if i == 1 || i == 6 then
      assert s == {1, 2, 3, 4, 5, 6};
      6
    else
      assert s == {0, 1, 2, 3, 4, 5, 6, 7};
      8
  }

  /** 8 of the 56 positions of a cross-section are left out. */
  lemma FortyEightPerStep()
    ensures KeptInColumn(0) + KeptInColumn(1) + KeptInColumn(2) + KeptInColumn(3)
          + KeptInColumn(4) + KeptInColumn(5) + KeptInColumn(6) == 48
  {
  }

  // ---------------------------------------------------------------------
  // The red base

  datatype Vec = Vec(x: real, y: real, z: real)

  /** The vertex, normal and index vectors of the base, with QVector3D::normal
      (floating point) as a parameter. */
  class Mesh {
    const normalOf: (Vec, Vec, Vec) -> Vec
    var vertices: seq<Vec>
    var normals: seq<Vec>
    var faces: seq<int>

    /** Every index names a vertex, and every vertex has its normal. */
    ghost predicate Valid()
      reads this
    {
      |vertices| == |normals| && forall n :: 0 <= n < |faces| ==> 0 <= faces[n] < |vertices|
    }

    constructor (normalOf: (Vec, Vec, Vec) -> Vec)
      ensures Valid() && this.normalOf == normalOf
      ensures vertices == [] && normals == [] && faces == []
    {
      this.normalOf := normalOf;
      vertices, normals, faces := [], [], [];
    }

    /** add_face: the three corners with the face normal, each index pushed
        just before its vertex. */
    method AddFace(a: Vec, b: Vec, c: Vec)
      requires Valid()
      modifies this
      ensures Valid()
      ensures vertices == old(vertices) + [a, b, c]
      ensures normals == old(normals) + [normalOf(a, b, c), normalOf(a, b, c), normalOf(a, b, c)]
      ensures faces == old(faces) + [|old(vertices)|, |old(vertices)| + 1, |old(vertices)| + 2]
    {
      var normal := normalOf(a, b, c);
      faces := faces + [|vertices|];
      vertices := vertices + [a];
      normals := normals + [normal];
      faces := faces + [|vertices|];
      vertices := vertices + [b];
      normals := normals + [normal];
      faces := faces + [|vertices|];
      vertices := vertices + [c];
      normals := normals + [normal];
    }

    /** add_face for each triple of corners in turn: the corners become the
        vertices, each triple's normal is repeated three times, and the
        indices continue the run from the number of vertices before. */
    method AddFaces(corners: seq<Vec>)
      requires Valid() && |corners| % 3 == 0
      modifies this
      ensures Valid()
      ensures vertices == old(vertices) + corners
      ensures normals == old(normals) + FaceNormals(normalOf, corners, |corners| / 3)
      ensures faces == old(faces) + IndexRun(|old(vertices)|, |corners|)
    {
      ghost var v0, n0, f0 := vertices, normals, faces;
      var n := 0;
      while n < |corners| / 3
        invariant 0 <= 3 * n <= |corners| && Valid()
        invariant vertices == v0 + corners[..3 * n]
        invariant normals == n0 + FaceNormals(normalOf, corners, n)
        invariant faces == f0 + IndexRun(|v0|, 3 * n)
      {
        ghost var vs, ns, fs := vertices, normals, faces;
        AddFace(corners[3 * n], corners[3 * n + 1], corners[3 * n + 2]);
        FacesExtend(normalOf, corners, n, v0, n0, f0, vs, ns, fs, vertices, normals, faces);
        n := n + 1;
      }
      assert corners[..3 * n] == corners;
    }

    /** The twelve triangles of the base. From empty vectors, the indices are
        0 .. 35, the 36 that the base is drawn with. */
    method BuildBase()
      requires Valid()
      modifies this
      ensures Valid()
      ensures vertices == old(vertices) + BASE_CORNERS
      ensures normals == old(normals) + FaceNormals(normalOf, BASE_CORNERS, 12)
      ensures faces == old(faces) + IndexRun(|old(vertices)|, 36)
    {
      AddFaces(BASE_CORNERS);
    }
  }

  /** The corners of the base's twelve triangles, top (y = -0.36) and
      bottom (y = -0.495) of a square of half-side 0.405. */
  const BASE_CORNERS: seq<Vec> :=
    var t1, t2 := Vec(-0.405, -0.36, -0.405), Vec(-0.405, -0.36, 0.405);
    var t3, t4 := Vec(0.405, -0.36, -0.405), Vec(0.405, -0.36, 0.405);
    var b1, b2 := Vec(-0.405, -0.495, -0.405), Vec(-0.405, -0.495, 0.405);
    var b3, b4 := Vec(0.405, -0.495, -0.405), Vec(0.405, -0.495, 0.405);
    [t1, t2, t3, t3, t2, t4, t2, t1, b1, b2, t2, b1,
     t1, b3, b1, t1, t3, b3, t3, t4, b4, t3, b4, b3,
     t4, t2, b2, b2, b4, t4, b1, b3, b2, b3, b4, b2]

  /** The normals add_face pushes for the first t triangles of corners:
      each triangle's normal, once per corner. */
  function FaceNormals(normalOf: (Vec, Vec, Vec) -> Vec, corners: seq<Vec>, t: nat): (ns: seq<Vec>)
    requires 3 * t <= |corners|
    ensures |ns| == 3 * t
  {
    if t == 0 then []
    else
      var m := 3 * (t - 1);
      var normal := normalOf(corners[m], corners[m + 1], corners[m + 2]);
      FaceNormals(normalOf, corners, t - 1) + [normal, normal, normal]
  }

  /** One more add_face extends the vertices, normals and indices by the
      next triangle. */
  lemma FacesExtend(normalOf: (Vec, Vec, Vec) -> Vec, corners: seq<Vec>, n: nat,
                    v0: seq<Vec>, n0: seq<Vec>, f0: seq<int>,
                    vs: seq<Vec>, ns: seq<Vec>, fs: seq<int>,
                    vs': seq<Vec>, ns': seq<Vec>, fs': seq<int>)
    requires 3 * n + 3 <= |corners|
    requires vs == v0 + corners[..3 * n] && ns == n0 + FaceNormals(normalOf, corners, n)
    requires fs == f0 + IndexRun(|v0|, 3 * n)
    requires var a, b, c := corners[3 * n], corners[3 * n + 1], corners[3 * n + 2];
      && vs' == vs + [a, b, c]
      && ns' == ns + [normalOf(a, b, c), normalOf(a, b, c), normalOf(a, b, c)]
      && fs' == fs + [|vs|, |vs| + 1, |vs| + 2]
    ensures vs' == v0 + corners[..3 * n + 3]
    ensures ns' == n0 + FaceNormals(normalOf, corners, n + 1)
    ensures fs' == f0 + IndexRun(|v0|, 3 * n + 3)
  {
    PrefixExtend(corners, 3 * n);
    RunExtend(f0, |v0|, 3 * n, fs, fs');
  }

  lemma PrefixExtend(corners: seq<Vec>, k: nat)
    requires k + 3 <= |corners|
    ensures corners[..k + 3] == corners[..k] + [corners[k], corners[k + 1], corners[k + 2]]
  {
  }

  lemma RunExtend(f0: seq<int>, b: int, m: nat, fs: seq<int>, fs': seq<int>)
    requires fs == f0 + IndexRun(b, m)
    requires fs' == fs + [b + m, b + m + 1, b + m + 2]
    ensures fs' == f0 + IndexRun(b, m + 3)
  {
    assert IndexRun(b, m + 1) == IndexRun(b, m) + [b + m];
    assert IndexRun(b, m + 2) == IndexRun(b, m + 1) + [b + m + 1];
    assert IndexRun(b, m + 3) == IndexRun(b, m + 2) + [b + m + 2];
  }

  /** The consecutive indices b, b + 1, ..., b + m - 1. */
  function IndexRun(b: int, m: nat): (r: seq<int>)
    ensures |r| == m
  {
    if m == 0 then [] else IndexRun(b, m - 1) + [b + m - 1]
  }

  /** Entry n of the run is b + n: from an empty mesh, the base's index
      list is exactly 0 .. 35. */
  lemma {:induction false} IndexRunAt(b: int, m: nat)
    ensures forall n :: 0 <= n < m ==> IndexRun(b, m)[n] == b + n
  {
    if m > 0 {
      IndexRunAt(b, m - 1);
    }
  }

  // ---------------------------------------------------------------------
  // The LED torus

  /** The line indices written for slots 0 .. q-1, in the loop order k, i,
      j, which is increasing slot order: the pair (q, q + N) per existing LED. */
  function LinePairs(q: nat): seq<int>
  {
    if q == 0 then []
    else LinePairs(q - 1) + (if Kept(q - 1) then [q - 1, q - 1 + N] else [])
  }

  /** At most one pair per slot, and every index is a start vertex below q
      or its end vertex. */
  lemma {:induction false} LinePairsBounds(q: nat)
    ensures |LinePairs(q)| <= 2 * q && |LinePairs(q)| % 2 == 0
    ensures forall n :: 0 <= n < |LinePairs(q)| ==> 0 <= LinePairs(q)[n] < q + N
  {
    if q > 0 {
      LinePairsBounds(q - 1);
    }
  }

  /** Every written pair joins a slot's start vertex to its end vertex: entry
      2n is an existing LED's slot below q, entry 2n + 1 that slot plus N. */
  lemma {:induction false} LinePairsArePairs(q: nat, n: nat)
    requires 2 * n + 1 < |LinePairs(q)|
    ensures var s := LinePairs(q);
      0 <= s[2 * n] < q && Kept(s[2 * n]) && s[2 * n + 1] == s[2 * n] + N
  {
    var prev := LinePairs(q - 1);
    if 2 * n + 1 < |prev| {
      LinePairsArePairs(q - 1, n);
      assert LinePairs(q)[2 * n] == prev[2 * n] && LinePairs(q)[2 * n + 1] == prev[2 * n + 1];
    } else {
      LinePairsBounds(q - 1);
      assert Kept(q - 1) && 2 * n == |prev|;
    }
  }

  /** The slot q of LED (i, j) at angular step k exists exactly when the
      position (i, j) is not one of the left-out corners. */
  lemma KeptAt(k: nat, i: int, j: int, q: int)
    requires 0 <= i < 7 && 0 <= j < 8 && q == 56 * k + 8 * i + j
    ensures Kept(q) == !Skipped(i, j)
  {
    DivModUnique(q, 8, i + 7 * k, j);
    DivModUnique(i + 7 * k, 7, k, i);
  }

  /** Slot q adds its pair exactly when its LED exists. */
  lemma LinePairsNext(q: nat, q': nat)
    requires q' == q + 1
    ensures |LinePairs(q')| == |LinePairs(q)| + (if Kept(q) then 2 else 0)
  {
    LinePairsSucc(q);
  }

  lemma LinePairsSucc(q: nat)
    ensures |LinePairs(q + 1)| == |LinePairs(q)| + (if Kept(q) then 2 else 0)
  {
  }

  /** The LEDs of column i among heights 0 .. j-1. */
  function KeptBelow(i: int, j: nat): nat
    requires j <= 8
  {
    if j == 0 then 0 else KeptBelow(i, j - 1) + (if Skipped(i, j - 1) then 0 else 1)
  }

  /** Counting column i height by height gives its number of LEDs. */
  lemma KeptBelowColumn(i: int)
    requires 0 <= i < 7
    ensures KeptBelow(i, 8) == KeptInColumn(i)
  {
    if i == 0 {
      assert KeptBelow(0, 8) == 4;
    } else if i == 1 || i == 6 {
      assert KeptBelow(i, 8) == 6;
    } else {
      assert KeptBelow(i, 8) == 8;
    }
  }

  /** The LEDs of columns 0 .. i-1. */
  function KeptColumns(i: nat): nat
    requires i <= 7
  {
    if i == 0 then 0 else KeptColumns(i - 1) + KeptInColumn(i - 1)
  }

  /** Slot-order progress through column i of step k, from slot lo to
      slot hi: two indices per LED. */
  lemma {:induction false} LinePairsWithinColumn(k: nat, i: int, j: nat, lo: nat, hi: nat)
    requires 0 <= i < 7 && j <= 8 && lo == 56 * k + 8 * i && hi == lo + j
    ensures |LinePairs(hi)| == |LinePairs(lo)| + 2 * KeptBelow(i, j)
  {
    if j > 0 {
      LinePairsWithinColumn(k, i, j - 1, lo, hi - 1);
      ColumnStep(k, i, j - 1, hi - 1, hi);
    }
  }

  /** Slot q, LED (i, j), adds a pair exactly when KeptBelow counts it. */
  lemma ColumnStep(k: nat, i: int, j: nat, q: nat, q': nat)
    requires 0 <= i < 7 && j < 8 && q == 56 * k + 8 * i + j && q' == q + 1
    ensures |LinePairs(q')| - 2 * KeptBelow(i, j + 1) == |LinePairs(q)| - 2 * KeptBelow(i, j)
  {
    KeptAt(k, i, j, q);
    LinePairsNext(q, q');
  }

  /** Slot-order progress through the first i columns of step k. */
  lemma {:induction false} LinePairsWithinStep(k: nat, i: nat, lo: nat, hi: nat)
    requires i <= 7 && lo == 56 * k && hi == lo + 8 * i
    ensures |LinePairs(hi)| == |LinePairs(lo)| + 2 * KeptColumns(i)
  {
    if i > 0 {
      LinePairsWithinStep(k, i - 1, lo, hi - 8);
      LinePairsWithinColumn(k, i - 1, 8, hi - 8, hi);
      KeptBelowColumn(i - 1);
    }
  }

  /** The cross-section's 48 LEDs, column by column. */
  lemma KeptColumnsFull()
    ensures KeptColumns(7) == 48
  {
    FortyEightPerStep();
  }

  /** After k whole angular steps, 2 * 48 * k indices have been written. */
  lemma {:induction false} LinePairsPerStep(k: nat)
    ensures |LinePairs(56 * k)| == 96 * k
  {
    if k > 0 {
      LinePairsPerStep(k - 1);
      LinePairsWithinStep(k - 1, 7, 56 * (k - 1), 56 * k);
      KeptColumnsFull();
    }
  }

  /** The whole loop writes 2 * 48 * LEDS_TANG indices, fewer than the
      cnt_torus_lines = 2 * N that are drawn; every index is below 2 * N and
      so fits in a uint16_t. */
  lemma LineIndexCount()
    ensures |LinePairs(N)| == 96 * 335 < 2 * N
    ensures forall n :: 0 <= n < |LinePairs(N)| ==> 0 <= LinePairs(N)[n] < 2 * N < U16
  {
    LinePairsPerStep(335);
    LinePairsBounds(N);
  }

  /** The test colour of component c of slot q: angle, radial and height
      positions scaled to 0 .. 255 (k*255/LEDS_TANG, i*255/LEDS_Y,
      j*255/LEDS_X). */
  function TestColour(q: int, c: int): (v: int)
    requires 0 <= q < N && 0 <= c < 3
    ensures 0 <= v < 256
  {
    var k, i, j := q / 56, q / 8 % 7, q % 8;
    if c == 0 then Scale(k, 335) else if c == 1 then Scale(i, 8) else Scale(j, 7)
  }

  /** x * 255 / n: a position 0 .. n as a colour component 0 .. 255. */
  function Scale(x: int, n: int): (v: int)
    requires 0 <= x <= n && 0 < n
    ensures 0 <= v < 256
  {
    ScaleBound(x, n);
    x * 255 / n
  }

  lemma ScaleBound(x: int, n: int)
    requires 0 <= x <= n && 0 < n
    ensures 0 <= x * 255 / n <= 255
  {
    var a, d := x * 255, x * 255 / n;
    assert a <= n * 255;
    assert n * d <= a;
    if d > 255 {
      MulMono(n, 256, d);
    }
  }

  lemma MulMono(n: int, c: int, d: int)
    requires 0 < n && c <= d
    ensures n * c <= n * d
  {
  }

  /** The component of the LED (i, j) at the start of angular step k:
      dist(i) * sin, height(j), dist(i) * cos. Floating point, so a parameter. */
  type VertexOf = (int, int, int, int) -> real

  /** Component c of slot q's segment: its start vertex at angle step k, its
      end vertex at step k + 1. */
  function StartVertex(vertex: VertexOf, q: int, c: int): real
  {
    vertex(q / 56, q / 8 % 7, q % 8, c)
  }

  function EndVertex(vertex: VertexOf, q: int, c: int): real
  {
    vertex(q / 56 + 1, q / 8 % 7, q % 8, c)
  }

  /** The buffers of the LED torus. */
  class TorusGeometry {
    /** framebuf[3*LEDS_X*LEDS_Y*LEDS_TANG*2]. */
    const framebuf: array<byte>
    /** torus_line_vertices[2*3*N]: all start vertices, then all end vertices. */
    const lineVertices: array<real>
    /** torus_line_indices[2*N], uint16_t. */
    const lineIndices: array<int>
    var cntTorusLines: int

    ghost predicate Valid()
      reads this
    {
      framebuf.Length == 6 * N && lineVertices.Length == 6 * N && lineIndices.Length == 2 * N
    }

    /** Static, zero-filled buffers. */
    constructor ()
      ensures Valid() && fresh(framebuf) && fresh(lineVertices) && fresh(lineIndices)
      ensures forall e :: 0 <= e < 2 * N ==> lineIndices[e] == 0
      ensures cntTorusLines == 0
    {
      framebuf := new byte[6 * N](_ => 0);
      lineVertices := new real[6 * N](_ => 0.0);
      lineIndices := new int[2 * N](_ => 0);
      cntTorusLines := 0;
    }

    /** The index list once slots 0 .. q-1 are done: their pairs, then the
        untouched rest. */
    ghost predicate IndicesBuilt(q: int, p: int, li0: seq<int>)
      reads this, lineIndices
      requires Valid() && |li0| == 2 * N
    {
      && 0 <= q <= N && p == |LinePairs(q)| && p <= 2 * N
      && lineIndices[..p] == LinePairs(q) && lineIndices[p..] == li0[p..]
    }

    /** The first half of framebuf once slots 0 .. q-1 are done: the test
        colour of every existing LED among them; everything else as before. */
    ghost predicate ColoursBuilt(q: int, fb0: seq<byte>)
      reads this, framebuf
      requires Valid() && |fb0| == 6 * N
    {
      forall e :: 0 <= e < 6 * N ==>
        framebuf[e] == if e < 3 * N && e / 3 < q && Kept(e / 3) then TestColour(e / 3, e % 3) else fb0[e]
    }

    /** The start vertices (first half) once slots 0 .. q-1 are done. */
    ghost predicate StartsBuilt(vertex: VertexOf, q: int, lv0: seq<real>)
      reads this, lineVertices
      requires Valid() && |lv0| == 6 * N
    {
      forall e :: 0 <= e < 3 * N ==>
        lineVertices[e] == if e / 3 < q && Kept(e / 3) then StartVertex(vertex, e / 3, e % 3) else lv0[e]
    }

    /** The end vertices (second half) once slots 0 .. q-1 are done. */
    ghost predicate EndsBuilt(vertex: VertexOf, q: int, lv0: seq<real>)
      reads this, lineVertices
      requires Valid() && |lv0| == 6 * N
    {
      forall e :: 3 * N <= e < 6 * N ==>
        lineVertices[e] == if (e - 3 * N) / 3 < q && Kept((e - 3 * N) / 3)
                           then EndVertex(vertex, (e - 3 * N) / 3, e % 3) else lv0[e]
    }

    /** All buffers once slots 0 .. q-1 are done and p indices written. */
    ghost predicate Built(vertex: VertexOf, q: int, p: int,
                          fb0: seq<byte>, lv0: seq<real>, li0: seq<int>)
      reads this, framebuf, lineVertices, lineIndices
      requires Valid() && |fb0| == 6 * N && |lv0| == 6 * N && |li0| == 2 * N
    {
      IndicesBuilt(q, p, li0) && ColoursBuilt(q, fb0) && StartsBuilt(vertex, q, lv0) && EndsBuilt(vertex, q, lv0)
    }

    /** torus_line_vertices for slot idx: start and end vertex. */
    method EmitVertices(vertex: VertexOf, idx: int, ghost lv0: seq<real>)
      requires Valid() && |lv0| == 6 * N
      requires 0 <= idx < N && Kept(idx) && StartsBuilt(vertex, idx, lv0) && EndsBuilt(vertex, idx, lv0)
      modifies lineVertices
      ensures StartsBuilt(vertex, idx + 1, lv0) && EndsBuilt(vertex, idx + 1, lv0)
    {
      EmitStart(vertex, idx, lv0);
      EmitEnd(vertex, idx, lv0);
    }

    /** The start vertex of slot idx, in the first half. */
    method EmitStart(vertex: VertexOf, idx: int, ghost lv0: seq<real>)
      requires Valid() && |lv0| == 6 * N
      requires 0 <= idx < N && Kept(idx) && StartsBuilt(vertex, idx, lv0)
      modifies lineVertices
      ensures StartsBuilt(vertex, idx + 1, lv0)
      ensures forall e :: 3 * N <= e < 6 * N ==> lineVertices[e] == old(lineVertices[e])
    {
      forall c | 0 <= c < 3 {
        lineVertices[3 * idx + c] := StartVertex(vertex, idx, c);
      }
      forall e | 0 <= e < 3 * N
        ensures lineVertices[e] == if e / 3 < idx + 1 && Kept(e / 3)
                                   then StartVertex(vertex, e / 3, e % 3) else lv0[e]
      {
        assert e / 3 == idx <==> 3 * idx <= e < 3 * idx + 3;
      }
    }

    /** The end vertex of slot idx, in the second half. */
    method EmitEnd(vertex: VertexOf, idx: int, ghost lv0: seq<real>)
      requires Valid() && |lv0| == 6 * N
      requires 0 <= idx < N && Kept(idx) && EndsBuilt(vertex, idx, lv0) && StartsBuilt(vertex, idx + 1, lv0)
      modifies lineVertices
      ensures StartsBuilt(vertex, idx + 1, lv0) && EndsBuilt(vertex, idx + 1, lv0)
    {
      forall c | 0 <= c < 3 {
        lineVertices[3 * idx + 3 * N + c] := EndVertex(vertex, idx, c);
      }
      forall e | 3 * N <= e < 6 * N
        ensures lineVertices[e] == if (e - 3 * N) / 3 < idx + 1 && Kept((e - 3 * N) / 3)
                                   then EndVertex(vertex, (e - 3 * N) / 3, e % 3) else lv0[e]
      {
        assert (e - 3 * N) / 3 == idx <==> 3 * idx + 3 * N <= e < 3 * idx + 3 * N + 3;
        assert e % 3 == (e - 3 * N) % 3;
      }
    }

    /** The index pair (idx, idx + N) appended at p. */
    method EmitIndices(idx: int, p: int, ghost li0: seq<int>)
      requires Valid() && |li0| == 2 * N
      requires 0 <= idx < N && Kept(idx) && IndicesBuilt(idx, p, li0)
      modifies lineIndices
      ensures IndicesBuilt(idx + 1, p + 2, li0)
    {
      assert |LinePairs(idx + 1)| == p + 2;
      LinePairsBounds(idx + 1);
      lineIndices[p] := idx;
      lineIndices[p + 1] := idx + N;
      assert lineIndices[..p + 2] == lineIndices[..p] + [idx, idx + N];
      assert lineIndices[p + 2..] == li0[p + 2..] by {
        assert li0[p + 2..] == li0[p..][2..];
      }
    }

    /** The test colour of slot idx. */
    method EmitColour(idx: int, ghost fb0: seq<byte>)
      requires Valid() && |fb0| == 6 * N
      requires 0 <= idx < N && Kept(idx) && ColoursBuilt(idx, fb0)
      modifies framebuf
      ensures ColoursBuilt(idx + 1, fb0)
    {
      forall c | 0 <= c < 3 {
        framebuf[3 * idx + c] := TestColour(idx, c);
      }
    }

    /** The body of the innermost loop for an existing LED at slot idx. */
    method EmitLed(vertex: VertexOf, idx: int, p: int, ghost fb0: seq<byte>, ghost lv0: seq<real>,
                   ghost li0: seq<int>)
      requires Valid() && |fb0| == 6 * N && |lv0| == 6 * N && |li0| == 2 * N
      requires 0 <= idx < N && Kept(idx) && Built(vertex, idx, p, fb0, lv0, li0)
      modifies framebuf, lineVertices, lineIndices
      ensures Built(vertex, idx + 1, p + 2, fb0, lv0, li0)
    {
      EmitVertices(vertex, idx, lv0);
      EmitIndices(idx, p, li0);
      EmitColour(idx, fb0);
    }

    /** The slot of a position that does not exist is passed over. */
    lemma SkipLed(vertex: VertexOf, idx: int, p: int, fb0: seq<byte>, lv0: seq<real>, li0: seq<int>)
      requires Valid() && |fb0| == 6 * N && |lv0| == 6 * N && |li0| == 2 * N
      requires 0 <= idx < N && !Kept(idx) && Built(vertex, idx, p, fb0, lv0, li0)
      ensures Built(vertex, idx + 1, p, fb0, lv0, li0)
    {
    }

    /** One pass of the innermost loop: LED (i, j) of angular step k. */
    method VisitLed(vertex: VertexOf, k: int, i: int, j: int, p: int, ghost q: int,
                    ghost fb0: seq<byte>, ghost lv0: seq<real>, ghost li0: seq<int>) returns (p': int)
      requires Valid() && |fb0| == 6 * N && |lv0| == 6 * N && |li0| == 2 * N
      requires 0 <= k < 335 && 0 <= i < 7 && 0 <= j < 8 && q == 56 * k + 8 * i + j
      requires Built(vertex, q, p, fb0, lv0, li0)
      modifies framebuf, lineVertices, lineIndices
      ensures Built(vertex, q + 1, p', fb0, lv0, li0)
    {
      var idx := j + i * 8 + k * 56;
      KeptAt(k, i, j, idx);
      if Skipped(i, j) {
        SkipLed(vertex, idx, p, fb0, lv0, li0);
        p' := p;
      } else {
        EmitLed(vertex, idx, p, fb0, lv0, li0);
        p' := p + 2;
      }
    }

    /** The loop over j: the eight LEDs of column i at angular step k. */
    method VisitColumn(vertex: VertexOf, k: int, i: int, p: int, ghost q: int,
                       ghost fb0: seq<byte>, ghost lv0: seq<real>, ghost li0: seq<int>) returns (p': int)
      requires Valid() && |fb0| == 6 * N && |lv0| == 6 * N && |li0| == 2 * N
      requires 0 <= k < 335 && 0 <= i < 7 && q == 56 * k + 8 * i
      requires Built(vertex, q, p, fb0, lv0, li0)
      modifies framebuf, lineVertices, lineIndices
      ensures Built(vertex, q + 8, p', fb0, lv0, li0)
    {
      p' := p;
      ghost var q' := q;
      var j := 0;
      while j < 8
        invariant 0 <= j <= 8 && q' == q + j
        invariant Built(vertex, q', p', fb0, lv0, li0)
      {
        p' := VisitLed(vertex, k, i, j, p', q', fb0, lv0, li0);
        j, q' := j + 1, q' + 1;
      }
    }

    /** The loop over i: the cross-section at angular step k. */
    method VisitStep(vertex: VertexOf, k: int, p: int, ghost q: int,
                     ghost fb0: seq<byte>, ghost lv0: seq<real>, ghost li0: seq<int>) returns (p': int)
      requires Valid() && |fb0| == 6 * N && |lv0| == 6 * N && |li0| == 2 * N
      requires 0 <= k < 335 && q == 56 * k
      requires Built(vertex, q, p, fb0, lv0, li0)
      modifies framebuf, lineVertices, lineIndices
      ensures Built(vertex, q + 56, p', fb0, lv0, li0)
    {
      p' := p;
      ghost var q' := q;
      var i := 0;
      while i < 7
        invariant 0 <= i <= 7 && q' == q + 8 * i
        invariant Built(vertex, q', p', fb0, lv0, li0)
      {
        p' := VisitColumn(vertex, k, i, p', q', fb0, lv0, li0);
        i, q' := i + 1, q' + 8;
      }
    }

    /** The torus part of build_geometry: for every existing LED, in slot
        order, its segment's two vertices, its index pair and its test
        colour; then cnt_torus_lines = 2 * N. */
    method BuildTorus(vertex: VertexOf)
      requires Valid()
      modifies this, framebuf, lineVertices, lineIndices
      ensures Valid() && cntTorusLines == 2 * N
      ensures Built(vertex, N, |LinePairs(N)|, old(framebuf[..]), old(lineVertices[..]), old(lineIndices[..]))
    {
      ghost var fb0, lv0, li0 := framebuf[..], lineVertices[..], lineIndices[..];
      var p := 0;
      ghost var q := 0;
      var k := 0;
      while k < 335
        invariant 0 <= k <= 335 && q == 56 * k
        invariant Built(vertex, q, p, fb0, lv0, li0)
      {
        p := VisitStep(vertex, k, p, q, fb0, lv0, li0);
        k, q := k + 1, q + 56;
      }
      cntTorusLines := 2 * N;
    }

    /** draw_ledtorus: takes the current frame, copies the first half of
        framebuf onto the second so that slot idx + N has slot idx's colour,
        and releases the frame exactly once. */
    method DrawLedTorus(t: Transport)
      requires Valid() && t.Valid() && !t.locked
      modifies framebuf, t
      ensures t.Valid() && !t.locked && t.State() == old(t.State()) && t.pending == old(t.pending)
      ensures framebuf[..3 * N] == old(framebuf[..3 * N])
      ensures forall e :: 0 <= e < 3 * N ==> framebuf[3 * N + e] == framebuf[e]
    {
      var frame := t.GetCurrentFrame();
      forall e | 0 <= e < 3 * N {
        framebuf[3 * N + e] := framebuf[e];
      }
      t.ReleaseFrame();
    }
  }
}
