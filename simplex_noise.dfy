/** 3D simplex noise.  The lattice hash is integer arithmetic on uint32_t
    values, written here on integers in [0, 2^32) with every wrap-around
    spelled out: a right shift by b is division by 2^b, "& 1" is "% 2", and
    a uint32_t sum or increment is taken modulo 2^32.  The float part (the
    point's offsets inside its cell, the fall-off and the gradient) is
    written on reals; the floorf and float-to-uint32_t casts that give the
    cell are parameters. */
module SimplexNoise {
  import opened Common

  /** noise_seeds: the eight values the shuffles pick from. */
  const NOISE_SEEDS: seq<u32> := [0x15, 0x38, 0x32, 0x2c, 0x0d, 0x13, 0x07, 0x2a]

  /** The largest of the seeds. */
  const MAX_SEED: nat := 0x38

  lemma SeedsBounded()
    ensures |NOISE_SEEDS| == 8 && forall i | 0 <= i < 8 :: NOISE_SEEDS[i] <= MAX_SEED
  {
  }

  function Pow2(b: nat): (p: nat)
    ensures p >= 1
  {
    if b == 0 then 1 else 2 * Pow2(b - 1)
  }

  /** shuffle2: bit b of n, that is n shifted right by b and masked to its
      lowest bit; each shift halves n. */
  function Shuffle2(n: nat, b: nat): (r: nat)
    ensures r == 0 || r == 1
  {
    if b == 0 then n % 2 else Shuffle2(n / 2, b - 1)
  }

  /** Bit b does not change when a multiple of 2^m, m > b, is added: the
      bits at or above m never reach it. */
  lemma {:induction false} Shuffle2Period(n: nat, c: nat, b: nat, m: nat)
    requires b < m
    ensures Shuffle2(n + Pow2(m) * c, b) == Shuffle2(n, b)
    decreases b
  {
    var x := Pow2(m - 1) * c;
    assert Pow2(m) * c == 2 * x;
    if b > 0 {
      assert (n + 2 * x) / 2 == n / 2 + x;
      Shuffle2Period(n / 2, c, b - 1, m - 1);
    }
  }

  /** Each of the eight bits the shuffles read depends only on n modulo 256. */
  lemma Shuffle2Low(n: nat, b: nat)
    requires b < 8
    ensures Shuffle2(n, b) == Shuffle2(n % 256, b)
  {
    assert Pow2(8) == 256;
    Shuffle2Period(n % 256, n / 256, b, 8);
  }

  /** The index shuffle4 builds: bit b of i, j and k as a 3-bit number, i's
      bit highest.  The three bits do not overlap, so their or is their sum. */
  function SeedIndex(i: nat, j: nat, k: nat, b: nat): (idx: nat)
    ensures idx < 8
  {
    4 * Shuffle2(i, b) + 2 * Shuffle2(j, b) + Shuffle2(k, b)
  }

  /** shuffle4: the seed SeedIndex selects; the index is always in bounds. */
  function Shuffle4(i: nat, j: nat, k: nat, b: nat): (r: nat)
    ensures r <= MAX_SEED
  {
    SeedsBounded();
    NOISE_SEEDS[SeedIndex(i, j, k, b)]
  }

  /** Lookup b of shuffle: shuffle4 on bit b, with the coordinates turned
      one place further for each bit, (i, j, k), (j, k, i), (k, i, j), and
      round again. */
  function Lookup(i: nat, j: nat, k: nat, b: nat): (r: nat)
    ensures r <= MAX_SEED
  {
    if b % 3 == 0 then Shuffle4(i, j, k, b)
    else if b % 3 == 1 then Shuffle4(j, k, i, b)
    else Shuffle4(k, i, j, b)
  }

  /** The lookups b to 7 summed as integers. */
  function ShuffleFrom(i: nat, j: nat, k: nat, b: nat): (s: nat)
    requires b <= 8
    ensures s <= (8 - b) * MAX_SEED
    decreases 8 - b
  {
    if b == 8 then 0 else Lookup(i, j, k, b) + ShuffleFrom(i, j, k, b + 1)
  }

  /** shuffle: the uint32_t sum of the eight lookups.  It is at most
      8 * 0x38 = 448, so the wrap-around never happens. */
  function Shuffle(i: u32, j: u32, k: u32): (r: u32)
    ensures r == ShuffleFrom(i, j, k, 0) && r <= 448
  {
    var s := ShuffleFrom(i, j, k, 0);
    assert s <= 448;
    s % U32
  }

  /** The sum, written out term by term in the order of shuffle. */
  lemma ShuffleTerms(i: u32, j: u32, k: u32)
    ensures Shuffle(i, j, k) ==
      Shuffle4(i, j, k, 0) + Shuffle4(j, k, i, 1) +
      Shuffle4(k, i, j, 2) + Shuffle4(i, j, k, 3) +
      Shuffle4(j, k, i, 4) + Shuffle4(k, i, j, 5) +
      Shuffle4(i, j, k, 6) + Shuffle4(j, k, i, 7)
  {
    assert ShuffleFrom(i, j, k, 6) == Shuffle4(i, j, k, 6) + Shuffle4(j, k, i, 7);
    assert ShuffleFrom(i, j, k, 3) ==
      Shuffle4(i, j, k, 3) + Shuffle4(j, k, i, 4) + Shuffle4(k, i, j, 5) + ShuffleFrom(i, j, k, 6);
  }

  /** The lookups read only bits 0 to 7 of each coordinate. */
  lemma {:induction false} ShuffleFromLowBits(i: nat, j: nat, k: nat, b: nat)
    requires b <= 8
    ensures ShuffleFrom(i, j, k, b) == ShuffleFrom(i % 256, j % 256, k % 256, b)
    decreases 8 - b
  {
    if b < 8 {
      SeedIndexLowBits(i, j, k, b);
      SeedIndexLowBits(j, k, i, b);
      SeedIndexLowBits(k, i, j, b);
      ShuffleFromLowBits(i, j, k, b + 1);
    }
  }

  lemma SeedIndexLowBits(i: nat, j: nat, k: nat, b: nat)
    requires b < 8
    ensures SeedIndex(i, j, k, b) == SeedIndex(i % 256, j % 256, k % 256, b)
  {
    Shuffle2Low(i, b);
    Shuffle2Low(j, b);
    Shuffle2Low(k, b);
  }

  /** The hash only reads bits 0 to 7 of each coordinate, so it repeats
      every 256 lattice cells along each axis. */
  lemma ShuffleLowBits(i: u32, j: u32, k: u32)
    ensures Shuffle(i, j, k) == Shuffle(i % 256, j % 256, k % 256)
  {
    ShuffleFromLowBits(i, j, k, 0);
  }

  // ------------------------------------------------------------------
  // Offsets

  /** The three entries of A: the offset of a corner from the origin of
      its lattice cell. */
  datatype Offset = Offset(x: int, y: int, z: int)
  {
    /** Entry c. */
    function At(c: nat): int
      requires c < 3
    {
      if c == 0 then x else if c == 1 then y else z
    }
  }

  /** The origin of the cell. */
  const ORIGIN: Offset := Offset(0, 0, 0)

  /** One unit step along coordinate c. */
  function Along(o: Offset, c: nat): (r: Offset)
    requires c < 3
  {
    if c == 0 then o.(x := o.x + 1) else if c == 1 then o.(y := o.y + 1) else o.(z := o.z + 1)
  }

  /** Entry c incremented as a uint32_t, wrapping to 0 past 2^32 - 1. */
  function Bump(o: Offset, c: nat): (r: Offset)
    requires c < 3
  {
    if c == 0 then o.(x := (o.x + 1) % U32)
    else if c == 1 then o.(y := (o.y + 1) % U32)
    else o.(z := (o.z + 1) % U32)
  }

  /** Every entry of o lies in [0, n]. */
  predicate Within(o: Offset, n: nat)
  {
    0 <= o.x <= n && 0 <= o.y <= n && 0 <= o.z <= n
  }

  lemma AlongWithin(o: Offset, c: nat, n: nat)
    requires c < 3 && Within(o, n)
    ensures Within(Along(o, c), n + 1)
  {
  }

  /** On small offsets the uint32_t increment does not wrap, so it is a
      unit step. */
  lemma BumpStep(o: Offset, c: nat)
    requires c < 3 && Within(o, 3)
    ensures Bump(o, c) == Along(o, c)
  {
  }

  // ------------------------------------------------------------------
  // K

  /** The corner K hashes: the lattice cell (i, j, k) moved by the offsets
      A holds, each coordinate a uint32_t addition. */
  function CornerHash(i: u32, j: u32, k: u32, off: Offset): (h: u32)
    ensures h <= 448
  {
    Shuffle((i + off.x) % U32, (j + off.y) % U32, (k + off.z) % U32)
  }

  /** Because 2^32 is a multiple of 256, the 32-bit wrap-around of a corner
      coordinate (the sum of the lattice cell and a corner offset) never
      changes its hash: only the low 8 bits of each coordinate matter. */
  lemma ShuffleWrapLowBits(a: int, b: int, c: int)
    ensures Shuffle(a % U32, b % U32, c % U32) == Shuffle(a % 256, b % 256, c % 256)
  {
    ModMod(a);
    ModMod(b);
    ModMod(c);
    ShuffleLowBits(a % U32, b % U32, c % U32);
  }

  lemma ModUnique(x: int, k: int, r: int)
    requires x == 256 * k + r && 0 <= r < 256
    ensures x % 256 == r
  {
  }

  lemma ModMod(x: int)
    ensures (x % U32) % 256 == x % 256
  {
    var q, r := x / U32, x % U32;
    assert x == U32 * q + r;
    var r1, r2 := r / 256, r % 256;
    ModUnique(r, r1, r2);
    ModUnique(x, 0x100_0000 * q + r1, r2);
  }

  /** The low two bits of the hash choose how K orders the offsets: b is in
      [0, 4), and (p, q, r) is (x, y, z) turned by a cyclic rotation. */
  function Orient(h: u32, x: real, y: real, z: real): (pqr: (real, real, real))
    ensures h % 4 == 1 ==> pqr == (x, y, z)
    ensures h % 4 == 2 ==> pqr == (y, z, x)
    ensures h % 4 == 0 || h % 4 == 3 ==> pqr == (z, x, y)
  {
    var b := h % 4;
    (if b == 1 then x else if b == 2 then y else z,
     if b == 1 then y else if b == 2 then z else x,
     if b == 1 then z else if b == 2 then x else y)
  }

  function Abs(x: real): real
  {
    if x < 0.0 then -x else x
  }

  /** x with its sign flipped when flip holds. */
  function Flip(flip: bool, x: real): (y: real)
    ensures Abs(y) == Abs(x)
  {
    if flip then -x else x
  }

  /** The gradient term of K given the low bits of the hash: bits 5, 4
      and 3 flip the signs of p, q and r, and p is then added to q and r
      when b is 0, otherwise to one of them as bit 2 says.  The term is at
      most the sum of the magnitudes of the offsets. */
  function GradientOf(b: nat, b5: nat, b4: nat, b3: nat, b2: nat, p0: real, q0: real, r0: real): (g: real)
    ensures Abs(g) <= Abs(p0) + Abs(q0) + Abs(r0)
  {
    var p := Flip(b5 == b3, p0);
    var q := Flip(b5 == b4, q0);
    var r := Flip(b5 != (if b4 == b3 then 0 else 1), r0);
    p + (if b == 0 then q + r else if b2 == 0 then q else r)
  }

  /** The gradient term of K for hash h at offsets (x, y, z). */
  function Gradient(h: u32, x: real, y: real, z: real): (g: real)
    ensures Abs(g) <= Abs(x) + Abs(y) + Abs(z)
  {
    var pqr := Orient(h, x, y, z);
    GradientOf(h % 4, Shuffle2(h, 5), Shuffle2(h, 4), Shuffle2(h, 3), Shuffle2(h, 2), pqr.0, pqr.1, pqr.2)
  }

  /** The gradient term is odd: reflecting the point through the corner
      negates it. */
  lemma GradientOdd(h: u32, x: real, y: real, z: real)
    ensures Gradient(h, -x, -y, -z) == -Gradient(h, x, y, z)
  {
    var pqr := Orient(h, x, y, z);
    assert Orient(h, -x, -y, -z) == (-pqr.0, -pqr.1, -pqr.2);
    GradientOfOdd(h % 4, Shuffle2(h, 5), Shuffle2(h, 4), Shuffle2(h, 3), Shuffle2(h, 2), pqr.0, pqr.1, pqr.2);
  }

  lemma GradientOfOdd(b: nat, b5: nat, b4: nat, b3: nat, b2: nat, p: real, q: real, r: real)
    ensures GradientOf(b, b5, b4, b3, b2, -p, -q, -r) == -GradientOf(b, b5, b4, b3, b2, p, q, r)
  {
  }

  /** The point (u, v, w) relative to the corner at offsets seen, in the
      skewed cell: each offset is subtracted and the unskewing term
      (sum of offsets) / 6 added. */
  function Relative(seen: Offset, u: real, v: real, w: real): (xyz: (real, real, real))
  {
    var s := (seen.x + seen.y + seen.z) as real / 6.0;
    (u - seen.x as real + s, v - seen.y as real + s, w - seen.z as real + s)
  }

  /** The radial fall-off of K: with t = 0.6 - x^2 - y^2 - z^2 it is
      25 t^4, and 0 when t is negative, so a corner farther than the
      square root of 0.6 contributes nothing. */
  function Falloff(x: real, y: real, z: real): (f: real)
    ensures x * x + y * y + z * z > 0.6 ==> f == 0.0
    ensures f >= 0.0
  {
    var t := 0.6 - x * x - y * y - z * z;
    if t < 0.0 then 0.0 else 25.0 * ((t * t) * (t * t))
  }

  /** The value of K for the corner at offsets seen: the fall-off times
      the gradient term at the point relative to that corner. */
  function KValue(seen: Offset, h: u32, u: real, v: real, w: real): real
  {
    var xyz := Relative(seen, u, v, w);
    Falloff(xyz.0, xyz.1, xyz.2) * Gradient(h, xyz.0, xyz.1, xyz.2)
  }

  /** The contribution of the corner at offsets o of the cell (i, j, k):
      K's value for that corner's hash. */
  function Contribution(o: Offset, i: u32, j: u32, k: u32, u: real, v: real, w: real): real
  {
    KValue(o, CornerHash(i, j, k, o), u, v, w)
  }

  /** A corner farther from the point than the square root of 0.6
      contributes nothing to the noise. */
  lemma KValueSupport(seen: Offset, h: u32, u: real, v: real, w: real)
    ensures var xyz := Relative(seen, u, v, w);
      xyz.0 * xyz.0 + xyz.1 * xyz.1 + xyz.2 * xyz.2 > 0.6 ==> KValue(seen, h, u, v, w) == 0.0
  {
  }

  /** K: it reads the offsets in A, hashes that corner of the cell
      (i, j, k), bumps A[a] (a uint32_t increment, the only change to A)
      and returns the corner's contribution at the point (u, v, w). */
  method K(a: nat, A: array<u32>, i: u32, j: u32, k: u32, u: real, v: real, w: real)
    returns (seen: Offset, value: real)
    requires A.Length == 3 && a < 3
    modifies A
    ensures seen == Offset(old(A[0]), old(A[1]), old(A[2]))
    ensures value == Contribution(seen, i, j, k, u, v, w)
    ensures Offset(A[0], A[1], A[2]) == Bump(seen, a)
  {
    seen := Offset(A[0], A[1], A[2]);
    var h := CornerHash(i, j, k, seen);
    A[a] := (A[a] + 1) % U32;
    value := KValue(seen, h, u, v, w);
  }

  // ------------------------------------------------------------------
  // The corners of the simplex

  /** The coordinate c of (u, v, w). */
  function Coord(u: real, v: real, w: real, c: nat): real
    requires c < 3
  {
    if c == 0 then u else if c == 1 then v else w
  }

  /** hi: a coordinate with the largest value. */
  function Hi(u: real, v: real, w: real): (hi: nat)
    ensures hi < 3
    ensures forall c | 0 <= c < 3 :: Coord(u, v, w, c) <= Coord(u, v, w, hi)
  {
    if u >= w then (if u >= v then 0 else 1) else (if v >= w then 1 else 2)
  }

  /** lo: a coordinate with the smallest value. */
  function Lo(u: real, v: real, w: real): (lo: nat)
    ensures lo < 3
    ensures forall c | 0 <= c < 3 :: Coord(u, v, w, lo) <= Coord(u, v, w, c)
  {
    if u < w then (if u < v then 0 else 1) else (if v < w then 1 else 2)
  }

  /** The tie-breaking of hi and lo never names the same coordinate, even
      when all three are equal, so hi, 3 - hi - lo and lo are the three
      coordinates, each once, and the middle one lies between the others. */
  lemma HiLoPermutation(u: real, v: real, w: real)
    ensures var hi, lo := Hi(u, v, w), Lo(u, v, w);
      && hi != lo && 0 <= 3 - hi - lo < 3 && 3 - hi - lo != hi && 3 - hi - lo != lo
      && Coord(u, v, w, lo) <= Coord(u, v, w, 3 - hi - lo) <= Coord(u, v, w, hi)
  {
  }

  /** The four corners of the simplex that holds a point whose offsets
      inside its cell order as hi >= mid >= lo: the cell's origin, one step
      along hi, a further step along mid, and the far corner. */
  function CornerPath(hi: nat, lo: nat): (cs: seq<Offset>)
    requires hi < 3 && lo < 3 && hi != lo
    ensures |cs| == 4
  {
    var mid := 3 - hi - lo;
    [ORIGIN, Along(ORIGIN, hi), Along(Along(ORIGIN, hi), mid), Offset(1, 1, 1)]
  }

  /** The sum of the entries of an offset: the number of unit steps from
      the cell's origin. */
  function Level(o: Offset): int
  {
    o.x + o.y + o.z
  }

  /** The corner path walks the cube edge by edge: the far corner is one
      step along lo from the third, and the four corners are different. */
  lemma CornerPathSteps(hi: nat, lo: nat)
    requires hi < 3 && lo < 3 && hi != lo
    ensures var cs := CornerPath(hi, lo);
      && cs[3] == Along(cs[2], lo)
      && forall s, t | 0 <= s < t < 4 :: cs[s] != cs[t]
  {
    var cs := CornerPath(hi, lo);
    forall s, t | 0 <= s < t < 4 ensures cs[s] != cs[t] {
      PathLevel(hi, lo, s);
      PathLevel(hi, lo, t);
    }
  }

  /** Corner t of the path is t steps from the origin. */
  lemma PathLevel(hi: nat, lo: nat, t: nat)
    requires hi < 3 && lo < 3 && hi != lo && t < 4
    ensures Level(CornerPath(hi, lo)[t]) == t
  {
  }

  /** The sum of the four contributions, in the order the corners are
      listed. */
  function NoiseSum(cs: seq<Offset>, i: u32, j: u32, k: u32, u: real, v: real, w: real): real
    requires |cs| == 4
  {
    Contribution(cs[0], i, j, k, u, v, w) + Contribution(cs[1], i, j, k, u, v, w) +
    Contribution(cs[2], i, j, k, u, v, w) + Contribution(cs[3], i, j, k, u, v, w)
  }

  /** The offsets K sees when it bumps the axes a0, a1 and a2 in turn,
      starting from the origin. */
  function Walk(a0: nat, a1: nat, a2: nat): (cs: seq<Offset>)
    requires a0 < 3 && a1 < 3 && a2 < 3
    ensures |cs| == 4
  {
    var c1 := Along(ORIGIN, a0);
    var c2 := Along(c1, a1);
    [ORIGIN, c1, c2, Along(c2, a2)]
  }

  /** A call of K while A holds the small offsets o: the increment does
      not wrap, so afterwards A holds o one step along a. */
  method KStep(a: nat, A: array<u32>, i: u32, j: u32, k: u32, u: real, v: real, w: real, ghost o: Offset, ghost n: nat)
    returns (seen: Offset, value: real)
    requires A.Length == 3 && a < 3 && n <= 2
    requires Offset(A[0], A[1], A[2]) == o && Within(o, n)
    modifies A
    ensures seen == o && value == Contribution(o, i, j, k, u, v, w)
    ensures Offset(A[0], A[1], A[2]) == Along(o, a) && Within(Along(o, a), n + 1)
  {
    seen, value := K(a, A, i, j, k, u, v, w);
    BumpStep(o, a);
    AlongWithin(o, a, n);
  }

  /** Four calls of K on a fresh A, in the order they are evaluated,
      bumping a0, a1, a2 and a3: they see the offsets of Walk(a0, a1, a2),
      and the noise is the sum of their contributions. */
  method FourK(a0: nat, a1: nat, a2: nat, a3: nat, ix: u32, jx: u32, kx: u32, u: real, v: real, w: real)
    returns (noise: real, seen: seq<Offset>)
    requires a0 < 3 && a1 < 3 && a2 < 3 && a3 < 3
    ensures seen == Walk(a0, a1, a2)
    ensures noise == NoiseSum(seen, ix, jx, kx, u, v, w)
  {
    var A := new u32[3];
    A[0], A[1], A[2] := 0, 0, 0;
    var c0, k0 := KStep(a0, A, ix, jx, kx, u, v, w, ORIGIN, 0);
    var c1, k1 := KStep(a1, A, ix, jx, kx, u, v, w, Along(c0, a0), 1);
    var c2, k2 := KStep(a2, A, ix, jx, kx, u, v, w, Along(c1, a1), 2);
    var c3, k3 := K(a3, A, ix, jx, kx, u, v, w);
    seen := [c0, c1, c2, c3];
    noise := k0 + k1 + k2 + k3;
  }

  /** simplex_noise_3d as intended: the four calls of K run in the order
      they are written, so they see the offsets (0,0,0), then one step
      along hi, then a further step along mid, then (1,1,1); the noise is
      the sum of the contributions of those four corners of the cell
      (ix, jx, kx).  The offsets u, v, w of the point in its cell and the
      cell itself come from floorf and casts and are parameters. */
  method SimplexNoise3d(u: real, v: real, w: real, ix: u32, jx: u32, kx: u32)
    returns (noise: real, corners: seq<Offset>)
    ensures Hi(u, v, w) != Lo(u, v, w)
    ensures corners == CornerPath(Hi(u, v, w), Lo(u, v, w))
    ensures noise == NoiseSum(corners, ix, jx, kx, u, v, w)
  {
    var hi := Hi(u, v, w);
    var lo := Lo(u, v, w);
    HiLoPermutation(u, v, w);
    CornerPathSteps(hi, lo);
    noise, corners := FourK(hi, 3 - hi - lo, lo, 0, ix, jx, kx, u, v, w);
  }

  /** simplex_noise_3d as written: the four calls of K are operands of one
      sum, and C leaves their order unspecified although each changes A.
      This is the order that evaluates the operands right to left: K(0, ...)
      first, K(hi, ...) last.  The corners listed are those the calls see,
      in source order. */
  method SimplexNoise3dRightToLeft(u: real, v: real, w: real, ix: u32, jx: u32, kx: u32)
    returns (noise: real, corners: seq<Offset>)
    ensures Hi(u, v, w) != Lo(u, v, w)
    ensures var hi, lo := Hi(u, v, w), Lo(u, v, w);
      var c1 := Along(ORIGIN, 0);
      var c2 := Along(c1, lo);
      corners == [Along(c2, 3 - hi - lo), c2, c1, ORIGIN]
    ensures noise == NoiseSum(corners, ix, jx, kx, u, v, w)
  {
    var hi := Hi(u, v, w);
    var lo := Lo(u, v, w);
    HiLoPermutation(u, v, w);
    var seen;
    noise, seen := FourK(0, lo, 3 - hi - lo, hi, ix, jx, kx, u, v, w);
    corners := [seen[3], seen[2], seen[1], seen[0]];
  }

  /** A point with u > v > w has hi = 0 and lo = 2. */
  lemma DescendingPoint()
    ensures Hi(0.3, 0.2, 0.1) == 0 && Lo(0.3, 0.2, 0.1) == 2
  {
  }

  /** With hi = 0 and lo = 2, as for a point with u > v > w, the
      right-to-left order sums the corner (1,0,1), which is not a corner of
      the point's simplex, and never the corner (1,1,0), which is. */
  lemma RightToLeftWrongCorner()
    ensures Along(Along(ORIGIN, 0), 2) == Offset(1, 0, 1)
    ensures Offset(1, 0, 1) !in CornerPath(0, 2) && Offset(1, 1, 0) in CornerPath(0, 2)
  {
    var cs := CornerPath(0, 2);
    assert cs == [Offset(0, 0, 0), Offset(1, 0, 0), Offset(1, 1, 0), Offset(1, 1, 1)];
  }

  // ------------------------------------------------------------------
  // simplex_noise_3d_norm

  /** The range the raw noise is assumed to cover. */
  const S_MIN: real := -0.906
  const S_MAX: real := 0.658

  /** simplex_noise_3d_norm's affine map: it sends S_MIN to -1 and S_MAX
      to 1, and it keeps the order of its inputs. */
  function Normalize(v: real): (r: real)
    ensures v == S_MIN ==> r == -1.0
    ensures v == S_MAX ==> r == 1.0
  {
    var scale := 2.0 / (S_MAX - S_MIN);
    (v - (S_MIN + 1.0 / scale)) * scale
  }

  lemma NormalizeMonotone(a: real, b: real)
    requires a <= b
    ensures Normalize(a) <= Normalize(b)
  {
  }
}
