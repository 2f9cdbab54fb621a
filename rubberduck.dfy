/** The rubber-duck animation's point cloud: the comparator that sorts the
    points, the two binary searches that bound the window of points whose
    x lies near a query x, and the count of window points that pass the
    kernel's distance test.  Floats are reals. */
module Rubberduck {

  /** One point of the cloud: three consecutive floats of the points array. */
  datatype Point = Point(x: real, y: real, z: real)

  /** Lexicographic order on (x, y, z): the independent definition the
      comparator is checked against. */
  predicate LexLess(a: Point, b: Point)
  {
    || a.x < b.x
    || (a.x == b.x && a.y < b.y)
    || (a.x == b.x && a.y == b.y && a.z < b.z)
  }

  /** cmp_3float: the three-way comparison qsort uses; -1, 0 or 1, with 0
      only for equal points, and -1 exactly when a comes first in the
      lexicographic order. */
  function Cmp3(a: Point, b: Point): (r: int)
    ensures r == -1 || r == 0 || r == 1
    ensures r == 0 <==> a == b
    ensures r == -1 <==> LexLess(a, b)
    ensures r == 1 <==> LexLess(b, a)
  {
    if a.x < b.x then -1
    else if a.x > b.x then 1
    else if a.y < b.y then -1
    else if a.y > b.y then 1
    else if a.z < b.z then -1
    else if a.z > b.z then 1
    else 0
  }

  /** Swapping the arguments negates the result. */
  lemma Cmp3Antisymmetric(a: Point, b: Point)
    ensures Cmp3(a, b) == -Cmp3(b, a)
  {
  }

  /** The order is transitive, as qsort requires of its comparator. */
  lemma Cmp3Transitive(a: Point, b: Point, c: Point)
    requires Cmp3(a, b) <= 0 && Cmp3(b, c) <= 0
    ensures Cmp3(a, c) <= 0
  {
  }

  // ------------------------------------------------------------------
  // The points array: num_points triples of floats

  /** The i-th point of the flat array p. */
  function PointAt(p: seq<real>, i: nat): Point
    requires 3 * i + 2 < |p|
  {
    Point(p[3 * i], p[3 * i + 1], p[3 * i + 2])
  }

  /** The first count points in the order cmp_3float sorts them. */
  ghost predicate SortedPoints(p: seq<real>, count: nat)
    requires 3 * count <= |p|
  {
    forall i, j | 0 <= i < j < count :: Cmp3(PointAt(p, i), PointAt(p, j)) <= 0
  }

  /** The x keys of the first count points ascend. */
  ghost predicate SortedX(p: seq<real>, count: nat)
    requires 3 * count <= |p|
  {
    forall i, j | 0 <= i < j < count :: p[3 * i] <= p[3 * j]
  }

  /** Sorting with cmp_3float sorts the x keys, which is what the two
      searches rely on. */
  lemma SortedPointsSortX(p: seq<real>, count: nat)
    requires 3 * count <= |p| && SortedPoints(p, count)
    ensures SortedX(p, count)
  {
    forall i, j | 0 <= i < j < count ensures p[3 * i] <= p[3 * j] {
      assert Cmp3(PointAt(p, i), PointAt(p, j)) <= 0;
    }
  }

  /** low_limit: a binary search over the x keys of the first count
      points.  It always ends at an index below count; on ascending keys
      that index is the first whose key is at least lowVal, or the last
      index when there is none.  With no points at all (l = 0, h = -1) the
      source's midpoint (0 - 1)/2 truncates to 0, so it reads p[0], past
      the end of the empty array, and loops forever when that key is below
      lowVal; count must be positive. */
  method LowLimit(p: array<real>, count: nat, lowVal: real) returns (l: nat)
    requires 1 <= count && 3 * count <= p.Length
    ensures l < count
    ensures SortedX(p[..], count) ==>
      && (forall k | 0 <= k < l :: p[3 * k] < lowVal)
      && (p[3 * l] >= lowVal || l == count - 1)
  {
    l := 0;
    var h := count - 1;
    while l != h
      invariant l <= h < count
      invariant SortedX(p[..], count) ==> forall k | 0 <= k < l :: p[3 * k] < lowVal
      invariant SortedX(p[..], count) ==> p[3 * h] >= lowVal || h == count - 1
      decreases h - l
    {
      var m := (l + h) / 2;
      var v := p[3 * m];
      if v < lowVal {
        if SortedX(p[..], count) {
          forall k | 0 <= k <= m ensures p[3 * k] < lowVal {
            assert p[..][3 * k] <= p[..][3 * m];
          }
        }
        l := m + 1;
      } else {
        h := m;
      }
    }
  }

  /** high_limit: the mirror search.  The midpoint rounds up, so the range
      shrinks on every pass; on ascending keys the result is the last
      index whose key is at most highVal, or 0 when there is none.  With no
      points it reads p[0] and never ends, so count must be positive. */
  method HighLimit(p: array<real>, count: nat, highVal: real) returns (l: nat)
    requires 1 <= count && 3 * count <= p.Length
    ensures l < count
    ensures SortedX(p[..], count) ==>
      && (forall k | l < k < count :: p[3 * k] > highVal)
      && (p[3 * l] <= highVal || l == 0)
  {
    l := 0;
    var h := count - 1;
    while l != h
      invariant l <= h < count
      invariant SortedX(p[..], count) ==> forall k | h < k < count :: p[3 * k] > highVal
      invariant SortedX(p[..], count) ==> p[3 * l] <= highVal || l == 0
      decreases h - l
    {
      var m := (l + h + 1) / 2;
      var v := p[3 * m];
      if v > highVal {
        if SortedX(p[..], count) {
          forall k | m <= k < count ensures p[3 * k] > highVal {
            assert p[..][3 * m] <= p[..][3 * k];
          }
        }
        h := m - 1;
      } else {
        l := m;
      }
    }
  }

  // ------------------------------------------------------------------
  // The kernel

  /** The half-width of the kernel, 0.074 in the source. */
  const RANGE: real := 0.074

  /** The kernel's distance test: the point pt is no farther than RANGE
      from the query point q.  The source compares sqrt(dx*dx + dy*dy +
      dz*dz) with RANGE; both sides are non-negative, so on reals that is
      the comparison of the squares. */
  predicate InKernel(q: Point, pt: Point)
  {
    var dx, dy, dz := q.x - pt.x, q.y - pt.y, q.z - pt.z;
    dx * dx + dy * dy + dz * dz <= RANGE * RANGE
  }

  /** A point the kernel counts is within RANGE of the query in x. */
  lemma InKernelNearX(q: Point, pt: Point)
    requires InKernel(q, pt)
    ensures q.x - RANGE <= pt.x <= q.x + RANGE
  {
    var dx, dy, dz := q.x - pt.x, q.y - pt.y, q.z - pt.z;
    assert dy * dy >= 0.0 && dz * dz >= 0.0;
    assert dx * dx <= RANGE * RANGE;
  }

  /** How many of the points with index in [lo, hi) the kernel around q counts. */
  function CountInside(p: seq<real>, q: Point, lo: int, hi: int): (n: nat)
    requires 0 <= lo && 3 * hi <= |p|
    ensures n <= if hi <= lo then 0 else hi - lo
    decreases hi - lo
  {
    if hi <= lo then 0
    else CountInside(p, q, lo, hi - 1) + (if InKernel(q, PointAt(p, hi - 1)) then 1 else 0)
  }

  /** Widening the index range by points that fail the test changes no count. */
  lemma {:induction false} CountInsideWiden(p: seq<real>, q: Point, lo: nat, hi: nat, a: nat, b: nat)
    requires a <= lo && hi <= b && 3 * b <= |p| && lo <= hi
    requires forall i | a <= i < b && !(lo <= i < hi) :: !InKernel(q, PointAt(p, i))
    ensures CountInside(p, q, a, b) == CountInside(p, q, lo, hi)
    decreases b - a
  {
    if hi < b {
      CountInsideWiden(p, q, lo, hi, a, b - 1);
    } else if a < lo {
      CountInsideFrom(p, q, a, hi);
      CountInsideWiden(p, q, lo, hi, a + 1, b);
    }
  }

  /** Counting may also peel the lowest index off. */
  lemma {:induction false} CountInsideFrom(p: seq<real>, q: Point, lo: nat, hi: nat)
    requires lo < hi && 3 * hi <= |p|
    ensures CountInside(p, q, lo, hi) ==
      (if InKernel(q, PointAt(p, lo)) then 1 else 0) + CountInside(p, q, lo + 1, hi)
    decreases hi - lo
  {
    if lo + 1 < hi {
      CountInsideFrom(p, q, lo, hi - 1);
    }
  }

  /** The window a low and a high limit bound: on ascending x keys it
      holds every point whose x key lies in [lowVal, highVal]. */
  lemma WindowComplete(p: seq<real>, count: nat, lowVal: real, highVal: real, lowIdx: nat, highIdx: nat)
    requires 3 * count <= |p| && lowIdx < count && highIdx < count
    requires forall k | 0 <= k < lowIdx :: p[3 * k] < lowVal
    requires forall k | highIdx < k < count :: p[3 * k] > highVal
    ensures forall i | 0 <= i < count && lowVal <= p[3 * i] <= highVal :: lowIdx <= i <= highIdx
  {
  }

  /** When every point the test accepts lies in the window, counting over
      the window is counting over the whole cloud. */
  lemma WindowCount(p: seq<real>, count: nat, q: Point, lowIdx: nat, highIdx: nat)
    requires 3 * count <= |p| && lowIdx < count && highIdx < count
    requires forall i | 0 <= i < count && InKernel(q, PointAt(p, i)) :: lowIdx <= i <= highIdx
    ensures CountInside(p, q, lowIdx, highIdx + 1) == CountInside(p, q, 0, count)
  {
    if lowIdx <= highIdx {
      CountInsideWiden(p, q, lowIdx, highIdx + 1, 0, count);
    } else {
      CountInsideWiden(p, q, lowIdx, lowIdx, 0, count);
    }
  }

  /** fold_points_with_kernel: the window [lowIdx, highIdx] of points whose
      x key lies within RANGE of x, found by the two searches, then the
      number of window points within RANGE of (x, y, z).  On points sorted
      by cmp_3float the window holds every point whose x key is that close,
      and so every point the kernel counts: the count is the count over
      the whole cloud. */
  method FoldPointsWithKernel(p: array<real>, count: nat, x: real, y: real, z: real)
    returns (s: nat, lowIdx: nat, highIdx: nat)
    requires 1 <= count && 3 * count <= p.Length
    ensures lowIdx < count && highIdx < count
    ensures s == CountInside(p[..], Point(x, y, z), lowIdx, highIdx + 1)
    ensures s <= if highIdx < lowIdx then 0 else highIdx - lowIdx + 1
    ensures SortedX(p[..], count) ==>
      forall i | 0 <= i < count && x - RANGE <= p[3 * i] <= x + RANGE :: lowIdx <= i <= highIdx
    ensures SortedX(p[..], count) ==> s == CountInside(p[..], Point(x, y, z), 0, count)
  {
    ghost var q := Point(x, y, z);
    lowIdx := LowLimit(p, count, x - RANGE);
    highIdx := HighLimit(p, count, x + RANGE);
    s := 0;
    var i := lowIdx;
    while i <= highIdx
      invariant lowIdx <= i <= if lowIdx <= highIdx then highIdx + 1 else lowIdx
      invariant s == CountInside(p[..], q, lowIdx, i)
    {
      if InKernel(Point(x, y, z), PointAt(p[..], i)) {
        s := s + 1;
      }
      i := i + 1;
    }
    if SortedX(p[..], count) {
      WindowComplete(p[..], count, x - RANGE, x + RANGE, lowIdx, highIdx);
      forall i | 0 <= i < count && InKernel(q, PointAt(p[..], i))
        ensures lowIdx <= i <= highIdx
      {
        InKernelNearX(q, PointAt(p[..], i));
      }
      WindowCount(p[..], count, q, lowIdx, highIdx);
    }
  }

  // ------------------------------------------------------------------
  // The frame function

  /** The number of frames the animation runs before it asks to stop:
      two minutes at 25 frames per second. */
  const DUCK_FRAMES: nat := 2 * 60 * 25

  /** The value rubberduck_anim_frame returns: 1 once the frame counter
      has passed two minutes' worth of frames, 0 before. */
  function AnimFrameResult(frame: nat): (r: nat)
    ensures r == 0 || r == 1
    ensures r == 1 <==> frame > 3000
  {
    if frame > DUCK_FRAMES then 1 else 0
  }

  /** Once the animation has asked to stop it keeps asking, and it runs
      exactly 3001 frames (0 to 3000) before that. */
  lemma AnimStops(frame: nat, later: nat)
    requires frame <= later
    ensures AnimFrameResult(frame) == 1 ==> AnimFrameResult(later) == 1
    ensures AnimFrameResult(frame) == 0 <==> frame < 3001
  {
  }
}
