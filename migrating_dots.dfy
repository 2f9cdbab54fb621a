/** The migrating-dots animation of the first generator: an 8 x 8 sheet of
    dots lies on one face of the display's box, each row's dots travel to a
    random permutation of positions across the box, then all of them travel
    on to another face, and so on. Positions and speeds are reals; only the
    choreography (faces, targets, delays, stages, the wait counter) is
    checked. */
module MigratingDots {
  import opened Common
  import opened FrameLayout
  import opened LedTorusView

  /** MIG_SIDE: dots along one side of the sheet (LEDS_Y). */
  const MIG_SIDE: int := 8
  const NUM_DOTS: int := 64
  const START_SPREAD: int := 12
  const V_MIN: real := 0.9
  const V_RANGE: real := 1.2
  const GRAV: real := -0.07
  const STAGE_PAUSE: int := 8
  /** strlen("LABITAT"). */
  const TEXT_LEN: int := 7
  const COL1: int := 15

  /** One dot: position, speed along the axis it moves on, target coordinate
      on that axis, start delay, and its old and new colour. */
  datatype Dot = Dot(x: real, y: real, z: real, v: real, target: int, delay: int,
                     col: int, newCol: int)

  /** A face of the box: 0/1 bottom/top (z), 2/3 inner/outer (x), 4/5
      front/back (y); a face's axis is face / 2, and odd faces sit at the far
      end of their axis. */
  predicate IsFace(p: int)
  {
    0 <= p < 6
  }

  /** The coordinate a dot moves along when heading to or from face p. */
  function Coord(d: Dot, p: int): real
  {
    if p / 2 == 0 then d.z else if p / 2 == 1 then d.x else d.y
  }

  function SetCoord(d: Dot, p: int, c: real): (d': Dot)
    ensures Coord(d', p) == c
  {
    if p / 2 == 0 then d.(z := c) else if p / 2 == 1 then d.(x := c) else d.(y := c)
  }

  /** The coordinate of face p on its own axis: 0 or MIG_SIDE - 1. */
  function FaceLevel(p: int): int
  {
    (MIG_SIDE - 1) * (p % 2)
  }

  // ---------------------------------------------------------------------
  // Choosing the next face

  /** The rand() stream, from position k, still holds a draw irand(6) on an
      axis other than that of face p: the do-while choosing the next face
      ends. */
  ghost predicate OtherAxisAhead(p: int, rand: RandOracle, k: nat)
    requires ValidRand(rand)
  {
    exists n: nat :: n >= k && Irand(6, rand(n)) / 2 != p / 2
  }

  /** The do-while choosing the next face: irand(6) until the face is on
      another axis than face s. The result is the first such draw. */
  method ChooseEndPlane(s: int, rng: RandStream) returns (e: int)
    requires ValidRand(rng.values) && OtherAxisAhead(s, rng.values, rng.next)
    modifies rng
    ensures IsFace(e) && e / 2 != s / 2
    ensures rng.next > old(rng.next) && e == Irand(6, rng.values(rng.next - 1))
    ensures forall n :: old(rng.next) <= n < rng.next - 1 ==> Irand(6, rng.values(n)) / 2 == s / 2
  {
    ghost var k0 := rng.next;
    ghost var bound: nat :| bound >= k0 && Irand(6, rng.values(bound)) / 2 != s / 2;
    ghost var last := rng.next;
    e := rng.NextIrand(6);
    while e / 2 == s / 2
      invariant k0 <= last <= bound && rng.next == last + 1
      invariant e == Irand(6, rng.values(last))
      invariant SameAxisRun(s, rng.values, k0, last)
      decreases bound - last
    {
      SameAxisRunExtend(s, rng.values, k0, last);
      last := rng.next;
      e := rng.NextIrand(6);
    }
    assert rng.next - 1 == last;
  }

  /** The draws irand(6) at positions from .. to-1 all lie on the axis of
      face s. */
  ghost predicate SameAxisRun(s: int, rand: RandOracle, from: nat, to: int)
    requires ValidRand(rand)
  {
    forall n :: from <= n < to ==> Irand(6, rand(n)) / 2 == s / 2
  }

  /** One more draw on the axis of face s lengthens the run. */
  lemma SameAxisRunExtend(s: int, rand: RandOracle, from: nat, to: nat)
    requires ValidRand(rand) && SameAxisRun(s, rand, from, to) && Irand(6, rand(to)) / 2 == s / 2
    ensures SameAxisRun(s, rand, from, to + 1)
  {
  }

  // ---------------------------------------------------------------------
  // The text index

  /** The text index after a round as written: text_idx >= strlen(text)
      compares the int with a size_t, so a negative index is converted to a
      huge unsigned value and counts as past the end. */
  function TextAfterRoundAsWritten(t: int): (t': int)
    ensures t' == -1 || t' == t + 1
    ensures -0x8000_0000 <= t + 1 < 0 ==> t' == -1
  {
    var u := (t + 1) % U64;
    assert -0x8000_0000 <= t + 1 < 0 ==> u == t + 1 + U64;
    if u >= TEXT_LEN then -1 else t + 1
  }

  /** The text index after a round as evidently intended: negative values
      count blank rounds up to the first letter, and the index goes back to
      -1 after the last letter. */
  function TextAfterRound(t: int): (t': int)
    ensures t' == -1 || t' == t + 1
    ensures t + 1 < TEXT_LEN ==> t' == t + 1
  {
    if t + 1 >= TEXT_LEN then -1 else t + 1
  }

  /** As written, the five blank rounds that text_idx = -5 asks for shrink to
      two: the first round already jumps to -1. */
  lemma TextIndexSkipsBlanks()
    ensures TextAfterRoundAsWritten(-5) == -1
    ensures TextAfterRound(-5) == -4
  {
  }

  /** The two versions agree once the index has reached -1: from then on the
      text cycles -1, 0, ..., 6, -1 in both. */
  lemma TextIndexAgreesFromMinusOne(t: int)
    requires -1 <= t < TEXT_LEN
    ensures TextAfterRoundAsWritten(t) == TextAfterRound(t)
    ensures -1 <= TextAfterRound(t) < TEXT_LEN
  {
    if t + 1 < TEXT_LEN {
      assert 0 <= t + 1 < U64;
    }
  }

  /** Counted from -5, the corrected index spends five rounds blank before the
      first letter. */
  lemma TextIndexFiveBlanks()
    ensures TextAfterRound(TextAfterRound(TextAfterRound(TextAfterRound(TextAfterRound(-5))))) == 0
  {
  }

  // ---------------------------------------------------------------------
  // Where a round starts

  /** The start position of dot j of row i on face s when the dots head for
      face e: the face's own coordinate is its level, the other two are i and
      j in the order that makes row i move on e's axis later. */
  function StartPos(s: int, e: int, i: int, j: int): (p: (real, real, real))
    requires IsFace(s)
  {
    var m := FaceLevel(s) as real;
    var (a, b) := (i as real, j as real);
    if s / 2 == 0 then
      (if e / 2 == 1 then (b, a, m) else (a, b, m))
    else if s / 2 == 1 then
      (if e / 2 == 0 then (m, a, b) else (m, b, a))
    else
      (if e / 2 == 0 then (a, m, b) else (b, m, a))
  }

  /** The dots of a round start on the start face, at 64 different places. */
  lemma StartPosOnFace(s: int, e: int, i: int, j: int, i': int, j': int)
    requires IsFace(s) && IsFace(e) && e / 2 != s / 2
    ensures var (x, y, z) := StartPos(s, e, i, j);
      Coord(Dot(x, y, z, 0.0, 0, 0, 0, 0), s) == FaceLevel(s) as real
    ensures StartPos(s, e, i, j) == StartPos(s, e, i', j') ==> i == i' && j == j'
  {
  }

  /** The starting speed along the start face's axis: zero on the top face
      (gravity takes the dots down), 2 + V_RANGE from the bottom face, else
      V_MIN + drand(V_RANGE) away from the face. */
  function StartSpeed(s: int, r: real): real
  {
    if s == 1 then 0.0
    else if s == 0 then 2.0 + V_RANGE
    else (1 - 2 * (s % 2)) as real * (V_MIN + r)
  }

  /** Whether the start speed draws drand(V_RANGE). */
  predicate StartSpeedDraws(s: int)
  {
    s != 0 && s != 1
  }

  /** Leaving a face, a dot never heads out of the box: its speed points
      into the box, or is zero on the top face. */
  lemma StartSpeedIntoBox(s: int, r: real)
    requires IsFace(s) && 0.0 <= r <= V_RANGE
    ensures s % 2 == 0 ==> StartSpeed(s, r) > 0.0
    ensures s % 2 == 1 && s != 1 ==> StartSpeed(s, r) < 0.0
    ensures s == 1 ==> StartSpeed(s, r) == 0.0
  {
  }

  /** The speed for the second stage towards face e: zero towards the bottom
      (gravity), 2 + drand(V_RANGE) towards the top, else V_MIN +
      drand(V_RANGE) towards the face. */
  function EndSpeed(e: int, r: real): real
  {
    if e == 0 then 0.0
    else if e == 1 then 2.0 + r
    else (2 * (e % 2) - 1) as real * (V_MIN + r)
  }

  /** In the second stage every dot heads for the end face (or falls onto
      the bottom). */
  lemma EndSpeedTowardsFace(e: int, r: real)
    requires IsFace(e) && 0.0 <= r <= V_RANGE
    ensures e % 2 == 1 ==> EndSpeed(e, r) > 0.0
    ensures e % 2 == 0 && e != 0 ==> EndSpeed(e, r) < 0.0
    ensures e == 0 ==> EndSpeed(e, r) == 0.0
  {
  }

  // ---------------------------------------------------------------------
  // Movement

  /** Whether a dot heading for face p in stage `stage1` moves towards the
      far end of the axis. */
  predicate Upward(p: int, stage1: int)
  {
    p % 2 != stage1
  }

  /** One frame of one dot, d frames into the stage: a dot still waiting
      stays; otherwise it moves by its speed, stopping at its target if it
      reached or passed it; a dot still on its way on the vertical axis
      feels gravity. Returns the dot and whether it is still on its way. */
  function DotStep(dot: Dot, p: int, stage1: int, d: int): (res: (Dot, bool))
    ensures d < dot.delay ==> res == (dot, false)
    ensures res.1 ==> Upward(p, stage1) == (Coord(res.0, p) < dot.target as real)
    ensures !res.1 && d >= dot.delay ==> Coord(res.0, p) == dot.target as real
    ensures res.0.target == dot.target && res.0.delay == dot.delay
  {
    if d < dot.delay then (dot, false)
    else
      var m := Coord(dot, p) + dot.v;
      if (Upward(p, stage1) && m >= dot.target as real) || (!Upward(p, stage1) && m <= dot.target as real) then
        (SetCoord(dot, p, dot.target as real), false)
      else
        var moved := SetCoord(dot, p, m);
        (if p <= 1 then moved.(v := moved.v + GRAV) else moved, true)
  }

  /** A dot on the near side of its target stays on that side: a step never
      carries it past the target. */
  lemma DotStepNoOvershoot(dot: Dot, p: int, stage1: int, d: int)
    ensures var t := dot.target as real;
      var c' := Coord(DotStep(dot, p, stage1, d).0, p);
      && (Upward(p, stage1) && Coord(dot, p) <= t ==> c' <= t)
      && (!Upward(p, stage1) && Coord(dot, p) >= t ==> c' >= t)
  {
  }

  /** How many dots are still on their way after the step. */
  function CountMoving(ds: seq<Dot>, p: int, stage1: int, d: int): (n: nat)
    ensures n <= |ds|
  {
    if ds == [] then 0
    else (if DotStep(ds[0], p, stage1, d).1 then 1 else 0) + CountMoving(ds[1..], p, stage1, d)
  }

  lemma CountMovingAppend(a: seq<Dot>, b: seq<Dot>, p: int, stage1: int, d: int)
    ensures CountMoving(a + b, p, stage1, d) == CountMoving(a, p, stage1, d) + CountMoving(b, p, stage1, d)
  {
    if a != [] {
      assert (a + b)[0] == a[0];
      assert (a + b)[1..] == a[1..] + b;
      CountMovingAppend(a[1..], b, p, stage1, d);
    } else {
      assert a + b == b;
    }
  }

  /** No dot is on its way exactly when every dot has been started and sits
      at its target, or still waits. */
  lemma {:induction false} NoneMovingMeansAllArrived(ds: seq<Dot>, p: int, stage1: int, d: int)
    ensures CountMoving(ds, p, stage1, d) == 0 <==>
      forall n :: 0 <= n < |ds| ==> !DotStep(ds[n], p, stage1, d).1
  {
    if ds != [] {
      NoneMovingMeansAllArrived(ds[1..], p, stage1, d);
      if CountMoving(ds, p, stage1, d) == 0 {
        forall n | 0 <= n < |ds|
          ensures !DotStep(ds[n], p, stage1, d).1
        {
          if n > 0 {
            assert ds[n] == ds[1..][n - 1];
          }
        }
      } else if DotStep(ds[0], p, stage1, d).1 {
      } else {
        var n :| 0 <= n < |ds[1..]| && DotStep(ds[1..][n], p, stage1, d).1;
        assert ds[n + 1] == ds[1..][n];
      }
    }
  }

  // ---------------------------------------------------------------------
  // Drawing position

  /** The drawn cell (x, z) of a dot heading for face p, as written: dots
      moving radially are kept off the corners of the LED shape, and dots
      moving vertically likewise, but there the innermost column's top is
      moved to row LEDS_Y - 2, which the shape does not have either. */
  function DrawCellAsWritten(p: int, x: int, z: int): (c: (int, int))
  {
    if p / 2 == 1 then
      var x1 := if x >= 7 then 6 else x;
      if x1 == 6 && (z == 0 || z == 7) then (5, z)
      else if x1 == 0 && (z == 1 || z == 6) then (1, z)
      else if x1 <= 1 && (z == 0 || z == 7) then (2, z)
      else (x1, z)
    else if p / 2 == 0 then
      if z == 0 && (x == 1 || x == 6) then (x, 1)
      else if z == 7 && (x == 1 || x == 6) then (x, 6)
      else if x == 0 && z < 2 then (x, 2)
      else if x == 0 && z > 6 then (x, 6)
      else (x, z)
    else (x, z)
  }

  /** A dot at the top of the innermost column, moving vertically, is drawn
      where the shape has no LED. */
  lemma DrawCellAsWrittenHitsGap()
    ensures DrawCellAsWritten(0, 0, 7) == (0, 6) && Skipped(0, 7 - 6)
    ensures DrawCellAsWritten(0, 0, 6) == (0, 6)
  {
  }

  /** The drawn cell as evidently intended: the top of the innermost column
      is clamped to row LEDS_Y - 3, mirroring the clamp of its bottom to row 2. */
  function DrawCell(p: int, x: int, z: int): (c: (int, int))
    ensures p / 2 != 0 ==> c == DrawCellAsWritten(p, x, z)
    ensures p / 2 == 0 && !(x == 0 && z >= 6) ==> c == DrawCellAsWritten(p, x, z)
  {
    if p / 2 == 0 && x == 0 && z >= 6 then (0, 5)
    else DrawCellAsWritten(p, x, z)
  }

  /** With the corrected clamp, a dot moving radially or vertically is never
      drawn on a position the LED shape leaves out (row j = 7 - z). */
  lemma DrawCellAvoidsGaps(p: int, x: int, z: int)
    requires IsFace(p) && p / 2 != 2 && 0 <= x < 8 && (p / 2 == 1 || x < 7) && 0 <= z < 8
    ensures var (x', z') := DrawCell(p, x, z);
      0 <= x' < 7 && 0 <= z' < 8 && !Skipped(x', 7 - z')
  {
  }

  // ---------------------------------------------------------------------
  // Dealing a round

  /** 0, 1, ..., n - 1: the permute array before a row is dealt. */
  function Iota(n: nat): (s: seq<int>)
    ensures |s| == n && forall j :: 0 <= j < n ==> s[j] == j
  {
    seq(n, j => j)
  }

  function Targets(ds: seq<Dot>): (ts: seq<int>)
    ensures |ts| == |ds| && forall n :: 0 <= n < |ds| ==> ts[n] == ds[n].target
  {
    seq(|ds|, n requires 0 <= n < |ds| => ds[n].target)
  }

  /** The targets a row receives from the pool: irand(num_left) picks a
      place, its value is the target, and the last value moves into the
      place. Each dot then draws per - 1 more values before the next pick. */
  function Deal(pool: seq<int>, rand: RandOracle, k: nat, per: nat): (ts: seq<int>)
    requires ValidRand(rand)
    ensures |ts| == |pool|
    decreases |pool|
  {
    if pool == [] then []
    else
      var x := Irand(|pool|, rand(k));
      [pool[x]] + Deal(RemoveAt(pool, x), rand, k + per, per)
  }

  /** The first target is the picked place's value; the rest are dealt
      from what remains, per draws later. */
  lemma DealUnfold(pool: seq<int>, rand: RandOracle, k: nat, per: nat)
    requires ValidRand(rand) && pool != []
    ensures var x := Irand(|pool|, rand(k));
      Deal(pool, rand, k, per) == [pool[x]] + Deal(RemoveAt(pool, x), rand, k + per, per)
  {
  }

  /** One pick further into a deal whose targets from place j on are
      full[j..]: the pick gives full[j], the rest of the pool gives the rest. */
  lemma DealAdvance(full: seq<int>, j: nat, pool: seq<int>, rand: RandOracle, k: nat, per: nat, x: nat)
    requires ValidRand(rand) && pool != [] && j <= |full|
    requires Deal(pool, rand, k, per) == full[j..]
    requires x == Irand(|pool|, rand(k))
    ensures x < |pool| && j < |full| && full[j] == pool[x] && Deal(RemoveAt(pool, x), rand, k + per, per) == full[j + 1..]
  {
    DealUnfold(pool, rand, k, per);
    assert full[j + 1..] == full[j..][1..];
  }

  lemma MulSucc(per: int, j: int)
    ensures per * (j + 1) == per * j + per
  {
  }

  /** Whatever rand() returns, a row's targets are the pool rearranged. */
  lemma {:induction false} DealPermutes(pool: seq<int>, rand: RandOracle, k: nat, per: nat)
    requires ValidRand(rand)
    ensures multiset(Deal(pool, rand, k, per)) == multiset(pool)
    decreases |pool|
  {
    if pool != [] {
      var x := Irand(|pool|, rand(k));
      DealPermutes(RemoveAt(pool, x), rand, k + per, per);
      RemoveAtMultiset(pool, x);
    }
  }

  /** No value occurs twice. */
  predicate Distinct(s: seq<int>)
  {
    forall a, b :: 0 <= a < b < |s| ==> s[a] != s[b]
  }

  /** Removing place x from a pool without repeats leaves a pool without
      repeats that no longer holds pool[x]. */
  lemma RemoveAtDistinct(pool: seq<int>, x: int)
    requires 0 <= x < |pool| && Distinct(pool)
    ensures Distinct(RemoveAt(pool, x))
    ensures forall m :: 0 <= m < |RemoveAt(pool, x)| ==>
      RemoveAt(pool, x)[m] in pool && RemoveAt(pool, x)[m] != pool[x]
  {
    var r := RemoveAt(pool, x);
    var last := |pool| - 1;
    // Entry m of r comes from place Src(m) of pool, never from place x.
    assert forall m :: 0 <= m < |r| ==> r[m] == pool[if m == x then last else m];
  }

  /** Dealt from a pool without repeats, the targets have no repeats and
      come from the pool. */
  lemma {:induction false} DealDistinct(pool: seq<int>, rand: RandOracle, k: nat, per: nat)
    requires ValidRand(rand) && Distinct(pool)
    ensures Distinct(Deal(pool, rand, k, per))
    ensures forall m :: 0 <= m < |pool| ==> Deal(pool, rand, k, per)[m] in pool
    decreases |pool|
  {
    if pool != [] {
      var x := Irand(|pool|, rand(k));
      var rest := RemoveAt(pool, x);
      RemoveAtDistinct(pool, x);
      DealDistinct(rest, rand, k + per, per);
      var ts := Deal(pool, rand, k, per);
      assert ts == [pool[x]] + Deal(rest, rand, k + per, per);
      forall m | 1 <= m < |ts|
        ensures ts[m] in rest && ts[m] != pool[x]
      {
        assert ts[m] == Deal(rest, rand, k + per, per)[m - 1];
      }
    }
  }

  /** Dealt from 0 .. 7, every target is a position on the axis and no two
      dots of a row share one. */
  lemma DealRowDistinct(rand: RandOracle, k: nat, per: nat)
    requires ValidRand(rand)
    ensures var ts := Deal(Iota(MIG_SIDE), rand, k, per);
      && (forall j :: 0 <= j < MIG_SIDE ==> 0 <= ts[j] < MIG_SIDE)
      && Distinct(ts)
  {
    DealDistinct(Iota(MIG_SIDE), rand, k, per);
  }

  /** rand() values a dot of a new round draws after its target: its delay,
      and its speed unless it starts on the bottom or top face. */
  function DotDraws(s: int): nat
  {
    if StartSpeedDraws(s) then 2 else 1
  }

  /** A dot placed for a new round from face s to face e at row i, column j,
      with the given target, drawing from position k: it starts on face s,
      takes its delay from irand(12), keeps the colour it was heading for as
      its current one, and gets the plain colour as the next. */
  function PlacedDot(d: Dot, s: int, e: int, i: int, j: int, target: int, rand: RandOracle, k: nat): (r: Dot)
    requires IsFace(s) && ValidRand(rand)
    ensures r.target == target && 0 <= r.delay < START_SPREAD && r.col == d.newCol && r.newCol == COL1
    ensures Coord(r, s) == FaceLevel(s) as real
    ensures s % 2 == 0 ==> r.v > 0.0
    ensures s % 2 == 1 ==> r.v <= 0.0
  {
    var (x, y, z) := StartPos(s, e, i, j);
    var r := if StartSpeedDraws(s) then Drand(V_RANGE, rand(k + 1)) else 0.0;
    StartSpeedIntoBox(s, r);
    Dot(x, y, z, StartSpeed(s, r), target, Irand(START_SPREAD, rand(k)), d.newCol, COL1)
  }

  /** The rand() position of the delay draw of dot j of a row whose draws
      start at kr, each dot drawing per values (its pick first). */
  function DelayDraw(kr: nat, per: nat, j: nat): nat
  {
    kr + per * j + 1
  }

  /** Dots 0 .. j-1 of row i of ds are placed for a round from s to e,
      with the targets full and the rand() values from k0 on, per values a
      dot; every other dot is as in d0. */
  ghost predicate RowPlaced(ds: seq<Dot>, s: int, e: int, i: int, j: int, d0: seq<Dot>, full: seq<int>,
                            rand: RandOracle, k0: nat, per: nat)
    requires |ds| == NUM_DOTS && |d0| == NUM_DOTS && 0 <= i < MIG_SIDE && 0 <= j <= MIG_SIDE && |full| == MIG_SIDE
    requires IsFace(s) && ValidRand(rand)
  {
    && (forall n :: MIG_SIDE * i <= n < MIG_SIDE * i + j ==>
          ds[n] == PlacedDot(d0[n], s, e, i, n - MIG_SIDE * i, full[n - MIG_SIDE * i], rand,
            DelayDraw(k0, per, n - MIG_SIDE * i)))
    && (forall n :: 0 <= n < NUM_DOTS && !(MIG_SIDE * i <= n < MIG_SIDE * i + j) ==> ds[n] == d0[n])
  }

  /** Placing dot j of row i, and nothing else, extends a row placed up to
      dot j to one placed up to dot j + 1. */
  lemma RowPlacedExtend(prev: seq<Dot>, ds: seq<Dot>, s: int, e: int, i: int, j: int, d0: seq<Dot>,
                        full: seq<int>, rand: RandOracle, k0: nat, per: nat)
    requires |prev| == NUM_DOTS && |ds| == NUM_DOTS && |d0| == NUM_DOTS && |full| == MIG_SIDE
    requires 0 <= i < MIG_SIDE && 0 <= j < MIG_SIDE && IsFace(s) && ValidRand(rand)
    requires RowPlaced(prev, s, e, i, j, d0, full, rand, k0, per)
    requires ds[MIG_SIDE * i + j] == PlacedDot(prev[MIG_SIDE * i + j], s, e, i, j, full[j], rand, DelayDraw(k0, per, j))
    requires forall n :: 0 <= n < NUM_DOTS && n != MIG_SIDE * i + j ==> ds[n] == prev[n]
    ensures RowPlaced(ds, s, e, i, j + 1, d0, full, rand, k0, per)
  {
    assert prev[MIG_SIDE * i + j] == d0[MIG_SIDE * i + j];
  }

  /** The first rand() position that row i of a round uses, the round's
      draws starting at kc. */
  function RowStart(s: int, kc: nat, i: nat): nat
  {
    kc + MIG_SIDE * (1 + DotDraws(s)) * i
  }

  /** Row i + 1 starts where row i's eight dots end. */
  lemma RowStartSucc(s: int, kc: nat, i: nat)
    ensures RowStart(s, kc, i + 1) == RowStart(s, kc, i) + MIG_SIDE * (1 + DotDraws(s))
  {
    MulSucc(MIG_SIDE * (1 + DotDraws(s)), i);
  }

  /** Dot n (row n / 8, column n % 8) after a new round from s to e whose
      rows draw from kc on. */
  function RoundDot(d: Dot, s: int, e: int, rand: RandOracle, kc: nat, n: nat): Dot
    requires IsFace(s) && ValidRand(rand)
  {
    var i, j := n / MIG_SIDE, n % MIG_SIDE;
    var per := 1 + DotDraws(s);
    var kr := RowStart(s, kc, i);
    PlacedDot(d, s, e, i, j, Deal(Iota(MIG_SIDE), rand, kr, per)[j], rand, DelayDraw(kr, per, j))
  }

  /** All dots after a new round from s to e whose rows draw from kc on. */
  function RoundDots(ds: seq<Dot>, s: int, e: int, rand: RandOracle, kc: nat): (r: seq<Dot>)
    requires |ds| == NUM_DOTS && IsFace(s) && ValidRand(rand)
    ensures |r| == NUM_DOTS && forall n :: 0 <= n < NUM_DOTS ==> r[n] == RoundDot(ds[n], s, e, rand, kc, n)
  {
    seq(NUM_DOTS, n requires 0 <= n < NUM_DOTS => RoundDot(ds[n], s, e, rand, kc, n))
  }

  /** Every row of a new round takes each position 0 .. 7 on the start
      face's axis exactly once as its target. */
  lemma RoundRowsPermute(ds: seq<Dot>, s: int, e: int, rand: RandOracle, kc: nat, i: int)
    requires |ds| == NUM_DOTS && IsFace(s) && ValidRand(rand) && 0 <= i < MIG_SIDE
    ensures var r := RoundDots(ds, s, e, rand, kc);
      multiset(Targets(r[MIG_SIDE * i .. MIG_SIDE * i + MIG_SIDE])) == multiset(Iota(MIG_SIDE))
  {
    var r := RoundDots(ds, s, e, rand, kc);
    var per := 1 + DotDraws(s);
    var kr := RowStart(s, kc, i);
    forall j | 0 <= j < MIG_SIDE
      ensures Targets(r[MIG_SIDE * i .. MIG_SIDE * i + MIG_SIDE])[j] == Deal(Iota(MIG_SIDE), rand, kr, per)[j]
    {
      var n := MIG_SIDE * i + j;
      DivModUnique(n, MIG_SIDE, i, j);
      assert r[MIG_SIDE * i .. MIG_SIDE * i + MIG_SIDE][j] == r[n] == RoundDot(ds[n], s, e, rand, kc, n);
      assert r[n].target == Deal(Iota(MIG_SIDE), rand, kr, per)[j];
    }
    assert Targets(r[MIG_SIDE * i .. MIG_SIDE * i + MIG_SIDE]) == Deal(Iota(MIG_SIDE), rand, kr, per);
    DealPermutes(Iota(MIG_SIDE), rand, kr, per);
  }

  /** No two dots of a new round start at the same place. */
  lemma RoundDistinct(ds: seq<Dot>, s: int, e: int, rand: RandOracle, kc: nat, n: int, n': int)
    requires |ds| == NUM_DOTS && IsFace(s) && IsFace(e) && e / 2 != s / 2 && ValidRand(rand)
    requires 0 <= n < n' < NUM_DOTS
    ensures var r := RoundDots(ds, s, e, rand, kc);
      (r[n].x, r[n].y, r[n].z) != (r[n'].x, r[n'].y, r[n'].z)
  {
    StartPosOnFace(s, e, n / MIG_SIDE, n % MIG_SIDE, n' / MIG_SIDE, n' % MIG_SIDE);
    DivModUnique(n, MIG_SIDE, n / MIG_SIDE, n % MIG_SIDE);
    DivModUnique(n', MIG_SIDE, n' / MIG_SIDE, n' % MIG_SIDE);
  }

  /** Every row of a new round is a permutation of the positions 0 .. 7 on
      the start face's axis, every dot sits on the start face, at its own
      place, with a delay below 12. */
  lemma RoundLayout(ds: seq<Dot>, s: int, e: int, rand: RandOracle, kc: nat)
    requires |ds| == NUM_DOTS && IsFace(s) && IsFace(e) && e / 2 != s / 2 && ValidRand(rand)
    ensures var r := RoundDots(ds, s, e, rand, kc);
      && (forall i :: 0 <= i < MIG_SIDE ==>
            multiset(Targets(r[MIG_SIDE * i .. MIG_SIDE * i + MIG_SIDE])) == multiset(Iota(MIG_SIDE)))
      && (forall n :: 0 <= n < NUM_DOTS ==>
            Coord(r[n], s) == FaceLevel(s) as real && 0 <= r[n].delay < START_SPREAD)
      && (forall n, n' :: 0 <= n < n' < NUM_DOTS ==> (r[n].x, r[n].y, r[n].z) != (r[n'].x, r[n'].y, r[n'].z))
  {
    forall i | 0 <= i < MIG_SIDE
      ensures var r := RoundDots(ds, s, e, rand, kc);
        multiset(Targets(r[MIG_SIDE * i .. MIG_SIDE * i + MIG_SIDE])) == multiset(Iota(MIG_SIDE))
    {
      RoundRowsPermute(ds, s, e, rand, kc, i);
    }
    forall n, n' | 0 <= n < n' < NUM_DOTS
      ensures var r := RoundDots(ds, s, e, rand, kc);
        (r[n].x, r[n].y, r[n].z) != (r[n'].x, r[n'].y, r[n'].z)
    {
      RoundDistinct(ds, s, e, rand, kc, n, n');
    }
  }

  /** A dot prepared for the second stage towards face e, drawing from
      position k: a new delay, a speed towards e, and e's level as target. */
  function SecondStageDot(d: Dot, e: int, rand: RandOracle, k: nat): (r: Dot)
    requires IsFace(e) && ValidRand(rand)
    ensures r.target == FaceLevel(e) && 0 <= r.delay < START_SPREAD
    ensures (r.x, r.y, r.z, r.col, r.newCol) == (d.x, d.y, d.z, d.col, d.newCol)
    ensures e % 2 == 1 ==> r.v > 0.0
    ensures e % 2 == 0 ==> r.v <= 0.0
  {
    var r := if e != 0 then Drand(V_RANGE, rand(k + 1)) else 0.0;
    EndSpeedTowardsFace(e, r);
    d.(delay := Irand(START_SPREAD, rand(k)), v := EndSpeed(e, r), target := FaceLevel(e))
  }

  /** All dots prepared for the second stage, dot n drawing from position
      k + SecondStageDraws(e) * n. */
  function SecondStageDots(ds: seq<Dot>, e: int, rand: RandOracle, k: nat): (r: seq<Dot>)
    requires IsFace(e) && ValidRand(rand)
    ensures |r| == |ds|
    ensures forall n :: 0 <= n < |ds| ==> r[n] == SecondStageDot(ds[n], e, rand, k + SecondStageDraws(e) * n)
  {
    seq(|ds|, n requires 0 <= n < |ds| => SecondStageDot(ds[n], e, rand, k + SecondStageDraws(e) * n))
  }

  /** rand() values a dot draws for the second stage. */
  function SecondStageDraws(e: int): nat
  {
    if e != 0 then 2 else 1
  }

  // ---------------------------------------------------------------------
  // Colour

  /** C's integer division of a by a positive b, which truncates toward zero. */
  function TruncDiv(a: int, b: int): (q: int)
    requires b > 0
    ensures a >= 0 ==> q == a / b
    ensures a < 0 ==> q == -((-a) / b)
  {
    if a >= 0 then a / b else -((-a) / b)
  }

  /** The colour a dot is drawn with, d frames into the stage: the old colour
      throughout stage 1; in stage 2 it fades linearly (with C's division)
      from the old to the new colour while the dot waits, then the new one. */
  function DotColour(dot: Dot, stage1: int, d: int): int
    requires d >= 0
  {
    if stage1 != 0 then dot.col
    else if d < dot.delay then dot.col + TruncDiv((dot.newCol - dot.col) * d, dot.delay)
    else dot.newCol
  }

  /** The fading colour never leaves the range between the old and the new
      colour. */
  lemma DotColourBetween(dot: Dot, stage1: int, d: int)
    requires d >= 0
    ensures var c := DotColour(dot, stage1, d);
      (dot.col <= c <= dot.newCol) || (dot.newCol <= c <= dot.col)
  {
    if stage1 == 0 && d < dot.delay {
      if dot.newCol >= dot.col {
        MulDivBound(dot.newCol - dot.col, d, dot.delay);
      } else {
        assert -((dot.newCol - dot.col) * d) == (dot.col - dot.newCol) * d;
        MulDivBound(dot.col - dot.newCol, d, dot.delay);
      }
    }
  }

  /** (m * d) / b <= m when 0 <= d < b. */
  lemma MulDivBound(m: int, d: int, b: int)
    requires m >= 0 && 0 <= d < b
    ensures 0 <= (m * d) / b <= m
  {
    MulLe(d, b, m);
    assert m * d <= m * b;
    DivModUnique(m * b, b, m, 0);
    DivMonotone(m * d, m * b, b);
  }

  lemma DivMonotone(x: int, y: int, b: int)
    requires 0 <= x <= y && b > 0
    ensures 0 <= x / b <= y / b
  {
    var qx, qy := x / b, y / b;
    assert x == qx * b + x % b && y == qy * b + y % b;
    assert (qy + 1) * b == qy * b + b;
    if qx > qy {
      MulLe(qy + 1, qx, b);
    }
  }

  // ---------------------------------------------------------------------
  // The state

  /** What a new round does to the state: it starts at the old end face e0,
      the end face is the first irand(6) draw from position k0 on another
      axis (drawn at position kc - 1), the text index advances from t0, and
      every dot d0[n] becomes its RoundDot, the rows drawing from kc on up
      to position k. */
  ghost predicate RoundFlipped(e0: int, t0: int, k0: nat, d0: seq<Dot>,
                               s: int, e: int, t: int, k: nat, kc: nat, rand: RandOracle, ds: seq<Dot>)
  {
    && IsFace(s) && ValidRand(rand) && |d0| == NUM_DOTS
    && s == e0 && e / 2 != s / 2
    && k0 < kc && e == Irand(6, rand(kc - 1))
    && (forall n :: k0 <= n < kc - 1 ==> Irand(6, rand(n)) / 2 == s / 2)
    && t == TextAfterRound(t0)
    && k == RowStart(s, kc, MIG_SIDE)
    && ds == RoundDots(d0, s, e, rand, kc)
  }

  /** What the start of stage 2 does to the state: the faces and the text
      index stay, and every dot d0[n] is prepared for stage 2 towards e,
      drawing in dot order from position k0 up to position k. */
  ghost predicate Stage2Flipped(s0: int, e0: int, t0: int, k0: nat, d0: seq<Dot>,
                                s: int, e: int, t: int, k: nat, rand: RandOracle, ds: seq<Dot>)
  {
    && IsFace(e) && ValidRand(rand)
    && s == s0 && e == e0 && t == t0
    && k == k0 + NUM_DOTS * SecondStageDraws(e)
    && ds == SecondStageDots(d0, e, rand, k0)
  }

  /** The stage clock d = frame - base_frame: frame is a uint32_t and base_frame
      an int, so the difference is taken in uint32_t and stored back into an int. */
  function StageClock(frame: u32, base: int): (d: int)
    ensures INT_MIN <= d <= INT_MAX
    ensures (d - (frame - base)) % U32 == 0
  {
    WrapInt((frame - base) % U32)
  }

  /** n frames after a flip at frame f0 (base_frame := f0, converted to int),
      the stage clock reads n, even when the frame counter wrapped in between,
      as long as the stage is shorter than 2^31 frames. */
  lemma StageClockCounts(f0: u32, n: int)
    requires 0 <= n <= INT_MAX
    ensures StageClock(((f0 + n) % U32) as u32, WrapInt(f0)) == n
  {
    var b := WrapInt(f0);
    var f := (f0 + n) % U32;
    var q := (b - f0) / U32;
    assert b == f0 + q * U32;
    var m := (f0 + n) / U32;
    assert f == f0 + n - m * U32;
    assert f - b == n + (-m - q) * U32;
    ModMultiple(n, -m - q);
    assert (f - b) % U32 == n;
  }

  /** Adding a multiple of 2^32 does not change a value in [0, 2^32) modulo 2^32. */
  lemma ModMultiple(n: int, c: int)
    requires 0 <= n < U32
    ensures (n + c * U32) % U32 == n
  {
  }

  /** The wrap the stage clock handles: a flip at frame 2^32 - 3 stores
      base_frame -3, and at frame 2 the clock reads 5. */
  lemma StageClockAcrossWrap()
    ensures WrapInt(U32 - 3) == -3
    ensures StageClock(2, WrapInt(U32 - 3)) == 5
  {
    StageClockCounts((U32 - 3) as u32, 5);
  }

  /** struct st_migrating_dots. */
  class MigratingDotsState {
    const dots: array<Dot>
    var startPlane: int
    var endPlane: int
    var baseFrame: int
    var wait: int
    var stage1: int
    var textIdx: int

    ghost predicate Valid()
      reads this
    {
      dots.Length == NUM_DOTS && IsFace(startPlane) && IsFace(endPlane)
      && (stage1 == 0 || stage1 == 1)
    }

    /** The statically allocated, zero-filled state. */
    constructor ()
      ensures Valid() && fresh(dots)
      ensures startPlane == 0 && endPlane == 0 && stage1 == 0 && wait == 0
    {
      dots := new Dot[NUM_DOTS](_ => Dot(0.0, 0.0, 0.0, 0.0, 0, 0, 0, 0));
      startPlane, endPlane, baseFrame, wait, stage1, textIdx := 0, 0, 0, 0, 0, 0;
    }

    /** in_migrating_dots: the next call starts a new round from the top
      face, and every dot's next colour is the plain one. */
    method Init()
      requires Valid()
      modifies this, dots
      ensures Valid() && endPlane == 1 && wait > STAGE_PAUSE && stage1 == 0 && textIdx == -5
      ensures startPlane == old(startPlane) && baseFrame == old(baseFrame)
      ensures forall n :: 0 <= n < NUM_DOTS ==> dots[n] == old(dots[n]).(newCol := COL1)
    {
      var i := 0;
      while i < NUM_DOTS
        invariant 0 <= i <= NUM_DOTS
        invariant Valid() && startPlane == old(startPlane) && baseFrame == old(baseFrame)
        invariant forall n :: 0 <= n < i ==> dots[n] == old(dots[n]).(newCol := COL1)
        invariant forall n :: i <= n < NUM_DOTS ==> dots[n] == old(dots[n])
      {
        dots[i] := dots[i].(newCol := COL1);
        i := i + 1;
      }
      endPlane := 1;
      wait := 1000000;
      stage1 := 0;
      textIdx := -5;
    }

    /** One dot of a new round: its place on the start face, its target, its
        delay irand(12), its colours, and its speed (drand(V_RANGE) unless it
        starts on the bottom or top face). */
    method PlaceDot(n: int, i: int, j: int, target: int, rng: RandStream)
      requires Valid() && 0 <= n < NUM_DOTS && ValidRand(rng.values)
      modifies dots, rng
      ensures dots[n] == PlacedDot(old(dots[n]), startPlane, endPlane, i, j, target, rng.values, old(rng.next))
      ensures forall n' :: 0 <= n' < NUM_DOTS && n' != n ==> dots[n'] == old(dots[n'])
      ensures rng.next == old(rng.next) + DotDraws(startPlane)
    {
      var (x, y, z) := StartPos(startPlane, endPlane, i, j);
      var delay := rng.NextIrand(START_SPREAD);
      var r := 0.0;
      if StartSpeedDraws(startPlane) {
        r := rng.NextDrand(V_RANGE);
      }
      dots[n] := Dot(x, y, z, StartSpeed(startPlane, r), target, delay, dots[n].newCol, COL1);
    }

    /** One dot of row i: irand(num_left) picks a place of the permute
        array, its value becomes the dot's target and the last remaining
        value fills the place; then the dot is placed. */
    method DealDot(i: int, j: int, permute: array<int>, numLeft: int, rng: RandStream) returns (x: int, t: int)
      requires Valid() && 0 <= i < MIG_SIDE && 0 <= j < MIG_SIDE && ValidRand(rng.values)
      requires 0 < numLeft <= permute.Length
      modifies dots, rng, permute
      ensures x == Irand(numLeft, rng.values(old(rng.next))) && t == old(permute[x])
      ensures permute[..numLeft - 1] == RemoveAt(old(permute[..numLeft]), x)
      ensures dots[MIG_SIDE * i + j] == PlacedDot(old(dots[MIG_SIDE * i + j]), startPlane, endPlane, i, j,
        t, rng.values, old(rng.next) + 1)
      ensures forall n :: 0 <= n < NUM_DOTS && n != MIG_SIDE * i + j ==> dots[n] == old(dots[n])
      ensures rng.next == old(rng.next) + 1 + DotDraws(startPlane)
    {
      ghost var pool := permute[..numLeft];
      x := rng.NextIrand(numLeft);
      t := permute[x];
      permute[x] := permute[numLeft - 1];
      assert permute[..numLeft - 1] == RemoveAt(pool, x);
      PlaceDot(MIG_SIDE * i + j, i, j, t, rng);
    }

    /** Dots 0 .. j-1 of row i are placed, with the targets full and the
        rand() values from k0 on; every other dot is as in d0. */
    ghost predicate RowDealt(i: int, j: int, d0: seq<Dot>, full: seq<int>, rand: RandOracle, k0: nat, per: nat)
      reads this, dots
      requires Valid() && |d0| == NUM_DOTS && 0 <= i < MIG_SIDE && 0 <= j <= MIG_SIDE && |full| == MIG_SIDE
      requires ValidRand(rand)
    {
      RowPlaced(dots[..], startPlane, endPlane, i, j, d0, full, rand, k0, per)
    }

    /** Dot j of row i dealt: the targets still to deal shrink by the one
        taken, and row i is dealt up to dot j + 1. */
    method DealPlace(i: int, j: int, permute: array<int>, numLeft: int, rng: RandStream,
                     ghost rest: seq<int>, ghost d0: seq<Dot>, ghost full: seq<int>, ghost k0: nat, ghost per: nat,
                     ghost kj: nat)
      returns (ghost rest': seq<int>)
      requires Valid() && |d0| == NUM_DOTS && 0 <= i < MIG_SIDE && 0 <= j < MIG_SIDE && |full| == MIG_SIDE
      requires ValidRand(rng.values) && per == 1 + DotDraws(startPlane)
      requires permute.Length == MIG_SIDE && numLeft == MIG_SIDE - j
      requires kj == k0 + per * j && rng.next == kj && permute[..numLeft] == rest
      requires Deal(rest, rng.values, kj, per) == full[j..]
      requires RowDealt(i, j, d0, full, rng.values, k0, per)
      modifies dots, rng, permute
      ensures rng.next == kj + per && permute[..numLeft - 1] == rest'
      ensures Deal(rest', rng.values, kj + per, per) == full[j + 1..]
      ensures RowDealt(i, j + 1, d0, full, rng.values, k0, per)
    {
      ghost var prev := dots[..];
      var x, t := DealDot(i, j, permute, numLeft, rng);
      DealAdvance(full, j, rest, rng.values, kj, per, x);
      rest' := RemoveAt(rest, x);
      assert kj + 1 == DelayDraw(k0, per, j);
      RowPlacedExtend(prev, dots[..], startPlane, endPlane, i, j, d0, full, rng.values, k0, per);
    }

    /** One pass of the loop over row i's dots: dot j is dealt and the
        loop's counters move on by one. */
    method DealStep(i: int, j: int, permute: array<int>, numLeft: int, rng: RandStream,
                    ghost rest: seq<int>, ghost d0: seq<Dot>, ghost full: seq<int>, ghost k0: nat, ghost per: nat,
                    ghost kj: nat)
      returns (j': int, numLeft': int, ghost rest': seq<int>, ghost kj': nat)
      requires Valid() && |d0| == NUM_DOTS && 0 <= i < MIG_SIDE && 0 <= j < MIG_SIDE && |full| == MIG_SIDE
      requires ValidRand(rng.values) && per == 1 + DotDraws(startPlane)
      requires permute.Length == MIG_SIDE && numLeft == MIG_SIDE - j
      requires kj == k0 + per * j && rng.next == kj && permute[..numLeft] == rest
      requires Deal(rest, rng.values, kj, per) == full[j..]
      requires RowDealt(i, j, d0, full, rng.values, k0, per)
      modifies dots, rng, permute
      ensures j' == j + 1 && 0 <= j' <= MIG_SIDE && numLeft' == MIG_SIDE - j'
      ensures kj' == k0 + per * j' && rng.next == kj' && permute[..numLeft'] == rest'
      ensures Deal(rest', rng.values, kj', per) == full[j'..]
      ensures RowDealt(i, j', d0, full, rng.values, k0, per)
    {
      rest' := DealPlace(i, j, permute, numLeft, rng, rest, d0, full, k0, per, kj);
      MulSucc(per, j);
      j', numLeft', kj' := j + 1, numLeft - 1, kj + per;
    }

    /** The permute array of a row before its first draw: 0 .. 7. */
    static method NewPermute() returns (permute: array<int>)
      ensures fresh(permute) && permute.Length == MIG_SIDE && permute[..MIG_SIDE] == Iota(MIG_SIDE)
    {
      permute := new int[MIG_SIDE](j => j);
      assert permute[..MIG_SIDE] == Iota(MIG_SIDE);
    }

    /** The loop over row i's dots, from the identity permute array: row i
        ends up dealt with the targets Deal(0 .. 7) and the rand() values
        from k0 on. */
    method DealLoop(i: int, rng: RandStream, ghost d0: seq<Dot>, ghost full: seq<int>, ghost k0: nat, ghost per: nat)
      requires Valid() && 0 <= i < MIG_SIDE && ValidRand(rng.values) && d0 == dots[..]
      requires per == 1 + DotDraws(startPlane) && k0 == rng.next
      requires full == Deal(Iota(MIG_SIDE), rng.values, k0, per)
      modifies dots, rng
      ensures rng.next == k0 + per * MIG_SIDE
      ensures RowDealt(i, MIG_SIDE, d0, full, rng.values, k0, per)
    {
      var permute := NewPermute();
      assert full[0..] == full;
      var numLeft := MIG_SIDE;
      ghost var rest := Iota(MIG_SIDE);
      ghost var kj := k0;
      var j := 0;
      while j < MIG_SIDE
        invariant 0 <= j <= MIG_SIDE && numLeft == MIG_SIDE - j
        invariant kj == k0 + per * j && rng.next == kj && permute[..numLeft] == rest
        invariant Deal(rest, rng.values, kj, per) == full[j..]
        invariant RowDealt(i, j, d0, full, rng.values, k0, per)
      {
        j, numLeft, rest, kj := DealStep(i, j, permute, numLeft, rng, rest, d0, full, k0, per, kj);
      }
    }

    /** Row i of a new round: each dot takes its target from the permute
        array by irand(num_left), the last remaining value filling the gap. */
    method DealRow(i: int, rng: RandStream)
      requires Valid() && 0 <= i < MIG_SIDE && ValidRand(rng.values)
      modifies dots, rng
      ensures rng.next == old(rng.next) + MIG_SIDE * (1 + DotDraws(startPlane))
      ensures forall n :: MIG_SIDE * i <= n < MIG_SIDE * i + MIG_SIDE ==>
        dots[n] == PlacedDot(old(dots[n]), startPlane, endPlane, i, n - MIG_SIDE * i,
          Deal(Iota(MIG_SIDE), rng.values, old(rng.next), 1 + DotDraws(startPlane))[n - MIG_SIDE * i],
          rng.values, DelayDraw(old(rng.next), 1 + DotDraws(startPlane), n - MIG_SIDE * i))
      ensures forall n :: 0 <= n < NUM_DOTS && !(MIG_SIDE * i <= n < MIG_SIDE * i + MIG_SIDE) ==>
        dots[n] == old(dots[n])
    {
      ghost var per := 1 + DotDraws(startPlane);
      ghost var k0 := rng.next;
      ghost var d0 := dots[..];
      ghost var full := Deal(Iota(MIG_SIDE), rng.values, k0, per);
      DealLoop(i, rng, d0, full, k0, per);
    }

    /** All eight rows of a new round, drawing from the current rand()
        position on. */
    method DealRound(rng: RandStream)
      requires Valid() && ValidRand(rng.values)
      modifies dots, rng
      ensures rng.next == RowStart(startPlane, old(rng.next), MIG_SIDE)
      ensures forall n :: 0 <= n < NUM_DOTS ==>
        dots[n] == RoundDot(old(dots[n]), startPlane, endPlane, rng.values, old(rng.next), n)
    {
      ghost var kc := rng.next;
      ghost var d0 := dots[..];
      var i := 0;
      while i < MIG_SIDE
        invariant 0 <= i <= MIG_SIDE
        invariant rng.next == RowStart(startPlane, kc, i)
        invariant forall n :: 0 <= n < MIG_SIDE * i ==>
          dots[n] == RoundDot(d0[n], startPlane, endPlane, rng.values, kc, n)
        invariant forall n :: MIG_SIDE * i <= n < NUM_DOTS ==> dots[n] == d0[n]
      {
        ghost var prev := dots[..];
        DealRow(i, rng);
        forall n | 0 <= n < MIG_SIDE * i + MIG_SIDE
          ensures dots[n] == RoundDot(d0[n], startPlane, endPlane, rng.values, kc, n)
        {
          if n < MIG_SIDE * i {
            assert dots[n] == prev[n];
          } else {
            DivModUnique(n, MIG_SIDE, i, n - MIG_SIDE * i);
            assert prev[n] == d0[n];
          }
        }
        RowStartSucc(startPlane, kc, i);
        i := i + 1;
      }
    }

    /** A new round: start where the last one ended, choose the next face,
        advance the text index, and deal all eight rows. */
    method NewRound(rng: RandStream) returns (ghost kc: nat)
      requires Valid() && ValidRand(rng.values) && OtherAxisAhead(endPlane, rng.values, rng.next)
      modifies this, dots, rng
      ensures Valid() && stage1 == 1 && startPlane == old(endPlane)
      ensures endPlane / 2 != startPlane / 2 && old(rng.next) < kc
      ensures endPlane == Irand(6, rng.values(kc - 1))
      ensures forall n :: old(rng.next) <= n < kc - 1 ==> Irand(6, rng.values(n)) / 2 == startPlane / 2
      ensures textIdx == TextAfterRound(old(textIdx)) && wait == old(wait) && baseFrame == old(baseFrame)
      ensures rng.next == RowStart(startPlane, kc, MIG_SIDE)
      ensures forall n :: 0 <= n < NUM_DOTS ==>
        dots[n] == RoundDot(old(dots[n]), startPlane, endPlane, rng.values, kc, n)
    {
      stage1 := 1;
      startPlane := endPlane;
      endPlane := ChooseEndPlane(startPlane, rng);
      kc := rng.next;
      textIdx := TextAfterRound(textIdx);
      DealRound(rng);
    }

    /** One dot of the second stage. */
    method PrepareDot(n: int, rng: RandStream)
      requires Valid() && 0 <= n < NUM_DOTS && ValidRand(rng.values)
      modifies dots, rng
      ensures dots[n] == SecondStageDot(old(dots[n]), endPlane, rng.values, old(rng.next))
      ensures forall n' :: 0 <= n' < NUM_DOTS && n' != n ==> dots[n'] == old(dots[n'])
      ensures rng.next == old(rng.next) + SecondStageDraws(endPlane)
    {
      var delay := rng.NextIrand(START_SPREAD);
      var r := 0.0;
      if endPlane != 0 {
        r := rng.NextDrand(V_RANGE);
      }
      dots[n] := dots[n].(delay := delay, v := EndSpeed(endPlane, r), target := FaceLevel(endPlane));
    }

    /** Every dot prepared for the second stage, in order. */
    method PrepareAll(rng: RandStream)
      requires Valid() && ValidRand(rng.values)
      modifies dots, rng
      ensures rng.next == old(rng.next) + NUM_DOTS * SecondStageDraws(endPlane)
      ensures forall n :: 0 <= n < NUM_DOTS ==>
        dots[n] == SecondStageDot(old(dots[n]), endPlane, rng.values, old(rng.next) + SecondStageDraws(endPlane) * n)
    {
      ghost var k0 := rng.next;
      ghost var per := SecondStageDraws(endPlane);
      ghost var d0 := dots[..];
      var n := 0;
      while n < NUM_DOTS
        invariant 0 <= n <= NUM_DOTS
        invariant rng.next == k0 + per * n
        invariant forall n' :: 0 <= n' < n ==> dots[n'] == SecondStageDot(d0[n'], endPlane, rng.values, k0 + per * n')
        invariant forall n' :: n <= n' < NUM_DOTS ==> dots[n'] == d0[n']
      {
        PrepareDot(n, rng);
        assert per * (n + 1) == per * n + per;
        n := n + 1;
      }
    }

    /** The move to stage 2: every dot gets a new delay, a speed towards the
        end face and the end face's level as its target. */
    method StartStage2(rng: RandStream)
      requires Valid() && ValidRand(rng.values)
      modifies this, dots, rng
      ensures Valid() && stage1 == 0
      ensures startPlane == old(startPlane) && endPlane == old(endPlane) && textIdx == old(textIdx)
      ensures wait == old(wait) && baseFrame == old(baseFrame)
      ensures rng.next == old(rng.next) + NUM_DOTS * SecondStageDraws(endPlane)
      ensures forall n :: 0 <= n < NUM_DOTS ==>
        dots[n] == SecondStageDot(old(dots[n]), endPlane, rng.values, old(rng.next) + SecondStageDraws(endPlane) * n)
    {
      stage1 := 0;
      PrepareAll(rng);
    }

    /** One frame of movement, d frames into the stage, along face plane's
        axis: every dot takes its step; returns how many are still on their way. */
    method MoveDots(plane: int, d: int) returns (moving: int)
      requires Valid()
      modifies dots
      ensures forall n :: 0 <= n < NUM_DOTS ==> dots[n] == DotStep(old(dots[n]), plane, stage1, d).0
      ensures moving == CountMoving(old(dots[..]), plane, stage1, d)
    {
      ghost var d0 := dots[..];
      moving := 0;
      var n := 0;
      while n < NUM_DOTS
        invariant 0 <= n <= NUM_DOTS
        invariant forall n' :: 0 <= n' < n ==> dots[n'] == DotStep(d0[n'], plane, stage1, d).0
        invariant forall n' :: n <= n' < NUM_DOTS ==> dots[n'] == d0[n']
        invariant moving == CountMoving(d0[..n], plane, stage1, d)
      {
        var (dot', still) := DotStep(dots[n], plane, stage1, d);
        CountMovingAppend(d0[..n], [d0[n]], plane, stage1, d);
        assert d0[..n + 1] == d0[..n] + [d0[n]];
        dots[n] := dot';
        if still {
          moving := moving + 1;
        }
        n := n + 1;
      }
      assert d0[..NUM_DOTS] == d0;
    }

    /** The flip that ends stage 1: the stage's clock restarts at frame and
        stage 2 begins with every dot prepared, drawing in dot order. */
    method FlipToStage2(frame: u32, rng: RandStream)
      requires Valid() && ValidRand(rng.values) && stage1 == 1
      modifies this, dots, rng
      ensures Valid() && baseFrame == WrapInt(frame) && wait == 0 && stage1 == 0
      ensures Stage2Flipped(old(startPlane), old(endPlane), old(textIdx), old(rng.next), old(dots[..]),
                            startPlane, endPlane, textIdx, rng.next, rng.values, dots[..])
    {
      ghost var d0 := dots[..];
      baseFrame := WrapInt(frame);
      wait := 0;
      StartStage2(rng);
      assert dots[..] == SecondStageDots(d0, endPlane, rng.values, old(rng.next));
    }

    /** The flip that ends stage 2: the stage's clock restarts at frame and
        a new round begins; kc is the rand() cursor after the draws that
        chose the end face. */
    method FlipToRound(frame: u32, rng: RandStream) returns (ghost kc: nat)
      requires Valid() && ValidRand(rng.values) && stage1 == 0
      requires OtherAxisAhead(endPlane, rng.values, rng.next)
      modifies this, dots, rng
      ensures Valid() && baseFrame == WrapInt(frame) && wait == 0 && stage1 == 1
      ensures RoundFlipped(old(endPlane), old(textIdx), old(rng.next), old(dots[..]),
                           startPlane, endPlane, textIdx, rng.next, kc, rng.values, dots[..])
    {
      ghost var d0 := dots[..];
      baseFrame := WrapInt(frame);
      wait := 0;
      kc := NewRound(rng);
      assert dots[..] == RoundDots(d0, startPlane, endPlane, rng.values, kc);
    }

    /** an_migrating_dots without the drawing: after a pause of more than
        STAGE_PAUSE still frames the stage flips, then every dot
        moves, and a frame in which none moved lengthens the pause. mid is
        the dots before they move; on a new round kc is the rand() cursor
        after the draws that chose the end face. */
    method Tick(frame: u32, rng: RandStream) returns (moving: int, ghost mid: seq<Dot>, ghost kc: nat)
      requires Valid() && ValidRand(rng.values)
      requires wait > STAGE_PAUSE && stage1 == 0 ==> OtherAxisAhead(endPlane, rng.values, rng.next)
      modifies this, dots, rng
      ensures Valid() && |mid| == NUM_DOTS
      ensures old(wait) > STAGE_PAUSE ==> baseFrame == WrapInt(frame) && stage1 == 1 - old(stage1)
      ensures old(wait) > STAGE_PAUSE && old(stage1) == 0 ==>
        RoundFlipped(old(endPlane), old(textIdx), old(rng.next), old(dots[..]),
                     startPlane, endPlane, textIdx, rng.next, kc, rng.values, mid)
      ensures old(wait) > STAGE_PAUSE && old(stage1) == 1 ==>
        Stage2Flipped(old(startPlane), old(endPlane), old(textIdx), old(rng.next), old(dots[..]),
                      startPlane, endPlane, textIdx, rng.next, rng.values, mid)
      ensures old(wait) <= STAGE_PAUSE ==>
        && baseFrame == old(baseFrame) && stage1 == old(stage1) && mid == old(dots[..])
        && startPlane == old(startPlane) && endPlane == old(endPlane) && rng.next == old(rng.next)
        && textIdx == old(textIdx)
      ensures var plane := if stage1 == 1 then startPlane else endPlane;
        && moving == CountMoving(mid, plane, stage1, StageClock(frame, baseFrame))
        && forall n :: 0 <= n < NUM_DOTS ==> dots[n] == DotStep(mid[n], plane, stage1, StageClock(frame, baseFrame)).0
      ensures wait == (if old(wait) > STAGE_PAUSE then 0 else old(wait)) + (if moving == 0 then 1 else 0)
    {
      kc := rng.next;
      if wait > STAGE_PAUSE {
        if stage1 == 1 {
          FlipToStage2(frame, rng);
        } else {
          kc := FlipToRound(frame, rng);
        }
      }
      mid := dots[..];
      var plane := if stage1 == 1 then startPlane else endPlane;
      moving := MoveDots(plane, StageClock(frame, baseFrame));
      if moving == 0 {
        wait := wait + 1;
      }
    }
  }
}
