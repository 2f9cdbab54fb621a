/** The fireworks animation of both generators: a pool of at most 10 rockets
    that wait on the ground with a glowing fuse, climb and explode, and a pool
    of at most 300 embers that fly, fall and fade. Positions and velocities are
    reals; every random number comes from the rand() stream in the order the
    animation draws it. */
module Fireworks {
  import opened Common
  import opened FrameLayout

  /** A position or velocity (x radial, y angular, z height). */
  datatype Pos = Pos(x: real, y: real, z: real)

  function Add(a: Pos, b: Pos): Pos
  {
    Pos(a.x + b.x, a.y + b.y, a.z + b.z)
  }

  /** A rocket: the last three positions (newest first), velocity, burst
      height, launch time and delay, and the fuse-glow timer. */
  datatype Rocket = Rocket(hist: seq<Pos>, v: Pos, s: real, baseFrame: int, delay: int,
                           glBase: int, glPeriod: int, glAmp: real)

  /** An ember: position, velocity, hue, birth time, linger delay on the
      ground, and fade rate. */
  datatype Ember = Ember(p: Pos, v: Pos, hue: real, baseFrame: int, delay: int, fade: real)

  /** The float functions the animation calls: sqrt, and the sphere mapping
      inside vrand that turns its two uniform draws into a vector of length V. */
  datatype Math = Math(sqrt: real -> real, sphere: (real, real) -> Pos)

  /** What differs between the two generators. */
  datatype Config = Config(dims: Dims, tangFactor: real, newFreq: int,
                           minHeight: real, maxHeight: real, resist: real,
                           xBase: real, xSpread: real, groundFrom: int, groundTo: int)

  predicate ValidConfig(c: Config)
  {
    && ValidDims(c.dims)
    && c.tangFactor > 0.0 && c.newFreq > 0
    && c.minHeight < c.maxHeight && c.xSpread > 0.0
    && 0 <= c.groundFrom <= c.groundTo <= c.dims.x
  }

  /** The first generator: 7 x 8 x 205, launch x in [1.8, 4.2], ground x 2..4. */
  const CONFIG1: Config := Config(TORUS1, 5.0, 25, 4.0, 7.0, 0.11, 1.8, 2.4, 2, 5)

  /** The second generator: 14 x 16 x 205, launch x in [4, 11], ground x 5..13. */
  const CONFIG2: Config := Config(TORUS2, 2.0, 14, 8.0, 15.0, 0.06, 4.0, 7.0, 5, 14)

  const MAX_PHASE1: int := 10
  const MAX_PHASE2: int := 300
  const G: real := 0.045
  const V: real := 0.5
  const F_PI: real := 3.141592654
  const MIN_START_DELAY: int := 32
  const MAX_START_DELAY: int := 67
  const MIN_END_DELAY: int := 50
  const MAX_END_DELAY: int := 100
  const MIN_FADE: real := 0.22 / 15.0
  const MAX_FADE: real := 0.27 / 15.0

  lemma ConfigsValid()
    ensures ValidConfig(CONFIG1) && ValidConfig(CONFIG2)
  {
  }

  predicate WellFormed(r: Rocket)
  {
    |r.hist| == 3
  }

  predicate AllWellFormed(rs: seq<Rocket>)
  {
    forall i :: 0 <= i < |rs| ==> WellFormed(rs[i])
  }

  // ---------------------------------------------------------------------
  // History shift

  /** ut_fireworks_shiftem: entry j-1 moves to entry j for j = 2, 1; entry 0 stays. */
  function Shifted(h: seq<Pos>): (h': seq<Pos>)
    requires |h| == 3
    ensures |h'| == 3 && h'[0] == h[0] && h'[1] == h[0] && h'[2] == h[1]
  {
    [h[0], h[0], h[1]]
  }

  /** The two shifts at launch leave all three entries at the launch position. */
  lemma LaunchHistoryUniform(h: seq<Pos>, p: Pos)
    requires |h| == 3
    ensures Shifted(Shifted(h[0 := p])) == [p, p, p]
  {
  }

  // ---------------------------------------------------------------------
  // Launch

  /** A length along the angle in position units: the angular axis is
      TANG_FACTOR times finer than the other two. */
  function Angular(a: real, c: Config): real
    requires c.tangFactor > 0.0
  {
    a / c.tangFactor
  }

  /** Where a rocket is launched: x in [X_BASE, X_BASE + X_SPREAD], y anywhere
      round the torus, on the ground (two draws). */
  function LaunchPos(c: Config, rand: RandOracle, k: nat): (p: Pos)
    requires ValidConfig(c) && ValidRand(rand)
    ensures c.xBase <= p.x <= c.xBase + c.xSpread && p.z == 0.0
  {
    Pos(c.xBase + Drand(c.xSpread, rand(k)), Drand(Angular(c.dims.tang as real, c), rand(k + 1)), 0.0)
  }

  /** A rocket's flight: velocity (vz = sqrt(2 g s), so that it peaks at
      height s), burst height s, and fuse delay (four draws). */
  function Flight(c: Config, m: Math, rand: RandOracle, k: nat): (res: (Pos, real, int))
    requires ValidConfig(c) && ValidRand(rand)
    ensures c.minHeight <= res.1 <= c.maxHeight
    ensures MIN_START_DELAY <= res.2 < MAX_START_DELAY
    ensures res.0.z == m.sqrt(2.0 * G * res.1)
  {
    var vx := Drand(0.35, rand(k)) - 0.175;
    var vy := Drand(Angular(0.35, c), rand(k + 1)) - Angular(0.175, c);
    var s := c.minHeight + Drand(c.maxHeight - c.minHeight, rand(k + 2));
    var delay := MIN_START_DELAY + Irand(MAX_START_DELAY - MIN_START_DELAY, rand(k + 3));
    (Pos(vx, vy, m.sqrt(2.0 * G * s)), s, delay)
  }

  /** A new rocket in a slot that held `stale`, and the next rand() position:
      x, y, vx, vy, burst height and delay take six draws. Fields the launch
      does not set keep the slot's old values. */
  function NewRocket(stale: Rocket, frame: int, c: Config, m: Math, rand: RandOracle, k: nat)
    : (res: (Rocket, nat))
    requires ValidConfig(c) && ValidRand(rand) && WellFormed(stale)
    ensures res.1 == k + 6 && WellFormed(res.0)
    ensures res.0.hist[0] == res.0.hist[1] == res.0.hist[2] && res.0.hist[0].z == 0.0
    ensures MIN_START_DELAY <= res.0.delay < MAX_START_DELAY
    ensures c.minHeight <= res.0.s <= c.maxHeight
    ensures res.0.baseFrame == frame && res.0.glBase == frame && res.0.glPeriod == 0
  {
    var p := LaunchPos(c, rand, k);
    LaunchHistoryUniform(stale.hist, p);
    var (v, s, delay) := Flight(c, m, rand, k + 2);
    (stale.(hist := Shifted(Shifted(stale.hist[0 := p])), v := v, s := s, baseFrame := frame,
            delay := delay, glBase := frame, glPeriod := 0),
     k + 6)
  }

  /** The launch decision: always when no rocket is in flight, otherwise when
      the pool has room and irand(new_freq) comes out 0 (that draw is only
      made when the pool is non-empty and has room). */
  function Launch(rs: seq<Rocket>, stale: Rocket, frame: int, c: Config, m: Math,
                  rand: RandOracle, k: nat): (res: (seq<Rocket>, nat))
    requires ValidConfig(c) && ValidRand(rand) && WellFormed(stale)
  {
    if |rs| == 0 then
      var (r, k') := NewRocket(stale, frame, c, m, rand, k);
      ([r], k')
    else if |rs| < MAX_PHASE1 then
      if Irand(c.newFreq, rand(k)) == 0 then
        var (r, k') := NewRocket(stale, frame, c, m, rand, k + 1);
        (rs + [r], k')
      else (rs, k + 1)
    else (rs, k)
  }

  /** A rocket is added exactly when the pool is empty, or has room and the
      draw is 0; it is appended, and the pool never exceeds its capacity. */
  lemma LaunchAddsAtMostOne(rs: seq<Rocket>, stale: Rocket, frame: int, c: Config, m: Math,
                            rand: RandOracle, k: nat)
    requires ValidConfig(c) && ValidRand(rand) && WellFormed(stale)
    requires |rs| <= MAX_PHASE1 && AllWellFormed(rs)
    ensures var (rs', _) := Launch(rs, stale, frame, c, m, rand, k);
      && |rs'| <= MAX_PHASE1 && AllWellFormed(rs')
      && rs'[..|rs|] == rs
      && (|rs'| == |rs| + 1 <==>
            |rs| == 0 || (|rs| < MAX_PHASE1 && Irand(c.newFreq, rand(k)) == 0))
      && (|rs'| == |rs| || |rs'| == |rs| + 1)
      && (|rs'| == |rs| + 1 ==>
            rs'[|rs|].baseFrame == frame && MIN_START_DELAY <= rs'[|rs|].delay <= MAX_START_DELAY - 1)
  {
  }

  // ---------------------------------------------------------------------
  // Rocket phase

  /** (frame - base_frame) in uint32_t: true while the fuse still burns. */
  predicate Waiting(r: Rocket, frame: int)
  {
    (frame - r.baseFrame) % U32 < r.delay
  }

  /** A launched rocket explodes once it climbs above its burst height. */
  predicate Exploding(r: Rocket, frame: int)
    requires WellFormed(r)
  {
    !Waiting(r, frame) && r.hist[0].z > r.s
  }

  /** The fuse glow: when the glow period has run out, a new one of 8 + irand(6)
      frames starts now with amplitude 0.7 + drand(0.3). */
  function Glow(r: Rocket, frame: int, rand: RandOracle, k: nat): (res: (Rocket, nat))
    requires ValidRand(rand)
    ensures res.0.hist == r.hist && res.0.v == r.v && res.0.s == r.s
    ensures res.0.baseFrame == r.baseFrame && res.0.delay == r.delay
    ensures res.1 == k || res.1 == k + 2
    ensures res.1 == k + 2 ==> 8 <= res.0.glPeriod <= 13 && res.0.glBase == frame
  {
    if (frame - r.glBase) % U32 >= r.glPeriod then
      (r.(glBase := frame, glPeriod := 8 + Irand(6, rand(k)), glAmp := 0.7 + Drand(0.3, rand(k + 1))),
       k + 2)
    else (r, k)
  }

  /** One frame of climbing: shift the history, move by the velocity, and let
      gravity slow the ascent. */
  function Climb(r: Rocket): (r': Rocket)
    requires WellFormed(r)
    ensures WellFormed(r')
  {
    var h := Shifted(r.hist);
    r.(hist := h[0 := Add(h[0], r.v)], v := r.v.(z := r.v.z - G))
  }

  /** One ember born from the rocket's burst: vrand's two draws give the
      direction, the hue is the common one unless that came out at 6 or more
      (then a fresh drand(6)), then the linger delay and fade rate. */
  function Spawn(r: Rocket, hue0: real, frame: int, m: Math, rand: RandOracle, k: nat)
    : (res: (Ember, nat))
    requires ValidRand(rand) && WellFormed(r)
    ensures res.0.p == r.hist[0] && res.0.baseFrame == frame
    ensures MIN_END_DELAY <= res.0.delay < MAX_END_DELAY
    ensures res.1 == k + 4 || res.1 == k + 5
  {
    var dir := m.sphere(Drand(2.0 * F_PI, rand(k)), Drand(2.0, rand(k + 1)) - 1.0);
    var k1 := k + 2;
    var (hue, k2) := if hue0 < 6.0 then (hue0, k1) else (Drand(6.0, rand(k1)), k1 + 1);
    var delay := MIN_END_DELAY + Irand(MAX_END_DELAY - MIN_END_DELAY, rand(k2));
    var fade := MIN_FADE + Drand(MAX_FADE - MIN_FADE, rand(k2 + 1));
    (Ember(r.hist[0], Add(r.v, dir), hue, frame, delay, fade), k2 + 2)
  }

  function Min(a: int, b: int): int
  {
    if a < b then a else b
  }

  /** The burst loop: up to `left` embers, stopping when the ember pool is full. */
  function SpawnLoop(r: Rocket, es: seq<Ember>, left: int, hue0: real, frame: int, m: Math,
                     rand: RandOracle, k: nat): (res: (seq<Ember>, nat))
    requires ValidRand(rand) && WellFormed(r) && |es| <= MAX_PHASE2
    ensures |res.0| == |es| + Min(if left < 0 then 0 else left, MAX_PHASE2 - |es|)
    ensures res.0[..|es|] == es
    ensures forall j :: |es| <= j < |res.0| ==>
      res.0[j].p == r.hist[0] && res.0[j].baseFrame == frame &&
      MIN_END_DELAY <= res.0[j].delay < MAX_END_DELAY
    ensures res.1 >= k
    decreases if left < 0 then 0 else left
  {
    if left <= 0 || |es| >= MAX_PHASE2 then (es, k)
    else
      var (e, k') := Spawn(r, hue0, frame, m, rand, k);
      var (es', k'') := SpawnLoop(r, es + [e], left - 1, hue0, frame, m, rand, k');
      assert es'[..|es|] == (es'[..|es| + 1])[..|es|];
      (es', k'')
  }

  /** One ember of the loop, while the pool has room: the first spawn
      joins the pool and the rest of the loop draws after it. */
  lemma SpawnLoopStep(r: Rocket, es: seq<Ember>, left: int, hue0: real, frame: int, m: Math,
                      rand: RandOracle, k: nat)
    requires ValidRand(rand) && WellFormed(r) && |es| < MAX_PHASE2 && left > 0
    ensures var (e, k') := Spawn(r, hue0, frame, m, rand, k);
      SpawnLoop(r, es, left, hue0, frame, m, rand, k) == SpawnLoop(r, es + [e], left - 1, hue0, frame, m, rand, k')
  {
  }

  /** Kaboom: 10 + irand(20) embers requested, one common hue drawn. */
  function Burst(r: Rocket, es: seq<Ember>, frame: int, m: Math, rand: RandOracle, k: nat)
    : (res: (seq<Ember>, nat))
    requires ValidRand(rand) && WellFormed(r) && |es| <= MAX_PHASE2
  {
    var req := 10 + Irand(20, rand(k));
    var hue0 := Drand(6.5, rand(k + 1));
    SpawnLoop(r, es, req, hue0, frame, m, rand, k + 2)
  }

  /** A burst is the ember loop after its two draws. */
  lemma BurstStart(r: Rocket, es: seq<Ember>, frame: int, m: Math, rand: RandOracle, k: nat)
    requires ValidRand(rand) && WellFormed(r) && |es| <= MAX_PHASE2
    ensures Burst(r, es, frame, m, rand, k)
      == SpawnLoop(r, es, 10 + Irand(20, rand(k)), Drand(6.5, rand(k + 1)), frame, m, rand, k + 2)
  {
  }

  /** The ember loop stops when no ember is left to spawn or the pool is full. */
  lemma SpawnLoopDone(r: Rocket, es: seq<Ember>, left: int, hue0: real, frame: int, m: Math,
                      rand: RandOracle, k: nat)
    requires ValidRand(rand) && WellFormed(r) && |es| <= MAX_PHASE2 && (left <= 0 || |es| == MAX_PHASE2)
    ensures SpawnLoop(r, es, left, hue0, frame, m, rand, k) == (es, k)
  {
  }

  /** A burst requests 10 to 29 embers and adds exactly as many as fit, each at
      the rocket's position, with a linger delay in [50, 99]. */
  lemma BurstSize(r: Rocket, es: seq<Ember>, frame: int, m: Math, rand: RandOracle, k: nat)
    requires ValidRand(rand) && WellFormed(r) && |es| <= MAX_PHASE2
    ensures var req := 10 + Irand(20, rand(k));
      var (es', _) := Burst(r, es, frame, m, rand, k);
      && 10 <= req <= 29
      && |es'| == |es| + Min(req, MAX_PHASE2 - |es|) <= MAX_PHASE2
      && es'[..|es|] == es
      && forall j :: |es| <= j < |es'| ==>
           es'[j].p == r.hist[0] && MIN_END_DELAY <= es'[j].delay <= MAX_END_DELAY - 1
  {
  }

  /** One turn of the rocket loop on rocket i: a waiting rocket glows, an
      exploding one bursts and is replaced by the last rocket (the index stays,
      so that rocket is processed next), a climbing one moves. Returns the
      rockets, the embers, the next index and the next rand() position. */
  function RocketTurn(rs: seq<Rocket>, es: seq<Ember>, i: nat, frame: int, m: Math,
                      rand: RandOracle, k: nat): (res: (seq<Rocket>, seq<Ember>, nat, nat))
    requires ValidRand(rand) && AllWellFormed(rs) && i < |rs| && |es| <= MAX_PHASE2
    ensures AllWellFormed(res.0) && res.2 <= |res.0| && |res.0| - res.2 < |rs| - i
    ensures |es| <= |res.1| <= MAX_PHASE2 && res.1[..|es|] == es && |res.0| <= |rs|
    ensures res.2 == i + 1 <==> !Exploding(rs[i], frame)
  {
    var r := rs[i];
    if Waiting(r, frame) then
      var (r', k') := Glow(r, frame, rand, k);
      (rs[i := r'], es, i + 1, k')
    else if r.hist[0].z > r.s then
      var (es', k') := Burst(r, es, frame, m, rand, k);
      BurstSize(r, es, frame, m, rand, k);
      (RemoveAt(rs, i), es', i, k')
    else
      (rs[i := Climb(r)], es, i + 1, k)
  }

  /** The rocket loop from index i on. */
  function RocketSweep(rs: seq<Rocket>, es: seq<Ember>, i: nat, frame: int, m: Math,
                       rand: RandOracle, k: nat): (res: (seq<Rocket>, seq<Ember>, nat))
    requires ValidRand(rand) && AllWellFormed(rs) && i <= |rs| && |es| <= MAX_PHASE2
    ensures AllWellFormed(res.0) && |es| <= |res.1| <= MAX_PHASE2 && |res.0| <= |rs|
    ensures res.1[..|es|] == es
    decreases |rs| - i
  {
    if i == |rs| then (rs, es, k)
    else
      var (rs', es', i', k') := RocketTurn(rs, es, i, frame, m, rand, k);
      var res := RocketSweep(rs', es', i', frame, m, rand, k');
      assert res.1[..|es|] == (res.1[..|es'|])[..|es|];
      res
  }

  /** How many of the rockets are exploding this frame. */
  function CountExploding(rs: seq<Rocket>, frame: int): nat
    requires AllWellFormed(rs)
  {
    if rs == [] then 0
    else (if Exploding(rs[0], frame) then 1 else 0) + CountExploding(rs[1..], frame)
  }

  lemma CountExplodingAppend(a: seq<Rocket>, b: seq<Rocket>, frame: int)
    requires AllWellFormed(a) && AllWellFormed(b)
    ensures AllWellFormed(a + b)
    ensures CountExploding(a + b, frame) == CountExploding(a, frame) + CountExploding(b, frame)
  {
    if a != [] {
      assert (a + b)[0] == a[0];
      assert (a + b)[1..] == a[1..] + b;
      CountExplodingAppend(a[1..], b, frame);
    } else {
      assert a + b == b;
    }
  }

  /** What is left to process after removing slot i: the former last element,
      then the elements between. */
  lemma RemoveAtTail<T>(s: seq<T>, i: int)
    requires 0 <= i < |s|
    ensures i < |s| - 1 ==> s[i..] == [s[i]] + s[i + 1..|s| - 1] + [s[|s| - 1]]
    ensures i < |s| - 1 ==> RemoveAt(s, i)[i..] == [s[|s| - 1]] + s[i + 1..|s| - 1]
    ensures i == |s| - 1 ==> s[i..] == [s[i]] && RemoveAt(s, i)[i..] == []
  {
  }

  /** The rocket pass removes exactly the rockets that were exploding: the
      processed ones before i are never exploding, and every unprocessed one
      is judged on its state from before the pass. */
  lemma {:induction false} RocketSweepRemovesExploding(rs: seq<Rocket>, es: seq<Ember>, i: nat,
                                                       frame: int, m: Math, rand: RandOracle, k: nat)
    requires ValidRand(rand) && AllWellFormed(rs) && i <= |rs| && |es| <= MAX_PHASE2
    ensures |RocketSweep(rs, es, i, frame, m, rand, k).0| == |rs| - CountExploding(rs[i..], frame)
    decreases |rs| - i
  {
    if i < |rs| {
      var r := rs[i];
      var (rs', es', i', k') := RocketTurn(rs, es, i, frame, m, rand, k);
      RocketSweepRemovesExploding(rs', es', i', frame, m, rand, k');
      if Waiting(r, frame) {
        TailCount(rs, i, rs'[i], frame);
      } else if r.hist[0].z > r.s {
        RemovedCount(rs, i, frame);
      } else {
        TailCount(rs, i, Climb(r), frame);
      }
    }
  }

  /** Replacing a non-exploding rocket at i by a processed one leaves the
      count of the rest unchanged. */
  lemma TailCount(rs: seq<Rocket>, i: nat, r': Rocket, frame: int)
    requires AllWellFormed(rs) && i < |rs| && WellFormed(r') && !Exploding(rs[i], frame)
    ensures AllWellFormed(rs[i := r'])
    ensures CountExploding(rs[i..], frame) == CountExploding(rs[i := r'][i + 1..], frame)
  {
    assert rs[i..] == [rs[i]] + rs[i + 1..];
    assert rs[i := r'][i + 1..] == rs[i + 1..];
    CountExplodingAppend([rs[i]], rs[i + 1..], frame);
  }

  /** Removing an exploding rocket at i lowers the count of the rest by one. */
  lemma RemovedCount(rs: seq<Rocket>, i: nat, frame: int)
    requires AllWellFormed(rs) && i < |rs| && Exploding(rs[i], frame)
    ensures AllWellFormed(RemoveAt(rs, i))
    ensures CountExploding(rs[i..], frame) == 1 + CountExploding(RemoveAt(rs, i)[i..], frame)
  {
    RemoveAtTail(rs, i);
    if i < |rs| - 1 {
      var mid, last := rs[i + 1..|rs| - 1], rs[|rs| - 1];
      CountExplodingAppend([rs[i]] + mid, [last], frame);
      CountExplodingAppend([rs[i]], mid, frame);
      CountExplodingAppend([last], mid, frame);
    }
  }

  // ---------------------------------------------------------------------
  // Ember phase

  /** The brightness the fade has reached: 1 - fade_factor * age, not below 0. */
  function Value(e: Ember, frame: int): (v: real)
    ensures 0.0 <= v <= 1.0 || (e.fade < 0.0 && v > 1.0)
  {
    var v := 1.0 - e.fade * ((frame - e.baseFrame) % U32) as real;
    if v < 0.0 then 0.0 else v
  }

  /** Air resistance and gravity on an ember's velocity over one frame. */
  function Drag(v: Pos, resist: real): Pos
  {
    Pos(v.x - resist * v.x, v.y - resist * v.y, v.z - (resist * v.z + G))
  }

  /** One frame of an ember: it moves, air resistance and gravity act on the
      velocity; on or below the ground it is put on the ground, its delay
      counts down (in uint32_t), and it dies when the delay was 0 or it has
      faded to 0.05 or less. */
  function EmberStep(e: Ember, frame: int, c: Config): (res: (Ember, bool))
    ensures res.1 ==> e.p.z + e.v.z <= 0.0
    ensures res.1 <==> e.p.z + e.v.z <= 0.0 && (e.delay == 0 || Value(e, frame) <= 0.05)
    ensures !res.1 && e.p.z + e.v.z <= 0.0 ==> res.0.p.z == 0.0 && res.0.delay == (e.delay - 1) % U32
    ensures e.p.z + e.v.z > 0.0 ==> res.0.delay == e.delay && res.0.p == Add(e.p, e.v)
  {
    var p := Add(e.p, e.v);
    var v := Drag(e.v, c.resist);
    if p.z <= 0.0 then
      var e' := e.(p := p.(z := 0.0), v := v, delay := (e.delay - 1) % U32);
      (e', e.delay == 0 || Value(e, frame) <= 0.05)
    else (e.(p := p, v := v), false)
  }

  /** One turn of the ember loop on ember i: a dead ember is replaced by the
      last one (the index stays), a live one is stepped and the index moves on. */
  function EmberTurn(es: seq<Ember>, i: nat, frame: int, c: Config): (res: (seq<Ember>, nat))
    requires i < |es|
    ensures i <= res.1 <= |res.0| && |res.0| - res.1 < |es| - i && res.0[..i] == es[..i]
    ensures res.1 == i + 1 <==> !EmberStep(es[i], frame, c).1
  {
    var (e', dead) := EmberStep(es[i], frame, c);
    if dead then (RemoveAt(es, i), i) else (es[i := e'], i + 1)
  }

  /** The ember loop from index i on. */
  function EmberSweep(es: seq<Ember>, i: nat, frame: int, c: Config): (es': seq<Ember>)
    requires i <= |es|
    ensures i <= |es'| <= |es| && es'[..i] == es[..i]
    decreases |es| - i
  {
    if i == |es| then es
    else
      var (es1, i1) := EmberTurn(es, i, frame, c);
      var r := EmberSweep(es1, i1, frame, c);
      assert r[..i] == (r[..i1])[..i];
      r
  }

  /** The reference: each ember stepped, dead ones dropped, order kept. */
  function Survivors(es: seq<Ember>, frame: int, c: Config): seq<Ember>
  {
    if es == [] then []
    else
      var (e', dead) := EmberStep(es[0], frame, c);
      (if dead then [] else [e']) + Survivors(es[1..], frame, c)
  }

  lemma SurvivorsAppend(a: seq<Ember>, b: seq<Ember>, frame: int, c: Config)
    ensures Survivors(a + b, frame, c) == Survivors(a, frame, c) + Survivors(b, frame, c)
  {
    if a != [] {
      assert (a + b)[0] == a[0];
      assert (a + b)[1..] == a[1..] + b;
      SurvivorsAppend(a[1..], b, frame, c);
      var (e', dead) := EmberStep(a[0], frame, c);
      var h: seq<Ember> := if dead then [] else [e'];
      calc {
        Survivors(a + b, frame, c);
        h + Survivors(a[1..] + b, frame, c);
        h + (Survivors(a[1..], frame, c) + Survivors(b, frame, c));
        (h + Survivors(a[1..], frame, c)) + Survivors(b, frame, c);
        Survivors(a, frame, c) + Survivors(b, frame, c);
      }
    } else {
      assert a + b == b;
    }
  }

  /** Removing a dying ember at i leaves the survivors of the rest unchanged,
      up to order. */
  lemma SurvivorsAfterRemove(es: seq<Ember>, i: nat, frame: int, c: Config)
    requires i < |es| && EmberStep(es[i], frame, c).1
    ensures multiset(Survivors(es[i..], frame, c)) == multiset(Survivors(RemoveAt(es, i)[i..], frame, c))
  {
    RemoveAtTail(es, i);
    SurvivorsAppend([es[i]], es[i + 1..], frame, c);
    assert es[i..] == [es[i]] + es[i + 1..];
    if i < |es| - 1 {
      var mid, last := es[i + 1..|es| - 1], es[|es| - 1];
      assert es[i + 1..] == mid + [last];
      SurvivorsAppend(mid, [last], frame, c);
      SurvivorsAppend([last], mid, frame, c);
    }
  }

  /** Stepping a surviving ember at i moves it from the unprocessed part to the
      processed part. */
  lemma SurvivorsAfterStep(es: seq<Ember>, i: nat, frame: int, c: Config)
    requires i < |es| && !EmberStep(es[i], frame, c).1
    ensures var es' := es[i := EmberStep(es[i], frame, c).0];
      multiset(es[..i]) + multiset(Survivors(es[i..], frame, c))
      == multiset(es'[..i + 1]) + multiset(Survivors(es'[i + 1..], frame, c))
  {
    var e' := EmberStep(es[i], frame, c).0;
    var es' := es[i := e'];
    assert es[i..] == [es[i]] + es[i + 1..];
    SurvivorsAppend([es[i]], es[i + 1..], frame, c);
    assert es'[..i + 1] == es[..i] + [e'];
    assert es'[i + 1..] == es[i + 1..];
  }

  /** The pass keeps exactly the surviving embers, each stepped once; only
      their order differs from the reference. */
  lemma {:induction false} EmberSweepKeepsSurvivors(es: seq<Ember>, i: nat, frame: int, c: Config)
    requires i <= |es|
    ensures multiset(EmberSweep(es, i, frame, c))
         == multiset(es[..i]) + multiset(Survivors(es[i..], frame, c))
    decreases |es| - i
  {
    if i < |es| {
      var (e', dead) := EmberStep(es[i], frame, c);
      assert EmberSweep(es, i, frame, c)
          == EmberSweep(EmberTurn(es, i, frame, c).0, EmberTurn(es, i, frame, c).1, frame, c);
      if dead {
        EmberSweepKeepsSurvivors(RemoveAt(es, i), i, frame, c);
        SurvivorsAfterRemove(es, i, frame, c);
      } else {
        EmberSweepKeepsSurvivors(es[i := e'], i + 1, frame, c);
        SurvivorsAfterStep(es, i, frame, c);
      }
    } else {
      assert es[..i] == es && es[i..] == [];
    }
  }

  // ---------------------------------------------------------------------
  // The whole step on the pools

  /** One call of an_fireworks on the pools: launch, rocket pass, ember pass.
      `stale` is the contents of the first unused rocket slot. */
  function AnimStep(rs: seq<Rocket>, es: seq<Ember>, stale: Rocket, frame: int, c: Config,
                    m: Math, rand: RandOracle, k: nat): (res: (seq<Rocket>, seq<Ember>, nat))
    requires ValidConfig(c) && ValidRand(rand) && WellFormed(stale)
    requires |rs| <= MAX_PHASE1 && AllWellFormed(rs) && |es| <= MAX_PHASE2
  {
    var (rs1, k1) := Launch(rs, stale, frame, c, m, rand, k);
    LaunchAddsAtMostOne(rs, stale, frame, c, m, rand, k);
    var (rs2, es2, k2) := RocketSweep(rs1, es, 0, frame, m, rand, k1);
    (rs2, EmberSweep(es2, 0, frame, c), k2)
  }

  /** After every call the rocket pool holds at most 10 and the ember pool at
      most 300; the rocket pool lost exactly its exploding rockets. */
  lemma AnimStepBounds(rs: seq<Rocket>, es: seq<Ember>, stale: Rocket, frame: int, c: Config,
                       m: Math, rand: RandOracle, k: nat)
    requires ValidConfig(c) && ValidRand(rand) && WellFormed(stale)
    requires |rs| <= MAX_PHASE1 && AllWellFormed(rs) && |es| <= MAX_PHASE2
    ensures var (rs', es', _) := AnimStep(rs, es, stale, frame, c, m, rand, k);
      |rs'| <= MAX_PHASE1 && |es'| <= MAX_PHASE2 && AllWellFormed(rs')
    ensures var (rs1, k1) := Launch(rs, stale, frame, c, m, rand, k);
      |AnimStep(rs, es, stale, frame, c, m, rand, k).0| == |rs1| - CountExploding(rs1, frame)
  {
    LaunchAddsAtMostOne(rs, stale, frame, c, m, rand, k);
    var (rs1, k1) := Launch(rs, stale, frame, c, m, rand, k);
    RocketSweepRemovesExploding(rs1, es, 0, frame, m, rand, k1);
    assert rs1[0..] == rs1;
  }

  // ---------------------------------------------------------------------
  // Drawing

  /** The angular index wrapped by one turn in either direction. */
  function TangWrap(y: int, n: int): (a: int)
    requires n > 0
    ensures a == y || a == y + n || a == y - n
    ensures 0 <= a < n <==> -n <= y < 2 * n
  {
    if y < 0 then y + n else if y >= n then y - n else y
  }

  /** A single wrap keeps the angle modulo one turn. */
  lemma TangWrapSameAngle(y: int, n: int)
    requires n > 0 && -n <= y < 2 * n
    ensures TangWrap(y, n) == y % n
  {
    if y < 0 {
      DivModUnique(y, n, -1, y + n);
    } else if y >= n {
      DivModUnique(y, n, 1, y - n);
    } else {
      DivModUnique(y, n, 0, y);
    }
  }

  /** A particle's angle in LED steps: its angular coordinate times
      TANG_FACTOR. */
  function Steps(yf: real, c: Config): real
  {
    yf * c.tangFactor
  }

  /** The cell ut_fireworks_setpix lights for a particle at (xf, yf, zf): x, the
      scaled angle and the height rounded, the angle wrapped once, the height
      counted as a row from the top; None when that is off the display. */
  function PixelCell(c: Config, xf: real, yf: real, zf: real): (cell: Option<(int, int, int)>)
    requires ValidConfig(c)
    ensures cell.Some? <==>
      && 0 <= Round(xf) < c.dims.x
      && 0 <= Round(zf) < c.dims.y
      && -(c.dims.tang as int) <= Round(Steps(yf, c)) < 2 * c.dims.tang
    ensures cell.Some? ==>
      && InBox(c.dims, cell.value.0, cell.value.1, cell.value.2)
      && cell.value.0 == Round(xf) && cell.value.1 == c.dims.y - 1 - Round(zf)
      && cell.value.2 == Round(Steps(yf, c)) % c.dims.tang
  {
    var x, z := Round(xf), Round(zf);
    var y := TangWrap(Round(Steps(yf, c)), c.dims.tang);
    if 0 <= x < c.dims.x && 0 <= y < c.dims.tang && 0 <= z < c.dims.y then
      TangWrapSameAngle(Round(Steps(yf, c)), c.dims.tang);
      Some((x, c.dims.y - 1 - z, y))
    else None
  }

  /** ut_fireworks_setpix: lights the particle's cell with the colour r, g, b
      (hsv2rgb_f of its colour) when it is on the display, else writes nothing. */
  method UtFireworksSetPix(f: array<byte>, c: Config, xf: real, yf: real, zf: real,
                           r: byte, g: byte, b: byte)
    requires ValidConfig(c) && f.Length == FrameBytes(c.dims)
    modifies f
    ensures PixelCell(c, xf, yf, zf).None? ==> f[..] == old(f[..])
    ensures PixelCell(c, xf, yf, zf).Some? ==>
      var (x, y, a) := PixelCell(c, xf, yf, zf).value;
      var s := SlotIndex(c.dims, x, y, a);
      && 0 <= s < Leds(c.dims) && f[3 * s] == r && f[3 * s + 1] == g && f[3 * s + 2] == b
      && forall k :: 0 <= k < f.Length && k / 3 != s ==> f[k] == old(f[k])
  {
    var x := Round(xf);
    var y := Round(Steps(yf, c));
    var z := Round(zf);
    if y < 0 {
      y := y + c.dims.tang;
    } else if y >= c.dims.tang {
      y := y - c.dims.tang;
    }
    if x >= 0 && x < c.dims.x && y >= 0 && y < c.dims.tang && z >= 0 && z < c.dims.y {
      SetPix(f, c.dims, x, c.dims.y - 1 - z, y, r, g, b);
    }
  }

  /** The cells marked as ground: the bottom row, radial positions
      [groundFrom, groundTo), all the way round. */
  predicate IsGround(c: Config, x: int, y: int, a: int)
  {
    y == c.dims.y - 1 && c.groundFrom <= x < c.groundTo && 0 <= a < c.dims.tang
  }

  /** Byte k of the frame after cls and the ground loop: blue 17 on the ground
      cells, zero elsewhere. */
  function GroundByte(c: Config, k: int): byte
    requires ValidConfig(c)
  {
    var (x, y, a) := SlotCoords(c.dims, k / 3);
    if k % 3 == 2 && IsGround(c, x, y, a) then 17 else 0
  }

  /** Every ground cell is blue 17 and every other cell black: the bytes of
      cell (x, y, a) are (0, 0, 17) exactly on the ground. */
  lemma GroundCells(c: Config, x: int, y: int, a: int)
    requires ValidConfig(c) && InBox(c.dims, x, y, a)
    ensures var s := SlotIndex(c.dims, x, y, a);
      && GroundByte(c, 3 * s) == 0 && GroundByte(c, 3 * s + 1) == 0
      && GroundByte(c, 3 * s + 2) == (if IsGround(c, x, y, a) then 17 else 0)
  {
    var s := SlotIndex(c.dims, x, y, a);
    SlotCoordsOfIndex(c.dims, x, y, a);
    ByteOfSlot(s, 0);
    ByteOfSlot(s, 1);
    ByteOfSlot(s, 2);
  }

  /** The ground loop has written cell (x, _, a) once the outer loop is past a,
      or at a and the inner loop past x. */
  predicate GroundDone(c: Config, k: int, i: int, j: int)
    requires ValidConfig(c)
  {
    var (x, _, a) := SlotCoords(c.dims, k / 3);
    a < i || (a == i && x < j)
  }

  /** cls followed by the ground loop of an_fireworks. */
  method DrawGround(f: array<byte>, c: Config)
    requires ValidConfig(c) && f.Length == FrameBytes(c.dims)
    modifies f
    ensures forall k :: 0 <= k < f.Length ==> f[k] == GroundByte(c, k)
  {
    Cls(f);
    var i := 0;
    while i < c.dims.tang
      invariant 0 <= i <= c.dims.tang
      invariant forall k :: 0 <= k < f.Length ==>
        f[k] == if GroundDone(c, k, i, 0) then GroundByte(c, k) else 0
    {
      var j := c.groundFrom;
      while j < c.groundTo
        invariant c.groundFrom <= j <= c.groundTo
        invariant forall k :: 0 <= k < f.Length ==>
          f[k] == if GroundDone(c, k, i, j) then GroundByte(c, k) else 0
      {
        ghost var f0 := f[..];
        SetPix(f, c.dims, j, c.dims.y - 1, i, 0, 0, 17);
        GroundStep(c, f0, f[..], i, j);
        j := j + 1;
      }
      forall k | 0 <= k < f.Length
        ensures f[k] == if GroundDone(c, k, i + 1, 0) then GroundByte(c, k) else 0
      {
        GroundRow(c, k, i);
      }
      i := i + 1;
    }
    forall k | 0 <= k < f.Length
      ensures f[k] == GroundByte(c, k)
    {
      IndexOfSlotCoords(c.dims, k / 3);
    }
  }

  /** The cells of angle i outside [groundFrom, groundTo) are not ground, so
      finishing the inner loop finishes angle i. */
  lemma GroundRow(c: Config, k: int, i: int)
    requires ValidConfig(c) && 0 <= k < FrameBytes(c.dims) && 0 <= i
    ensures (if GroundDone(c, k, i, c.groundTo) then GroundByte(c, k) else 0)
         == (if GroundDone(c, k, i + 1, 0) then GroundByte(c, k) else 0)
  {
    IndexOfSlotCoords(c.dims, k / 3);
  }

  /** The ground write at (j, Y-1, i) finishes its own slot and gives its
      bytes their ground values; on every other byte the finished part's
      values do not change (the other cells of angle i, column j are not
      ground). */
  lemma GroundStepAt(c: Config, k: int, i: int, j: int)
    requires ValidConfig(c) && 0 <= k < FrameBytes(c.dims)
    requires 0 <= i < c.dims.tang && c.groundFrom <= j < c.groundTo
    ensures var s := SlotIndex(c.dims, j, c.dims.y - 1, i);
      && (k / 3 == s ==> GroundDone(c, k, i, j + 1) && GroundByte(c, k) == if k % 3 == 2 then 17 else 0)
      && (k / 3 != s ==>
            (if GroundDone(c, k, i, j + 1) then GroundByte(c, k) else 0)
            == (if GroundDone(c, k, i, j) then GroundByte(c, k) else 0))
  {
    var s := SlotIndex(c.dims, j, c.dims.y - 1, i);
    var q := k / 3;
    assert 0 <= q < Leds(c.dims);
    var (x, y, a) := SlotCoords(c.dims, q);
    IndexOfSlotCoords(c.dims, q);
    if q == s {
      SlotCoordsOfIndex(c.dims, j, c.dims.y - 1, i);
    } else if x == j && a == i {
      assert y != c.dims.y - 1;
    }
  }

  /** One ground write moves cell (j, Y-1, i) into the finished part. */
  lemma GroundStep(c: Config, f0: seq<byte>, f1: seq<byte>, i: int, j: int)
    requires ValidConfig(c) && |f0| == |f1| == FrameBytes(c.dims)
    requires 0 <= i < c.dims.tang && c.groundFrom <= j < c.groundTo
    requires forall k :: 0 <= k < |f0| ==>
      f0[k] == if GroundDone(c, k, i, j) then GroundByte(c, k) else 0
    requires var s := SlotIndex(c.dims, j, c.dims.y - 1, i);
      && 0 <= s < Leds(c.dims) && f1[3 * s] == 0 && f1[3 * s + 1] == 0 && f1[3 * s + 2] == 17
      && forall k :: 0 <= k < |f1| && k / 3 != s ==> f1[k] == f0[k]
    ensures forall k :: 0 <= k < |f1| ==>
      f1[k] == if GroundDone(c, k, i, j + 1) then GroundByte(c, k) else 0
  {
    var s := SlotIndex(c.dims, j, c.dims.y - 1, i);
    forall k | 0 <= k < |f1|
      ensures f1[k] == if GroundDone(c, k, i, j + 1) then GroundByte(c, k) else 0
    {
      GroundStepAt(c, k, i, j);
      if k / 3 == s {
        assert k == 3 * s + k % 3;
      }
    }
  }

  // ---------------------------------------------------------------------
  // The animation state, updated in place

  const ORIGIN: Pos := Pos(0.0, 0.0, 0.0)

  /** A slot of the zero-initialised animation state. */
  const ZERO_ROCKET: Rocket := Rocket([ORIGIN, ORIGIN, ORIGIN], ORIGIN, 0.0, 0, 0, 0, 0, 0.0)
  const ZERO_EMBER: Ember := Ember(ORIGIN, ORIGIN, 0.0, 0, 0, 0.0)

  /** struct st_fireworks: the rocket pool p1[10] and the ember pool p2[300]
      with their counts. */
  class FireworksState {
    const cfg: Config
    const math: Math
    const p1: array<Rocket>
    const p2: array<Ember>
    var numPhase1: int
    var numPhase2: int

    ghost predicate Valid()
      reads this, p1, p2
    {
      && ValidConfig(cfg)
      && p1.Length == MAX_PHASE1 && p2.Length == MAX_PHASE2
      && 0 <= numPhase1 <= MAX_PHASE1 && 0 <= numPhase2 <= MAX_PHASE2
      && (forall i :: 0 <= i < MAX_PHASE1 ==> WellFormed(p1[i]))
    }

    /** The rockets in flight. */
    function Rockets(): seq<Rocket>
      reads this, p1
      requires 0 <= numPhase1 <= p1.Length
    {
      p1[..numPhase1]
    }

    /** The embers in flight. */
    function Embers(): seq<Ember>
      reads this, p2
      requires 0 <= numPhase2 <= p2.Length
    {
      p2[..numPhase2]
    }

    /** The first unused rocket slot, which a launch fills. */
    function StaleSlot(): Rocket
      reads this, p1
    {
      if 0 <= numPhase1 < p1.Length then p1[numPhase1] else ZERO_ROCKET
    }

    /** The statically allocated, zero-filled state. */
    constructor (cfg: Config, math: Math)
      requires ValidConfig(cfg)
      ensures Valid() && this.cfg == cfg && this.math == math
      ensures Rockets() == [] && Embers() == []
    {
      this.cfg := cfg;
      this.math := math;
      p1 := new Rocket[MAX_PHASE1](_ => ZERO_ROCKET);
      p2 := new Ember[MAX_PHASE2](_ => ZERO_EMBER);
      numPhase1, numPhase2 := 0, 0;
    }

    /** in_fireworks: both pools emptied; the slots keep their contents. */
    method Init()
      requires Valid()
      modifies this
      ensures Valid() && Rockets() == [] && Embers() == []
    {
      numPhase1, numPhase2 := 0, 0;
    }

    /** ut_fireworks_shiftem on rocket i. */
    method ShiftEm(i: int)
      requires Valid() && 0 <= i < p1.Length
      modifies p1
      ensures Valid()
      ensures p1[i] == old(p1[i]).(hist := Shifted(old(p1[i].hist)))
      ensures forall q :: 0 <= q < p1.Length && q != i ==> p1[q] == old(p1[q])
    {
      var j := 2;
      while j > 0
        invariant 0 <= j <= 2 && Valid()
        invariant p1[i] == old(p1[i]).(hist := p1[i].hist)
        invariant var h := old(p1[i].hist);
          p1[i].hist == if j == 2 then h else if j == 1 then [h[0], h[1], h[1]] else [h[0], h[0], h[1]]
        invariant forall q :: 0 <= q < p1.Length && q != i ==> p1[q] == old(p1[q])
      {
        var r := p1[i];
        p1[i] := r.(hist := r.hist[j := r.hist[j - 1]]);
        j := j - 1;
      }
    }

    /** The launch position's two draws. */
    method DrawLaunchPos(rng: RandStream) returns (p: Pos)
      requires ValidConfig(cfg) && ValidRand(rng.values)
      modifies rng
      ensures p == LaunchPos(cfg, rng.values, old(rng.next)) && rng.next == old(rng.next) + 2
    {
      var dx := rng.NextDrand(cfg.xSpread);
      var y0 := rng.NextDrand(Angular(cfg.dims.tang as real, cfg));
      p := Pos(cfg.xBase + dx, y0, 0.0);
    }

    /** The flight's four draws. */
    method DrawFlight(rng: RandStream) returns (v: Pos, s: real, delay: int)
      requires ValidConfig(cfg) && ValidRand(rng.values)
      modifies rng
      ensures (v, s, delay) == Flight(cfg, math, rng.values, old(rng.next))
      ensures rng.next == old(rng.next) + 4
    {
      var vx := rng.NextDrand(0.35);
      var vy := rng.NextDrand(Angular(0.35, cfg));
      var sd := rng.NextDrand(cfg.maxHeight - cfg.minHeight);
      s := cfg.minHeight + sd;
      var dl := rng.NextIrand(MAX_START_DELAY - MIN_START_DELAY);
      delay := MIN_START_DELAY + dl;
      v := Pos(vx - 0.175, vy - Angular(0.175, cfg), math.sqrt(2.0 * G * s));
    }

    /** The launch position of slot i, copied into all three history entries
        by two calls of ut_fireworks_shiftem. */
    method Place(i: int, rng: RandStream)
      requires Valid() && ValidRand(rng.values) && 0 <= i < p1.Length
      modifies p1, rng
      ensures Valid() && rng.next == old(rng.next) + 2
      ensures p1[i] == old(p1[i]).(hist := Shifted(Shifted(old(p1[i].hist)[0 := LaunchPos(cfg, rng.values, old(rng.next))])))
      ensures forall q :: 0 <= q < p1.Length && q != i ==> p1[q] == old(p1[q])
    {
      var p := DrawLaunchPos(rng);
      var r := p1[i];
      var h := r.hist[0 := p];
      p1[i] := r.(hist := h);
      var j := 0;
      while j < 2
        invariant 0 <= j <= 2 && Valid() && rng.next == old(rng.next) + 2
        invariant p1[i] == r.(hist := p1[i].hist)
        invariant p1[i].hist == if j == 0 then h else if j == 1 then Shifted(h) else Shifted(Shifted(h))
        invariant forall q :: 0 <= q < p1.Length && q != i ==> p1[q] == old(p1[q])
      {
        ShiftEm(i);
        j := j + 1;
      }
    }

    /** A new rocket in slot i: launch position, velocity, burst height and
        fuse delay. */
    method Ignite(i: int, frame: int, rng: RandStream)
      requires Valid() && ValidRand(rng.values) && 0 <= i < p1.Length
      modifies p1, rng
      ensures Valid()
      ensures (p1[i], rng.next) == NewRocket(old(p1[i]), frame, cfg, math, rng.values, old(rng.next))
      ensures forall q :: 0 <= q < p1.Length && q != i ==> p1[q] == old(p1[q])
    {
      ghost var stale, k := p1[i], rng.next;
      Place(i, rng);
      var v, s, delay := DrawFlight(rng);
      var r := p1[i];
      p1[i] := r.(v := v, s := s, baseFrame := frame, delay := delay, glBase := frame, glPeriod := 0);
      assert p1[i] == NewRocket(stale, frame, cfg, math, rng.values, k).0;
    }

    /** The launch at the start of an_fireworks. */
    method LaunchPhase(frame: int, rng: RandStream)
      requires Valid() && ValidRand(rng.values)
      modifies this, p1, rng
      ensures Valid() && numPhase2 == old(numPhase2)
      ensures (Rockets(), rng.next)
           == Launch(old(Rockets()), old(StaleSlot()), frame, cfg, math, rng.values, old(rng.next))
    {
      var launch := numPhase1 == 0;
      if !launch && numPhase1 < MAX_PHASE1 {
        var t := rng.NextIrand(cfg.newFreq);
        launch := t == 0;
      }
      if launch {
        var i := numPhase1;
        assert old(StaleSlot()) == p1[i];
        ghost var k1 := rng.next;
        Ignite(i, frame, rng);
        numPhase1 := numPhase1 + 1;
        assert Rockets() == old(Rockets()) + [p1[i]];
        assert (p1[i], rng.next) == NewRocket(old(StaleSlot()), frame, cfg, math, rng.values, k1);
        if i == 0 {
          assert old(Rockets()) == [] && Rockets() == [p1[0]];
        }
      }
    }

    /** One ember of a burst: vrand, the hue, the delay and the fade, drawn in
        that order. */
    method SpawnEmber(r: Rocket, hue0: real, frame: int, rng: RandStream) returns (e: Ember)
      requires ValidRand(rng.values) && WellFormed(r)
      modifies rng
      ensures (e, rng.next) == Spawn(r, hue0, frame, math, rng.values, old(rng.next))
    {
      var a := rng.NextDrand(2.0 * F_PI);
      var u := rng.NextDrand(2.0);
      var dir := math.sphere(a, u - 1.0);
      var hue := hue0;
      if hue0 >= 6.0 {
        hue := rng.NextDrand(6.0);
      }
      var dl := rng.NextIrand(MAX_END_DELAY - MIN_END_DELAY);
      var fd := rng.NextDrand(MAX_FADE - MIN_FADE);
      e := Ember(r.hist[0], Add(r.v, dir), hue, frame, MIN_END_DELAY + dl, MIN_FADE + fd);
    }

    /** The burst of rocket i: up to 10 + irand(20) embers while the pool has room. */
    method BurstPhase(i: int, frame: int, rng: RandStream)
      requires Valid() && ValidRand(rng.values) && 0 <= i < numPhase1
      modifies this, p2, rng
      ensures Valid() && numPhase1 == old(numPhase1)
      ensures (Embers(), rng.next) == Burst(p1[i], old(Embers()), frame, math, rng.values, old(rng.next))
    {
      var req := rng.NextIrand(20);
      var k := 10 + req;
      var hue0 := rng.NextDrand(6.5);
      var r := p1[i];
      BurstStart(r, Embers(), frame, math, rng.values, old(rng.next));
      while k > 0
        invariant Valid() && numPhase1 == old(numPhase1)
        invariant SpawnLoop(r, Embers(), k, hue0, frame, math, rng.values, rng.next)
               == Burst(r, old(Embers()), frame, math, rng.values, old(rng.next))
        decreases k
      {
        if numPhase2 >= MAX_PHASE2 {
          break;
        }
        k := PushEmber(r, hue0, frame, rng, k);
      }
      SpawnLoopDone(r, Embers(), k, hue0, frame, math, rng.values, rng.next);
    }

    /** One pass of the ember loop: a new ember joins the pool and one
        fewer is still to come. */
    method PushEmber(r: Rocket, hue0: real, frame: int, rng: RandStream, left: int) returns (left': int)
      requires Valid() && ValidRand(rng.values) && WellFormed(r) && numPhase2 < MAX_PHASE2 && left > 0
      modifies this, p2, rng
      ensures Valid() && numPhase1 == old(numPhase1) && left' == left - 1
      ensures SpawnLoop(r, Embers(), left', hue0, frame, math, rng.values, rng.next)
           == SpawnLoop(r, old(Embers()), left, hue0, frame, math, rng.values, old(rng.next))
    {
      ghost var es0 := Embers();
      ghost var k0 := rng.next;
      SpawnLoopStep(r, es0, left, hue0, frame, math, rng.values, k0);
      var e := SpawnEmber(r, hue0, frame, rng);
      p2[numPhase2] := e;
      numPhase2 := numPhase2 + 1;
      left' := left - 1;
      assert Embers() == es0 + [e];
    }

    /** The fuse glow of a waiting rocket i. */
    method GlowAt(i: int, frame: int, rng: RandStream)
      requires Valid() && ValidRand(rng.values) && 0 <= i < p1.Length
      modifies p1, rng
      ensures Valid()
      ensures (p1[i], rng.next) == Glow(old(p1[i]), frame, rng.values, old(rng.next))
      ensures forall q :: 0 <= q < p1.Length && q != i ==> p1[q] == old(p1[q])
    {
      var r := p1[i];
      if (frame - r.glBase) % U32 >= r.glPeriod {
        var per := rng.NextIrand(6);
        var amp := rng.NextDrand(0.3);
        p1[i] := r.(glBase := frame, glPeriod := 8 + per, glAmp := 0.7 + amp);
      }
    }

    /** One frame of climbing for rocket i. */
    method ClimbAt(i: int)
      requires Valid() && 0 <= i < p1.Length
      modifies p1
      ensures Valid() && p1[i] == Climb(old(p1[i]))
      ensures forall q :: 0 <= q < p1.Length && q != i ==> p1[q] == old(p1[q])
    {
      ShiftEm(i);
      var r := p1[i];
      p1[i] := r.(hist := r.hist[0 := Add(r.hist[0], r.v)], v := r.v.(z := r.v.z - G));
    }

    /** Kaboom: rocket i bursts into embers and the last rocket takes its slot. */
    method Explode(i: int, frame: int, rng: RandStream)
      requires Valid() && ValidRand(rng.values) && 0 <= i < numPhase1
      modifies this, p1, p2, rng
      ensures Valid() && numPhase1 == old(numPhase1) - 1
      ensures Rockets() == RemoveAt(old(Rockets()), i)
      ensures (Embers(), rng.next) == Burst(old(p1[i]), old(Embers()), frame, math, rng.values, old(rng.next))
    {
      BurstPhase(i, frame, rng);
      numPhase1 := numPhase1 - 1;
      p1[i] := p1[numPhase1];
      assert Rockets() == RemoveAt(old(Rockets()), i);
    }

    /** One turn of the rocket loop on rocket i; returns the next index. */
    method RocketAt(i: int, frame: int, rng: RandStream) returns (i': int)
      requires Valid() && ValidRand(rng.values) && 0 <= i < numPhase1
      modifies this, p1, p2, rng
      ensures Valid()
      ensures (Rockets(), Embers(), i', rng.next)
           == RocketTurn(old(Rockets()), old(Embers()), i, frame, math, rng.values, old(rng.next))
    {
      var r := p1[i];
      ghost var rs0 := Rockets();
      if Waiting(r, frame) {
        GlowAt(i, frame, rng);
        assert Rockets() == rs0[i := p1[i]];
        i' := i + 1;
      } else if r.hist[0].z > r.s {
        Explode(i, frame, rng);
        i' := i;
      } else {
        ClimbAt(i);
        assert Rockets() == rs0[i := Climb(r)];
        i' := i + 1;
      }
    }

    /** The rocket loop of an_fireworks. */
    method RocketPhase(frame: int, rng: RandStream)
      requires Valid() && ValidRand(rng.values)
      modifies this, p1, p2, rng
      ensures Valid()
      ensures (Rockets(), Embers(), rng.next)
           == RocketSweep(old(Rockets()), old(Embers()), 0, frame, math, rng.values, old(rng.next))
    {
      var i := 0;
      while i < numPhase1
        invariant Valid() && 0 <= i <= numPhase1
        invariant RocketSweep(Rockets(), Embers(), i, frame, math, rng.values, rng.next)
               == RocketSweep(old(Rockets()), old(Embers()), 0, frame, math, rng.values, old(rng.next))
        decreases numPhase1 - i
      {
        i := RocketAt(i, frame, rng);
      }
    }

    /** One turn of the ember loop on ember i; returns the next index. */
    method EmberAt(i: int, frame: int) returns (i': int)
      requires Valid() && 0 <= i < numPhase2
      modifies this, p2
      ensures Valid() && Rockets() == old(Rockets())
      ensures (Embers(), i') == EmberTurn(old(Embers()), i, frame, cfg)
    {
      var e := p2[i];
      ghost var es0 := Embers();
      var p := Add(e.p, e.v);
      var v := Drag(e.v, cfg.resist);
      var value := Value(e, frame);
      p2[i] := e.(p := p, v := v);
      i' := i + 1;
      if p.z <= 0.0 {
        p2[i] := e.(p := p.(z := 0.0), v := v, delay := (e.delay - 1) % U32);
        if e.delay == 0 || value <= 0.05 {
          numPhase2 := numPhase2 - 1;
          p2[i] := p2[numPhase2];
          assert Embers() == RemoveAt(es0, i);
          i' := i;
        }
      }
      assert i' == i + 1 ==> Embers() == es0[i := EmberStep(e, frame, cfg).0];
    }

    /** The ember loop of an_fireworks. */
    method EmberPhase(frame: int)
      requires Valid()
      modifies this, p2
      ensures Valid() && Rockets() == old(Rockets())
      ensures Embers() == EmberSweep(old(Embers()), 0, frame, cfg)
    {
      var i := 0;
      while i < numPhase2
        invariant Valid() && 0 <= i <= numPhase2 && Rockets() == old(Rockets())
        invariant EmberSweep(Embers(), i, frame, cfg) == EmberSweep(old(Embers()), 0, frame, cfg)
        decreases numPhase2 - i
      {
        i := EmberAt(i, frame);
      }
    }

    /** The pool part of an_fireworks: launch, rockets, embers. */
    method Animate(frame: int, rng: RandStream)
      requires Valid() && ValidRand(rng.values)
      modifies this, p1, p2, rng
      ensures Valid()
      ensures (Rockets(), Embers(), rng.next)
           == AnimStep(old(Rockets()), old(Embers()), old(StaleSlot()), frame, cfg, math,
                       rng.values, old(rng.next))
    {
      LaunchPhase(frame, rng);
      RocketPhase(frame, rng);
      EmberPhase(frame);
    }
  }
}
