/** Shared vocabulary: machine integer ranges, the Option and Result wrappers,
    C's roundf on reals, and the C library's rand() seen as an oracle. */
module Common {

  /** An unsigned 8-bit value (uint8_t, one colour component or one file byte). */
  type byte = x: int | 0 <= x < 256

  const U16: int := 0x1_0000
  const U32: int := 0x1_0000_0000
  const U64: int := 0x1_0000_0000_0000_0000

  /** An unsigned 32-bit value (uint32_t). */
  type u32 = x: int | 0 <= x < 0x1_0000_0000

  datatype Option<T> = None | Some(value: T)

  datatype Result<T, E> = Ok(value: T) | Err(error: E)

  /** roundf: the nearest integer, halfway cases away from zero. */
  function Round(x: real): (r: int)
    ensures x >= 0.0 ==> x - 0.5 < r as real <= x + 0.5
    ensures x < 0.0 ==> x - 0.5 <= r as real < x + 0.5
  {
    if x >= 0.0 then (x + 0.5).Floor else -((-x + 0.5).Floor)
  }

  /** Swap-with-last removal: the last element moves into slot i and the
      sequence shrinks by one. */
  function RemoveAt<T>(s: seq<T>, i: int): (s': seq<T>)
    requires 0 <= i < |s|
    ensures |s'| == |s| - 1
    ensures s'[..i] == s[..i]
    ensures i < |s| - 1 ==> s'[i] == s[|s| - 1] && s'[i + 1..] == s[i + 1..|s| - 1]
  {
    s[i := s[|s| - 1]][..|s| - 1]
  }

  /** The removed element plus what remains is the original, as a multiset. */
  lemma RemoveAtMultiset<T>(s: seq<T>, i: int)
    requires 0 <= i < |s|
    ensures multiset(RemoveAt(s, i)) + multiset{s[i]} == multiset(s)
  {
    var s' := RemoveAt(s, i);
    if i == |s| - 1 {
      assert s == s' + [s[i]];
    } else {
      assert s == s[..i] + [s[i]] + s[i + 1..|s| - 1] + [s[|s| - 1]];
      assert s' == s[..i] + [s[|s| - 1]] + s[i + 1..|s| - 1];
    }
  }

  /** The largest value rand() returns with the GNU C library. */
  const RAND_MAX: int := 2147483647

  /** The values returned by successive rand() calls, numbered from 0; every
      one is in [0, RAND_MAX]. */
  type RandOracle = nat -> int

  ghost predicate ValidRand(rand: RandOracle)
  {
    forall k: nat :: 0 <= rand(k) <= RAND_MAX
  }

  /** irand(n) = rand() / (RAND_MAX/n + 1), given the value r that rand() returned.
      The result is a uniform-looking integer in [0, n). */
  function Irand(n: int, r: int): (v: int)
    requires n > 0 && 0 <= r <= RAND_MAX
    ensures 0 <= v < n
  {
    IrandBelow(n, r);
    r / (RAND_MAX / n + 1)
  }

  lemma IrandBelow(n: int, r: int)
    requires n > 0 && 0 <= r <= RAND_MAX
    ensures 0 <= r / (RAND_MAX / n + 1) < n
  {
    var q := RAND_MAX / n + 1;
    assert RAND_MAX == n * (RAND_MAX / n) + RAND_MAX % n;
    assert r < n * q by {
      assert n * q == n * (RAND_MAX / n) + n;
    }
  }

  /** The range of a 32-bit C int. */
  const INT_MIN: int := -0x8000_0000
  const INT_MAX: int := 0x7fff_ffff

  /** The value a 32-bit int holds after an overflowing x wraps around, as the
      usual two's complement code does (C leaves signed overflow undefined). */
  function WrapInt(x: int): (w: int)
    ensures INT_MIN <= w <= INT_MAX
    ensures INT_MIN <= x <= INT_MAX ==> w == x
    ensures (w - x) % U32 == 0
  {
    (x - INT_MIN) % U32 + INT_MIN
  }

  /** C's int division, which truncates toward zero whatever the signs. */
  function CDiv(a: int, b: int): (q: int)
    requires b != 0
    ensures a >= 0 && b > 0 ==> q == a / b
    ensures 0 <= a < -b ==> q == 0
  {
    if a >= 0 && b > 0 then a / b
    else if a >= 0 then -(a / -b)
    else if b > 0 then -((-a) / b)
    else (-a) / (-b)
  }

  /** irand(n) as the C text computes it in int arithmetic: the divisor
      RAND_MAX/n + 1 is an int expression and wraps when it overflows. */
  function IrandAsWritten(n: int, r: int): (v: int)
    requires n > 0 && 0 <= r <= RAND_MAX
    ensures n >= 2 ==> v == Irand(n, r)
  {
    if n >= 2 then IrandDivisorFits(n); CDiv(r, WrapInt(RAND_MAX / n + 1))
    else CDiv(r, WrapInt(RAND_MAX / n + 1))
  }

  /** irand(1) overflows: RAND_MAX/1 + 1 is INT_MAX + 1, which no int holds.
      Wrapped, the divisor is INT_MIN and the quotient still 0, the value
      Irand gives. */
  lemma IrandOneOverflows(r: int)
    requires 0 <= r <= RAND_MAX
    ensures RAND_MAX / 1 + 1 > INT_MAX
    ensures WrapInt(RAND_MAX / 1 + 1) == INT_MIN
    ensures IrandAsWritten(1, r) == 0 == Irand(1, r)
  {
    assert RAND_MAX / 1 + 1 == INT_MAX + 1;
    assert r < RAND_MAX + 1;
  }

  /** For every n >= 2 the divisor RAND_MAX/n + 1 fits in an int. */
  lemma IrandDivisorFits(n: int)
    requires n >= 2
    ensures 0 < RAND_MAX / n + 1 <= INT_MAX
  {
    var q := RAND_MAX / n;
    assert q * n <= RAND_MAX;
    assert q * 2 <= q * n;
  }

  /** drand(n) = (float)rand() / ((float)RAND_MAX / n), on reals. */
  function Drand(n: real, r: int): (d: real)
    requires n > 0.0 && 0 <= r <= RAND_MAX
    ensures 0.0 <= d <= n
  {
    var q := RAND_MAX as real / n;
    assert q > 0.0;
    assert (r as real) / q <= (RAND_MAX as real) / q;
    assert (RAND_MAX as real) / q == n;
    (r as real) / q
  }

  /** The C library's hidden generator state: the oracle of rand() values and
      how many of them have been consumed. */
  class RandStream {
    const values: RandOracle
    var next: nat

    constructor (values: RandOracle)
      ensures this.values == values && next == 0
    {
      this.values := values;
      next := 0;
    }

    /** rand(). */
    method NextRand() returns (r: int)
      requires ValidRand(values)
      modifies this
      ensures r == values(old(next)) && 0 <= r <= RAND_MAX
      ensures next == old(next) + 1
    {
      r := values(next);
      next := next + 1;
    }

    /** irand(n): one rand() call. */
    method NextIrand(n: int) returns (v: int)
      requires ValidRand(values) && n > 0
      modifies this
      ensures v == Irand(n, values(old(next))) && 0 <= v < n
      ensures next == old(next) + 1
    {
      var r := NextRand();
      v := Irand(n, r);
    }

    /** drand(n): one rand() call. */
    method NextDrand(n: real) returns (d: real)
      requires ValidRand(values) && n > 0.0
      modifies this
      ensures d == Drand(n, values(old(next))) && 0.0 <= d <= n
      ensures next == old(next) + 1
    {
      var r := NextRand();
      d := Drand(n, r);
    }
  }
}
