/** The data pattern of the I/O stress: a linear congruential generator modulo 2^64
    whose low 32 bits fill a 4 MB buffer. The multiplier is 1 modulo 4 and the increment is
    odd, so the low k bits of the seed run through all 2^k values before they repeat. */
module PatternGenerator {
  import opened Words

  const MULTIPLIER: nat := 3935559000370003845
  const INCREMENT: nat := 3037000493
  const EOM_TEMP_DATA_SIZE: nat := 4 * 1024 * 1024
  const PATTERN_WORDS: nat := EOM_TEMP_DATA_SIZE / 4

  // ----- The generator -----

  function Next(seed: Word64): Word64 {
    (MULTIPLIER * seed + INCREMENT) % 0x1_0000_0000_0000_0000
  }

  /** The seed after n calls. */
  function SeedAfter(seed: Word64, n: nat): Word64 {
    if n == 0 then seed else Next(SeedAfter(seed, n - 1))
  }

  /** What the n-th call (counted from 1) returns: the new seed without its top bit. */
  function Returned(seed: Word64, n: nat): Word64 {
    SeedAfter(seed, n) % 0x8000_0000_0000_0000
  }

  /** The cell a `uint64_t *` parameter points to. */
  class Seed64 {
    var value: Word64

    constructor (value: Word64)
      ensures this.value == value
    {
      this.value := value;
    }
  }

  method FastRand64(seed: Seed64) returns (r: Word64)
    modifies seed
    ensures seed.value == SeedAfter(old(seed.value), 1)
    ensures r == Returned(old(seed.value), 1)
  {
    var val := seed.value;
    val := (MULTIPLIER * val + INCREMENT) % 0x1_0000_0000_0000_0000;
    seed.value := val;
    assert SeedAfter(old(seed.value), 0) == old(seed.value);
    return val % 0x8000_0000_0000_0000;
  }

  /** Fills the buffer in place. No word occurs twice in it, whatever rand() returned. */
  method PopulateDataPattern(buffer: array<Word32>, rand: Word64)
    requires buffer.Length == PATTERN_WORDS
    modifies buffer
    ensures forall i | 0 <= i < buffer.Length :: buffer[i] == Returned(rand, i + 1) % 0x1_0000_0000
    ensures forall i, j | 0 <= i < j < buffer.Length :: buffer[i] != buffer[j]
  {
    var seed := new Seed64(rand);
    for i := 0 to PATTERN_WORDS
      invariant seed.value == SeedAfter(rand, i)
      invariant forall k | 0 <= k < i :: buffer[k] == Returned(rand, k + 1) % 0x1_0000_0000
    {
      var r := FastRand64(seed);
      SeedAfterOne(SeedAfter(rand, i));
      buffer[i] := r % 0x1_0000_0000;
    }
    forall i, j | 0 <= i < j < buffer.Length
      ensures buffer[i] != buffer[j]
    {
      WordsDiffer(rand, i + 1, j + 1);
    }
  }

  lemma SeedAfterOne(seed: Word64)
    ensures SeedAfter(seed, 1) == Next(seed)
  {
  }

  // ----- Powers of two and divisibility -----

  function Pow2(k: nat): (p: nat)
    ensures p >= 1
  {
    if k == 0 then 1 else 2 * Pow2(k - 1)
  }

  lemma {:induction false} Pow2Adds(m: nat, n: nat)
    ensures Pow2(m + n) == Pow2(m) * Pow2(n)
    decreases n
  {
    if n > 0 {
      Pow2Adds(m, n - 1);
      assert Pow2(m) * (2 * Pow2(n - 1)) == 2 * (Pow2(m) * Pow2(n - 1));
    }
  }

  lemma Pow2Values()
    ensures Pow2(32) == 0x1_0000_0000
    ensures Pow2(63) == 0x8000_0000_0000_0000
    ensures Pow2(64) == 0x1_0000_0000_0000_0000
  {
    assert Pow2(8) == 0x100;
    Pow2Adds(8, 8);
    assert Pow2(16) == 0x1_0000;
    Pow2Adds(16, 16);
    assert Pow2(32) == 0x1_0000_0000;
    Pow2Adds(32, 32);
    assert Pow2(64) == 0x1_0000_0000_0000_0000;
    assert Pow2(64) == 2 * Pow2(63);
  }

  ghost predicate Divides(d: nat, n: int)
    requires d > 0
  {
    n % d == 0
  }

  /** A multiple of m strictly between -m and m is zero. */
  lemma SmallMultiple(m: nat, d: int)
    requires 0 < m * d + m && m * d < m
    ensures d == 0
  {
  }

  lemma DividesIntro(d: nat, q: int, n: int)
    requires d > 0 && n == d * q
    ensures Divides(d, n)
  {
    var p, r := n / d, n % d;
    assert d * (q - p) == d * q - d * p == r;
    SmallMultiple(d, q - p);
  }

  lemma DividesElim(d: nat, n: int) returns (q: int)
    requires d > 0 && Divides(d, n)
    ensures n == d * q
  {
    q := n / d;
  }

  lemma DividesCombine(d: nat, m: int, n: int, k: int)
    requires d > 0 && Divides(d, m) && Divides(d, n)
    ensures Divides(d, m + k * n)
  {
    var p := DividesElim(d, m);
    var q := DividesElim(d, n);
    assert d * (p + k * q) == d * p + k * (d * q);
    DividesIntro(d, p + k * q, m + k * n);
  }

  /** 2^k divides 2x exactly when 2^(k-1) divides x. */
  lemma DividesDouble(k: nat, x: int)
    requires k > 0
    ensures Divides(Pow2(k), 2 * x) <==> Divides(Pow2(k - 1), x)
  {
    var h := Pow2(k - 1);
    if Divides(Pow2(k), 2 * x) {
      var q := DividesElim(Pow2(k), 2 * x);
      assert (2 * h) * q == 2 * (h * q);
      DividesIntro(h, q, x);
    }
    if Divides(h, x) {
      var q := DividesElim(h, x);
      assert (2 * h) * q == 2 * (h * q);
      DividesIntro(Pow2(k), q, 2 * x);
    }
  }

  lemma DividesMultiple(d: nat, x: int, y: int)
    requires d > 0 && Divides(d, x)
    ensures Divides(d, x * y)
  {
    var q := DividesElim(d, x);
    assert d * (q * y) == (d * q) * y;
    DividesIntro(d, q * y, x * y);
  }

  lemma EvenIfDivides(k: nat, x: int)
    requires k > 0 && Divides(Pow2(k), x)
    ensures x % 2 == 0
  {
    var q := DividesElim(Pow2(k), x);
    EvenProduct(Pow2(k - 1), q);
  }

  lemma EvenProduct(h: int, q: int)
    ensures (2 * h) * q % 2 == 0
  {
    var y := h * q;
    assert (2 * h) * q == 2 * y;
  }

  lemma OddTimesOdd(x: int, y: int)
    requires x % 2 == 1 && y % 2 == 1
    ensures (x * y) % 2 == 1
  {
    var a, b := x / 2, y / 2;
    assert x * y == 2 * (2 * (a * b) + a + b) + 1 by {
      assert x == 2 * a + 1 && y == 2 * b + 1;
      assert (2 * a + 1) * (2 * b + 1) == 4 * (a * b) + 2 * a + 2 * b + 1;
    }
  }

  /** An odd factor does not change divisibility by a power of two. */
  lemma {:induction false} DividesOddFactor(k: nat, x: int, odd: int)
    requires odd % 2 == 1
    ensures Divides(Pow2(k), x * odd) <==> Divides(Pow2(k), x)
    decreases k
  {
    if k == 0 || Divides(Pow2(k), x) {
      DividesMultiple(Pow2(k), x, odd);
    } else if x % 2 == 1 {
      OddTimesOdd(x, odd);
      if Divides(Pow2(k), x * odd) { EvenIfDivides(k, x * odd); }
    } else {
      var y := x / 2;
      assert x * odd == 2 * (y * odd) by {
        assert x == 2 * y;
      }
      DividesDouble(k, y * odd);
      DividesOddFactor(k - 1, y, odd);
      DividesDouble(k, y);
    }
  }

  /** Equal remainders, as divisibility of the difference. */
  lemma SameRemainder(m: nat, x: int, y: int)
    requires m > 0
    ensures x % m == y % m <==> Divides(m, x - y)
  {
    var p, q := x / m, y / m;
    assert x - y == m * (p - q) + (x % m - y % m) by {
      assert x == m * p + x % m && y == m * q + y % m;
      assert m * (p - q) == m * p - m * q;
    }
    if x % m == y % m {
      DividesIntro(m, p - q, x - y);
    } else if Divides(m, x - y) {
      var c := DividesElim(m, x - y);
      assert m * (c - (p - q)) == m * c - m * (p - q);
      SmallMultiple(m, c - (p - q));
    }
  }

  // ----- Closed form over the integers -----

  function Power(a: nat, n: nat): nat {
    if n == 0 then 1 else a * Power(a, n - 1)
  }

  /** 1 + a + ... + a^(n-1). */
  function Geometric(a: nat, n: nat): nat {
    if n == 0 then 0 else 1 + a * Geometric(a, n - 1)
  }

  /** The seed after n calls if words were unbounded. */
  function Unbounded(seed: int, n: nat): int {
    if n == 0 then seed else MULTIPLIER * Unbounded(seed, n - 1) + INCREMENT
  }

  lemma {:induction false} GeometricAdds(a: nat, m: nat, n: nat)
    ensures Geometric(a, m + n) == Geometric(a, m) + Power(a, m) * Geometric(a, n)
    decreases m
  {
    if m > 0 {
      GeometricAdds(a, m - 1, n);
      Regroup(a, Geometric(a, m - 1), Power(a, m - 1), Geometric(a, n));
    }
  }

  lemma Regroup(a: int, x: int, p: int, g: int)
    ensures a * (x + p * g) == a * x + (a * p) * g
  {
    assert a * (p * g) == (a * p) * g;
  }

  lemma TimesOneModFour(a: nat, x: nat)
    requires a % 4 == 1
    ensures (a * x) % 4 == x % 4
  {
    var q := a / 4;
    assert a * x == 4 * (q * x) + x by {
      assert a == 4 * q + 1;
    }
  }

  lemma {:induction false} PowerModFour(a: nat, n: nat)
    requires a % 4 == 1
    ensures Power(a, n) % 4 == 1
  {
    if n > 0 {
      PowerModFour(a, n - 1);
      TimesOneModFour(a, Power(a, n - 1));
    }
  }

  lemma {:induction false} GeometricParity(a: nat, n: nat)
    requires a % 4 == 1
    ensures Geometric(a, n) % 4 == n % 4
  {
    if n > 0 {
      GeometricParity(a, n - 1);
      OneMoreModFour(a, Geometric(a, n - 1), n - 1);
    }
  }

  lemma OneMoreModFour(a: nat, g: nat, n: nat)
    requires a % 4 == 1 && g % 4 == n % 4
    ensures (1 + a * g) % 4 == (n + 1) % 4
  {
    TimesOneModFour(a, g);
    PlusOneModFour(a * g, n);
  }

  lemma PlusOneModFour(x: nat, n: nat)
    requires x % 4 == n % 4
    ensures (1 + x) % 4 == (n + 1) % 4
  {
  }

  lemma OddHalf(g: int, p: int) returns (odd: int)
    requires p % 4 == 1
    ensures odd % 2 == 1
    ensures g + p * g == 2 * (g * odd)
  {
    odd := (1 + p) / 2;
    assert p == 2 * odd - 1;
  }

  lemma GeometricDoubles(a: nat, m: nat) returns (odd: int)
    requires a % 4 == 1
    ensures odd % 2 == 1
    ensures Geometric(a, m + m) == 2 * (Geometric(a, m) * odd)
  {
    GeometricAdds(a, m, m);
    PowerModFour(a, m);
    odd := OddHalf(Geometric(a, m), Power(a, m));
  }

  lemma Halving(k: nat, g: int, odd: int)
    requires k > 0 && odd % 2 == 1
    ensures Divides(Pow2(k), 2 * (g * odd)) <==> Divides(Pow2(k - 1), g)
  {
    DividesDouble(k, g * odd);
    DividesOddFactor(k - 1, g, odd);
  }

  lemma OneDivides(x: int)
    ensures Divides(Pow2(0), x)
  {
  }

  lemma OddNotDivided(k: nat, x: int)
    requires k > 0 && x % 2 == 1
    ensures !Divides(Pow2(k), x)
  {
    if Divides(Pow2(k), x) { EvenIfDivides(k, x); }
  }

  /** The heart of the full-period result: for a multiplier that is 1 modulo 4, 2^k divides
      1 + a + ... + a^(n-1) exactly when 2^k divides n. */
  lemma {:induction false} GeometricDivides(a: nat, k: nat, n: nat)
    requires a % 4 == 1
    ensures Divides(Pow2(k), Geometric(a, n)) <==> Divides(Pow2(k), n)
    decreases k
  {
    hide Pow2, Divides, Geometric;
    if k == 0 {
      OneDivides(Geometric(a, n));
      OneDivides(n);
    } else if n % 2 == 1 {
      GeometricParity(a, n);
      OddNotDivided(k, Geometric(a, n));
      OddNotDivided(k, n);
    } else {
      var m := n / 2;
      assert n == m + m;
      var odd := GeometricDoubles(a, m);
      Halving(k, Geometric(a, m), odd);
      GeometricDivides(a, k - 1, m);
      DividesDouble(k, m);
    }
  }

  /** How far the unbounded seed moves in n calls. */
  lemma {:induction false} UnboundedMoves(seed: int, n: nat)
    ensures Unbounded(seed, n) - seed == Geometric(MULTIPLIER, n) * ((MULTIPLIER - 1) * seed + INCREMENT)
  {
    if n > 0 {
      UnboundedMoves(seed, n - 1);
      var step, g := (MULTIPLIER - 1) * seed + INCREMENT, Geometric(MULTIPLIER, n - 1);
      assert (1 + MULTIPLIER * g) * step == step + MULTIPLIER * (g * step);
    }
  }

  lemma {:induction false} PowersNest(k: nat, n: nat)
    requires k <= n
    ensures Divides(Pow2(k), Pow2(n))
    decreases n - k
  {
    if k == n {
      DividesIntro(Pow2(k), 1, Pow2(n));
    } else {
      PowersNest(k, n - 1);
      DividesMultiple(Pow2(k), Pow2(n - 1), 2);
    }
  }

  /** One call, wrapped and unwrapped. */
  lemma WrapStep(s: Word64, u: int, k: nat)
    requires k <= 64 && s % Pow2(k) == u % Pow2(k)
    ensures Next(s) % Pow2(k) == (MULTIPLIER * u + INCREMENT) % Pow2(k)
  {
    Pow2Values();
    PowersNest(k, 64);
    SameRemainder(Pow2(k), s, u);
    hide Divides, Pow2;
    var before := MULTIPLIER * s + INCREMENT;
    var wraps := before / 0x1_0000_0000_0000_0000;
    DividesZero(Pow2(k));
    DividesCombine(Pow2(k), 0, s - u, MULTIPLIER);
    DividesCombine(Pow2(k), MULTIPLIER * (s - u), Pow2(64), -wraps);
    SameRemainder(Pow2(k), Next(s), MULTIPLIER * u + INCREMENT);
    assert Next(s) - (MULTIPLIER * u + INCREMENT) == MULTIPLIER * (s - u) + (-wraps) * 0x1_0000_0000_0000_0000;
  }

  lemma DividesZero(d: nat)
    requires d > 0
    ensures Divides(d, 0)
  {
  }

  /** Wrapping at 64 bits does not disturb the low k bits. */
  lemma {:induction false} WrapsFaithfully(seed: Word64, n: nat, k: nat)
    requires k <= 64
    ensures SeedAfter(seed, n) % Pow2(k) == Unbounded(seed, n) % Pow2(k)
  {
    if n > 0 {
      WrapsFaithfully(seed, n - 1, k);
      WrapStep(SeedAfter(seed, n - 1), Unbounded(seed, n - 1), k);
    }
  }

  lemma {:induction false} SeedAfterAdds(seed: Word64, m: nat, n: nat)
    ensures SeedAfter(seed, m + n) == SeedAfter(SeedAfter(seed, m), n)
    decreases n
  {
    if n > 0 {
      SeedAfterAdds(seed, m, n - 1);
    }
  }

  // ----- Main results -----

  /** The low k bits return to their start after n calls exactly when 2^k divides n, so their
      least period is 2^k. */
  lemma LeastPeriod(seed: Word64, n: nat, k: nat)
    requires k <= 64
    ensures SeedAfter(seed, n) % Pow2(k) == seed % Pow2(k) <==> n % Pow2(k) == 0
  {
    var step := (MULTIPLIER - 1) * seed + INCREMENT;
    assert step % 2 == 1;
    WrapsFaithfully(seed, n, k);
    UnboundedMoves(seed, n);
    SameRemainder(Pow2(k), Unbounded(seed, n), seed);
    DividesOddFactor(k, Geometric(MULTIPLIER, n), step);
    GeometricDivides(MULTIPLIER, k, n);
    SameRemainder(Pow2(k), n, 0);
    assert 0 % Pow2(k) == 0;
  }

  /** Two calls of one run agree in their low k bits exactly when they are a multiple of 2^k
      calls apart. */
  lemma LowBitsRepeat(seed: Word64, m: nat, n: nat, k: nat)
    requires k <= 64 && m <= n
    ensures SeedAfter(seed, m) % Pow2(k) == SeedAfter(seed, n) % Pow2(k) <==> (n - m) % Pow2(k) == 0
  {
    SeedAfterAdds(seed, m, n - m);
    LeastPeriod(SeedAfter(seed, m), n - m, k);
  }

  lemma ModMod(x: nat, k: nat, n: nat)
    requires k <= n
    ensures x % Pow2(n) % Pow2(k) == x % Pow2(k)
  {
    hide Pow2, Divides;
    var m := Pow2(n);
    PowersNest(k, n);
    QuotientAndRemainder(x, m);
    DividesMultiple(Pow2(k), m, x / m);
    SameRemainder(Pow2(k), x, x % m);
  }

  lemma QuotientAndRemainder(x: nat, m: nat)
    requires m > 0
    ensures x - x % m == m * (x / m)
  {
  }

  /** Fewer than 2^32 calls apart, two words of the pattern always differ. */
  lemma WordsDiffer(seed: Word64, m: nat, n: nat)
    requires m < n < m + 0x1_0000_0000
    ensures Returned(seed, m) % 0x1_0000_0000 != Returned(seed, n) % 0x1_0000_0000
  {
    Pow2Values();
    ModMod(SeedAfter(seed, m), 32, 63);
    ModMod(SeedAfter(seed, n), 32, 63);
    LowBitsRepeat(seed, m, n, 32);
  }

  /** In any 2^63 successive calls every 63-bit value is returned, and only once. */
  lemma EveryValueOnce(seed: Word64, start: nat, value: Word64)
    requires value < 0x8000_0000_0000_0000
    ensures exists n: nat :: start < n <= start + 0x8000_0000_0000_0000 && Returned(seed, n) == value
    ensures forall m: nat, n: nat ::
      start < m < n <= start + 0x8000_0000_0000_0000 ==> Returned(seed, m) != Returned(seed, n)
  {
    var period := 0x8000_0000_0000_0000;
    Pow2Values();
    forall m: nat, n: nat | start < m < n <= start + period
      ensures Returned(seed, m) != Returned(seed, n)
    {
      LowBitsRepeat(seed, m, n, 63);
    }
    EveryValueReturned(seed, start, period, value);
  }

  /** The values returned by `count` successive calls. */
  ghost function ReturnedSet(seed: Word64, start: nat, count: nat): set<int> {
    if count == 0 then {} else ReturnedSet(seed, start, count - 1) + {Returned(seed, start + count)}
  }

  ghost function Below(n: nat): set<int> {
    if n == 0 then {} else Below(n - 1) + {n - 1}
  }

  lemma {:induction false} BelowSize(n: nat)
    ensures |Below(n)| == n
    ensures forall x :: x in Below(n) <==> 0 <= x < n
  {
    if n > 0 {
      BelowSize(n - 1);
    }
  }

  lemma {:induction false} ReturnedSetIs(seed: Word64, start: nat, count: nat)
    ensures forall x :: x in ReturnedSet(seed, start, count) <==>
      exists n: nat :: start < n <= start + count && Returned(seed, n) == x
  {
    if count > 0 {
      ReturnedSetIs(seed, start, count - 1);
    }
  }

  lemma {:induction false} ReturnedSetSize(seed: Word64, start: nat, count: nat)
    requires forall m: nat, n: nat ::
      start < m < n <= start + count ==> Returned(seed, m) != Returned(seed, n)
    ensures |ReturnedSet(seed, start, count)| == count
  {
    if count > 0 {
      ReturnedSetSize(seed, start, count - 1);
      ReturnedSetIs(seed, start, count - 1);
    }
  }

  /** Pigeonhole: `period` different values below `period` leave none out. */
  lemma EveryValueReturned(seed: Word64, start: nat, period: nat, value: nat)
    requires value < period
    requires forall n: nat :: start < n <= start + period ==> Returned(seed, n) < period
    requires forall m: nat, n: nat ::
      start < m < n <= start + period ==> Returned(seed, m) != Returned(seed, n)
    ensures exists n: nat :: start < n <= start + period && Returned(seed, n) == value
  {
    var hit := ReturnedSet(seed, start, period);
    ReturnedSetIs(seed, start, period);
    ReturnedSetSize(seed, start, period);
    BelowSize(period);
    forall x | x in hit
      ensures x in Below(period)
    {
      var n: nat :| start < n <= start + period && Returned(seed, n) == x;
    }
    SubsetOfSameSize(hit, Below(period));
    assert value in hit;
  }

  lemma {:induction false} SubsetOfSameSize<T>(a: set<T>, b: set<T>)
    requires a <= b && |a| == |b|
    ensures a == b
  {
    if a != {} {
      var x :| x in a;
      SubsetOfSameSize(a - {x}, b - {x});
    }
  }

  /** Two runs in step agree in their low k bits exactly when their seeds did. */
  lemma RunsStayApart(s: Word64, t: Word64, n: nat, k: nat)
    requires k <= 64
    ensures SeedAfter(s, n) % Pow2(k) == SeedAfter(t, n) % Pow2(k) <==> s % Pow2(k) == t % Pow2(k)
  {
    WrapsFaithfully(s, n, k);
    WrapsFaithfully(t, n, k);
    SameRemainder(Pow2(k), Unbounded(s, n), Unbounded(t, n));
    DifferenceDivides(s, t, n, k);
    SameRemainder(Pow2(k), s, t);
  }

  lemma DifferenceDivides(s: int, t: int, n: nat, k: nat)
    ensures Divides(Pow2(k), Unbounded(s, n) - Unbounded(t, n)) <==> Divides(Pow2(k), s - t)
  {
    hide Divides, Pow2, Power, Unbounded;
    UnboundedDifference(s, t, n);
    PowerModFour(MULTIPLIER, n);
    DividesOddFactor(k, s - t, Power(MULTIPLIER, n));
  }

  lemma {:induction false} UnboundedDifference(s: int, t: int, n: nat)
    ensures Unbounded(s, n) - Unbounded(t, n) == (s - t) * Power(MULTIPLIER, n)
  {
    if n > 0 {
      UnboundedDifference(s, t, n - 1);
      var p := Power(MULTIPLIER, n - 1);
      assert (s - t) * (MULTIPLIER * p) == MULTIPLIER * ((s - t) * p);
    }
  }

  /** Buffers filled from two different results of rand() differ in every word. */
  lemma BuffersDifferEverywhere(s: Word64, t: Word64, i: nat)
    requires s < 0x8000_0000 && t < 0x8000_0000 && s != t
    ensures Returned(s, i + 1) % 0x1_0000_0000 != Returned(t, i + 1) % 0x1_0000_0000
  {
    Pow2Values();
    hide Pow2, SeedAfter;
    ModMod(SeedAfter(s, i + 1), 32, 63);
    ModMod(SeedAfter(t, i + 1), 32, 63);
    RunsStayApart(s, t, i + 1, 32);
  }
}
