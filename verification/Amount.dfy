/** The amount of a payout on its way to the chain (workers/solana_sync.go): from the NUMERIC column to a double, times 10^9
    in double arithmetic, truncated to a uint64. Doubles are those of section 3.4 of IEEE 754-2008, rounded to nearest with ties to even
    (section 4.3.1); the magnitudes below never leave their normal range. */
module Amount {
  import opened Arithmetic

  /** An event's amount has four decimals, the chain counts 10^9 to the token. */
  const RAW_PER_UNIT: int := 100_000
  const DECIMALS: real := 1_000_000_000.0

  function Pow2(n: nat): (p: int)
    ensures p > 0
  {
    if n == 0 then 1 else 2 * Pow2(n - 1)
  }

  /** The number m / 2^k. */
  datatype Double = Double(m: int, k: nat) {
    function Value(): real {
      m as real / Pow2(k) as real
    }
  }

  /** A number scaled by 2^k. */
  function Scaled(x: real, k: nat): real {
    x * Pow2(k) as real
  }

  const P52: int := 0x10_0000_0000_0000
  const P53: int := 0x20_0000_0000_0000

  /** Rounding x to nearest: at the scale where x has 53 bits before the point, m is the nearest integer, even on a tie. */
  predicate Rounds(x: real, d: Double) {
    && P52 as real <= Scaled(x, d.k) < P53 as real
    && -0.5 <= d.m as real - Scaled(x, d.k) <= 0.5
    && (d.m as real - Scaled(x, d.k) == 0.5 || d.m as real - Scaled(x, d.k) == -0.5 ==> d.m % 2 == 0)
  }

  /** How far a rounded number can be off, relative to the exact one. */
  lemma RelativeError(x: real, d: Double)
    requires Rounds(x, d) && x > 0.0
    ensures -x <= (d.Value() - x) * P53 as real <= x
  {
    var p := Pow2(d.k) as real;
    var off := d.m as real - x * p;
    assert d.Value() == d.m as real / p && x * p >= P52 as real && -0.5 <= off <= 0.5;
    hide *;
    Divide(d.m as real, x, p, off);
    Bound(x, p, off);
  }

  lemma Divide(m: real, x: real, p: real, off: real)
    requires p > 0.0 && m == x * p + off
    ensures m / p == x + off / p
  {
    assert (x + off / p) * p == x * p + off;
  }

  lemma Bound(x: real, p: real, off: real)
    requires p > 0.0 && x * p >= P52 as real && -0.5 <= off <= 0.5
    ensures -x <= off / p * P53 as real <= x
  {
    var e := off / p;
    assert e * p == off;
    var c := P53 as real;
    assert (e * c) * p == off * c;
    assert off * c <= x * p && -(x * p) <= off * c;
    Cancel(e * c, x, p);
    Cancel(-x, e * c, p);
  }

  lemma Cancel(a: real, b: real, p: real)
    requires p > 0.0 && a * p <= b * p
    ensures a <= b
  {
    if a > b {
      Positive(a - b, p);
      assert false;
    }
  }

  lemma Positive(a: real, b: real)
    requires a > 0.0 && b > 0.0
    ensures a * b > 0.0
  {}

  /** The exact amount in raw units. */
  function Exact(units: int): int {
    units * RAW_PER_UNIT
  }

  /** What the program sends: both roundings, then truncation. */
  ghost predicate Converts(units: int, stored: Double, scaled: Double, raw: int) {
    && Rounds(units as real / 10_000.0, stored)
    && Rounds(stored.Value() * DECIMALS, scaled)
    && raw == scaled.Value().Floor
  }

  /** An amount below 2^51 raw units is sent exactly, or one raw unit short. */
  lemma ConversionLosesAtMostOne(units: int, stored: Double, scaled: Double, raw: int)
    requires 0 < units && Exact(units) < P52 / 2 && Converts(units, stored, scaled, raw)
    ensures raw == Exact(units) || raw == Exact(units) - 1
  {
    var x, y, n := units as real / 10_000.0, stored.Value() * DECIMALS, Exact(units) as real;
    assert x * DECIMALS == n;
    RelativeError(x, stored);
    assert -n <= (y - n) * P53 as real <= n;
    assert n - 0.25 < y < n + 0.25;
    RelativeError(y, scaled);
    assert -y <= (scaled.Value() - y) * P53 as real <= y;
    assert y - 0.5 < scaled.Value() < y + 0.5;
  }

  /** Exactly when nothing is lost: the product computed from the stored double falls short of the exact amount by no more
      than half a unit in the last place of the result. */
  lemma ConversionExactIff(units: int, stored: Double, scaled: Double, raw: int)
    requires 0 < units && Exact(units) < P52 / 2 && Converts(units, stored, scaled, raw)
    ensures raw == Exact(units) <==> Scaled(Exact(units) as real - stored.Value() * DECIMALS, scaled.k) <= 0.5
  {
    ConversionLosesAtMostOne(units, stored, scaled, raw);
    ScaleOfProduct(units, stored, scaled, raw);
    assert Rounds(stored.Value() * DECIMALS, scaled) && raw == scaled.Value().Floor;
    hide *;
    FloorExactIff(Exact(units), stored.Value() * DECIMALS, scaled, raw);
  }

  lemma FloorExactIff(n: int, y: real, d: Double, raw: int)
    requires Rounds(y, d) && d.k > 0 && raw == d.Value().Floor && (raw == n || raw == n - 1)
    ensures raw == n <==> Scaled(n as real - y, d.k) <= 0.5
  {
    var p, t := Pow2(d.k), Scaled(y, d.k);
    assert p % 2 == 0 && -0.5 <= d.m as real - t <= 0.5;
    assert d.m as real - t == 0.5 || d.m as real - t == -0.5 ==> d.m % 2 == 0;
    assert t == y * p as real && Scaled(n as real - y, d.k) == (n as real - y) * p as real && d.Value() == d.m as real / p as real;
    hide *;
    FloorReaches(d.m, n, p, raw);
    EvenMultiple(n, p);
    Shortfall(n, y, p);
    NearestOfEven(n * p, t, d.m);
  }

  lemma FloorReaches(m: int, n: int, p: int, raw: int)
    requires p > 0 && raw == (m as real / p as real).Floor && (raw == n || raw == n - 1)
    ensures raw == n <==> m >= n * p
  {
    AtLeast(m, n, p);
  }

  lemma Shortfall(n: int, y: real, p: int)
    ensures (n as real - y) * p as real == (n * p) as real - y * p as real
  {
    Distribute(n as real, y, p as real);
    ProductAsReal(n, p);
  }

  /** An even number is not missed by rounding to nearest from half a unit away. */
  lemma NearestOfEven(even: int, t: real, m: int)
    requires even % 2 == 0 && -0.5 <= m as real - t <= 0.5
    requires m as real - t == 0.5 || m as real - t == -0.5 ==> m % 2 == 0
    ensures m >= even <==> even as real - t <= 0.5
  {}

  lemma ScaleOfProduct(units: int, stored: Double, scaled: Double, raw: int)
    requires 0 < units && Exact(units) < P52 / 2 && Converts(units, stored, scaled, raw)
    ensures scaled.k > 0
  {
    var x, y, n := units as real / 10_000.0, stored.Value() * DECIMALS, Exact(units) as real;
    assert x * DECIMALS == n && n <= P52 as real / 2.0;
    assert P52 as real <= Scaled(y, scaled.k);
    assert Scaled(y, 0) == y;
    hide Pow2, Double.Value, Scaled, Rounds, Converts, Exact;
    RelativeError(x, stored);
    TimesDecimals(x, stored.Value());
  }

  lemma TimesDecimals(x: real, v: real)
    requires -x <= (v - x) * P53 as real <= x && 0.0 < x * DECIMALS <= P52 as real / 2.0
    ensures v * DECIMALS < P52 as real
  {}

  lemma EvenMultiple(n: int, p: int)
    requires p % 2 == 0
    ensures (n * p) % 2 == 0
  {
    assert n * p == 2 * (n * (p / 2));
  }

  lemma Distribute(a: real, b: real, p: real)
    ensures (a - b) * p == a * p - b * p
  {}

  lemma ProductAsReal(a: int, b: int)
    ensures (a * b) as real == a as real * b as real
  {}

  lemma AtLeast(m: int, n: int, p: int)
    requires p > 0
    ensures m as real / p as real >= n as real <==> m >= n * p
  {
    var q := m as real / p as real;
    assert q * p as real == m as real;
    ProductAsReal(n, p);
    if q >= n as real {
      MonoReal(n as real, q, p as real);
    } else {
      StrictMonoReal(q, n as real, p as real);
    }
  }

  lemma MonoReal(a: real, b: real, p: real)
    requires a <= b && p > 0.0
    ensures a * p <= b * p
  {}

  lemma StrictMonoReal(a: real, b: real, p: real)
    requires a < b && p > 0.0
    ensures a * p < b * p
  {
    Positive(b - a, p);
  }

  /** The loss is real: a payout of 0.0157 token is sent one raw unit short. */
  lemma ConversionCanLoseOne()
    ensures Converts(157, Double(4525216905581874, 58), Double(8428873318399999, 29), Exact(157) - 1)
  {
    SmallPowers();
    hide Pow2;
    PowTimes(10, 10, 1024, 1024, 0x10_0000);
    PowTimes(20, 9, 0x10_0000, 512, 0x2000_0000);
    PowTimes(29, 29, 0x2000_0000, 0x2000_0000, 0x400_0000_0000_0000);
  }

  lemma {:induction false} PowSum(a: nat, b: nat)
    ensures Pow2(a + b) == Pow2(a) * Pow2(b)
  {
    if a > 0 {
      PowSum(a - 1, b);
    }
  }

  lemma {:induction false} SomeDouble(x: real, k: nat, n: nat) returns (d: Double)
    requires Scaled(x, k) < P53 as real && Scaled(x, k + n) >= P52 as real
    ensures Rounds(x, d)
    decreases n
  {
    if Scaled(x, k) >= P52 as real {
      var m := (Scaled(x, k) + 0.5).Floor;
      d := Double(if m as real - Scaled(x, k) == 0.5 && m % 2 != 0 then m - 1 else m, k);
    } else {
      Doubling(x, Pow2(k));
      d := SomeDouble(x, k + 1, n - 1);
    }
  }

  lemma Doubling(x: real, p: int)
    ensures x * (2 * p) as real == 2.0 * (x * p as real)
  {}

  lemma PowTimes(a: nat, b: nat, p: int, q: int, pq: int)
    requires Pow2(a) == p && Pow2(b) == q && p * q == pq
    ensures Pow2(a + b) == pq
  {
    PowSum(a, b);
  }

  lemma SmallPowers()
    ensures Pow2(0) == 1 && Pow2(8) == 256 && Pow2(9) == 512 && Pow2(10) == 1024 && Pow2(11) == 2048
  {}

  lemma LargePowers()
    ensures Pow2(66) == 0x4_0000_0000_0000_0000 && Pow2(52) == P52 && Pow2(0) == 1
  {
    SmallPowers();
    hide Pow2;
    PowTimes(11, 11, 0x800, 0x800, 0x40_0000);
    PowTimes(22, 22, 0x40_0000, 0x40_0000, 0x1000_0000_0000);
    PowTimes(44, 22, 0x1000_0000_0000, 0x40_0000, 0x4_0000_0000_0000_0000);
    PowTimes(44, 8, 0x1000_0000_0000, 256, P52);
  }

  lemma SomeDoubleBetween(x: real, n: nat, least: real) returns (d: Double)
    requires 0.0 < least <= x < P53 as real && least * Pow2(n) as real >= P52 as real
    ensures Rounds(x, d)
  {
    LargePowers();
    hide Pow2;
    MonoReal(least, x, Pow2(n) as real);
    d := SomeDouble(x, 0, n);
  }

  /** Every amount in range is converted to something. */
  lemma ConversionIsDefined(units: int) returns (stored: Double, scaled: Double, raw: int)
    requires 0 < units && Exact(units) < P52 / 2
    ensures Converts(units, stored, scaled, raw)
  {
    LargePowers();
    var x := units as real / 10_000.0;
    assert 0.0001 * Pow2(66) as real >= P52 as real;
    stored := SomeDoubleBetween(x, 66, 0.0001);
    RelativeError(x, stored);
    var y := stored.Value() * DECIMALS;
    assert x * DECIMALS == Exact(units) as real;
    hide Pow2, Rounds, Double.Value;
    assert 1.0 <= y < P53 as real;
    scaled := SomeDoubleBetween(y, 52, 1.0);
    raw := scaled.Value().Floor;
  }
}
