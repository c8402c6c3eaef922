/** Which amounts survive the conversion (workers/solana_sync.go), said of the amount alone: a guard in whole numbers that a
    caller can evaluate before the payout is made. */
module AmountExactness {
  import opened Amount
  import opened Arithmetic

  const P82: int := 0x40000_0000_0000_0000_0000

  /** The scale at which the amount in tokens has 53 bits before the point: k is the only number with this property. */
  predicate IsScale(units: int, k: nat) {
    P52 * 10_000 <= units * Pow2(k) < P53 * 10_000
  }

  /** The guard. The product's exponent lies 29 or 30 above the amount's. With 30 nothing can be lost; with 29 an amount is
      lost when rounding it to a double cut off too much, between 2684 and 5000 of 10000 parts of the last place. */
  predicate Survives(units: int, k: nat) {
    var cutOff := (units * Pow2(k)) % 10_000;
    Exact(units) * Pow2(k) >= P82 || cutOff <= 2684 || cutOff > 5000
  }

  /** Powers are ordered like their exponents. */
  lemma {:induction false} PowMono(a: nat, b: nat)
    requires a <= b
    ensures Pow2(a) <= Pow2(b) && (a < b ==> 2 * Pow2(a) <= Pow2(b))
    decreases b
  {
    if a < b {
      PowMono(a, b - 1);
    }
  }

  lemma ScaleIsUnique(units: int, j: nat, k: nat)
    requires 0 < units && IsScale(units, j) && IsScale(units, k)
    ensures j == k
  {
    var lo, hi := if j < k then j else k, if j < k then k else j;
    if lo < hi {
      PowMono(lo, hi);
      hide Pow2;
      MulMono(units, 2 * Pow2(lo), Pow2(hi));
      assert false;
    }
  }

  /** What the first rounding leaves, in whole numbers. */
  lemma StoredIs(units: int, d: Double)
    requires Rounds(units as real / 10_000.0, d)
    ensures IsScale(units, d.k) && -5000 <= units * Pow2(d.k) - 10_000 * d.m <= 5000 && P52 <= d.m <= P53
  {
    var v := units * Pow2(d.k);
    assert Scaled(units as real / 10_000.0, d.k) == v as real / 10_000.0 by {
      hide Pow2;
      Scale(units, Pow2(d.k));
    }
    hide Pow2;
  }

  lemma Scale(units: int, p: int)
    ensures units as real / 10_000.0 * p as real == (units * p) as real / 10_000.0
  {
    ProductAsReal(units, p);
    assert units as real / 10_000.0 * p as real == units as real * p as real / 10_000.0;
  }

  /** The scaled product, when the result's scale p is q times coarser than the stored double's. */
  lemma ProductIs(m: int, p: int, q: int)
    requires p > 0 && q > 0
    ensures m as real / (p * q) as real * DECIMALS * p as real * q as real == (1_000_000_000 * m) as real
  {
    var v := m as real / (p * q) as real;
    assert v * (p * q) as real == m as real;
    ProductAsReal(p, q);
    Regroup(v, p as real, q as real);
  }

  lemma ProductAtOwnScale(m: int, p: int)
    requires p > 0
    ensures m as real / p as real * DECIMALS * p as real == (1_000_000_000 * m) as real
  {
    ProductIs(m, p, 1);
    assert p * 1 == p;
  }

  lemma Regroup(v: real, p: real, q: real)
    ensures v * DECIMALS * p * q == DECIMALS * (v * (p * q))
  {
    assert v * DECIMALS * p == DECIMALS * (v * p);
    assert DECIMALS * (v * p) * q == DECIMALS * (v * p * q);
    assert v * p * q == v * (p * q);
  }

  lemma LargerScale(y: real, p: int, p': int, r: int)
    requires 0 < p <= p' && y * p as real == r as real && r >= P53
    ensures y * p' as real >= P53 as real
  {
    if y <= 0.0 {
      NotPositive(y, p as real);
      assert false;
    }
    MonoReal(p as real, p' as real, y);
  }

  lemma NotPositive(y: real, p: real)
    requires y <= 0.0 && p > 0.0
    ensures y * p <= 0.0
  {}

  /** The product and its rounding in terms of the two powers. */
  lemma ProductOf(stored: Double, scaled: Double)
    requires Rounds(stored.Value() * DECIMALS, scaled)
    ensures stored.Value() == stored.m as real / Pow2(stored.k) as real
    ensures P52 as real <= stored.Value() * DECIMALS * Pow2(scaled.k) as real < P53 as real
  {
    hide Pow2;
  }

  /** The result's scale is not finer than the stored double's. */
  lemma ScaleOrder(stored: Double, scaled: Double)
    requires P52 <= stored.m && Rounds(stored.Value() * DECIMALS, scaled)
    ensures scaled.k <= stored.k
  {
    hide Pow2, Double.Value, Scaled, Rounds;
    var p, p', y := Pow2(stored.k), Pow2(scaled.k), stored.Value() * DECIMALS;
    ProductOf(stored, scaled);
    ProductAtOwnScale(stored.m, p);
    if scaled.k > stored.k {
      PowMono(stored.k, scaled.k);
      LargerScale(y, p, p', 1_000_000_000 * stored.m);
      assert false;
    }
  }

  /** The scaled product in whole numbers. */
  lemma ProductRange(stored: Double, scaled: Double, q: int)
    requires P52 <= stored.m && Rounds(stored.Value() * DECIMALS, scaled) && q > 0 && Pow2(stored.k) == Pow2(scaled.k) * q
    ensures P52 * q <= 1_000_000_000 * stored.m < P53 * q
  {
    hide *;
    var p, y := Pow2(scaled.k), stored.Value() * DECIMALS;
    ProductOf(stored, scaled);
    ProductIs(stored.m, p, q);
    RangeTimes(y * p as real, q, 1_000_000_000 * stored.m);
  }

  lemma RangeTimes(t: real, q: int, r: int)
    requires P52 as real <= t < P53 as real && q > 0 && t * q as real == r as real
    ensures P52 * q <= r < P53 * q
  {
    MonoReal(P52 as real, t, q as real);
    StrictMonoReal(t, P53 as real, q as real);
    ProductAsReal(P52, q);
    ProductAsReal(P53, q);
  }

  lemma Powers()
    ensures Pow2(4) == 16 && Pow2(28) == 0x1000_0000 && Pow2(29) == 0x2000_0000 && Pow2(30) == 0x4000_0000
    ensures Pow2(31) == 0x8000_0000 && Pow2(67) == 0x8_0000_0000_0000_0000
  {
    LargePowers();
    SmallPowers();
    SmallestPowers();
    hide Pow2;
    PowTimes(10, 10, 1024, 1024, 0x10_0000);
    PowTimes(20, 8, 0x10_0000, 256, 0x1000_0000);
    PowTimes(28, 1, 0x1000_0000, 2, 0x2000_0000);
    PowTimes(29, 1, 0x2000_0000, 2, 0x4000_0000);
    PowTimes(30, 1, 0x4000_0000, 2, 0x8000_0000);
    PowTimes(66, 1, 0x4_0000_0000_0000_0000, 2, 0x8_0000_0000_0000_0000);
  }

  lemma SmallestPowers()
    ensures Pow2(1) == 2 && Pow2(4) == 16
  {}

  /** The gap between the two scales is 29 or 30. */
  lemma GapIs(stored: Double, scaled: Double) returns (gap: nat)
    requires P52 <= stored.m <= P53 && Rounds(stored.Value() * DECIMALS, scaled)
    ensures stored.k == scaled.k + gap && (gap == 29 || gap == 30)
    ensures Pow2(stored.k) == Pow2(scaled.k) * Pow2(gap)
    ensures P52 * Pow2(gap) <= 1_000_000_000 * stored.m < P53 * Pow2(gap)
  {
    ScaleOrder(stored, scaled);
    gap := stored.k - scaled.k;
    PowSum(scaled.k, gap);
    hide Pow2, Double.Value, Scaled, Rounds;
    ProductRange(stored, scaled, Pow2(gap));
    Powers();
    if gap <= 28 {
      PowMono(gap, 28);
      assert false;
    } else if gap >= 31 {
      PowMono(31, gap);
      assert false;
    }
  }

  /** How far the product falls short, in parts of the result's last place. */
  lemma ShortfallIs(units: int, stored: Double, scaled: Double, q: int)
    requires q > 0 && Pow2(stored.k) == Pow2(scaled.k) * q
    ensures Scaled(Exact(units) as real - stored.Value() * DECIMALS, scaled.k) * q as real
            == (RAW_PER_UNIT * (units * Pow2(stored.k) - 10_000 * stored.m)) as real
  {
    var p, y, n := Pow2(scaled.k), stored.Value() * DECIMALS, Exact(units);
    assert stored.Value() == stored.m as real / (p * q) as real;
    assert Scaled(n as real - y, scaled.k) == (n as real - y) * p as real;
    assert n == units * RAW_PER_UNIT;
    hide Pow2, Double.Value, Scaled, Exact;
    ProductIs(stored.m, p, q);
    Shortfall(n, y, p);
    Distribute((n * p) as real, y * p as real, q as real);
    ProductAsReal(n * p, q);
    Associate(units, p, q);
  }

  lemma Associate(units: int, p: int, q: int)
    ensures units * RAW_PER_UNIT * p * q == RAW_PER_UNIT * (units * (p * q))
  {
    assert units * RAW_PER_UNIT * p == RAW_PER_UNIT * (units * p);
    assert RAW_PER_UNIT * (units * p) * q == RAW_PER_UNIT * (units * p * q);
    assert units * p * q == units * (p * q);
  }

  lemma HalfOf(x: real, q: int, shortfall: int)
    requires q > 0 && x * q as real == (RAW_PER_UNIT * shortfall) as real
    ensures x <= 0.5 <==> 2 * RAW_PER_UNIT * shortfall <= q
  {
    if x <= 0.5 {
      MonoReal(x, 0.5, q as real);
    } else {
      StrictMonoReal(0.5, x, q as real);
    }
  }

  /** What rounding cut off or added, from the remainder of the scaled amount. Ties do not occur. */
  lemma CutOffIs(v: int, w: int, m: int)
    requires v == 16 * w && -5000 <= v - 10_000 * m <= 5000
    ensures v % 10_000 != 5000
    ensures v - 10_000 * m == if v % 10_000 < 5000 then v % 10_000 else v % 10_000 - 10_000
  {
    var q, r := v / 10_000, v % 10_000;
    assert v == 10_000 * q + r;
    assert r == 16 * (w - 625 * q);
  }

  lemma ScaleRange(units: int, k: nat)
    requires 0 < units && Exact(units) < P52 / 2 && IsScale(units, k)
    ensures 31 <= k <= 66
  {
    Powers();
    var p := Pow2(k);
    assert units <= 22_517_998_136;
    if k <= 30 {
      PowMono(k, 30);
      hide Pow2;
      MulMono(units, p, 0x4000_0000);
    } else if k >= 67 {
      PowMono(67, k);
      hide Pow2;
      MulMono(units, 0x8_0000_0000_0000_0000, p);
    }
  }

  lemma SplitPower(units: int, k: nat, j: nat) returns (w: int)
    requires j <= k
    ensures units * Pow2(k) == Pow2(j) * w && w == units * Pow2(k - j)
  {
    PowSum(j, k - j);
    w := units * Pow2(k - j);
    hide Pow2;
    Swap(units, Pow2(j), Pow2(k - j));
  }

  lemma Swap(a: int, b: int, c: int)
    ensures a * (b * c) == b * (a * c)
  {}

  /** The gap is 30 exactly when the scaled raw amount reaches 2^82. */
  lemma GapFromAmount(e: int, c: int, m: int, shortfall: int, gap: nat, q: int)
    requires e == 0x8000_0000 * (RAW_PER_UNIT * c) && e == 1_000_000_000 * m + RAW_PER_UNIT * shortfall
    requires -5000 <= shortfall <= 5000 && P52 * q <= 1_000_000_000 * m < P53 * q
    requires (gap == 29 && q == 0x2000_0000) || (gap == 30 && q == 0x4000_0000)
    ensures gap == 30 <==> e >= P82
  {}

  lemma ExactIs(units: int, p: int)
    ensures Exact(units) * p == RAW_PER_UNIT * (units * p)
  {
    assert units * RAW_PER_UNIT * p == RAW_PER_UNIT * (units * p);
  }

  /** Exactly when nothing is lost, as a guard on the amount alone. */
  lemma SentExactlyIff(units: int, k: nat, stored: Double, scaled: Double, raw: int)
    requires 0 < units && Exact(units) < P52 / 2 && IsScale(units, k) && Converts(units, stored, scaled, raw)
    ensures raw == Exact(units) <==> Survives(units, k)
    ensures raw != Exact(units) ==> raw == Exact(units) - 1
  {
    ConversionLosesAtMostOne(units, stored, scaled, raw);
    ConversionExactIff(units, stored, scaled, raw);
    assert Rounds(units as real / 10_000.0, stored) && Rounds(stored.Value() * DECIMALS, scaled);
    ShortfallGuard(units, k, stored, scaled);
    hide *;
  }

  lemma ShortfallGuard(units: int, k: nat, stored: Double, scaled: Double)
    requires 0 < units && Exact(units) < P52 / 2 && IsScale(units, k)
    requires Rounds(units as real / 10_000.0, stored) && Rounds(stored.Value() * DECIMALS, scaled)
    ensures Scaled(Exact(units) as real - stored.Value() * DECIMALS, scaled.k) <= 0.5 <==> Survives(units, k)
  {
    hide *;
    StoredIs(units, stored);
    ScaleIsUnique(units, k, stored.k);
    ScaleRange(units, k);
    var v, m := units * Pow2(k), stored.m;
    var gap := GapIs(stored, scaled);
    var q := Pow2(gap);
    ShortfallIs(units, stored, scaled, q);
    HalfOf(Scaled(Exact(units) as real - stored.Value() * DECIMALS, scaled.k), q, v - 10_000 * m);
    Guard(units, k, m, gap);
  }

  lemma Guard(units: int, k: nat, m: int, gap: nat)
    requires 31 <= k && -5000 <= units * Pow2(k) - 10_000 * m <= 5000 && (gap == 29 || gap == 30)
    requires P52 * Pow2(gap) <= 1_000_000_000 * m < P53 * Pow2(gap)
    ensures 2 * RAW_PER_UNIT * (units * Pow2(k) - 10_000 * m) <= Pow2(gap) <==> Survives(units, k)
  {
    hide Pow2, Exact;
    Powers();
    var v, q := units * Pow2(k), Pow2(gap);
    var w := SplitPower(units, k, 4);
    CutOffIs(v, w, m);
    var c := SplitPower(units, k, 31);
    ExactIs(units, Pow2(k));
    GapFromAmount(Exact(units) * Pow2(k), c, m, v - 10_000 * m, gap, q);
  }

  /** Every amount in range has its scale. */
  lemma ScaleExists(units: int) returns (k: nat)
    requires 0 < units && Exact(units) < P52 / 2
    ensures IsScale(units, k)
  {
    hide *;
    var stored, scaled, raw := ConversionIsDefined(units);
    RoundsStored(units, stored, scaled, raw);
    StoredIs(units, stored);
    k := stored.k;
  }

  lemma RoundsStored(units: int, stored: Double, scaled: Double, raw: int)
    requires Converts(units, stored, scaled, raw)
    ensures Rounds(units as real / 10_000.0, stored)
  {}
}
