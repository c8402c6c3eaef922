/** The few facts about division with remainder that the models need, each kept small for the solver. */
module Arithmetic {

  lemma MulMono(n: nat, a: int, b: int)
    requires a <= b
    ensures n * a <= n * b
  {
    MulSum(n, a, b - a);
  }

  lemma MulSum(n: int, a: int, b: int)
    ensures n * (a + b) == n * a + n * b
  {}

  /** Quotient and remainder are determined by their defining equation. */
  lemma DivModUnique(x: int, n: nat, q: int, r: int)
    requires n > 0 && 0 <= r < n && x == n * q + r
    ensures x / n == q && x % n == r
  {
    var p := x / n;
    if q < p {
      MulMono(n, q + 1, p);
      MulSum(n, q, 1);
    } else if p < q {
      MulMono(n, p + 1, q);
      MulSum(n, p, 1);
    }
  }

  /** Adding whole multiples of the divisor moves only the quotient. */
  lemma AddMultiple(x: int, n: nat, k: int)
    requires n > 0
    ensures (x + n * k) / n == x / n + k && (x + n * k) % n == x % n
  {
    MulSum(n, x / n, k);
    DivModUnique(x + n * k, n, x / n + k, x % n);
  }

  /** Reducing one summand first does not change the remainder of a sum. */
  lemma ModAbsorb(x: int, y: int, n: nat)
    requires n > 0
    ensures (x % n + y) % n == (x + y) % n
  {
    AddMultiple(x % n + y, n, x / n);
  }

  /** Quotients grow with their dividend. */
  lemma DivMono(x: int, y: int, n: nat)
    requires n > 0 && x <= y
    ensures x / n <= y / n
  {
    if y / n < x / n {
      MulMono(n, y / n + 1, x / n);
      MulSum(n, y / n, 1);
    }
  }

  /** Counting up by one, the quotient moves exactly at the multiples. */
  lemma DivStep(x: int, n: nat)
    requires n > 0
    ensures (x + 1) / n == x / n + (if (x + 1) % n == 0 then 1 else 0)
  {
    if x % n + 1 == n {
      MulSum(n, x / n, 1);
      DivModUnique(x + 1, n, x / n + 1, 0);
    } else {
      DivModUnique(x + 1, n, x / n, x % n + 1);
    }
  }

  /** A number leaves remainder p exactly when p less is a multiple. */
  lemma SameResidue(x: int, p: nat, n: nat)
    requires p < n
    ensures (x - p) % n == 0 <==> x % n == p
  {
    ModAbsorb(x, 0 - p, n);
    var y := x % n - p;
    if y < 0 {
      DivModUnique(y, n, -1, y + n);
    } else {
      DivModUnique(y, n, 0, y);
    }
  }

  /** Two numbers less than n apart with one remainder are equal. */
  lemma SamePlace(x: int, y: int, n: nat)
    requires n > 0 && x % n == y % n && x <= y < x + n
    ensures x == y
  {
    if y / n > x / n {
      MulMono(n, x / n + 1, y / n);
      MulSum(n, x / n, 1);
    } else {
      MulMono(n, y / n, x / n);
    }
  }
}
