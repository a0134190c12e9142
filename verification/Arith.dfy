/** Integer division and products, kept apart from decimal notions. Division is by repeated
    subtraction, and one product by repeated addition, so that the verifier meets products only
    where a lemma introduces them. */
module Arith {

  function Quot(n: nat, d: int): nat
    requires d > 0
    decreases n
  {
    if n < d then 0 else 1 + Quot(n - d, d)
  }

  function Rem(n: nat, d: int): nat
    requires d > 0
    decreases n
  {
    if n < d then n else Rem(n - d, d)
  }

  function Times(a: nat, b: nat): nat
    decreases b
  {
    if b == 0 then 0 else a + Times(a, b - 1)
  }

  lemma {:induction false} TimesIs(a: nat, b: nat)
    ensures Times(a, b) == a * b
    decreases b
  {
    if b > 0 {
      TimesIs(a, b - 1);
      Spread(b - 1, 1, a);
    }
  }

  lemma {:induction false} QuotRem(n: nat, d: int)
    requires d > 0
    ensures n == Quot(n, d) * d + Rem(n, d) && Rem(n, d) < d
    decreases n
  {
    if n >= d {
      QuotRem(n - d, d);
      Spread(1, Quot(n - d, d), d);
    }
  }

  /** The floor of n / d is at least h exactly when n reaches h * d. */
  lemma FloorAtLeast(n: nat, d: int, h: int)
    requires d > 0
    ensures Quot(n, d) >= h <==> n >= h * d
  {
    var q := Quot(n, d);
    QuotRem(n, d);
    if q >= h {
      MulMonotone(h, q, d);
    } else {
      MulMonotone(q + 1, h, d);
      Spread(q, 1, d);
    }
  }

  lemma QuotIs(n: nat, d: int, q: nat)
    requires d > 0 && q * d <= n < q * d + d
    ensures Quot(n, d) == q && Rem(n, d) == n - q * d
  {
    Spread(q, 1, d);
    FloorAtLeast(n, d, q);
    FloorAtLeast(n, d, q + 1);
    QuotRem(n, d);
  }

  lemma QuotBelow(n: nat, d: int, t: int)
    requires d > 0 && n < d * t
    ensures Quot(n, d) < t
  {
    FloorAtLeast(n, d, t);
  }

  lemma {:induction false} QuotTen(n: nat, d: int)
    requires d > 0
    ensures Quot(10 * n, 10 * d) == Quot(n, d)
    decreases n
  {
    if n >= d {
      QuotTen(n - d, d);
    }
  }

  lemma MulMonotone(a: int, b: int, d: int)
    requires a <= b && d >= 0
    ensures a * d <= b * d
  {
  }

  lemma Spread(a: int, b: int, d: int)
    ensures (a + b) * d == a * d + b * d
  {
  }

  lemma TwiceTimes(r: int, d: int)
    ensures r * (2 * d) == 2 * (r * d)
    ensures (r + 1) * (2 * d) == 2 * (r * d) + 2 * d
    ensures (2 * r - 1) * d == 2 * (r * d) - d
  {
  }

  lemma Expand(y: int, d: int, k: int)
    ensures (2 * y - d) * k == 2 * (y * k) - d * k
    ensures (2 * y + d) * k == 2 * (y * k) + d * k
  {
  }

  /** Exchanges the last two factors. */
  lemma Swap(a: int, b: int, c: int)
    ensures a * b * c == a * c * b
  {
  }

  lemma TimesConstant(a: int, k: int, d: int)
    ensures a * (k * d) == k * (a * d) && k * a * d == k * (a * d)
  {
  }

  lemma MinusTimes(x: int, d: int)
    ensures -x * d == -(x * d)
  {
  }
}
