/** Division and remainder by a divisor that is not a literal, and powers of two.
    The recursive definitions keep the solver away from non-linear division;
    DivIsDiv says they are the usual operators. */
module Arith {
  const INT_MAX: nat := 0x7fff_ffff

  function Div(n: nat, d: nat): nat
    requires d > 0
  {
    if n < d then 0 else 1 + Div(n - d, d)
  }

  function Mod(n: nat, d: nat): (r: nat)
    requires d > 0
    ensures r < d
  {
    if n < d then n else Mod(n - d, d)
  }

  function Pow2(n: nat): (p: nat)
    ensures p >= 1
  {
    if n == 0 then 1 else 2 * Pow2(n - 1)
  }

  lemma MulGe(k: int, d: int)
    requires k >= 1 && d >= 0
    ensures k * d >= d
  {
  }

  lemma Distribute(a: int, b: int, d: int)
    ensures (a - b) * d == a * d - b * d
    ensures (a + b) * d == a * d + b * d
  {
  }

  lemma MulMono(a: int, b: int, d: int)
    requires a <= b && d >= 0
    ensures a * d <= b * d
  {
  }

  lemma {:induction false} DivMod(n: nat, d: nat)
    requires d > 0
    ensures n == Div(n, d) * d + Mod(n, d)
  {
    if n >= d {
      DivMod(n - d, d);
      Distribute(Div(n - d, d), 1, d);
    }
  }

  /** Quotient and remainder are determined by the equation they satisfy. */
  lemma Unique(d: nat, q: int, r: int, q': int, r': int)
    requires d > 0 && q * d + r == q' * d + r' && 0 <= r < d && 0 <= r' < d
    ensures q == q' && r == r'
  {
    Distribute(q, q', d);
    Distribute(q', q, d);
    if q > q' { MulGe(q - q', d); }
    if q < q' { MulGe(q' - q, d); }
  }

  lemma DivUnique(n: nat, d: nat, q: nat, r: nat)
    requires d > 0 && n == q * d + r && r < d
    ensures Div(n, d) == q && Mod(n, d) == r
  {
    DivMod(n, d);
    Unique(d, q, r, Div(n, d), Mod(n, d));
  }

  lemma DivIsDiv(n: nat, d: nat)
    requires d > 0
    ensures Div(n, d) == n / d && Mod(n, d) == n % d
  {
    DivMod(n, d);
    assert n == n / d * d + n % d;
    Unique(d, n / d, n % d, Div(n, d), Mod(n, d));
  }

  lemma {:induction false} DivMono(a: nat, b: nat, d: nat)
    requires d > 0 && a <= b
    ensures Div(a, d) <= Div(b, d)
  {
    if a >= d {
      DivMono(a - d, b - d, d);
    }
  }

  lemma DivLess(n: nat, d: nat, q: nat)
    requires d > 0 && n < q * d
    ensures Div(n, d) < q
  {
    DivMod(n, d);
    if Div(n, d) >= q {
      MulMono(q, Div(n, d), d);
    }
  }

  lemma DivBound(n: nat, d: nat, q: nat)
    requires d > 0 && Div(n, d) < q
    ensures n < q * d
  {
    DivMod(n, d);
    MulMono(Div(n, d) + 1, q, d);
    Distribute(Div(n, d), 1, d);
  }

  /** (n + d - 1) & ~(d - 1), for d a power of two */
  function RoundUp(n: nat, d: nat): nat
    requires d > 0
  {
    Div(n + d - 1, d) * d
  }

  lemma RoundUpBounds(n: nat, d: nat)
    requires d > 0
    ensures n <= RoundUp(n, d) < n + d
  {
    DivMod(n + d - 1, d);
  }

  lemma {:induction false} EvenMul(k: nat, d: nat, c: int)
    requires d % 2 == 0 && c == k * d
    ensures c % 2 == 0
    decreases k
  {
    if k > 0 {
      Distribute(k - 1, 1, d);
      EvenMul(k - 1, d, c - d);
    }
  }

  lemma Regroup(q: nat, r: nat, b: nat, a: nat)
    ensures (q * b + r) * a == q * (a * b) + r * a
  {
    Distribute(q * b, r, a);
    assert (q * b) * a == q * (a * b);
  }

  lemma LowPart(r2: nat, b: nat, r: nat, a: nat)
    requires r2 < b && r < a
    ensures r2 * a + r < a * b
  {
    MulMono(r2 + 1, b, a);
    Distribute(r2, 1, a);
  }

  /** Shifting twice is shifting once by the sum: n >> (a + b) == (n >> a) >> b. */
  lemma DivDiv(n: nat, a: nat, b: nat, ab: nat)
    requires a > 0 && b > 0 && ab > 0 && ab == a * b
    ensures Div(n, ab) == Div(Div(n, a), b)
  {
    var q, r := Div(n, a), Mod(n, a);
    var q2, r2 := Div(q, b), Mod(q, b);
    DivMod(n, a);
    DivMod(q, b);
    Regroup(q2, r2, b, a);
    LowPart(r2, b, r, a);
    DivUnique(n, ab, q2, r2 * a + r);
  }
}
