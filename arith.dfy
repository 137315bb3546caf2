/** Powers of two and four, and the integer-division facts the shape
    arithmetic of the network builder rests on. */
module Arith {

  function Pow2(n: nat): (p: nat)
    ensures p >= 1
  {
    if n == 0 then 1 else 2 * Pow2(n - 1)
  }

  /** `4 ** n`, as written in the flatten-size formula. */
  function Pow4(n: nat): (p: nat)
    ensures p >= 1
  {
    if n == 0 then 1 else 4 * Pow4(n - 1)
  }

  lemma {:induction false} Pow4IsSquare(n: nat)
    ensures Pow4(n) == Pow2(n) * Pow2(n)
  {
    if n > 0 {
      Pow4IsSquare(n - 1);
      var p := Pow2(n - 1);
      assert Pow2(n) * Pow2(n) == (2 * p) * (2 * p);
      assert (2 * p) * (2 * p) == 4 * (p * p);
    }
  }

  lemma DivNonNegative(t: nat, d: nat)
    requires d > 0
    ensures t / d >= 0
  {
  }

  lemma Rearrange(a: int, b: int, c: int, p: int)
    ensures (a * p) * (b * p) * c == (a * b * c) * (p * p)
  {
  }

  lemma MulPositive(a: nat, b: nat, c: nat)
    requires a > 0 && b > 0 && c > 0
    ensures a * b * c > 0
  {
    MulMonotone(1, a, b);
    MulMonotone(1, a * b, c);
  }

  lemma MulMonotone(a: int, b: int, c: int)
    requires 0 <= a <= b && 0 <= c
    ensures a * c <= b * c
  {
  }

  /** Euclidean division is unique: a quotient and remainder in range are THE quotient and remainder. */
  lemma DivUnique(x: int, d: int, q: int, r: int)
    requires d > 0 && 0 <= r < d && x == q * d + r
    ensures x / d == q && x % d == r
  {
    var q0, r0 := x / d, x % d;
    assert x == q0 * d + r0;
    assert (q - q0) * d == r0 - r;
    if q0 < q {
      MulMonotone(1, q - q0, d);
      assert false;
    } else if q < q0 {
      MulMonotone(1, q0 - q, d);
      assert false;
    }
  }

  lemma MulDivCancel(m: nat, d: nat)
    requires d > 0
    ensures (m * d) / d == m && (m * d) % d == 0
  {
    DivUnique(m * d, d, m, 0);
  }

  lemma MulCancel(a: nat, b: nat, d: nat)
    requires d > 0 && a * d == b * d
    ensures a == b
  {
    MulDivCancel(a, d);
    MulDivCancel(b, d);
  }

  /** Dividing by `a` and then by `b` is dividing by `a * b`. */
  lemma DivDiv(x: nat, a: nat, b: nat)
    requires a > 0 && b > 0
    ensures x / a / b == x / (a * b)
  {
    var q, r := x / (a * b), x % (a * b);
    var r2, r1 := r / a, r % a;
    assert r2 < b by {
      if r2 >= b {
        MulMonotone(b, r2, a);
        assert false;
      }
    }
    assert x == (q * b + r2) * a + r1;
    DivUnique(x, a, q * b + r2, r1);
    DivUnique(q * b + r2, b, q, r2);
  }

  /** `h` halved `n` times, each time rounding down: `h / 2^n`. */
  function Halved(h: nat, n: nat): (r: nat)
  {
    DivNonNegative(h, Pow2(n));
    h / Pow2(n)
  }

  /** `t` divided by `4^n`, rounding down: `t // 4 ** n`. */
  function Quartered(t: nat, n: nat): (r: nat)
  {
    DivNonNegative(t, Pow4(n));
    t / Pow4(n)
  }

  /** One more halving of `h / 2^n` gives `h / 2^(n+1)`. */
  lemma HalveStep(h: nat, n: nat)
    ensures Halved(h, n) / 2 == Halved(h, n + 1)
  {
    DivDiv(h, Pow2(n), 2);
  }

  /** A positive multiple of `2^n` keeps at least one after `n` halvings. */
  lemma HalvedPositive(h: nat, n: nat)
    requires h > 0 && h % Pow2(n) == 0
    ensures Halved(h, n) > 0
  {
  }

  /** For multiples of `2^n`, dividing the product `h * w * c` by `4^n` loses
      nothing: it is the product of the halved sizes. */
  lemma DivPow4Exact(h: nat, w: nat, c: nat, n: nat)
    requires h % Pow2(n) == 0 && w % Pow2(n) == 0
    ensures Quartered(h * w * c, n) == Halved(h, n) * Halved(w, n) * c
  {
    var p := Pow2(n);
    var a, b := Halved(h, n), Halved(w, n);
    Pow4IsSquare(n);
    assert h == a * p && w == b * p;
    Rearrange(a, b, c, p);
    MulDivCancel(a * b * c, p * p);
  }

  /** In general the product of the halved sizes is at most `h * w * c / 4^n`. */
  lemma DivPow4Bound(h: nat, w: nat, c: nat, n: nat)
    ensures Halved(h, n) * Halved(w, n) * c <= Quartered(h * w * c, n)
  {
    var p := Pow2(n);
    var a, b := Halved(h, n), Halved(w, n);
    Pow4IsSquare(n);
    MulDivLe(h, p);
    MulDivLe(w, p);
    MulMonotone(a * p, h, b * p);
    MulMonotone(b * p, w, h);
    Rearrange(a, b, c, p);
    MulMonotone((a * p) * (b * p), h * w, c);
    LeDiv(a * b * c, p * p, h * w * c);
  }

  /** The largest multiple of `d` not above `x` is `(x / d) * d`. */
  lemma MulDivLe(x: nat, d: nat)
    requires d > 0
    ensures (x / d) * d <= x
  {
  }

  /** `m * d <= x` bounds `m` by `x / d`. */
  lemma LeDiv(m: nat, d: nat, x: nat)
    requires d > 0 && m * d <= x
    ensures m <= x / d
  {
    if x / d < m {
      MulMonotone(x / d + 1, m, d);
      assert false;
    }
  }
}
