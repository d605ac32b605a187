/** The few nonlinear facts about division and products the other modules need. */
module Arithmetic {

  lemma {:induction false} MulMonotone(a: int, b: int, g: nat)
    requires a <= b
    ensures a * g <= b * g
  {
    assert b * g - a * g == (b - a) * g;
  }

  /** Euclidean division is the only way to write x as q*g + r with 0 <= r < g. */
  lemma {:induction false} DivModUnique(x: int, q: int, r: int, g: int)
    requires 0 <= r < g && x == q * g + r
    ensures x / g == q && x % g == r
  {
    assert x == (x / g) * g + x % g;
    if q != x / g {
      MulMonotone(Small(q, x / g) + 1, Large(q, x / g), g);
    }
  }

  function Small(a: int, b: int): int { if a <= b then a else b }
  function Large(a: int, b: int): int { if a <= b then b else a }

  lemma {:induction false} MultipleModZero(q: int, g: int)
    requires g > 0
    ensures (q * g) % g == 0
  {
    DivModUnique(q * g, q, 0, g);
  }

  lemma {:induction false} ModSub(m: int, a: int, g: int)
    requires g > 0 && m % g == 0 && a % g == 0
    ensures (m - a) % g == 0
  {
    var p, q := m / g, a / g;
    assert m - a == (p - q) * g;
    MultipleModZero(p - q, g);
  }

  lemma {:induction false} ModAdd(m: int, a: int, g: int)
    requires g > 0 && m % g == 0 && a % g == 0
    ensures (m + a) % g == 0
  {
    var p, q := m / g, a / g;
    assert m + a == (p + q) * g;
    MultipleModZero(p + q, g);
  }

  /** Row-major positions of an R x C matrix lie in [0, R*C). */
  lemma {:induction false} CellBound(r: int, c: int, rows: int, cols: int)
    requires 0 <= r < rows && 0 <= c < cols
    ensures 0 <= r * cols + c < rows * cols
  {
    MulMonotone(r + 1, rows, cols);
    assert (r + 1) * cols == r * cols + cols;
    MulMonotone(0, r, cols);
  }

  /** A position of an R x C matrix has a row below R and a column below C. */
  lemma {:induction false} CellInverse(x: int, rows: int, cols: int)
    requires 0 <= x < rows * cols && 0 < cols
    ensures 0 <= x / cols < rows && 0 <= x % cols < cols && x == (x / cols) * cols + x % cols
  {
    if x / cols >= rows {
      MulMonotone(rows, x / cols, cols);
    }
    if x / cols < 0 {
      MulMonotone(x / cols, -1, cols);
    }
  }

  /** n copies of x added up. */
  function Times(n: nat, x: real): real {
    if n == 0 then 0.0 else x + Times(n - 1, x)
  }

  lemma {:induction false} TimesOrder(n: nat, x: real, y: real)
    ensures n > 0 ==> (Times(n, x) < Times(n, y) <==> x < y)
  {
    if n > 1 { TimesOrder(n - 1, x, y); }
  }

  lemma {:induction false} TimesOfInt(n: nat, m: int)
    ensures Times(n, m as real) == (n * m) as real
  {
    if n > 0 {
      TimesOfInt(n - 1, m);
      assert n * m == (n - 1) * m + m;
    }
  }

  lemma {:induction false} TimesDouble(n: nat, x: real)
    ensures Times(n, 2.0 * x) == 2.0 * Times(n, x)
  {
    if n > 0 { TimesDouble(n - 1, x); }
  }
}
