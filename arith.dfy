/** Facts about integer multiplication and floor division that the window
    arithmetic of date_range needs. Dafny's `/` on int with a positive
    divisor rounds toward minus infinity, like Python's `//`. */
module Arith {
  lemma MulMonotone(w: int, i: int, j: int)
    requires 0 <= w && i <= j
    ensures w * i <= w * j
  {
    assert w * j - w * i == w * (j - i);
  }

  lemma MulAddOne(n: int, d: int)
    ensures n * (d + 1) == n * d + n
  {
  }

  lemma FloorDiv(x: int, n: int)
    requires n > 0
    ensures n * (x / n) <= x < n * (x / n) + n
  {
  }

  /** x / n is the only q with n * q <= x < n * q + n. */
  lemma DivUnique(x: int, n: int, q: int)
    requires n > 0 && n * q <= x < n * q + n
    ensures x / n == q
  {
    var d := x / n;
    FloorDiv(x, n);
    if d < q {
      MulMonotone(n, d + 1, q);
      MulAddOne(n, d);
    } else if d > q {
      MulMonotone(n, q + 1, d);
      MulAddOne(n, q);
    }
  }

  lemma DivMonotone(a: int, b: int, n: int)
    requires n > 0 && a <= b
    ensures a / n <= b / n
  {
    var p, q := a / n, b / n;
    FloorDiv(a, n);
    FloorDiv(b, n);
    if p > q {
      MulMonotone(n, q + 1, p);
      MulAddOne(n, q);
    }
  }
}
